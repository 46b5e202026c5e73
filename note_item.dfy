/**
 * The `note-item` element: it shows one note, opens the shared form to edit
 * it, and deletes it from localStorage once the user confirms.
 */
module NoteItemComponent {
  import opened Notes
  import opened Text
  import opened Dom
  import opened NoteFormComponent

  /**
   * What `render` puts in the shadow root that depends on the note: its title,
   * its body, and the minute of its date line, which `MinutesText` spells.
   */
  datatype ItemView = ItemView(title: string, body: string, minute: nat)

  /**
   * `new Date(createdAt).getMinutes()` for a local-time timestamp in
   * milliseconds: the timestamp lies in minute `m` of its hour.
   */
  function MinuteOfHour(createdAt: int): (m: nat)
    ensures m < 60
    ensures 0 <= createdAt - (createdAt / 3600000) * 3600000 - m * 60000 < 60000
  {
    (createdAt / 60000) % 60
  }

  /** `getMinutes().toString().padStart(2, '0')` */
  function MinutesText(m: nat): string {
    PadStart(DecimalString(m), 2, '0')
  }

  /** Minutes always come out as exactly two digits, left-padded with '0', that read back as the minute. */
  lemma MinutesTextTwoDigits(m: nat)
    requires m < 60
    ensures |MinutesText(m)| == 2 && AllDigits(MinutesText(m))
    ensures DecimalValue(MinutesText(m)) == m
    ensures MinutesText(m)[0] == '0' <==> m < 10
  {
    var d := DecimalString(m);
    var r := MinutesText(m);
    if m < 10 {
      assert r == ['0'] + d;
      assert r[..1] == ['0'];
      assert DecimalValue(['0']) == 0 by {
        assert ['0'][..0] == [];
      }
    } else {
      assert DecimalString(m / 10) == [DigitChar(m / 10)];
      assert r == d;
    }
  }

  function ViewOf(n: Note): ItemView {
    ItemView(n.title, n.body, MinuteOfHour(n.createdAt))
  }

  /** The minute an item renders is spelled as two digits that read back as the note's minute. */
  lemma RenderedMinute(n: Note)
    ensures |MinutesText(ViewOf(n).minute)| == 2 && AllDigits(MinutesText(ViewOf(n).minute))
    ensures DecimalValue(MinutesText(ViewOf(n).minute)) == MinuteOfHour(n.createdAt)
  {
    MinutesTextTwoDigits(ViewOf(n).minute);
  }

  /** `notes.splice(i, 1)` */
  function RemoveAt(notes: seq<Note>, i: nat): (r: seq<Note>)
    requires i < |notes|
    ensures |r| == |notes| - 1
  {
    notes[..i] + notes[i + 1..]
  }

  /**
   * Deleting by id, defined on its own: drop the first note with that id and
   * keep the others in order.
   */
  function RemoveFirst(notes: seq<Note>, id: string): (r: seq<Note>)
    ensures FindIndex(notes, id) == -1 ==> r == notes
    ensures FindIndex(notes, id) >= 0 ==> |r| == |notes| - 1
    decreases |notes|
  {
    if notes == [] then []
    else if notes[0].id == id then notes[1..]
    else [notes[0]] + RemoveFirst(notes[1..], id)
  }

  /**
   * The deletion takes out exactly the first note with the id, as a multiset,
   * and keeps the rest in their order.
   */
  lemma {:induction false} RemoveFirstSpec(notes: seq<Note>, id: string)
    ensures FindIndex(notes, id) >= 0 ==>
              multiset(RemoveFirst(notes, id)) + multiset{notes[FindIndex(notes, id)]} == multiset(notes)
    ensures IsSubsequence(RemoveFirst(notes, id), notes)
    decreases |notes|
  {
    if notes != [] {
      HeadAndTail(notes);
      if notes[0].id == id {
        SubsequenceReflexive(notes[1..]);
      } else {
        RemoveFirstSpec(notes[1..], id);
        var rest := RemoveFirst(notes[1..], id);
        HeadAndTail([notes[0]] + rest);
        assert FindIndex(notes, id) >= 0 ==> notes[FindIndex(notes, id)] == notes[1..][FindIndex(notes[1..], id)];
      }
    }
  }

  /** Deleting by id at the first match `i` cuts out position `i`. */
  lemma {:induction false} RemoveFirstAt(notes: seq<Note>, id: string, i: nat)
    requires i < |notes| && notes[i].id == id
    requires forall j :: 0 <= j < i ==> notes[j].id != id
    ensures RemoveFirst(notes, id) == notes[..i] + notes[i + 1..]
    decreases i
  {
    if i > 0 {
      var tail := notes[1..];
      assert forall j :: 0 <= j < i - 1 ==> tail[j].id != id by {
        forall j | 0 <= j < i - 1 ensures tail[j].id != id {
          assert tail[j] == notes[j + 1];
        }
      }
      RemoveFirstAt(tail, id, i - 1);
      CutAfterHead(notes, i);
    }
  }

  /** The splice at `findIndex` is exactly the reference deletion. */
  lemma SpliceIsRemoveFirst(notes: seq<Note>, id: string)
    requires FindIndex(notes, id) >= 0
    ensures RemoveAt(notes, FindIndex(notes, id)) == RemoveFirst(notes, id)
  {
    RemoveFirstAt(notes, id, FindIndex(notes, id));
  }

  /** Deleting by the id of a note appended last, an id no earlier note has, removes exactly that note. */
  lemma {:induction false} RemoveFirstAppended(notes: seq<Note>, x: Note)
    requires FindIndex(notes, x.id) == -1
    ensures RemoveFirst(notes + [x], x.id) == notes
    decreases |notes|
  {
    if notes != [] {
      assert (notes + [x])[1..] == notes[1..] + [x];
      RemoveFirstAppended(notes[1..], x);
    }
  }

  /** Deleting the note just appended under a fresh id gives back the list before the append. */
  lemma DeleteUndoesAdd(notes: seq<Note>, draft: Draft, freshId: string)
    requires !HasId(draft.id)
    requires FindIndex(notes, freshId) == -1
    ensures RemoveFirst(Upsert(notes, draft, freshId), freshId) == notes
  {
    assert Upsert(notes, draft, freshId) == notes + [SavedNote(draft, freshId)];
    RemoveFirstAppended(notes, SavedNote(draft, freshId));
  }

  class NoteItem {
    /** `_note`; None stands for the initial placeholder record whose fields are all null. */
    var note: Option<Note>
    /** What the last `render` showed; None before the first one. */
    var view: Option<ItemView>

    constructor ()
      ensures note == None && view == None
    {
      note := None;
      view := None;
    }

    /** The `note` setter: binds the note and re-renders. */
    method SetNote(value: Note)
      modifies this
      ensures note == Some(value)
      ensures view == Some(ViewOf(value))
    {
      note := Some(value);
      view := Some(ViewOf(value));
    }

    /** `_openEditForm`: opens the shared form on this note, bound to this note's id. */
    method OpenEditForm(form: NoteForm?)
      modifies form
      ensures form != null ==>
                && form.noteId == (if note.Some? then Some(note.value.id) else None)
                && form.title == (if note.Some? then note.value.title else "")
                && form.body == (if note.Some? then note.value.body else "")
                && form.displayed
                && form.titleError == old(form.titleError) && form.bodyError == old(form.bodyError)
    {
      if form != null {
        form.Open(note, if note.Some? then Some(note.value.id) else None);
      }
    }

    /**
     * `_deleteNote`: splices out the first stored note with this note's id; only
     * then are storage written, `notesChanged` broadcast and the list's
     * `_loadNotes` called.
     */
    method DeleteNote(store: LocalStorage, doc: Document)
      modifies store, doc
      ensures note.Some? && FindIndex(old(store.notes), note.value.id) >= 0 ==>
                && store.notes == RemoveFirst(old(store.notes), note.value.id)
                && doc.log == old(doc.log) + [Dispatched(NotesChanged), ListLoadCalled]
      ensures !(note.Some? && FindIndex(old(store.notes), note.value.id) >= 0) ==>
                && store.notes == old(store.notes)
                && doc.log == old(doc.log)
    {
      if note.Some? {
        var notes := store.notes;
        var index := FindIndex(notes, note.value.id);
        if index != -1 {
          SpliceIsRemoveFirst(notes, note.value.id);
          notes := RemoveAt(notes, index);
          store.notes := notes;
          doc.Record(Dispatched(NotesChanged));
          doc.Record(ListLoadCalled);
        }
      }
    }

    /** The delete button: `_deleteNote` runs only when the confirmation answers yes. */
    method OnDeleteClick(confirmed: bool, store: LocalStorage, doc: Document)
      modifies store, doc
      ensures confirmed && note.Some? && FindIndex(old(store.notes), note.value.id) >= 0 ==>
                && store.notes == RemoveFirst(old(store.notes), note.value.id)
                && doc.log == old(doc.log) + [Dispatched(NotesChanged), ListLoadCalled]
      ensures !(confirmed && note.Some? && FindIndex(old(store.notes), note.value.id) >= 0) ==>
                && store.notes == old(store.notes)
                && doc.log == old(doc.log)
    {
      if confirmed {
        DeleteNote(store, doc);
      }
    }
  }
}

/**
 * The `note-form` popup: per-field length rules, submission gated on both
 * fields, the open / hide / clear lifecycle, and saving into localStorage as
 * an upsert by id.
 */
module NoteFormComponent {
  import opened Notes
  import opened Dom

  datatype Field = Title | Body

  /** Where a click on the popup lands: on the backdrop itself, or inside the form container. */
  datatype ClickTarget = Backdrop | Container

  const TitleTooShort := "Title must be at least 3 characters long."
  const BodyTooShort := "Body must be at least 6 characters long."

  function MinLength(field: Field): nat {
    match field
    case Title => 3
    case Body => 6
  }

  /** The text of the error line under a field after validating `value`; "" means the line is hidden. */
  function ErrorText(field: Field, value: string): (r: string)
    ensures r == "" <==> |value| >= MinLength(field)
    ensures r != "" ==> r == (if field == Title then TitleTooShort else BodyTooShort)
  {
    if |value| >= MinLength(field) then ""
    else if field == Title then TitleTooShort
    else BodyTooShort
  }

  /** The record `_handleSubmit` builds: `{ id: this._noteId, title, body, createdAt }`. */
  datatype Draft = Draft(id: Option<string>, title: string, body: string, createdAt: int)

  /** `if (note.id)`: a missing id and the empty string are falsy. */
  predicate HasId(id: Option<string>) {
    id.Some? && id.value != ""
  }

  /**
   * The note as it ends up in storage: with its own id, or with `freshId` when
   * it has none. The record has no `isArchived` field, which reads as false.
   */
  function SavedNote(draft: Draft, freshId: string): Note {
    Note(if HasId(draft.id) then draft.id.value else freshId, draft.title, draft.body, draft.createdAt, false)
  }

  /**
   * The list `_saveNoteToLocalStorage` writes back: a note with an id replaces
   * the first note with that id (or changes nothing when there is none); a
   * note without an id gets `freshId` and is appended.
   */
  function Upsert(notes: seq<Note>, draft: Draft, freshId: string): (r: seq<Note>)
    ensures HasId(draft.id) ==> |r| == |notes|
    ensures HasId(draft.id) && FindIndex(notes, draft.id.value) == -1 ==> r == notes
    ensures HasId(draft.id) && FindIndex(notes, draft.id.value) >= 0 ==>
              var i := FindIndex(notes, draft.id.value);
              && r[i] == SavedNote(draft, freshId)
              && r[i].id == draft.id.value
              && r[i].createdAt == draft.createdAt
              && forall j :: 0 <= j < |notes| && j != i ==> r[j] == notes[j]
    ensures !HasId(draft.id) ==>
              && |r| == |notes| + 1
              && r[..|notes|] == notes
              && r[|notes|] == SavedNote(draft, freshId)
              && r[|notes|].id == freshId
  {
    if HasId(draft.id) then
      var i := FindIndex(notes, draft.id.value);
      if i == -1 then notes else notes[i := SavedNote(draft, freshId)]
    else
      notes + [SavedNote(draft, freshId)]
  }

  /** Saving an edit a second time changes nothing more. */
  lemma UpsertEditIdempotent(notes: seq<Note>, draft: Draft, freshId: string)
    requires HasId(draft.id)
    ensures Upsert(Upsert(notes, draft, freshId), draft, freshId) == Upsert(notes, draft, freshId)
  {
    var id := draft.id.value;
    var i := FindIndex(notes, id);
    if i >= 0 {
      var r := Upsert(notes, draft, freshId);
      var k := FindIndex(r, id);
      assert r[i].id == id;
      assert forall j :: 0 <= j < i ==> r[j].id != id;
      assert k == i;
    }
  }

  class NoteForm {
    /** `_noteId`: the id of the note being edited, as `open` bound it. */
    var noteId: Option<string>
    /** The value of the title input. */
    var title: string
    /** The value of the body textarea. */
    var body: string
    /** Whether `style.display` is 'block'; otherwise the element's stylesheet hides it. */
    var displayed: bool
    /** The error line under the title; "" when it is hidden. */
    var titleError: string
    /** The error line under the body; "" when it is hidden. */
    var bodyError: string

    /** A freshly created and rendered form: nothing bound, empty fields, hidden. */
    constructor ()
      ensures noteId == None && title == "" && body == ""
      ensures !displayed && titleError == "" && bodyError == ""
    {
      noteId := None;
      title, body := "", "";
      displayed := false;
      titleError, bodyError := "", "";
    }

    function Value(field: Field): string
      reads this
    {
      match field
      case Title => title
      case Body => body
    }

    /** `_emptyForm` */
    method EmptyForm()
      modifies this`title, this`body
      ensures title == "" && body == ""
    {
      title, body := "", "";
    }

    /**
     * `open(note, id)`: binds `id` and loads the note's title and body; an
     * omitted note (or the placeholder record of nulls) gives empty fields.
     * Error lines are left as they were.
     */
    method Open(draft: Option<Note>, id: Option<string>)
      modifies this`noteId, this`title, this`body, this`displayed
      ensures noteId == id
      ensures title == (if draft.Some? then draft.value.title else "")
      ensures body == (if draft.Some? then draft.value.body else "")
      ensures displayed
    {
      noteId := id;
      title := if draft.Some? then draft.value.title else "";
      body := if draft.Some? then draft.value.body else "";
      displayed := true;
    }

    /**
     * `_handleOutsideClick`: a click on the backdrop hides the form and clears
     * the fields; a click inside the container never reaches the handler.
     */
    method OnClick(target: ClickTarget)
      modifies this`displayed, this`title, this`body
      ensures target == Backdrop ==> !displayed && title == "" && body == ""
      ensures target == Container ==> displayed == old(displayed) && title == old(title) && body == old(body)
    {
      if target == Backdrop {
        displayed := false;
        EmptyForm();
      }
    }

    /**
     * `_validateInput(field)`: the field is valid exactly when its value is at
     * least `MinLength(field)` characters long (no trimming); the field's error
     * line is shown or hidden to match, and the other field's line is untouched.
     */
    method ValidateInput(field: Field) returns (isValid: bool)
      modifies this`titleError, this`bodyError
      ensures isValid <==> |Value(field)| >= MinLength(field)
      ensures field == Title ==> titleError == ErrorText(Title, title) && bodyError == old(bodyError)
      ensures field == Body ==> bodyError == ErrorText(Body, body) && titleError == old(titleError)
    {
      isValid := true;
      if field == Title && |title| < 3 {
        titleError := TitleTooShort;
        isValid := false;
      } else if field == Body && |body| < 6 {
        bodyError := BodyTooShort;
        isValid := false;
      } else if field == Title {
        titleError := "";
      } else {
        bodyError := "";
      }
    }

    /** The `input` listeners: the user edits a field, which is validated at once. */
    method OnInput(field: Field, value: string)
      modifies this`title, this`body, this`titleError, this`bodyError
      ensures Value(field) == value
      ensures field == Title ==> body == old(body) && titleError == ErrorText(Title, value) && bodyError == old(bodyError)
      ensures field == Body ==> title == old(title) && bodyError == ErrorText(Body, value) && titleError == old(titleError)
    {
      if field == Title {
        title := value;
      } else {
        body := value;
      }
      var _ := ValidateInput(field);
    }

    /**
     * `_handleSubmit`: both fields are validated, always; only when both pass
     * is the note saved, stamped with `now` as its `createdAt`, and the form
     * hidden and emptied. The bound id is kept either way.
     */
    method HandleSubmit(now: int, freshId: string, store: LocalStorage, doc: Document)
      modifies this, store, doc
      ensures titleError == ErrorText(Title, old(title)) && bodyError == ErrorText(Body, old(body))
      ensures noteId == old(noteId)
      ensures |old(title)| >= MinLength(Title) && |old(body)| >= MinLength(Body) ==>
                && store.notes == Upsert(old(store.notes), Draft(old(noteId), old(title), old(body), now), freshId)
                && !displayed && title == "" && body == ""
                && doc.log == old(doc.log) + [ListRenderCalled, Dispatched(NotesChanged)]
      ensures !(|old(title)| >= MinLength(Title) && |old(body)| >= MinLength(Body)) ==>
                && store.notes == old(store.notes)
                && displayed == old(displayed) && title == old(title) && body == old(body)
                && doc.log == old(doc.log)
    {
      var titleValid := ValidateInput(Title);
      var bodyValid := ValidateInput(Body);
      if titleValid && bodyValid {
        var note := Draft(noteId, title, body, now);
        SaveNote(note, freshId, store, doc);
        displayed := false;
        EmptyForm();
      }
    }

    /**
     * `_saveNoteToLocalStorage`: the upsert on the stored array, then a direct
     * `render()` of the note list and a `notesChanged` broadcast.
     */
    method SaveNote(note: Draft, freshId: string, store: LocalStorage, doc: Document)
      modifies store, doc
      ensures store.notes == Upsert(old(store.notes), note, freshId)
      ensures doc.log == old(doc.log) + [ListRenderCalled, Dispatched(NotesChanged)]
    {
      var notes := store.notes;
      if HasId(note.id) {
        var existingNoteIndex := FindIndex(notes, note.id.value);
        if existingNoteIndex != -1 {
          notes := notes[existingNoteIndex := SavedNote(note, freshId)];
        }
      } else {
        notes := notes + [SavedNote(note, freshId)];
      }
      store.notes := notes;
      doc.Record(ListRenderCalled);
      doc.Record(Dispatched(NotesChanged));
    }
  }
}

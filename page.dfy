/**
 * The components working together on one page: the archive button and the
 * list's `toggleArchive` listener, and what the add-note button does to a form
 * that was last used for an edit.
 */
module Page {
  import opened Notes
  import opened Dom
  import opened NoteFormComponent
  import opened NoteItemComponent
  import opened NoteListing
  import opened AppBarComponent

  /**
   * A click on the archive button, then the list's `toggleArchive` listener
   * receiving that broadcast: bar and list agree on the new state, the label
   * follows it, and the list shows the selected notes newest first.
   */
  method ArchiveButtonClicked(bar: AppBar, list: NoteList, svc: Service, indicator: LoadingIndicator?, doc: Document)
    modifies bar, list`showArchived, list`items, indicator, doc
    ensures bar.showArchived == Set(!Truthy(old(bar.showArchived)))
    ensures list.showArchived == bar.showArchived
    ensures bar.LabelMatches()
    ensures list.Shows(LoadNotes(bar.showArchived, svc).notes)
    ensures doc.log == old(doc.log) + [Dispatched(ToggleArchive(!Truthy(old(bar.showArchived))))]
                       + AlertsOf(LoadNotes(bar.showArchived, svc))
    ensures indicator != null ==> !indicator.shown
  {
    bar.HandleArchiveToggle(doc);
    var broadcast := doc.log[|doc.log| - 1];
    list.React(broadcast, svc, indicator, doc);
  }

  /** Two clicks on the archive button restore the shown/hidden state and the label. */
  method ArchiveButtonClickedTwice(bar: AppBar, list: NoteList, svc: Service, indicator: LoadingIndicator?, doc: Document)
    requires bar.LabelMatches()
    modifies bar, list`showArchived, list`items, indicator, doc
    ensures Truthy(bar.showArchived) == Truthy(old(bar.showArchived))
    ensures bar.archiveLabel == old(bar.archiveLabel)
    ensures Truthy(list.showArchived) == Truthy(old(bar.showArchived))
    ensures list.Shows(LoadNotes(list.showArchived, svc).notes)
  {
    ArchiveButtonClicked(bar, list, svc, indicator, doc);
    ArchiveButtonClicked(bar, list, svc, indicator, doc);
  }

  /**
   * The steps both finding scenarios share: one stored note is opened for
   * editing through its item, its body is changed, and the edit is saved.
   */
  method EditStoredNote() returns (store: LocalStorage, doc: Document, form: NoteForm)
    ensures fresh(store) && fresh(doc) && fresh(form)
    ensures store.notes == [Note("note-1", "First note", "first body, edited", 2000, false)]
    ensures form.noteId == Some("note-1")
    ensures !form.displayed && form.title == "" && form.body == ""
  {
    var original := Note("note-1", "First note", "first body", 1000, false);
    store := new LocalStorage([original]);
    doc := new Document();
    form := new NoteForm();
    var item := new NoteItem();
    item.SetNote(original);
    item.OpenEditForm(form);
    form.OnInput(Body, "first body, edited");
    assert |form.title| >= MinLength(Title) && |form.body| >= MinLength(Body);
    assert FindIndex(store.notes, "note-1") == 0;
    form.HandleSubmit(2000, "fresh-1", store, doc);
  }

  /**
   * The code as written: after that edit, press "+ Add Note" and save a new
   * title and body. The form still holds the edited note's id, so the new
   * note replaces the edited one and nothing is added.
   */
  method AddAfterEditOverwrites() returns (before: seq<Note>, after: seq<Note>)
    ensures |before| == 1 && before[0].title == "First note"
    ensures |after| == |before|
    ensures after[0].id == before[0].id && after[0].title == "Second note"
  {
    var store, doc, form := EditStoredNote();
    before := store.notes;
    var bar := new AppBar();
    var _ := bar.HandleAddNoteClick(form);
    form.OnInput(Title, "Second note");
    form.OnInput(Body, "second body");
    assert FindIndex(store.notes, "note-1") == 0;
    form.HandleSubmit(3000, "fresh-2", store, doc);
    after := store.notes;
  }

  /**
   * The same steps with the add-note click opening the form blank: the new
   * note is appended under a fresh id and the edited note stays.
   */
  method AddAfterEditAppendsWhenFixed() returns (before: seq<Note>, after: seq<Note>)
    ensures |before| == 1 && before[0].title == "First note"
    ensures |after| == |before| + 1 && after[..|before|] == before
    ensures after[|before|].id == "fresh-2" && after[|before|].title == "Second note"
  {
    var store, doc, form := EditStoredNote();
    before := store.notes;
    var bar := new AppBar();
    var _ := bar.HandleAddNoteClickFixed(form);
    form.OnInput(Title, "Second note");
    form.OnInput(Body, "second body");
    form.HandleSubmit(3000, "fresh-2", store, doc);
    after := store.notes;
  }
}

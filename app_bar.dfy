/**
 * The `app-bar` element: the archive button (a one-bit state whose label and
 * broadcast follow the new value), the search form and the add-note button.
 */
module AppBarComponent {
  import opened Notes
  import opened Dom
  import opened NoteFormComponent

  const ShowArchiveLabel := "Show Archive"
  const HideArchiveLabel := "Hide Archive"

  /** The archive button's text: "Hide Archive" exactly when archived notes are shown. */
  function ArchiveLabel(showArchived: bool): (text: string)
    ensures text == HideArchiveLabel <==> showArchived
    ensures text == ShowArchiveLabel <==> !showArchived
  {
    if showArchived then HideArchiveLabel else ShowArchiveLabel
  }

  class AppBar {
    /** `_showArchived`, behind the `showArchived` getter and setter; undefined at first. */
    var showArchived: Toggle
    /** The `textContent` of the archive button. */
    var archiveLabel: string

    /** The button's text agrees with the state it toggles. */
    ghost predicate LabelMatches()
      reads this
    {
      archiveLabel == ArchiveLabel(Truthy(showArchived))
    }

    /** A created and rendered bar: the markup says "Show Archive", the state is undefined. */
    constructor ()
      ensures showArchived == Unset && archiveLabel == ShowArchiveLabel
      ensures LabelMatches()
    {
      showArchived := Unset;
      archiveLabel := ShowArchiveLabel;
    }

    /** The `showArchived` setter: store the value and relabel the button. */
    method SetShowArchived(value: bool)
      modifies this
      ensures showArchived == Set(value)
      ensures archiveLabel == ArchiveLabel(value)
      ensures LabelMatches()
    {
      showArchived := Set(value);
      archiveLabel := if value then HideArchiveLabel else ShowArchiveLabel;
    }

    /**
     * `_handleArchiveToggle`: the state becomes the negation of the old one (an
     * undefined state counts as false, so the first toggle gives true), and
     * `toggleArchive` is broadcast with the new value.
     */
    method HandleArchiveToggle(doc: Document)
      modifies this, doc
      ensures showArchived == Set(!Truthy(old(showArchived)))
      ensures archiveLabel == ArchiveLabel(!Truthy(old(showArchived)))
      ensures LabelMatches()
      ensures doc.log == old(doc.log) + [Dispatched(ToggleArchive(!Truthy(old(showArchived))))]
    {
      var value := !Truthy(showArchived);
      SetShowArchived(value);
      doc.Record(Dispatched(ToggleArchive(value)));
    }

    /** `_handleSearchSubmit`: it only prevents the default submission; nothing changes, nothing is sent. */
    method HandleSearchSubmit() returns (defaultPrevented: bool)
      ensures defaultPrevented
    {
      defaultPrevented := true;
    }

    /**
     * `_handleAddNoteClick`: an existing form is only displayed again, with its
     * bound id and fields as they were; without one, exactly one new form is
     * created, which its stylesheet keeps hidden.
     */
    method HandleAddNoteClick(form: NoteForm?) returns (created: NoteForm?)
      modifies form
      ensures form != null ==>
                && created == null
                && form.displayed
                && form.noteId == old(form.noteId)
                && form.title == old(form.title) && form.body == old(form.body)
                && form.titleError == old(form.titleError) && form.bodyError == old(form.bodyError)
      ensures form == null ==>
                && created != null && fresh(created)
                && !created.displayed && created.noteId == None
                && created.title == "" && created.body == ""
                && created.titleError == "" && created.bodyError == ""
    {
      created := null;
      if form != null {
        form.displayed := true;
      } else {
        created := new NoteForm();
      }
    }

    /**
     * The add-note click as evidently intended: an existing form is opened
     * blank, with no id bound, so the next save creates a note.
     */
    method HandleAddNoteClickFixed(form: NoteForm?) returns (created: NoteForm?)
      modifies form
      ensures form != null ==>
                && created == null
                && form.displayed
                && form.noteId == None
                && form.title == "" && form.body == ""
                && form.titleError == old(form.titleError) && form.bodyError == old(form.bodyError)
      ensures form == null ==>
                && created != null && fresh(created)
                && !created.displayed && created.noteId == None
                && created.title == "" && created.body == ""
                && created.titleError == "" && created.bodyError == ""
    {
      created := null;
      if form != null {
        form.Open(None, None);
      } else {
        created := new NoteForm();
      }
    }
  }
}

/**
 * What the components share through the page: the document, which carries
 * their broadcasts and their direct calls on the note list, the `notes`
 * entry of localStorage, and the loading indicator.
 */
module Dom {
  import opened Notes

  /** The custom events dispatched on `document`. */
  datatype Signal = NotesChanged | ToggleArchive(showArchived: bool)

  /** One thing a component does to the page outside its own element, in the order it happens. */
  datatype Effect =
    | Dispatched(signal: Signal)   // document.dispatchEvent(new CustomEvent(...))
    | ListRenderCalled             // document.querySelector('note-list').render()
    | ListLoadCalled               // document.querySelector('note-list')._loadNotes()
    | ErrorAlert(message: string)  // the error dialog a component opens

  class Document {
    var log: seq<Effect>

    constructor ()
      ensures log == []
    {
      log := [];
    }

    method Record(e: Effect)
      modifies this
      ensures log == old(log) + [e]
    {
      log := log + [e];
    }
  }

  /** The `notes` entry of localStorage, parsed; a missing entry reads as the empty list. */
  class LocalStorage {
    var notes: seq<Note>

    constructor (notes: seq<Note>)
      ensures this.notes == notes
    {
      this.notes := notes;
    }
  }

  /** The `loading-indicator` element: `show()` and `hide()` switch its display. */
  class LoadingIndicator {
    var shown: bool

    constructor ()
      ensures !shown
    {
      shown := false;
    }

    method Show()
      modifies this
      ensures shown
    {
      shown := true;
    }

    method Hide()
      modifies this
      ensures !shown
    {
      shown := false;
    }
  }
}

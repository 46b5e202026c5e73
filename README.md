# noteapp components in Dafny

This project models the logic of the four web components of a small note
app:

- `note-list` picks the active or the archived notes from a remote service, filters them by keyword, sorts them newest first and renders one `note-item` per note.
- `note-form` validates title and body and saves a note into localStorage. A note with an id replaces the stored note with that id; a note without one is appended under a fresh id.
- `note-item` shows one note, opens the form to edit it, and deletes it by id after a confirmation.
- `app-bar` holds the archive toggle, whose button label and `toggleArchive` broadcast follow the new value. It also holds the search form and the "+ Add Note" button.

Notes are records `Note(id, title, body, createdAt, isArchived)`. `createdAt` is an integer timestamp in milliseconds. localStorage is a `LocalStorage` object holding a `seq<Note>`.

The remote service is a parameter. `Service(active, archived)` gives what `getNotes` and `getNotesArchive` answer during one render: the `data` array, or a failure. The clock is a parameter too: `now` for `new Date().toISOString()`, and the string `freshId` for `${Date.now()}`. The user's confirmation is the boolean `confirmed`.

The components talk to each other through:

- `dispatchEvent` of `notesChanged` or `toggleArchive`;
- a direct call of `note-list.render()` or `note-list._loadNotes()`;
- the error dialog;
- direct calls on the shared `note-form` (`open`, `style.display`, or creating it), for which the model passes the form as a `NoteForm?` argument;
- the list's submit listener on the bar's search form, which the model calls as `NoteList.OnSearchSubmit` with the input's value.

The first three are recorded as an `Effect` appended to `Document.log`. `NoteList.React` models how the list answers each effect. `Page` puts the components together.

Modules, in dependency order:

- `Notes` (notes.dfy): the note record, `Option`, `Toggle`, `FindIndex` and subsequences. `Toggle` is a property that starts `undefined` and is then set to a boolean.
- `Text` (text.dfy): ASCII lower-casing, `includes`, `trim`, decimal digits and `padStart`.
- `Dom` (dom.dfy): the effect log, localStorage and the loading indicator.
- `NoteFormComponent` (note_form.dfy).
- `NoteItemComponent` (note_item.dfy).
- `NoteListing` (note_list.dfy).
- `AppBarComponent` (app_bar.dfy).
- `Page` (page.dfy).

Behaviour of the code worth knowing:

- `render` has no guard against stale results. Each render is one sequential step.
- A failed fetch gives `[]`, so the list is cleared and renders zero items.
- Every save stamps a new `createdAt`, edits included.
- Validation counts the untrimmed length.
- The archived search is not sorted.
- The form and the item write localStorage, while the list reads the remote service.

## Model

| member | source | states |
|---|---|---|
| Notes.FindIndex | src/script/components/note-form.js:163 | `findIndex`: the first index whose id matches, or -1 exactly when no note has that id |
| Text.Lower | src/script/components/note-list.js:147 | lower-casing keeps the length, leaves no upper-case ASCII letter, moves A-Z by 32 and keeps every other character |
| Text.ContainsIff | src/script/components/note-list.js:147 | `includes` holds exactly when the substring occurs at some index |
| Text.Trim | src/script/components/note-list.js:107 | `trim` gives the piece of the input that has only whitespace around it and no whitespace at its own ends; it is empty exactly when the input is all whitespace |
| Text.TrimUnique | src/script/components/note-list.js:107 | only one piece of the input meets that description, so `Trim` is `trim` |
| Text.DecimalString | src/script/components/note-item.js:103 | `toString` of a natural number: all digits, reads back as the number, no leading zero, one digit exactly below 10 |
| Text.PadStart | src/script/components/note-item.js:103 | `padStart`: the length is the larger of the width and the input's length, the input is kept at the end, the fill goes in front |
| NoteFormComponent.ErrorText | src/script/components/note-form.js:122-140 | the error line is hidden exactly when the value is long enough (3 for the title, 6 for the body), and otherwise shows that field's message |
| NoteFormComponent.Upsert | src/script/components/note-form.js:160-170 | with an id that is stored: the first note with that id is replaced, length and all other notes unchanged, new `createdAt`; with an id that is not stored: nothing changes; without an id: one note is appended under `freshId` and the prefix is unchanged |
| NoteFormComponent.UpsertEditIdempotent | src/script/components/note-form.js:162-166 | saving the same edit twice gives what saving it once gives |
| NoteFormComponent.NoteForm.constructor | src/script/components/note-form.js:1-16 | a new form has no id bound, empty fields and no error lines, and it is hidden |
| NoteFormComponent.NoteForm.EmptyForm | src/script/components/note-form.js:110-113 | both fields become empty and nothing else changes |
| NoteFormComponent.NoteForm.Open | src/script/components/note-form.js:115-120 | binds the given id and loads the note's title and body (empty when no note is given), shows the form, and leaves the error lines alone |
| NoteFormComponent.NoteForm.OnClick | src/script/components/note-form.js:103-108 | a backdrop click hides the form and empties both fields; a click inside the container changes nothing |
| NoteFormComponent.NoteForm.ValidateInput | src/script/components/note-form.js:122-140 | valid exactly when the field's untrimmed length reaches its minimum; that field's error line is set to match and the other is untouched |
| NoteFormComponent.NoteForm.OnInput | src/script/components/note-form.js:97-98 | typing into a field stores the value and validates that field only |
| NoteFormComponent.NoteForm.HandleSubmit | src/script/components/note-form.js:142-158 | both fields are always validated. When both pass, storage becomes the upsert of the bound id, the fields and `now`; the form is hidden and emptied; the list is re-rendered and `notesChanged` is broadcast. Otherwise storage, page and fields are unchanged. The bound id is kept either way |
| NoteFormComponent.NoteForm.SaveNote | src/script/components/note-form.js:160-174 | storage becomes the upsert of the note, then a direct list render and one `notesChanged` follow, in that order |
| NoteItemComponent.MinuteOfHour | src/script/components/note-item.js:102-103 | `getMinutes`: a minute below 60, and the timestamp lies in that minute of its hour |
| NoteItemComponent.MinutesTextTwoDigits | src/script/components/note-item.js:103 | a minute is shown as exactly two digits that read back as the minute, with a leading '0' exactly below 10 |
| NoteItemComponent.RenderedMinute | src/script/components/note-item.js:102-103 | the minute an item renders is spelled as two digits that read back as the minute of the note's `createdAt` |
| NoteItemComponent.RemoveAt | src/script/components/note-item.js:127 | `splice(i, 1)` leaves one note fewer; `SpliceIsRemoveFirst` says which note goes |
| NoteItemComponent.RemoveFirst | src/script/components/note-item.js:123-128 | delete by id, defined on its own: nothing changes when no note has the id, and otherwise the list is one shorter |
| NoteItemComponent.RemoveFirstSpec | src/script/components/note-item.js:124-128 | the deletion takes out exactly the first note with the id, as a multiset, and what remains is a subsequence of the list in its order |
| NoteItemComponent.RemoveFirstAt | src/script/components/note-item.js:125-127 | when `i` is the first index with the id, the deletion is the list with position `i` cut out |
| NoteItemComponent.SpliceIsRemoveFirst | src/script/components/note-item.js:125-127 | the splice at `findIndex` is that deletion |
| NoteItemComponent.RemoveFirstAppended | src/script/components/note-item.js:123-128 | deleting by the id of the last note, when no earlier note has it, removes just that note |
| NoteItemComponent.DeleteUndoesAdd | src/script/components/note-item.js:123-128 | deleting the note just appended under a fresh id gives back the stored list as it was |
| NoteItemComponent.NoteItem.constructor | src/script/components/note-item.js:4-10 | a new item holds the placeholder note and has not rendered |
| NoteItemComponent.NoteItem.SetNote | src/script/components/note-item.js:19-22 | the `note` setter binds the note and re-renders its title, body and the minute of its date |
| NoteItemComponent.NoteItem.OpenEditForm | src/script/components/note-item.js:118-121 | the form is opened on this note's title and body and bound to this note's id |
| NoteItemComponent.NoteItem.DeleteNote | src/script/components/note-item.js:123-132 | when a stored note has this id, storage becomes the deletion and `notesChanged` then a `_loadNotes` call follow; otherwise storage and page are unchanged |
| NoteItemComponent.NoteItem.OnDeleteClick | src/script/components/note-item.js:88-92 | the deletion happens only when the confirmation answers yes; otherwise nothing changes |
| NoteListing.MatchesKeywordIff | src/script/components/note-list.js:145-149 | a note passes exactly when the lower-cased keyword occurs in its lower-cased title or its lower-cased body |
| NoteListing.FilterByKeywordSpec | src/script/components/note-list.js:145-149 | the archived-branch filter keeps exactly the matching notes, each as often as it occurs, as a subsequence of its input |
| NoteListing.FilterActiveByKeywordSpec | src/script/components/note-list.js:152-157 | the active-branch filter keeps exactly the matching notes not flagged archived, each as often as it occurs, as a subsequence of its input |
| NoteListing.InsertPermutes | src/script/components/note-list.js:173-181 | one insertion step of the sort adds exactly the inserted note to the multiset |
| NoteListing.InsertKeepsOrder | src/script/components/note-list.js:173-181 | inserting into a newest-first list keeps it newest first |
| NoteListing.InsertStable | src/script/components/note-list.js:173-181 | inserting puts the note at the front of its group of equal timestamps and keeps every group's order |
| NoteListing.SubsequenceKeepsOrder | src/script/components/note-list.js:151-157 | filtering a newest-first list leaves it newest first |
| NoteListing.SortNewestFirstSpec | src/script/components/note-list.js:173-181 | the sort is a permutation, `createdAt` never increases along it, and notes with equal timestamps keep their fetch order |
| NoteListing.StableOrderUnique | src/script/components/note-list.js:173-181 | two newest-first lists with the same groups of equal timestamps are equal |
| NoteListing.SortIsTheStableSort | src/script/components/note-list.js:173-181 | every stable newest-first rearrangement of the data is the sort's result |
| NoteListing.SourceOf | src/script/components/note-list.js:170-182 | the archived list is used exactly when `_showArchived` is truthy; undefined selects the active list |
| NoteListing.LoadNotes | src/script/components/note-list.js:168-190 | `_loadNotes`: a failure gives no notes and one error dialog; otherwise the result is the selected data, sorted stably newest first |
| NoteListing.SearchNotes | src/script/components/note-list.js:134-166 | archived branch: the matching archived notes, each as often as fetched, unsorted, in the service's order. Active branch: the matching notes not flagged archived, each as often as fetched, in the order of the stable newest-first `_loadNotes` result, so ties keep fetch order. A failure gives no notes and exactly one error dialog |
| NoteListing.ActiveSearchHidesArchived | src/script/components/note-list.js:151-157 | an active-branch search never shows a note flagged archived |
| NoteListing.BlankSearchIsNoSearch | src/script/components/note-list.js:198-200 | a whitespace-only search input renders what a render with no keyword renders |
| NoteListing.NoteList.constructor | src/script/components/note-list.js:10-23 | 2 columns, a 16px gutter, `_showArchived` undefined, the `showArchived` property false, no items |
| NoteListing.NoteList.Render | src/script/components/note-list.js:192-229 | a non-empty keyword searches, an empty one loads. The content is replaced by one new item per resulting note, in order, each showing its note's title, body and minute; a failure leaves zero items. Any error dialog is logged, and the indicator ends hidden |
| NoteListing.NoteList.ShowItems | src/script/components/note-list.js:209-222 | the `forEach` leaves exactly one new, distinct item per note, each bound to its note and rendered from it, in order |
| NoteListing.NoteList.Connect | src/script/components/note-list.js:88-90 | the first render uses no keyword |
| NoteListing.NoteList.OnToggleArchive | src/script/components/note-list.js:95-98 | the `toggleArchive` listener adopts the payload and re-renders with no keyword, which clears any search |
| NoteListing.NoteList.OnSearchSubmit | src/script/components/note-list.js:103-110 | a search submit renders with the trimmed input |
| NoteListing.NoteList.LoadNotesDiscarded | src/script/components/note-item.js:130 | a direct `_loadNotes()` call can only open the error dialog; the items are unchanged |
| NoteListing.NoteList.React | src/script/components/note-list.js:92-98 | `notesChanged` and a direct `render()` re-render with no keyword. `toggleArchive` first adopts its payload. A direct `_loadNotes()` leaves the items as they were. Only `toggleArchive` changes `_showArchived`. A re-render leaves the indicator hidden; the other effects leave it as it was |
| NoteListing.NoteList.SetColumn | src/script/components/note-list.js:55-59 | an integer replaces the column count; any other value keeps the old one |
| NoteListing.NoteList.SetGutter | src/script/components/note-list.js:65-69 | an integer replaces the gutter; any other value keeps the old one |
| NoteListing.NoteList.AttributeChanged | src/script/components/note-list.js:75-86 | `column` or `gutter` goes to its setter, any other name to neither; then the list re-renders with no keyword, and the indicator ends hidden |
| AppBarComponent.ArchiveLabel | src/script/components/app-bar.js:186-189 | the label is "Hide Archive" exactly when the state is true, and "Show Archive" exactly when it is false |
| AppBarComponent.AppBar.constructor | src/script/components/app-bar.js:205 | the state is undefined and the button says "Show Archive", which agrees with it |
| AppBarComponent.AppBar.SetShowArchived | src/script/components/app-bar.js:184-190 | the setter stores the value and the label follows it |
| AppBarComponent.AppBar.HandleArchiveToggle | src/script/components/app-bar.js:172-178 | the new state is the negation of the old one, with undefined counting as false; the label follows; `toggleArchive` carries the new state |
| AppBarComponent.AppBar.HandleSearchSubmit | src/script/components/app-bar.js:159-171 | only the default is prevented: no state, no broadcast |
| AppBarComponent.AppBar.HandleAddNoteClick | src/script/components/app-bar.js:149-157 | an existing form is shown with its bound id, fields and error lines unchanged; without one, exactly one new hidden form is created, with empty fields and error lines |
| AppBarComponent.AppBar.HandleAddNoteClickFixed | src/script/components/app-bar.js:149-157 | the corrected click opens an existing form blank, with no id bound and its error lines as they were; without one, a new hidden, empty form is created |
| Page.ArchiveButtonClicked | src/script/components/app-bar.js:172-178 | after a click and the list's `toggleArchive` listener, bar and list hold the same negated state, the label matches, and the list shows the selected notes newest first. The page log gains the `toggleArchive` broadcast, then any error dialog, and the indicator ends hidden |
| Page.ArchiveButtonClickedTwice | src/script/components/app-bar.js:172-178 | two clicks restore the state as a boolean and the label, and the list shows the original selection newest first |
| Page.EditStoredNote | src/script/components/note-item.js:118-121 | editing a stored note through its item and saving it replaces the note in place under its id, with the new `createdAt`, and leaves the form hidden, empty and still bound to that id |
| Page.AddAfterEditOverwrites | src/script/components/app-bar.js:149-157 | as written: an edit, then "+ Add Note" and a save, leaves one note, and the new title has overwritten the edited note under its id |
| Page.AddAfterEditAppendsWhenFixed | src/script/components/app-bar.js:149-157 | with the corrected click, the same steps keep the edited note and append the new one under the fresh id |

## Left out

- The notes service (`src/script/data/remote/notesApi.js`) is I/O. Its answers are the `Service` parameter, and this file is not part of this model.
- The loading indicator and the foot bar are presentation only. The indicator is a bare shown/hidden flag; the foot bar is not part of this model.
- Overlapping asynchronous renders are not modelled. Each `render` runs as one step; the code has no guard against stale results, and none is added.
- JSON parsing and stringifying of localStorage are not modelled. Storage holds the `seq<Note>` directly.
- `new Date().toISOString()` and `Date` parsing become the integers `now` and `createdAt`; `${Date.now()}` becomes the string `freshId`.
- A timestamp's minute is read in local time, with no time-zone offset. The day, month name, year and hour of the date line are left out; `toLocaleString` is locale I/O.
- `toLowerCase` is ASCII-only here. Full Unicode case mapping is not modelled.
- `input.value.length` counts UTF-16 code units. The model counts characters, which differs only outside the Basic Multilingual Plane.
- Swal dialogs, gsap animations and `confirm()` are foreign UI libraries. A dialog is an `ErrorAlert` effect, animations are dropped, and the confirmation is a boolean.
- CSS, `innerHTML` templates, `setCustomValidity` and `preventDefault` on the form's own submit are left out. The style rule `:host { display: none }` is the `displayed == false` state.
- `Number(value)` on an attribute string is not modelled. The setters take the result as `NumberValue`.
- The items store `archived` while the list filters on `isArchived`; the model keeps only `isArchived`. Stored notes and service notes are kept apart, as in the code.
- A page with no `note-list` element, or a submit listener missing its input element, is not modelled. The list always receives the direct calls, and the search always has an input.
- `NoteListing.NoteList.React`: how a direct `render()` or `_loadNotes()` call interleaves with the caller's later steps is not modelled. The effects are applied in log order.

## Findings

| source | as written | input that shows it | evidently intended | confidence | as-written member | corrected member |
|---|---|---|---|---|---|---|
| src/script/components/app-bar.js:149-157 | "+ Add Note" only shows the existing form and keeps whatever `_noteId` it holds. A save after an edit keeps `_noteId` (note-form.js:145-157). | Edit a stored note and save it, press "+ Add Note", enter a new title and body, save: the edited note is overwritten and nothing is added | "+ Add Note" opens a blank form with no id bound, so saving appends a new note | not executed | Page.AddAfterEditOverwrites | AppBarComponent.AppBar.HandleAddNoteClickFixed (append proved by Page.AddAfterEditAppendsWhenFixed) |

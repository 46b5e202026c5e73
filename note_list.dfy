/**
 * The `note-list` element: it picks the active or the archived notes, filters
 * them by keyword, sorts them newest first and renders one `note-item` per
 * note, re-rendering on `notesChanged`, `toggleArchive` and search submits.
 */
module NoteListing {
  import opened Notes
  import opened Text
  import opened Dom
  import opened NoteItemComponent

  /** The value of `Number(value)`, as far as `Number.isInteger` sees it. */
  datatype NumberValue = Integer(value: int) | NotInteger

  /** One answer of the notes service: its `data` array, or a rejected or malformed response. */
  datatype Fetch = Fetched(data: seq<Note>) | FetchFailed

  /** What the notes service answers during one render to `getNotes` and to `getNotesArchive`. */
  datatype Service = Service(active: Fetch, archived: Fetch)

  /** The notes a load or a search hands back, and whether it opened the error dialog on the way. */
  datatype Loaded = Loaded(notes: seq<Note>, failed: bool)

  const SearchErrorMessage := "Error searching notes"

  /** The keyword test of `_searchNotes`: a case-insensitive substring of the title or of the body. */
  predicate MatchesKeyword(n: Note, keyword: string) {
    Contains(Lower(n.title), Lower(keyword)) || Contains(Lower(n.body), Lower(keyword))
  }

  /** A note passes exactly when the lower-cased keyword occurs in the lower-cased title or body. */
  lemma MatchesKeywordIff(n: Note, keyword: string)
    ensures MatchesKeyword(n, keyword) <==>
              (exists i :: OccursAt(Lower(n.title), Lower(keyword), i)) ||
              (exists i :: OccursAt(Lower(n.body), Lower(keyword), i))
  {
    ContainsIff(Lower(n.title), Lower(keyword));
    ContainsIff(Lower(n.body), Lower(keyword));
  }

  /** The filter of the archived branch. */
  function FilterByKeyword(notes: seq<Note>, keyword: string): seq<Note>
    decreases |notes|
  {
    if notes == [] then []
    else (if MatchesKeyword(notes[0], keyword) then [notes[0]] else []) + FilterByKeyword(notes[1..], keyword)
  }

  /** The filter of the active branch, which also drops notes flagged `isArchived`. */
  function FilterActiveByKeyword(notes: seq<Note>, keyword: string): seq<Note>
    decreases |notes|
  {
    if notes == [] then []
    else
      (if !notes[0].isArchived && MatchesKeyword(notes[0], keyword) then [notes[0]] else [])
      + FilterActiveByKeyword(notes[1..], keyword)
  }

  /**
   * The archived-branch filter keeps exactly the matching notes, each as many
   * times as it occurs, in their original order.
   */
  lemma {:induction false} FilterByKeywordSpec(notes: seq<Note>, keyword: string)
    ensures forall n :: n in FilterByKeyword(notes, keyword) <==> n in notes && MatchesKeyword(n, keyword)
    ensures forall n :: multiset(FilterByKeyword(notes, keyword))[n] ==
                          if MatchesKeyword(n, keyword) then multiset(notes)[n] else 0
    ensures IsSubsequence(FilterByKeyword(notes, keyword), notes)
    decreases |notes|
  {
    if notes != [] {
      FilterByKeywordSpec(notes[1..], keyword);
      HeadAndTail(notes);
      var rest := FilterByKeyword(notes[1..], keyword);
      if MatchesKeyword(notes[0], keyword) {
        assert FilterByKeyword(notes, keyword) == [notes[0]] + rest;
        assert ([notes[0]] + rest)[1..] == rest;
      } else {
        assert FilterByKeyword(notes, keyword) == rest;
      }
    }
  }

  /**
   * The active-branch filter keeps exactly the matching notes not flagged
   * archived, each as many times as it occurs, in order.
   */
  lemma {:induction false} FilterActiveByKeywordSpec(notes: seq<Note>, keyword: string)
    ensures forall n :: n in FilterActiveByKeyword(notes, keyword) <==>
                          n in notes && !n.isArchived && MatchesKeyword(n, keyword)
    ensures forall n :: multiset(FilterActiveByKeyword(notes, keyword))[n] ==
                          if !n.isArchived && MatchesKeyword(n, keyword) then multiset(notes)[n] else 0
    ensures IsSubsequence(FilterActiveByKeyword(notes, keyword), notes)
    decreases |notes|
  {
    if notes != [] {
      FilterActiveByKeywordSpec(notes[1..], keyword);
      HeadAndTail(notes);
      var rest := FilterActiveByKeyword(notes[1..], keyword);
      if !notes[0].isArchived && MatchesKeyword(notes[0], keyword) {
        assert FilterActiveByKeyword(notes, keyword) == [notes[0]] + rest;
        assert ([notes[0]] + rest)[1..] == rest;
      } else {
        assert FilterActiveByKeyword(notes, keyword) == rest;
      }
    }
  }

  /** `createdAt` never increases from one note to any later one. */
  ghost predicate NewestFirst(s: seq<Note>) {
    forall i, j :: 0 <= i < j < |s| ==> s[i].createdAt >= s[j].createdAt
  }

  /** What is taken in order out of a newest-first list is newest first too. */
  lemma {:induction false} SubsequenceKeepsOrder(sub: seq<Note>, s: seq<Note>)
    requires IsSubsequence(sub, s) && NewestFirst(s)
    ensures NewestFirst(sub)
    decreases |s|
  {
    if sub != [] {
      assert NewestFirst(s[1..]);
      if sub[0] == s[0] && IsSubsequence(sub[1..], s[1..]) {
        SubsequenceKeepsOrder(sub[1..], s[1..]);
        SubsequenceMembers(sub[1..], s[1..]);
        forall j | 0 < j < |sub| ensures sub[0].createdAt >= sub[j].createdAt {
          assert sub[j] in sub[1..];
          var k :| 0 <= k < |s[1..]| && s[1..][k] == sub[j];
          assert s[k + 1] == sub[j];
        }
      } else {
        SubsequenceKeepsOrder(sub, s[1..]);
      }
    }
  }

  /** One step of the sort: `x` goes before the first note that is not newer than it. */
  function InsertNewestFirst(x: Note, s: seq<Note>): seq<Note>
    decreases |s|
  {
    if s == [] || s[0].createdAt <= x.createdAt then [x] + s
    else [s[0]] + InsertNewestFirst(x, s[1..])
  }

  /** `data.sort((a, b) => new Date(b.createdAt) - new Date(a.createdAt))`, a stable sort. */
  function SortNewestFirst(s: seq<Note>): seq<Note>
    decreases |s|
  {
    if s == [] then [] else InsertNewestFirst(s[0], SortNewestFirst(s[1..]))
  }

  /** The notes stamped `t`, in order: what a stable sort must leave alone. */
  function WithCreatedAt(s: seq<Note>, t: int): seq<Note>
    decreases |s|
  {
    if s == [] then []
    else (if s[0].createdAt == t then [s[0]] else []) + WithCreatedAt(s[1..], t)
  }

  lemma {:induction false} InsertPermutes(x: Note, s: seq<Note>)
    ensures multiset(InsertNewestFirst(x, s)) == multiset(s) + multiset{x}
    decreases |s|
  {
    if s != [] && s[0].createdAt > x.createdAt {
      InsertPermutes(x, s[1..]);
      assert s == [s[0]] + s[1..];
    }
  }

  /** Inserting a note no newer than `bound` into notes no newer than `bound` gives notes no newer than `bound`. */
  lemma {:induction false} InsertBounded(x: Note, s: seq<Note>, bound: int)
    requires x.createdAt <= bound
    requires forall k :: 0 <= k < |s| ==> s[k].createdAt <= bound
    ensures forall k :: 0 <= k < |InsertNewestFirst(x, s)| ==> InsertNewestFirst(x, s)[k].createdAt <= bound
    decreases |s|
  {
    if s != [] && s[0].createdAt > x.createdAt {
      InsertBounded(x, s[1..], bound);
    }
  }

  lemma {:induction false} InsertKeepsOrder(x: Note, s: seq<Note>)
    requires NewestFirst(s)
    ensures NewestFirst(InsertNewestFirst(x, s))
    decreases |s|
  {
    var r := InsertNewestFirst(x, s);
    if s == [] || s[0].createdAt <= x.createdAt {
      assert r == [x] + s;
    } else {
      var rest := InsertNewestFirst(x, s[1..]);
      assert NewestFirst(s[1..]);
      InsertKeepsOrder(x, s[1..]);
      InsertBounded(x, s[1..], s[0].createdAt);
      assert r == [s[0]] + rest;
    }
  }

  /** Inserting keeps every group of equal timestamps in order, with `x` at the front of its group. */
  lemma {:induction false} InsertStable(x: Note, s: seq<Note>, t: int)
    ensures WithCreatedAt(InsertNewestFirst(x, s), t) == (if x.createdAt == t then [x] else []) + WithCreatedAt(s, t)
    decreases |s|
  {
    var r := InsertNewestFirst(x, s);
    if s == [] || s[0].createdAt <= x.createdAt {
      assert r == [x] + s;
      assert r[1..] == s;
    } else {
      var rest := InsertNewestFirst(x, s[1..]);
      InsertStable(x, s[1..], t);
      assert r == [s[0]] + rest;
      assert r[1..] == rest;
      var tail := WithCreatedAt(s[1..], t);
      assert WithCreatedAt(s, t) == (if s[0].createdAt == t then [s[0]] else []) + tail;
      if s[0].createdAt == t {
        assert x.createdAt != t;
        assert WithCreatedAt(r, t) == [s[0]] + tail;
      } else if x.createdAt == t {
        assert WithCreatedAt(r, t) == [x] + tail;
      } else {
        assert WithCreatedAt(r, t) == tail;
      }
    }
  }

  /**
   * The sort returns a permutation of its input with `createdAt` non-increasing,
   * and notes with equal timestamps keep their fetch order.
   */
  lemma {:induction false} SortNewestFirstSpec(s: seq<Note>)
    ensures NewestFirst(SortNewestFirst(s))
    ensures multiset(SortNewestFirst(s)) == multiset(s)
    ensures forall t :: WithCreatedAt(SortNewestFirst(s), t) == WithCreatedAt(s, t)
    decreases |s|
  {
    if s != [] {
      SortNewestFirstSpec(s[1..]);
      InsertKeepsOrder(s[0], SortNewestFirst(s[1..]));
      InsertPermutes(s[0], SortNewestFirst(s[1..]));
      HeadAndTail(s);
      forall t ensures WithCreatedAt(SortNewestFirst(s), t) == WithCreatedAt(s, t) {
        InsertStable(s[0], SortNewestFirst(s[1..]), t);
      }
    }
  }

  /** In a newest-first list, every timestamp that occurs is at most the head's. */
  lemma {:induction false} HeadIsNewest(r: seq<Note>, t: int)
    requires NewestFirst(r) && r != [] && WithCreatedAt(r, t) != []
    ensures t <= r[0].createdAt
    decreases |r|
  {
    if r[0].createdAt != t {
      assert NewestFirst(r[1..]);
      HeadIsNewest(r[1..], t);
    }
  }

  /**
   * There is only one stable newest-first order: two newest-first lists with
   * the same groups of equal timestamps are equal.
   */
  lemma {:induction false} StableOrderUnique(r1: seq<Note>, r2: seq<Note>)
    requires NewestFirst(r1) && NewestFirst(r2)
    requires forall t :: WithCreatedAt(r1, t) == WithCreatedAt(r2, t)
    ensures r1 == r2
    decreases |r1|
  {
    if r1 == [] || r2 == [] {
      assert r1 != [] ==> WithCreatedAt(r1, r1[0].createdAt) != [];
      assert r2 != [] ==> WithCreatedAt(r2, r2[0].createdAt) != [];
    } else {
      var a, b := r1[0].createdAt, r2[0].createdAt;
      assert WithCreatedAt(r1, a) != [];
      HeadIsNewest(r2, a);
      assert WithCreatedAt(r2, b) != [];
      HeadIsNewest(r1, b);
      assert a == b;
      assert WithCreatedAt(r1, a) == [r1[0]] + WithCreatedAt(r1[1..], a);
      assert WithCreatedAt(r2, a) == [r2[0]] + WithCreatedAt(r2[1..], a);
      assert WithCreatedAt(r1, a)[0] == r1[0] && WithCreatedAt(r2, a)[0] == r2[0];
      assert r1[0] == r2[0];
      forall t ensures WithCreatedAt(r1[1..], t) == WithCreatedAt(r2[1..], t) {
        assert WithCreatedAt(r1, t) == WithCreatedAt(r2, t);
        if t == a {
          assert WithCreatedAt(r1, t)[1..] == WithCreatedAt(r1[1..], t);
          assert WithCreatedAt(r2, t)[1..] == WithCreatedAt(r2[1..], t);
        } else {
          assert WithCreatedAt(r1, t) == WithCreatedAt(r1[1..], t);
          assert WithCreatedAt(r2, t) == WithCreatedAt(r2[1..], t);
        }
      }
      assert NewestFirst(r1[1..]) && NewestFirst(r2[1..]);
      StableOrderUnique(r1[1..], r2[1..]);
      HeadAndTail(r1);
      HeadAndTail(r2);
    }
  }

  /** So the sort is the stable sort of the input: any newest-first stable rearrangement equals it. */
  lemma SortIsTheStableSort(s: seq<Note>, r: seq<Note>)
    requires NewestFirst(r)
    requires forall t :: WithCreatedAt(r, t) == WithCreatedAt(s, t)
    ensures r == SortNewestFirst(s)
  {
    SortNewestFirstSpec(s);
    StableOrderUnique(r, SortNewestFirst(s));
  }

  /** The list `_showArchived` selects: the archived one exactly when it is truthy. */
  function SourceOf(showArchived: Toggle, svc: Service): (f: Fetch)
    ensures Truthy(showArchived) ==> f == svc.archived
    ensures !Truthy(showArchived) ==> f == svc.active
  {
    if Truthy(showArchived) then svc.archived else svc.active
  }

  /**
   * `_loadNotes`: the selected list, sorted newest first; a failure opens the
   * error dialog and gives no notes.
   */
  function LoadNotes(showArchived: Toggle, svc: Service): (r: Loaded)
    ensures SourceOf(showArchived, svc).FetchFailed? ==> r == Loaded([], true)
    ensures SourceOf(showArchived, svc).Fetched? ==>
              var data := SourceOf(showArchived, svc).data;
              && !r.failed
              && NewestFirst(r.notes)
              && multiset(r.notes) == multiset(data)
              && forall t :: WithCreatedAt(r.notes, t) == WithCreatedAt(data, t)
  {
    match SourceOf(showArchived, svc)
    case FetchFailed => Loaded([], true)
    case Fetched(data) =>
      SortNewestFirstSpec(data);
      Loaded(SortNewestFirst(data), false)
  }

  /**
   * `_searchNotes`: in the archived branch, the matching archived notes in the
   * service's order, unsorted; in the active branch, the matching notes of
   * `_loadNotes` not flagged `isArchived`, so newest first. A failure gives no
   * notes and exactly one error dialog.
   */
  function SearchNotes(showArchived: Toggle, keyword: string, svc: Service): (r: Loaded)
    ensures SourceOf(showArchived, svc).FetchFailed? ==> r == Loaded([], true)
    ensures Truthy(showArchived) && svc.archived.Fetched? ==>
              && !r.failed
              && IsSubsequence(r.notes, svc.archived.data)
              && (forall n :: n in r.notes <==> n in svc.archived.data && MatchesKeyword(n, keyword))
              && forall n :: multiset(r.notes)[n] ==
                               if MatchesKeyword(n, keyword) then multiset(svc.archived.data)[n] else 0
    ensures !Truthy(showArchived) && svc.active.Fetched? ==>
              && !r.failed
              && NewestFirst(r.notes)
              && IsSubsequence(r.notes, LoadNotes(showArchived, svc).notes)
              && (forall n :: n in r.notes <==> n in svc.active.data && !n.isArchived && MatchesKeyword(n, keyword))
              && forall n :: multiset(r.notes)[n] ==
                               if !n.isArchived && MatchesKeyword(n, keyword) then multiset(svc.active.data)[n] else 0
  {
    if Truthy(showArchived) then
      match svc.archived
      case FetchFailed => Loaded([], true)
      case Fetched(data) =>
        FilterByKeywordSpec(data, keyword);
        Loaded(FilterByKeyword(data, keyword), false)
    else
      var all := LoadNotes(showArchived, svc);
      FilterActiveByKeywordSpec(all.notes, keyword);
      if all.failed then
        Loaded(FilterActiveByKeyword(all.notes, keyword), all.failed)
      else
        SubsequenceKeepsOrder(FilterActiveByKeyword(all.notes, keyword), all.notes);
        assert forall n :: n in all.notes <==> n in multiset(all.notes);
        Loaded(FilterActiveByKeyword(all.notes, keyword), all.failed)
  }

  /** What `render(keyword)` shows: a search when the keyword is non-empty, a plain load otherwise. */
  function RenderedNotes(showArchived: Toggle, keyword: string, svc: Service): Loaded {
    if keyword != "" then SearchNotes(showArchived, keyword, svc) else LoadNotes(showArchived, svc)
  }

  /** A render from the active list with a keyword never shows a note flagged `isArchived`. */
  lemma ActiveSearchHidesArchived(showArchived: Toggle, keyword: string, svc: Service, n: Note)
    requires !Truthy(showArchived) && keyword != ""
    requires n in RenderedNotes(showArchived, keyword, svc).notes
    ensures !n.isArchived
  {
  }

  /** The submitted keyword is trimmed, so a blank search renders what no search renders. */
  lemma BlankSearchIsNoSearch(showArchived: Toggle, input: string, svc: Service)
    requires forall k :: 0 <= k < |input| ==> IsJsWhitespace(input[k])
    ensures RenderedNotes(showArchived, Trim(input), svc) == LoadNotes(showArchived, svc)
  {
  }

  /** The error dialog a load or search opened, as page effects. */
  function AlertsOf(l: Loaded): seq<Effect> {
    if l.failed then [ErrorAlert(SearchErrorMessage)] else []
  }

  class NoteList {
    /** `_column`: the number of grid columns. */
    var column: int
    /** `_gutter`: the grid gap in pixels. */
    var gutter: int
    /** `_showArchived`, written only by the `toggleArchive` listener. */
    var showArchived: Toggle
    /** The separate `showArchived` property the constructor writes; nothing reads it. */
    var showArchivedProperty: bool
    /** The `note-item` elements of the shadow root, in display order. */
    var items: seq<NoteItem>

    constructor ()
      ensures column == 2 && gutter == 16
      ensures showArchived == Unset && !showArchivedProperty
      ensures items == []
    {
      column, gutter := 2, 16;
      showArchived := Unset;
      showArchivedProperty := false;
      items := [];
    }

    /** The shadow root shows one distinct item per note of `notes`, in order, each rendered from its note. */
    ghost predicate Shows(notes: seq<Note>)
      reads this, items
    {
      && |items| == |notes|
      && (forall i :: 0 <= i < |items| ==> items[i].note == Some(notes[i]))
      && (forall i :: 0 <= i < |items| ==> items[i].view == Some(ViewOf(notes[i])))
      && (forall a, b :: 0 <= a < b < |items| ==> items[a] != items[b])
    }

    /**
     * `render(keyword)`: show the indicator, get the notes, replace the content
     * with one fresh item per note in order, hide the indicator. A failed fetch
     * leaves zero items.
     */
    method Render(keyword: string, svc: Service, indicator: LoadingIndicator?, doc: Document)
      modifies this`items, indicator, doc
      ensures Shows(RenderedNotes(showArchived, keyword, svc).notes)
      ensures forall i :: 0 <= i < |items| ==> fresh(items[i])
      ensures doc.log == old(doc.log) + AlertsOf(RenderedNotes(showArchived, keyword, svc))
      ensures indicator != null ==> !indicator.shown
    {
      if indicator != null {
        indicator.Show();
      }
      var loaded := RenderedNotes(showArchived, keyword, svc);
      if loaded.failed {
        doc.Record(ErrorAlert(SearchErrorMessage));
      }
      ShowItems(loaded.notes);
      if indicator != null {
        indicator.Hide();
      }
    }

    /** The `forEach` of `render`: one new `note-item` per note, bound through its `note` setter, in order. */
    method ShowItems(notes: seq<Note>)
      modifies this`items
      ensures Shows(notes)
      ensures forall i :: 0 <= i < |items| ==> fresh(items[i])
    {
      var elements: seq<NoteItem> := [];
      var i := 0;
      while i < |notes|
        invariant 0 <= i <= |notes|
        invariant |elements| == i
        invariant forall k :: 0 <= k < i ==> fresh(elements[k])
        invariant forall k :: 0 <= k < i ==> elements[k].note == Some(notes[k])
        invariant forall k :: 0 <= k < i ==> elements[k].view == Some(ViewOf(notes[k]))
        invariant forall a, b :: 0 <= a < b < i ==> elements[a] != elements[b]
      {
        var noteElement := new NoteItem();
        assert noteElement !in elements;
        noteElement.SetNote(notes[i]);
        elements := elements + [noteElement];
        i := i + 1;
      }
      items := elements;
    }

    /** `connectedCallback`: the first render, with no keyword. */
    method Connect(svc: Service, indicator: LoadingIndicator?, doc: Document)
      modifies this`items, indicator, doc
      ensures Shows(LoadNotes(showArchived, svc).notes)
      ensures doc.log == old(doc.log) + AlertsOf(LoadNotes(showArchived, svc))
      ensures indicator != null ==> !indicator.shown
    {
      Render("", svc, indicator, doc);
    }

    /** The `toggleArchive` listener: adopt the payload, then re-render with no keyword. */
    method OnToggleArchive(value: bool, svc: Service, indicator: LoadingIndicator?, doc: Document)
      modifies this`showArchived, this`items, indicator, doc
      ensures showArchived == Set(value)
      ensures Shows(LoadNotes(Set(value), svc).notes)
      ensures doc.log == old(doc.log) + AlertsOf(LoadNotes(Set(value), svc))
      ensures indicator != null ==> !indicator.shown
    {
      showArchived := Set(value);
      Render("", svc, indicator, doc);
    }

    /** The search form's `submit` listener: render with the trimmed input. */
    method OnSearchSubmit(input: string, svc: Service, indicator: LoadingIndicator?, doc: Document)
      modifies this`items, indicator, doc
      ensures Shows(RenderedNotes(showArchived, Trim(input), svc).notes)
      ensures doc.log == old(doc.log) + AlertsOf(RenderedNotes(showArchived, Trim(input), svc))
      ensures indicator != null ==> !indicator.shown
    {
      var searchKeyword := Trim(input);
      Render(searchKeyword, svc, indicator, doc);
    }

    /** `_loadNotes()` called for its effect only: the result is dropped. */
    method LoadNotesDiscarded(svc: Service, doc: Document)
      modifies doc
      ensures doc.log == old(doc.log) + AlertsOf(LoadNotes(showArchived, svc))
    {
      var loaded := LoadNotes(showArchived, svc);
      if loaded.failed {
        doc.Record(ErrorAlert(SearchErrorMessage));
      }
    }

    /**
     * How the list reacts to what other components do to the page: the
     * `notesChanged` and `toggleArchive` listeners, and the direct calls of
     * `render()` and `_loadNotes()` on it.
     */
    method React(e: Effect, svc: Service, indicator: LoadingIndicator?, doc: Document)
      modifies this`showArchived, this`items, indicator, doc
      ensures e.Dispatched? && e.signal.ToggleArchive? ==> showArchived == Set(e.signal.showArchived)
      ensures !(e.Dispatched? && e.signal.ToggleArchive?) ==> showArchived == old(showArchived)
      ensures e == Dispatched(NotesChanged) || e == ListRenderCalled || (e.Dispatched? && e.signal.ToggleArchive?) ==>
                && Shows(LoadNotes(showArchived, svc).notes)
                && doc.log == old(doc.log) + AlertsOf(LoadNotes(showArchived, svc))
      ensures e == ListLoadCalled ==> items == old(items) && doc.log == old(doc.log) + AlertsOf(LoadNotes(showArchived, svc))
      ensures e.ErrorAlert? ==> items == old(items) && doc.log == old(doc.log)
      ensures indicator != null && (e == Dispatched(NotesChanged) || e == ListRenderCalled || (e.Dispatched? && e.signal.ToggleArchive?)) ==>
                !indicator.shown
      ensures indicator != null && (e == ListLoadCalled || e.ErrorAlert?) ==> indicator.shown == old(indicator.shown)
    {
      match e
      case Dispatched(NotesChanged) => Render("", svc, indicator, doc);
      case Dispatched(ToggleArchive(value)) => OnToggleArchive(value, svc, indicator, doc);
      case ListRenderCalled => Render("", svc, indicator, doc);
      case ListLoadCalled => LoadNotesDiscarded(svc, doc);
      case ErrorAlert(_) =>
    }

    /** The `column` setter: an integer replaces the value, anything else is ignored. */
    method SetColumn(value: NumberValue)
      modifies this`column
      ensures column == (if value.Integer? then value.value else old(column))
    {
      if value.Integer? {
        column := value.value;
      }
    }

    /** The `gutter` setter: an integer replaces the value, anything else is ignored. */
    method SetGutter(value: NumberValue)
      modifies this`gutter
      ensures gutter == (if value.Integer? then value.value else old(gutter))
    {
      if value.Integer? {
        gutter := value.value;
      }
    }

    /** `attributeChangedCallback`: pass `column` or `gutter` to its setter, then re-render. */
    method AttributeChanged(name: string, value: NumberValue, svc: Service, indicator: LoadingIndicator?, doc: Document)
      modifies this`column, this`gutter, this`items, indicator, doc
      ensures column == (if name == "column" && value.Integer? then value.value else old(column))
      ensures gutter == (if name == "gutter" && value.Integer? then value.value else old(gutter))
      ensures Shows(LoadNotes(showArchived, svc).notes)
      ensures doc.log == old(doc.log) + AlertsOf(LoadNotes(showArchived, svc))
      ensures indicator != null ==> !indicator.shown
    {
      if name == "column" {
        SetColumn(value);
      } else if name == "gutter" {
        SetGutter(value);
      }
      Render("", svc, indicator, doc);
    }
  }
}

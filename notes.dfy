/**
 * The note record every component passes around, and the few pieces of
 * JavaScript semantics the components rely on when they look notes up.
 */
module Notes {

  datatype Option<T> = None | Some(value: T)

  /**
   * A note as storage or the notes service hands it out. `createdAt` is a
   * timestamp in milliseconds (local time); `isArchived` is the flag the list
   * filters on.
   */
  datatype Note = Note(id: string, title: string, body: string, createdAt: int, isArchived: bool)

  /** A property that holds a boolean once it is written and is `undefined` before. */
  datatype Toggle = Unset | Set(value: bool)

  /** JavaScript truthiness of such a property: `undefined` and `false` are falsy. */
  predicate Truthy(t: Toggle) {
    t.Set? && t.value
  }

  /** `notes.findIndex(n => n.id === id)`: the first position holding that id, or -1. */
  function FindIndex(notes: seq<Note>, id: string): (r: int)
    ensures -1 <= r < |notes|
    ensures 0 <= r ==> notes[r].id == id
    ensures forall j :: 0 <= j < r ==> notes[j].id != id
    ensures r == -1 <==> forall j :: 0 <= j < |notes| ==> notes[j].id != id
  {
    if notes == [] then -1
    else if notes[0].id == id then 0
    else
      var k := FindIndex(notes[1..], id);
      if k == -1 then -1 else k + 1
  }

  /** `sub` is `s` with some elements left out and the rest in their original order. */
  ghost predicate IsSubsequence<T>(sub: seq<T>, s: seq<T>)
    decreases |s|
  {
    if sub == [] then true
    else if s == [] then false
    else (sub[0] == s[0] && IsSubsequence(sub[1..], s[1..])) || IsSubsequence(sub, s[1..])
  }

  lemma {:induction false} SubsequenceReflexive<T>(s: seq<T>)
    ensures IsSubsequence(s, s)
    decreases |s|
  {
    if s != [] {
      SubsequenceReflexive(s[1..]);
    }
  }

  /** Every element of a subsequence is an element of the sequence it was taken from. */
  lemma {:induction false} SubsequenceMembers<T>(sub: seq<T>, s: seq<T>)
    requires IsSubsequence(sub, s)
    ensures forall x :: x in sub ==> x in s
    decreases |s|
  {
    if sub != [] {
      if sub[0] == s[0] && IsSubsequence(sub[1..], s[1..]) {
        SubsequenceMembers(sub[1..], s[1..]);
        assert sub == [sub[0]] + sub[1..];
      } else {
        SubsequenceMembers(sub, s[1..]);
      }
      assert s == [s[0]] + s[1..];
    }
  }

  /** A non-empty sequence is its head followed by its tail, also as a multiset. */
  lemma HeadAndTail<T>(s: seq<T>)
    requires s != []
    ensures s == [s[0]] + s[1..]
    ensures multiset(s) == multiset{s[0]} + multiset(s[1..])
  {
    assert s == [s[0]] + s[1..];
  }

  /** Cutting position `i > 0` out of a sequence keeps its head and cuts position `i - 1` out of its tail. */
  lemma CutAfterHead<T>(s: seq<T>, i: nat)
    requires 0 < i < |s|
    ensures s[..i] + s[i + 1..] == [s[0]] + (s[1..][..i - 1] + s[1..][i..])
  {
    assert s[..i] == [s[0]] + s[1..][..i - 1];
    assert s[i + 1..] == s[1..][i..];
  }
}

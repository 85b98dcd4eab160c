/**
 * A JavaScript `Set` of strings, kept as the sequence of its elements in
 * insertion order: `add` appends an element not yet present, `delete`
 * drops it, and `new Set(array)` keeps the first occurrence of each
 * element. The order matters because the client persists a set as the
 * array `[...set]` and reads it back with `new Set(array)`.
 */
module OrderedSets {

  /** No element occurs twice. */
  ghost predicate NoDups(s: seq<string>) {
    forall i, j :: 0 <= i < j < |s| ==> s[i] != s[j]
  }

  /** `set.add(x)`. */
  function Add(s: seq<string>, x: string): (r: seq<string>)
    ensures forall y :: y in r <==> y in s || y == x
    ensures x in s ==> r == s
    ensures x !in s ==> r == s + [x]
    ensures NoDups(s) ==> NoDups(r)
  {
    if x in s then s else s + [x]
  }

  /** `set.delete(x)`. */
  function Delete(s: seq<string>, x: string): (r: seq<string>)
    ensures forall y :: y in r <==> y in s && y != x
    ensures |r| <= |s|
    ensures x !in s ==> r == s
    ensures NoDups(s) ==> NoDups(r)
  {
    if s == [] then []
    else
      var rest := Delete(s[1..], x);
      assert s == [s[0]] + s[1..];
      assert NoDups(s) ==> s[0] !in s[1..] && NoDups(s[1..]);
      if s[0] == x then rest else [s[0]] + rest
  }

  /** `new Set(array)`: the first occurrence of every element, in order. */
  function FromArray(items: seq<string>): (r: seq<string>)
    ensures forall y :: y in r <==> y in items
    ensures NoDups(r)
  {
    if items == [] then []
    else Add(FromArray(items[..|items| - 1]), items[|items| - 1])
  }

  /** Reading back a persisted set gives the same set in the same order. */
  lemma {:induction false} FromArrayOfSet(s: seq<string>)
    requires NoDups(s)
    ensures FromArray(s) == s
  {
    if s != [] {
      var init := s[..|s| - 1];
      assert NoDups(init);
      FromArrayOfSet(init);
      assert s[|s| - 1] !in init;
      assert init + [s[|s| - 1]] == s;
    }
  }
}

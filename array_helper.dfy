/** lib/helpers.js `removeAll(array, item)`: `array.filter(e => e !== item)`. */
module ArrayHelper {

  /** The elements of `xs` that differ from `item`, in their original order. */
  function RemoveAll<T(==)>(xs: seq<T>, item: T): (r: seq<T>)
    ensures |r| <= |xs|
    ensures forall i :: 0 <= i < |r| ==> r[i] != item && r[i] in xs
    ensures forall i :: 0 <= i < |xs| && xs[i] != item ==> xs[i] in r
    decreases |xs|
  {
    if |xs| == 0 then []
    else (if xs[0] == item then [] else [xs[0]]) + RemoveAll(xs[1..], item)
  }

  /** `sub` can be obtained from `xs` by deleting elements (relative order kept). */
  predicate IsSubsequence<T(==)>(sub: seq<T>, xs: seq<T>)
    decreases |xs|
  {
    if |sub| == 0 then true
    else if |xs| == 0 then false
    else if sub[0] == xs[0] then IsSubsequence(sub[1..], xs[1..])
    else IsSubsequence(sub, xs[1..])
  }

  /** Every element other than `item` keeps its multiplicity; `item` is gone entirely. */
  lemma {:induction false} RemoveAllCounts<T>(xs: seq<T>, item: T)
    ensures multiset(RemoveAll(xs, item)) == multiset(xs)[item := 0]
    decreases |xs|
  {
    if |xs| > 0 {
      RemoveAllCounts(xs[1..], item);
      assert xs == [xs[0]] + xs[1..];
      assert multiset(xs) == multiset([xs[0]]) + multiset(xs[1..]);
    }
  }

  /** The survivors appear in the same relative order as in the input. */
  lemma {:induction false} RemoveAllKeepsOrder<T>(xs: seq<T>, item: T)
    ensures IsSubsequence(RemoveAll(xs, item), xs)
    decreases |xs|
  {
    if |xs| > 0 {
      RemoveAllKeepsOrder(xs[1..], item);
      var rest := RemoveAll(xs[1..], item);
      if xs[0] == item {
        assert RemoveAll(xs, item) == rest;
        SubsequenceOfTail(rest, xs);
      } else {
        assert RemoveAll(xs, item) == [xs[0]] + rest;
        assert ([xs[0]] + rest)[1..] == rest;
      }
    }
  }

  /** A subsequence of the tail is a subsequence of the whole. */
  lemma {:induction false} SubsequenceOfTail<T>(sub: seq<T>, xs: seq<T>)
    requires |xs| > 0
    requires IsSubsequence(sub, xs[1..])
    ensures IsSubsequence(sub, xs)
    decreases |xs|, 0
  {
    if |sub| > 0 && sub[0] == xs[0] {
      SubsequenceDropHead(sub, xs[1..]);
    }
  }

  /** Dropping the first element of a subsequence keeps it a subsequence. */
  lemma {:induction false} SubsequenceDropHead<T>(sub: seq<T>, xs: seq<T>)
    requires |sub| > 0
    requires IsSubsequence(sub, xs)
    ensures IsSubsequence(sub[1..], xs)
    decreases |xs|, 1
  {
    if sub[0] != xs[0] {
      SubsequenceDropHead(sub, xs[1..]);
    }
    SubsequenceOfTail(sub[1..], xs);
  }

  /** An element survives exactly when it occurs and is not the removed item. */
  lemma RemoveAllMembers<T>(xs: seq<T>, item: T)
    ensures forall e :: e in RemoveAll(xs, item) <==> e in xs && e != item
  {
    var r := RemoveAll(xs, item);
    forall e | e in xs && e != item
      ensures e in r
    {
      var i :| 0 <= i < |xs| && xs[i] == e;
    }
  }

  /** Removing an item that does not occur changes nothing. */
  lemma {:induction false} RemoveAllAbsent<T>(xs: seq<T>, item: T)
    requires item !in xs
    ensures RemoveAll(xs, item) == xs
    decreases |xs|
  {
    if |xs| > 0 {
      assert item !in xs[1..] by { assert forall x :: x in xs[1..] ==> x in xs; }
      RemoveAllAbsent(xs[1..], item);
      assert [xs[0]] + xs[1..] == xs;
    }
  }

  /** Removing the same item twice is the same as removing it once. */
  lemma RemoveAllIdempotent<T>(xs: seq<T>, item: T)
    ensures RemoveAll(RemoveAll(xs, item), item) == RemoveAll(xs, item)
  {
    RemoveAllAbsent(RemoveAll(xs, item), item);
  }
}

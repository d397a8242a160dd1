/**
 * Python's `sorted` applied to the list of swapped edges. Since the tuple
 * order is total, the result is the unique ascending rearrangement of its
 * input, whatever algorithm computes it; insertion sort stands in for it.
 */
module Sorting {
  import opened Order

  /** Every pair is at most every later pair. */
  predicate Sorted(s: seq<Pair>)
  {
    forall i, j :: 0 <= i < j < |s| ==> PairLe(s[i], s[j])
  }

  /** A lower bound for every element of `s`. */
  predicate Below(x: Pair, s: seq<Pair>)
  {
    forall i :: 0 <= i < |s| ==> PairLe(x, s[i])
  }

  /** A lower bound of `s` and of `p` bounds any rearrangement of `s` plus `p`. */
  lemma BelowPermutation(x: Pair, p: Pair, s: seq<Pair>, r: seq<Pair>)
    requires Below(x, s) && PairLe(x, p)
    requires multiset(r) == multiset(s) + multiset{p}
    ensures Below(x, r)
  {
    forall i | 0 <= i < |r|
      ensures PairLe(x, r[i])
    {
      assert r[i] in multiset(r);
    }
  }

  /** Places `p` in the sorted list `s`. */
  function Insert(p: Pair, s: seq<Pair>): (r: seq<Pair>)
    requires Sorted(s)
    ensures Sorted(r)
    ensures multiset(r) == multiset(s) + multiset{p}
  {
    if s == [] then
      [p]
    else if PairLe(p, s[0]) then
      BelowByTransitivity(p, s);
      [p] + s
    else
      PairLeTotal(p, s[0]);
      var rest := Insert(p, s[1..]);
      assert s == [s[0]] + s[1..];
      BelowPermutation(s[0], p, s[1..], rest);
      [s[0]] + rest
  }

  /** Anything at most the head of a sorted list is at most all of it. */
  lemma BelowByTransitivity(p: Pair, s: seq<Pair>)
    requires Sorted(s) && s != [] && PairLe(p, s[0])
    ensures Below(p, [p] + s)
  {
    PairLeRefl(p);
    forall i | 0 <= i < |s|
      ensures PairLe(p, s[i])
    {
      if i > 0 {
        PairLeTrans(p, s[0], s[i]);
      }
    }
  }

  /** `sorted(s)`: the ascending rearrangement of `s`. */
  function SortPairs(s: seq<Pair>): (r: seq<Pair>)
    ensures Sorted(r)
    ensures multiset(r) == multiset(s)
  {
    if s == [] then
      []
    else
      assert s == [s[0]] + s[1..];
      Insert(s[0], SortPairs(s[1..]))
  }

  /** The head of a sorted list is at most each of its elements. */
  lemma HeadIsLeast(a: seq<Pair>, x: Pair)
    requires Sorted(a) && x in multiset(a)
    ensures a != [] && PairLe(a[0], x)
  {
    var i :| 0 <= i < |a| && a[i] == x;
    if i == 0 {
      PairLeRefl(x);
    }
  }

  /** Dropping the head removes one occurrence of it. */
  lemma TailMultiset(a: seq<Pair>)
    requires a != []
    ensures multiset(a[1..]) == multiset(a) - multiset{a[0]}
  {
    assert a == [a[0]] + a[1..];
  }

  /** Two sorted rearrangements of the same pairs are the same list. */
  lemma {:induction false} SortedUnique(a: seq<Pair>, b: seq<Pair>)
    requires Sorted(a) && Sorted(b)
    requires multiset(a) == multiset(b)
    ensures a == b
    decreases |a|
  {
    if a == [] {
      assert |multiset(b)| == 0;
    } else {
      assert a[0] in multiset(a);
      HeadIsLeast(b, a[0]);
      HeadIsLeast(a, b[0]);
      PairLeAntisym(a[0], b[0]);
      TailMultiset(a);
      TailMultiset(b);
      SortedUnique(a[1..], b[1..]);
      assert a == [a[0]] + a[1..] && b == [b[0]] + b[1..];
    }
  }

  /** `sorted` is determined by its specification: any sorted rearrangement is `SortPairs(s)`. */
  lemma SortPairsIsTheSortedPermutation(s: seq<Pair>, r: seq<Pair>)
    requires Sorted(r) && multiset(r) == multiset(s)
    ensures r == SortPairs(s)
  {
    SortedUnique(r, SortPairs(s));
  }
}

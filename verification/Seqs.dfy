/** List facts the session engine relies on: list comprehensions with a
    condition (`[x for x in s if p(x)]`), order-preserving de-duplication and
    the subsequence relation that states "same order, some elements left out". */
module Seqs {

  predicate NoDups<T(==)>(s: seq<T>)
  {
    forall i, j :: 0 <= i < j < |s| ==> s[i] != s[j]
  }

  /** `a` is obtained from `b` by deleting elements, keeping the order. */
  predicate IsSubsequence<T(==)>(a: seq<T>, b: seq<T>)
    decreases |b|
  {
    if a == [] then true
    else if b == [] then false
    else
      || (a[|a| - 1] == b[|b| - 1] && IsSubsequence(a[..|a| - 1], b[..|b| - 1]))
      || IsSubsequence(a, b[..|b| - 1])
  }

  /** `[x for x in s if p(x)]`: the elements of `s` satisfying `p`, in order,
      each as often as it occurs in `s`. */
  function Filter<T(==,!new)>(s: seq<T>, p: T -> bool): (r: seq<T>)
    ensures IsSubsequence(r, s)
    ensures forall x :: x in r <==> x in s && p(x)
    ensures forall x :: multiset(r)[x] == if p(x) then multiset(s)[x] else 0
  {
    if s == [] then []
    else
      var init, x := s[..|s| - 1], s[|s| - 1];
      var r := Filter(init, p);
      assert s == init + [x];
      assert multiset(s) == multiset(init) + multiset{x};
      if p(x) then
        assert (r + [x])[..|r|] == r;
        r + [x]
      else
        SubsequenceOfLonger(r, init, x);
        r
  }

  lemma SubsequenceOfLonger<T>(a: seq<T>, b: seq<T>, x: T)
    requires IsSubsequence(a, b)
    ensures IsSubsequence(a, b + [x])
  {
    assert (b + [x])[..|b|] == b;
  }

  /** The position of the first occurrence of `x` in `s`. */
  function FirstIndex<T(==)>(s: seq<T>, x: T): (i: nat)
    requires x in s
    ensures i < |s| && s[i] == x
    ensures forall k :: 0 <= k < i ==> s[k] != x
  {
    if s[0] == x then 0 else 1 + FirstIndex(s[1..], x)
  }

  /** Order-preserving de-duplication: a loop over `s` that appends an element
      unless it has been seen before. */
  function Dedup<T(==,!new)>(s: seq<T>): (r: seq<T>)
    ensures NoDups(r)
    ensures forall x :: x in r <==> x in s
    ensures IsSubsequence(r, s)
  {
    if s == [] then []
    else
      var init, x := s[..|s| - 1], s[|s| - 1];
      assert s == init + [x];
      var d := Dedup(init);
      if x in d then d else d + [x]
  }

  lemma FirstIndexOfExtension<T>(s: seq<T>, x: T, y: T)
    requires y in s
    ensures FirstIndex(s + [x], y) == FirstIndex(s, y)
  {
    var i := FirstIndex(s, y);
    var j := FirstIndex(s + [x], y);
    assert (s + [x])[i] == y;
    assert j <= i;
    assert s[j] == y;
  }

  /** The de-duplicated list is ordered by first occurrence in the input. */
  lemma {:induction false} DedupFirstOccurrenceOrder<T(!new)>(s: seq<T>)
    ensures forall i, j :: 0 <= i < j < |Dedup(s)| ==>
      FirstIndex(s, Dedup(s)[i]) < FirstIndex(s, Dedup(s)[j])
  {
    if s != [] {
      var init, x := s[..|s| - 1], s[|s| - 1];
      assert s == init + [x];
      DedupFirstOccurrenceOrder(init);
      var d, d' := Dedup(init), Dedup(s);
      forall i, j | 0 <= i < j < |d'|
        ensures FirstIndex(s, d'[i]) < FirstIndex(s, d'[j])
      {
        FirstIndexOfExtension(init, x, d'[i]);
        if j < |d| {
          FirstIndexOfExtension(init, x, d'[j]);
        } else {
          assert d'[j] == x && x !in init;
        }
      }
    }
  }

  /** De-duplication leaves a list without repeats unchanged, so applying it
      twice gives the same list as applying it once. */
  lemma {:induction false} DedupOfDistinct<T(!new)>(s: seq<T>)
    requires NoDups(s)
    ensures Dedup(s) == s
  {
    if s != [] {
      var init, x := s[..|s| - 1], s[|s| - 1];
      assert s == init + [x];
      DedupOfDistinct(init);
      assert x !in init;
    }
  }

  lemma DedupIdempotent<T(!new)>(s: seq<T>)
    ensures Dedup(Dedup(s)) == Dedup(s)
  {
    DedupOfDistinct(Dedup(s));
  }

  /** A list without repeats has as many distinct elements as entries. */
  lemma {:induction false} DistinctCardinality<T>(s: seq<T>)
    requires NoDups(s)
    ensures |(set x | x in s)| == |s|
  {
    if s != [] {
      var init, x := s[..|s| - 1], s[|s| - 1];
      assert s == init + [x];
      DistinctCardinality(init);
      assert (set y | y in s) == (set y | y in init) + {x};
    }
  }

  /** A list has no repeats exactly when no element occurs twice in its
      multiset. */
  lemma {:induction false} NoDupsCounts<T>(s: seq<T>)
    ensures NoDups(s) <==> forall x :: multiset(s)[x] <= 1
  {
    if s != [] {
      var init, x := s[..|s| - 1], s[|s| - 1];
      assert s == init + [x];
      NoDupsCounts(init);
      if NoDups(s) {
        assert NoDups(init) && x !in init;
      } else {
        var i, j :| 0 <= i < j < |s| && s[i] == s[j];
        if j < |init| {
          assert init[i] == init[j];
          var y :| multiset(init)[y] > 1;
          assert multiset(s) == multiset(init) + multiset{x};
          assert multiset(s)[y] > 1;
        } else {
          assert init[i] == x;
          assert multiset(s)[x] >= 2;
        }
      }
    }
  }
}

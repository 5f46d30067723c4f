/** A stable sort, standing for Python's `sorted`, which the modelled code uses in four places. */
module Sorting {

  ghost predicate TotalPreorder<T(!new)>(leq: (T, T) -> bool) {
    && (forall x, y :: leq(x, y) || leq(y, x))
    && (forall x, y, z :: leq(x, y) && leq(y, z) ==> leq(x, z))
  }

  ghost predicate Sorted<T>(s: seq<T>, leq: (T, T) -> bool) {
    forall i, j :: 0 <= i < j < |s| ==> leq(s[i], s[j])
  }

  /** Puts `x` before every element that is not strictly smaller. */
  function Insert<T>(x: T, s: seq<T>, leq: (T, T) -> bool): seq<T> {
    if s == [] then [x]
    else if leq(x, s[0]) then [x] + s
    else [s[0]] + Insert(x, s[1..], leq)
  }

  /** Elements that compare equal keep their order in `s`. */
  function StableSort<T>(s: seq<T>, leq: (T, T) -> bool): seq<T> {
    if s == [] then [] else Insert(s[0], StableSort(s[1..], leq), leq)
  }

  lemma {:induction false} InsertIsPermutation<T>(x: T, s: seq<T>, leq: (T, T) -> bool)
    ensures multiset(Insert(x, s, leq)) == multiset{x} + multiset(s)
  {
    if s != [] && !leq(x, s[0]) {
      InsertIsPermutation(x, s[1..], leq);
      assert s == [s[0]] + s[1..];
    }
  }

  lemma {:induction false} InsertKeepsSorted<T(!new)>(x: T, s: seq<T>, leq: (T, T) -> bool)
    requires TotalPreorder(leq) && Sorted(s, leq)
    ensures Sorted(Insert(x, s, leq), leq)
  {
    if s != [] && !leq(x, s[0]) {
      var r := Insert(x, s[1..], leq);
      InsertKeepsSorted(x, s[1..], leq);
      InsertIsPermutation(x, s[1..], leq);
      forall j | 0 <= j < |r|
        ensures leq(s[0], r[j])
      {
        assert r[j] in multiset(r);
        assert r[j] == x || r[j] in s[1..];
      }
    }
  }

  lemma {:induction false} SortIsPermutation<T>(s: seq<T>, leq: (T, T) -> bool)
    ensures multiset(StableSort(s, leq)) == multiset(s)
    ensures |StableSort(s, leq)| == |s|
  {
    if s != [] {
      SortIsPermutation(s[1..], leq);
      InsertIsPermutation(s[0], StableSort(s[1..], leq), leq);
      assert s == [s[0]] + s[1..];
    }
    assert |multiset(StableSort(s, leq))| == |multiset(s)|;
  }

  lemma {:induction false} SortIsSorted<T(!new)>(s: seq<T>, leq: (T, T) -> bool)
    requires TotalPreorder(leq)
    ensures Sorted(StableSort(s, leq), leq)
  {
    if s != [] {
      SortIsSorted(s[1..], leq);
      InsertKeepsSorted(s[0], StableSort(s[1..], leq), leq);
    }
  }

  /** Stability, at its extreme: an input that is already sorted is returned unchanged. */
  lemma {:induction false} SortOfSorted<T>(s: seq<T>, leq: (T, T) -> bool)
    requires Sorted(s, leq)
    ensures StableSort(s, leq) == s
  {
    if s != [] {
      SortOfSorted(s[1..], leq);
    }
  }

  lemma SortMembers<T>(s: seq<T>, leq: (T, T) -> bool, x: T)
    ensures x in StableSort(s, leq) <==> x in s
  {
    SortIsPermutation(s, leq);
    assert x in multiset(s) <==> x in multiset(StableSort(s, leq));
  }

  /** With at least two distinct elements, the last one is not sorted to the front
      unless it is strictly smaller than something before it. */
  lemma {:induction false} NewestIsNotFirst<T(!new)>(s: seq<T>, leq: (T, T) -> bool)
    requires TotalPreorder(leq)
    requires |s| >= 2
    requires forall i, j :: 0 <= i < j < |s| ==> s[i] != s[j]
    requires forall i :: 0 <= i < |s| ==> leq(s[i], s[|s| - 1])
    ensures |StableSort(s, leq)| == |s| && StableSort(s, leq)[0] != s[|s| - 1]
  {
    SortIsPermutation(s, leq);
    SortIsPermutation(s[1..], leq);
    var rest := StableSort(s[1..], leq);
    if |s| == 2 {
      assert s[1..] == [s[1]];
      assert rest == [s[1]];
    } else {
      NewestIsNotFirst(s[1..], leq);
    }
  }

  lemma {:induction false} DistinctOnce<T>(s: seq<T>, x: T)
    requires forall i, j :: 0 <= i < j < |s| ==> s[i] != s[j]
    ensures multiset(s)[x] <= 1
  {
    if s != [] {
      DistinctOnce(s[1..], x);
      assert s == [s[0]] + s[1..];
      if s[0] == x {
        assert x !in s[1..];
      }
    }
  }

  lemma TwiceInMultiset<T>(s: seq<T>, i: nat, j: nat)
    requires i < j < |s| && s[i] == s[j]
    ensures multiset(s)[s[i]] >= 2
  {
    assert s == s[..i] + [s[i]] + s[i + 1..j] + [s[j]] + s[j + 1..];
  }

  lemma SortKeepsDistinct<T>(s: seq<T>, leq: (T, T) -> bool)
    requires forall i, j :: 0 <= i < j < |s| ==> s[i] != s[j]
    ensures var r := StableSort(s, leq); forall i, j :: 0 <= i < j < |r| ==> r[i] != r[j]
  {
    var r := StableSort(s, leq);
    SortIsPermutation(s, leq);
    forall i, j | 0 <= i < j < |r|
      ensures r[i] != r[j]
    {
      if r[i] == r[j] {
        TwiceInMultiset(r, i, j);
        DistinctOnce(s, r[i]);
      }
    }
  }
}

/** Counting the elements of sets and of sequences of distinct elements. */
module Pigeonhole {

  ghost predicate AllDistinct<T>(s: seq<T>) {
    forall i, j :: 0 <= i < j < |s| ==> s[i] != s[j]
  }

  lemma {:induction false} DistinctFits<T>(s: seq<T>, bound: set<T>)
    requires AllDistinct(s) && forall x :: x in s ==> x in bound
    ensures |s| <= |bound|
  {
    if s != [] {
      var init, last := s[..|s| - 1], s[|s| - 1];
      assert last in s;
      DistinctFits(init, bound - {last});
    }
  }

  lemma SubsetSize<T>(a: set<T>, b: set<T>)
    requires a <= b
    ensures |a| <= |b| && (a != b ==> |a| < |b|)
  {
    assert b == a + (b - a);
  }

  ghost function Below(n: nat): (b: set<nat>)
    ensures |b| == n && forall k: nat :: k in b <==> k < n
  {
    if n == 0 then {} else Below(n - 1) + {n - 1}
  }

  /** n distinct numbers below n are all the numbers below n. */
  lemma DistinctCovers(s: seq<nat>, n: nat)
    requires |s| == n && AllDistinct(s) && forall x :: x in s ==> x < n
    ensures forall k: nat :: k < n ==> k in s
  {
    forall k: nat | k < n
      ensures k in s
    {
      if k !in s {
        DistinctFits(s, Below(n) - {k});
      }
    }
  }
}

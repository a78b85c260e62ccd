/** Counting finite sets, the elements of sequences and the images of index sets. */
module Finite {
  ghost function Elements<T>(s: seq<T>): set<T> {
    set x | x in s
  }

  lemma SubsetSize<T>(a: set<T>, b: set<T>)
    requires a <= b
    ensures |a| <= |b| && (|a| == |b| ==> a == b)
  {
    assert b == a + (b - a);
  }

  lemma {:induction false} DistinctSize<T>(s: seq<T>)
    requires forall i, j :: 0 <= i < j < |s| ==> s[i] != s[j]
    ensures |Elements(s)| == |s|
  {
    if s != [] {
      var n := |s| - 1;
      DistinctSize(s[..n]);
      assert Elements(s) == Elements(s[..n]) + {s[n]};
      assert s[n] !in Elements(s[..n]);
    }
  }

  /** The numbers below n. */
  ghost function UpTo(n: nat): (s: set<nat>)
    ensures |s| == n && forall k: nat :: k in s <==> k < n
  {
    if n == 0 then {} else UpTo(n - 1) + {n - 1}
  }

  ghost predicate IsPermutation(order: seq<nat>) {
    && (forall i :: 0 <= i < |order| ==> order[i] < |order|)
    && (forall i, j :: 0 <= i < j < |order| ==> order[i] != order[j])
  }

  lemma PermutationHits(order: seq<nat>, x: nat)
    requires IsPermutation(order) && x < |order|
    ensures exists k :: 0 <= k < |order| && order[k] == x
  {
    DistinctSize(order);
    if x !in Elements(order) {
      SubsetSize(Elements(order), UpTo(|order|) - {x});
    }
  }

  /** The elements of xs at the positions in s. */
  ghost function Image<T>(xs: seq<T>, s: set<nat>): set<T>
    requires forall i :: i in s ==> i < |xs|
  {
    set i | i in s :: xs[i]
  }

  lemma {:induction false} ImageSize<T>(xs: seq<T>, s: set<nat>)
    requires forall i :: i in s ==> i < |xs|
    ensures |Image(xs, s)| <= |s|
    ensures (forall i, j :: i in s && j in s && xs[i] == xs[j] ==> i == j) ==> |Image(xs, s)| == |s|
    decreases s
  {
    if s != {} {
      var x :| x in s;
      ImageSize(xs, s - {x});
      assert Image(xs, s) == Image(xs, s - {x}) + {xs[x]};
    }
  }
}

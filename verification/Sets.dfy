/** Counting with finite sets. */
module Sets {
  /** The set 0, ..., n - 1. */
  ghost function Below(n: nat): (r: set<nat>)
    ensures |r| == n
    ensures forall i: nat :: i in r <==> i < n
  {
    if n == 0 then {} else Below(n - 1) + {n - 1}
  }

  lemma {:induction false} SubsetSize<T>(a: set<T>, b: set<T>)
    requires a <= b
    ensures |a| <= |b|
  {
    if a != {} {
      var x :| x in a;
      SubsetSize(a - {x}, b - {x});
    }
  }

  /** A subset as large as the whole is the whole. */
  lemma SubsetFull<T>(a: set<T>, b: set<T>)
    requires a <= b && |a| == |b|
    ensures a == b
  {
    if x :| x in b && x !in a {
      SubsetSize(a, b - {x});
    }
  }

  /** n indices below n are all of them. */
  lemma IndexSet(idx: set<nat>, n: nat)
    requires forall i :: i in idx ==> i < n
    ensures |idx| <= n
    ensures |idx| == n <==> forall i: nat :: i < n ==> i in idx
  {
    var all := Below(n);
    SubsetSize(idx, all);
    if |idx| == n {
      SubsetFull(idx, all);
    }
    if forall i: nat :: i < n ==> i in idx {
      assert idx == all;
    }
  }

  ghost function SetOf(s: seq<nat>): (r: set<nat>)
  {
    set x | x in s
  }

  /** A sequence without repeats has as many members as places. */
  lemma {:induction false} DistinctSize(s: seq<nat>)
    requires forall i, j :: 0 <= i < j < |s| ==> s[i] != s[j]
    ensures |SetOf(s)| == |s|
  {
    if s != [] {
      var front, last := s[..|s| - 1], s[|s| - 1];
      DistinctSize(front);
      assert SetOf(s) == SetOf(front) + {last};
    }
  }
}

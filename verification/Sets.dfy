/** Sizes of sets. */
module Sets {
  lemma {:induction false} SmallerSet<X>(a: set<X>, b: set<X>)
    requires a <= b
    ensures |a| <= |b|
    decreases |b|
  {
    if b != {} {
      var x :| x in b;
      SmallerSet(a - {x}, b - {x});
    }
  }

  lemma OneLess<X>(s: set<X>, x: X)
    requires x in s
    ensures |s - {x}| == |s| - 1
  {
  }

  /** More places than things to put there. */
  lemma {:induction false} Pigeonhole<X>(path: seq<X>, s: set<X>) returns (i: nat, j: nat)
    requires |path| > |s| && forall k :: 0 <= k < |path| ==> path[k] in s
    ensures i < j < |path| && path[i] == path[j]
    decreases |path|
  {
    var n := |path| - 1;
    var last := path[n];
    if k :| 0 <= k < n && path[k] == last {
      i, j := k, n;
    } else {
      OneLess(s, last);
      i, j := Pigeonhole(path[..n], s - {last});
    }
  }
}

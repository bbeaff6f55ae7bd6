/** Cutting a range of keys out of a sorted list of segments. */
module SegmentCuts {
  import opened Iterators
  import opened SegmentMap

  /** The list with segment `m` split at the ends of `r`, and the number of its middle part. */
  function IsolatedList<V>(s: seq<Seg<V>>, m: nat, r: Range, split: (Range, V, int) -> (V, V)): (seq<Seg<V>>, nat)
    requires m < |s|
  {
    var (s1, m1) := if s[m].range.CanSplitAt(r.start) then (SplitList(s, m, r.start, split), m + 1) else (s, m);
    if s1[m1].range.CanSplitAt(r.end) then (SplitList(s1, m1, r.end, split), m1) else (s1, m1)
  }

  lemma IsolatedListIs<V>(s: seq<Seg<V>>, m: nat, r: Range, split: (Range, V, int) -> (V, V))
    requires m < |s|
    ensures var s1 := if s[m].range.CanSplitAt(r.start) then SplitList(s, m, r.start, split) else s;
            var m1 := if s[m].range.CanSplitAt(r.start) then m + 1 else m;
            && m1 < |s1|
            && IsolatedList(s, m, r, split) == (if s1[m1].range.CanSplitAt(r.end) then (SplitList(s1, m1, r.end, split), m1) else (s1, m1))
  {
  }

  /** What of `x` is left between the ends of `r` it can be split at. */
  function IsolatedRange(x: Range, r: Range): Range {
    var lo := if x.CanSplitAt(r.start) then r.start else x.start;
    Range(lo, if Range(lo, x.end).CanSplitAt(r.end) then r.end else x.end)
  }

  lemma SplitAtIndex<V>(s: seq<Seg<V>>, m: nat, x: int, split: (Range, V, int) -> (V, V))
    requires m < |s|
    ensures var s' := SplitList(s, m, x, split);
            && |s'| == |s| + 1
            && (forall i :: 0 <= i < m ==> s'[i] == s[i])
            && s'[m].range == Range(s[m].range.start, x) && s'[m + 1].range == Range(x, s[m].range.end)
            && (forall i :: m + 1 < i < |s'| ==> s'[i] == s[i - 1])
  {
  }

  lemma IsolatedMiddle<V>(s: seq<Seg<V>>, m: nat, r: Range, split: (Range, V, int) -> (V, V))
    requires m < |s|
    ensures var (s1, m1) := IsolatedList(s, m, r, split); m1 < |s1| && s1[m1].range == IsolatedRange(s[m].range, r)
  {
  }

  /** `s'` is `s` without the isolated part of segment `m`, which was at `k`. */
  ghost predicate CutFrom<V>(s: seq<Seg<V>>, m: nat, r: Range, s': seq<Seg<V>>, k: nat, split: (Range, V, int) -> (V, V)) {
    && m < |s| && k == IsolatedList(s, m, r, split).1 && k < |IsolatedList(s, m, r, split).0|
    && s' == TakeOut(IsolatedList(s, m, r, split).0, k)
  }

  lemma CutFromIs<V>(s: seq<Seg<V>>, m: nat, r: Range, s': seq<Seg<V>>, k: nat, split: (Range, V, int) -> (V, V))
    requires m < |s| && k == IsolatedList(s, m, r, split).1 && k < |IsolatedList(s, m, r, split).0|
    requires s' == TakeOut(IsolatedList(s, m, r, split).0, k)
    ensures CutFrom(s, m, r, s', k, split)
  {
  }

  lemma RemovedAfter<V, X>(s: seq<Seg<V>>, s1: seq<Seg<V>>, s2: seq<Seg<V>>, at: Reading<V, X>, r: Range)
    requires Agree(s, s1, at) && Removed(s1, s2, at, r)
    ensures Removed(s, s2, at, r)
  {
  }

  /** Around segment `k` of `s1`: what is before it, and that the rest starts later. */
  ghost predicate Middle<V>(s1: seq<Seg<V>>, k: nat) {
    && k < |s1| && s1[k].range.start < s1[k].range.end
    && forall i :: k < i < |s1| ==> s1[i].range.start >= s1[k].range.end
  }

  lemma StartSide<V>(s: seq<Seg<V>>, m: nat, r: Range, s1: seq<Seg<V>>, k: nat, split: (Range, V, int) -> (V, V))
    requires Sorted(s) && m < |s| && (s[m].range.start >= r.start || s[m].range.Contains(r.start))
    requires s1 == if s[m].range.CanSplitAt(r.start) then SplitList(s, m, r.start, split) else s
    requires k == if s[m].range.CanSplitAt(r.start) then m + 1 else m
    ensures Middle(s1, k) && s1[k].range.start >= r.start
    ensures forall i :: 0 <= i < m ==> s1[i] == s[i]
    ensures forall i :: m <= i < k ==> s1[i].range.end == r.start
  {
    hide SplitList, Sorted;
    LaterStarts(s, m);
    if s[m].range.CanSplitAt(r.start) {
      SplitAtIndex(s, m, r.start, split);
      forall i | k < i < |s1| ensures s1[i].range.start >= s1[k].range.end {
        assert s1[i] == s[i - 1];
      }
    }
  }

  lemma LaterStarts<V>(s: seq<Seg<V>>, m: nat)
    requires Sorted(s) && m < |s|
    ensures Middle(s, m)
  {
  }

  lemma EndSide<V>(s1: seq<Seg<V>>, k: nat, x: int, s2: seq<Seg<V>>, split: (Range, V, int) -> (V, V))
    requires Middle(s1, k) && s2 == if s1[k].range.CanSplitAt(x) then SplitList(s1, k, x, split) else s1
    ensures k < |s2|
    ensures var s' := TakeOut(s2, k);
            && (forall i :: 0 <= i < k ==> s'[i] == s1[i])
            && (forall i :: k <= i < |s'| ==> s'[i].range.start > s1[k].range.start)
  {
    SplitAtIndex(s1, k, x, split);
    hide SplitList;
    var s' := TakeOut(s2, k);
    forall i | k <= i < |s'| ensures s'[i].range.start > s1[k].range.start {
      assert s'[i] == s2[i + 1];
    }
  }

  /** What is before and after a cut. */
  lemma CutSides<V>(s: seq<Seg<V>>, m: nat, r: Range, s': seq<Seg<V>>, k: nat, split: (Range, V, int) -> (V, V))
    requires Sorted(s) && CutFrom(s, m, r, s', k, split)
    requires s[m].range.start >= r.start || s[m].range.Contains(r.start)
    ensures m <= k <= |s'|
    ensures forall i :: 0 <= i < m ==> s'[i] == s[i]
    ensures forall i :: m <= i < k ==> s'[i].range.end == r.start
    ensures forall i :: k <= i < |s'| ==> s'[i].range.start >= r.start
  {
    hide SplitList, Sorted, TakeOut, IsolatedList;
    IsolatedListIs(s, m, r, split);
    var s1 := if s[m].range.CanSplitAt(r.start) then SplitList(s, m, r.start, split) else s;
    StartSide(s, m, r, s1, k, split);
    EndSide(s1, k, r.end, IsolatedList(s, m, r, split).0, split);
    TakeShrink(IsolatedList(s, m, r, split).0, k);
  }

  lemma TakeShrink<X>(s: seq<X>, i: nat)
    requires i < |s|
    ensures |TakeOut(s, i)| == |s| - 1
  {
  }

  /** How many segments start before `x`. */
  ghost function Starts<V>(s: seq<Seg<V>>, x: int): nat {
    if s == [] then 0 else (if s[0].range.start < x then 1 else 0) + Starts(s[1..], x)
  }

  lemma {:induction false} StartsAppend<V>(a: seq<Seg<V>>, b: seq<Seg<V>>, x: int)
    ensures Starts(a + b, x) == Starts(a, x) + Starts(b, x)
    decreases |a|
  {
    if a == [] {
      assert a + b == b;
    } else {
      assert (a + b)[1..] == a[1..] + b;
      StartsAppend(a[1..], b, x);
    }
  }

  /** Cutting a segment that starts inside `r` leaves fewer to cut. */
  lemma CutCounts<V>(s: seq<Seg<V>>, m: nat, r: Range, s': seq<Seg<V>>, k: nat, split: (Range, V, int) -> (V, V))
    requires CutFrom(s, m, r, s', k, split) && r.start <= s[m].range.start < r.end
    ensures Starts(s', r.end) < Starts(s, r.end)
  {
    IsolatedListIs(s, m, r, split);
    SplitAtIndex(s, m, r.end, split);
    hide Starts, SplitList, IsolatedList;
    assert s == s[..m] + [s[m]] + s[m + 1..];
    StartsMiddle(s[..m], s[m], s[m + 1..], r.end);
    if s[m].range.CanSplitAt(r.end) {
      var y := SplitList(s, m, r.end, split)[m + 1];
      assert s' == s[..m] + [y] + s[m + 1..];
      StartsMiddle(s[..m], y, s[m + 1..], r.end);
    } else {
      assert s' == s[..m] + s[m + 1..];
      StartsAppend(s[..m], s[m + 1..], r.end);
    }
  }

  lemma StartsMiddle<V>(a: seq<Seg<V>>, x: Seg<V>, b: seq<Seg<V>>, key: int)
    ensures Starts(a + [x] + b, key) == Starts(a, key) + (if x.range.start < key then 1 else 0) + Starts(b, key)
  {
    StartsAppend(a + [x], b, key);
    StartsAppend(a, [x], key);
    assert [x][1..] == [];
  }

  // ----- removing a range -----

  /** `cur` is `s` with the part of `r` before gap `k` cut out. */
  ghost predicate Cleared<V, X>(s: seq<Seg<V>>, cur: seq<Seg<V>>, k: nat, r: Range, at: Reading<V, X>) {
    && k <= |cur|
    && (forall i :: 0 <= i < k ==> cur[i].range.end <= r.start)
    && (forall i :: k <= i < |cur| ==> cur[i].range.start >= r.start)
    && (r.start < r.end ==> forall key :: !r.Contains(key) ==> Lookup(cur, at, key) == Lookup(s, at, key))
    && (r.start >= r.end ==> if Lookup(s, at, r.start).None? then cur == s else Lookup(cur, at, r.start).None?)
    && (r.start >= r.end ==> RestRemoved(s, cur, at, r.start))
  }

  /** The segment with `key` has lost the rest of its keys, from `key` on. */
  ghost predicate RestRemoved<V, X>(s: seq<Seg<V>>, s': seq<Seg<V>>, at: Reading<V, X>, key: int) {
    forall m :: 0 <= m < |s| && s[m].range.Contains(key) ==> Removed(s, s', at, Range(key, s[m].range.end))
  }

  lemma NoCut<V, X>(s: seq<Seg<V>>, k: nat, r: Range, at: Reading<V, X>)
    requires Sorted(s) && Around(s, k, k, r.start)
    ensures Cleared(s, s, k, r, at)
  {
    hide Removed;
    LookupNone(s, at, r.start);
  }

  lemma FirstCut<V, X>(s: seq<Seg<V>>, m: nat, r: Range, s': seq<Seg<V>>, k: nat, split: (Range, V, int) -> (V, V), at: Reading<V, X>)
    requires Sorted(s) && m < |s| && s[m].range.Contains(r.start) && CutFrom(s, m, r, s', k, split)
    requires Removed(s, s', at, IsolatedRange(s[m].range, r))
    ensures Cleared(s, s', k, r, at)
  {
    CutSides(s, m, r, s', k, split);
    LookupAt(s, at, r.start, m);
    hide Lookup, CutFrom;
    forall i | 0 <= i < k ensures s'[i].range.end <= r.start {
      if i < m { assert s[i].range.end <= s[m].range.start; }
    }
    if r.start >= r.end { RestCut(s, m, r, s', at); }
  }

  lemma RestCut<V, X>(s: seq<Seg<V>>, m: nat, r: Range, s': seq<Seg<V>>, at: Reading<V, X>)
    requires Sorted(s) && m < |s| && s[m].range.Contains(r.start) && r.start >= r.end && Removed(s, s', at, IsolatedRange(s[m].range, r))
    ensures RestRemoved(s, s', at, r.start)
  {
    hide Removed;
    forall i | 0 <= i < |s| && s[i].range.Contains(r.start) ensures i == m {
    }
  }

  lemma NextCut<V, X>(s: seq<Seg<V>>, s1: seq<Seg<V>>, m: nat, r: Range, s': seq<Seg<V>>, k: nat, split: (Range, V, int) -> (V, V), at: Reading<V, X>)
    requires Cleared(s, s1, m, r, at) && Sorted(s1) && m < |s1| && s1[m].range.start < r.end && CutFrom(s1, m, r, s', k, split)
    requires Removed(s1, s', at, IsolatedRange(s1[m].range, r))
    ensures Cleared(s, s', k, r, at) && Starts(s', r.end) < Starts(s1, r.end)
  {
    CutSides(s1, m, r, s', k, split);
    CutCounts(s1, m, r, s', k, split);
  }

  /** Gap `k` reaches over all of `r`. */
  ghost predicate Straddles<V>(s: seq<Seg<V>>, k: nat, r: Range) {
    && k <= |s|
    && (forall i :: 0 <= i < k ==> s[i].range.end <= r.start)
    && (forall i :: k <= i < |s| ==> r.start <= s[i].range.start && r.end <= s[i].range.start)
  }

  /** With nothing of `r` left, exactly the keys of `r` are gone, if `r` has any. */
  lemma AllCut<V, X>(s: seq<Seg<V>>, cur: seq<Seg<V>>, k: nat, r: Range, at: Reading<V, X>)
    requires Cleared(s, cur, k, r, at) && Sorted(cur) && (k < |cur| ==> cur[k].range.start >= r.end)
    ensures Removed(s, cur, at, r) <==> r.start < r.end || Lookup(s, at, r.start).None?
    ensures r.start >= r.end ==> RestRemoved(s, cur, at, r.start)
    ensures Straddles(cur, k, r)
  {
    if r.start < r.end {
      forall key ensures Lookup(cur, at, key) == if r.Contains(key) then None else Lookup(s, at, key) {
        if r.Contains(key) {
          LookupNone(cur, at, key);
        }
      }
    } else {
      assert !r.Contains(r.start);
    }
  }

  /** Everything before `lo` ends by `key`, everything from `hi` on starts after it. */
  ghost predicate Around<V>(s: seq<Seg<V>>, lo: nat, hi: nat, key: int) {
    && lo <= hi <= |s|
    && (forall m :: 0 <= m < lo ==> s[m].range.end <= key)
    && (forall m :: hi <= m < |s| ==> key < s[m].range.start)
  }

  lemma LookupAround<V, X>(s: seq<Seg<V>>, at: Reading<V, X>, key: int, k: nat)
    requires Around(s, k, k, key)
    ensures Lookup(s, at, key) == None
  {
    LookupNone(s, at, key);
  }
}

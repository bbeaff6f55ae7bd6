/** Sets of disjoint segments over a B-tree, and that they behave like a map from keys
    to values. */
module SegmentSets {
  import opened BTree
  import opened Positions
  import opened Iterators
  import opened HeapSteps
  import opened SegmentTrees
  import opened SegmentMap
  import opened SegmentCuts

  /** `key` falls between elements `i - 1` and `i` of the node at `p`. */
  ghost predicate Slot<V>(elems: seq<Seg<V>>, i: nat, key: int) {
    && i <= |elems|
    && (forall j :: 0 <= j < i ==> elems[j].range.end <= key)
    && (forall j :: i <= j < |elems| ==> key < elems[j].range.start)
  }

  lemma Narrow<V>(t: Tree<Seg<V>>, h: nat, p: seq<nat>, i: nat, lo: nat, hi: nat, key: int) returns (lo': nat, hi': nat)
    requires Shape(t, h) && Sorted(Flatten(t)) && Ahead(t, p, 0, lo) && After(t, p, |At(t, p).elems|, hi)
    requires Around(Flatten(t), lo, hi, key) && Slot(At(t, p).elems, i, key)
    ensures Ahead(t, p, i, lo') && After(t, p, i, hi') && Around(Flatten(t), lo', hi', key)
  {
    hide Flatten, Shape, LeftOf, RightOf, Before, Behind;
    var x := At(t, p);
    lo', hi' := |LeftOf(t, p)| + Preceding(x, i), |LeftOf(t, p)| + Through(x, i);
    assert lo' <= hi' by { PrecedingThrough(x, i); }
    NarrowLeft(t, h, p, i, lo, lo', key);
    NarrowRight(t, h, p, i, hi, hi', key);
  }

  lemma PrecedingThrough<E>(x: Tree<E>, i: nat)
    requires i <= |x.elems| && Shaped(x)
    ensures Preceding(x, i) <= Through(x, i)
  {
  }

  lemma NarrowLeft<V>(t: Tree<Seg<V>>, h: nat, p: seq<nat>, i: nat, lo: nat, lo': nat, key: int)
    requires Shape(t, h) && Sorted(Flatten(t)) && Ahead(t, p, 0, lo) && Ahead(t, p, i, lo') && Slot(At(t, p).elems, i, key)
    requires lo <= |Flatten(t)| && forall m :: 0 <= m < lo ==> Flatten(t)[m].range.end <= key
    ensures lo' <= |Flatten(t)| && forall m :: 0 <= m < lo' ==> Flatten(t)[m].range.end <= key
  {
    hide Flatten, Shape, LeftOf, Before, At, Path, Preceding, Through;
    if i > 0 {
      StepBack(t, p, i, lo');
      NamesElement(t, h, p, i - 1, lo' - 1);
      var f := Flatten(t);
      forall m | 0 <= m < lo' ensures f[m].range.end <= key {
        if m < lo' - 1 { assert f[m].range.end <= f[lo' - 1].range.start; }
      }
    }
  }

  lemma NarrowRight<V>(t: Tree<Seg<V>>, h: nat, p: seq<nat>, i: nat, hi: nat, hi': nat, key: int)
    requires Shape(t, h) && Sorted(Flatten(t)) && Path(t, p) && After(t, p, |At(t, p).elems|, hi) && After(t, p, i, hi') && Slot(At(t, p).elems, i, key)
    requires hi <= |Flatten(t)| && forall m :: hi <= m < |Flatten(t)| ==> key < Flatten(t)[m].range.start
    ensures hi' <= |Flatten(t)| && forall m :: hi' <= m < |Flatten(t)| ==> key < Flatten(t)[m].range.start
  {
    hide Flatten, Shape, LeftOf, Before, At, Path, Preceding, Through;
    if i < |At(t, p).elems| {
      NamesElement(t, h, p, i, hi');
      var f := Flatten(t);
      forall m | hi' <= m < |f| ensures key < f[m].range.start {
        if m > hi' { assert f[hi'].range.end <= f[m].range.start; }
      }
    }
  }

  class SegmentSet<V(!new), X> {
    const nodes: SegmentTree<Seg<V>>
    const minKey: int
    const maxKey: int
    const merge: (Range, V, Range, V) -> Option<V>
    const split: (Range, V, int) -> (V, V)
    ghost const at: Reading<V, X>

    ghost function List(): seq<Seg<V>>
      reads nodes
    {
      Flatten(nodes.tree)
    }

    ghost predicate Valid()
      reads nodes
    {
      nodes.Valid() && Sorted(List()) && Lawful(at, merge, split)
    }

    constructor (minKey: int, maxKey: int, merge: (Range, V, Range, V) -> Option<V>, split: (Range, V, int) -> (V, V), ghost at: Reading<V, X>)
      requires Lawful(at, merge, split)
      ensures Valid() && List() == [] && fresh(nodes)
      ensures this.minKey == minKey && this.maxKey == maxKey && this.merge == merge && this.split == split && this.at == at
    {
      this.minKey, this.maxKey, this.merge, this.split, this.at := minKey, maxKey, merge, split, at;
      nodes := new SegmentTree();
    }

    lemma Parts()
      requires Valid()
      ensures nodes.Valid() && Sorted(List()) && Lawful(at, merge, split) && List() == Flatten(nodes.tree)
    {
    }

    lemma NowValid()
      requires nodes.Valid() && Sorted(Flatten(nodes.tree)) && Lawful(at, merge, split)
      ensures Valid() && List() == Flatten(nodes.tree)
    {
    }

    /** The segment containing `key`, or else the gap it falls into. */
    method Find(key: int) returns (seg: Iterator, gap: Gap, ghost k: nat)
      requires Valid()
      ensures seg.Segment? ==> Names(nodes.tree, seg, k) && k < |List()| && List()[k].range.Contains(key)
      ensures seg.Terminal? ==> k < |Gaps(nodes.tree)| && Gaps(nodes.tree)[k] == gap && Around(List(), k, k, key)
      ensures seg.Segment? <==> Lookup(List(), at, key).Some?
      ensures Lookup(List(), at, key) == if seg.Segment? then Some(at(List()[k].range, List()[k].value, key)) else None
    {
      hide *;
      Parts();
      nodes.ValidParts();
      StoredParts(nodes.heap, nodes.next, nodes.tree, nodes.height);
      ghost var t := nodes.tree;
      TopAhead(t, nodes.height);
      TopPath(t, []);
      var n := nodes.root;
      ghost var p: seq<nat>, lo: nat, hi: nat := [], 0, |Flatten(t)|;
      AroundAll(Flatten(t), key);
      gap := Gap(n, 0);
      while true
        invariant Path(t, p) && At(t, p).ref == n && Ahead(t, p, 0, lo) && After(t, p, |At(t, p).elems|, hi)
        invariant Around(Flatten(t), lo, hi, key)
        decreases nodes.height - |p|
      {
        NodeAt(nodes.heap, nodes.next, t, nodes.height, p);
        KidFacts(t, nodes.height, p);
        NodeSorted(t, nodes.height, p);
        var found, i := SearchNode(nodes.heap[n].elems, key);
        if found {
          ghost var m := NumberOf(t, p, i);
          NamesElement(t, nodes.height, p, i, m);
          NamesAt(t, p, i, m);
          LookupAt(List(), at, key, m);
          return Segment(n, i), gap, m;
        }
        SlotBounds(At(t, p).elems, i, key);
        lo, hi := Narrow(t, nodes.height, p, i, lo, hi, key);
        if nodes.heap[n].kids == [] {
          LeafSame(t, p, i, hi);
          AheadUnique(t, p, i, lo, hi);
          GapNumber(t, nodes.height, p, i, hi);
          LookupAround(List(), at, key, hi);
          return Terminal, Gap(n, i), hi;
        }
        DownFirst(t, p, i, lo);
        DownLast(t, p, i, hi);
        AheadParts(t, p + [i], 0, lo);
        n, p := nodes.heap[n].kids[i], p + [i];
        KidFacts(t, nodes.height, p);
      }
    }

    method GapStart(gap: Gap, ghost k: nat) returns (start: int)
      requires Valid() && k < |Gaps(nodes.tree)| && Gaps(nodes.tree)[k] == gap
      ensures k <= |List()| && start == if k == 0 then minKey else List()[k - 1].range.end
    {
      hide *;
      Parts();
      nodes.GapBound(k);
      var prev := nodes.SegmentBeforeGap(gap, k);
      if prev == Terminal {
        if k > 0 { nodes.NamesReal(prev, k - 1); }
        return minKey;
      }
      nodes.ElementIs(prev, k - 1);
      start := nodes.Element(prev).range.end;
    }

    method GapEnd(gap: Gap, ghost k: nat) returns (end: int)
      requires Valid() && k < |Gaps(nodes.tree)| && Gaps(nodes.tree)[k] == gap
      ensures k <= |List()| && end == if k == |List()| then maxKey else List()[k].range.start
    {
      hide *;
      Parts();
      nodes.GapBound(k);
      var succ := nodes.SegmentAfterGap(gap, k);
      if succ == Terminal {
        nodes.NamesReal(succ, k);
        return maxKey;
      }
      nodes.ElementIs(succ, k);
      end := nodes.Element(succ).range.start;
    }

    /** Inserts a segment where it fits, and nothing otherwise. */
    method InsertWithoutMerging(gap: Gap, r: Range, val: V, ghost k: nat) returns (panicked: bool, seg: Iterator)
      requires Valid() && k < |Gaps(nodes.tree)| && Gaps(nodes.tree)[k] == gap
      modifies nodes
      ensures Valid() && k <= |old(List())|
      ensures panicked <==> !(Fits(old(List()), k, k, [Seg(r, val)]) && (k == 0 ==> minKey <= r.start) && (k == |old(List())| ==> r.end <= maxKey))
      ensures panicked ==> List() == old(List())
      ensures !panicked ==>
                && List() == PutIn(old(List()), k, Seg(r, val)) && Added(old(List()), List(), at, r, val)
                && Names(nodes.tree, seg, k)
    {
      hide *;
      Parts();
      nodes.GapBound(k);
      FitsOne(List(), k, r, val);
      LengthIs(r);
      seg := Terminal;
      if r.Length() <= 0 {
        return true, seg;
      }
      var start := GapStart(gap, k);
      var end := GapEnd(gap, k);
      if !(start <= r.start && end >= r.end) {
        return true, seg;
      }
      panicked := false;
      AddPlain(List(), k, r, val, at);
      seg := nodes.InsertWithoutMergingUnchecked(gap, Seg(r, val), k);
      NowValid();
    }

    /** Inserts a segment where it fits, merged with its neighbours where they merge. */
    method Insert(gap: Gap, r: Range, val: V, ghost k: nat) returns (panicked: bool, seg: Iterator, ghost m: nat)
      requires Valid() && k < |Gaps(nodes.tree)| && Gaps(nodes.tree)[k] == gap
      modifies nodes
      ensures Valid() && k <= |old(List())| && (panicked <==> !Fits(old(List()), k, k, [Seg(r, val)]))
      ensures panicked ==> List() == old(List())
      ensures !panicked ==> List() == InsertMerged(old(List()), k, Seg(r, val), merge)
      ensures !panicked ==>
                && Added(old(List()), List(), at, r, val)
                && Names(nodes.tree, seg, m) && m < |List()| && List()[m].range.start <= r.start && r.end <= List()[m].range.end
    {
      hide *;
      Parts();
      nodes.GapBound(k);
      FitsOne(List(), k, r, val);
      LengthIs(r);
      panicked, seg, m := true, Terminal, 0;
      ghost var s := List();
      if r.Length() <= 0 { return; }
      var prev := nodes.SegmentBeforeGap(gap, k);
      var succ := nodes.SegmentAfterGap(gap, k);
      nodes.TerminalOr(prev, succ, k);
      if prev != Terminal {
        nodes.ElementIs(prev, k - 1);
        if nodes.Element(prev).range.end > r.start { return; }
      }
      if succ != Terminal {
        nodes.ElementIs(succ, k);
        if nodes.Element(succ).range.start < r.end { return; }
      }
      panicked := false;
      JoinsAround(s, k, Seg(r, val), merge);
      if prev != Terminal && nodes.Element(prev).range.end == r.start {
        var x := nodes.Element(prev);
        var mval := merge(x.range, x.value, r, val);
        if mval.Some? {
          GrowsPrev(s, k, Seg(r, val), merge);
          AddToPrev(s, k, r, val, mval.value, at, merge, split);
          seg := GrowPrev(prev, succ, Range(x.range.start, r.end), mval.value, k);
          AddedThen(s, s[k - 1 := Seg(Range(x.range.start, r.end), mval.value)], List(), at, r, val);
          m := k - 1;
          return;
        }
      }
      if succ != Terminal && nodes.Element(succ).range.start == r.end {
        var y := nodes.Element(succ);
        var mval := merge(r, val, y.range, y.value);
        if mval.Some? {
          GrowsNext(s, k, Seg(r, val), merge);
          AddToNext(s, k, r, val, mval.value, at, merge, split);
          ghost var t := nodes.tree;
          nodes.SetElement(succ, Seg(Range(r.start, y.range.end), mval.value), k);
          AlikeNames(t, nodes.tree, succ, k);
          NowValid();
          return panicked, succ, k;
        }
      }
      StaysPlain(s, k, Seg(r, val), merge);
      AddPlain(s, k, r, val, at);
      PutAt(s, k, Seg(r, val));
      seg := nodes.InsertWithoutMergingUnchecked(gap, Seg(r, val), k);
      NowValid();
      m := k;
    }

    /** The predecessor takes the new range, and then its successor if they merge. */
    method GrowPrev(prev: Iterator, succ: Iterator, range: Range, val: V, ghost k: nat) returns (seg: Iterator)
      requires nodes.Valid() && Lawful(at, merge, split) && 0 < k <= |Flatten(nodes.tree)| && Names(nodes.tree, prev, k - 1)
      requires if k == |Flatten(nodes.tree)| then succ == Terminal else Names(nodes.tree, succ, k)
      requires Sorted(Flatten(nodes.tree)[k - 1 := Seg(range, val)])
      modifies nodes
      ensures Valid() && Agree(old(Flatten(nodes.tree))[k - 1 := Seg(range, val)], List(), at)
      ensures List() == TryJoin(old(Flatten(nodes.tree))[k - 1 := Seg(range, val)], k - 1, merge)
      ensures Names(nodes.tree, seg, k - 1) && k - 1 < |List()| && List()[k - 1].range.start == range.start && range.end <= List()[k - 1].range.end
    {
      hide *;
      ghost var s, t := Flatten(nodes.tree)[k - 1 := Seg(range, val)], nodes.tree;
      nodes.TerminalIs(succ, k);
      nodes.SetElement(prev, Seg(range, val), k - 1);
      AlikeNames(t, nodes.tree, prev, k - 1);
      TryJoinIs(s, k - 1, merge);
      if succ != Terminal {
        JoinsIs(s, k - 1, merge);
        AlikeNames(t, nodes.tree, succ, k);
        nodes.ElementIs(succ, k);
        var y := nodes.Element(succ);
        if y.range.start == range.end {
          var mval := merge(range, val, y.range, y.value);
          if mval.Some? {
            MergeAgrees(s, k - 1, mval.value, at, merge, split);
            SortedAt(s, k);
            seg := JoinNext(prev, succ, Seg(Range(range.start, y.range.end), mval.value), k - 1);
            NowValid();
            return;
          }
        }
      }
      AgreeSame(s, at);
      NowValid();
      seg := prev;
    }

    /** Segment `m` becomes `x`, and its successor is removed. */
    method JoinNext(first: Iterator, second: Iterator, x: Seg<V>, ghost m: nat) returns (seg: Iterator)
      requires nodes.Valid() && Names(nodes.tree, first, m) && Names(nodes.tree, second, m + 1) && m + 1 < |Flatten(nodes.tree)|
      modifies nodes
      ensures nodes.Valid() && Flatten(nodes.tree) == TakeOut(old(Flatten(nodes.tree))[m := x], m + 1)
      ensures Names(nodes.tree, seg, m) && m < |Flatten(nodes.tree)| && Flatten(nodes.tree)[m] == x
    {
      hide *;
      ghost var s, t := Flatten(nodes.tree), nodes.tree;
      nodes.SetElement(first, x, m);
      AlikeNames(t, nodes.tree, second, m + 1);
      var gap := nodes.Remove(second, m + 1);
      seg := nodes.SegmentBeforeGap(gap, m + 1);
      TakeNext(s, m, x);
    }

    /** Adds a segment if its range is free: it then reads exactly as given. */
    method Add(r: Range, val: V) returns (panicked: bool, ok: bool, ghost k: nat)
      requires Valid()
      modifies nodes
      ensures Valid() && (panicked <==> r.Length() <= 0)
      ensures panicked || !ok ==> List() == old(List())
      ensures !panicked ==> (ok <==> Free(old(List()), r) && Reaches(old(List()), r, maxKey))
      ensures !panicked && ok ==> Added(old(List()), List(), at, r, val)
      ensures !panicked && ok ==> Around(old(List()), k, k, r.start) && k <= |old(List())| && List() == InsertMerged(old(List()), k, Seg(r, val), merge)
    {
      hide *;
      Parts();
      LengthIs(r);
      panicked, ok, k := r.Length() <= 0, false, 0;
      if panicked { return; }
      ghost var s := List();
      var found, gap;
      found, gap, k := Find(r.start);
      if found != Terminal {
        TakenFree(s, k, r);
        return;
      }
      nodes.GapBound(k);
      FitsOne(s, k, r, val);
      GapFree(s, k, r);
      var end := GapEnd(gap, k);
      if r.end > end { return; }
      var p, seg, m := Insert(gap, r, val, k);
      ok := true;
    }

    method AddWithoutMerging(r: Range, val: V) returns (panicked: bool, ok: bool, ghost k: nat)
      requires Valid()
      modifies nodes
      ensures Valid() && (panicked <==> r.Length() <= 0)
      ensures panicked || !ok ==> List() == old(List())
      ensures !panicked ==> (ok <==> Free(old(List()), r) && Reaches(old(List()), r, maxKey))
      ensures !panicked && ok ==> Added(old(List()), List(), at, r, val)
      ensures !panicked && ok ==> Around(old(List()), k, k, r.start) && k <= |old(List())| && List() == PutIn(old(List()), k, Seg(r, val))
    {
      hide *;
      Parts();
      LengthIs(r);
      panicked, ok, k := r.Length() <= 0, false, 0;
      if panicked { return; }
      ghost var s := List();
      var found, gap;
      found, gap, k := Find(r.start);
      if found != Terminal {
        TakenFree(s, k, r);
        return;
      }
      nodes.GapBound(k);
      FitsOne(s, k, r, val);
      GapFree(s, k, r);
      var end := GapEnd(gap, k);
      if r.end > end { return; }
      AddPlain(s, k, r, val, at);
      var seg := nodes.InsertWithoutMergingUnchecked(gap, Seg(r, val), k);
      NowValid();
      ok := true;
    }

    /** Whether no key of the range is mapped. */
    method IsEmptyRange(r: Range) returns (panicked: bool, empty: bool)
      requires Valid()
      ensures panicked <==> r.Length() < 0
      ensures !panicked ==> (empty <==> r.Length() == 0 || (Free(List(), r) && Reaches(List(), r, maxKey)))
    {
      hide *;
      Parts();
      LengthIs(r);
      panicked, empty := r.Length() < 0, true;
      if r.Length() <= 0 { return; }
      var found, gap, k := Find(r.start);
      if found != Terminal {
        TakenFree(List(), k, r);
        return false, false;
      }
      nodes.GapBound(k);
      GapFree(List(), k, r);
      var end := GapEnd(gap, k);
      empty := r.end <= end;
    }

    /** Merges two neighbours if they touch and their values merge. */
    method MergeUnchecked(first: Iterator, second: Iterator, ghost m: nat) returns (seg: Iterator)
      requires Valid() && Names(nodes.tree, first, m) && Names(nodes.tree, second, m + 1) && m + 1 < |List()|
      modifies nodes
      ensures Valid() && Agree(old(List()), List(), at)
      ensures if Joins(old(List())[m], old(List())[m + 1], merge)
              then Names(nodes.tree, seg, m) && List() == JoinAt(old(List()), m, merge)
              else seg == Terminal && List() == old(List()) && nodes.tree == old(nodes.tree)
    {
      hide *;
      Parts();
      nodes.ElementIs(first, m);
      nodes.ElementIs(second, m + 1);
      var x, y := nodes.Element(first), nodes.Element(second);
      ghost var s := List();
      JoinsIs(s, m, merge);
      if x.range.end == y.range.start {
        var mval := merge(x.range, x.value, y.range, y.value);
        if mval.Some? {
          MergeAgrees(s, m, mval.value, at, merge, split);
          seg := JoinNext(first, second, Seg(Range(x.range.start, y.range.end), mval.value), m);
          NowValid();
          return;
        }
      }
      AgreeSame(s, at);
      seg := Terminal;
    }

    /** Merges neighbours throughout, in one pass; no key reads differently. */
    method MergeAll()
      requires Valid()
      modifies nodes
      ensures Valid() && Agree(old(List()), List(), at) && List() == JoinFrom(old(List()), 0, merge)
    {
      hide *;
      Parts();
      ghost var s := List();
      AgreeSame(s, at);
      JoinFromIs(s, 0, merge);
      var seg := nodes.First();
      nodes.TerminalIs(seg, 0);
      if seg == Terminal { return; }
      ghost var m := 0;
      var succ := nodes.NextSegment(seg, m);
      nodes.TerminalIs(succ, m + 1);
      while succ != Terminal
        invariant Valid() && nodes.Valid() && List() == Flatten(nodes.tree) && Agree(s, List(), at)
        invariant JoinFrom(List(), m, merge) == JoinFrom(s, 0, merge)
        invariant Names(nodes.tree, seg, m) && m < |List()| && (succ == Terminal <==> m + 1 == |List()|)
        invariant succ != Terminal ==> Names(nodes.tree, succ, m + 1)
        decreases |List()| - m
      {
        ghost var s1 := List();
        JoinFromIs(s1, m, merge);
        var merged := MergeUnchecked(seg, succ, m);
        AgreeThen(s, s1, List(), at);
        Parts();
        if merged != Terminal {
          seg := merged;
          succ := nodes.NextSegment(merged, m);
        } else {
          nodes.NamesReal(merged, m);
          seg := succ;
          m := m + 1;
          succ := nodes.NextSegment(seg, m);
        }
        nodes.TerminalIs(succ, m + 1);
      }
      JoinFromIs(List(), m, merge);
    }

    /** Splits segment `m` at `x`. */
    method SplitUnchecked(seg: Iterator, x: int, ghost m: nat) returns (left: Iterator, right: Iterator)
      requires Valid() && Names(nodes.tree, seg, m) && m < |List()| && List()[m].range.CanSplitAt(x)
      modifies nodes
      ensures Valid() && Agree(old(List()), List(), at) && List() == SplitList(old(List()), m, x, split)
      ensures Names(nodes.tree, left, m) && Names(nodes.tree, right, m + 1)
    {
      hide *;
      Parts();
      nodes.ElementIs(seg, m);
      ghost var s, t := List(), nodes.tree;
      SplitAgrees(s, m, x, at, merge, split);
      SplitListIs(s, m, x, split);
      var r, v := nodes.Element(seg).range, split(nodes.Element(seg).range, nodes.Element(seg).value, x);
      nodes.SetElement(seg, Seg(Range(r.start, x), v.0), m);
      AlikeNames(t, nodes.tree, seg, m);
      var gap := nodes.NextGap(seg, m);
      right := nodes.InsertWithoutMergingUnchecked(gap, Seg(Range(x, r.end), v.1), m + 1);
      left := nodes.PrevSegment(right, m + 1);
      NowValid();
    }

    /** Splits the segment straddling `x`, if there is one. */
    method SplitAt(x: int) returns (did: bool)
      requires Valid()
      modifies nodes
      ensures Valid() && Agree(old(List()), List(), at)
      ensures did <==> exists m :: 0 <= m < |old(List())| && old(List())[m].range.CanSplitAt(x)
      ensures forall m :: 0 <= m < |List()| ==> !List()[m].range.CanSplitAt(x)
      ensures !did ==> List() == old(List())
      ensures forall m :: 0 <= m < |old(List())| && old(List())[m].range.CanSplitAt(x) ==> List() == SplitList(old(List()), m, x, split)
    {
      hide *;
      Parts();
      ghost var s := List();
      AgreeSame(s, at);
      var seg, gap, k := Find(x);
      did := false;
      if seg == Terminal {
        NoneStraddles(s, k, x);
        return;
      }
      nodes.ElementIs(seg, k);
      CanSplitIs(nodes.Element(seg).range, x);
      if nodes.Element(seg).range.CanSplitAt(x) {
        var left, right := SplitUnchecked(seg, x, k);
        Parts();
        SplitDone(s, k, x, split);
        did := true;
        return;
      }
      OneStraddles(s, k, x);
    }

    /** Splits segment `m` where it reaches beyond `r`. */
    method Isolate(seg: Iterator, r: Range, ghost m: nat) returns (isolated: Iterator, ghost m': nat)
      requires Valid() && Names(nodes.tree, seg, m) && m < |List()|
      modifies nodes
      ensures Valid() && Agree(old(List()), List(), at)
      ensures Names(nodes.tree, isolated, m') && List() == IsolatedList(old(List()), m, r, split).0 && m' == IsolatedList(old(List()), m, r, split).1
    {
      hide *;
      Parts();
      ghost var s := List();
      AgreeSame(s, at);
      IsolatedListIs(s, m, r, split);
      isolated, m' := seg, m;
      nodes.ElementIs(isolated, m');
      if nodes.Element(isolated).range.CanSplitAt(r.start) {
        var left;
        left, isolated := SplitUnchecked(isolated, r.start, m');
        m' := m' + 1;
        Parts();
        nodes.ElementIs(isolated, m');
      }
      ghost var s1 := List();
      AgreeSame(s1, at);
      if nodes.Element(isolated).range.CanSplitAt(r.end) {
        var right;
        isolated, right := SplitUnchecked(isolated, r.end, m');
      }
      AgreeThen(s, s1, List(), at);
    }

    /** Removes the part of segment `m` that `r` does not cut off. */
    method CutOut(seg: Iterator, r: Range, ghost m: nat) returns (gap: Gap, ghost k: nat)
      requires Valid() && Names(nodes.tree, seg, m) && m < |List()|
      modifies nodes
      ensures Valid() && k < |Gaps(nodes.tree)| && Gaps(nodes.tree)[k] == gap
      ensures CutFrom(old(List()), m, r, List(), k, split)
      ensures Removed(old(List()), List(), at, IsolatedRange(old(List())[m].range, r))
    {
      hide *;
      Parts();
      ghost var s := List();
      IsolatedMiddle(s, m, r, split);
      var isolated;
      isolated, k := Isolate(seg, r, m);
      Parts();
      ghost var s1 := List();
      TakeRemoves(s1, k, at);
      RemovedAfter(s, s1, TakeOut(s1, k), at, s1[k].range);
      gap := nodes.Remove(isolated, k);
      NowValid();
      CutFromIs(s, m, r, List(), k, split);
    }

    /** Removes the keys of `r`: exactly those, unless `r` is empty and starts inside a segment,
        which then loses all its keys from there on. */
    method RemoveRange(r: Range) returns (gap: Gap, ghost k: nat)
      requires Valid()
      modifies nodes
      ensures Valid() && k < |Gaps(nodes.tree)| && Gaps(nodes.tree)[k] == gap
      ensures Removed(old(List()), List(), at, r) <==> r.start < r.end || Lookup(old(List()), at, r.start).None?
      ensures r.start >= r.end ==> RestRemoved(old(List()), List(), at, r.start)
      ensures Straddles(List(), k, r)
    {
      hide *;
      Parts();
      ghost var s := List();
      var seg;
      seg, gap, k := Find(r.start);
      if seg == Terminal {
        NoCut(s, k, r, at);
      } else {
        ghost var m := k;
        gap, k := CutOut(seg, r, m);
        Parts();
        FirstCut(s, m, r, List(), k, split, at);
      }
      nodes.GapBound(k);
      seg := nodes.SegmentAfterGap(gap, k);
      nodes.TerminalIs(seg, k);
      if seg != Terminal { nodes.ElementIs(seg, k); }
      while seg != Terminal && nodes.Element(seg).range.start < r.end
        invariant Valid() && nodes.Valid() && List() == Flatten(nodes.tree) && Sorted(List())
        invariant k < |Gaps(nodes.tree)| && Gaps(nodes.tree)[k] == gap && Cleared(s, List(), k, r, at)
        invariant k <= |List()| && (seg == Terminal <==> k == |List()|)
        invariant seg != Terminal ==>
                    && Names(nodes.tree, seg, k) && seg.node in nodes.heap && seg.index < |nodes.heap[seg.node].elems|
                    && nodes.Element(seg) == List()[k]
        decreases Starts(List(), r.end)
      {
        ghost var s1, m := List(), k;
        gap, k := CutOut(seg, r, m);
        Parts();
        NextCut(s, s1, m, r, List(), k, split, at);
        nodes.GapBound(k);
        seg := nodes.SegmentAfterGap(gap, k);
        nodes.TerminalIs(seg, k);
        if seg != Terminal { nodes.ElementIs(seg, k); }
      }
      AllCut(s, List(), k, r, at);
    }
  }

  lemma {:induction false} ThroughRises<E>(x: Tree<E>, i: nat, j: nat)
    requires Shaped(x) && i < j <= |x.elems|
    ensures Through(x, i) < Through(x, j)
    decreases j
  {
    ThroughInner(x, j - 1);
    PrecedingThrough(x, j);
    if i < j - 1 { ThroughRises(x, i, j - 1); }
  }

  /** The elements of each node are in order. */
  lemma NodeSorted<V>(t: Tree<Seg<V>>, h: nat, p: seq<nat>)
    requires Shape(t, h) && Path(t, p) && Shaped(At(t, p)) && Sorted(Flatten(t))
    ensures Sorted(At(t, p).elems)
  {
    hide Flatten, Shape, LeftOf, At, Path, Through, Preceding;
    var x, f, l := At(t, p), Flatten(t), |LeftOf(t, p)|;
    forall i | 0 <= i < |x.elems| ensures l + Through(x, i) < |f| && f[l + Through(x, i)] == x.elems[i] {
      NamesElement(t, h, p, i, l + Through(x, i));
    }
    forall i, j | 0 <= i < j < |x.elems| ensures x.elems[i].range.end <= x.elems[j].range.start {
      ThroughRises(x, i, j);
    }
  }

  lemma JoinsAround<V>(s: seq<Seg<V>>, k: nat, x: Seg<V>, merge: (Range, V, Range, V) -> Option<V>)
    requires k <= |s|
    ensures 0 < k ==> (Joins(s[k - 1], x, merge) <==> s[k - 1].range.end == x.range.start && merge(s[k - 1].range, s[k - 1].value, x.range, x.value).Some?)
    ensures k < |s| ==> (Joins(x, s[k], merge) <==> x.range.end == s[k].range.start && merge(x.range, x.value, s[k].range, s[k].value).Some?)
  {
  }

  lemma LengthIs(r: Range)
    ensures r.Length() == r.end - r.start
  {
  }

  lemma PutAt<X>(s: seq<X>, k: nat, x: X)
    requires k <= |s|
    ensures k < |PutIn(s, k, x)| && PutIn(s, k, x)[k] == x
  {
  }

  lemma TakeNext<X>(s: seq<X>, m: nat, x: X)
    requires m + 1 < |s|
    ensures var s' := TakeOut(s[m := x], m + 1); m < |s'| && s'[m] == x
  {
  }

  lemma SortedAt<V>(s: seq<Seg<V>>, i: nat)
    requires Sorted(s) && i < |s|
    ensures s[i].range.start < s[i].range.end
  {
  }

  /** No segment overlaps `r`. */
  ghost predicate Free<V>(s: seq<Seg<V>>, r: Range) {
    forall m :: 0 <= m < |s| ==> s[m].range.end <= r.start || r.end <= s[m].range.start
  }

  /** `r` ends within the key space, or before some segment. */
  ghost predicate Reaches<V>(s: seq<Seg<V>>, r: Range, maxKey: int) {
    r.end <= maxKey || exists m :: 0 <= m < |s| && r.start < s[m].range.start
  }

  lemma TakenFree<V>(s: seq<Seg<V>>, k: nat, r: Range)
    requires k < |s| && s[k].range.Contains(r.start) && r.start < r.end
    ensures !Free(s, r)
  {
  }

  lemma GapFree<V>(s: seq<Seg<V>>, k: nat, r: Range)
    requires Sorted(s) && Around(s, k, k, r.start) && r.start < r.end
    ensures Free(s, r) <==> (k < |s| ==> r.end <= s[k].range.start)
    ensures forall maxKey {:trigger Reaches(s, r, maxKey)} :: Reaches(s, r, maxKey) <==> r.end <= maxKey || k < |s|
    ensures k <= |s| && (0 < k ==> s[k - 1].range.end <= r.start)
  {
    assert k < |s| ==> r.start < s[k].range.start;
    forall m | k < m < |s| ensures s[k].range.start <= s[m].range.start {
    }
  }

  lemma CanSplitIs(r: Range, x: int)
    ensures r.CanSplitAt(x) <==> r.start < x < r.end
  {
  }

  lemma SplitListIs<V>(s: seq<Seg<V>>, m: nat, x: int, split: (Range, V, int) -> (V, V))
    requires m < |s|
    ensures var r, v := s[m].range, split(s[m].range, s[m].value, x);
            SplitList(s, m, x, split) == PutIn(s[m := Seg(Range(r.start, x), v.0)], m + 1, Seg(Range(x, r.end), v.1))
  {
  }

  lemma NoneStraddles<V>(s: seq<Seg<V>>, k: nat, x: int)
    requires Sorted(s) && Around(s, k, k, x)
    ensures forall m :: 0 <= m < |s| ==> !s[m].range.CanSplitAt(x)
  {
  }

  lemma OneStraddles<V>(s: seq<Seg<V>>, k: nat, x: int)
    requires Sorted(s) && k < |s| && s[k].range.Contains(x) && !s[k].range.CanSplitAt(x)
    ensures forall m :: 0 <= m < |s| ==> !s[m].range.CanSplitAt(x)
  {
  }

  lemma SplitDone<V>(s: seq<Seg<V>>, k: nat, x: int, split: (Range, V, int) -> (V, V))
    requires Sorted(s) && k < |s| && s[k].range.CanSplitAt(x)
    ensures exists m :: 0 <= m < |s| && s[m].range.CanSplitAt(x)
    ensures forall m :: 0 <= m < |s| && s[m].range.CanSplitAt(x) ==> m == k
    ensures var s' := SplitList(s, k, x, split); forall m :: 0 <= m < |s'| ==> !s'[m].range.CanSplitAt(x)
  {
    var s' := SplitList(s, k, x, split);
    forall m | 0 <= m < |s'| ensures !s'[m].range.CanSplitAt(x) {
      assert m < k ==> s'[m] == s[m];
      assert m > k + 1 ==> s'[m] == s[m - 1];
    }
  }

  lemma AroundAll<V>(s: seq<Seg<V>>, key: int)
    ensures Around(s, 0, |s|, key)
  {
  }

  lemma SlotBounds<V>(elems: seq<Seg<V>>, i: nat, key: int)
    requires Slot(elems, i, key)
    ensures i <= |elems|
  {
  }

  lemma NumberOf<E>(t: Tree<E>, p: seq<nat>, i: nat) returns (m: nat)
    requires Path(t, p) && Shaped(At(t, p)) && i <= |At(t, p).elems|
    ensures After(t, p, i, m)
  {
    m := |LeftOf(t, p)| + Through(At(t, p), i);
  }

  lemma AheadUnique<E>(t: Tree<E>, p: seq<nat>, i: nat, n: nat, n': nat)
    requires Ahead(t, p, i, n) && Ahead(t, p, i, n')
    ensures n == n'
  {
  }

  /** Binary search among the elements of one node. */
  method SearchNode<V>(elems: seq<Seg<V>>, key: int) returns (found: bool, i: nat)
    requires Sorted(elems)
    ensures if found then i < |elems| && elems[i].range.Contains(key) else Slot(elems, i, key)
  {
    var lower, upper := 0, |elems|;
    while lower < upper
      invariant 0 <= lower <= upper <= |elems|
      invariant forall j :: 0 <= j < lower ==> elems[j].range.end <= key
      invariant forall j :: upper <= j < |elems| ==> key < elems[j].range.start
    {
      var mid := lower + (upper - lower) / 2;
      var r := elems[mid].range;
      if key < r.end {
        if key >= r.start {
          return true, mid;
        }
        upper := mid;
      } else {
        lower := mid + 1;
      }
    }
    return false, lower;
  }

  // ----- removing an empty range -----

  function NoMerge(r1: Range, v1: int, r2: Range, v2: int): Option<int> {
    None
  }

  function Copy(r: Range, v: int, x: int): (int, int) {
    (v, v)
  }

  ghost function Whole(r: Range, v: int, key: int): int {
    v
  }

  /** Adding [0, 1) and removing [0, 0), which has no key, leaves key 0 unmapped. */
  method EmptyRangeRemoved() returns (s: SegmentSet<int, int>, ghost before: seq<Seg<int>>)
    ensures fresh(s) && s.Valid()
    ensures Lookup(before, s.at, 0).Some? && Lookup(s.List(), s.at, 0).None? && !Range(0, 0).Contains(0)
  {
    hide *;
    AllLawful();
    s := new SegmentSet<int, int>(0, 10, NoMerge, Copy, Whole);
    LengthIs(Range(0, 1));
    EmptyFree(Range(0, 1), 10);
    var panicked, ok, k := s.Add(Range(0, 1), 7);
    before := s.List();
    KeyThere([], before, s.at);
    var gap;
    gap, k := s.RemoveRange(Range(0, 0));
    KeyGone(before, s.List(), s.at);
  }

  lemma KeyThere(s: seq<Seg<int>>, s': seq<Seg<int>>, at: Reading<int, int>)
    requires Added(s, s', at, Range(0, 1), 7)
    ensures Lookup(s', at, 0).Some?
  {
  }

  lemma KeyGone(s: seq<Seg<int>>, s': seq<Seg<int>>, at: Reading<int, int>)
    requires Lookup(s, at, 0).Some? && RestRemoved(s, s', at, 0)
    ensures Lookup(s', at, 0).None? && !Range(0, 0).Contains(0)
  {
    LookupNone(s, at, 0);
    var m :| 0 <= m < |s| && s[m].range.Contains(0);
    assert Removed(s, s', at, Range(0, s[m].range.end));
  }

  lemma AllLawful()
    ensures Lawful(Whole, NoMerge, Copy)
  {
  }

  lemma EmptyFree(r: Range, maxKey: int)
    requires 0 < r.Length() && r.end <= maxKey
    ensures Free<int>([], r) && Reaches<int>([], r, maxKey)
  {
  }
}

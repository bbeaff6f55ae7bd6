/** How the local steps of rebalancing renumber gaps. Each step returns an adjusted
    gap; it denotes the same position as before, with one exception. */
module GapMoves {
  import opened BTree
  import opened Positions
  import opened Restructure

  // ----- the adjustments made by the code -----

  function SplitGap(g: Gap, n: Ref, s: Ref): Gap {
    if g.node != n || g.index < MIN_DEGREE then g else Gap(s, g.index - MIN_DEGREE)
  }

  function SplitTopGap(g: Gap, n: Ref, l: Ref, r: Ref): Gap {
    if g.node != n then g else if g.index < MIN_DEGREE then Gap(l, g.index) else Gap(r, g.index - MIN_DEGREE)
  }

  function JoinGap(g: Gap, left: Ref, right: Ref, size: nat): Gap {
    if g.node == right then Gap(left, g.index + size + 1) else g
  }

  function UnsplitGap(g: Gap, p: Ref, left: Ref, right: Ref, size: nat): Gap {
    if g.node == left then Gap(p, g.index) else if g.node == right then Gap(p, g.index + size + 1) else g
  }

  /** `size` is the number of elements the sibling has left. */
  function RotateRightGap(g: Gap, n: Ref, sibling: Ref, size: nat): Gap {
    if g.node == sibling && g.index == size then Gap(n, 0)
    else if g.node == n then Gap(n, g.index + 1)
    else g
  }

  /** `size` is the number of elements `n` has now. */
  function RotateLeftGap(g: Gap, n: Ref, sibling: Ref, size: nat): Gap {
    if g.node == sibling then (if g.index == 0 then Gap(n, size) else Gap(sibling, g.index - 1)) else g
  }

  // ----- gaps by number -----

  ghost function LeafAt<E>(t: Tree<E>, i: nat): nat
    requires i < |t.kids|
  {
    |KidGaps(t.kids[..i])|
  }

  /** Gap number `k` among the children, one of which is the leaf at `i`. */
  lemma LeafGap<E>(t: Tree<E>, i: nat, k: nat)
    requires Distinct(t) && i < |t.kids| && t.kids[i].kids == [] && k < |Gaps(t)|
    ensures var x, k0, g := t.kids[i], LeafAt(t, i), Gaps(t)[k];
            && |Gaps(t)| == k0 + |x.elems| + 1 + |KidGaps(t.kids[i + 1..])|
            && (k < k0 ==> g == KidGaps(t.kids[..i])[k] && g.node != x.ref)
            && (k0 <= k <= k0 + |x.elems| ==> g == Gap(x.ref, k - k0))
            && (k > k0 + |x.elems| ==> g == KidGaps(t.kids[i + 1..])[k - k0 - |x.elems| - 1] && g.node != x.ref)
  {
    var x, k0 := t.kids[i], LeafAt(t, i);
    GapsOfNode(t);
    GapsAround(t.kids, i);
    KidsAround(t.kids, i);
    assert Gaps(x) == LeafGaps(x.ref, |x.elems| + 1);
    hide Gaps, KidGaps;
    if k < k0 {
      KidGapOwner(t.kids[..i], k);
    } else if k > k0 + |x.elems| {
      KidGapOwner(t.kids[i + 1..], k - k0 - |x.elems| - 1);
    }
  }

  /** The same with two neighbouring leaves. */
  lemma LeafPairGap<E>(t: Tree<E>, i: nat, k: nat)
    requires Distinct(t) && i + 1 < |t.kids| && t.kids[i].kids == [] && t.kids[i + 1].kids == [] && k < |Gaps(t)|
    ensures var a, b, k0, g := t.kids[i], t.kids[i + 1], LeafAt(t, i), Gaps(t)[k];
            var k1 := k0 + |a.elems| + 1;
            && a.ref != b.ref
            && |Gaps(t)| == k1 + |b.elems| + 1 + |KidGaps(t.kids[i + 2..])|
            && (k < k0 ==> g == KidGaps(t.kids[..i])[k] && g.node != a.ref && g.node != b.ref)
            && (k0 <= k < k1 ==> g == Gap(a.ref, k - k0))
            && (k1 <= k <= k1 + |b.elems| ==> g == Gap(b.ref, k - k1))
            && (k > k1 + |b.elems| ==> g == KidGaps(t.kids[i + 2..])[k - k1 - |b.elems| - 1] && g.node != a.ref && g.node != b.ref)
  {
    var a, b, k0 := t.kids[i], t.kids[i + 1], LeafAt(t, i);
    LeafGap(t, i, k);
    LeafGap(t, i + 1, k);
    KidsApart(t.kids, i, i + 1);
    LeafPairGaps(t, i);
    assert a.ref in AllRefs(a) && b.ref in AllRefs(b);
    GapsAround(t.kids[..i + 1], i);
    assert t.kids[..i + 1][..i] == t.kids[..i] && t.kids[..i + 1][i + 1..] == [];
    assert KidGaps<E>([]) == [] && Gaps(a) == LeafGaps(a.ref, |a.elems| + 1);
  }

  /** Gap `o` of two neighbouring leaves, the first with `size` elements. */
  function PairGap(a: Ref, size: nat, b: Ref, o: nat): Gap {
    if o <= size then Gap(a, o) else Gap(b, o - size - 1)
  }

  /** Gap number `k` before and after elements move between two neighbouring leaves:
      outside them, or gap `o` of the pair both times. */
  lemma SamePair<E>(t: Tree<E>, t': Tree<E>, i: nat, k: nat) returns (o: int)
    requires Distinct(t) && i + 1 < |t.kids| && t.kids[i].kids == [] && t.kids[i + 1].kids == [] && k < |Gaps(t)|
    requires Distinct(t') && i + 1 < |t'.kids| && t'.kids[i].kids == [] && t'.kids[i + 1].kids == []
    requires t'.kids[..i] == t.kids[..i] && t'.kids[i + 2..] == t.kids[i + 2..]
    requires t'.kids[i].ref == t.kids[i].ref && t'.kids[i + 1].ref == t.kids[i + 1].ref
    requires |t'.kids[i].elems| + |t'.kids[i + 1].elems| == |t.kids[i].elems| + |t.kids[i + 1].elems|
    ensures k < |Gaps(t')| && t.kids[i].ref != t.kids[i + 1].ref
    ensures o < 0 ==> Gaps(t')[k] == Gaps(t)[k] && Gaps(t)[k].node != t.kids[i].ref && Gaps(t)[k].node != t.kids[i + 1].ref
    ensures o >= 0 ==>
              && o <= |t.kids[i].elems| + |t.kids[i + 1].elems| + 1
              && Gaps(t)[k] == PairGap(t.kids[i].ref, |t.kids[i].elems|, t.kids[i + 1].ref, o)
              && Gaps(t')[k] == PairGap(t.kids[i].ref, |t'.kids[i].elems|, t.kids[i + 1].ref, o)
  {
    hide Gaps, KidGaps, Distinct, LeafGaps;
    LeafPairGaps(t, i);
    LeafPairGaps(t', i);
    LeafPairGap(t, i, k);
    assert |Gaps(t')| == |Gaps(t)|;
    LeafPairGap(t', i, k);
    o := k - LeafAt(t, i);
    if o > |t.kids[i].elems| + |t.kids[i + 1].elems| + 1 {
      o := -1;
    }
  }

  /** A node that is not a leaf owns no gap. */
  lemma InnerOwnsNone<E>(t: Tree<E>, i: nat, k: nat)
    requires Distinct(t) && i < |t.kids| && t.kids[i].kids != [] && k < |Gaps(t)|
    ensures Gaps(t)[k].node != t.ref && Gaps(t)[k].node != t.kids[i].ref
  {
    SpreadGaps(t, i);
    SpreadRefs(t, i);
    KidGapOwner(Spread(t, i), k);
  }

  // ----- every step keeps positions -----

  lemma SplitKidGaps<E>(t: Tree<E>, h: nat, i: nat, s: Ref, k: nat)
    requires h > 0 && Shape(t, h) && i < |t.kids| && |t.kids[i].elems| == MAX_DEGREE - 1 && Distinct(t)
    requires s !in AllRefs(t) && k < |Gaps(t)|
    ensures var t' := SplitKid(t, i, s); k < |Gaps(t')| && Gaps(t')[k] == SplitGap(Gaps(t)[k], t.kids[i].ref, s)
  {
    var t' := SplitKid(t, i, s);
    assert Shape(t.kids[i], h - 1);
    SplitKidParts(t, i, s);
    SpreadRefs(t, i);
    SpreadTwoRefs(t', i);
    if t.kids[i].kids != [] {
      InnerOwnsNone(t, i, k);
      SpreadGaps(t, i);
      SpreadTwoGaps(t', i);
    } else {
      LeafGap(t, i, k);
      LeafPairGaps(t', i);
      assert t'.kids[..i] == t.kids[..i] && t'.kids[i + 2..] == t.kids[i + 1..];
      LeafPairGap(t', i, k);
    }
  }

  lemma SplitTopGaps<E>(t: Tree<E>, h: nat, l: Ref, r: Ref, k: nat)
    requires Shape(t, h) && |t.elems| == MAX_DEGREE - 1 && Distinct(t) && l !in AllRefs(t) && r !in AllRefs(t) && l != r
    requires k < |Gaps(t)|
    ensures var t' := SplitTop(t, l, r); k < |Gaps(t')| && Gaps(t')[k] == SplitTopGap(Gaps(t)[k], t.ref, l, r)
  {
    var t' := SplitTop(t, l, r);
    SplitTopParts(t, l, r);
    SpreadTwoRefs(t', 0);
    if h > 0 {
      SpreadTwoGaps(t', 0);
      KidGapOwner(t.kids, k);
    } else {
      LeafPairGaps(t', 0);
      LeafPairGap(t', 0, k);
      assert t'.kids[..0] == [] && KidGaps<E>([]) == [];
    }
  }

  lemma JoinGaps<E>(t: Tree<E>, h: nat, i: nat, k: nat)
    requires h > 0 && Shape(t, h) && i < |t.elems| && Distinct(t) && k < |Gaps(t)|
    ensures var t', a, b := JoinKids(t, i), t.kids[i], t.kids[i + 1];
            k < |Gaps(t')| && Gaps(t')[k] == JoinGap(Gaps(t)[k], a.ref, b.ref, |a.elems|)
  {
    var t', a, b := JoinKids(t, i), t.kids[i], t.kids[i + 1];
    assert Shape(a, h - 1) && Shape(b, h - 1);
    JoinParts(t, i);
    SpreadTwoRefs(t, i);
    SpreadRefs(t', i);
    if h > 1 {
      InnerOwnsNone(t, i + 1, k);
      SpreadTwoGaps(t, i);
      SpreadGaps(t', i);
    } else {
      LeafPairGap(t, i, k);
      assert t'.kids[..i] == t.kids[..i] && t'.kids[i + 1..] == t.kids[i + 2..];
      GapsOfNode(t');
      GapsAround(t'.kids, i);
      LeafGap(t', i, k);
    }
  }

  lemma UnsplitGaps<E>(t: Tree<E>, h: nat, k: nat)
    requires h > 0 && Shape(t, h) && |t.elems| == 1 && Distinct(t) && k < |Gaps(t)|
    ensures var t', a, b := Join(t, 0, t.ref), t.kids[0], t.kids[1];
            k < |Gaps(t')| && Gaps(t')[k] == UnsplitGap(Gaps(t)[k], t.ref, a.ref, b.ref, |a.elems|)
  {
    var t', a, b := Join(t, 0, t.ref), t.kids[0], t.kids[1];
    assert Shape(a, h - 1) && Shape(b, h - 1);
    if h > 1 {
      assert SpreadTwo(t, 0) == t'.kids;
      InnerOwnsNone(t, 0, k);
      InnerOwnsNone(t, 1, k);
      SpreadTwoGaps(t, 0);
      GapsOfNode(t');
    } else {
      LeafPairGap(t, 0, k);
      assert t.kids[..0] == [] && t.kids[2..] == [] && KidGaps<E>([]) == [];
    }
  }

  lemma RotateLeftGaps<E>(t: Tree<E>, h: nat, i: nat, k: nat)
    requires h > 0 && Shape(t, h) && i < |t.elems| && |t.kids[i + 1].elems| > 0 && Distinct(t) && k < |Gaps(t)|
    ensures var t', a, b := RotateLeft(t, i), t.kids[i], t.kids[i + 1];
            k < |Gaps(t')| && Gaps(t')[k] == RotateLeftGap(Gaps(t)[k], a.ref, b.ref, |a.elems| + 1)
  {
    var t', a, b := RotateLeft(t, i), t.kids[i], t.kids[i + 1];
    assert Shape(a, h - 1) && Shape(b, h - 1);
    RotateLeftParts(t, i);
    SpreadTwoRefs(t, i);
    SpreadTwoRefs(t', i);
    if h > 1 {
      InnerOwnsNone(t, i + 1, k);
      SpreadTwoGaps(t, i);
      SpreadTwoGaps(t', i);
    } else {
      hide AllRefs, KidRefs, Distinct, DistinctKids, Shape, Gaps, KidGaps, SpreadTwo;
      var o := SamePair(t, t', i, k);
    }
  }

  /** A gap that rotating from the previous sibling would misplace: in a sibling leaf,
      next to or after the element that moves away. */
  predicate Stranded(g: Gap, sibling: Ref, size: nat) {
    g.node == sibling && g.index >= size
  }

  lemma RotateRightGaps<E>(t: Tree<E>, h: nat, i: nat, k: nat)
    requires h > 0 && Shape(t, h) && i < |t.elems| && |t.kids[i].elems| > 0 && Distinct(t) && k < |Gaps(t)|
    ensures var t', a, b := RotateRight(t, i), t.kids[i], t.kids[i + 1];
            && k < |Gaps(t')|
            && (Gaps(t')[k] == RotateRightGap(Gaps(t)[k], b.ref, a.ref, |a.elems| - 1)
                <==> !Stranded(Gaps(t)[k], a.ref, |a.elems| - 1))
  {
    var t', a, b := RotateRight(t, i), t.kids[i], t.kids[i + 1];
    assert Shape(a, h - 1) && Shape(b, h - 1);
    RotateRightParts(t, i);
    SpreadTwoRefs(t, i);
    SpreadTwoRefs(t', i);
    if h > 1 {
      InnerOwnsNone(t, i, k);
      InnerOwnsNone(t, i + 1, k);
      SpreadTwoGaps(t, i);
      SpreadTwoGaps(t', i);
    } else {
      hide AllRefs, KidRefs, Distinct, DistinctKids, Shape, Gaps, KidGaps, SpreadTwo;
      var o := SamePair(t, t', i, k);
    }
  }

  /** Children [10, 20, 30] and [50] around 40: taking 30 from the left one turns the gap
      after 20 into the gap after 30, and leaves the gap after 30 pointing past the end. */
  lemma StrandedGaps()
    ensures var t := Tree(0, [40], [Tree(1, [10, 20, 30], []), Tree(2, [50], [])]);
            var t' := RotateRight(t, 0);
            && |Gaps(t)| == 6 && |Gaps(t')| == 6
            && Gaps(t)[2] == Gap(1, 2) && RotateRightGap(Gap(1, 2), 2, 1, 2) == Gaps(t')[3]
            && Gaps(t)[3] == Gap(1, 3) && RotateRightGap(Gap(1, 3), 2, 1, 2) !in Gaps(t')
  {
    var t := Tree(0, [40], [Tree(1, [10, 20, 30], []), Tree(2, [50], [])]);
    var t' := RotateRight(t, 0);
    assert t.kids[..0] == [] && t.kids[2..] == [] && t'.kids[..0] == [] && t'.kids[2..] == [];
    assert t'.kids[0].ref == 1 && t'.kids[0].elems == [10, 20] && t'.kids[0].kids == [];
    assert t'.kids[1].ref == 2 && t'.kids[1].elems == [40, 50] && t'.kids[1].kids == [];
    assert KidGaps<int>([]) == [];
    LeafPairGaps(t, 0);
    LeafPairGaps(t', 0);
    assert Gaps(t') == LeafGaps(1, 3) + LeafGaps(2, 3);
  }
}

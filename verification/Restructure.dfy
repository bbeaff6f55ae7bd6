/** What the local steps of rebalancing keep: addresses, occupancy, gap positions and
    the wiring of the heap. Every step regroups the same sequence of subtrees under one
    parent, so each fact reduces to that sequence. */
module Restructure {
  import opened BTree
  import opened Positions

  // ----- the subtrees below one child, or two neighbouring ones -----

  function Spread<E>(t: Tree<E>, i: nat): seq<Tree<E>>
    requires i < |t.kids|
  {
    t.kids[..i] + t.kids[i].kids + t.kids[i + 1..]
  }

  function SpreadTwo<E>(t: Tree<E>, i: nat): seq<Tree<E>>
    requires i + 1 < |t.kids|
  {
    t.kids[..i] + (t.kids[i].kids + t.kids[i + 1].kids) + t.kids[i + 2..]
  }

  lemma SpreadRefs<E>(t: Tree<E>, i: nat)
    requires i < |t.kids|
    ensures AllRefs(t) == {t.ref, t.kids[i].ref} + KidRefs(Spread(t, i))
    ensures Distinct(t) <==>
              && t.ref != t.kids[i].ref && t.ref !in KidRefs(Spread(t, i)) && t.kids[i].ref !in KidRefs(Spread(t, i))
              && DistinctKids(Spread(t, i))
  {
    var k := t.kids[i];
    KidsAround(t.kids, i);
    KidRefsAppend(t.kids[..i] + k.kids, t.kids[i + 1..]);
    KidRefsAppend(t.kids[..i], k.kids);
    assert AllRefs(k) == {k.ref} + KidRefs(k.kids);
    assert Distinct(k) <==> k.ref !in KidRefs(k.kids) && DistinctKids(k.kids);
    hide KidRefs, DistinctKids;
  }

  lemma SpreadTwoRefs<E>(t: Tree<E>, i: nat)
    requires i + 1 < |t.kids|
    ensures AllRefs(t) == {t.ref, t.kids[i].ref, t.kids[i + 1].ref} + KidRefs(SpreadTwo(t, i))
    ensures Distinct(t) <==>
              && t.ref != t.kids[i].ref && t.ref != t.kids[i + 1].ref && t.kids[i].ref != t.kids[i + 1].ref
              && t.ref !in KidRefs(SpreadTwo(t, i)) && t.kids[i].ref !in KidRefs(SpreadTwo(t, i))
              && t.kids[i + 1].ref !in KidRefs(SpreadTwo(t, i)) && DistinctKids(SpreadTwo(t, i))
  {
    var b := t.kids[i + 1];
    var u := Tree(t.ref, t.elems, Spread(t, i));
    var m := i + |t.kids[i].kids|;
    SpreadRefs(t, i);
    SpreadRefs(u, m);
    assert u.kids[m] == b;
    assert u.kids[..m] == t.kids[..i] + t.kids[i].kids && u.kids[m + 1..] == t.kids[i + 2..];
    assert Spread(u, m) == SpreadTwo(t, i);
    assert AllRefs(u) == {t.ref} + KidRefs(Spread(t, i));
    assert Distinct(u) <==> t.ref !in KidRefs(Spread(t, i)) && DistinctKids(Spread(t, i));
    KidsAround(u.kids, m);
    var l := t.kids[..i] + t.kids[i].kids;
    assert SpreadTwo(t, i) == (l + b.kids) + t.kids[i + 2..];
    KidRefsAppend(l + b.kids, t.kids[i + 2..]);
    KidRefsAppend(l, b.kids);
    SpreadTwoSets(t.ref, t.kids[i].ref, b.ref, KidRefs(Spread(t, i)), KidRefs(SpreadTwo(t, i)));
  }

  lemma SpreadTwoSets(r: Ref, a: Ref, b: Ref, one: set<Ref>, two: set<Ref>)
    requires {r} + one == {r, b} + two && b in one && two <= one
    ensures {r, a} + one == {r, a, b} + two
    ensures r !in one ==> one == {b} + two
  {
  }

  lemma SpreadGaps<E>(t: Tree<E>, i: nat)
    requires i < |t.kids| && t.kids[i].kids != []
    ensures Gaps(t) == KidGaps(Spread(t, i))
  {
    hide Gaps, KidGaps;
    GapsOfNode(t);
    GapsOfNode(t.kids[i]);
    GapsAround(t.kids, i);
    KidGapsAppend(t.kids[..i] + t.kids[i].kids, t.kids[i + 1..]);
    KidGapsAppend(t.kids[..i], t.kids[i].kids);
  }

  lemma SpreadTwoGaps<E>(t: Tree<E>, i: nat)
    requires i + 1 < |t.kids| && t.kids[i].kids != [] && t.kids[i + 1].kids != []
    ensures Gaps(t) == KidGaps(SpreadTwo(t, i))
  {
    var u := Tree(t.ref, t.elems, Spread(t, i));
    var m := i + |t.kids[i].kids|;
    SpreadGaps(t, i);
    assert u.kids[m] == t.kids[i + 1];
    assert u.kids[..m] == t.kids[..i] + t.kids[i].kids && u.kids[m + 1..] == t.kids[i + 2..];
    assert Spread(u, m) == SpreadTwo(t, i);
    SpreadGaps(u, m);
    GapsOfNode(u);
  }

  /** Gaps around two neighbouring leaves. */
  lemma LeafPairGaps<E>(t: Tree<E>, i: nat)
    requires i + 1 < |t.kids| && t.kids[i].kids == [] && t.kids[i + 1].kids == []
    ensures Gaps(t) == KidGaps(t.kids[..i]) + LeafGaps(t.kids[i].ref, |t.kids[i].elems| + 1)
                     + LeafGaps(t.kids[i + 1].ref, |t.kids[i + 1].elems| + 1) + KidGaps(t.kids[i + 2..])
  {
    GapsOfNode(t);
    GapsAround(t.kids, i);
    GapsAround(t.kids[i + 1..], 0);
    assert t.kids[i + 1..][0] == t.kids[i + 1] && t.kids[i + 1..][..0] == [] && t.kids[i + 1..][0 + 1..] == t.kids[i + 2..];
    assert Gaps(t.kids[i]) == LeafGaps(t.kids[i].ref, |t.kids[i].elems| + 1);
    assert Gaps(t.kids[i + 1]) == LeafGaps(t.kids[i + 1].ref, |t.kids[i + 1].elems| + 1);
    assert KidGaps<E>([]) == [];
    hide Gaps, KidGaps, LeafGaps;
    var l, a, b, r := KidGaps(t.kids[..i]), Gaps(t.kids[i]), Gaps(t.kids[i + 1]), KidGaps(t.kids[i + 2..]);
    assert [] + b + r == b + r;
    assert l + a + (b + r) == l + a + b + r;
  }

  // ----- the same subtrees, regrouped -----

  lemma SplitKidParts<E>(t: Tree<E>, i: nat, s: Ref)
    requires |t.kids| == |t.elems| + 1 && i < |t.kids| && |t.kids[i].elems| == MAX_DEGREE - 1 && Shaped(t.kids[i])
    ensures SpreadTwo(SplitKid(t, i, s), i) == Spread(t, i)
  {
    var t' := SplitKid(t, i, s);
    assert t'.kids[i].kids + t'.kids[i + 1].kids == t.kids[i].kids;
    assert t'.kids[..i] == t.kids[..i] && t'.kids[i + 2..] == t.kids[i + 1..];
  }

  lemma SplitTopParts<E>(t: Tree<E>, l: Ref, r: Ref)
    requires |t.elems| == MAX_DEGREE - 1 && Shaped(t)
    ensures SpreadTwo(SplitTop(t, l, r), 0) == t.kids
  {
  }

  lemma JoinParts<E>(t: Tree<E>, i: nat)
    requires i < |t.elems| && |t.kids| == |t.elems| + 1
    ensures Spread(JoinKids(t, i), i) == SpreadTwo(t, i)
  {
    var t' := JoinKids(t, i);
    assert t'.kids[..i] == t.kids[..i] && t'.kids[i + 1..] == t.kids[i + 2..];
  }

  lemma RotateRightParts<E>(t: Tree<E>, i: nat)
    requires i < |t.elems| && |t.kids| == |t.elems| + 1 && |t.kids[i].elems| > 0 && Shaped(t.kids[i])
    ensures SpreadTwo(RotateRight(t, i), i) == SpreadTwo(t, i)
  {
    var t' := RotateRight(t, i);
    assert t'.kids[i].kids + t'.kids[i + 1].kids == t.kids[i].kids + t.kids[i + 1].kids;
    assert t'.kids[..i] == t.kids[..i] && t'.kids[i + 2..] == t.kids[i + 2..];
  }

  lemma RotateLeftParts<E>(t: Tree<E>, i: nat)
    requires i < |t.elems| && |t.kids| == |t.elems| + 1 && |t.kids[i + 1].elems| > 0 && Shaped(t.kids[i + 1])
    ensures SpreadTwo(RotateLeft(t, i), i) == SpreadTwo(t, i)
  {
    var t' := RotateLeft(t, i);
    assert t'.kids[i].kids + t'.kids[i + 1].kids == t.kids[i].kids + t.kids[i + 1].kids;
    assert t'.kids[..i] == t.kids[..i] && t'.kids[i + 2..] == t.kids[i + 2..];
  }

  // ----- wiring -----

  /** One node as the heap should hold it, with the links of its children. */
  ghost predicate Wired<E>(heap: Heap<E>, t: Tree<E>) {
    && t.ref in heap && heap[t.ref].elems == t.elems && |heap[t.ref].kids| == |t.kids|
    && forall i :: 0 <= i < |t.kids| ==>
         && heap[t.ref].kids[i] == t.kids[i].ref
         && t.kids[i].ref in heap && heap[t.kids[i].ref].link == Up(t.ref, i)
  }

  /** Parts of a linked tree that stay linked after a change to `touched` nodes and to
      top links. */
  ghost predicate Kept<E>(heap: Heap<E>, heap': Heap<E>, parts: seq<Tree<E>>, touched: set<Ref>) {
    && DistinctKids(parts) && touched !! KidRefs(parts)
    && (forall m :: 0 <= m < |parts| ==> Linked(heap, parts[m]))
    && OnlyLinks(heap, heap', touched, Tops(parts))
  }

  lemma KeptLinked<E>(heap: Heap<E>, heap': Heap<E>, parts: seq<Tree<E>>, touched: set<Ref>)
    requires Kept(heap, heap', parts, touched)
    ensures forall m :: 0 <= m < |parts| ==> Linked(heap', parts[m])
  {
    forall m: nat | m < |parts| ensures Linked(heap', parts[m]) {
      PartsLinked(heap, heap', parts, touched, Tops(parts), m);
    }
  }

  lemma RewiredNone<E>(heap: Heap<E>, heap': Heap<E>, t: Tree<E>, touched: set<Ref>)
    requires Wired(heap', t) && Kept(heap, heap', t.kids, touched)
    ensures Linked(heap', t)
  {
    KeptLinked(heap, heap', t.kids, touched);
  }

  lemma RewiredOne<E>(heap: Heap<E>, heap': Heap<E>, t: Tree<E>, i: nat, touched: set<Ref>)
    requires i < |t.kids| && Wired(heap', t) && Wired(heap', t.kids[i]) && Kept(heap, heap', Spread(t, i), touched)
    ensures Linked(heap', t)
  {
    var parts := Spread(t, i);
    KeptLinked(heap, heap', parts, touched);
    forall j | 0 <= j < |t.kids[i].kids| ensures Linked(heap', t.kids[i].kids[j]) {
      assert parts[i + j] == t.kids[i].kids[j];
    }
    assert Linked(heap', t.kids[i]);
    hide Linked;
    forall j | 0 <= j < |t.kids| ensures Linked(heap', t.kids[j]) {
      if j < i {
        assert parts[j] == t.kids[j];
      } else if j > i {
        assert parts[j - 1 + |t.kids[i].kids|] == t.kids[j];
      }
    }
    LinkedFromKids(heap', t);
  }

  lemma LinkedFromKids<E>(heap: Heap<E>, t: Tree<E>)
    requires Wired(heap, t) && forall j :: 0 <= j < |t.kids| ==> Linked(heap, t.kids[j])
    ensures Linked(heap, t)
  {
  }

  lemma RewiredTwo<E>(heap: Heap<E>, heap': Heap<E>, t: Tree<E>, i: nat, touched: set<Ref>)
    requires i + 1 < |t.kids| && Wired(heap', t) && Wired(heap', t.kids[i]) && Wired(heap', t.kids[i + 1])
    requires Kept(heap, heap', SpreadTwo(t, i), touched)
    ensures Linked(heap', t)
  {
    KeptLinked(heap, heap', SpreadTwo(t, i), touched);
    hide Linked, Kept, SpreadTwo;
    SpreadTwoPlaces(heap', t, i);
    LinkedFromKids(heap', t.kids[i]);
    LinkedFromKids(heap', t.kids[i + 1]);
    LinkedFromKids(heap', t);
  }

  lemma SpreadTwoPlaces<E>(heap: Heap<E>, t: Tree<E>, i: nat)
    requires i + 1 < |t.kids| && forall m :: 0 <= m < |SpreadTwo(t, i)| ==> Linked(heap, SpreadTwo(t, i)[m])
    ensures forall j :: 0 <= j < |t.kids[i].kids| ==> Linked(heap, t.kids[i].kids[j])
    ensures var b := t.kids[i + 1]; forall j :: 0 <= j < |b.kids| ==> Linked(heap, b.kids[j])
    ensures forall j :: 0 <= j < |t.kids| && j != i && j != i + 1 ==> Linked(heap, t.kids[j])
  {
    hide Linked;
    var parts := SpreadTwo(t, i);
    var a, b := t.kids[i], t.kids[i + 1];
    forall j | 0 <= j < |a.kids| ensures Linked(heap, a.kids[j]) {
      assert parts[i + j] == a.kids[j];
    }
    forall j | 0 <= j < |b.kids| ensures Linked(heap, b.kids[j]) {
      assert parts[i + |a.kids| + j] == b.kids[j];
    }
    forall j | 0 <= j < |t.kids| && j != i && j != i + 1 ensures Linked(heap, t.kids[j]) {
      if j < i {
        assert parts[j] == t.kids[j];
      } else {
        assert parts[j - 2 + |a.kids| + |b.kids|] == t.kids[j];
      }
    }
  }

  lemma SpreadLinked<E>(heap: Heap<E>, t: Tree<E>, i: nat)
    requires i < |t.kids| && Linked(heap, t)
    ensures forall m :: 0 <= m < |Spread(t, i)| ==> Linked(heap, Spread(t, i)[m])
  {
    assert Linked(heap, t.kids[i]);
  }

  lemma SpreadTwoLinked<E>(heap: Heap<E>, t: Tree<E>, i: nat)
    requires i + 1 < |t.kids| && Linked(heap, t)
    ensures forall m :: 0 <= m < |SpreadTwo(t, i)| ==> Linked(heap, SpreadTwo(t, i)[m])
  {
    assert Linked(heap, t.kids[i]) && Linked(heap, t.kids[i + 1]);
  }

  // ----- occupancy -----

  lemma {:induction false} DenseAt<E>(t: Tree<E>, p: seq<nat>)
    requires Dense(t) && Path(t, p)
    ensures Dense(At(t, p)) && (p != [] ==> |At(t, p).elems| >= MIN_DEGREE - 1)
    decreases |p|
  {
    if p != [] {
      DenseAt(t.kids[p[0]], p[1..]);
    }
  }

  lemma {:induction false} DenseReplace<E>(t: Tree<E>, p: seq<nat>, s: Tree<E>)
    requires Dense(t) && Path(t, p) && Dense(s) && (p != [] ==> |s.elems| >= MIN_DEGREE - 1)
    ensures Dense(Replace(t, p, s))
    decreases |p|
  {
    if p != [] {
      DenseReplace(t.kids[p[0]], p[1..], s);
    }
  }

  lemma {:induction false} DenseButAt<E>(t: Tree<E>, p: seq<nat>, i: nat)
    requires Path(t, p) && DenseBut(t, p + [i])
    ensures DenseBut(At(t, p), [i]) && (p != [] ==> |At(t, p).elems| >= MIN_DEGREE - 1)
    decreases |p|
  {
    if p == [] {
      assert p + [i] == [i];
    } else {
      assert (p + [i])[1..] == p[1..] + [i];
      DenseButAt(t.kids[p[0]], p[1..], i);
    }
  }

  /** Exchanging the parent of the short node for a dense subtree moves the shortage up
      one level, or ends it. */
  lemma {:induction false} DenseButReplace<E>(t: Tree<E>, p: seq<nat>, i: nat, s: Tree<E>)
    requires Path(t, p) && DenseBut(t, p + [i]) && Dense(s) && (p != [] ==> |s.elems| >= MIN_DEGREE - 2)
    ensures DenseBut(Replace(t, p, s), p)
    ensures p == [] || |s.elems| >= MIN_DEGREE - 1 ==> Dense(Replace(t, p, s))
    decreases |p|
  {
    if p != [] {
      assert (p + [i])[1..] == p[1..] + [i];
      var t' := Replace(t, p, s);
      DenseButReplace(t.kids[p[0]], p[1..], i, s);
      if |p| > 1 { DenseButAt(t, p, i); }
      assert p[1..] == [] ==> t'.kids[p[0]] == s;
    }
  }

  lemma SplitKidDense<E>(t: Tree<E>, i: nat, s: Ref)
    requires |t.kids| == |t.elems| + 1 && i < |t.kids| && |t.kids[i].elems| == MAX_DEGREE - 1 && Dense(t)
    ensures Dense(SplitKid(t, i, s))
  {
    var t' := SplitKid(t, i, s);
    assert Dense(t.kids[i]);
    assert Dense(t'.kids[i]) && Dense(t'.kids[i + 1]);
  }

  lemma SplitTopDense<E>(t: Tree<E>, l: Ref, r: Ref)
    requires |t.elems| == MAX_DEGREE - 1 && Dense(t)
    ensures Dense(SplitTop(t, l, r))
  {
    var t' := SplitTop(t, l, r);
    assert Dense(t'.kids[0]) && Dense(t'.kids[1]);
  }

  lemma RotateRightDense<E>(t: Tree<E>, i: nat)
    requires i < |t.elems| && |t.kids| == |t.elems| + 1 && Shaped(t.kids[i]) && |t.kids[i].elems| >= MIN_DEGREE
    requires DenseBut(t, [i + 1])
    ensures Dense(RotateRight(t, i))
  {
    var t' := RotateRight(t, i);
    ShortKid(t, i + 1);
    DenseNode(t.kids[i]);
    DenseNode(t.kids[i + 1]);
    hide DenseBut, Dense;
    DenseFrom(t'.kids[i]);
    DenseFrom(t'.kids[i + 1]);
    DenseFrom(t');
  }

  lemma RotateLeftDense<E>(t: Tree<E>, i: nat)
    requires i < |t.elems| && |t.kids| == |t.elems| + 1 && Shaped(t.kids[i + 1]) && |t.kids[i + 1].elems| >= MIN_DEGREE
    requires DenseBut(t, [i])
    ensures Dense(RotateLeft(t, i))
  {
    var t' := RotateLeft(t, i);
    ShortKid(t, i);
    DenseNode(t.kids[i]);
    DenseNode(t.kids[i + 1]);
    hide DenseBut, Dense;
    DenseFrom(t'.kids[i]);
    DenseFrom(t'.kids[i + 1]);
    DenseFrom(t');
  }

  lemma ShortKid<E>(t: Tree<E>, i: nat)
    requires DenseBut(t, [i])
    ensures i < |t.kids| && |t.kids[i].elems| >= MIN_DEGREE - 2
    ensures forall j :: 0 <= j < |t.kids| ==> Dense(t.kids[j]) && (j != i ==> |t.kids[j].elems| >= MIN_DEGREE - 1)
  {
    assert [i][1..] == [];
  }

  lemma DenseNode<E>(t: Tree<E>)
    requires Dense(t)
    ensures forall j :: 0 <= j < |t.kids| ==> |t.kids[j].elems| >= MIN_DEGREE - 1 && Dense(t.kids[j])
  {
  }

  lemma DenseFrom<E>(t: Tree<E>)
    requires forall j :: 0 <= j < |t.kids| ==> |t.kids[j].elems| >= MIN_DEGREE - 1 && Dense(t.kids[j])
    ensures Dense(t)
  {
  }

  lemma JoinDense<E>(t: Tree<E>, i: nat, short: nat)
    requires i < |t.elems| && |t.kids| == |t.elems| + 1 && (short == i || short == i + 1) && DenseBut(t, [short])
    ensures Dense(JoinKids(t, i)) && Dense(Join(t, i, t.ref))
  {
    var t' := JoinKids(t, i);
    assert [short][1..] == [];
    assert Dense(t.kids[i]) && Dense(t.kids[i + 1]);
    assert Dense(t'.kids[i]);
  }
}

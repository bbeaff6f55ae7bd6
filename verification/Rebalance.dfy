/** What a local step of rebalancing does to the whole tree. */
module Rebalance {
  import opened BTree
  import opened Positions
  import opened Restructure
  import opened GapMoves

  /** Exchanging a subtree for one with as many gaps: gaps inside move with it, the
      others stay. */
  lemma GapStep<E>(t: Tree<E>, p: seq<nat>, s: Tree<E>, k: nat)
    requires Path(t, p) && Distinct(t) && k < |Gaps(t)| && |Gaps(s)| == |Gaps(At(t, p))|
    ensures |Gaps(Replace(t, p, s))| == |Gaps(t)|
    ensures var k0 := |GapsLeft(t, p)|;
            if k0 <= k < k0 + |Gaps(s)|
            then Gaps(t)[k] == Gaps(At(t, p))[k - k0] && Gaps(Replace(t, p, s))[k] == Gaps(s)[k - k0]
            else Gaps(Replace(t, p, s))[k] == Gaps(t)[k] && Gaps(t)[k].node !in AllRefs(At(t, p))
  {
    hide Gaps, GapsLeft, GapsRight, AllRefs, Distinct, Replace;
    GapsContext(t, p);
    GapsReplace(t, p, s);
    if k < |GapsLeft(t, p)| || k >= |GapsLeft(t, p)| + |Gaps(s)| {
      GapOutside(t, p, k);
    }
  }

  /** A node with children owns no gap. */
  lemma GapNotInner<E>(t: Tree<E>, p: seq<nat>, k: nat)
    requires Path(t, p) && Distinct(t) && At(t, p).kids != [] && k < |Gaps(t)|
    ensures Gaps(t)[k].node != At(t, p).ref
  {
    var x := At(t, p);
    if Gaps(t)[k].node == x.ref {
      ReplaceRefs(t, p, x);
      assert x.ref in AllRefs(x);
      GapInside(t, p, k);
      GapsOfNode(x);
      KidGapOwner(x.kids, k - |GapsLeft(t, p)|);
    }
  }

  /** `c` hangs below a node that is not full. */
  ghost predicate Roomy<E>(t: Tree<E>, c: Tree<E>) {
    exists q: seq<nat>, j: nat :: Path(t, q) && j < |At(t, q).kids| && At(t, q).kids[j] == c && |At(t, q).elems| < MAX_DEGREE - 1
  }

  ghost predicate HasRoom<E>(t: Tree<E>, r: Ref) {
    exists q :: Path(t, q) && At(t, q).ref == r && |At(t, q).elems| < MAX_DEGREE - 1
  }

  lemma RoomyAt<E>(t: Tree<E>, q: seq<nat>)
    requires Path(t, q) && |At(t, q).elems| < MAX_DEGREE - 1
    ensures forall j :: 0 <= j < |At(t, q).kids| ==> Roomy(t, At(t, q).kids[j])
    ensures HasRoom(t, At(t, q).ref)
  {
  }

  lemma KidPath<E>(t: Tree<E>, up: seq<nat>, i: nat)
    requires Path(t, up) && i < |At(t, up).kids|
    ensures Path(t, up + [i]) && At(t, up + [i]) == At(t, up).kids[i]
  {
    assert Path(At(t, up), [i]) && At(At(t, up), [i]) == At(t, up).kids[i];
    AtAppend(t, up, [i]);
  }

  // ----- splitting -----

  lemma SplitKidStep<E>(t: Tree<E>, h: nat, up: seq<nat>, i: nat, s: Ref, k: nat)
    requires Shape(t, h) && Distinct(t) && Dense(t) && Path(t, up) && i < |At(t, up).kids| && k < |Gaps(t)|
    requires |At(t, up).kids[i].elems| == MAX_DEGREE - 1 && |At(t, up).elems| < MAX_DEGREE - 1 && s !in AllRefs(t)
    requires |At(t, up).kids| == |At(t, up).elems| + 1
    ensures var n, t' := At(t, up).kids[i].ref, Replace(t, up, SplitKid(At(t, up), i, s));
            && Flatten(t') == Flatten(t) && Dense(t')
            && k < |Gaps(t')| && Gaps(t')[k] == SplitGap(Gaps(t)[k], n, s)
  {
    hide Distinct, Dense, Gaps, AllRefs, GapsLeft, Flatten, Shape, Replace, At, Path, SplitKid;
    var u := At(t, up);
    PathContext(t, h, up);
    HasKids(u, h - |up|);
    ReplaceRefs(t, up, u);
    DenseAt(t, up);
    SplitKidShape(u, h - |up|, i, s);
    SplitKidContents(u, h - |up|, i, s);
    SplitKidDense(u, i, s);
    var u' := SplitKid(u, i, s);
    SplitKidSize(u, i, s);
    ReplaceContext(t, h, up, u');
    DenseReplace(t, up, u');
    SameCount(u, u', h - |up|);
    GapStep(t, up, u', k);
    var k0 := |GapsLeft(t, up)|;
    if k0 <= k < k0 + |Gaps(u)| {
      SplitKidGaps(u, h - |up|, i, s, k - k0);
    } else {
      KidRefIn(u, i);
    }
  }

  lemma HasKids<E>(t: Tree<E>, h: nat)
    requires Shape(t, h) && t.kids != []
    ensures h > 0 && |t.kids| == |t.elems| + 1
  {
  }

  lemma SplitKidSize<E>(t: Tree<E>, i: nat, s: Ref)
    requires |t.kids| == |t.elems| + 1 && i < |t.kids| && |t.kids[i].elems| == MAX_DEGREE - 1
    ensures |SplitKid(t, i, s).elems| == |t.elems| + 1
  {
  }

  lemma SameCount<E>(t: Tree<E>, t': Tree<E>, h: nat)
    requires Shape(t, h) && Shape(t', h) && Flatten(t') == Flatten(t)
    ensures |Gaps(t')| == |Gaps(t)|
  {
    GapCount(t, h);
    GapCount(t', h);
  }

  lemma KidRefIn<E>(t: Tree<E>, i: nat)
    requires i < |t.kids|
    ensures t.kids[i].ref in AllRefs(t) && t.ref in AllRefs(t)
  {
    KidIn(t.kids, i);
    assert t.kids[i].ref in AllRefs(t.kids[i]);
  }

  lemma SplitKidKids<E>(t: Tree<E>, i: nat, s: Ref)
    requires |t.kids| == |t.elems| + 1 && i < |t.kids| && |t.kids[i].elems| == MAX_DEGREE - 1 && Shaped(t.kids[i])
    ensures var x, t' := t.kids[i], SplitKid(t, i, s);
            && |t'.kids| == |t.kids| + 1 && t'.kids[i].ref == x.ref && t'.kids[i + 1].ref == s
            && |t'.kids[i].elems| == MIN_DEGREE - 1 && |t'.kids[i + 1].elems| == MIN_DEGREE - 1
            && (forall j :: 0 <= j < |x.kids| && j < MIN_DEGREE ==> j < |t'.kids[i].kids| && t'.kids[i].kids[j] == x.kids[j])
    ensures var x, b := t.kids[i], SplitKid(t, i, s).kids[i + 1];
            forall j :: MIN_DEGREE <= j < |x.kids| ==> j - MIN_DEGREE < |b.kids| && b.kids[j - MIN_DEGREE] == x.kids[j]
  {
    var x, t' := t.kids[i], SplitKid(t, i, s);
    assert t'.kids[i] == Cut(x, x.ref, 0, MIN_DEGREE - 1) && t'.kids[i + 1] == Cut(x, s, MIN_DEGREE, MAX_DEGREE - 1);
  }

  /** The children of the split node hang below nodes that are not full. */
  lemma SplitKidRoom<E>(t: Tree<E>, up: seq<nat>, i: nat, s: Ref)
    requires Path(t, up) && |At(t, up).kids| == |At(t, up).elems| + 1 && i < |At(t, up).kids|
    requires |At(t, up).kids[i].elems| == MAX_DEGREE - 1 && Shaped(At(t, up).kids[i])
    ensures var x, t' := At(t, up).kids[i], Replace(t, up, SplitKid(At(t, up), i, s));
            && (forall j :: 0 <= j < |x.kids| ==> Roomy(t', x.kids[j]))
            && HasRoom(t', x.ref) && HasRoom(t', s)
  {
    hide At, Path, Replace, LeftOf, RightOf, Flatten, Before, Behind, SplitKid, Cut, Roomy, HasRoom;
    var u := At(t, up);
    var x, u', t' := u.kids[i], SplitKid(u, i, s), Replace(t, up, SplitKid(u, i, s));
    SplitKidKids(u, i, s);
    ReplacePath(t, up, u');
    KidPath(t', up, i);
    KidPath(t', up, i + 1);
    RoomyAt(t', up + [i]);
    RoomyAt(t', up + [i + 1]);
    forall j | 0 <= j < |x.kids| ensures Roomy(t', x.kids[j]) {
      var c := x.kids[j];
      assert j < MIN_DEGREE ==> u'.kids[i].kids[j] == c;
      assert j >= MIN_DEGREE ==> u'.kids[i + 1].kids[j - MIN_DEGREE] == c;
    }
  }

  lemma SplitTopStep<E>(t: Tree<E>, h: nat, l: Ref, r: Ref, k: nat)
    requires Shape(t, h) && Distinct(t) && Dense(t) && |t.elems| == MAX_DEGREE - 1 && k < |Gaps(t)|
    requires l !in AllRefs(t) && r !in AllRefs(t) && l != r
    ensures var t' := SplitTop(t, l, r);
            && Flatten(t') == Flatten(t) && Dense(t')
            && k < |Gaps(t')| && Gaps(t')[k] == SplitTopGap(Gaps(t)[k], t.ref, l, r)
  {
    hide Distinct, Dense, Gaps, AllRefs, Flatten, Shape, SplitTop;
    SplitTopContents(t, h, l, r);
    SplitTopDense(t, l, r);
    SplitTopGaps(t, h, l, r, k);
  }

  lemma TopKid<E>(t: Tree<E>, i: nat)
    requires i < |t.kids|
    ensures Path(t, []) && At(t, []) == t && Path(t, [i]) && At(t, [i]) == t.kids[i]
  {
    KidPath(t, [], i);
    assert [] + [i] == [i];
  }

  lemma SplitTopRoom<E>(t: Tree<E>, l: Ref, r: Ref)
    requires |t.elems| == MAX_DEGREE - 1 && Shaped(t)
    ensures var t' := SplitTop(t, l, r);
            && (forall j :: 0 <= j < |t.kids| ==> Roomy(t', t.kids[j]))
            && HasRoom(t', l) && HasRoom(t', r)
  {
    hide At, Path;
    var t' := SplitTop(t, l, r);
    TopKid(t', 0);
    TopKid(t', 1);
    RoomyAt(t', [0]);
    RoomyAt(t', [1]);
    forall j | 0 <= j < |t.kids| ensures Roomy(t', t.kids[j]) {
      assert j < MIN_DEGREE ==> t'.kids[0].kids[j] == t.kids[j];
      assert j >= MIN_DEGREE ==> t'.kids[1].kids[j - MIN_DEGREE] == t.kids[j];
    }
  }

  // ----- after a removal -----

  lemma RotateRightStep<E>(t: Tree<E>, h: nat, up: seq<nat>, i: nat, k: nat)
    requires Shape(t, h) && Distinct(t) && Path(t, up) && i + 1 < |At(t, up).kids| && DenseBut(t, up + [i + 1]) && k < |Gaps(t)|
    requires |At(t, up).kids| == |At(t, up).elems| + 1
    requires |At(t, up).kids[i].elems| >= MIN_DEGREE && |At(t, up).kids[i + 1].elems| < MAX_DEGREE - 1
    ensures var a, b, t' := At(t, up).kids[i], At(t, up).kids[i + 1], Replace(t, up, RotateRight(At(t, up), i));
            && Flatten(t') == Flatten(t) && Dense(t') && k < |Gaps(t')|
            && (Gaps(t')[k] == RotateRightGap(Gaps(t)[k], b.ref, a.ref, |a.elems| - 1)
                <==> !Stranded(Gaps(t)[k], a.ref, |a.elems| - 1))
  {
    hide Distinct, Dense, DenseBut, Gaps, AllRefs, GapsLeft, Flatten, Shape, Replace, At, Path, RotateRight;
    var u := At(t, up);
    PathContext(t, h, up);
    HasKids(u, h - |up|);
    ReplaceRefs(t, up, u);
    KidShaped(u, h - |up|, i);
    DenseButAt(t, up, i + 1);
    RotateRightShape(u, h - |up|, i);
    RotateRightContents(u, h - |up|, i);
    RotateRightDense(u, i);
    var u' := RotateRight(u, i);
    RotateRightSize(u, i);
    ReplaceContext(t, h, up, u');
    DenseButReplace(t, up, i + 1, u');
    SameCount(u, u', h - |up|);
    GapStep(t, up, u', k);
    var k0 := |GapsLeft(t, up)|;
    if k0 <= k < k0 + |Gaps(u)| {
      RotateRightGaps(u, h - |up|, i, k - k0);
    } else {
      KidRefIn(u, i);
      KidRefIn(u, i + 1);
    }
  }

  lemma RotateRightSize<E>(t: Tree<E>, i: nat)
    requires i < |t.elems| && |t.kids| == |t.elems| + 1 && |t.kids[i].elems| > 0
    ensures |RotateRight(t, i).elems| == |t.elems|
  {
  }

  lemma KidShaped<E>(t: Tree<E>, h: nat, i: nat)
    requires h > 0 && Shape(t, h) && i < |t.kids|
    ensures Shaped(t.kids[i]) && Shape(t.kids[i], h - 1)
  {
    assert Shape(t.kids[i], h - 1);
  }

  lemma RotateLeftStep<E>(t: Tree<E>, h: nat, up: seq<nat>, i: nat, k: nat)
    requires Shape(t, h) && Distinct(t) && Path(t, up) && i + 1 < |At(t, up).kids| && DenseBut(t, up + [i]) && k < |Gaps(t)|
    requires |At(t, up).kids| == |At(t, up).elems| + 1
    requires |At(t, up).kids[i + 1].elems| >= MIN_DEGREE && |At(t, up).kids[i].elems| < MAX_DEGREE - 1
    ensures var a, b, t' := At(t, up).kids[i], At(t, up).kids[i + 1], Replace(t, up, RotateLeft(At(t, up), i));
            && Flatten(t') == Flatten(t) && Dense(t') && k < |Gaps(t')|
            && Gaps(t')[k] == RotateLeftGap(Gaps(t)[k], a.ref, b.ref, |a.elems| + 1)
  {
    hide Distinct, Dense, DenseBut, Gaps, AllRefs, GapsLeft, Flatten, Shape, Replace, At, Path, RotateLeft;
    var u := At(t, up);
    PathContext(t, h, up);
    HasKids(u, h - |up|);
    ReplaceRefs(t, up, u);
    KidShaped(u, h - |up|, i + 1);
    DenseButAt(t, up, i);
    RotateLeftShape(u, h - |up|, i);
    RotateLeftContents(u, h - |up|, i);
    RotateLeftDense(u, i);
    var u' := RotateLeft(u, i);
    RotateLeftSize(u, i);
    ReplaceContext(t, h, up, u');
    DenseButReplace(t, up, i, u');
    SameCount(u, u', h - |up|);
    GapStep(t, up, u', k);
    var k0 := |GapsLeft(t, up)|;
    if k0 <= k < k0 + |Gaps(u)| {
      RotateLeftGaps(u, h - |up|, i, k - k0);
    } else {
      KidRefIn(u, i);
      KidRefIn(u, i + 1);
    }
  }

  lemma RotateLeftSize<E>(t: Tree<E>, i: nat)
    requires i < |t.elems| && |t.kids| == |t.elems| + 1 && |t.kids[i + 1].elems| > 0
    ensures |RotateLeft(t, i).elems| == |t.elems|
  {
  }

  lemma JoinStep<E>(t: Tree<E>, h: nat, up: seq<nat>, i: nat, short: nat, k: nat)
    requires Shape(t, h) && Distinct(t) && Path(t, up) && i + 1 < |At(t, up).kids| && k < |Gaps(t)|
    requires (short == i || short == i + 1) && DenseBut(t, up + [short])
    requires |At(t, up).kids| == |At(t, up).elems| + 1 && |At(t, up).elems| >= MIN_DEGREE - 1
    requires |At(t, up).kids[i].elems| + |At(t, up).kids[i + 1].elems| + 1 < MAX_DEGREE
    ensures var a, b, t' := At(t, up).kids[i], At(t, up).kids[i + 1], Replace(t, up, JoinKids(At(t, up), i));
            && Flatten(t') == Flatten(t) && DenseBut(t', up) && k < |Gaps(t')|
            && Gaps(t')[k] == JoinGap(Gaps(t)[k], a.ref, b.ref, |a.elems|)
            && Path(t', up) && At(t', up).ref == At(t, up).ref && At(t', up).kids != [] && |At(t', up).elems| == |At(t, up).elems| - 1
  {
    hide Distinct, Dense, DenseBut, Gaps, AllRefs, GapsLeft, Flatten, Shape, Replace, At, Path, JoinKids;
    var u := At(t, up);
    PathContext(t, h, up);
    HasKids(u, h - |up|);
    ReplaceRefs(t, up, u);
    DenseButAt(t, up, short);
    JoinKidsShape(u, h - |up|, i);
    JoinKidsContents(u, h - |up|, i);
    JoinDense(u, i, short);
    var u' := JoinKids(u, i);
    JoinSize(u, i);
    ReplaceContext(t, h, up, u');
    DenseButReplace(t, up, short, u');
    SameCount(u, u', h - |up|);
    GapStep(t, up, u', k);
    var k0 := |GapsLeft(t, up)|;
    if k0 <= k < k0 + |Gaps(u)| {
      JoinGaps(u, h - |up|, i, k - k0);
    } else {
      KidRefIn(u, i + 1);
    }
  }

  lemma JoinSize<E>(t: Tree<E>, i: nat)
    requires i < |t.elems| && |t.kids| == |t.elems| + 1
    ensures var t' := JoinKids(t, i); |t'.elems| == |t.elems| - 1 && |t'.kids| == |t.kids| - 1 && t'.ref == t.ref
  {
  }

  lemma UnsplitStep<E>(t: Tree<E>, h: nat, short: nat, k: nat)
    requires h > 0 && Shape(t, h) && Distinct(t) && |t.elems| == 1 && short < 2 && DenseBut(t, [short]) && k < |Gaps(t)|
    requires |t.kids| == 2 && |t.kids[0].elems| + |t.kids[1].elems| + 1 < MAX_DEGREE
    ensures var a, b, t' := t.kids[0], t.kids[1], Join(t, 0, t.ref);
            && Flatten(t') == Flatten(t) && Dense(t') && k < |Gaps(t')| && t'.elems != []
            && Gaps(t')[k] == UnsplitGap(Gaps(t)[k], t.ref, a.ref, b.ref, |a.elems|)
  {
    hide Distinct, Dense, DenseBut, Gaps, AllRefs, Flatten, Shape;
    KidShaped(t, h, 0);
    KidShaped(t, h, 1);
    JoinContents(t, h, 0, t.ref);
    TwoKids(t);
    JoinDense(t, 0, short);
    UnsplitGaps(t, h, k);
  }

  /** A short node that is not the root has a parent with two elements or is a child of
      the root, and one element itself. */
  lemma ShortNode<E>(t: Tree<E>, h: nat, up: seq<nat>, i: nat)
    requires Shape(t, h) && Path(t, up) && i < |At(t, up).kids| && DenseBut(t, up + [i])
    ensures var u := At(t, up);
            && |up| < h && |u.kids| == |u.elems| + 1 && |u.kids[i].elems| >= MIN_DEGREE - 2
            && (forall j :: 0 <= j < |u.kids| && j != i ==> |u.kids[j].elems| >= MIN_DEGREE - 1)
            && (up != [] ==> |u.elems| >= MIN_DEGREE - 1)
  {
    hide Flatten, LeftOf, RightOf, At, Path, Dense;
    PathContext(t, h, up);
    HasKids(At(t, up), h - |up|);
    DenseButAt(t, up, i);
    ShortKid(At(t, up), i);
  }
}

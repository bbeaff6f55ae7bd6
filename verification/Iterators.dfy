/** Segments by number: the elements of a tree in order, named by node and index. */
module Iterators {
  import opened BTree
  import opened Positions

  datatype Iterator = Terminal | Segment(node: Ref, index: nat)

  /** How many elements of the subtree come before child `i`, or before gap `i` in a leaf. */
  ghost function Preceding<E>(x: Tree<E>, i: nat): nat
    requires i <= |x.elems| && Shaped(x)
  {
    if x.kids == [] then i else |Before(x.elems[..i], x.kids[..i])|
  }

  /** How many elements come before element `i` of the node itself. */
  ghost function Through<E>(x: Tree<E>, i: nat): nat
    requires i <= |x.elems| && Shaped(x)
  {
    if x.kids == [] then i else |Before(x.elems[..i], x.kids[..i])| + |Flatten(x.kids[i])|
  }

  /** `n` elements of `t` come before position `i` of the node at `p`. */
  ghost predicate Ahead<E>(t: Tree<E>, p: seq<nat>, i: nat, n: nat) {
    Path(t, p) && Shaped(At(t, p)) && i <= |At(t, p).elems| && n == |LeftOf(t, p)| + Preceding(At(t, p), i)
  }

  /** `n` elements of `t` come before what follows child `i` of the node at `p`. */
  ghost predicate After<E>(t: Tree<E>, p: seq<nat>, i: nat, n: nat) {
    Path(t, p) && Shaped(At(t, p)) && i <= |At(t, p).elems| && n == |LeftOf(t, p)| + Through(At(t, p), i)
  }

  /** The iterator denotes element number `m`. */
  ghost predicate Names<E>(t: Tree<E>, it: Iterator, m: nat) {
    it.Segment? && exists p :: After(t, p, it.index, m) && At(t, p).ref == it.node && it.index < |At(t, p).elems|
  }

  lemma ThroughInner<E>(x: Tree<E>, i: nat)
    requires i < |x.elems| && Shaped(x)
    ensures Through(x, i) < |Flatten(x)| && Flatten(x)[Through(x, i)] == x.elems[i]
    ensures Through(x, i) + 1 == Preceding(x, i + 1)
  {
    hide Flatten, Behind, Before;
    if x.kids == [] {
      FlattenLeaf(x);
    } else {
      FlattenAround(x, i);
      BehindHead(x.elems, x.kids[1..], i);
      assert x.kids[1..][i..] == x.kids[i + 1..];
      BeforeStep(x, i);
    }
  }

  lemma BeforeStep<E>(x: Tree<E>, i: nat)
    requires i < |x.elems| && |x.kids| == |x.elems| + 1
    ensures Before(x.elems[..i + 1], x.kids[..i + 1]) == Before(x.elems[..i], x.kids[..i]) + (Flatten(x.kids[i]) + [x.elems[i]])
  {
    assert x.elems[..i + 1] == x.elems[..i] + [x.elems[i]] && x.kids[..i + 1] == x.kids[..i] + [x.kids[i]];
    BeforeAppend(x.elems[..i], x.kids[..i], [x.elems[i]], [x.kids[i]]);
    var e, k := [x.elems[i]], [x.kids[i]];
    assert e[1..] == [] && k[1..] == [] && Before(e, k) == Flatten(k[0]) + [e[0]] + Before(e[1..], k[1..]);
  }

  lemma ThroughLast<E>(x: Tree<E>)
    requires Shaped(x)
    ensures Through(x, |x.elems|) == |Flatten(x)| && Preceding(x, 0) == 0
  {
    hide Flatten, Behind;
    if x.kids == [] {
      FlattenLeaf(x);
    } else {
      FlattenAround(x, |x.elems|);
      assert x.elems[|x.elems|..] == [];
      BehindNone(x.kids[|x.elems| + 1..]);
    }
  }

  /** Element number `m` is the element the iterator points at. */
  lemma NamesElement<E>(t: Tree<E>, h: nat, p: seq<nat>, i: nat, m: nat)
    requires Shape(t, h) && After(t, p, i, m) && i < |At(t, p).elems|
    ensures m < |Flatten(t)| && Flatten(t)[m] == At(t, p).elems[i]
  {
    hide Flatten, Through, LeftOf, RightOf, Shape, At, Path, Shaped;
    PathContext(t, h, p);
    ThroughInner(At(t, p), i);
    var l, x, r := LeftOf(t, p), Flatten(At(t, p)), RightOf(t, p);
    assert (l + x + r)[m] == x[m - |l|];
  }

  lemma LeftOfKid<E>(t: Tree<E>, up: seq<nat>, j: nat)
    requires Path(t, up) && j < |At(t, up).kids| && j <= |At(t, up).elems|
    ensures Path(t, up + [j]) && At(t, up + [j]) == At(t, up).kids[j]
    ensures |LeftOf(t, up + [j])| == |LeftOf(t, up)| + |Before(At(t, up).elems[..j], At(t, up).kids[..j])|
  {
    var u := At(t, up);
    assert Path(u, [j]) && At(u, [j]) == u.kids[j];
    assert LeftOf(u, [j]) == Before(u.elems[..j], u.kids[..j]) + LeftOf(u.kids[j], [j][1..]);
    assert [j][1..] == [];
    AtAppend(t, up, [j]);
  }

  /** Moving a position up from the first place of a child, or from its last. */
  lemma UpFirst<E>(t: Tree<E>, up: seq<nat>, j: nat, n: nat)
    requires Path(t, up) && j < |At(t, up).kids| && Shaped(At(t, up)) && Ahead(t, up + [j], 0, n)
    ensures Ahead(t, up, j, n)
  {
    LeftOfKid(t, up, j);
    ThroughLast(At(t, up + [j]));
  }

  lemma UpLast<E>(t: Tree<E>, up: seq<nat>, j: nat, n: nat)
    requires Path(t, up) && j < |At(t, up).kids| && Shaped(At(t, up)) && After(t, up + [j], |At(t, up).kids[j].elems|, n)
    ensures After(t, up, j, n)
  {
    LeftOfKid(t, up, j);
    ThroughLast(At(t, up).kids[j]);
  }

  /** Moving down to the first or last place of a child. */
  lemma DownFirst<E>(t: Tree<E>, p: seq<nat>, j: nat, n: nat)
    requires Ahead(t, p, j, n) && At(t, p).kids != [] && Shaped(At(t, p).kids[j])
    ensures Ahead(t, p + [j], 0, n) && At(t, p + [j]) == At(t, p).kids[j]
  {
    LeftOfKid(t, p, j);
    ThroughLast(At(t, p + [j]));
  }

  lemma DownLast<E>(t: Tree<E>, p: seq<nat>, j: nat, n: nat)
    requires After(t, p, j, n) && At(t, p).kids != [] && Shaped(At(t, p).kids[j])
    ensures After(t, p + [j], |At(t, p).kids[j].elems|, n) && At(t, p + [j]) == At(t, p).kids[j]
  {
    LeftOfKid(t, p, j);
    ThroughLast(At(t, p + [j]));
  }

  /** The element before position `i`, in the same node. */
  lemma StepBack<E>(t: Tree<E>, p: seq<nat>, i: nat, n: nat)
    requires Ahead(t, p, i, n) && i > 0
    ensures n > 0 && After(t, p, i - 1, n - 1)
  {
    ThroughInner(At(t, p), i - 1);
  }

  lemma StepOn<E>(t: Tree<E>, p: seq<nat>, i: nat, n: nat)
    requires After(t, p, i, n) && i < |At(t, p).elems|
    ensures Ahead(t, p, i + 1, n + 1)
  {
    ThroughInner(At(t, p), i);
  }

  lemma LeafSame<E>(t: Tree<E>, p: seq<nat>, i: nat, n: nat)
    requires Path(t, p) && At(t, p).kids == []
    ensures Ahead(t, p, i, n) <==> After(t, p, i, n)
  {
  }

  lemma RootEnds<E>(t: Tree<E>, n: nat)
    ensures Ahead(t, [], 0, n) ==> n == 0
    ensures After(t, [], |t.elems|, n) ==> n == |Flatten(t)|
  {
    if Shaped(t) { ThroughLast(t); }
  }

  // ----- gaps by number -----

  /** The gap of a leaf, by number. */
  lemma GapNumber<E>(t: Tree<E>, h: nat, p: seq<nat>, i: nat, n: nat)
    requires Shape(t, h) && Ahead(t, p, i, n) && At(t, p).kids == []
    ensures n < |Gaps(t)| && Gaps(t)[n] == Gap(At(t, p).ref, i)
  {
    hide Flatten, LeftOf, RightOf, Shape, At, Path, GapsLeft, GapsRight;
    GapsContext(t, p);
    GapsLeftCount(t, h, p);
    var x := At(t, p);
    assert Gaps(x) == LeafGaps(x.ref, |x.elems| + 1);
    assert (GapsLeft(t, p) + Gaps(x) + GapsRight(t, p))[n] == Gaps(x)[i];
  }

  lemma {:induction false} GapWhere<E>(t: Tree<E>, h: nat, k: nat) returns (p: seq<nat>)
    requires Shape(t, h) && k < |Gaps(t)|
    ensures Path(t, p) && At(t, p).kids == [] && At(t, p).ref == Gaps(t)[k].node && Ahead(t, p, Gaps(t)[k].index, k)
    decreases h
  {
    if h == 0 {
      p := [];
    } else {
      var i := KidGapWhere(t.kids, k);
      GapsAround(t.kids, i);
      var k' := k - |KidGaps(t.kids[..i])|;
      var q := GapWhere(t.kids[i], h - 1, k');
      p := [i] + q;
      assert p[1..] == q;
      KidGapCountBefore(t.elems[..i], t.kids[..i], h - 1);
      assert LeftOf(t, p) == Before(t.elems[..i], t.kids[..i]) + LeftOf(t.kids[i], q);
    }
  }

  lemma {:induction false} KidGapWhere<E>(kids: seq<Tree<E>>, k: nat) returns (i: nat)
    requires k < |KidGaps(kids)|
    ensures i < |kids| && |KidGaps(kids[..i])| <= k < |KidGaps(kids[..i])| + |Gaps(kids[i])|
    decreases |kids|
  {
    if k < |Gaps(kids[0])| {
      i := 0;
      assert kids[..0] == [];
    } else {
      i := KidGapWhere(kids[1..], k - |Gaps(kids[0])|);
      i := i + 1;
      assert kids[..i][0] == kids[0] && kids[..i][1..] == kids[1..][..i - 1];
    }
  }

  // ----- changing one node's elements -----

  function PutIn<X>(s: seq<X>, i: nat, x: X): seq<X>
    requires i <= |s|
  {
    s[..i] + [x] + s[i..]
  }

  function TakeOut<X>(s: seq<X>, i: nat): seq<X>
    requires i < |s|
  {
    s[..i] + s[i + 1..]
  }

  lemma PutInMiddle<X>(l: seq<X>, m: seq<X>, r: seq<X>, i: nat, x: X)
    requires i <= |m|
    ensures l + PutIn(m, i, x) + r == PutIn(l + m + r, |l| + i, x)
  {
  }

  lemma TakeOutMiddle<X>(l: seq<X>, m: seq<X>, r: seq<X>, i: nat)
    requires i < |m|
    ensures l + TakeOut(m, i) + r == TakeOut(l + m + r, |l| + i)
  {
  }

  lemma SetMiddle<X>(l: seq<X>, m: seq<X>, r: seq<X>, i: nat, x: X)
    requires i < |m|
    ensures l + m[i := x] + r == (l + m + r)[|l| + i := x]
  {
  }

  /** An element put into a leaf. */
  lemma LeafPut<E>(t: Tree<E>, h: nat, p: seq<nat>, i: nat, e: E, n: nat)
    requires Shape(t, h) && Ahead(t, p, i, n) && At(t, p).kids == [] && |At(t, p).elems| < MAX_DEGREE - 1
    ensures n <= |Flatten(t)|
    ensures var x := At(t, p);
            var t' := Replace(t, p, x.(elems := PutIn(x.elems, i, e)));
            && Shape(t', h) && Flatten(t') == PutIn(Flatten(t), n, e) && After(t', p, i, n) && At(t', p).ref == x.ref
            && |At(t', p).elems| == |x.elems| + 1
  {
    hide Flatten, LeftOf, RightOf, Shape, At, Path, Replace;
    var x := At(t, p);
    var x' := x.(elems := PutIn(x.elems, i, e));
    PathContext(t, h, p);
    LeafShape(x, x', h - |p|);
    ReplaceContext(t, h, p, x');
    FlattenLeaf(x);
    FlattenLeaf(x');
    PutInMiddle(LeftOf(t, p), x.elems, RightOf(t, p), i, e);
  }

  lemma LeafShape<E>(x: Tree<E>, x': Tree<E>, h: nat)
    requires Shape(x, h) && x.kids == [] && x'.kids == [] && (|x'.elems| < MAX_DEGREE || |x'.elems| <= |x.elems|)
    ensures Shape(x', h)
  {
  }

  /** An element taken out of a leaf. */
  lemma LeafTake<E>(t: Tree<E>, h: nat, p: seq<nat>, i: nat, m: nat)
    requires Shape(t, h) && After(t, p, i, m) && At(t, p).kids == [] && i < |At(t, p).elems|
    ensures m < |Flatten(t)|
    ensures var x := At(t, p);
            var t' := Replace(t, p, x.(elems := TakeOut(x.elems, i)));
            && Shape(t', h) && Flatten(t') == TakeOut(Flatten(t), m) && Ahead(t', p, i, m) && At(t', p).kids == [] && At(t', p).ref == x.ref
  {
    hide Flatten, LeftOf, RightOf, Shape, At, Path, Replace;
    var x := At(t, p);
    var x' := x.(elems := TakeOut(x.elems, i));
    PathContext(t, h, p);
    LeafShape(x, x', h - |p|);
    ReplaceContext(t, h, p, x');
    FlattenLeaf(x);
    FlattenLeaf(x');
    TakeOutMiddle(LeftOf(t, p), x.elems, RightOf(t, p), i);
  }

  /** An element exchanged. */
  lemma ElementSet<E>(t: Tree<E>, h: nat, p: seq<nat>, i: nat, e: E, m: nat)
    requires Shape(t, h) && After(t, p, i, m) && i < |At(t, p).elems|
    ensures m < |Flatten(t)|
    ensures var x := At(t, p);
            var t' := Replace(t, p, x.(elems := x.elems[i := e]));
            && Shape(t', h) && Flatten(t') == Flatten(t)[m := e]
  {
    hide Flatten, LeftOf, RightOf, At, Path, Replace, Through;
    var x := At(t, p);
    var x' := x.(elems := x.elems[i := e]);
    PathContext(t, h, p);
    ReplaceContext(t, h, p, x');
    ThroughInner(x, i);
    ThroughSet(x, i, e);
    SetMiddle(LeftOf(t, p), Flatten(x), RightOf(t, p), Through(x, i), e);
  }

  lemma ThroughSet<E>(x: Tree<E>, i: nat, e: E)
    requires i < |x.elems| && Shaped(x)
    ensures Through(x, i) < |Flatten(x)| && Flatten(x.(elems := x.elems[i := e])) == Flatten(x)[Through(x, i) := e]
  {
    hide Flatten, Behind, Before;
    var x' := x.(elems := x.elems[i := e]);
    ThroughInner(x, i);
    if x.kids == [] {
      FlattenLeaf(x);
      FlattenLeaf(x');
    } else {
      FlattenAround(x, i);
      FlattenAround(x', i);
      BehindHead(x.elems, x.kids[1..], i);
      BehindHead(x'.elems, x.kids[1..], i);
      assert x.kids[1..][i..] == x.kids[i + 1..] && x.kids[1..][i] == x.kids[i + 1];
      assert x'.elems[..i] == x.elems[..i] && x'.elems[i + 1..] == x.elems[i + 1..];
      var l, r := Before(x.elems[..i], x.kids[..i]) + Flatten(x.kids[i]), Flatten(x.kids[i + 1]) + Behind(x.elems[i + 1..], x.kids[1..][i + 1..]);
      Joined([x.elems[i]], Flatten(x.kids[i + 1]), Behind(x.elems[i + 1..], x.kids[1..][i + 1..]));
      Joined([e], Flatten(x.kids[i + 1]), Behind(x.elems[i + 1..], x.kids[1..][i + 1..]));
      SetBetween(l, x.elems[i], r, e);
    }
  }

  lemma SetBetween<X>(l: seq<X>, x: X, r: seq<X>, e: X)
    ensures l + ([e] + r) == (l + ([x] + r))[|l| := e]
  {
  }

  /** Same nodes and sizes, other elements. */
  ghost predicate Alike<E>(t: Tree<E>, t': Tree<E>)
    decreases t
  {
    && t'.ref == t.ref && |t'.elems| == |t.elems| && |t'.kids| == |t.kids|
    && forall i :: 0 <= i < |t.kids| ==> Alike(t.kids[i], t'.kids[i])
  }

  lemma {:induction false} AlikeRefl<E>(t: Tree<E>)
    ensures Alike(t, t)
    decreases t
  {
    forall i | 0 <= i < |t.kids| ensures Alike(t.kids[i], t.kids[i]) {
      AlikeRefl(t.kids[i]);
    }
  }

  lemma {:induction false} AlikeReplace<E>(t: Tree<E>, p: seq<nat>, s: Tree<E>)
    requires Path(t, p) && Alike(At(t, p), s)
    ensures Alike(t, Replace(t, p, s))
    decreases |p|
  {
    if p != [] {
      AlikeReplace(t.kids[p[0]], p[1..], s);
      forall i | 0 <= i < |t.kids| && i != p[0] ensures Alike(t.kids[i], t.kids[i]) {
        AlikeRefl(t.kids[i]);
      }
    }
  }

  lemma {:induction false} AlikeLength<E>(t: Tree<E>, t': Tree<E>)
    requires Alike(t, t')
    ensures |Flatten(t')| == |Flatten(t)|
    decreases t, 0
  {
    if t.kids != [] {
      AlikeLength(t.kids[0], t'.kids[0]);
      AlikeBehind(t.elems, t.kids[1..], t'.elems, t'.kids[1..]);
    }
  }

  lemma {:induction false} AlikeBehind<E>(e: seq<E>, k: seq<Tree<E>>, e': seq<E>, k': seq<Tree<E>>)
    requires |e'| == |e| && |k'| == |k| && forall i :: 0 <= i < |k| ==> Alike(k[i], k'[i])
    ensures |Behind(e', k')| == |Behind(e, k)|
    decreases k, 1
  {
    if e != [] && k != [] {
      AlikeLength(k[0], k'[0]);
      AlikeBehind(e[1..], k[1..], e'[1..], k'[1..]);
    }
  }

  lemma {:induction false} AlikeBefore<E>(e: seq<E>, k: seq<Tree<E>>, e': seq<E>, k': seq<Tree<E>>)
    requires |e'| == |e| && |k'| == |k| && forall i :: 0 <= i < |k| ==> Alike(k[i], k'[i])
    ensures |Before(e', k')| == |Before(e, k)|
    decreases |k|
  {
    if e != [] && k != [] {
      AlikeLength(k[0], k'[0]);
      AlikeBefore(e[1..], k[1..], e'[1..], k'[1..]);
    }
  }

  lemma {:induction false} AlikePath<E>(t: Tree<E>, t': Tree<E>, p: seq<nat>)
    requires Alike(t, t') && Path(t, p)
    ensures Path(t', p) && Alike(At(t, p), At(t', p)) && |LeftOf(t', p)| == |LeftOf(t, p)|
    decreases |p|
  {
    if p != [] {
      var i := p[0];
      AlikePath(t.kids[i], t'.kids[i], p[1..]);
      if i <= |t.elems| { AlikeBefore(t.elems[..i], t.kids[..i], t'.elems[..i], t'.kids[..i]); }
    }
  }

  /** Iterators keep their meaning when only elements are exchanged. */
  lemma AlikeNames<E>(t: Tree<E>, t': Tree<E>, it: Iterator, m: nat)
    requires Alike(t, t') && Names(t, it, m)
    ensures Names(t', it, m)
  {
    var p :| After(t, p, it.index, m) && At(t, p).ref == it.node && it.index < |At(t, p).elems|;
    AlikePath(t, t', p);
    AlikeThrough(At(t, p), At(t', p), it.index);
    assert After(t', p, it.index, m);
  }

  lemma AlikeThrough<E>(x: Tree<E>, x': Tree<E>, i: nat)
    requires Alike(x, x') && Shaped(x) && i <= |x.elems|
    ensures Shaped(x') && Through(x', i) == Through(x, i)
  {
    if x.kids != [] {
      AlikeBefore(x.elems[..i], x.kids[..i], x'.elems[..i], x'.kids[..i]);
      AlikeLength(x.kids[i], x'.kids[i]);
    }
  }
}

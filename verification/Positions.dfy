/** Gap positions in a B-tree. The gaps of a tree, listed in order, number the
    positions between its elements: gap number `k` has exactly `k` elements before it. */
module Positions {
  import opened BTree

  /** A gap: before element `index` of the leaf at `node`, or after its last one. */
  datatype Gap = Gap(node: Ref, index: nat)

  function LeafGaps(r: Ref, n: nat): (s: seq<Gap>)
    ensures |s| == n && forall i: nat :: i < n ==> s[i] == Gap(r, i)
  {
    if n == 0 then [] else LeafGaps(r, n - 1) + [Gap(r, n - 1)]
  }

  /** All gaps of a subtree, in order. */
  function Gaps<E>(t: Tree<E>): seq<Gap>
    decreases t
  {
    if t.kids == [] then LeafGaps(t.ref, |t.elems| + 1) else KidGaps(t.kids)
  }

  function KidGaps<E>(kids: seq<Tree<E>>): seq<Gap>
    decreases kids
  {
    if kids == [] then [] else Gaps(kids[0]) + KidGaps(kids[1..])
  }

  lemma {:induction false} KidGapsAppend<E>(a: seq<Tree<E>>, b: seq<Tree<E>>)
    ensures KidGaps(a + b) == KidGaps(a) + KidGaps(b)
    decreases |a|
  {
    if a == [] {
      assert a + b == b;
    } else {
      assert (a + b)[1..] == a[1..] + b;
      KidGapsAppend(a[1..], b);
    }
  }

  lemma OneKidGaps<E>(k: Tree<E>)
    ensures KidGaps([k]) == Gaps(k)
  {
    assert [k][1..] == [];
  }

  lemma GapsAround<E>(kids: seq<Tree<E>>, i: nat)
    requires i < |kids|
    ensures KidGaps(kids) == KidGaps(kids[..i]) + Gaps(kids[i]) + KidGaps(kids[i + 1..])
  {
    hide Gaps, KidGaps;
    assert kids == kids[..i] + ([kids[i]] + kids[i + 1..]);
    KidGapsAppend(kids[..i], [kids[i]] + kids[i + 1..]);
    KidGapsAppend([kids[i]], kids[i + 1..]);
    OneKidGaps(kids[i]);
    Joined(KidGaps(kids[..i]), Gaps(kids[i]), KidGaps(kids[i + 1..]));
  }

  /** One gap more than there are elements. */
  lemma {:induction false} GapCount<E>(t: Tree<E>, h: nat)
    requires Shape(t, h)
    ensures |Gaps(t)| == |Flatten(t)| + 1
    decreases h, 1, 0
  {
    if h > 0 {
      KidGapCount(t.elems, t.kids[1..], h - 1);
      GapCount(t.kids[0], h - 1);
    }
  }

  lemma {:induction false} KidGapCount<E>(elems: seq<E>, kids: seq<Tree<E>>, h: nat)
    requires |elems| == |kids| && forall i :: 0 <= i < |kids| ==> Shape(kids[i], h)
    ensures |KidGaps(kids)| == |Behind(elems, kids)|
    decreases h, 2, |kids|
  {
    if kids != [] {
      GapCount(kids[0], h);
      KidGapCount(elems[1..], kids[1..], h);
    }
  }

  lemma {:induction false} KidGapCountBefore<E>(elems: seq<E>, kids: seq<Tree<E>>, h: nat)
    requires |elems| == |kids| && forall i :: 0 <= i < |kids| ==> Shape(kids[i], h)
    ensures |KidGaps(kids)| == |Before(elems, kids)|
    decreases |kids|
  {
    if kids != [] {
      GapCount(kids[0], h);
      KidGapCountBefore(elems[1..], kids[1..], h);
    }
  }

  /** Gaps lie in leaves of the tree, within bounds. */
  lemma {:induction false} GapOwner<E>(t: Tree<E>, k: nat)
    requires k < |Gaps(t)|
    ensures Gaps(t)[k].node in AllRefs(t)
    decreases t, 0
  {
    if t.kids != [] {
      KidGapOwner(t.kids, k);
    }
  }

  lemma {:induction false} KidGapOwner<E>(kids: seq<Tree<E>>, k: nat)
    requires k < |KidGaps(kids)|
    ensures KidGaps(kids)[k].node in KidRefs(kids)
    decreases kids, 1
  {
    if k < |Gaps(kids[0])| {
      GapOwner(kids[0], k);
    } else {
      KidGapOwner(kids[1..], k - |Gaps(kids[0])|);
    }
  }

  // ----- gaps around a subtree -----

  ghost function GapsLeft<E>(t: Tree<E>, p: seq<nat>): seq<Gap>
    requires Path(t, p)
    decreases |p|
  {
    if p == [] then [] else KidGaps(t.kids[..p[0]]) + GapsLeft(t.kids[p[0]], p[1..])
  }

  ghost function GapsRight<E>(t: Tree<E>, p: seq<nat>): seq<Gap>
    requires Path(t, p)
    decreases |p|
  {
    if p == [] then [] else GapsRight(t.kids[p[0]], p[1..]) + KidGaps(t.kids[p[0] + 1..])
  }

  lemma {:induction false} GapsContext<E>(t: Tree<E>, p: seq<nat>)
    requires Path(t, p)
    ensures Gaps(t) == GapsLeft(t, p) + Gaps(At(t, p)) + GapsRight(t, p)
    decreases |p|
  {
    if p == [] {
      assert [] + Gaps(t) + [] == Gaps(t);
    } else {
      var i := p[0];
      GapsContext(t.kids[i], p[1..]);
      GapsAround(t.kids, i);
      NestedGaps(t, p);
    }
  }

  lemma NestedGaps<E>(t: Tree<E>, p: seq<nat>)
    requires Path(t, p) && p != []
    requires Gaps(t.kids[p[0]]) == GapsLeft(t.kids[p[0]], p[1..]) + Gaps(At(t, p)) + GapsRight(t.kids[p[0]], p[1..])
    requires KidGaps(t.kids) == KidGaps(t.kids[..p[0]]) + Gaps(t.kids[p[0]]) + KidGaps(t.kids[p[0] + 1..])
    ensures Gaps(t) == GapsLeft(t, p) + Gaps(At(t, p)) + GapsRight(t, p)
  {
    var i := p[0];
    assert Gaps(t) == KidGaps(t.kids);
    assert GapsLeft(t, p) == KidGaps(t.kids[..i]) + GapsLeft(t.kids[i], p[1..]);
    assert GapsRight(t, p) == GapsRight(t.kids[i], p[1..]) + KidGaps(t.kids[i + 1..]);
    hide Gaps, KidGaps, GapsLeft, GapsRight;
    Nested(KidGaps(t.kids[..i]), GapsLeft(t.kids[i], p[1..]), Gaps(At(t, p)), GapsRight(t.kids[i], p[1..]), KidGaps(t.kids[i + 1..]));
  }

  /** Exchanging a subtree exchanges its gaps and no others. */
  lemma {:induction false} GapsReplace<E>(t: Tree<E>, p: seq<nat>, s: Tree<E>)
    requires Path(t, p)
    ensures Path(Replace(t, p, s), p) && At(Replace(t, p, s), p) == s
    ensures Gaps(Replace(t, p, s)) == GapsLeft(t, p) + Gaps(s) + GapsRight(t, p)
    decreases |p|
  {
    var t' := Replace(t, p, s);
    if p == [] {
      assert [] + Gaps(s) + [] == Gaps(s);
    } else {
      var i := p[0];
      GapsReplace(t.kids[i], p[1..], s);
      GapsAround(t'.kids, i);
      assert t'.kids[..i] == t.kids[..i] && t'.kids[i + 1..] == t.kids[i + 1..];
      hide Gaps, KidGaps;
      Nested(KidGaps(t.kids[..i]), GapsLeft(t.kids[i], p[1..]), Gaps(s), GapsRight(t.kids[i], p[1..]), KidGaps(t.kids[i + 1..]));
      GapsOfNode(t');
    }
  }

  lemma GapsOfNode<E>(t: Tree<E>)
    requires t.kids != []
    ensures Gaps(t) == KidGaps(t.kids)
  {
  }

  /** As many gaps as elements to the left of a subtree. */
  lemma {:induction false} GapsLeftCount<E>(t: Tree<E>, h: nat, p: seq<nat>)
    requires Shape(t, h) && Path(t, p)
    ensures |GapsLeft(t, p)| == |LeftOf(t, p)|
    decreases |p|
  {
    if p != [] {
      KidGapCountBefore(t.elems[..p[0]], t.kids[..p[0]], h - 1);
      GapsLeftCount(t.kids[p[0]], h - 1, p[1..]);
    }
  }

  /** The gaps outside a subtree belong to nodes outside it. */
  lemma {:induction false} GapOutside<E>(t: Tree<E>, p: seq<nat>, k: nat)
    requires Path(t, p) && Distinct(t) && k < |Gaps(t)|
    requires k < |GapsLeft(t, p)| || k >= |GapsLeft(t, p)| + |Gaps(At(t, p))|
    ensures Gaps(t)[k].node !in AllRefs(At(t, p))
    decreases |p|
  {
    GapsContext(t, p);
    if p != [] {
      var i := p[0];
      var k0 := |KidGaps(t.kids[..i])|;
      GapsAround(t.kids, i);
      KidsAround(t.kids, i);
      AtIn(t.kids[i], p[1..]);
      if k < k0 {
        KidGapOwner(t.kids[..i], k);
      } else if k < k0 + |Gaps(t.kids[i])| {
        GapOutside(t.kids[i], p[1..], k - k0);
      } else {
        KidGapOwner(t.kids[i + 1..], k - k0 - |Gaps(t.kids[i])|);
      }
    }
  }

  /** A gap whose node is at `p` is one of that node's gaps. */
  lemma GapInside<E>(t: Tree<E>, p: seq<nat>, k: nat)
    requires Path(t, p) && Distinct(t) && k < |Gaps(t)| && Gaps(t)[k].node in AllRefs(At(t, p))
    ensures |GapsLeft(t, p)| <= k < |GapsLeft(t, p)| + |Gaps(At(t, p))|
    ensures Gaps(At(t, p))[k - |GapsLeft(t, p)|] == Gaps(t)[k]
  {
    GapsContext(t, p);
    if k < |GapsLeft(t, p)| || k >= |GapsLeft(t, p)| + |Gaps(At(t, p))| {
      GapOutside(t, p, k);
    }
  }
}

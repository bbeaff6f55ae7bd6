/** The B-tree behind a segment set, as linked nodes in a heap: splitting on the way to
    an insertion, rotating and unsplitting after a removal, and iterators. */
module SegmentTrees {
  import opened BTree
  import opened Positions
  import opened Restructure
  import opened GapMoves
  import opened Wiring
  import opened Updates
  import opened Rebalance
  import opened Iterators
  import opened HeapSteps

  class SegmentTree<E> {
    var heap: Heap<E>
    var next: Ref
    const root: Ref
    ghost var tree: Tree<E>
    ghost var height: nat

    ghost predicate Structured()
      reads this
    {
      Stored(heap, next, tree, height) && tree.ref == root
    }

    /** The B-tree invariants. */
    ghost predicate Valid()
      reads this
    {
      Structured() && Dense(tree) && (tree.kids != [] ==> tree.elems != [])
    }

    constructor ()
      ensures Valid() && Flatten(tree) == []
    {
      heap, next, root := map[0 := Node(Root, [], [])], 1, 0;
      tree, height := Tree(0, [], []), 0;
    }

    lemma NowStructured()
      requires Stored(heap, next, tree, height) && tree.ref == root
      ensures Structured()
    {
    }

    method Relink(p: Ref, from: nat)
      requires CanRelink(heap, p, from)
      modifies `heap
      ensures Relinked(old(heap), heap, p, from)
    {
      var kids := heap[p].kids;
      for i := from to |kids|
        invariant RelinkedTo(old(heap), heap, p, from, i)
      {
        RelinkOne(old(heap), heap, p, from, i);
        heap := heap[kids[i] := heap[kids[i]].(link := Up(p, i))];
      }
    }

    /** The node at `n`, full, gives its upper half to a new sibling and its median to
        its parent. */
    method SplitChild(n: Ref, ghost up: seq<nat>, ghost i: nat) returns (s: Ref)
      requires Structured() && IsKid(tree, up, i) && At(tree, up).kids[i].ref == n
      requires |At(tree, up).kids[i].elems| == MAX_DEGREE - 1
      requires |At(tree, up).elems| < MAX_DEGREE - 1 && |At(tree, up).kids| == |At(tree, up).elems| + 1
      modifies `heap, `next, `tree
      ensures Structured() && s == old(next)
      ensures tree == Replace(old(tree), up, SplitKid(At(old(tree), up), i, s))
    {
      hide Linked, Distinct, Shape, AllRefs, KidRefs, DistinctKids, Spread, SpreadTwo, Tops, OnlyLinks, LinksTo, Holds, Wired,
        Relinked, RelinkedTo, Relinks, ReadyTwo, Exchanged, CanRelink, TopsDiffer, TopsApart, Replace, At, Path, SplitKid,
        Front, Rear, Standing, FullKid, Shaped;
      ghost var t := At(tree, up);
      KidOf(heap, next, tree, height, up, i);
      WiredTop(heap, t);
      WiredTop(heap, t.kids[i]);
      SplitKidTops(t, i, next);
      ghost var t' := SplitKid(t, i, next);
      var node := heap[n];
      var parent, index := node.link.parent, node.link.index;
      s := next;
      next := next + 1;
      heap := heap[parent := heap[parent].(
        elems := heap[parent].elems[..index] + [node.elems[MIN_DEGREE - 1]] + heap[parent].elems[index..],
        kids := heap[parent].kids[..index + 1] + [s] + heap[parent].kids[index + 1..])];
      heap := heap[s := Node(Up(parent, index + 1), node.elems[MIN_DEGREE..], Rear(node.kids, MIN_DEGREE))];
      heap := heap[n := node.(elems := node.elems[..MIN_DEGREE - 1], kids := Front(node.kids, MIN_DEGREE))];
      ghost var h1 := heap;
      assert h1 == SplitKidHeap(old(heap), parent, index, n, s);
      SplitKidReady(old(heap), s, t, height - |up|, i);
      ReadyRelinks(old(heap), h1, s, s + 1, t, t', i, i + 2, |t'.kids[i].kids|, 0);
      Relink(parent, index + 2);
      ghost var h2 := heap;
      RelinksBy(h1, h2, t', i + 2);
      RelinksNone(h2, t'.kids[i]);
      CanStill(h1, h2, s, 0, parent, index + 2);
      Relink(s, 0);
      RelinksBy(h2, heap, t'.kids[i + 1], 0);
      FinishTwo(old(heap), h1, h2, h2, heap, s, s + 1, t, t', i, i + 2, |t'.kids[i].kids|, 0);
      StandingShape(old(heap), s, t, height - |up|);
      SplitKidShape(t, height - |up|, i, s);
      Installed(old(heap), heap, s, s + 1, tree, height, up, t');
      tree := Replace(tree, up, t');
      NowStructured();
    }

    /** The root, full, keeps its median and gets two new children. */
    method SplitRoot() returns (l: Ref, r: Ref)
      requires Structured() && |tree.elems| == MAX_DEGREE - 1
      modifies `heap, `next, `tree, `height
      ensures Structured() && l == old(next) && r == l + 1 && height == old(height) + 1
      ensures tree == SplitTop(old(tree), l, r)
    {
      hide Linked, Distinct, Shape, AllRefs, KidRefs, DistinctKids, Spread, SpreadTwo, Tops, OnlyLinks, LinksTo, Holds, Wired,
        Relinked, RelinkedTo, Relinks, ReadyTwo, Exchanged, CanRelink, TopsDiffer, TopsApart, Replace, At, Path, SplitKid,
        Front, Rear, Standing, FullKid, Shaped, SplitTop;
      ghost var t := tree;
      StoredStands(heap, next, t, height);
      WiredTop(heap, t);
      ghost var t' := SplitTop(t, next, next + 1);
      SplitTopTops(t, next, next + 1);
      var node := heap[root];
      l, r := next, next + 1;
      next := next + 2;
      heap := heap[l := Node(Up(root, 0), node.elems[..MIN_DEGREE - 1], Front(node.kids, MIN_DEGREE))];
      heap := heap[r := Node(Up(root, 1), node.elems[MIN_DEGREE..], Rear(node.kids, MIN_DEGREE))];
      heap := heap[root := node.(elems := [node.elems[MIN_DEGREE - 1]], kids := [l, r])];
      ghost var h1 := heap;
      assert h1 == SplitTopHeap(old(heap), root, l, r);
      SplitTopReady(old(heap), l, t, height);
      ReadyRelinks(old(heap), h1, l, l + 2, t, t', 0, 2, 0, 0);
      Relink(l, 0);
      ghost var h2 := heap;
      CanStill(h1, h2, r, 0, l, 0);
      Relink(r, 0);
      RelinksNone(h1, t');
      RelinksBy(h1, h2, t'.kids[0], 0);
      RelinksBy(h2, heap, t'.kids[1], 0);
      FinishTwo(old(heap), h1, h1, h2, heap, l, l + 2, t, t', 0, 2, 0, 0);
      SplitTopContents(t, height, l, r);
      InstalledTop(old(heap), heap, l, l + 2, t, height, t', height + 1);
      tree, height := t', height + 1;
      NowStructured();
    }

    /** Child `i` of the node at `up` gives its last element, and child, to the next one. */
    method RotateFromPrev(parent: Ref, index: nat, ghost up: seq<nat>)
      requires Structured() && Path(tree, up) && At(tree, up).ref == parent && index < |At(tree, up).elems|
      requires |up| < height && |At(tree, up).kids| == |At(tree, up).elems| + 1
      requires |At(tree, up).kids[index].elems| > 0 && |At(tree, up).kids[index + 1].elems| < MAX_DEGREE - 1
      modifies `heap, `tree
      ensures Structured() && tree == Replace(old(tree), up, RotateRight(At(old(tree), up), index))
    {
      hide Linked, Distinct, Shape, AllRefs, KidRefs, DistinctKids, Spread, SpreadTwo, Tops, OnlyLinks, LinksTo, Holds, Wired,
        Relinked, RelinkedTo, Relinks, ReadyTwo, Exchanged, CanRelink, TopsDiffer, TopsApart, Replace, At, Path, SplitKid,
        Front, Rear, Standing, FullKid, Shaped, Pair, Level, RotateRight;
      ghost var t := At(tree, up);
      StandingAt(heap, next, tree, height, up);
      StoredPair(heap, next, t, height - |up|, index);
      RotateRightTops(t, index);
      ghost var t' := RotateRight(t, index);
      var sibling, n := heap[parent].kids[index], heap[parent].kids[index + 1];
      var last := |heap[sibling].elems| - 1;
      heap := heap[n := heap[n].(elems := [heap[parent].elems[index]] + heap[n].elems,
                                 kids := if heap[n].kids == [] then [] else [heap[sibling].kids[last + 1]] + heap[n].kids)];
      heap := heap[parent := heap[parent].(elems := heap[parent].elems[index := heap[sibling].elems[last]])];
      heap := heap[sibling := heap[sibling].(elems := heap[sibling].elems[..last], kids := Front(heap[sibling].kids, last + 1))];
      ghost var h1 := heap;
      RotateRightRefs(t, index);
      assert h1 == RotateRightHeap(old(heap), parent, index, sibling, n);
      RotateRightReady(old(heap), next, t, height - |up|, index);
      ReadyRelinks(old(heap), h1, next, next, t, t', index, |t'.kids|, |t'.kids[index].kids|, 0);
      Relink(n, 0);
      RelinksNone(h1, t');
      RelinksNone(h1, t'.kids[index]);
      RelinksBy(h1, heap, t'.kids[index + 1], 0);
      FinishTwo(old(heap), h1, h1, h1, heap, next, next, t, t', index, |t'.kids|, |t'.kids[index].kids|, 0);
      StandingShape(old(heap), next, t, height - |up|);
      RotateRightShape(t, height - |up|, index);
      Installed(old(heap), heap, next, next, tree, height, up, t');
      tree := Replace(tree, up, t');
      NowStructured();
    }

    /** Child `i + 1` of the node at `up` gives its first element, and child, to the one before. */
    method RotateFromNext(parent: Ref, index: nat, ghost up: seq<nat>)
      requires Structured() && Path(tree, up) && At(tree, up).ref == parent && index < |At(tree, up).elems|
      requires |up| < height && |At(tree, up).kids| == |At(tree, up).elems| + 1
      requires |At(tree, up).kids[index + 1].elems| > 0 && |At(tree, up).kids[index].elems| < MAX_DEGREE - 1
      modifies `heap, `tree
      ensures Structured() && tree == Replace(old(tree), up, RotateLeft(At(old(tree), up), index))
    {
      hide Linked, Distinct, Shape, AllRefs, KidRefs, DistinctKids, Spread, SpreadTwo, Tops, OnlyLinks, LinksTo, Holds, Wired,
        Relinked, RelinkedTo, Relinks, ReadyTwo, Exchanged, CanRelink, TopsDiffer, TopsApart, Replace, At, Path, SplitKid,
        Front, Rear, Standing, FullKid, Shaped, Pair, Level, RotateLeft;
      ghost var t := At(tree, up);
      StandingAt(heap, next, tree, height, up);
      StoredPair(heap, next, t, height - |up|, index);
      RotateLeftTops(t, index);
      ghost var t' := RotateLeft(t, index);
      var n, sibling := heap[parent].kids[index], heap[parent].kids[index + 1];
      var from := |heap[n].kids|;
      heap := heap[n := heap[n].(elems := heap[n].elems + [heap[parent].elems[index]],
                                 kids := if heap[n].kids == [] then [] else heap[n].kids + [heap[sibling].kids[0]])];
      heap := heap[parent := heap[parent].(elems := heap[parent].elems[index := heap[sibling].elems[0]])];
      heap := heap[sibling := heap[sibling].(elems := heap[sibling].elems[1..], kids := Rear(heap[sibling].kids, 1))];
      ghost var h1 := heap;
      RotateLeftRefs(t, index);
      assert h1 == RotateLeftHeap(old(heap), parent, index, n, sibling);
      RotateLeftReady(old(heap), next, t, height - |up|, index);
      ReadyRelinks(old(heap), h1, next, next, t, t', index, |t'.kids|, from, 0);
      Relink(n, from);
      ghost var h2 := heap;
      CanStill(h1, h2, sibling, 0, n, from);
      Relink(sibling, 0);
      RelinksNone(h1, t');
      RelinksBy(h1, h2, t'.kids[index], from);
      RelinksBy(h2, heap, t'.kids[index + 1], 0);
      FinishTwo(old(heap), h1, h1, h2, heap, next, next, t, t', index, |t'.kids|, from, 0);
      StandingShape(old(heap), next, t, height - |up|);
      RotateLeftShape(t, height - |up|, index);
      Installed(old(heap), heap, next, next, tree, height, up, t');
      tree := Replace(tree, up, t');
      NowStructured();
    }

    /** Child `i + 1` of the node at `up`, and the element before it, join child `i`. */
    method MergeSiblings(parent: Ref, index: nat, ghost up: seq<nat>)
      requires Structured() && Path(tree, up) && At(tree, up).ref == parent && index < |At(tree, up).elems|
      requires |up| < height && |At(tree, up).kids| == |At(tree, up).elems| + 1
      requires |At(tree, up).kids[index].elems| + |At(tree, up).kids[index + 1].elems| + 1 < MAX_DEGREE
      modifies `heap, `tree
      ensures Structured() && tree == Replace(old(tree), up, JoinKids(At(old(tree), up), index))
    {
      hide Linked, Distinct, Shape, AllRefs, KidRefs, DistinctKids, Spread, SpreadTwo, Tops, OnlyLinks, LinksTo, Holds, Wired,
        Relinked, RelinkedTo, Relinks, ReadyTwo, Exchanged, CanRelink, TopsDiffer, TopsApart, Replace, At, Path, SplitKid,
        Front, Rear, Standing, FullKid, Shaped, Pair, Level, JoinKids;
      ghost var t := At(tree, up);
      StandingAt(heap, next, tree, height, up);
      StoredPair(heap, next, t, height - |up|, index);
      ghost var t' := JoinKids(t, index);
      var left, right := heap[parent].kids[index], heap[parent].kids[index + 1];
      var from := |heap[left].kids|;
      JoinRelinks(heap, t, index);
      heap := heap[left := heap[left].(elems := heap[left].elems + [heap[parent].elems[index]] + heap[right].elems,
                                       kids := heap[left].kids + heap[right].kids)];
      heap := heap[parent := heap[parent].(elems := heap[parent].elems[..index] + heap[parent].elems[index + 1..],
                                           kids := heap[parent].kids[..index + 1] + heap[parent].kids[index + 2..])];
      ghost var h1 := heap;
      assert h1 == JoinHeap(old(heap), parent, index, left, right);
      Relink(left, from);
      ghost var h2 := heap;
      CanStill(h1, h2, parent, 0, left, from);
      Relink(parent, 0);
      JoinDone(old(heap), h1, h2, heap, next, t, height - |up|, index);
      StandingShape(old(heap), next, t, height - |up|);
      JoinKidsShape(t, height - |up|, index);
      Installed(old(heap), heap, next, next, tree, height, up, t');
      tree := Replace(tree, up, t');
      NowStructured();
    }

    /** The only two children of the root join it. */
    method UnsplitRoot()
      requires Structured() && |tree.elems| == 1 && height > 0 && |tree.kids| == 2
      requires |tree.kids[0].elems| + |tree.kids[1].elems| + 1 < MAX_DEGREE
      modifies `heap, `tree, `height
      ensures Structured() && tree == Join(old(tree), 0, root) && height == old(height) - 1
    {
      hide Linked, Distinct, Shape, AllRefs, KidRefs, DistinctKids, Spread, SpreadTwo, Tops, OnlyLinks, LinksTo, Holds, Wired,
        Relinked, RelinkedTo, Relinks, ReadyTwo, Exchanged, CanRelink, TopsDiffer, TopsApart, Replace, At, Path, SplitKid,
        Front, Rear, Standing, FullKid, Shaped, Pair, Level, Join;
      ghost var t := tree;
      StoredStands(heap, next, t, height);
      StoredPair(heap, next, t, height, 0);
      UnsplitRelinks(heap, t);
      var left, right := heap[root].kids[0], heap[root].kids[1];
      heap := heap[root := heap[root].(elems := heap[left].elems + [heap[root].elems[0]] + heap[right].elems,
                                       kids := heap[left].kids + heap[right].kids)];
      ghost var h1 := heap;
      assert h1 == UnsplitHeap(old(heap), root, left, right);
      Relink(root, 0);
      UnsplitDone(old(heap), h1, heap, next, t, height);
      LevelShape(t, height);
      JoinContents(t, height, 0, root);
      InstalledTop(old(heap), heap, next, next, t, height, Join(t, 0, root), height - 1);
      tree, height := Join(t, 0, root), height - 1;
      NowStructured();
    }

    lemma ValidParts()
      requires Valid()
      ensures Structured() && Stored(heap, next, tree, height) && tree.ref == root && Dense(tree)
      ensures tree.kids != [] ==> tree.elems != []
    {
    }

    lemma NowValid()
      requires Structured() && Dense(tree) && (tree.kids != [] ==> tree.elems != [])
      ensures Valid()
    {
    }

    method SplitFullRoot(gap: Gap, ghost k: nat) returns (g: Gap)
      requires Valid() && |tree.elems| == MAX_DEGREE - 1 && k < |Gaps(tree)| && Gaps(tree)[k] == gap
      modifies `heap, `next, `tree, `height
      ensures Valid() && Flatten(tree) == old(Flatten(tree)) && k < |Gaps(tree)| && Gaps(tree)[k] == g
      ensures forall j :: 0 <= j < |old(tree).kids| ==> Roomy(tree, old(tree).kids[j])
      ensures old(tree).kids != [] ==> g == gap
      ensures gap.node == root ==> HasRoom(tree, g.node)
    {
      hide *;
      ValidParts();
      StoredParts(heap, next, tree, height);
      StoredStands(heap, next, tree, height);
      ghost var t := tree;
      if t.kids != [] {
        TopKid(t, 0);
        GapNotInner(t, [], k);
      }
      ShapedBy(t, height);
      SplitTopStep(t, height, next, next + 1, k);
      SplitTopRoom(t, next, next + 1);
      SplitTopTops(t, next, next + 1);
      SplitTopGapIs(gap, root, next, next + 1);
      var l, r := SplitRoot();
      NowValid();
      g := gap;
      if g.node != root { return; }
      g := if g.index < MIN_DEGREE then Gap(l, g.index) else Gap(r, g.index - MIN_DEGREE);
    }

    method SplitFullChild(n: Ref, gap: Gap, ghost q: seq<nat>, ghost j: nat, ghost k: nat) returns (g: Gap)
      requires Valid() && IsKid(tree, q, j) && At(tree, q).kids[j].ref == n && k < |Gaps(tree)| && Gaps(tree)[k] == gap
      requires |At(tree, q).kids[j].elems| == MAX_DEGREE - 1 && |At(tree, q).elems| < MAX_DEGREE - 1
      modifies `heap, `next, `tree
      ensures Valid() && Flatten(tree) == old(Flatten(tree)) && k < |Gaps(tree)| && Gaps(tree)[k] == g
      ensures var x := At(old(tree), q).kids[j]; forall m :: 0 <= m < |x.kids| ==> Roomy(tree, x.kids[m])
      ensures At(old(tree), q).kids[j].kids != [] ==> g == gap
      ensures gap.node == n ==> HasRoom(tree, g.node)
    {
      hide *;
      ValidParts();
      StoredParts(heap, next, tree, height);
      ghost var t := tree;
      KidPlace(t, q, j);
      KidOf(heap, next, t, height, q, j);
      if At(t, q).kids[j].kids != [] { GapNotInner(t, q + [j], k); }
      SplitKidStep(t, height, q, j, next, k);
      SplitKidRoom(t, q, j, next);
      SplitKidTop(t, q, j, next);
      SplitGapIs(gap, n, next);
      var s := SplitChild(n, q, j);
      NowValid();
      g := gap;
      if g.node != n || g.index < MIN_DEGREE { return; }
      g := Gap(s, g.index - MIN_DEGREE);
    }

    /** Splits `n` and its ancestors where they are full. The gap returned denotes the
        position `gap` did, and its node has room if `gap` was in `n`. */
    method RebalanceBeforeInsert(n: Ref, gap: Gap, ghost p: seq<nat>, ghost k: nat) returns (g: Gap)
      requires Valid() && Path(tree, p) && At(tree, p).ref == n && k < |Gaps(tree)| && Gaps(tree)[k] == gap
      modifies `heap, `next, `tree, `height
      ensures Valid() && Flatten(tree) == old(Flatten(tree)) && k < |Gaps(tree)| && Gaps(tree)[k] == g
      ensures forall j :: 0 <= j < |At(old(tree), p).kids| ==> Roomy(tree, At(old(tree), p).kids[j])
      ensures At(old(tree), p).kids != [] ==> g == gap
      ensures gap.node == n ==> HasRoom(tree, g.node)
      decreases |p|
    {
      hide *;
      ghost var x, q, j := At(tree, p), [], 0;
      ValidParts();
      NodeAt(heap, next, tree, height, p);
      TopPath(tree, p);
      g := gap;
      if heap[n].link.Up? {
        ghost var up, i := p[..|p| - 1], p[|p| - 1];
        KidPlace(tree, up, i);
        g := RebalanceBeforeInsert(heap[n].link.parent, gap, up, k);
        q, j := RoomyWhere(tree, x);
        KidPlace(tree, q, j);
        ValidParts();
        NodeAt(heap, next, tree, height, q + [j]);
      }
      if |heap[n].elems| < MAX_DEGREE - 1 {
        RoomyAt(tree, if p == [] then [] else q + [j]);
        return;
      }
      if heap[n].link.Root? {
        g := SplitFullRoot(g, k);
      } else {
        g := SplitFullChild(n, g, q, j, k);
      }
    }

    /** All B-tree invariants, but the node at `p` may lack an element. */
    ghost predicate Short(p: seq<nat>)
      reads this
    {
      Structured() && Path(tree, p) && DenseBut(tree, p) && (tree.kids != [] ==> tree.elems != [])
    }

    lemma ShortParts(up: seq<nat>, i: nat)
      requires Short(up + [i]) && IsKid(tree, up, i)
      ensures Structured() && Stored(heap, next, tree, height) && Shape(tree, height) && Distinct(tree)
      ensures tree.ref == root && (tree.kids != [] ==> tree.elems != [])
      ensures DenseBut(tree, up + [i])
      ensures Path(tree, up) && i < |At(tree, up).kids|
    {
    }

    /** Sizes of a short node's parent and siblings, as stored. */
    lemma ShortFacts(up: seq<nat>, i: nat, g: Gap)
      requires Short(up + [i]) && IsKid(tree, up, i)
      ensures Path(tree, up) && i < |At(tree, up).kids| && Shape(tree, height) && Distinct(tree)
      ensures var u := At(tree, up);
              && |up| < height && |u.kids| == |u.elems| + 1 && |u.kids[i].elems| >= MIN_DEGREE - 2
              && (forall j :: 0 <= j < |u.kids| && j != i ==> |u.kids[j].elems| >= MIN_DEGREE - 1)
              && (up != [] ==> |u.elems| >= MIN_DEGREE - 1) && (up == [] ==> u == tree) && |u.elems| >= 1
              && u.ref in heap && heap[u.ref].elems == u.elems && |heap[u.ref].kids| == |u.kids|
              && (forall j :: 0 <= j < |u.kids| ==>
                    heap[u.ref].kids[j] == u.kids[j].ref && u.kids[j].ref in heap && heap[u.kids[j].ref].elems == u.kids[j].elems)
      ensures |At(tree, up).kids[i].elems| < MIN_DEGREE - 1 ==>
                (Strands(tree, up + [i], g) <==>
                 i > 0 && |At(tree, up).kids[i - 1].elems| >= MIN_DEGREE
                 && Stranded(g, At(tree, up).kids[i - 1].ref, |At(tree, up).kids[i - 1].elems| - 1))
    {
      hide *;
      Degrees();
      ShortParts(up, i);
      ShortNode(tree, height, up, i);
      Siblings(heap, next, tree, height, up);
      TopPath(tree, up);
      StrandsAt(tree, up, i, g);
    }

    lemma ShortRoot()
      requires Short([])
      ensures Valid()
    {
    }

    lemma NotShort(p: seq<nat>)
      requires Short(p) && |At(tree, p).elems| >= MIN_DEGREE - 1
      ensures Valid()
    {
      hide *;
      ShortWhole(p);
      DenseWhole(tree, p);
      NowValid();
    }

    lemma ShortWhole(p: seq<nat>)
      requires Short(p)
      ensures Structured() && Stored(heap, next, tree, height) && Path(tree, p) && DenseBut(tree, p) && (tree.kids != [] ==> tree.elems != [])
    {
    }

    method BorrowPrev(n: Ref, gap: Gap, parent: Ref, index: nat, ghost up: seq<nat>, ghost k: nat) returns (g: Gap)
      requires Short(up + [index + 1]) && IsKid(tree, up, index + 1) && At(tree, up).ref == parent && At(tree, up).kids[index + 1].ref == n
      requires |At(tree, up).kids[index + 1].elems| < MIN_DEGREE - 1 && |At(tree, up).kids[index].elems| >= MIN_DEGREE
      requires k < |Gaps(tree)| && Gaps(tree)[k] == gap
      modifies `heap, `tree
      ensures Valid() && Flatten(tree) == old(Flatten(tree)) && k < |Gaps(tree)|
      ensures var sibling := At(old(tree), up).kids[index];
              Gaps(tree)[k] == g <==> !Stranded(gap, sibling.ref, |sibling.elems| - 1)
    {
      hide *;
      Degrees();
      ShortParts(up, index + 1);
      ghost var t, u := tree, At(tree, up);
      ShortNode(t, height, up, index + 1);
      StandingAt(heap, next, t, height, up);
      StoredPair(heap, next, u, height - |up|, index);
      RotateRightStep(t, height, up, index, k);
      RotateRightSize(u, index);
      RootKept(t, up, RotateRight(u, index));
      var sibling, size := heap[parent].kids[index], |heap[heap[parent].kids[index]].elems| - 1;
      RotateGapsAre(gap, n, sibling, size);
      RotateFromPrev(parent, index, up);
      NowValid();
      g := if gap.node == sibling && gap.index == size then Gap(n, 0)
           else if gap.node == n then Gap(n, gap.index + 1)
           else gap;
    }

    method BorrowNext(n: Ref, gap: Gap, parent: Ref, index: nat, ghost up: seq<nat>, ghost k: nat) returns (g: Gap)
      requires Short(up + [index]) && IsKid(tree, up, index) && At(tree, up).ref == parent && At(tree, up).kids[index].ref == n
      requires index + 1 < |At(tree, up).kids|
      requires |At(tree, up).kids[index].elems| < MIN_DEGREE - 1 && |At(tree, up).kids[index + 1].elems| >= MIN_DEGREE
      requires k < |Gaps(tree)| && Gaps(tree)[k] == gap
      modifies `heap, `tree
      ensures Valid() && Flatten(tree) == old(Flatten(tree)) && k < |Gaps(tree)| && Gaps(tree)[k] == g
    {
      hide *;
      Degrees();
      ShortParts(up, index);
      ghost var t, u := tree, At(tree, up);
      ShortNode(t, height, up, index);
      StandingAt(heap, next, t, height, up);
      StoredPair(heap, next, u, height - |up|, index);
      RotateLeftStep(t, height, up, index, k);
      RotateLeftSize(u, index);
      RootKept(t, up, RotateLeft(u, index));
      var sibling, size := heap[parent].kids[index + 1], |heap[n].elems| + 1;
      RotateGapsAre(gap, n, sibling, size);
      RotateFromNext(parent, index, up);
      NowValid();
      g := if gap.node == sibling then (if gap.index == 0 then Gap(n, size) else Gap(sibling, gap.index - 1)) else gap;
    }

    method Unsplit(gap: Gap, ghost i: nat, ghost k: nat) returns (g: Gap)
      requires Short([] + [i]) && IsKid(tree, [], i) && |tree.elems| == 1 && height > 0
      requires |tree.kids| == 2 && |tree.kids[0].elems| + |tree.kids[1].elems| + 1 < MAX_DEGREE
      requires k < |Gaps(tree)| && Gaps(tree)[k] == gap
      modifies `heap, `tree, `height
      ensures Valid() && Flatten(tree) == old(Flatten(tree)) && k < |Gaps(tree)| && Gaps(tree)[k] == g
    {
      hide *;
      ShortParts([], i);
      TopPath(tree, []);
      assert [] + [i] == [i];
      StoredStands(heap, next, tree, height);
      StoredPair(heap, next, tree, height, 0);
      UnsplitStep(tree, height, i, k);
      var left, right := heap[root].kids[0], heap[root].kids[1];
      var size := |heap[left].elems|;
      JoinGapsAre(gap, root, left, right, size);
      UnsplitRoot();
      NowValid();
      g := if gap.node == left then Gap(root, gap.index)
           else if gap.node == right then Gap(root, gap.index + size + 1)
           else gap;
    }

    method Merge(gap: Gap, parent: Ref, index: nat, ghost up: seq<nat>, ghost short: nat, ghost k: nat) returns (g: Gap)
      requires Short(up + [short]) && IsKid(tree, up, short) && At(tree, up).ref == parent && (short == index || short == index + 1)
      requires index + 1 < |At(tree, up).kids| && |At(tree, up).elems| >= MIN_DEGREE - 1
      requires |At(tree, up).kids[index].elems| + |At(tree, up).kids[index + 1].elems| + 1 < MAX_DEGREE
      requires k < |Gaps(tree)| && Gaps(tree)[k] == gap
      modifies `heap, `tree
      ensures Short(up) && Flatten(tree) == old(Flatten(tree)) && k < |Gaps(tree)| && Gaps(tree)[k] == g
      ensures At(tree, up).ref == parent && At(tree, up).kids != []
    {
      hide *;
      Degrees();
      ShortParts(up, short);
      ghost var t, u := tree, At(tree, up);
      ShortNode(t, height, up, short);
      StandingAt(heap, next, t, height, up);
      StoredPair(heap, next, u, height - |up|, index);
      JoinStep(t, height, up, index, short, k);
      JoinSize(u, index);
      RootKept(t, up, JoinKids(u, index));
      var left, right := heap[parent].kids[index], heap[parent].kids[index + 1];
      var size := |heap[left].elems|;
      JoinGapsAre(gap, parent, left, right, size);
      g := if gap.node == right then Gap(left, gap.index + size + 1) else gap;
      MergeSiblings(parent, index, up);
      NowShort(up);
    }

    lemma NowShort(p: seq<nat>)
      requires Structured() && Path(tree, p) && DenseBut(tree, p) && (tree.kids != [] ==> tree.elems != [])
      ensures Short(p)
    {
    }

    /** Unsplits `n` and its ancestors, or rotates into them, where they are short. The gap
        returned denotes the position `gap` did, except where a rotation strands it. */
    method RebalanceAfterRemove(node: Ref, gap: Gap, ghost path: seq<nat>, ghost k: nat) returns (g: Gap)
      requires Short(path) && At(tree, path).ref == node && k < |Gaps(tree)| && Gaps(tree)[k] == gap
      modifies `heap, `tree, `height
      ensures Valid() && Flatten(tree) == old(Flatten(tree)) && k < |Gaps(tree)|
      ensures Gaps(tree)[k] == g <==> !Strands(old(tree), path, gap)
    {
      hide *;
      Degrees();
      var n := node;
      ghost var p := path;
      ShortWhole(p);
      g := gap;
      while true
        invariant Short(p) && Path(tree, p) && At(tree, p).ref == n
        invariant Flatten(tree) == old(Flatten(tree)) && k < |Gaps(tree)| && Gaps(tree)[k] == g
        invariant (p == path && tree == old(tree) && g == gap) || (At(tree, p).kids != [] && !Strands(old(tree), path, gap))
        decreases |p|
      {
        ShortWhole(p);
        NodeAt(heap, next, tree, height, p);
        if |heap[n].elems| >= MIN_DEGREE - 1 {
          NotShort(p);
          LongEnough(tree, p, g);
          return;
        }
        if heap[n].link.Root? {
          ShortRoot();
          StrandsRoot(tree, g);
          return;
        }
        ghost var up, i := PathEnd(p);
        KidPlace(tree, up, i);
        ShortFacts(up, i, g);
        var parent, index := heap[n].link.parent, heap[n].link.index;
        if index > 0 && |heap[heap[parent].kids[index - 1]].elems| >= MIN_DEGREE {
          if At(tree, p).kids != [] { InnerNotStranded(tree, height, up, i, k); }
          g := BorrowPrev(n, g, parent, index - 1, up, k);
          return;
        }
        if index < |heap[parent].elems| && |heap[heap[parent].kids[index + 1]].elems| >= MIN_DEGREE {
          g := BorrowNext(n, g, parent, index, up, k);
          return;
        }
        if |heap[parent].elems| == 1 {
          g := Unsplit(g, i, k);
          return;
        }
        if index > 0 {
          g := Merge(g, parent, index - 1, up, i, k);
        } else {
          g := Merge(g, parent, index, up, i, k);
        }
        n, p := parent, up;
        ShortWhole(p);
      }
    }

    /** Inserts `e` into gap number `k`. */
    method InsertWithoutMergingUnchecked(gap: Gap, e: E, ghost k: nat) returns (seg: Iterator)
      requires Valid() && k < |Gaps(tree)| && Gaps(tree)[k] == gap
      modifies this
      ensures Valid() && k <= |old(Flatten(tree))| && Flatten(tree) == PutIn(old(Flatten(tree)), k, e)
      ensures Names(tree, seg, k)
    {
      hide *;
      ValidParts();
      StoredParts(heap, next, tree, height);
      ghost var p := GapWhere(tree, height, k);
      var g := RebalanceBeforeInsert(gap.node, gap, p, k);
      ValidParts();
      StoredParts(heap, next, tree, height);
      ghost var q := GapWhere(tree, height, k);
      ghost var x, t := At(tree, q), tree;
      AheadParts(t, q, g.index, k);
      NodeAt(heap, next, t, height, q);
      RoomStored(heap, next, t, height, g.node);
      var elems := heap[g.node].elems;
      PutGrows(elems, g.index, e);
      LeafPut(t, height, q, g.index, e, k);
      PathShape(t, height, q, x.(elems := PutIn(x.elems, g.index, e)));
      ElementsSet(heap, next, t, height, q, PutIn(x.elems, g.index, e));
      GrownDense(t, q, PutIn(x.elems, g.index, e));
      heap := heap[g.node := heap[g.node].(elems := elems[..g.index] + [e] + elems[g.index..])];
      tree := Replace(t, q, x.(elems := PutIn(x.elems, g.index, e)));
      NowStructured();
      NowValid();
      AheadParts(tree, q, g.index, k);
      NamesAt(tree, q, g.index, k);
      seg := Segment(g.node, g.index);
    }

    /** Exchanges element number `m`. */
    method SetElement(seg: Iterator, e: E, ghost m: nat)
      requires Valid() && Names(tree, seg, m)
      modifies `heap, `tree
      ensures Valid() && m < |old(Flatten(tree))| && Flatten(tree) == old(Flatten(tree))[m := e] && Alike(old(tree), tree)
      ensures forall r :: r in old(heap) ==> r in heap && heap[r].kids == old(heap)[r].kids
    {
      hide *;
      ValidParts();
      StoredParts(heap, next, tree, height);
      ghost var p := NamesWhere(tree, seg, m);
      ghost var x, t := At(tree, p), tree;
      NodeAt(heap, next, t, height, p);
      ElementSet(t, height, p, seg.index, e, m);
      PathShape(t, height, p, x.(elems := x.elems[seg.index := e]));
      ElementsSet(heap, next, t, height, p, x.elems[seg.index := e]);
      GrownDense(t, p, x.elems[seg.index := e]);
      AlikeSet(t, p, seg.index, e);
      heap := heap[seg.node := heap[seg.node].(elems := heap[seg.node].elems[seg.index := e])];
      tree := Replace(t, p, x.(elems := x.elems[seg.index := e]));
      NowStructured();
      NowValid();
    }

    /** The last segment of the subtree at `n`; `m` elements precede its end. */
    method LastSegment(n: Ref, ghost p: seq<nat>, ghost m: nat) returns (seg: Iterator, ghost q: seq<nat>)
      requires Valid() && Path(tree, p) && At(tree, p).ref == n && After(tree, p, |At(tree, p).elems|, m) && At(tree, p).elems != []
      ensures m > 0 && Names(tree, seg, m - 1) && seg.Segment?
      ensures Path(tree, q) && At(tree, q).kids == [] && At(tree, q).ref == seg.node
      ensures After(tree, q, seg.index, m - 1) && seg.index < |At(tree, q).elems|
    {
      hide *;
      ValidParts();
      StoredParts(heap, next, tree, height);
      var c := n;
      q := p;
      NodeAt(heap, next, tree, height, q);
      KidFacts(tree, height, q);
      while heap[c].kids != []
        invariant Path(tree, q) && At(tree, q).ref == c && After(tree, q, |At(tree, q).elems|, m) && At(tree, q).elems != []
        invariant c in heap && heap[c].elems == At(tree, q).elems && |heap[c].kids| == |At(tree, q).kids|
        invariant |q| <= height
        decreases height - |q|
      {
        KidFacts(tree, height, q);
        KidsFull(tree, q);
        NodeAt(heap, next, tree, height, q);
        DownLast(tree, q, |At(tree, q).elems|, m);
        c, q := heap[c].kids[|heap[c].elems|], q + [|heap[c].elems|];
        AheadParts(tree, q, |At(tree, q).elems|, m);
        NodeAt(heap, next, tree, height, q);
        KidFacts(tree, height, q);
      }
      var last := |heap[c].elems| - 1;
      LeafSame(tree, q, last + 1, m);
      StepBack(tree, q, last + 1, m);
      NamesAt(tree, q, last, m - 1);
      seg := Segment(c, last);
    }

    /** The first segment of the subtree at `n`; `m` elements precede it. */
    method FirstSegment(n: Ref, ghost p: seq<nat>, ghost m: nat) returns (seg: Iterator, ghost q: seq<nat>)
      requires Valid() && Path(tree, p) && At(tree, p).ref == n && Ahead(tree, p, 0, m) && At(tree, p).elems != []
      ensures Names(tree, seg, m) && seg.Segment?
      ensures Path(tree, q) && At(tree, q).kids == [] && At(tree, q).ref == seg.node
      ensures After(tree, q, seg.index, m) && seg.index < |At(tree, q).elems|
    {
      hide *;
      ValidParts();
      StoredParts(heap, next, tree, height);
      var c := n;
      q := p;
      NodeAt(heap, next, tree, height, q);
      KidFacts(tree, height, q);
      while heap[c].kids != []
        invariant Path(tree, q) && At(tree, q).ref == c && Ahead(tree, q, 0, m) && At(tree, q).elems != []
        invariant c in heap && heap[c].elems == At(tree, q).elems && |heap[c].kids| == |At(tree, q).kids|
        invariant |q| <= height
        decreases height - |q|
      {
        KidFacts(tree, height, q);
        KidsFull(tree, q);
        NodeAt(heap, next, tree, height, q);
        DownFirst(tree, q, 0, m);
        c, q := heap[c].kids[0], q + [0];
        AheadParts(tree, q, 0, m);
        NodeAt(heap, next, tree, height, q);
        KidFacts(tree, height, q);
      }
      LeafSame(tree, q, 0, m);
      NamesAt(tree, q, 0, m);
      seg := Segment(c, 0);
    }

    /** The segment before position `i` of `n`, which `k` elements precede. */
    method SegmentBeforePosition(n: Ref, i: nat, ghost p: seq<nat>, ghost k: nat) returns (seg: Iterator)
      requires Valid() && Path(tree, p) && At(tree, p).ref == n && Ahead(tree, p, i, k)
      ensures if k == 0 then seg == Terminal else Names(tree, seg, k - 1)
    {
      hide *;
      ValidParts();
      StoredParts(heap, next, tree, height);
      var c, j := n, i;
      ghost var q := p;
      while j == 0
        invariant Path(tree, q) && At(tree, q).ref == c && Ahead(tree, q, j, k)
        decreases |q|
      {
        NodeAt(heap, next, tree, height, q);
        if heap[c].link.Root? {
          RootEnds(tree, k);
          return Terminal;
        }
        ghost var up, index := PathEnd(q);
        KidPlace(tree, up, index);
        NodeAt(heap, next, tree, height, up);
        UpFirst(tree, up, index, k);
        c, j, q := heap[c].link.parent, heap[c].link.index, up;
      }
      AheadParts(tree, q, j, k);
      StepBack(tree, q, j, k);
      NamesAt(tree, q, j - 1, k - 1);
      seg := Segment(c, j - 1);
    }

    /** The segment after child, or gap, `i` of `n`, up to which there are `k` elements. */
    method SegmentAfterPosition(n: Ref, i: nat, ghost p: seq<nat>, ghost k: nat) returns (seg: Iterator)
      requires Valid() && Path(tree, p) && At(tree, p).ref == n && After(tree, p, i, k)
      ensures if k == |Flatten(tree)| then seg == Terminal else Names(tree, seg, k)
    {
      hide *;
      ValidParts();
      StoredParts(heap, next, tree, height);
      var c, j := n, i;
      ghost var q := p;
      NodeAt(heap, next, tree, height, q);
      while j == |heap[c].elems|
        invariant Path(tree, q) && At(tree, q).ref == c && After(tree, q, j, k) && c in heap && heap[c].elems == At(tree, q).elems
        decreases |q|
      {
        NodeAt(heap, next, tree, height, q);
        if heap[c].link.Root? {
          TopPath(tree, q);
          RootEnds(tree, k);
          return Terminal;
        }
        ghost var up, index := PathEnd(q);
        KidPlace(tree, up, index);
        NodeAt(heap, next, tree, height, up);
        UpLast(tree, up, index, k);
        c, j, q := heap[c].link.parent, heap[c].link.index, up;
      }
      AheadParts(tree, q, j, k);
      NamesElement(tree, height, q, j, k);
      NamesAt(tree, q, j, k);
      seg := Segment(c, j);
    }

    method PrevSegment(seg: Iterator, ghost m: nat) returns (prev: Iterator)
      requires Valid() && Names(tree, seg, m)
      ensures if m == 0 then prev == Terminal else Names(tree, prev, m - 1)
      ensures seg.node in heap && (heap[seg.node].kids != [] ==> prev.Segment? && prev.node in heap && heap[prev.node].kids == [])
    {
      hide *;
      ValidParts();
      StoredParts(heap, next, tree, height);
      ghost var p := NamesWhere(tree, seg, m);
      NodeAt(heap, next, tree, height, p);
      KidFacts(tree, height, p);
      if heap[seg.node].kids != [] {
        KidsFull(tree, p);
        DownLast(tree, p, seg.index, m);
        AheadParts(tree, p + [seg.index], |At(tree, p).kids[seg.index].elems|, m);
        ghost var q;
        prev, q := LastSegment(heap[seg.node].kids[seg.index], p + [seg.index], m);
        NodeAt(heap, next, tree, height, q);
        return;
      }
      LeafSame(tree, p, seg.index, m);
      if seg.index > 0 {
        StepBack(tree, p, seg.index, m);
        NamesAt(tree, p, seg.index - 1, m - 1);
        return Segment(seg.node, seg.index - 1);
      }
      if heap[seg.node].link.Root? {
        RootEnds(tree, m);
        return Terminal;
      }
      ghost var up, i := PathEnd(p);
      KidPlace(tree, up, i);
      NodeAt(heap, next, tree, height, up);
      UpFirst(tree, up, i, m);
      prev := SegmentBeforePosition(heap[seg.node].link.parent, heap[seg.node].link.index, up, m);
    }

    method NextSegment(seg: Iterator, ghost m: nat) returns (succ: Iterator)
      requires Valid() && Names(tree, seg, m)
      ensures m < |Flatten(tree)|
      ensures if m + 1 == |Flatten(tree)| then succ == Terminal else Names(tree, succ, m + 1)
    {
      hide *;
      ValidParts();
      StoredParts(heap, next, tree, height);
      ghost var p := NamesWhere(tree, seg, m);
      NamesElement(tree, height, p, seg.index, m);
      NodeAt(heap, next, tree, height, p);
      KidFacts(tree, height, p);
      StepOn(tree, p, seg.index, m);
      if heap[seg.node].kids != [] {
        KidsFull(tree, p);
        DownFirst(tree, p, seg.index + 1, m + 1);
        AheadParts(tree, p + [seg.index + 1], 0, m + 1);
        ghost var q;
        succ, q := FirstSegment(heap[seg.node].kids[seg.index + 1], p + [seg.index + 1], m + 1);
        NamesElement(tree, height, q, succ.index, m + 1);
        return;
      }
      LeafSame(tree, p, seg.index + 1, m + 1);
      if seg.index < |heap[seg.node].elems| - 1 {
        NamesElement(tree, height, p, seg.index + 1, m + 1);
        NamesAt(tree, p, seg.index + 1, m + 1);
        return Segment(seg.node, seg.index + 1);
      }
      if heap[seg.node].link.Root? {
        TopPath(tree, p);
        RootEnds(tree, m + 1);
        return Terminal;
      }
      ghost var up, i := PathEnd(p);
      KidPlace(tree, up, i);
      NodeAt(heap, next, tree, height, up);
      UpLast(tree, up, i, m + 1);
      succ := SegmentAfterPosition(heap[seg.node].link.parent, heap[seg.node].link.index, up, m + 1);
    }

    method PrevGap(seg: Iterator, ghost m: nat) returns (gap: Gap)
      requires Valid() && Names(tree, seg, m)
      ensures m < |Gaps(tree)| && Gaps(tree)[m] == gap
    {
      hide *;
      ValidParts();
      StoredParts(heap, next, tree, height);
      ghost var p := NamesWhere(tree, seg, m);
      NodeAt(heap, next, tree, height, p);
      KidFacts(tree, height, p);
      if heap[seg.node].kids != [] {
        KidsFull(tree, p);
        DownLast(tree, p, seg.index, m);
        AheadParts(tree, p + [seg.index], |At(tree, p).kids[seg.index].elems|, m);
        var last, q := LastSegment(heap[seg.node].kids[seg.index], p + [seg.index], m);
        StepOn(tree, q, last.index, m - 1);
        GapNumber(tree, height, q, last.index + 1, m);
        return Gap(last.node, last.index + 1);
      }
      LeafSame(tree, p, seg.index, m);
      GapNumber(tree, height, p, seg.index, m);
      gap := Gap(seg.node, seg.index);
    }

    method NextGap(seg: Iterator, ghost m: nat) returns (gap: Gap)
      requires Valid() && Names(tree, seg, m)
      ensures m + 1 < |Gaps(tree)| && Gaps(tree)[m + 1] == gap
    {
      hide *;
      ValidParts();
      StoredParts(heap, next, tree, height);
      ghost var p := NamesWhere(tree, seg, m);
      NodeAt(heap, next, tree, height, p);
      KidFacts(tree, height, p);
      StepOn(tree, p, seg.index, m);
      if heap[seg.node].kids != [] {
        KidsFull(tree, p);
        DownFirst(tree, p, seg.index + 1, m + 1);
        AheadParts(tree, p + [seg.index + 1], 0, m + 1);
        var first, q := FirstSegment(heap[seg.node].kids[seg.index + 1], p + [seg.index + 1], m + 1);
        LeafSame(tree, q, first.index, m + 1);
        GapNumber(tree, height, q, first.index, m + 1);
        return Gap(first.node, first.index);
      }
      GapNumber(tree, height, p, seg.index + 1, m + 1);
      gap := Gap(seg.node, seg.index + 1);
    }

    method SegmentBeforeGap(gap: Gap, ghost k: nat) returns (prev: Iterator)
      requires Valid() && k < |Gaps(tree)| && Gaps(tree)[k] == gap
      ensures if k == 0 then prev == Terminal else Names(tree, prev, k - 1)
    {
      hide *;
      ValidParts();
      StoredParts(heap, next, tree, height);
      ghost var p := GapWhere(tree, height, k);
      prev := SegmentBeforePosition(gap.node, gap.index, p, k);
    }

    method SegmentAfterGap(gap: Gap, ghost k: nat) returns (succ: Iterator)
      requires Valid() && k < |Gaps(tree)| && Gaps(tree)[k] == gap
      ensures if k == |Flatten(tree)| then succ == Terminal else k < |Flatten(tree)| && Names(tree, succ, k)
    {
      hide *;
      ValidParts();
      StoredParts(heap, next, tree, height);
      GapCount(tree, height);
      ghost var p := GapWhere(tree, height, k);
      LeafSame(tree, p, gap.index, k);
      succ := SegmentAfterPosition(gap.node, gap.index, p, k);
    }

    /** The gap after the given one, if there is one. */
    method NextGapOf(gap: Gap, ghost k: nat) returns (found: bool, succ: Gap)
      requires Valid() && k < |Gaps(tree)| && Gaps(tree)[k] == gap
      ensures found <==> k < |Flatten(tree)|
      ensures found ==> k + 1 < |Gaps(tree)| && Gaps(tree)[k + 1] == succ
    {
      hide *;
      var seg := SegmentAfterGap(gap, k);
      if seg == Terminal {
        NamesReal(seg, k);
        return false, gap;
      }
      succ := NextGap(seg, k);
      found := true;
    }

    lemma GapBound(k: nat)
      requires Valid() && k < |Gaps(tree)|
      ensures k <= |Flatten(tree)|
    {
      ValidParts();
      StoredParts(heap, next, tree, height);
      GapCount(tree, height);
    }

    /** Only existing segments are named. */
    lemma TerminalIs(seg: Iterator, m: nat)
      requires Valid() && (m == |Flatten(tree)| ==> seg == Terminal) && (m != |Flatten(tree)| ==> Names(tree, seg, m))
      ensures seg == Terminal <==> m == |Flatten(tree)|
    {
    }

    lemma TerminalOr(prev: Iterator, succ: Iterator, k: nat)
      requires Valid() && k <= |Flatten(tree)| && (if k == 0 then prev == Terminal else Names(tree, prev, k - 1))
      requires if k == |Flatten(tree)| then succ == Terminal else Names(tree, succ, k)
      ensures (prev == Terminal <==> k == 0) && (succ == Terminal <==> k == |Flatten(tree)|)
    {
    }

    lemma NamesReal(seg: Iterator, m: nat)
      requires seg == Terminal
      ensures !Names(tree, seg, m)
    {
    }

    method RemoveFromLeaf(seg: Iterator, ghost p: seq<nat>, ghost m: nat) returns (gap: Gap)
      requires Valid() && seg.Segment? && Path(tree, p) && At(tree, p).kids == [] && At(tree, p).ref == seg.node
      requires After(tree, p, seg.index, m) && seg.index < |At(tree, p).elems|
      modifies `heap, `tree, `height
      ensures Valid() && m < |old(Flatten(tree))| && Flatten(tree) == TakeOut(old(Flatten(tree)), m)
      ensures m < |Gaps(tree)| && Gaps(tree)[m] == gap
    {
      hide *;
      ValidParts();
      StoredParts(heap, next, tree, height);
      ghost var x, t := At(tree, p), tree;
      NodeAt(heap, next, t, height, p);
      var elems := heap[seg.node].elems;
      TakeShrinks(elems, seg.index);
      LeafTake(t, height, p, seg.index, m);
      PathShape(t, height, p, x.(elems := TakeOut(x.elems, seg.index)));
      ElementsSet(heap, next, t, height, p, TakeOut(x.elems, seg.index));
      ShrunkDense(t, p, TakeOut(x.elems, seg.index));
      heap := heap[seg.node := heap[seg.node].(elems := elems[..seg.index] + elems[seg.index + 1..])];
      tree := Replace(t, p, x.(elems := TakeOut(x.elems, seg.index)));
      NowStructured();
      NowShort(p);
      StoredParts(heap, next, tree, height);
      AheadParts(tree, p, seg.index, m);
      GapNumber(tree, height, p, seg.index, m);
      OwnGapSafe(tree, p, Gap(seg.node, seg.index));
      gap := RebalanceAfterRemove(seg.node, Gap(seg.node, seg.index), p, m);
    }

    /** Removes element number `m`; the gap returned is where it was. */
    method Remove(seg: Iterator, ghost m: nat) returns (gap: Gap)
      requires Valid() && Names(tree, seg, m)
      modifies `heap, `tree, `height
      ensures Valid() && m < |old(Flatten(tree))| && Flatten(tree) == TakeOut(old(Flatten(tree)), m)
      ensures m < |Gaps(tree)| && Gaps(tree)[m] == gap
      decreases if seg.Segment? && seg.node in heap && heap[seg.node].kids == [] then 0 else 1
    {
      hide *;
      ValidParts();
      StoredParts(heap, next, tree, height);
      ghost var p := NamesWhere(tree, seg, m);
      NamesElement(tree, height, p, seg.index, m);
      NodeAt(heap, next, tree, height, p);
      if heap[seg.node].kids != [] {
        ghost var f, t := Flatten(tree), tree;
        var victim := PrevSegment(seg, m);
        ghost var q := NamesWhere(tree, victim, m - 1);
        NamesElement(tree, height, q, victim.index, m - 1);
        NodeAt(heap, next, tree, height, q);
        SetElement(seg, heap[victim.node].elems[victim.index], m);
        AlikeNames(t, tree, victim, m - 1);
        gap := Remove(victim, m - 1);
        TakeStolen(f, m);
        TakeShrinks(f, m);
        var found;
        found, gap := NextGapOf(gap, m - 1);
        return;
      }
      gap := RemoveFromLeaf(seg, p, m);
    }

    /** The element an iterator points at. */
    function Element(seg: Iterator): E
      requires seg.Segment? && seg.node in heap && seg.index < |heap[seg.node].elems|
      reads this
    {
      heap[seg.node].elems[seg.index]
    }

    lemma ElementIs(seg: Iterator, m: nat)
      requires Valid() && Names(tree, seg, m)
      ensures seg.Segment? && seg.node in heap && seg.index < |heap[seg.node].elems|
      ensures m < |Flatten(tree)| && Element(seg) == Flatten(tree)[m]
    {
      ValidParts();
      StoredParts(heap, next, tree, height);
      var p := NamesWhere(tree, seg, m);
      NodeAt(heap, next, tree, height, p);
      NamesElement(tree, height, p, seg.index, m);
    }

    /** The first segment of the whole tree. */
    method First() returns (seg: Iterator)
      requires Valid()
      ensures if Flatten(tree) == [] then seg == Terminal else Names(tree, seg, 0)
    {
      hide *;
      ValidParts();
      StoredParts(heap, next, tree, height);
      TopPath(tree, []);
      NodeAt(heap, next, tree, height, []);
      TopAhead(tree, height);
      if heap[root].elems == [] {
        return Terminal;
      }
      ghost var q;
      seg, q := FirstSegment(root, [], 0);
      NamesElement(tree, height, q, seg.index, 0);
    }
  }
}

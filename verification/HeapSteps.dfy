/** The B-tree in the heap: that each local step of rebalancing leaves a stored tree, and
    what a stored tree looks like from a node. */
module HeapSteps {
  import opened BTree
  import opened Positions
  import opened Restructure
  import opened GapMoves
  import opened Wiring
  import opened Updates
  import opened Rebalance
  import opened Iterators

  /** The heap holds `t`, a tree of height `h` with distinct nodes and an unlinked root;
      addresses from `next` on are unused. */
  ghost predicate Stored<E>(heap: Heap<E>, next: Ref, t: Tree<E>, h: nat) {
    && Linked(heap, t) && Distinct(t) && Shape(t, h)
    && t.ref in heap && heap[t.ref].link == Root
    && forall r :: r in heap ==> r < next
  }

  /** A step that exchanges the subtree at `p`, keeping its address and link. */
  ghost predicate Exchanged<E>(heap: Heap<E>, heap': Heap<E>, next: Ref, next': Ref, u: Tree<E>, s: Tree<E>) {
    && Linked(heap', s) && Distinct(s) && s.ref == u.ref
    && s.ref in heap && heap'[s.ref].link == heap[s.ref].link
    && (forall r :: r in AllRefs(s) ==> r in AllRefs(u) || next <= r)
    && (forall r :: r in heap && r !in AllRefs(u) ==> r in heap' && heap'[r] == heap[r])
    && (forall r :: r in heap' ==> r < next')
  }

  lemma Installed<E>(heap: Heap<E>, heap': Heap<E>, next: Ref, next': Ref, t: Tree<E>, h: nat, p: seq<nat>, s: Tree<E>)
    requires Stored(heap, next, t, h) && Path(t, p) && |p| <= h && Shape(s, h - |p|)
    requires Exchanged(heap, heap', next, next', At(t, p), s)
    ensures Stored(heap', next', Replace(t, p, s), h) && Replace(t, p, s).ref == t.ref
  {
    ReplaceShape(t, h, p, s);
    ReplaceRefs(t, p, s);
    LinkedRefs(heap, t);
    assert AllRefs(s) !! (AllRefs(t) - AllRefs(At(t, p)));
    LinkedReplace(heap, heap', t, p, s);
    hide Linked, Distinct, Shape, AllRefs;
    TopKept(t, p, s);
  }

  lemma TopKept<E>(t: Tree<E>, p: seq<nat>, s: Tree<E>)
    requires Path(t, p) && s.ref == At(t, p).ref
    ensures Replace(t, p, s).ref == t.ref
  {
  }

  lemma InstalledTop<E>(heap: Heap<E>, heap': Heap<E>, next: Ref, next': Ref, t: Tree<E>, h: nat, s: Tree<E>, h': nat)
    requires Stored(heap, next, t, h) && Exchanged(heap, heap', next, next', t, s) && Shape(s, h')
    ensures Stored(heap', next', s, h') && s.ref == t.ref
  {
  }

  // ----- steps on the heap -----

  lemma StaysHeld<E>(h: Heap<E>, t: Tree<E>, n: nat)
    requires LinksTo(h, t, n)
    ensures Holds(h, t)
  {
  }

  lemma LinkKept<E>(h0: Heap<E>, h1: Heap<E>, u: Tree<E>, from: nat, r: Ref)
    requires Holds(h0, u) && Relinked(h0, h1, u.ref, from) && r in h0 && forall j :: 0 <= j < |u.kids| ==> u.kids[j].ref != r
    ensures r in h1 && h1[r] == h0[r]
  {
  }

  /** The link of the top node survives setting the links below it. */
  lemma TopLinkTwo<E>(h1: Heap<E>, h2: Heap<E>, h3: Heap<E>, h4: Heap<E>, t: Tree<E>, i: nat, ft: nat, fa: nat, fb: nat)
    requires i + 1 < |t.kids| && Distinct(t) && t.ref in h1
    requires Holds(h1, t) && Holds(h2, t.kids[i]) && Holds(h3, t.kids[i + 1])
    requires Relinked(h1, h2, t.ref, ft) && Relinked(h2, h3, t.kids[i].ref, fa) && Relinked(h3, h4, t.kids[i + 1].ref, fb)
    ensures t.ref in h4 && h4[t.ref] == h1[t.ref] && h4.Keys == h1.Keys
  {
    AboveBelow(t, i);
    AboveBelow(t, i + 1);
    hide Distinct, TopsApart, TopsDiffer, Holds;
    LinkKept(h1, h2, t, ft, t.ref);
    LinkKept(h2, h3, t.kids[i], fa, t.ref);
    LinkKept(h3, h4, t.kids[i + 1], fb, t.ref);
  }

  /** A step that leaves two new children: the exchange is complete. */
  lemma ExchangedTwo<E>(h: Heap<E>, h1: Heap<E>, h4: Heap<E>, next: Ref, next': Ref, t: Tree<E>, t': Tree<E>, i: nat)
    requires i + 1 < |t'.kids| && t'.ref == t.ref && t.ref in h && t.ref in h1 && t.ref in h4
    requires Linked(h4, t') && Distinct(t') && h1[t.ref].link == h[t.ref].link && h4[t.ref] == h1[t.ref]
    requires KidRefs(SpreadTwo(t', i)) <= AllRefs(t)
    requires t'.kids[i].ref in AllRefs(t) || (t'.kids[i].ref !in h && next <= t'.kids[i].ref)
    requires t'.kids[i + 1].ref in AllRefs(t) || (t'.kids[i + 1].ref !in h && next <= t'.kids[i + 1].ref)
    requires OnlyLinks(h, h4, {t'.ref, t'.kids[i].ref, t'.kids[i + 1].ref}, Tops(SpreadTwo(t', i)))
    requires h4.Keys == h1.Keys && forall r :: r in h1 ==> r < next'
    ensures Exchanged(h, h4, next, next', t, t')
  {
    var parts := SpreadTwo(t', i);
    SpreadTwoRefs(t', i);
    forall r | r in Tops(parts) ensures r in KidRefs(parts) {
      var m: nat :| m < |parts| && parts[m].ref == r;
      PartTop(parts, m);
    }
    assert t.ref in AllRefs(t);
    hide Linked, Distinct, AllRefs, KidRefs, SpreadTwo, Tops;
  }

  /** What a step may rely on: the subtree `t`, stored below its parent. */
  ghost predicate Standing<E>(h: Heap<E>, next: Ref, t: Tree<E>, height: nat) {
    Linked(h, t) && Distinct(t) && Shape(t, height) && t.ref in h && forall r :: r in h ==> r < next
  }

  lemma StandingAt<E>(heap: Heap<E>, next: Ref, t: Tree<E>, h: nat, p: seq<nat>)
    requires Stored(heap, next, t, h) && Path(t, p)
    ensures |p| <= h && Standing(heap, next, At(t, p), h - |p|)
  {
    PathContext(t, h, p);
    LinkedAt(heap, t, p);
    ReplaceRefs(t, p, t);
    LinkedRefs(heap, t);
    AtIn(t, p);
  }

  lemma OnlyTouched<E>(h: Heap<E>, h1: Heap<E>, touched: set<Ref>, tops: set<Ref>)
    requires forall r :: r in h && r !in touched ==> r in h1 && h1[r] == h[r]
    ensures OnlyLinks(h, h1, touched, tops)
  {
  }

  /** The nodes of a step with two new children are in place, but for links to set. */
  ghost predicate ReadyTwo<E>(h: Heap<E>, h1: Heap<E>, next: Ref, next': Ref, t: Tree<E>, t': Tree<E>, i: nat, ft: nat, fa: nat, fb: nat) {
    && i + 1 < |t'.kids| && t'.ref == t.ref && t.ref in h && t.ref in h1 && h1[t.ref].link == h[t.ref].link
    && Distinct(t') && KidRefs(SpreadTwo(t', i)) <= AllRefs(t)
    && (forall m :: 0 <= m < |SpreadTwo(t', i)| ==> Linked(h, SpreadTwo(t', i)[m]))
    && OnlyLinks(h, h1, {t'.ref, t'.kids[i].ref, t'.kids[i + 1].ref}, Tops(SpreadTwo(t', i)))
    && LinksTo(h1, t', ft) && LinksTo(h1, t'.kids[i], fa) && LinksTo(h1, t'.kids[i + 1], fb)
    && (t'.kids[i].ref in AllRefs(t) || (t'.kids[i].ref !in h && next <= t'.kids[i].ref))
    && (t'.kids[i + 1].ref in AllRefs(t) || (t'.kids[i + 1].ref !in h && next <= t'.kids[i + 1].ref))
    && (forall r :: r in h1 ==> r < next')
  }

  /** Links from `from` on are set, or all were already. */
  ghost predicate Relinks<E>(h0: Heap<E>, h1: Heap<E>, t: Tree<E>, from: nat) {
    Relinked(h0, h1, t.ref, from) || (h1 == h0 && from == |t.kids|)
  }

  lemma RelinksIs<E>(h0: Heap<E>, h1: Heap<E>, t: Tree<E>, from: nat)
    requires Holds(h0, t) && Relinks(h0, h1, t, from)
    ensures Relinked(h0, h1, t.ref, from)
  {
  }

  lemma RelinksThree<E>(h1: Heap<E>, h2: Heap<E>, h3: Heap<E>, h4: Heap<E>, t: Tree<E>, i: nat, ft: nat, fa: nat, fb: nat)
    requires i + 1 < |t.kids| && Distinct(t) && LinksTo(h1, t, ft) && LinksTo(h1, t.kids[i], fa) && LinksTo(h1, t.kids[i + 1], fb)
    requires Relinks(h1, h2, t, ft) && Relinks(h2, h3, t.kids[i], fa) && Relinks(h3, h4, t.kids[i + 1], fb)
    ensures Holds(h1, t) && Holds(h2, t.kids[i]) && Holds(h3, t.kids[i + 1])
    ensures Relinked(h1, h2, t.ref, ft) && Relinked(h2, h3, t.kids[i].ref, fa) && Relinked(h3, h4, t.kids[i + 1].ref, fb)
  {
    hide *;
    var a, b := t.kids[i], t.kids[i + 1];
    ApartTwo(t, i);
    ApartBack(t.kids, a.kids);
    ApartBack(t.kids, b.kids);
    ApartBack(a.kids, b.kids);
    StaysHeld(h1, t, ft);
    RelinksIs(h1, h2, t, ft);
    LinksStay(h1, h2, a, fa, t, ft);
    LinksStay(h1, h2, b, fb, t, ft);
    StaysHeld(h2, a, fa);
    RelinksIs(h2, h3, a, fa);
    LinksStay(h2, h3, b, fb, a, fa);
    StaysHeld(h3, b, fb);
    RelinksIs(h3, h4, b, fb);
  }

  lemma FinishTwo<E>(h: Heap<E>, h1: Heap<E>, h2: Heap<E>, h3: Heap<E>, h4: Heap<E>, next: Ref, next': Ref,
                     t: Tree<E>, t': Tree<E>, i: nat, ft: nat, fa: nat, fb: nat)
    requires ReadyTwo(h, h1, next, next', t, t', i, ft, fa, fb)
    requires Relinks(h1, h2, t', ft) && Relinks(h2, h3, t'.kids[i], fa) && Relinks(h3, h4, t'.kids[i + 1], fb)
    ensures Exchanged(h, h4, next, next', t, t')
  {
    ReadyFacts(h, h1, next, next', t, t', i, ft, fa, fb);
    hide *;
    RelinksThree(h1, h2, h3, h4, t', i, ft, fa, fb);
    SettleTwo(h, h1, h2, h3, h4, t', i, ft, fa, fb);
    TopLinkTwo(h1, h2, h3, h4, t', i, ft, fa, fb);
    ExchangedTwo(h, h1, h4, next, next', t, t', i);
  }

  lemma ReadyFacts<E>(h: Heap<E>, h1: Heap<E>, next: Ref, next': Ref, t: Tree<E>, t': Tree<E>, i: nat, ft: nat, fa: nat, fb: nat)
    requires ReadyTwo(h, h1, next, next', t, t', i, ft, fa, fb)
    ensures i + 1 < |t'.kids| && t'.ref == t.ref && t.ref in h && t.ref in h1 && h1[t.ref].link == h[t.ref].link
    ensures Distinct(t') && KidRefs(SpreadTwo(t', i)) <= AllRefs(t)
    ensures forall m :: 0 <= m < |SpreadTwo(t', i)| ==> Linked(h, SpreadTwo(t', i)[m])
    ensures OnlyLinks(h, h1, {t'.ref, t'.kids[i].ref, t'.kids[i + 1].ref}, Tops(SpreadTwo(t', i)))
    ensures LinksTo(h1, t', ft) && LinksTo(h1, t'.kids[i], fa) && LinksTo(h1, t'.kids[i + 1], fb)
    ensures t'.kids[i].ref in AllRefs(t) || (t'.kids[i].ref !in h && next <= t'.kids[i].ref)
    ensures t'.kids[i + 1].ref in AllRefs(t) || (t'.kids[i + 1].ref !in h && next <= t'.kids[i + 1].ref)
    ensures forall r :: r in h1 ==> r < next'
  {
    hide Distinct, KidRefs, AllRefs, Linked, OnlyLinks, LinksTo, SpreadTwo, Tops;
  }

  ghost predicate Untouched<E>(h: Heap<E>, h1: Heap<E>, next': Ref, top: Ref, touched: set<Ref>) {
    && top in h && top in h1 && h1[top].link == h[top].link
    && (forall r :: r in h && r !in touched ==> r in h1 && h1[r] == h[r])
    && (forall r :: r in h1 ==> r < next')
  }

  lemma ReadyNow<E>(h: Heap<E>, h1: Heap<E>, next: Ref, next': Ref, t: Tree<E>, t': Tree<E>, i: nat, ft: nat, fa: nat, fb: nat, parts: seq<Tree<E>>)
    requires i + 1 < |t'.kids| && t'.ref == t.ref && Distinct(t') && SpreadTwo(t', i) == parts && KidRefs(parts) <= AllRefs(t)
    requires forall m :: 0 <= m < |parts| ==> Linked(h, parts[m])
    requires Untouched(h, h1, next', t.ref, {t'.ref, t'.kids[i].ref, t'.kids[i + 1].ref})
    requires LinksTo(h1, t', ft) && LinksTo(h1, t'.kids[i], fa) && LinksTo(h1, t'.kids[i + 1], fb)
    requires t'.kids[i].ref in AllRefs(t) || (t'.kids[i].ref !in h && next <= t'.kids[i].ref)
    requires t'.kids[i + 1].ref in AllRefs(t) || (t'.kids[i + 1].ref !in h && next <= t'.kids[i + 1].ref)
    ensures ReadyTwo(h, h1, next, next', t, t', i, ft, fa, fb)
  {
    hide Distinct, KidRefs, AllRefs, Linked, LinksTo, SpreadTwo, Tops;
    OnlyTouched(h, h1, {t'.ref, t'.kids[i].ref, t'.kids[i + 1].ref}, Tops(parts));
  }

  lemma SplitKidTouches<E>(h: Heap<E>, next: Ref, t: Tree<E>, i: nat)
    requires FullKid(h, t, i) && t.ref != t.kids[i].ref && forall r :: r in h ==> r < next
    ensures Untouched(h, SplitKidHeap(h, t.ref, i, t.kids[i].ref, next), next + 1, t.ref, {t.ref, t.kids[i].ref, next})
  {
    hide Distinct, Shaped, Front, Rear;
  }

  lemma SplitKidRefs<E>(t: Tree<E>, i: nat, s: Ref)
    requires |t.kids| == |t.elems| + 1 && i < |t.kids| && |t.kids[i].elems| == MAX_DEGREE - 1 && Shaped(t.kids[i])
    requires Distinct(t) && s !in AllRefs(t)
    ensures var t' := SplitKid(t, i, s);
            && Distinct(t') && SpreadTwo(t', i) == Spread(t, i) && KidRefs(Spread(t, i)) <= AllRefs(t)
            && |t'.kids| == |t.kids| + 1 && t'.ref == t.ref && t'.kids[i].ref == t.kids[i].ref && t'.kids[i + 1].ref == s
            && t.kids[i].ref in AllRefs(t) && t.ref != t.kids[i].ref
  {
    var t' := SplitKid(t, i, s);
    SplitKidParts(t, i, s);
    SpreadRefs(t, i);
    SpreadTwoRefs(t', i);
    hide Distinct, AllRefs, KidRefs, DistinctKids, Spread, SpreadTwo;
    assert t'.kids[i].ref == t.kids[i].ref && t'.kids[i + 1].ref == s;
  }

  lemma FreshAbove<E>(h: Heap<E>, next: Ref, t: Tree<E>, height: nat)
    requires Standing(h, next, t, height)
    ensures Linked(h, t) && Shaped(t) && Distinct(t) && forall m :: 0 <= m < |t.kids| ==> Linked(h, t.kids[m])
    ensures (forall r :: r in h ==> r < next) && next !in h && next + 1 !in h && next !in AllRefs(t) && next + 1 !in AllRefs(t)
  {
    LinkedRefs(h, t);
  }

  lemma FullKidFacts<E>(h: Heap<E>, t: Tree<E>, i: nat)
    requires FullKid(h, t, i)
    ensures |t.kids| == |t.elems| + 1 && i < |t.kids| && |t.kids[i].elems| == MAX_DEGREE - 1 && Shaped(t.kids[i])
    ensures t.ref in h && h[t.ref].elems == t.elems && |h[t.ref].kids| == |t.kids|
    ensures t.kids[i].ref in h && h[t.kids[i].ref].elems == t.kids[i].elems
  {
  }

  lemma SplitKidReady<E>(h: Heap<E>, next: Ref, t: Tree<E>, height: nat, i: nat)
    requires height > 0 && Standing(h, next, t, height) && FullKid(h, t, i)
    ensures var t' := SplitKid(t, i, next);
            ReadyTwo(h, SplitKidHeap(h, t.ref, i, t.kids[i].ref, next), next, next + 1, t, t', i, i + 2, |t'.kids[i].kids|, 0)
  {
    hide *;
    FullKidFacts(h, t, i);
    var k, t' := t.kids[i], SplitKid(t, i, next);
    var h1 := SplitKidHeap(h, t.ref, i, k.ref, next);
    FreshAbove(h, next, t, height);
    SpreadLinked(h, t, i);
    SplitKidRefs(t, i, next);
    SplitKidTouches(h, next, t, i);
    SplitKidParent(h, t, i, next);
    SplitKidHalves(h, t, i, next);
    ReadyNow(h, h1, next, next + 1, t, t', i, i + 2, |t'.kids[i].kids|, 0, Spread(t, i));
  }

  lemma SplitTopTouches<E>(h: Heap<E>, next: Ref, t: Tree<E>)
    requires Wired(h, t) && |t.elems| == MAX_DEGREE - 1 && forall r :: r in h ==> r < next
    ensures Untouched(h, SplitTopHeap(h, t.ref, next, next + 1), next + 2, t.ref, {t.ref, next, next + 1})
  {
    hide Front, Rear;
  }

  lemma SplitTopRefs<E>(t: Tree<E>, l: Ref, r: Ref)
    requires |t.elems| == MAX_DEGREE - 1 && Shaped(t) && Distinct(t) && l !in AllRefs(t) && r !in AllRefs(t) && l != r
    ensures var t' := SplitTop(t, l, r);
            && Distinct(t') && SpreadTwo(t', 0) == t.kids && KidRefs(t.kids) <= AllRefs(t)
            && |t'.kids| == 2 && t'.ref == t.ref && t'.kids[0].ref == l && t'.kids[1].ref == r
  {
    SplitTopParts(t, l, r);
    SpreadTwoRefs(SplitTop(t, l, r), 0);
    assert AllRefs(t) == {t.ref} + KidRefs(t.kids);
  }

  lemma WiredTop<E>(h: Heap<E>, t: Tree<E>)
    requires Wired(h, t)
    ensures t.ref in h && h[t.ref].elems == t.elems && |h[t.ref].kids| == |t.kids|
    ensures forall j :: 0 <= j < |t.kids| ==> h[t.ref].kids[j] == t.kids[j].ref
  {
  }

  lemma SplitTopReady<E>(h: Heap<E>, next: Ref, t: Tree<E>, height: nat)
    requires Standing(h, next, t, height) && |t.elems| == MAX_DEGREE - 1 && Wired(h, t)
    ensures ReadyTwo(h, SplitTopHeap(h, t.ref, next, next + 1), next, next + 2, t, SplitTop(t, next, next + 1), 0, 2, 0, 0)
  {
    hide *;
    WiredTop(h, t);
    var h1, t' := SplitTopHeap(h, t.ref, next, next + 1), SplitTop(t, next, next + 1);
    FreshAbove(h, next, t, height);
    SplitTopRefs(t, next, next + 1);
    SplitTopTouches(h, next, t);
    SplitTopStored(h, t, next, next + 1);
    ReadyNow(h, h1, next, next + 2, t, t', 0, 2, 0, 0, t.kids);
  }

  ghost predicate Level<E>(t: Tree<E>, i: nat) {
    && |t.kids| == |t.elems| + 1 && i < |t.elems| && Shaped(t.kids[i]) && Shaped(t.kids[i + 1])
    && (t.kids[i].kids == [] <==> t.kids[i + 1].kids == [])
  }

  lemma PairOf<E>(h: Heap<E>, next: Ref, t: Tree<E>, height: nat, i: nat)
    requires height > 0 && Standing(h, next, t, height) && i < |t.elems|
    ensures Pair(h, t, i) && Level(t, i)
  {
    LinkedIsWired(h, t);
    assert Shape(t.kids[i], height - 1) && Shape(t.kids[i + 1], height - 1);
  }

  lemma RotateRightTouches<E>(h: Heap<E>, next: Ref, t: Tree<E>, i: nat)
    requires Pair(h, t, i) && |t.kids[i].elems| > 0 && t.ref != t.kids[i].ref && t.ref != t.kids[i + 1].ref
    requires forall r :: r in h ==> r < next
    ensures Untouched(h, RotateRightHeap(h, t.ref, i, t.kids[i].ref, t.kids[i + 1].ref), next, t.ref, {t.ref, t.kids[i].ref, t.kids[i + 1].ref})
  {
    hide Distinct, Front, Rear;
  }

  lemma RotateRightRefs<E>(t: Tree<E>, i: nat)
    requires Level(t, i) && |t.kids[i].elems| > 0 && Distinct(t)
    ensures var t' := RotateRight(t, i);
            && Distinct(t') && SpreadTwo(t', i) == SpreadTwo(t, i) && KidRefs(SpreadTwo(t, i)) <= AllRefs(t)
            && |t'.kids| == |t.kids| && t'.ref == t.ref && t'.kids[i].ref == t.kids[i].ref && t'.kids[i + 1].ref == t.kids[i + 1].ref
            && t.kids[i].ref in AllRefs(t) && t.kids[i + 1].ref in AllRefs(t)
            && t.ref != t.kids[i].ref && t.ref != t.kids[i + 1].ref && t.kids[i].ref != t.kids[i + 1].ref
  {
    var t' := RotateRight(t, i);
    RotateRightParts(t, i);
    SpreadTwoRefs(t, i);
    SpreadTwoRefs(t', i);
    hide Distinct, AllRefs, KidRefs, DistinctKids, SpreadTwo;
    assert t'.kids[i].ref == t.kids[i].ref && t'.kids[i + 1].ref == t.kids[i + 1].ref;
  }

  lemma RotateRightReady<E>(h: Heap<E>, next: Ref, t: Tree<E>, height: nat, i: nat)
    requires height > 0 && Standing(h, next, t, height) && i < |t.elems| && |t.kids[i].elems| > 0 && Pair(h, t, i)
    ensures var h1, t' := RotateRightHeap(h, t.ref, i, t.kids[i].ref, t.kids[i + 1].ref), RotateRight(t, i);
            ReadyTwo(h, h1, next, next, t, t', i, |t'.kids|, |t'.kids[i].kids|, 0)
  {
    var a, b, t' := t.kids[i], t.kids[i + 1], RotateRight(t, i);
    var h1 := RotateRightHeap(h, t.ref, i, a.ref, b.ref);
    RotateRightRefs(t, i);
    RotateRightTouches(h, next, t, i);
    SpreadTwoLinked(h, t, i);
    RotateRightParent(h, t, i);
    RotateRightKids(h, t, i);
    hide *;
    ReadyNow(h, h1, next, next, t, t', i, |t'.kids|, |t'.kids[i].kids|, 0, SpreadTwo(t, i));
  }

  lemma RotateLeftTouches<E>(h: Heap<E>, next: Ref, t: Tree<E>, i: nat)
    requires Pair(h, t, i) && |t.kids[i + 1].elems| > 0 && t.ref != t.kids[i].ref && t.ref != t.kids[i + 1].ref
    requires forall r :: r in h ==> r < next
    ensures Untouched(h, RotateLeftHeap(h, t.ref, i, t.kids[i].ref, t.kids[i + 1].ref), next, t.ref, {t.ref, t.kids[i].ref, t.kids[i + 1].ref})
  {
    hide Distinct, Front, Rear;
  }

  lemma RotateLeftRefs<E>(t: Tree<E>, i: nat)
    requires Level(t, i) && |t.kids[i + 1].elems| > 0 && Distinct(t)
    ensures var t' := RotateLeft(t, i);
            && Distinct(t') && SpreadTwo(t', i) == SpreadTwo(t, i) && KidRefs(SpreadTwo(t, i)) <= AllRefs(t)
            && |t'.kids| == |t.kids| && t'.ref == t.ref && t'.kids[i].ref == t.kids[i].ref && t'.kids[i + 1].ref == t.kids[i + 1].ref
            && t.kids[i].ref in AllRefs(t) && t.kids[i + 1].ref in AllRefs(t)
            && t.ref != t.kids[i].ref && t.ref != t.kids[i + 1].ref && t.kids[i].ref != t.kids[i + 1].ref
  {
    var t' := RotateLeft(t, i);
    RotateLeftParts(t, i);
    SpreadTwoRefs(t, i);
    SpreadTwoRefs(t', i);
    hide Distinct, AllRefs, KidRefs, DistinctKids, SpreadTwo;
    assert t'.kids[i].ref == t.kids[i].ref && t'.kids[i + 1].ref == t.kids[i + 1].ref;
  }

  lemma RotateLeftReady<E>(h: Heap<E>, next: Ref, t: Tree<E>, height: nat, i: nat)
    requires height > 0 && Standing(h, next, t, height) && i < |t.elems| && |t.kids[i + 1].elems| > 0 && Pair(h, t, i)
    ensures var h1, t' := RotateLeftHeap(h, t.ref, i, t.kids[i].ref, t.kids[i + 1].ref), RotateLeft(t, i);
            ReadyTwo(h, h1, next, next, t, t', i, |t'.kids|, |t.kids[i].kids|, 0)
  {
    var a, b, t' := t.kids[i], t.kids[i + 1], RotateLeft(t, i);
    var h1 := RotateLeftHeap(h, t.ref, i, a.ref, b.ref);
    RotateLeftRefs(t, i);
    RotateLeftTouches(h, next, t, i);
    SpreadTwoLinked(h, t, i);
    RotateLeftParent(h, t, i);
    RotateLeftKids(h, t, i);
    hide *;
    ReadyNow(h, h1, next, next, t, t', i, |t'.kids|, |t.kids[i].kids|, 0, SpreadTwo(t, i));
  }

  lemma ExchangedOne<E>(h: Heap<E>, h1: Heap<E>, h3: Heap<E>, next: Ref, t: Tree<E>, t': Tree<E>, parts: seq<Tree<E>>, touched: set<Ref>)
    requires t'.ref == t.ref && t.ref in h && t.ref in h1 && t.ref in h3
    requires Linked(h3, t') && Distinct(t') && h1[t.ref].link == h[t.ref].link && h3[t.ref] == h1[t.ref]
    requires AllRefs(t') <= AllRefs(t) && KidRefs(parts) <= AllRefs(t) && touched <= AllRefs(t)
    requires OnlyLinks(h, h3, touched, Tops(parts))
    requires h3.Keys == h1.Keys && forall r :: r in h1 ==> r < next
    ensures Exchanged(h, h3, next, next, t, t')
  {
    forall r | r in Tops(parts) ensures r in KidRefs(parts) {
      var m: nat :| m < |parts| && parts[m].ref == r;
      PartTop(parts, m);
    }
    hide Linked, Distinct, AllRefs, KidRefs, Tops;
  }

  lemma JoinDone<E>(h: Heap<E>, h1: Heap<E>, h2: Heap<E>, h3: Heap<E>, next: Ref, t: Tree<E>, height: nat, i: nat)
    requires height > 0 && Standing(h, next, t, height) && i < |t.elems|
    requires Pair(h, t, i) && h1 == JoinHeap(h, t.ref, i, t.kids[i].ref, t.kids[i + 1].ref)
    requires Relinked(h1, h2, t.kids[i].ref, |t.kids[i].kids|) && Relinked(h2, h3, t.ref, 0)
    ensures Exchanged(h, h3, next, next, t, JoinKids(t, i))
  {
    var a, b, t' := t.kids[i], t.kids[i + 1], JoinKids(t, i);
    var parts, touched := SpreadTwo(t, i), {t.ref, a.ref, b.ref};
    LinkedRefs(h, t);
    JoinParts(t, i);
    SpreadTwoRefs(t, i);
    SpreadRefs(t', i);
    SpreadTwoLinked(h, t, i);
    JoinStored(h, t, i);
    OnlyTouched(h, h1, touched, Tops(parts));
    AboveBelow(t', i);
    LinksStay(h1, h2, t', 0, t'.kids[i], |a.kids|);
    LinkKept(h1, h2, t'.kids[i], |a.kids|, t.ref);
    LinkKept(h2, h3, t', 0, t.ref);
    SettleOne(h, h1, h2, h3, t', i, |a.kids|, 0, b.ref);
    ExchangedOne(h, h1, h3, next, t, t', parts, touched);
  }

  lemma UnsplitRefs<E>(t: Tree<E>)
    requires |t.elems| == 1 && |t.kids| == 2 && Distinct(t)
    ensures var t' := Join(t, 0, t.ref);
            && SpreadTwo(t, 0) == t'.kids && Distinct(t') && AllRefs(t') <= AllRefs(t) && KidRefs(t'.kids) <= AllRefs(t)
            && t.kids[0].ref in AllRefs(t) && t.kids[1].ref in AllRefs(t) && t.ref in AllRefs(t)
            && {t.ref, t.kids[0].ref, t.kids[1].ref} !! KidRefs(t'.kids)
            && forall j :: 0 <= j < |t'.kids| ==> t'.kids[j].ref != t.ref
  {
    var t' := Join(t, 0, t.ref);
    assert SpreadTwo(t, 0) == t'.kids;
    SpreadTwoRefs(t, 0);
    forall j: nat | j < |t'.kids| ensures t'.kids[j].ref != t.ref { PartTop(t'.kids, j); }
  }

  lemma UnsplitDone<E>(h: Heap<E>, h1: Heap<E>, h2: Heap<E>, next: Ref, t: Tree<E>, height: nat)
    requires height > 0 && Standing(h, next, t, height) && |t.elems| == 1
    requires Pair(h, t, 0) && h1 == UnsplitHeap(h, t.ref, t.kids[0].ref, t.kids[1].ref)
    requires Relinked(h1, h2, t.ref, 0)
    ensures Exchanged(h, h2, next, next, t, Join(t, 0, t.ref))
  {
    var a, b, t' := t.kids[0], t.kids[1], Join(t, 0, t.ref);
    var touched := {t.ref, a.ref, b.ref};
    UnsplitRefs(t);
    SpreadTwoLinked(h, t, 0);
    UnsplitStored(h, t);
    OnlyTouched(h, h1, touched, Tops(t'.kids));
    StaysHeld(h1, t', 0);
    LinkKept(h1, h2, t', 0, t.ref);
    assert h2.Keys == h1.Keys && h1.Keys == h.Keys && h1[t.ref].link == h[t.ref].link && t'.ref == t.ref;
    hide Linked, Distinct, AllRefs, KidRefs, Shape, LinksTo, SpreadTwo, Tops, OnlyLinks, Pair, Wired, Join, UnsplitHeap, Relinked, Exchanged;
    SettleTop(h, h1, h2, t', touched);
    ExchangedOne(h, h1, h2, next, t, t', t'.kids, touched);
  }

  /** The children of `p` from `from` on are there, and different. */
  ghost predicate CanRelink<E>(h: Heap<E>, p: Ref, from: nat) {
    && p in h && from <= |h[p].kids|
    && (forall j :: from <= j < |h[p].kids| ==> h[p].kids[j] in h)
    && (forall i, j :: from <= i < j < |h[p].kids| ==> h[p].kids[i] != h[p].kids[j])
  }

  lemma CanStill<E>(h: Heap<E>, h': Heap<E>, p: Ref, from: nat, q: Ref, from': nat)
    requires CanRelink(h, p, from) && Relinked(h, h', q, from')
    ensures CanRelink(h', p, from)
  {
  }

  lemma CanHeld<E>(h: Heap<E>, t: Tree<E>, n: nat, from: nat)
    requires LinksTo(h, t, n) && TopsDiffer(t.kids) && from <= |t.kids|
    ensures CanRelink(h, t.ref, from)
  {
  }

  lemma ReadyRelinks<E>(h: Heap<E>, h1: Heap<E>, next: Ref, next': Ref, t: Tree<E>, t': Tree<E>, i: nat, ft: nat, fa: nat, fb: nat)
    requires ReadyTwo(h, h1, next, next', t, t', i, ft, fa, fb)
    ensures CanRelink(h1, t'.ref, ft) && CanRelink(h1, t'.kids[i].ref, fa) && CanRelink(h1, t'.kids[i + 1].ref, fb)
  {
    ReadyFacts(h, h1, next, next', t, t', i, ft, fa, fb);
    ApartTwo(t', i);
    hide Distinct, AllRefs, KidRefs, Linked, OnlyLinks, SpreadTwo, Tops, TopsDiffer, TopsApart, CanRelink;
    CanHeld(h1, t', ft, ft);
    CanHeld(h1, t'.kids[i], fa, fa);
    CanHeld(h1, t'.kids[i + 1], fb, fb);
  }

  lemma SplitKidTops<E>(t: Tree<E>, i: nat, s: Ref)
    requires |t.kids| == |t.elems| + 1 && i < |t.kids| && |t.kids[i].elems| == MAX_DEGREE - 1
    ensures var t' := SplitKid(t, i, s);
            && t'.ref == t.ref && |t'.kids| == |t.kids| + 1 && |t'.elems| == |t.elems| + 1
            && t'.kids[i].ref == t.kids[i].ref && t'.kids[i + 1].ref == s
            && |t'.kids[i].elems| == MIN_DEGREE - 1 && |t'.kids[i + 1].elems| == MIN_DEGREE - 1
  {
  }

  lemma LevelShape<E>(t: Tree<E>, h: nat)
    requires h > 0 && Shape(t, h)
    ensures |t.kids| == |t.elems| + 1 && forall i :: 0 <= i < |t.kids| ==> Shape(t.kids[i], h - 1)
  {
  }

  lemma ShapedBy<E>(t: Tree<E>, h: nat)
    requires Shape(t, h)
    ensures Shaped(t)
  {
  }

  lemma SplitTopGapIs(g: Gap, n: Ref, l: Ref, r: Ref)
    ensures SplitTopGap(g, n, l, r) == if g.node != n then g else if g.index < MIN_DEGREE then Gap(l, g.index) else Gap(r, g.index - MIN_DEGREE)
  {
  }

  lemma SplitGapIs(g: Gap, n: Ref, s: Ref)
    ensures SplitGap(g, n, s) == if g.node != n || g.index < MIN_DEGREE then g else Gap(s, g.index - MIN_DEGREE)
  {
  }

  /** A non-empty root stays non-empty. */
  lemma SplitKidTop<E>(t: Tree<E>, up: seq<nat>, i: nat, s: Ref)
    requires Path(t, up) && |At(t, up).kids| == |At(t, up).elems| + 1 && i < |At(t, up).kids|
    requires |At(t, up).kids[i].elems| == MAX_DEGREE - 1
    ensures var t' := Replace(t, up, SplitKid(At(t, up), i, s));
            (t.kids != [] ==> t.elems != []) ==> (t'.kids != [] ==> t'.elems != [])
  {
  }

  lemma {:induction false} DenseWhole<E>(t: Tree<E>, p: seq<nat>)
    requires Path(t, p) && DenseBut(t, p) && |At(t, p).elems| >= MIN_DEGREE - 1
    ensures Dense(t)
    decreases |p|
  {
    if p != [] {
      DenseWhole(t.kids[p[0]], p[1..]);
      assert |p| == 1 ==> p[1..] == [] && At(t, p) == t.kids[p[0]];
    }
  }

  lemma Degrees()
    ensures MIN_DEGREE == 3 && MAX_DEGREE == 6
  {
  }

  lemma StandingShape<E>(h: Heap<E>, next: Ref, t: Tree<E>, height: nat)
    requires Standing(h, next, t, height)
    ensures Shape(t, height)
  {
  }

  lemma RelinksBy<E>(h0: Heap<E>, h1: Heap<E>, t: Tree<E>, from: nat)
    requires Relinked(h0, h1, t.ref, from)
    ensures Relinks(h0, h1, t, from)
  {
  }

  lemma RelinksNone<E>(h: Heap<E>, t: Tree<E>)
    ensures Relinks(h, h, t, |t.kids|)
  {
  }

  lemma StoredStands<E>(h: Heap<E>, next: Ref, t: Tree<E>, height: nat)
    requires Stored(h, next, t, height)
    ensures Standing(h, next, t, height) && Wired(h, t) && Shape(t, height)
  {
  }

  lemma SplitTopTops<E>(t: Tree<E>, l: Ref, r: Ref)
    requires |t.elems| == MAX_DEGREE - 1
    ensures var t' := SplitTop(t, l, r);
            && t'.ref == t.ref && |t'.kids| == 2 && |t'.elems| == 1 && t'.kids[0].ref == l && t'.kids[1].ref == r
            && |t'.kids[0].elems| == MIN_DEGREE - 1 && |t'.kids[1].elems| == MIN_DEGREE - 1
  {
  }

  lemma RotateRightTops<E>(t: Tree<E>, i: nat)
    requires i < |t.elems| && |t.kids| == |t.elems| + 1 && |t.kids[i].elems| > 0
    ensures var t' := RotateRight(t, i);
            && t'.ref == t.ref && |t'.kids| == |t.kids| && |t'.elems| == |t.elems|
            && t'.kids[i].ref == t.kids[i].ref && t'.kids[i + 1].ref == t.kids[i + 1].ref
  {
  }

  lemma RotateLeftTops<E>(t: Tree<E>, i: nat)
    requires i < |t.elems| && |t.kids| == |t.elems| + 1 && |t.kids[i + 1].elems| > 0
    ensures var t' := RotateLeft(t, i);
            && t'.ref == t.ref && |t'.kids| == |t.kids| && |t'.elems| == |t.elems|
            && t'.kids[i].ref == t.kids[i].ref && t'.kids[i + 1].ref == t.kids[i + 1].ref
  {
  }

  lemma StoredPair<E>(h: Heap<E>, next: Ref, t: Tree<E>, height: nat, i: nat)
    requires height > 0 && Standing(h, next, t, height) && i < |t.elems|
    ensures |t.kids| == |t.elems| + 1 && Pair(h, t, i) && Level(t, i)
    ensures t.ref in h && h[t.ref].elems == t.elems && |h[t.ref].kids| == |t.kids|
    ensures var a := t.kids[i];
            && h[t.ref].kids[i] == a.ref && a.ref in h && h[a.ref].elems == a.elems && |h[a.ref].kids| == |a.kids|
            && (a.kids == [] || |a.kids| == |a.elems| + 1)
    ensures var b := t.kids[i + 1];
            && h[t.ref].kids[i + 1] == b.ref && b.ref in h && h[b.ref].elems == b.elems && |h[b.ref].kids| == |b.kids|
            && (b.kids == [] || |b.kids| == |b.elems| + 1) && (b.kids == [] <==> t.kids[i].kids == [])
  {
    PairOf(h, next, t, height, i);
  }

  lemma JoinRelinks<E>(h: Heap<E>, t: Tree<E>, i: nat)
    requires Pair(h, t, i)
    ensures var a, b := t.kids[i], t.kids[i + 1];
            var h1 := JoinHeap(h, t.ref, i, a.ref, b.ref);
            && a.ref != b.ref && t.ref != a.ref && t.ref != b.ref
            && CanRelink(h1, a.ref, |a.kids|) && CanRelink(h1, t.ref, 0)
  {
    var a, b, t' := t.kids[i], t.kids[i + 1], JoinKids(t, i);
    var h1 := JoinHeap(h, t.ref, i, a.ref, b.ref);
    JoinParts(t, i);
    SpreadTwoRefs(t, i);
    SpreadRefs(t', i);
    JoinStored(h, t, i);
    AboveBelow(t', i);
    CanHeld(h1, t'.kids[i], |a.kids|, |a.kids|);
    CanHeld(h1, t', 0, 0);
  }

  lemma UnsplitRelinks<E>(h: Heap<E>, t: Tree<E>)
    requires Pair(h, t, 0) && |t.elems| == 1
    ensures CanRelink(UnsplitHeap(h, t.ref, t.kids[0].ref, t.kids[1].ref), t.ref, 0)
  {
    var t' := Join(t, 0, t.ref);
    UnsplitRefs(t);
    DistinctTops(t'.kids);
    UnsplitStored(h, t);
    CanHeld(UnsplitHeap(h, t.ref, t.kids[0].ref, t.kids[1].ref), t', 0, 0);
  }

  /** The stored form of the node at `p`. */
  lemma NodeAt<E>(heap: Heap<E>, next: Ref, t: Tree<E>, h: nat, p: seq<nat>)
    requires Stored(heap, next, t, h) && Path(t, p)
    ensures var x := At(t, p);
            && x.ref in heap && heap[x.ref].elems == x.elems && |heap[x.ref].kids| == |x.kids|
            && (forall j :: 0 <= j < |x.kids| ==> heap[x.ref].kids[j] == x.kids[j].ref)
            && Shaped(x) && |x.elems| < MAX_DEGREE && Wired(heap, x)
    ensures heap[At(t, p).ref].link.Root? <==> p == []
    ensures p != [] ==>
              && IsKid(t, p[..|p| - 1], p[|p| - 1]) && At(t, p[..|p| - 1]).kids[p[|p| - 1]] == At(t, p)
              && heap[At(t, p).ref].link == Up(At(t, p[..|p| - 1]).ref, p[|p| - 1])
  {
    StandingAt(heap, next, t, h, p);
    LinkedIsWired(heap, At(t, p));
    if p != [] { ParentLink(heap, t, p); }
  }

  lemma StoredParts<E>(heap: Heap<E>, next: Ref, t: Tree<E>, h: nat)
    requires Stored(heap, next, t, h)
    ensures Shape(t, h) && Distinct(t) && t.ref in heap && heap[t.ref].link == Root
    ensures forall r :: r >= next ==> r !in AllRefs(t)
  {
    LinkedRefs(heap, t);
  }

  lemma TopAhead<E>(t: Tree<E>, h: nat)
    requires Shape(t, h)
    ensures Path(t, []) && Ahead(t, [], 0, 0) && After(t, [], |t.elems|, |Flatten(t)|)
    ensures t.elems == [] && t.kids == [] ==> Flatten(t) == []
  {
    ThroughLast(t);
  }

  lemma TopPath<E>(t: Tree<E>, p: seq<nat>)
    requires Path(t, p)
    ensures Path(t, []) && At(t, []) == t && (p == [] ==> At(t, p) == t)
  {
  }

  lemma RoomyWhere<E>(t: Tree<E>, c: Tree<E>) returns (q: seq<nat>, j: nat)
    requires Roomy(t, c)
    ensures IsKid(t, q, j) && At(t, q).kids[j] == c && |At(t, q).elems| < MAX_DEGREE - 1
  {
    q, j :| Path(t, q) && j < |At(t, q).kids| && At(t, q).kids[j] == c && |At(t, q).elems| < MAX_DEGREE - 1;
  }

  lemma RoomStored<E>(heap: Heap<E>, next: Ref, t: Tree<E>, h: nat, r: Ref)
    requires Stored(heap, next, t, h) && HasRoom(t, r)
    ensures r in heap && |heap[r].elems| < MAX_DEGREE - 1
  {
    var q :| Path(t, q) && At(t, q).ref == r && |At(t, q).elems| < MAX_DEGREE - 1;
    LinkedAt(heap, t, q);
  }

  lemma KidPlace<E>(t: Tree<E>, up: seq<nat>, i: nat)
    requires IsKid(t, up, i)
    ensures Path(t, up) && i < |At(t, up).kids| && Path(t, up + [i]) && At(t, up + [i]) == At(t, up).kids[i]
  {
    KidPath(t, up, i);
  }

  lemma Siblings<E>(heap: Heap<E>, next: Ref, t: Tree<E>, h: nat, up: seq<nat>)
    requires Stored(heap, next, t, h) && Path(t, up)
    ensures var u := At(t, up);
            && u.ref in heap && heap[u.ref].elems == u.elems && |heap[u.ref].kids| == |u.kids|
            && forall j :: 0 <= j < |u.kids| ==>
                 heap[u.ref].kids[j] == u.kids[j].ref && u.kids[j].ref in heap && heap[u.kids[j].ref].elems == u.kids[j].elems
  {
    LinkedAt(heap, t, up);
  }

  /** A sibling of a node with children has children. */
  lemma InnerSibling<E>(t: Tree<E>, h: nat, up: seq<nat>, i: nat, j: nat)
    requires Shape(t, h) && Path(t, up) && i < |At(t, up).kids| && j < |At(t, up).kids| && At(t, up).kids[i].kids != []
    ensures At(t, up).kids[j].kids != []
  {
    hide Flatten, LeftOf, RightOf, At, Path;
    PathContext(t, h, up);
    HasKids(At(t, up), h - |up|);
    KidShaped(At(t, up), h - |up|, i);
    KidShaped(At(t, up), h - |up|, j);
  }

  lemma InnerNotStranded<E>(t: Tree<E>, h: nat, up: seq<nat>, i: nat, k: nat)
    requires Shape(t, h) && Distinct(t) && Path(t, up) && 0 < i < |At(t, up).kids| && At(t, up).kids[i].kids != [] && k < |Gaps(t)|
    ensures var sibling := At(t, up).kids[i - 1]; |sibling.elems| > 0 ==> !Stranded(Gaps(t)[k], sibling.ref, |sibling.elems| - 1)
  {
    hide Gaps, Distinct, Shape, At, Path, Replace;
    InnerSibling(t, h, up, i, i - 1);
    KidPath(t, up, i - 1);
    GapNotInner(t, up + [i - 1], k);
  }

  lemma LongEnough<E>(t: Tree<E>, p: seq<nat>, g: Gap)
    requires Path(t, p) && |At(t, p).elems| >= MIN_DEGREE - 1
    ensures !Strands(t, p, g)
  {
    hide At, Path;
    if p != [] && IsKid(t, p[..|p| - 1], p[|p| - 1]) {
      KidPath(t, p[..|p| - 1], p[|p| - 1]);
      assert p[..|p| - 1] + [p[|p| - 1]] == p;
    }
  }

  /** A change of the elements of one node, in place. */
  lemma ElementsSet<E>(heap: Heap<E>, next: Ref, t: Tree<E>, h: nat, p: seq<nat>, elems: seq<E>)
    requires Stored(heap, next, t, h) && Path(t, p)
    requires var x := At(t, p); |p| <= h && Shape(x.(elems := elems), h - |p|)
    ensures var x := At(t, p);
            && x.ref in heap
            && Stored(heap[x.ref := heap[x.ref].(elems := elems)], next, Replace(t, p, x.(elems := elems)), h)
            && Replace(t, p, x.(elems := elems)).ref == t.ref
  {
    hide *;
    var x := At(t, p);
    StandingAt(heap, next, t, h, p);
    ElementsExchanged(heap, next, x, h - |p|, elems);
    Installed(heap, heap[x.ref := heap[x.ref].(elems := elems)], next, next, t, h, p, x.(elems := elems));
  }

  lemma ElementsExchanged<E>(heap: Heap<E>, next: Ref, x: Tree<E>, h: nat, elems: seq<E>)
    requires Standing(heap, next, x, h)
    ensures x.ref in heap && Exchanged(heap, heap[x.ref := heap[x.ref].(elems := elems)], next, next, x, x.(elems := elems))
  {
    ElementsLinked(heap, x, elems);
    assert AllRefs(x.(elems := elems)) == AllRefs(x) && Distinct(x.(elems := elems)) && x.ref in AllRefs(x);
  }

  lemma ElementsLinked<E>(heap: Heap<E>, x: Tree<E>, elems: seq<E>)
    requires Linked(heap, x) && Distinct(x)
    ensures Linked(heap[x.ref := heap[x.ref].(elems := elems)], x.(elems := elems))
  {
    var heap' := heap[x.ref := heap[x.ref].(elems := elems)];
    forall j | 0 <= j < |x.kids|
      ensures Linked(heap', x.kids[j]) && x.kids[j].ref in heap' && heap'[x.kids[j].ref] == heap[x.kids[j].ref]
    {
      KidIn(x.kids, j);
      LinkedRefs(heap, x.kids[j]);
      assert x.kids[j].ref in AllRefs(x.kids[j]);
      LinkedFrame(heap, heap', x.kids[j]);
    }
  }

  lemma NamesWhere<E>(t: Tree<E>, it: Iterator, m: nat) returns (p: seq<nat>)
    requires Names(t, it, m)
    ensures it.Segment? && After(t, p, it.index, m) && Path(t, p) && At(t, p).ref == it.node && it.index < |At(t, p).elems|
  {
    p :| After(t, p, it.index, m) && At(t, p).ref == it.node && it.index < |At(t, p).elems|;
  }

  lemma NamesAt<E>(t: Tree<E>, p: seq<nat>, i: nat, m: nat)
    requires After(t, p, i, m) && i < |At(t, p).elems|
    ensures Names(t, Segment(At(t, p).ref, i), m)
  {
  }

  lemma AheadParts<E>(t: Tree<E>, p: seq<nat>, i: nat, n: nat)
    requires Ahead(t, p, i, n) || After(t, p, i, n)
    ensures Path(t, p) && Shaped(At(t, p)) && i <= |At(t, p).elems|
  {
  }

  lemma GrownDense<E>(t: Tree<E>, p: seq<nat>, elems: seq<E>)
    requires Path(t, p) && Dense(t) && |elems| >= |At(t, p).elems| && (t.kids != [] ==> t.elems != [])
    ensures var t' := Replace(t, p, At(t, p).(elems := elems)); Dense(t') && (t'.kids != [] ==> t'.elems != [])
  {
    DenseAt(t, p);
    assert Dense(At(t, p).(elems := elems));
    DenseReplace(t, p, At(t, p).(elems := elems));
  }

  /** A subtree exchanged for one that fits has the right height. */
  lemma PathShape<E>(t: Tree<E>, h: nat, p: seq<nat>, s: Tree<E>)
    requires Shape(t, h) && Path(t, p) && Shape(Replace(t, p, s), h)
    ensures |p| <= h && Shape(s, h - |p|)
  {
    PathContext(t, h, p);
    ReplacePath(t, p, s);
    PathContext(Replace(t, p, s), h, p);
  }

  lemma AlikeSet<E>(t: Tree<E>, p: seq<nat>, i: nat, e: E)
    requires Path(t, p) && i < |At(t, p).elems|
    ensures Alike(t, Replace(t, p, At(t, p).(elems := At(t, p).elems[i := e])))
  {
    var x := At(t, p);
    AlikeRefl(x);
    assert Alike(x, x.(elems := x.elems[i := e]));
    AlikeReplace(t, p, x.(elems := x.elems[i := e]));
  }

  lemma KidFacts<E>(t: Tree<E>, h: nat, p: seq<nat>)
    requires Shape(t, h) && Path(t, p)
    ensures |p| <= h
    ensures At(t, p).kids != [] ==> |p| < h && |At(t, p).kids| == |At(t, p).elems| + 1
    ensures var x := At(t, p); forall j :: 0 <= j < |x.kids| ==> Shaped(x.kids[j])
  {
    hide Flatten, LeftOf, RightOf, At, Path;
    PathContext(t, h, p);
    var x := At(t, p);
    if x.kids != [] {
      HasKids(x, h - |p|);
      forall j: nat | j < |x.kids| ensures Shaped(x.kids[j]) { KidShaped(x, h - |p|, j); }
    }
  }

  lemma KidsFull<E>(t: Tree<E>, p: seq<nat>)
    requires Dense(t) && Path(t, p)
    ensures var x := At(t, p); forall j :: 0 <= j < |x.kids| ==> |x.kids[j].elems| >= 1
  {
    DenseAt(t, p);
  }

  /** A leaf that lost an element is the only node that may be short. */
  lemma {:induction false} ShrunkDense<E>(t: Tree<E>, p: seq<nat>, elems: seq<E>)
    requires Path(t, p) && Dense(t) && At(t, p).kids == [] && |elems| >= |At(t, p).elems| - 1
    ensures var t' := Replace(t, p, At(t, p).(elems := elems));
            && Path(t', p) && DenseBut(t', p)
            && ((t.kids != [] ==> t.elems != []) ==> (t'.kids != [] ==> t'.elems != []))
    decreases |p|
  {
    if p != [] {
      ShrunkDense(t.kids[p[0]], p[1..], elems);
      assert |p| == 1 ==> p[1..] == [] && At(t, p) == t.kids[p[0]];
    }
  }

  /** A gap of the short node itself is never stranded. */
  lemma OwnGapSafe<E>(t: Tree<E>, p: seq<nat>, g: Gap)
    requires Distinct(t) && Path(t, p) && g.node == At(t, p).ref
    ensures !Strands(t, p, g)
  {
    hide At, Path, Distinct, AllRefs;
    if p != [] && p[|p| - 1] > 0 && IsKid(t, p[..|p| - 1], p[|p| - 1]) {
      var up, i := PathEnd(p);
      KidPath(t, up, i);
      KidPath(t, up, i - 1);
      if At(t, up).kids[i - 1].ref == g.node {
        PathUnique(t, up + [i], up + [i - 1]);
      }
    }
  }

  lemma TakeStolen<E>(f: seq<E>, m: nat)
    requires 0 < m < |f|
    ensures TakeOut(f[m := f[m - 1]], m - 1) == TakeOut(f, m)
  {
  }

  lemma TakeShrinks<E>(s: seq<E>, i: nat)
    requires i < |s|
    ensures |TakeOut(s, i)| == |s| - 1 && TakeOut(s, i) == s[..i] + s[i + 1..]
  {
  }

  lemma PutGrows<E>(s: seq<E>, i: nat, e: E)
    requires i <= |s|
    ensures |PutIn(s, i, e)| == |s| + 1 && PutIn(s, i, e) == s[..i] + [e] + s[i..]
  {
  }

  /** The short node at `p` takes an element from its previous sibling, and `g` is one of
      the two last gaps of that sibling. */
  ghost predicate Strands<E>(t: Tree<E>, p: seq<nat>, g: Gap) {
    && p != [] && p[|p| - 1] > 0 && IsKid(t, p[..|p| - 1], p[|p| - 1])
    && |At(t, p[..|p| - 1]).kids[p[|p| - 1]].elems| < MIN_DEGREE - 1
    && var sibling := At(t, p[..|p| - 1]).kids[p[|p| - 1] - 1];
       |sibling.elems| >= MIN_DEGREE && Stranded(g, sibling.ref, |sibling.elems| - 1)
  }

  lemma StrandsAt<E>(t: Tree<E>, up: seq<nat>, i: nat, g: Gap)
    requires IsKid(t, up, i)
    ensures Strands(t, up + [i], g) <==>
              && i > 0 && |At(t, up).kids[i].elems| < MIN_DEGREE - 1
              && var sibling := At(t, up).kids[i - 1];
                 |sibling.elems| >= MIN_DEGREE && Stranded(g, sibling.ref, |sibling.elems| - 1)
  {
    assert (up + [i])[..|up + [i]| - 1] == up && (up + [i])[|up + [i]| - 1] == i;
  }

  lemma StrandsRoot<E>(t: Tree<E>, g: Gap)
    ensures !Strands(t, [], g)
  {
  }

  lemma PathEnd(p: seq<nat>) returns (up: seq<nat>, i: nat)
    requires p != []
    ensures p == up + [i] && up == p[..|p| - 1] && i == p[|p| - 1]
  {
    up, i := p[..|p| - 1], p[|p| - 1];
  }

  lemma RotateGapsAre(g: Gap, n: Ref, sibling: Ref, size: nat)
    ensures RotateRightGap(g, n, sibling, size) ==
              if g.node == sibling && g.index == size then Gap(n, 0) else if g.node == n then Gap(n, g.index + 1) else g
    ensures RotateLeftGap(g, n, sibling, size) ==
              if g.node == sibling then (if g.index == 0 then Gap(n, size) else Gap(sibling, g.index - 1)) else g
  {
  }

  lemma JoinGapsAre(g: Gap, p: Ref, left: Ref, right: Ref, size: nat)
    ensures JoinGap(g, left, right, size) == if g.node == right then Gap(left, g.index + size + 1) else g
    ensures UnsplitGap(g, p, left, right, size) ==
              if g.node == left then Gap(p, g.index) else if g.node == right then Gap(p, g.index + size + 1) else g
  {
  }

  lemma RootKept<E>(t: Tree<E>, up: seq<nat>, s: Tree<E>)
    requires Path(t, up) && (t.kids != [] ==> t.elems != []) && (up == [] ==> s.elems != [])
    ensures var t' := Replace(t, up, s); t'.kids != [] ==> t'.elems != []
  {
  }

  /** Child `i` of the node at `up`. */
  ghost predicate IsKid<E>(t: Tree<E>, up: seq<nat>, i: nat) {
    Path(t, up) && i < |At(t, up).kids|
  }

  lemma KidOf<E>(heap: Heap<E>, next: Ref, t: Tree<E>, h: nat, up: seq<nat>, i: nat)
    requires Stored(heap, next, t, h) && IsKid(t, up, i)
    ensures var u := At(t, up);
            && |up| < h && Standing(heap, next, u, h - |up|) && Wired(heap, u) && Wired(heap, u.kids[i]) && Shaped(u.kids[i])
            && heap[u.kids[i].ref].link == Up(u.ref, i) && |u.kids| == |u.elems| + 1
            && (|u.kids[i].elems| == MAX_DEGREE - 1 ==> FullKid(heap, u, i))
  {
    StandingAt(heap, next, t, h, up);
    LinkedIsWired(heap, At(t, up));
    assert Shape(At(t, up).kids[i], h - |up| - 1);
  }
}

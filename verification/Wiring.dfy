/** The heap updates of the local steps of rebalancing, and that they hold the
    restructured tree. */
module Wiring {
  import opened BTree
  import opened Restructure

  /** Links of the children of `p` with indices from `from` to `to` are set, and nothing else. */
  ghost predicate RelinkedTo<E>(h0: Heap<E>, h1: Heap<E>, p: Ref, from: nat, to: nat) {
    && h1.Keys == h0.Keys && p in h0 && from <= to <= |h0[p].kids|
    && (forall r :: r in h0 ==> h1[r].elems == h0[r].elems && h1[r].kids == h0[r].kids)
    && (forall r :: r in h0 && r !in h0[p].kids[from..to] ==> h1[r] == h0[r])
    && (forall j :: from <= j < to && h0[p].kids[j] in h0 ==> h1[h0[p].kids[j]].link == Up(p, j))
  }

  ghost predicate Relinked<E>(h0: Heap<E>, h1: Heap<E>, p: Ref, from: nat) {
    p in h0 && RelinkedTo(h0, h1, p, from, |h0[p].kids|)
  }

  lemma RelinkOne<E>(h0: Heap<E>, h1: Heap<E>, p: Ref, from: nat, i: nat)
    requires RelinkedTo(h0, h1, p, from, i) && i < |h0[p].kids| && h0[p].kids[i] in h0
    requires forall j :: from <= j < i ==> h0[p].kids[j] != h0[p].kids[i]
    ensures var k := h0[p].kids[i]; RelinkedTo(h0, h1[k := h1[k].(link := Up(p, i))], p, from, i + 1)
  {
    var kids, h2 := h0[p].kids, h1[h0[p].kids[i] := h1[h0[p].kids[i]].(link := Up(p, i))];
    assert kids[from..i + 1] == kids[from..i] + [kids[i]];
    forall r | r in h0 && r !in kids[from..i + 1] ensures h2[r] == h0[r] {
      assert r !in kids[from..i] && r != kids[i];
    }
    forall j | from <= j < i + 1 && kids[j] in h0 ensures h2[kids[j]].link == Up(p, j) {
      assert j < i ==> kids[j] != kids[i];
    }
  }

  /** The children of the stored node are those of `t`. */
  ghost predicate Holds<E>(h: Heap<E>, t: Tree<E>) {
    && t.ref in h && h[t.ref].elems == t.elems && |h[t.ref].kids| == |t.kids|
    && forall i :: 0 <= i < |t.kids| ==> h[t.ref].kids[i] == t.kids[i].ref && t.kids[i].ref in h
  }

  /** The first `n` children link back to `t`. */
  ghost predicate LinksTo<E>(h: Heap<E>, t: Tree<E>, n: nat) {
    && Holds(h, t) && n <= |t.kids|
    && forall j :: 0 <= j < n ==> h[t.kids[j].ref].link == Up(t.ref, j)
  }

  lemma WiredNow<E>(h0: Heap<E>, h1: Heap<E>, t: Tree<E>, from: nat)
    requires LinksTo(h0, t, from) && Relinked(h0, h1, t.ref, from) && TopsDiffer(t.kids)
    ensures Wired(h1, t)
  {
  }

  ghost predicate TopsDiffer<E>(kids: seq<Tree<E>>) {
    forall i, j :: 0 <= i < j < |kids| ==> kids[i].ref != kids[j].ref
  }

  ghost predicate TopsApart<E>(a: seq<Tree<E>>, b: seq<Tree<E>>) {
    forall i, j :: 0 <= i < |a| && 0 <= j < |b| ==> a[i].ref != b[j].ref
  }

  lemma DistinctTops<E>(kids: seq<Tree<E>>)
    requires DistinctKids(kids)
    ensures TopsDiffer(kids)
  {
    forall i: nat, j: nat | i < j < |kids| ensures kids[i].ref != kids[j].ref {
      KidsApart(kids, i, j);
      assert kids[i].ref in AllRefs(kids[i]) && kids[j].ref in AllRefs(kids[j]);
    }
  }

  /** Setting links of one node's children leaves those of another's. */
  lemma LinksStay<E>(h0: Heap<E>, h1: Heap<E>, t: Tree<E>, n: nat, u: Tree<E>, from: nat)
    requires LinksTo(h0, t, n) && Holds(h0, u) && Relinked(h0, h1, u.ref, from) && TopsApart(t.kids, u.kids)
    ensures LinksTo(h1, t, n)
  {
  }

  lemma OnlyLinksThen<E>(h: Heap<E>, h0: Heap<E>, h1: Heap<E>, u: Tree<E>, from: nat, touched: set<Ref>, tops: set<Ref>)
    requires OnlyLinks(h, h0, touched, tops) && Holds(h0, u) && Relinked(h0, h1, u.ref, from)
    requires forall j :: 0 <= j < |u.kids| ==> u.kids[j].ref in tops || u.kids[j].ref in touched
    ensures OnlyLinks(h, h1, touched, tops)
  {
  }

  // ----- addresses around two neighbouring children -----

  lemma PartTop<E>(parts: seq<Tree<E>>, m: nat)
    requires m < |parts|
    ensures parts[m].ref in Tops(parts) && parts[m].ref in KidRefs(parts)
  {
    KidIn(parts, m);
    assert parts[m].ref in AllRefs(parts[m]);
  }

  /** The children other than `i` and `i + 1`, and the grandchildren below those. */
  lemma TopsTwo<E>(t: Tree<E>, i: nat)
    requires i + 1 < |t.kids|
    ensures var a, b, tops := t.kids[i], t.kids[i + 1], Tops(SpreadTwo(t, i));
            && (forall j :: 0 <= j < |t.kids| && j != i && j != i + 1 ==> t.kids[j].ref in tops)
            && (forall j :: 0 <= j < |a.kids| ==> a.kids[j].ref in tops)
            && (forall j :: 0 <= j < |b.kids| ==> b.kids[j].ref in tops)
  {
    var a, b, parts := t.kids[i], t.kids[i + 1], SpreadTwo(t, i);
    forall j | 0 <= j < |t.kids| && j != i && j != i + 1 ensures t.kids[j].ref in Tops(parts) {
      var m := if j < i then j else j - 2 + |a.kids| + |b.kids|;
      assert parts[m] == t.kids[j];
    }
    forall j | 0 <= j < |a.kids| ensures a.kids[j].ref in Tops(parts) {
      assert parts[i + j] == a.kids[j];
    }
    forall j | 0 <= j < |b.kids| ensures b.kids[j].ref in Tops(parts) {
      assert parts[i + |a.kids| + j] == b.kids[j];
    }
  }

  /** Children and grandchildren have different addresses. */
  lemma ApartTwo<E>(t: Tree<E>, i: nat)
    requires i + 1 < |t.kids| && Distinct(t)
    ensures var a, b := t.kids[i], t.kids[i + 1];
            && TopsDiffer(t.kids) && TopsDiffer(a.kids) && TopsDiffer(b.kids)
            && TopsApart(t.kids, a.kids) && TopsApart(t.kids, b.kids) && TopsApart(a.kids, b.kids)
  {
    var a, b := t.kids[i], t.kids[i + 1];
    KidsAround(t.kids, i);
    KidsAround(t.kids, i + 1);
    KidsApart(t.kids, i, i + 1);
    DistinctTops(t.kids);
    DistinctTops(a.kids);
    DistinctTops(b.kids);
    AboveBelow(t, i);
    AboveBelow(t, i + 1);
    assert AllRefs(a) == {a.ref} + KidRefs(a.kids) && AllRefs(b) == {b.ref} + KidRefs(b.kids);
    forall m: nat | m < |a.kids| ensures a.kids[m].ref in KidRefs(a.kids) { PartTop(a.kids, m); }
    forall m: nat | m < |b.kids| ensures b.kids[m].ref in KidRefs(b.kids) { PartTop(b.kids, m); }
  }

  lemma AboveBelow<E>(t: Tree<E>, i: nat)
    requires i < |t.kids| && Distinct(t)
    ensures TopsDiffer(t.kids) && TopsDiffer(t.kids[i].kids) && TopsApart(t.kids, t.kids[i].kids)
    ensures forall j :: 0 <= j < |t.kids| ==> t.kids[j].ref != t.ref
    ensures var k := t.kids[i]; forall j :: 0 <= j < |k.kids| ==> k.kids[j].ref != t.ref && k.kids[j].ref != k.ref
  {
    var k := t.kids[i];
    KidsAround(t.kids, i);
    DistinctTops(t.kids);
    DistinctTops(k.kids);
    assert AllRefs(k) == {k.ref} + KidRefs(k.kids);
    forall m: nat | m < |k.kids| ensures k.kids[m].ref in KidRefs(k.kids) { PartTop(k.kids, m); }
    forall j: nat | j < |t.kids| ensures t.kids[j].ref in KidRefs(t.kids) && t.kids[j].ref !in KidRefs(k.kids) {
      PartTop(t.kids, j);
      assert t.kids[j].ref in AllRefs(t.kids[j]);
      if j != i { KidsApart(t.kids, i, j); }
    }
  }

  // ----- setting links after a step -----

  /** The stored nodes are those of the new tree `t`, whose children `i` and `i + 1` are
      new, and the parts below them are as they were in `h`. Setting the links of the
      children from the given indices on completes the tree. */
  lemma SettleTwo<E>(h: Heap<E>, h1: Heap<E>, h2: Heap<E>, h3: Heap<E>, h4: Heap<E>,
                     t: Tree<E>, i: nat, ft: nat, fa: nat, fb: nat)
    requires i + 1 < |t.kids| && Distinct(t)
    requires forall m :: 0 <= m < |SpreadTwo(t, i)| ==> Linked(h, SpreadTwo(t, i)[m])
    requires OnlyLinks(h, h1, {t.ref, t.kids[i].ref, t.kids[i + 1].ref}, Tops(SpreadTwo(t, i)))
    requires LinksTo(h1, t, ft) && LinksTo(h1, t.kids[i], fa) && LinksTo(h1, t.kids[i + 1], fb)
    requires Relinked(h1, h2, t.ref, ft) && Relinked(h2, h3, t.kids[i].ref, fa) && Relinked(h3, h4, t.kids[i + 1].ref, fb)
    ensures Linked(h4, t)
    ensures OnlyLinks(h, h4, {t.ref, t.kids[i].ref, t.kids[i + 1].ref}, Tops(SpreadTwo(t, i)))
  {
    hide *;
    var a, b := t.kids[i], t.kids[i + 1];
    ApartTwo(t, i);
    SettleThree(h1, h2, h3, h4, t, a, b, ft, fa, fb);
    LinksTwo(h, h1, h2, h3, h4, t, i, ft, fa, fb);
    KeptTwo(h, h4, t, i);
    RewiredTwo(h, h4, t, i, {t.ref, a.ref, b.ref});
  }

  lemma LinksTwo<E>(h: Heap<E>, h1: Heap<E>, h2: Heap<E>, h3: Heap<E>, h4: Heap<E>, t: Tree<E>, i: nat, ft: nat, fa: nat, fb: nat)
    requires i + 1 < |t.kids|
    requires OnlyLinks(h, h1, {t.ref, t.kids[i].ref, t.kids[i + 1].ref}, Tops(SpreadTwo(t, i)))
    requires Holds(h1, t) && Holds(h2, t.kids[i]) && Holds(h3, t.kids[i + 1])
    requires Relinked(h1, h2, t.ref, ft) && Relinked(h2, h3, t.kids[i].ref, fa) && Relinked(h3, h4, t.kids[i + 1].ref, fb)
    ensures OnlyLinks(h, h4, {t.ref, t.kids[i].ref, t.kids[i + 1].ref}, Tops(SpreadTwo(t, i)))
  {
    hide *;
    var a, b := t.kids[i], t.kids[i + 1];
    var touched, tops := {t.ref, a.ref, b.ref}, Tops(SpreadTwo(t, i));
    TopsTwo(t, i);
    OnlyLinksThen(h, h1, h2, t, ft, touched, tops);
    OnlyLinksThen(h, h2, h3, a, fa, touched, tops);
    OnlyLinksThen(h, h3, h4, b, fb, touched, tops);
  }

  lemma KeptTwo<E>(h: Heap<E>, h': Heap<E>, t: Tree<E>, i: nat)
    requires i + 1 < |t.kids| && Distinct(t)
    requires forall m :: 0 <= m < |SpreadTwo(t, i)| ==> Linked(h, SpreadTwo(t, i)[m])
    requires OnlyLinks(h, h', {t.ref, t.kids[i].ref, t.kids[i + 1].ref}, Tops(SpreadTwo(t, i)))
    ensures Kept(h, h', SpreadTwo(t, i), {t.ref, t.kids[i].ref, t.kids[i + 1].ref})
  {
    SpreadTwoRefs(t, i);
  }

  lemma SettleThree<E>(h1: Heap<E>, h2: Heap<E>, h3: Heap<E>, h4: Heap<E>,
                       t: Tree<E>, a: Tree<E>, b: Tree<E>, ft: nat, fa: nat, fb: nat)
    requires TopsDiffer(t.kids) && TopsDiffer(a.kids) && TopsDiffer(b.kids)
    requires TopsApart(t.kids, a.kids) && TopsApart(t.kids, b.kids) && TopsApart(a.kids, b.kids)
    requires LinksTo(h1, t, ft) && LinksTo(h1, a, fa) && LinksTo(h1, b, fb)
    requires Relinked(h1, h2, t.ref, ft) && Relinked(h2, h3, a.ref, fa) && Relinked(h3, h4, b.ref, fb)
    ensures Wired(h4, t) && Wired(h4, a) && Wired(h4, b)
    ensures Holds(h1, t) && Holds(h2, a) && Holds(h3, b)
  {
    ApartBack(t.kids, a.kids);
    ApartBack(t.kids, b.kids);
    ApartBack(a.kids, b.kids);
    WiredNow(h1, h2, t, ft);
    LinksStay(h1, h2, a, fa, t, ft);
    LinksStay(h1, h2, b, fb, t, ft);
    WiredNow(h2, h3, a, fa);
    AllLinked(h2, t);
    LinksStay(h2, h3, t, |t.kids|, a, fa);
    LinksStay(h2, h3, b, fb, a, fa);
    WiredNow(h3, h4, b, fb);
    AllLinked(h3, a);
    LinksStay(h3, h4, t, |t.kids|, b, fb);
    LinksStay(h3, h4, a, |a.kids|, b, fb);
    AllLinked(h4, t);
    AllLinked(h4, a);
  }

  lemma ApartBack<E>(a: seq<Tree<E>>, b: seq<Tree<E>>)
    requires TopsApart(a, b)
    ensures TopsApart(b, a)
  {
  }

  lemma AllLinked<E>(h: Heap<E>, t: Tree<E>)
    ensures Wired(h, t) <==> LinksTo(h, t, |t.kids|)
  {
  }

  /** The same with one new child. */
  lemma SettleOne<E>(h: Heap<E>, h1: Heap<E>, h2: Heap<E>, h3: Heap<E>, t: Tree<E>, i: nat, fa: nat, ft: nat, gone: Ref)
    requires i < |t.kids| && Distinct(t) && gone !in KidRefs(Spread(t, i))
    requires forall m :: 0 <= m < |Spread(t, i)| ==> Linked(h, Spread(t, i)[m])
    requires OnlyLinks(h, h1, {t.ref, t.kids[i].ref, gone}, Tops(Spread(t, i)))
    requires LinksTo(h1, t.kids[i], fa) && LinksTo(h1, t, ft)
    requires Relinked(h1, h2, t.kids[i].ref, fa) && Relinked(h2, h3, t.ref, ft)
    ensures Linked(h3, t) && OnlyLinks(h, h3, {t.ref, t.kids[i].ref, gone}, Tops(Spread(t, i)))
  {
    hide *;
    var a := t.kids[i];
    var touched, tops := {t.ref, a.ref, gone}, Tops(Spread(t, i));
    AboveBelow(t, i);
    TopsOne(t, i);
    ApartBack(t.kids, a.kids);
    SettlePair(h1, h2, h3, t, a, fa, ft);
    OnlyLinksThen(h, h1, h2, a, fa, touched, tops);
    OnlyLinksThen(h, h2, h3, t, ft, touched, tops);
    KeptOne(h, h3, t, i, gone);
    RewiredOne(h, h3, t, i, touched);
  }

  lemma SettlePair<E>(h1: Heap<E>, h2: Heap<E>, h3: Heap<E>, t: Tree<E>, a: Tree<E>, fa: nat, ft: nat)
    requires TopsDiffer(t.kids) && TopsDiffer(a.kids) && TopsApart(t.kids, a.kids) && TopsApart(a.kids, t.kids)
    requires LinksTo(h1, a, fa) && LinksTo(h1, t, ft)
    requires Relinked(h1, h2, a.ref, fa) && Relinked(h2, h3, t.ref, ft)
    ensures Wired(h3, t) && Wired(h3, a) && Holds(h1, a) && Holds(h2, t)
  {
    WiredNow(h1, h2, a, fa);
    LinksStay(h1, h2, t, ft, a, fa);
    WiredNow(h2, h3, t, ft);
    AllLinked(h2, a);
    LinksStay(h2, h3, a, |a.kids|, t, ft);
    AllLinked(h3, a);
  }

  lemma KeptOne<E>(h: Heap<E>, h': Heap<E>, t: Tree<E>, i: nat, gone: Ref)
    requires i < |t.kids| && Distinct(t) && gone !in KidRefs(Spread(t, i))
    requires forall m :: 0 <= m < |Spread(t, i)| ==> Linked(h, Spread(t, i)[m])
    requires OnlyLinks(h, h', {t.ref, t.kids[i].ref, gone}, Tops(Spread(t, i)))
    ensures Kept(h, h', Spread(t, i), {t.ref, t.kids[i].ref, gone})
  {
    SpreadRefs(t, i);
  }

  lemma TopsOne<E>(t: Tree<E>, i: nat)
    requires i < |t.kids|
    ensures var a, tops := t.kids[i], Tops(Spread(t, i));
            && (forall j :: 0 <= j < |t.kids| && j != i ==> t.kids[j].ref in tops)
            && (forall j :: 0 <= j < |a.kids| ==> a.kids[j].ref in tops)
  {
    var a, parts := t.kids[i], Spread(t, i);
    forall j | 0 <= j < |t.kids| && j != i ensures t.kids[j].ref in Tops(parts) {
      var m := if j < i then j else j - 1 + |a.kids|;
      assert parts[m] == t.kids[j];
    }
    forall j | 0 <= j < |a.kids| ensures a.kids[j].ref in Tops(parts) {
      assert parts[i + j] == a.kids[j];
    }
  }

  /** The same with no new child. */
  lemma SettleTop<E>(h: Heap<E>, h1: Heap<E>, h2: Heap<E>, t: Tree<E>, touched: set<Ref>)
    requires Distinct(t) && touched !! KidRefs(t.kids)
    requires forall m :: 0 <= m < |t.kids| ==> Linked(h, t.kids[m])
    requires OnlyLinks(h, h1, touched, Tops(t.kids)) && LinksTo(h1, t, 0) && Relinked(h1, h2, t.ref, 0)
    ensures Linked(h2, t) && OnlyLinks(h, h2, touched, Tops(t.kids))
  {
    DistinctTops(t.kids);
    WiredNow(h1, h2, t, 0);
    OnlyLinksThen(h, h1, h2, t, 0, touched, Tops(t.kids));
    RewiredNone(h, h2, t, touched);
  }

  lemma LinkedIsWired<E>(h: Heap<E>, t: Tree<E>)
    requires Linked(h, t)
    ensures Wired(h, t) && forall j :: 0 <= j < |t.kids| ==> Wired(h, t.kids[j])
  {
    forall j | 0 <= j < |t.kids| ensures Wired(h, t.kids[j]) {
      assert Linked(h, t.kids[j]);
    }
  }
}

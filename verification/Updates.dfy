/** The node updates of each local step of rebalancing, before links are set. */
module Updates {
  import opened BTree
  import opened Restructure
  import opened Wiring

  function Front<X>(s: seq<X>, n: nat): seq<X> {
    if n <= |s| then s[..n] else []
  }

  function Rear<X>(s: seq<X>, n: nat): seq<X> {
    if n <= |s| then s[n..] else []
  }

  // ----- splitting -----

  ghost predicate FullKid<E>(h: Heap<E>, t: Tree<E>, i: nat) {
    && Wired(h, t) && |t.kids| == |t.elems| + 1 && i < |t.kids| && Wired(h, t.kids[i])
    && |t.kids[i].elems| == MAX_DEGREE - 1 && Shaped(t.kids[i]) && Distinct(t)
  }

  function SplitKidHeap<E>(h: Heap<E>, p: Ref, i: nat, n: Ref, s: Ref): Heap<E>
    requires p in h && n in h && i <= |h[p].elems| && i < |h[p].kids| && |h[n].elems| == MAX_DEGREE - 1
  {
    h[p := h[p].(elems := h[p].elems[..i] + [h[n].elems[MIN_DEGREE - 1]] + h[p].elems[i..],
                 kids := h[p].kids[..i + 1] + [s] + h[p].kids[i + 1..])]
     [s := Node(Up(p, i + 1), h[n].elems[MIN_DEGREE..], Rear(h[n].kids, MIN_DEGREE))]
     [n := h[n].(elems := h[n].elems[..MIN_DEGREE - 1], kids := Front(h[n].kids, MIN_DEGREE))]
  }

  lemma SplitKidParent<E>(h: Heap<E>, t: Tree<E>, i: nat, s: Ref)
    requires FullKid(h, t, i) && s !in h
    ensures LinksTo(SplitKidHeap(h, t.ref, i, t.kids[i].ref, s), SplitKid(t, i, s), i + 2)
  {
    Beside(t, i);
    CutRef(t.kids[i]);
    hide Distinct, Cut, Front, Rear, Shaped;
    var h1, t' := SplitKidHeap(h, t.ref, i, t.kids[i].ref, s), SplitKid(t, i, s);
    assert h1[t.ref].elems == t'.elems;
    assert t'.kids[i].ref == t.kids[i].ref && t'.kids[i + 1].ref == s;
  }

  /** The children of child `i` are neither `t` nor its children `i` and `j`. */
  lemma Below<E>(t: Tree<E>, i: nat, j: nat)
    requires Distinct(t) && i < |t.kids| && j < |t.kids|
    ensures t.kids[i].ref != t.ref
    ensures var k := t.kids[i]; forall m :: 0 <= m < |k.kids| ==> k.kids[m].ref != t.ref && k.kids[m].ref != k.ref && k.kids[m].ref != t.kids[j].ref
  {
    AboveBelow(t, i);
  }

  /** The children of `t` are not `t`, and only child `i` is child `i`. */
  lemma Beside<E>(t: Tree<E>, i: nat)
    requires Distinct(t) && i < |t.kids|
    ensures forall m :: 0 <= m < |t.kids| ==> t.kids[m].ref != t.ref && (m != i ==> t.kids[m].ref != t.kids[i].ref)
  {
    AboveBelow(t, i);
  }

  lemma CutRef<E>(t: Tree<E>)
    ensures forall r, lo: nat, hi: nat {:trigger Cut(t, r, lo, hi)} :: lo <= hi <= |t.elems| ==> Cut(t, r, lo, hi).ref == r
  {
  }

  lemma SplitKidHalves<E>(h: Heap<E>, t: Tree<E>, i: nat, s: Ref)
    requires FullKid(h, t, i) && s !in h
    ensures var h1, t' := SplitKidHeap(h, t.ref, i, t.kids[i].ref, s), SplitKid(t, i, s);
            LinksTo(h1, t'.kids[i], |t'.kids[i].kids|) && LinksTo(h1, t'.kids[i + 1], 0)
  {
    Below(t, i, i);
    hide Distinct;
    var k, t' := t.kids[i], SplitKid(t, i, s);
    assert t'.kids[i] == Cut(k, k.ref, 0, MIN_DEGREE - 1) && t'.kids[i + 1] == Cut(k, s, MIN_DEGREE, MAX_DEGREE - 1);
  }

  function SplitTopHeap<E>(h: Heap<E>, n: Ref, l: Ref, r: Ref): Heap<E>
    requires n in h && |h[n].elems| == MAX_DEGREE - 1
  {
    h[l := Node(Up(n, 0), h[n].elems[..MIN_DEGREE - 1], Front(h[n].kids, MIN_DEGREE))]
     [r := Node(Up(n, 1), h[n].elems[MIN_DEGREE..], Rear(h[n].kids, MIN_DEGREE))]
     [n := h[n].(elems := [h[n].elems[MIN_DEGREE - 1]], kids := [l, r])]
  }

  lemma SplitTopStored<E>(h: Heap<E>, t: Tree<E>, l: Ref, r: Ref)
    requires Wired(h, t) && Shaped(t) && |t.elems| == MAX_DEGREE - 1 && Distinct(t) && l !in h && r !in h && l != r
    ensures var h1, t' := SplitTopHeap(h, t.ref, l, r), SplitTop(t, l, r);
            LinksTo(h1, t', 2) && LinksTo(h1, t'.kids[0], 0) && LinksTo(h1, t'.kids[1], 0)
  {
  }

  // ----- unsplitting -----

  ghost predicate Pair<E>(h: Heap<E>, t: Tree<E>, i: nat) {
    && Wired(h, t) && |t.kids| == |t.elems| + 1 && i < |t.elems| && Distinct(t)
    && Wired(h, t.kids[i]) && Shaped(t.kids[i]) && Wired(h, t.kids[i + 1]) && Shaped(t.kids[i + 1])
    && (t.kids[i].kids == [] <==> t.kids[i + 1].kids == [])
  }

  function JoinHeap<E>(h: Heap<E>, p: Ref, i: nat, left: Ref, right: Ref): Heap<E>
    requires p in h && left in h && right in h && i < |h[p].elems| && i + 2 <= |h[p].kids|
  {
    h[left := h[left].(elems := h[left].elems + [h[p].elems[i]] + h[right].elems, kids := h[left].kids + h[right].kids)]
     [p := h[p].(elems := h[p].elems[..i] + h[p].elems[i + 1..], kids := h[p].kids[..i + 1] + h[p].kids[i + 2..])]
  }

  lemma JoinStored<E>(h: Heap<E>, t: Tree<E>, i: nat)
    requires Pair(h, t, i)
    ensures var a, b := t.kids[i], t.kids[i + 1];
            var h1, t' := JoinHeap(h, t.ref, i, a.ref, b.ref), JoinKids(t, i);
            LinksTo(h1, t'.kids[i], |a.kids|) && LinksTo(h1, t', 0)
  {
    Below(t, i, i + 1);
    Below(t, i + 1, i);
    Beside(t, i);
    hide Distinct;
    var a, b := t.kids[i], t.kids[i + 1];
    var h1, t' := JoinHeap(h, t.ref, i, a.ref, b.ref), JoinKids(t, i);
    assert t'.kids[i] == Join(t, i, a.ref);
    assert h1[a.ref].kids == h[a.ref].kids + h[b.ref].kids;
    assert LinksTo(h1, t'.kids[i], |a.kids|);
  }

  function UnsplitHeap<E>(h: Heap<E>, p: Ref, left: Ref, right: Ref): Heap<E>
    requires p in h && left in h && right in h && |h[p].elems| == 1
  {
    h[p := h[p].(elems := h[left].elems + [h[p].elems[0]] + h[right].elems, kids := h[left].kids + h[right].kids)]
  }

  lemma UnsplitStored<E>(h: Heap<E>, t: Tree<E>)
    requires Pair(h, t, 0) && |t.elems| == 1
    ensures LinksTo(UnsplitHeap(h, t.ref, t.kids[0].ref, t.kids[1].ref), Join(t, 0, t.ref), 0)
  {
  }

  // ----- rotating -----

  function RotateRightHeap<E>(h: Heap<E>, p: Ref, i: nat, a: Ref, b: Ref): Heap<E>
    requires p in h && a in h && b in h && i < |h[p].elems| && |h[a].elems| > 0
    requires h[b].kids == [] || |h[a].kids| == |h[a].elems| + 1
  {
    var n := |h[a].elems| - 1;
    h[b := h[b].(elems := [h[p].elems[i]] + h[b].elems, kids := if h[b].kids == [] then [] else [h[a].kids[n + 1]] + h[b].kids)]
     [p := h[p].(elems := h[p].elems[i := h[a].elems[n]])]
     [a := h[a].(elems := h[a].elems[..n], kids := Front(h[a].kids, n + 1))]
  }

  lemma RotateRightParent<E>(h: Heap<E>, t: Tree<E>, i: nat)
    requires Pair(h, t, i) && |t.kids[i].elems| > 0
    ensures LinksTo(RotateRightHeap(h, t.ref, i, t.kids[i].ref, t.kids[i + 1].ref), RotateRight(t, i), |t.kids|)
  {
    Beside(t, i);
    Beside(t, i + 1);
    hide Distinct, Cut, Front, Rear;
    CutRef(t.kids[i]);
    CutRef(t.kids[i + 1]);
    var h1, t' := RotateRightHeap(h, t.ref, i, t.kids[i].ref, t.kids[i + 1].ref), RotateRight(t, i);
    assert h1[t.ref].elems == t'.elems && h1[t.ref].kids == h[t.ref].kids;
    assert forall j :: 0 <= j < |t.kids| ==> t'.kids[j].ref == t.kids[j].ref;
  }

  lemma RotateRightKids<E>(h: Heap<E>, t: Tree<E>, i: nat)
    requires Pair(h, t, i) && |t.kids[i].elems| > 0
    ensures var a, b := t.kids[i], t.kids[i + 1];
            var h1, t' := RotateRightHeap(h, t.ref, i, a.ref, b.ref), RotateRight(t, i);
            LinksTo(h1, t'.kids[i], |t'.kids[i].kids|) && LinksTo(h1, t'.kids[i + 1], 0)
  {
    Below(t, i, i + 1);
    Below(t, i + 1, i);
    Beside(t, i);
    hide Distinct;
    var a, b := t.kids[i], t.kids[i + 1];
    var h1, t' := RotateRightHeap(h, t.ref, i, a.ref, b.ref), RotateRight(t, i);
    var n := |a.elems| - 1;
    var a', b' := t'.kids[i], t'.kids[i + 1];
    assert a' == Cut(a, a.ref, 0, n) && b'.elems == [t.elems[i]] + b.elems;
    assert b'.kids == if n + 1 < |a.kids| then [a.kids[n + 1]] + b.kids else b.kids;
    hide RotateRight;
    assert forall j :: 0 <= j < |a.kids| ==> a.kids[j].ref in h1 && h1[a.kids[j].ref].link == h[a.kids[j].ref].link;
    FrontStored(h, h1, a, n);
    var moved := if n + 1 < |a.kids| then [a.kids[n + 1]] else [];
    RearStored(h, h1, b, b', moved);
  }

  /** A node with a child put in front, links aside. */
  lemma RearStored<E>(h: Heap<E>, h1: Heap<E>, b: Tree<E>, b': Tree<E>, moved: seq<Tree<E>>)
    requires Wired(h, b) && b'.ref == b.ref && b.ref in h1 && h1[b.ref].elems == b'.elems
    requires |moved| <= 1 && b'.kids == moved + b.kids && h.Keys <= h1.Keys
    requires |h1[b.ref].kids| == |b'.kids| && h1[b.ref].kids[|moved|..] == h[b.ref].kids
    requires moved != [] ==> moved[0].ref in h1 && h1[b.ref].kids[0] == moved[0].ref
    ensures LinksTo(h1, b', 0)
  {
    forall j | 0 <= j < |b'.kids| ensures h1[b.ref].kids[j] == b'.kids[j].ref && b'.kids[j].ref in h1 {
      if j >= |moved| {
        assert b'.kids[j] == b.kids[j - |moved|] && h1[b.ref].kids[j] == h1[b.ref].kids[|moved|..][j - |moved|];
      }
    }
  }

  /** A node cut short keeps its links. */
  lemma FrontStored<E>(h: Heap<E>, h1: Heap<E>, a: Tree<E>, n: nat)
    requires Wired(h, a) && n < |a.elems| && Shaped(a) && a.ref in h1
    requires h1[a.ref].elems == h[a.ref].elems[..n] && h1[a.ref].kids == Front(h[a.ref].kids, n + 1)
    requires forall j :: 0 <= j < |a.kids| ==> a.kids[j].ref in h1 && h1[a.kids[j].ref].link == h[a.kids[j].ref].link
    ensures var a' := Cut(a, a.ref, 0, n); LinksTo(h1, a', |a'.kids|)
  {
  }

  function RotateLeftHeap<E>(h: Heap<E>, p: Ref, i: nat, a: Ref, b: Ref): Heap<E>
    requires p in h && a in h && b in h && i < |h[p].elems| && |h[b].elems| > 0
    requires h[a].kids == [] || |h[b].kids| == |h[b].elems| + 1
  {
    h[a := h[a].(elems := h[a].elems + [h[p].elems[i]], kids := if h[a].kids == [] then [] else h[a].kids + [h[b].kids[0]])]
     [p := h[p].(elems := h[p].elems[i := h[b].elems[0]])]
     [b := h[b].(elems := h[b].elems[1..], kids := Rear(h[b].kids, 1))]
  }

  lemma RotateLeftParent<E>(h: Heap<E>, t: Tree<E>, i: nat)
    requires Pair(h, t, i) && |t.kids[i + 1].elems| > 0
    ensures LinksTo(RotateLeftHeap(h, t.ref, i, t.kids[i].ref, t.kids[i + 1].ref), RotateLeft(t, i), |t.kids|)
  {
    Beside(t, i);
    Beside(t, i + 1);
    hide Distinct, Cut, Front, Rear;
    CutRef(t.kids[i]);
    CutRef(t.kids[i + 1]);
    var h1, t' := RotateLeftHeap(h, t.ref, i, t.kids[i].ref, t.kids[i + 1].ref), RotateLeft(t, i);
    assert h1[t.ref].elems == t'.elems && h1[t.ref].kids == h[t.ref].kids;
    assert forall j :: 0 <= j < |t.kids| ==> t'.kids[j].ref == t.kids[j].ref;
  }

  lemma RotateLeftKids<E>(h: Heap<E>, t: Tree<E>, i: nat)
    requires Pair(h, t, i) && |t.kids[i + 1].elems| > 0
    ensures var a, b := t.kids[i], t.kids[i + 1];
            var h1, t' := RotateLeftHeap(h, t.ref, i, a.ref, b.ref), RotateLeft(t, i);
            LinksTo(h1, t'.kids[i], |a.kids|) && LinksTo(h1, t'.kids[i + 1], 0)
  {
    Below(t, i, i + 1);
    Below(t, i + 1, i);
    Beside(t, i);
    hide Distinct;
    var a, b := t.kids[i], t.kids[i + 1];
    var h1, t' := RotateLeftHeap(h, t.ref, i, a.ref, b.ref), RotateLeft(t, i);
    assert h1[a.ref].elems == t'.kids[i].elems && h1[b.ref].elems == t'.kids[i + 1].elems;
    assert LinksTo(h1, t'.kids[i], |a.kids|);
  }

}

/** B-trees as values: nodes with addresses, the in-order list they stand for, and
    what splitting, rotating and unsplitting nodes does to it. The heap layout of a
    tree is a map from addresses to nodes with parent links. */
module BTree {
  type Ref = nat

  /** A node, its elements and its children; a leaf has none. */
  datatype Tree<E> = Tree(ref: Ref, elems: seq<E>, kids: seq<Tree<E>>)

  const MIN_DEGREE: nat := 3
  const MAX_DEGREE: nat := 6

  // ----- in-order contents -----

  /** Elements of the subtree, in order. */
  function Flatten<E>(t: Tree<E>): seq<E>
    decreases t
  {
    if t.kids == [] then t.elems
    else Flatten(t.kids[0]) + Behind(t.elems, t.kids[1..])
  }

  /** Elements and children alternating, element first. */
  function Behind<E>(elems: seq<E>, kids: seq<Tree<E>>): seq<E>
    decreases kids
  {
    if elems == [] || kids == [] then []
    else [elems[0]] + Flatten(kids[0]) + Behind(elems[1..], kids[1..])
  }

  /** Children and elements alternating, child first. */
  function Before<E>(elems: seq<E>, kids: seq<Tree<E>>): seq<E>
    decreases kids
  {
    if elems == [] || kids == [] then []
    else Flatten(kids[0]) + [elems[0]] + Before(elems[1..], kids[1..])
  }

  lemma {:induction false} BeforeAppend<E>(e1: seq<E>, k1: seq<Tree<E>>, e2: seq<E>, k2: seq<Tree<E>>)
    requires |e1| == |k1|
    ensures Before(e1 + e2, k1 + k2) == Before(e1, k1) + Before(e2, k2)
    decreases |e1|
  {
    if e1 == [] {
      assert e1 + e2 == e2 && k1 + k2 == k2;
    } else {
      assert (e1 + e2)[1..] == e1[1..] + e2 && (k1 + k2)[1..] == k1[1..] + k2;
      BeforeAppend(e1[1..], k1[1..], e2, k2);
    }
  }

  lemma {:induction false} BehindAppend<E>(e1: seq<E>, k1: seq<Tree<E>>, e2: seq<E>, k2: seq<Tree<E>>)
    requires |e1| == |k1|
    ensures Behind(e1 + e2, k1 + k2) == Behind(e1, k1) + Behind(e2, k2)
    decreases |e1|
  {
    if e1 == [] {
      assert e1 + e2 == e2 && k1 + k2 == k2;
    } else {
      assert (e1 + e2)[1..] == e1[1..] + e2 && (k1 + k2)[1..] == k1[1..] + k2;
      BehindAppend(e1[1..], k1[1..], e2, k2);
    }
  }

  /** A node's contents around child `i`. */
  lemma {:induction false} AroundChild<E>(elems: seq<E>, kids: seq<Tree<E>>, i: nat)
    requires |kids| == |elems| + 1 && i < |kids|
    ensures Flatten(kids[0]) + Behind(elems, kids[1..])
            == Before(elems[..i], kids[..i]) + Flatten(kids[i]) + Behind(elems[i..], kids[i + 1..])
    decreases i
  {
    if i == 0 {
      assert elems[0..] == elems && kids[0 + 1..] == kids[1..];
      assert Before(elems[..0], kids[..0]) == [];
      assert [] + Flatten(kids[0]) == Flatten(kids[0]);
    } else {
      AroundChild(elems[1..], kids[1..], i - 1);
      assert kids[1..][1..] == kids[2..] && kids[1..][i - 1] == kids[i] && kids[1..][i - 1 + 1..] == kids[i + 1..];
      assert elems[1..][i - 1..] == elems[i..];
      assert elems[..i][1..] == elems[1..][..i - 1] && kids[..i][1..] == kids[1..][..i - 1];
      hide Flatten;
      var b, m, r := Before(elems[1..][..i - 1], kids[1..][..i - 1]), Flatten(kids[i]), Behind(elems[i..], kids[i + 1..]);
      var f0, f1, c := Flatten(kids[0]), Flatten(kids[1]), Behind(elems[1..], kids[2..]);
      assert f1 + c == b + m + r;
      assert Behind(elems, kids[1..]) == [elems[0]] + f1 + c;
      assert Before(elems[..i], kids[..i]) == f0 + [elems[0]] + b;
      Regroup(f0, [elems[0]], f1, c, b, m, r);
    }
  }

  lemma Regroup<E>(f0: seq<E>, x: seq<E>, f1: seq<E>, c: seq<E>, b: seq<E>, m: seq<E>, r: seq<E>)
    requires f1 + c == b + m + r
    ensures f0 + (x + f1 + c) == f0 + x + b + m + r
  {
    assert x + f1 + c == x + (f1 + c);
    assert f0 + x + b + m + r == f0 + x + (b + m + r);
  }

  ghost predicate Shaped<E>(t: Tree<E>) {
    t.kids == [] || |t.kids| == |t.elems| + 1
  }

  lemma FlattenAround<E>(t: Tree<E>, i: nat)
    requires |t.kids| == |t.elems| + 1 && i < |t.kids|
    ensures Flatten(t) == Before(t.elems[..i], t.kids[..i]) + Flatten(t.kids[i]) + Behind(t.elems[i..], t.kids[i + 1..])
  {
    AroundChild(t.elems, t.kids, i);
  }

  lemma FlattenFirst<E>(t: Tree<E>)
    requires t.kids != []
    ensures Flatten(t) == Flatten(t.kids[0]) + Behind(t.elems, t.kids[1..])
  {
  }

  lemma BehindHead<E>(elems: seq<E>, kids: seq<Tree<E>>, j: nat)
    requires j < |elems| && j < |kids|
    ensures Behind(elems[j..], kids[j..]) == [elems[j]] + Flatten(kids[j]) + Behind(elems[j + 1..], kids[j + 1..])
  {
    assert elems[j..][1..] == elems[j + 1..] && kids[j..][1..] == kids[j + 1..];
  }

  lemma BehindNone<E>(kids: seq<Tree<E>>)
    ensures Behind([], kids) == []
  {
  }

  lemma FlattenLeaf<E>(t: Tree<E>)
    requires t.kids == []
    ensures Flatten(t) == t.elems
  {
  }

  /** A node may be cut at any element: the parts, with the element between them,
      have the same contents. Splitting, unsplitting and rotating all follow. */
  lemma CutNode<E>(t: Tree<E>, j: nat, l: Tree<E>, r: Tree<E>)
    requires Shaped(t) && j < |t.elems|
    requires l.elems == t.elems[..j] && r.elems == t.elems[j + 1..]
    requires if t.kids == [] then l.kids == [] && r.kids == [] else l.kids == t.kids[..j + 1] && r.kids == t.kids[j + 1..]
    ensures Flatten(t) == Flatten(l) + [t.elems[j]] + Flatten(r)
  {
    hide Flatten, Behind, Before;
    if t.kids == [] {
      FlattenLeaf(t);
      FlattenLeaf(l);
      FlattenLeaf(r);
      assert t.elems == t.elems[..j] + [t.elems[j]] + t.elems[j + 1..];
    } else {
      FlattenAround(t, j);
      FlattenAround(l, j);
      FlattenFirst(r);
      assert l.elems[..j] == t.elems[..j] && l.kids[..j] == t.kids[..j] && l.elems[j..] == [];
      BehindNone(l.kids[j + 1..]);
      BehindHead(t.elems, t.kids[1..], j);
      assert t.kids[1..][j..] == t.kids[j + 1..] && t.kids[1..][j + 1..] == r.kids[1..];
      var b, m := Before(t.elems[..j], t.kids[..j]), Flatten(t.kids[j]);
      var f, c := Flatten(r.kids[0]), Behind(r.elems, r.kids[1..]);
      assert b + m + ([t.elems[j]] + f + c) == (b + m) + [t.elems[j]] + (f + c);
    }
  }

  /** Replacing the rest of a node, from child `i` on, by contents that read the same. */
  lemma SameAround<E>(t: Tree<E>, t': Tree<E>, i: nat)
    requires |t.kids| == |t.elems| + 1 && |t'.kids| == |t'.elems| + 1 && i < |t.kids| && i < |t'.kids|
    requires t'.elems[..i] == t.elems[..i] && t'.kids[..i] == t.kids[..i]
    requires Flatten(t'.kids[i]) + Behind(t'.elems[i..], t'.kids[i + 1..]) == Flatten(t.kids[i]) + Behind(t.elems[i..], t.kids[i + 1..])
    ensures Flatten(t') == Flatten(t)
  {
    hide Flatten, Behind, Before;
    FlattenAround(t, i);
    FlattenAround(t', i);
    Joined(Before(t.elems[..i], t.kids[..i]), Flatten(t.kids[i]), Behind(t.elems[i..], t.kids[i + 1..]));
    Joined(Before(t.elems[..i], t.kids[..i]), Flatten(t'.kids[i]), Behind(t'.elems[i..], t'.kids[i + 1..]));
  }

  lemma Joined<E>(a: seq<E>, b: seq<E>, c: seq<E>)
    ensures a + b + c == a + (b + c)
  {
  }

  lemma Pulled<E>(a: seq<E>, b: seq<E>, c: seq<E>, d: seq<E>)
    ensures a + (b + c + d) == (a + b + c) + d
  {
  }

  lemma Across<E>(a: seq<E>, b: seq<E>, c: seq<E>, d: seq<E>, e: seq<E>)
    ensures a + b + (c + d + e) == (a + b + c) + d + e
  {
  }

  // ----- shape and occupancy -----

  /** All leaves `h` levels down, and no node over-full. */
  ghost predicate Shape<E>(t: Tree<E>, h: nat)
    decreases h
  {
    && |t.elems| < MAX_DEGREE
    && if h == 0 then t.kids == []
       else |t.kids| == |t.elems| + 1 && forall i :: 0 <= i < |t.kids| ==> Shape(t.kids[i], h - 1)
  }

  /** Every node below the root is at least half full. */
  ghost predicate Dense<E>(t: Tree<E>)
    decreases t
  {
    forall i :: 0 <= i < |t.kids| ==> |t.kids[i].elems| >= MIN_DEGREE - 1 && Dense(t.kids[i])
  }

  /** The same, except that the node at `path` may lack one element. */
  ghost predicate DenseBut<E>(t: Tree<E>, path: seq<nat>)
    decreases |path|
  {
    if path == [] then Dense(t)
    else
      && path[0] < |t.kids|
      && (forall i :: 0 <= i < |t.kids| && i != path[0] ==> |t.kids[i].elems| >= MIN_DEGREE - 1 && Dense(t.kids[i]))
      && |t.kids[path[0]].elems| >= (if |path| == 1 then MIN_DEGREE - 2 else MIN_DEGREE - 1)
      && DenseBut(t.kids[path[0]], path[1..])
  }

  // ----- addresses -----

  function AllRefs<E>(t: Tree<E>): set<Ref>
    decreases t
  {
    {t.ref} + KidRefs(t.kids)
  }

  function KidRefs<E>(kids: seq<Tree<E>>): set<Ref>
    decreases kids
  {
    if kids == [] then {} else AllRefs(kids[0]) + KidRefs(kids[1..])
  }

  /** No address occurs twice. */
  ghost predicate Distinct<E>(t: Tree<E>)
    decreases t
  {
    t.ref !in KidRefs(t.kids) && DistinctKids(t.kids)
  }

  ghost predicate DistinctKids<E>(kids: seq<Tree<E>>)
    decreases kids
  {
    kids == [] || (Distinct(kids[0]) && AllRefs(kids[0]) !! KidRefs(kids[1..]) && DistinctKids(kids[1..]))
  }

  lemma {:induction false} KidRefsAppend<E>(a: seq<Tree<E>>, b: seq<Tree<E>>)
    ensures KidRefs(a + b) == KidRefs(a) + KidRefs(b)
    ensures DistinctKids(a + b) <==> DistinctKids(a) && DistinctKids(b) && KidRefs(a) !! KidRefs(b)
    decreases |a|
  {
    if a == [] {
      assert a + b == b;
    } else {
      assert (a + b)[1..] == a[1..] + b;
      KidRefsAppend(a[1..], b);
    }
  }

  lemma OneKid<E>(k: Tree<E>)
    ensures KidRefs([k]) == AllRefs(k) && (DistinctKids([k]) <==> Distinct(k))
  {
    assert [k][1..] == [];
  }

  /** The children around child `i`. */
  lemma KidsAround<E>(kids: seq<Tree<E>>, i: nat)
    requires i < |kids|
    ensures KidRefs(kids) == KidRefs(kids[..i]) + AllRefs(kids[i]) + KidRefs(kids[i + 1..])
    ensures DistinctKids(kids) <==>
              && DistinctKids(kids[..i]) && Distinct(kids[i]) && DistinctKids(kids[i + 1..])
              && KidRefs(kids[..i]) !! AllRefs(kids[i]) && KidRefs(kids[..i]) !! KidRefs(kids[i + 1..])
              && AllRefs(kids[i]) !! KidRefs(kids[i + 1..])
  {
    hide Distinct, AllRefs, KidRefs, DistinctKids;
    assert kids == kids[..i] + ([kids[i]] + kids[i + 1..]);
    KidRefsAppend(kids[..i], [kids[i]] + kids[i + 1..]);
    KidRefsAppend([kids[i]], kids[i + 1..]);
    OneKid(kids[i]);
  }

  lemma KidIn<E>(kids: seq<Tree<E>>, i: nat)
    requires i < |kids|
    ensures AllRefs(kids[i]) <= KidRefs(kids)
  {
    KidsAround(kids, i);
  }

  // ----- the heap -----

  datatype Link = Root | Up(parent: Ref, index: nat)

  /** A node as stored: `link` is parent and parentIndex, `kids` is empty in a leaf. */
  datatype Node<E> = Node(link: Link, elems: seq<E>, kids: seq<Ref>)

  type Heap<E> = map<Ref, Node<E>>

  /** The heap holds `t`: contents and children of every node, and the parent links
      of every node but the top one. */
  ghost predicate Linked<E>(heap: Heap<E>, t: Tree<E>)
    decreases t
  {
    && t.ref in heap && heap[t.ref].elems == t.elems && |heap[t.ref].kids| == |t.kids|
    && forall i :: 0 <= i < |t.kids| ==>
         && heap[t.ref].kids[i] == t.kids[i].ref
         && t.kids[i].ref in heap && heap[t.kids[i].ref].link == Up(t.ref, i)
         && Linked(heap, t.kids[i])
  }

  /** Changing nothing in a subtree but the link of its top node. */
  lemma {:induction false} LinkedFrame<E>(heap: Heap<E>, heap': Heap<E>, t: Tree<E>)
    requires Linked(heap, t)
    requires t.ref in heap' && heap'[t.ref].elems == heap[t.ref].elems && heap'[t.ref].kids == heap[t.ref].kids
    requires forall r :: r in KidRefs(t.kids) ==> r in heap && r in heap' && heap'[r] == heap[r]
    ensures Linked(heap', t)
    decreases t
  {
    forall i | 0 <= i < |t.kids|
      ensures t.kids[i].ref in heap' && heap'[t.kids[i].ref] == heap[t.kids[i].ref] && Linked(heap', t.kids[i])
    {
      var k := t.kids[i];
      KidIn(t.kids, i);
      LinkedFrame(heap, heap', k);
    }
  }

  lemma {:induction false} LinkedRefs<E>(heap: Heap<E>, t: Tree<E>)
    requires Linked(heap, t)
    ensures AllRefs(t) <= heap.Keys
    decreases t
  {
    forall r | r in KidRefs(t.kids) ensures r in heap {
      var i := KidWith(t.kids, r);
      LinkedRefs(heap, t.kids[i]);
    }
  }

  lemma {:induction false} KidWith<E>(kids: seq<Tree<E>>, r: Ref) returns (i: nat)
    requires r in KidRefs(kids)
    ensures i < |kids| && r in AllRefs(kids[i])
  {
    if r in AllRefs(kids[0]) {
      i := 0;
    } else {
      i := KidWith(kids[1..], r);
      i := i + 1;
    }
  }

  // ----- paths -----

  ghost predicate Path<E>(t: Tree<E>, p: seq<nat>)
    decreases |p|
  {
    p == [] || (p[0] < |t.kids| && Path(t.kids[p[0]], p[1..]))
  }

  ghost function At<E>(t: Tree<E>, p: seq<nat>): Tree<E>
    requires Path(t, p)
    decreases |p|
  {
    if p == [] then t else At(t.kids[p[0]], p[1..])
  }

  /** The tree with the subtree at `p` exchanged for `s`. */
  ghost function Replace<E>(t: Tree<E>, p: seq<nat>, s: Tree<E>): Tree<E>
    requires Path(t, p)
    decreases |p|
  {
    if p == [] then s else t.(kids := t.kids[p[0] := Replace(t.kids[p[0]], p[1..], s)])
  }

  /** What comes before the subtree at `p`. */
  ghost function LeftOf<E>(t: Tree<E>, p: seq<nat>): seq<E>
    requires Path(t, p)
    decreases |p|
  {
    if p == [] then []
    else
      var i := p[0];
      (if i <= |t.elems| then Before(t.elems[..i], t.kids[..i]) else []) + LeftOf(t.kids[i], p[1..])
  }

  ghost function RightOf<E>(t: Tree<E>, p: seq<nat>): seq<E>
    requires Path(t, p)
    decreases |p|
  {
    if p == [] then []
    else
      var i := p[0];
      RightOf(t.kids[i], p[1..]) + (if i <= |t.elems| then Behind(t.elems[i..], t.kids[i + 1..]) else [])
  }

  lemma {:induction false} PathContext<E>(t: Tree<E>, h: nat, p: seq<nat>)
    requires Shape(t, h) && Path(t, p)
    ensures |p| <= h && Shape(At(t, p), h - |p|)
    ensures Flatten(t) == LeftOf(t, p) + Flatten(At(t, p)) + RightOf(t, p)
    decreases |p|
  {
    hide Flatten, Behind, Before;
    if p == [] {
      assert [] + Flatten(t) + [] == Flatten(t);
    } else {
      PathContext(t.kids[p[0]], h - 1, p[1..]);
      ContextStep(t, p);
    }
  }

  lemma ContextStep<E>(t: Tree<E>, p: seq<nat>)
    requires Path(t, p) && p != [] && |t.kids| == |t.elems| + 1
    requires var k, q := t.kids[p[0]], p[1..]; Flatten(k) == LeftOf(k, q) + Flatten(At(k, q)) + RightOf(k, q)
    ensures Flatten(t) == LeftOf(t, p) + Flatten(At(t, p)) + RightOf(t, p)
  {
    var i := p[0];
    var k, q := t.kids[i], p[1..];
    assert At(t, p) == At(k, q);
    assert LeftOf(t, p) == Before(t.elems[..i], t.kids[..i]) + LeftOf(k, q);
    assert RightOf(t, p) == RightOf(k, q) + Behind(t.elems[i..], t.kids[i + 1..]);
    hide Flatten, Behind, Before, LeftOf, RightOf, At, Path;
    FlattenAround(t, i);
    Nested(Before(t.elems[..i], t.kids[..i]), LeftOf(k, q), Flatten(At(k, q)), RightOf(k, q), Behind(t.elems[i..], t.kids[i + 1..]));
  }

  lemma Nested<E>(a: seq<E>, b: seq<E>, c: seq<E>, d: seq<E>, e: seq<E>)
    ensures a + (b + c + d) + e == (a + b) + c + (d + e)
  {
  }

  lemma {:induction false} ReplaceShape<E>(t: Tree<E>, h: nat, p: seq<nat>, s: Tree<E>)
    requires Shape(t, h) && Path(t, p) && |p| <= h && Shape(s, h - |p|)
    ensures var t' := Replace(t, p, s); Shape(t', h) && (p != [] ==> t'.ref == t.ref && t'.elems == t.elems)
    decreases |p|
  {
    if p != [] {
      ReplaceShape(t.kids[p[0]], h - 1, p[1..], s);
    }
  }

  lemma {:induction false} ReplacePath<E>(t: Tree<E>, p: seq<nat>, s: Tree<E>)
    requires Path(t, p)
    ensures var t' := Replace(t, p, s);
            Path(t', p) && At(t', p) == s && LeftOf(t', p) == LeftOf(t, p) && RightOf(t', p) == RightOf(t, p)
    decreases |p|
  {
    hide Flatten, Before, Behind;
    if p != [] {
      var i, t' := p[0], Replace(t, p, s);
      ReplacePath(t.kids[i], p[1..], s);
      assert t'.kids[..i] == t.kids[..i] && t'.kids[i + 1..] == t.kids[i + 1..];
      assert t'.kids[i] == Replace(t.kids[i], p[1..], s);
    }
  }

  lemma ReplaceContext<E>(t: Tree<E>, h: nat, p: seq<nat>, s: Tree<E>)
    requires Shape(t, h) && Path(t, p) && |p| <= h && Shape(s, h - |p|)
    ensures var t' := Replace(t, p, s);
            && Shape(t', h) && Path(t', p) && At(t', p) == s
            && LeftOf(t', p) == LeftOf(t, p) && RightOf(t', p) == RightOf(t, p)
            && Flatten(t') == LeftOf(t, p) + Flatten(s) + RightOf(t, p)
            && (p != [] ==> t'.ref == t.ref && t'.elems == t.elems)
  {
    hide Flatten, Shape, Path, At, LeftOf, RightOf, Replace;
    ReplaceShape(t, h, p, s);
    ReplacePath(t, p, s);
    PathContext(Replace(t, p, s), h, p);
  }

  lemma {:induction false} ReplaceRefs<E>(t: Tree<E>, p: seq<nat>, s: Tree<E>)
    requires Path(t, p) && Distinct(t)
    ensures Distinct(At(t, p)) && AllRefs(At(t, p)) <= AllRefs(t)
    ensures AllRefs(Replace(t, p, s)) == (AllRefs(t) - AllRefs(At(t, p))) + AllRefs(s)
    ensures Distinct(s) && AllRefs(s) !! (AllRefs(t) - AllRefs(At(t, p))) ==> Distinct(Replace(t, p, s))
    decreases |p|
  {
    if p != [] {
      KidsAround(t.kids, p[0]);
      ReplaceRefs(t.kids[p[0]], p[1..], s);
      ReplaceKidRefs(t, p[0], Replace(t.kids[p[0]], p[1..], s), AllRefs(At(t, p)), s);
    }
  }

  lemma ReplaceKidRefs<E>(t: Tree<E>, i: nat, k: Tree<E>, was: set<Ref>, s: Tree<E>)
    requires i < |t.kids| && Distinct(t) && was <= AllRefs(t.kids[i])
    requires AllRefs(k) == (AllRefs(t.kids[i]) - was) + AllRefs(s)
    ensures var t' := t.(kids := t.kids[i := k]);
            && was <= AllRefs(t)
            && AllRefs(t') == (AllRefs(t) - was) + AllRefs(s)
            && (Distinct(k) && AllRefs(s) !! (AllRefs(t) - was) ==> Distinct(t'))
  {
    var t' := t.(kids := t.kids[i := k]);
    KidsAround(t.kids, i);
    KidsAround(t'.kids, i);
    assert t'.kids[..i] == t.kids[..i] && t'.kids[i + 1..] == t.kids[i + 1..];
    assert AllRefs(t) == {t.ref} + KidRefs(t.kids) && AllRefs(t') == {t.ref} + KidRefs(t'.kids);
    assert Distinct(t') <==> t.ref !in KidRefs(t'.kids) && DistinctKids(t'.kids);
    hide KidRefs, AllRefs, DistinctKids;
  }

  /** A change inside the subtree at `p` that keeps its top address and link. */
  lemma {:induction false} LinkedReplace<E>(heap: Heap<E>, heap': Heap<E>, t: Tree<E>, p: seq<nat>, s: Tree<E>)
    requires Path(t, p) && Distinct(t) && Linked(heap, t) && Linked(heap', s) && s.ref == At(t, p).ref
    requires s.ref in heap && heap'[s.ref].link == heap[s.ref].link
    requires forall r :: r in AllRefs(t) && r !in AllRefs(At(t, p)) ==> r in heap && r in heap' && heap'[r] == heap[r]
    ensures Linked(heap', Replace(t, p, s))
    ensures heap'[t.ref].link == heap[t.ref].link
    decreases |p|
  {
    if p != [] {
      var i := p[0];
      var t' := Replace(t, p, s);
      KidsAround(t.kids, i);
      ReplaceRefs(t.kids[i], p[1..], s);
      LinkedReplace(heap, heap', t.kids[i], p[1..], s);
      forall j | 0 <= j < |t.kids| && j != i ensures Linked(heap', t.kids[j]) && heap'[t.kids[j].ref].link == Up(t.ref, j) {
        KidsApart(t.kids, i, j);
        KidIn(t.kids, j);
        LinkedFrame(heap, heap', t.kids[j]);
      }
    }
  }

  lemma KidsApart<E>(kids: seq<Tree<E>>, i: nat, j: nat)
    requires DistinctKids(kids) && i < |kids| && j < |kids| && i != j
    ensures AllRefs(kids[i]) !! AllRefs(kids[j])
  {
    hide AllRefs, Distinct, KidRefs, DistinctKids;
    KidsAround(kids, i);
    if j < i {
      KidIn(kids[..i], j);
    } else {
      KidIn(kids[i + 1..], j - i - 1);
    }
  }

  // ----- addresses and paths -----

  lemma {:induction false} FindPath<E>(t: Tree<E>, r: Ref) returns (p: seq<nat>)
    requires r in AllRefs(t)
    ensures Path(t, p) && At(t, p).ref == r
    decreases t
  {
    if r == t.ref {
      p := [];
    } else {
      var i := KidWith(t.kids, r);
      var q := FindPath(t.kids[i], r);
      p := [i] + q;
      assert p[1..] == q;
    }
  }

  lemma {:induction false} AtIn<E>(t: Tree<E>, p: seq<nat>)
    requires Path(t, p)
    ensures AllRefs(At(t, p)) <= AllRefs(t) && At(t, p).ref in AllRefs(t)
    ensures p != [] ==> AllRefs(At(t, p)) <= KidRefs(t.kids)
    decreases |p|
  {
    if p != [] {
      KidIn(t.kids, p[0]);
      AtIn(t.kids[p[0]], p[1..]);
    }
  }

  /** An address determines its path. */
  lemma {:induction false} PathUnique<E>(t: Tree<E>, p: seq<nat>, q: seq<nat>)
    requires Distinct(t) && Path(t, p) && Path(t, q) && At(t, p).ref == At(t, q).ref
    ensures p == q
    decreases |p|
  {
    AtIn(t, p);
    AtIn(t, q);
    if p != [] && q != [] {
      AtIn(t.kids[p[0]], p[1..]);
      AtIn(t.kids[q[0]], q[1..]);
      KidsAround(t.kids, p[0]);
      if p[0] != q[0] {
        KidsApart(t.kids, p[0], q[0]);
      } else {
        PathUnique(t.kids[p[0]], p[1..], q[1..]);
        assert p == [p[0]] + p[1..] && q == [q[0]] + q[1..];
      }
    }
  }

  lemma {:induction false} AtAppend<E>(t: Tree<E>, p: seq<nat>, q: seq<nat>)
    requires Path(t, p) && Path(At(t, p), q)
    ensures Path(t, p + q) && At(t, p + q) == At(At(t, p), q)
    ensures LeftOf(t, p + q) == LeftOf(t, p) + LeftOf(At(t, p), q)
    ensures RightOf(t, p + q) == RightOf(At(t, p), q) + RightOf(t, p)
    decreases |p|
  {
    hide Before, Behind;
    if p == [] {
      assert p + q == q;
    } else {
      var i, k := p[0], t.kids[p[0]];
      assert (p + q)[1..] == p[1..] + q;
      AtAppend(k, p[1..], q);
      var l := if i <= |t.elems| then Before(t.elems[..i], t.kids[..i]) else [];
      var r := if i <= |t.elems| then Behind(t.elems[i..], t.kids[i + 1..]) else [];
      Joined(l, LeftOf(k, p[1..]), LeftOf(At(t, p), q));
      Joined(RightOf(At(t, p), q), RightOf(k, p[1..]), r);
    }
  }

  lemma {:induction false} PathPrefix<E>(t: Tree<E>, p: seq<nat>, n: nat)
    requires Path(t, p) && n <= |p|
    ensures Path(t, p[..n]) && Path(At(t, p[..n]), p[n..])
    decreases |p|
  {
    if n > 0 {
      PathPrefix(t.kids[p[0]], p[1..], n - 1);
      assert p[..n][1..] == p[1..][..n - 1] && p[1..][n - 1..] == p[n..];
    }
  }

  /** The node at `p` is child `p[last]` of the node one level up, and linked so. */
  lemma {:induction false} ParentLink<E>(heap: Heap<E>, t: Tree<E>, p: seq<nat>)
    requires Path(t, p) && p != [] && Linked(heap, t)
    ensures var up, i := p[..|p| - 1], p[|p| - 1];
            && Path(t, up) && i < |At(t, up).kids| && At(t, up).kids[i] == At(t, p)
            && At(t, p).ref in heap && heap[At(t, p).ref].link == Up(At(t, up).ref, i)
    decreases |p|
  {
    var up, i := p[..|p| - 1], p[|p| - 1];
    if |p| > 1 {
      ParentLink(heap, t.kids[p[0]], p[1..]);
      assert p[1..][..|p| - 2] == up[1..];
    } else {
      assert up == [] && p[1..] == [];
    }
  }

  lemma {:induction false} LinkedAt<E>(heap: Heap<E>, t: Tree<E>, p: seq<nat>)
    requires Path(t, p) && Linked(heap, t)
    ensures Linked(heap, At(t, p))
    decreases |p|
  {
    if p != [] {
      LinkedAt(heap, t.kids[p[0]], p[1..]);
    }
  }

  // ----- parts that move as a whole -----

  function Tops<E>(parts: seq<Tree<E>>): set<Ref> {
    set i | 0 <= i < |parts| :: parts[i].ref
  }

  /** `heap'` differs from `heap` in nodes of `touched`, and in the links of `tops`. */
  ghost predicate OnlyLinks<E>(heap: Heap<E>, heap': Heap<E>, touched: set<Ref>, tops: set<Ref>) {
    forall r :: r in heap && r !in touched ==>
      && r in heap' && heap'[r].elems == heap[r].elems && heap'[r].kids == heap[r].kids
      && (r !in tops ==> heap'[r] == heap[r])
  }

  /** Whole subtrees stay linked when only their top links change. */
  lemma PartsLinked<E>(heap: Heap<E>, heap': Heap<E>, parts: seq<Tree<E>>, touched: set<Ref>, tops: set<Ref>, m: nat)
    requires m < |parts| && DistinctKids(parts) && touched !! KidRefs(parts) && tops <= Tops(parts)
    requires Linked(heap, parts[m]) && OnlyLinks(heap, heap', touched, tops)
    ensures Linked(heap', parts[m])
  {
    var x := parts[m];
    LinkedRefs(heap, x);
    KidIn(parts, m);
    KidsAround(parts, m);
    forall r | r in KidRefs(x.kids) ensures r in heap && r in heap' && heap'[r] == heap[r] {
      if r in tops {
        var j :| 0 <= j < |parts| && parts[j].ref == r;
        if j != m { KidsApart(parts, m, j); }
      }
    }
    LinkedFrame(heap, heap', x);
  }

  // ----- local restructuring, on values -----

  function Cut<E>(t: Tree<E>, r: Ref, lo: nat, hi: nat): Tree<E>
    requires lo <= hi <= |t.elems|
  {
    Tree(r, t.elems[lo..hi], if hi < |t.kids| then t.kids[lo..hi + 1] else [])
  }

  lemma CutShape<E>(t: Tree<E>, h: nat, r: Ref, lo: nat, hi: nat)
    requires Shape(t, h) && lo <= hi <= |t.elems|
    ensures Shape(Cut(t, r, lo, hi), h)
  {
  }

  /** A full child split in two around its median, which moves up. */
  function SplitKid<E>(t: Tree<E>, i: nat, s: Ref): Tree<E>
    requires |t.kids| == |t.elems| + 1 && i < |t.kids|
    requires |t.kids[i].elems| == MAX_DEGREE - 1
  {
    var k := t.kids[i];
    Tree(t.ref, t.elems[..i] + [k.elems[MIN_DEGREE - 1]] + t.elems[i..],
         t.kids[..i] + [Cut(k, k.ref, 0, MIN_DEGREE - 1), Cut(k, s, MIN_DEGREE, MAX_DEGREE - 1)] + t.kids[i + 1..])
  }

  /** A full root split in two below its median. */
  function SplitTop<E>(t: Tree<E>, l: Ref, r: Ref): Tree<E>
    requires |t.elems| == MAX_DEGREE - 1
  {
    Tree(t.ref, [t.elems[MIN_DEGREE - 1]], [Cut(t, l, 0, MIN_DEGREE - 1), Cut(t, r, MIN_DEGREE, MAX_DEGREE - 1)])
  }

  /** Children `i` and `i + 1` and the element between them, as one node. */
  function Join<E>(t: Tree<E>, i: nat, r: Ref): Tree<E>
    requires i < |t.elems| && |t.kids| == |t.elems| + 1
  {
    Tree(r, t.kids[i].elems + [t.elems[i]] + t.kids[i + 1].elems, t.kids[i].kids + t.kids[i + 1].kids)
  }

  function JoinKids<E>(t: Tree<E>, i: nat): Tree<E>
    requires i < |t.elems| && |t.kids| == |t.elems| + 1
  {
    Tree(t.ref, t.elems[..i] + t.elems[i + 1..], t.kids[..i] + [Join(t, i, t.kids[i].ref)] + t.kids[i + 2..])
  }

  /** The last element of child `i` moves up, the one above it down to child `i + 1`. */
  function RotateRight<E>(t: Tree<E>, i: nat): Tree<E>
    requires i < |t.elems| && |t.kids| == |t.elems| + 1
    requires |t.kids[i].elems| > 0
  {
    var a, b := t.kids[i], t.kids[i + 1];
    var n := |a.elems| - 1;
    Tree(t.ref, t.elems[i := a.elems[n]],
         t.kids[i := Cut(a, a.ref, 0, n)]
               [i + 1 := Tree(b.ref, [t.elems[i]] + b.elems, if n + 1 < |a.kids| then [a.kids[n + 1]] + b.kids else b.kids)])
  }

  /** The first element of child `i + 1` moves up, the one above it down to child `i`. */
  function RotateLeft<E>(t: Tree<E>, i: nat): Tree<E>
    requires i < |t.elems| && |t.kids| == |t.elems| + 1
    requires |t.kids[i + 1].elems| > 0
  {
    var a, b := t.kids[i], t.kids[i + 1];
    Tree(t.ref, t.elems[i := b.elems[0]],
         t.kids[i := Tree(a.ref, a.elems + [t.elems[i]], if b.kids == [] then a.kids else a.kids + [b.kids[0]])]
               [i + 1 := Cut(b, b.ref, 1, |b.elems|)])
  }

  lemma SplitKidShape<E>(t: Tree<E>, h: nat, i: nat, s: Ref)
    requires h > 0 && Shape(t, h) && i < |t.kids| && |t.kids[i].elems| == MAX_DEGREE - 1 && |t.elems| < MAX_DEGREE - 1
    ensures Shape(SplitKid(t, i, s), h)
  {
    var t' := SplitKid(t, i, s);
    CutShape(t.kids[i], h - 1, t.kids[i].ref, 0, MIN_DEGREE - 1);
    CutShape(t.kids[i], h - 1, s, MIN_DEGREE, MAX_DEGREE - 1);
    hide Cut;
    forall j | 0 <= j < |t'.kids| ensures Shape(t'.kids[j], h - 1) {
      assert j < i ==> t'.kids[j] == t.kids[j];
      assert j > i + 1 ==> t'.kids[j] == t.kids[j - 1];
    }
  }

  lemma SplitTopContents<E>(t: Tree<E>, h: nat, l: Ref, r: Ref)
    requires Shape(t, h) && |t.elems| == MAX_DEGREE - 1
    ensures Flatten(SplitTop(t, l, r)) == Flatten(t) && Shape(SplitTop(t, l, r), h + 1)
  {
    var t' := SplitTop(t, l, r);
    assert Shape(t'.kids[0], h) && Shape(t'.kids[1], h);
    CutNode(t, MIN_DEGREE - 1, t'.kids[0], t'.kids[1]);
    TwoKids(t');
  }

  lemma TwoKids<E>(t: Tree<E>)
    requires |t.elems| == 1 && |t.kids| == 2
    ensures Flatten(t) == Flatten(t.kids[0]) + [t.elems[0]] + Flatten(t.kids[1])
  {
    hide Flatten;
    FlattenFirst(t);
    BehindHead(t.elems, t.kids[1..], 0);
    assert t.elems[0..] == t.elems && t.kids[1..][0..] == t.kids[1..] && t.elems[1..] == [] && t.kids[1..][0] == t.kids[1];
    BehindNone(t.kids[1..][1..]);
    assert Flatten(t.kids[0]) + ([t.elems[0]] + Flatten(t.kids[1]) + []) == Flatten(t.kids[0]) + [t.elems[0]] + Flatten(t.kids[1]);
  }

  lemma JoinContents<E>(t: Tree<E>, h: nat, i: nat, r: Ref)
    requires h > 0 && i < |t.elems| && |t.kids| == |t.elems| + 1
    requires Shape(t.kids[i], h - 1) && Shape(t.kids[i + 1], h - 1)
    requires |t.kids[i].elems| + |t.kids[i + 1].elems| + 1 < MAX_DEGREE
    ensures Flatten(Join(t, i, r)) == Flatten(t.kids[i]) + [t.elems[i]] + Flatten(t.kids[i + 1]) && Shape(Join(t, i, r), h - 1)
  {
    var a, b, j := t.kids[i], t.kids[i + 1], Join(t, i, r);
    assert j.elems[..|a.elems|] == a.elems && j.elems[|a.elems| + 1..] == b.elems && j.elems[|a.elems|] == t.elems[i];
    if a.kids == [] {
      assert b.kids == [] && j.kids == [];
    } else {
      assert j.kids[..|a.elems| + 1] == a.kids && j.kids[|a.elems| + 1..] == b.kids;
    }
    CutNode(j, |a.elems|, a, b);
  }

  lemma JoinKidsShape<E>(t: Tree<E>, h: nat, i: nat)
    requires h > 0 && Shape(t, h) && i < |t.elems|
    requires |t.kids[i].elems| + |t.kids[i + 1].elems| + 1 < MAX_DEGREE
    ensures Shape(JoinKids(t, i), h)
  {
    JoinContents(t, h, i, t.kids[i].ref);
    var t' := JoinKids(t, i);
    forall j | 0 <= j < |t'.kids| ensures Shape(t'.kids[j], h - 1) {
      assert j < i ==> t'.kids[j] == t.kids[j];
      assert j > i ==> t'.kids[j] == t.kids[j + 1];
    }
  }

  lemma JoinKidsContents<E>(t: Tree<E>, h: nat, i: nat)
    requires h > 0 && Shape(t, h) && i < |t.elems|
    requires |t.kids[i].elems| + |t.kids[i + 1].elems| + 1 < MAX_DEGREE
    ensures Flatten(JoinKids(t, i)) == Flatten(t)
  {
    var t' := JoinKids(t, i);
    JoinContents(t, h, i, t.kids[i].ref);
    hide Flatten, Behind, Shape;
    BehindHead(t.elems, t.kids[1..], i);
    assert t.kids[1..][i..] == t.kids[i + 1..] && t.kids[1..][i + 1..] == t.kids[i + 2..] && t.kids[1..][i] == t.kids[i + 1];
    assert t'.elems[..i] == t.elems[..i] && t'.kids[..i] == t.kids[..i];
    assert t'.elems[i..] == t.elems[i + 1..] && t'.kids[i + 1..] == t.kids[i + 2..];
    var rest := Behind(t.elems[i + 1..], t.kids[i + 2..]);
    var a, b := Flatten(t.kids[i]), Flatten(t.kids[i + 1]);
    Pulled(a, [t.elems[i]], b, rest);
    SameAround(t, t', i);
  }

  /** Two neighbouring children and the element between them exchanged for two others
      that read the same. */
  lemma PairContents<E>(t: Tree<E>, i: nat, x: E, a: Tree<E>, b: Tree<E>)
    requires i < |t.elems| && |t.kids| == |t.elems| + 1
    requires Flatten(a) + [x] + Flatten(b) == Flatten(t.kids[i]) + [t.elems[i]] + Flatten(t.kids[i + 1])
    ensures Flatten(Tree(t.ref, t.elems[i := x], t.kids[i := a][i + 1 := b])) == Flatten(t)
  {
    var t' := Tree(t.ref, t.elems[i := x], t.kids[i := a][i + 1 := b]);
    hide Flatten, Behind;
    BehindHead(t.elems, t.kids[1..], i);
    BehindHead(t'.elems, t'.kids[1..], i);
    assert t.kids[1..][i..] == t.kids[i + 1..] && t.kids[1..][i + 1..] == t.kids[i + 2..] && t.kids[1..][i] == t.kids[i + 1];
    assert t'.kids[1..][i..] == t'.kids[i + 1..] && t'.kids[1..][i + 1..] == t.kids[i + 2..] && t'.kids[1..][i] == b;
    assert t'.elems[..i] == t.elems[..i] && t'.kids[..i] == t.kids[..i] && t'.elems[i + 1..] == t.elems[i + 1..];
    var rest := Behind(t.elems[i + 1..], t.kids[i + 2..]);
    Pulled(Flatten(a), [x], Flatten(b), rest);
    var c, d := Flatten(t.kids[i]), Flatten(t.kids[i + 1]);
    Pulled(c, [t.elems[i]], d, rest);
    SameAround(t, t', i);
  }

  lemma RotateRightShape<E>(t: Tree<E>, h: nat, i: nat)
    requires h > 0 && Shape(t, h) && i < |t.elems| && |t.kids[i].elems| > 0 && |t.kids[i + 1].elems| < MAX_DEGREE - 1
    ensures Shape(RotateRight(t, i), h)
  {
    var t' := RotateRight(t, i);
    assert Shape(t.kids[i], h - 1) && Shape(t.kids[i + 1], h - 1);
    assert Shape(t'.kids[i], h - 1) && Shape(t'.kids[i + 1], h - 1);
  }

  /** Moving the last element and child of `a` across to the front of `b`. */
  lemma MovedAcross<E>(a: Tree<E>, b: Tree<E>, y: E, a': Tree<E>, b': Tree<E>)
    requires Shaped(a) && Shaped(b) && (a.kids == [] <==> b.kids == []) && |a.elems| > 0
    requires a' == Cut(a, a'.ref, 0, |a.elems| - 1)
    requires b'.elems == [y] + b.elems && b'.kids == (if |a.elems| < |a.kids| then [a.kids[|a.elems|]] + b.kids else b.kids)
    ensures Flatten(a') + [a.elems[|a.elems| - 1]] + Flatten(b') == Flatten(a) + [y] + Flatten(b)
  {
    hide Flatten;
    var n := |a.elems| - 1;
    var x := a.elems[n];
    var end := Tree(0, [], if a.kids == [] then [] else [a.kids[n + 1]]);
    LastOff(a, a', end);
    FirstOn(b, y, b', end);
    hide Cut;
    CutNode(a, n, a', end);
    CutNode(b', 0, end, b);
    assert Flatten(b') == Flatten(end) + [y] + Flatten(b);
    Across(Flatten(a'), [x], Flatten(end), [y], Flatten(b));
  }

  lemma LastOff<E>(a: Tree<E>, a': Tree<E>, end: Tree<E>)
    requires Shaped(a) && |a.elems| > 0 && a' == Cut(a, a'.ref, 0, |a.elems| - 1)
    requires end.elems == [] && end.kids == if a.kids == [] then [] else [a.kids[|a.elems|]]
    ensures var n := |a.elems| - 1;
            && a'.elems == a.elems[..n] && end.elems == a.elems[n + 1..]
            && if a.kids == [] then a'.kids == [] && end.kids == [] else a'.kids == a.kids[..n + 1] && end.kids == a.kids[n + 1..]
  {
  }

  lemma FirstOn<E>(b: Tree<E>, y: E, b': Tree<E>, end: Tree<E>)
    requires Shaped(b) && (end.kids == [] <==> b.kids == []) && |end.kids| <= 1 && end.elems == []
    requires b'.elems == [y] + b.elems && b'.kids == end.kids + b.kids
    ensures Shaped(b') && b'.elems[0] == y && b'.elems[..0] == end.elems && b'.elems[1..] == b.elems
    ensures if b'.kids == [] then end.kids == [] && b.kids == [] else b'.kids[..1] == end.kids && b'.kids[1..] == b.kids
  {
  }

  lemma RotateRightContents<E>(t: Tree<E>, h: nat, i: nat)
    requires h > 0 && Shape(t, h) && i < |t.elems| && |t.kids[i].elems| > 0
    ensures Flatten(RotateRight(t, i)) == Flatten(t)
  {
    var a, b := t.kids[i], t.kids[i + 1];
    var t' := RotateRight(t, i);
    assert Shape(a, h - 1) && Shape(b, h - 1);
    hide Flatten, Shape;
    MovedAcross(a, b, t.elems[i], t'.kids[i], t'.kids[i + 1]);
    PairContents(t, i, a.elems[|a.elems| - 1], t'.kids[i], t'.kids[i + 1]);
  }

  /** Unsplitting undoes splitting. */
  lemma JoinSplit<E>(t: Tree<E>, i: nat, s: Ref)
    requires |t.kids| == |t.elems| + 1 && i < |t.kids| && |t.kids[i].elems| == MAX_DEGREE - 1 && Shaped(t.kids[i])
    ensures JoinKids(SplitKid(t, i, s), i) == t
  {
    var k, t' := t.kids[i], SplitKid(t, i, s);
    var l, r := t'.kids[i], t'.kids[i + 1];
    assert t'.elems[i] == k.elems[MIN_DEGREE - 1];
    assert l.elems + [t'.elems[i]] + r.elems == k.elems;
    assert l.kids + r.kids == k.kids;
    assert Join(t', i, l.ref) == k;
    assert t'.elems[..i] + t'.elems[i + 1..] == t.elems;
    assert t'.kids[..i] + [k] + t'.kids[i + 2..] == t.kids;
  }

  lemma SplitKidContents<E>(t: Tree<E>, h: nat, i: nat, s: Ref)
    requires h > 0 && Shape(t, h) && i < |t.kids| && |t.kids[i].elems| == MAX_DEGREE - 1 && |t.elems| < MAX_DEGREE - 1
    ensures Flatten(SplitKid(t, i, s)) == Flatten(t)
  {
    assert Shape(t.kids[i], h - 1);
    SplitKidShape(t, h, i, s);
    JoinSplit(t, i, s);
    JoinKidsContents(SplitKid(t, i, s), h, i);
  }

  /** Rotating right undoes rotating left. */
  lemma RotateBack<E>(t: Tree<E>, i: nat)
    requires i < |t.elems| && |t.kids| == |t.elems| + 1
    requires |t.kids[i + 1].elems| > 0 && Shaped(t.kids[i]) && Shaped(t.kids[i + 1]) && (t.kids[i].kids == [] <==> t.kids[i + 1].kids == [])
    ensures RotateRight(RotateLeft(t, i), i) == t
  {
    var a, b := t.kids[i], t.kids[i + 1];
    var t' := RotateLeft(t, i);
    var a', b', t'' := t'.kids[i], t'.kids[i + 1], RotateRight(t', i);
    assert a'.elems[..|a.elems|] == a.elems && a'.elems[|a.elems|] == t.elems[i] && t'.elems[i] == b.elems[0];
    assert b'.elems == b.elems[1..] && [b.elems[0]] + b.elems[1..] == b.elems;
    if a.kids != [] {
      assert a'.kids[..|a.kids|] == a.kids && a'.kids[|a.kids|] == b.kids[0];
      assert b'.kids == b.kids[1..] && [b.kids[0]] + b.kids[1..] == b.kids;
    }
    assert Cut(a', a.ref, 0, |a.elems|) == a;
    assert t''.kids[i] == a && t''.kids[i + 1] == b;
    assert t''.elems == t.elems && t''.kids == t.kids;
  }

  lemma RotateLeftShape<E>(t: Tree<E>, h: nat, i: nat)
    requires h > 0 && Shape(t, h) && i < |t.elems| && |t.kids[i + 1].elems| > 0 && |t.kids[i].elems| < MAX_DEGREE - 1
    ensures Shape(RotateLeft(t, i), h)
  {
    var t' := RotateLeft(t, i);
    assert Shape(t.kids[i], h - 1) && Shape(t.kids[i + 1], h - 1);
    assert Shape(t'.kids[i], h - 1) && Shape(t'.kids[i + 1], h - 1);
  }

  lemma RotateLeftContents<E>(t: Tree<E>, h: nat, i: nat)
    requires h > 0 && Shape(t, h) && i < |t.elems| && |t.kids[i + 1].elems| > 0 && |t.kids[i].elems| < MAX_DEGREE - 1
    ensures Flatten(RotateLeft(t, i)) == Flatten(t)
  {
    assert Shape(t.kids[i], h - 1) && Shape(t.kids[i + 1], h - 1);
    RotateLeftShape(t, h, i);
    RotateBack(t, i);
    RotateRightContents(RotateLeft(t, i), h, i);
  }
}

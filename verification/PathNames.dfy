/** References, names and path nodes of the 9P server from one state to another: what an
    operation keeps, adds, marks or moves. */
module PathNames {
  import opened Ownership
  import opened Ancestry

  ghost predicate HasName(paths: Paths, n: Node, c: Id, name: string) {
    n in paths && c in paths[n].names && paths[n].names[c] == name
  }

  ghost predicate HasChild(paths: Paths, n: Node, name: string, m: Node) {
    n in paths && name in paths[n].children && paths[n].children[name] == m
  }

  /** Closed, and not while it moved. */
  ghost predicate Dead(refs: Refs, x: Id) {
    x in refs && refs[x].closes > 0 && !refs[x].lost
  }

  // ----- operations that only add -----

  /** New references may appear; of the others only counts change, and files may be closed. */
  ghost predicate Kept(a: Refs, b: Refs) {
    a.Keys <= b.Keys &&
    forall x :: x in a ==> b[x] == a[x].(count := b[x].count, closes := b[x].closes) && a[x].closes <= b[x].closes
  }

  /** A name is lost only by closing its reference. */
  ghost predicate NamesKept(b: Refs, p: Paths, q: Paths) {
    forall n, x, s {:trigger HasName(q, n, x, s)} {:trigger HasName(p, n, x, s)} ::
      HasName(p, n, x, s) ==> HasName(q, n, x, s) || Dead(b, x)
  }

  /** Entries stay; new ones at old nodes are called one of `names`. */
  ghost predicate TreeGrown(p: Paths, q: Paths, names: seq<string>) {
    && p.Keys <= q.Keys
    && (forall n, s, m {:trigger HasChild(q, n, s, m)} {:trigger HasChild(p, n, s, m)} :: HasChild(p, n, s, m) ==> HasChild(q, n, s, m))
    && (forall n, s, m {:trigger HasChild(q, n, s, m)} :: n in p && HasChild(q, n, s, m) ==> HasChild(p, n, s, m) || s in names)
  }

  /** The frame of every operation that neither unlinks nor renames. */
  ghost predicate Grown(a: Refs, p: Paths, b: Refs, q: Paths, names: seq<string>) {
    Kept(a, b) && NamesKept(b, p, q) && TreeGrown(p, q, names) && SameLoops(a, b)
  }

  lemma GrownNone(a: Refs, p: Paths, names: seq<string>)
    ensures Grown(a, p, a, p, names)
  {
  }

  lemma GrownThen(a: Refs, p: Paths, b: Refs, q: Paths, c: Refs, r: Paths, names: seq<string>)
    requires Grown(a, p, b, q, names) && Grown(b, q, c, r, names)
    ensures Grown(a, p, c, r, names)
  {
    NamesKeptThen(b, c, p, q, r);
    TreeGrownThen(p, q, r, names);
    SameLoopsThen(a, b, c);
  }

  lemma GrownStep(a: Refs, p: Paths, b: Refs, q: Paths, c: Refs, r: Paths, few: seq<string>, names: seq<string>)
    requires Grown(a, p, b, q, names) && Grown(b, q, c, r, few) && forall s :: s in few ==> s in names
    ensures Grown(a, p, c, r, names)
  {
    hide Grown;
    GrownMore(b, q, c, r, few, names);
    GrownThen(a, p, b, q, c, r, names);
  }

  lemma NamesKeptThen(b: Refs, c: Refs, p: Paths, q: Paths, r: Paths)
    requires NamesKept(b, p, q) && Kept(b, c) && NamesKept(c, q, r)
    ensures NamesKept(c, p, r)
  {
  }

  lemma TreeGrownThen(p: Paths, q: Paths, r: Paths, names: seq<string>)
    requires TreeGrown(p, q, names) && TreeGrown(q, r, names)
    ensures TreeGrown(p, r, names)
  {
  }

  lemma SameChildren(p: Paths, q: Paths)
    requires TreeGrown(p, q, [])
    ensures forall n :: n in p ==> n in q && q[n].children == p[n].children
  {
    forall n | n in p ensures q[n].children == p[n].children {
      forall s | s in p[n].children ensures s in q[n].children && q[n].children[s] == p[n].children[s] {
        assert HasChild(p, n, s, p[n].children[s]);
      }
      forall s | s in q[n].children ensures s in p[n].children {
        assert HasChild(q, n, s, q[n].children[s]);
      }
    }
  }

  lemma GrownMore(a: Refs, p: Paths, b: Refs, q: Paths, few: seq<string>, names: seq<string>)
    requires Grown(a, p, b, q, few) && forall s :: s in few ==> s in names
    ensures Grown(a, p, b, q, names)
  {
  }

  lemma KeptAt(a: Refs, p: Paths, b: Refs, q: Paths, names: seq<string>, x: Id)
    requires Grown(a, p, b, q, names) && x in a
    ensures x in b && b[x] == a[x].(count := b[x].count, closes := b[x].closes) && a[x].closes <= b[x].closes
  {
  }

  /** Only counts change. */
  ghost predicate Touched(a: Refs, b: Refs) {
    b.Keys == a.Keys && forall r :: r in a ==> b[r] == a[r].(count := b[r].count)
  }

  lemma TouchedGrown(a: Refs, b: Refs, p: Paths)
    requires Touched(a, b)
    ensures Grown(a, p, b, p, [])
  {
    KeepsLoops(a, b);
  }

  lemma TouchedThen(a: Refs, b: Refs, c: Refs)
    requires Touched(a, b) && Touched(b, c)
    ensures Touched(a, c)
  {
  }

  lemma TouchedAt(a: Refs, b: Refs, r: Id)
    requires Touched(a, b) && (r in a || r in b)
    ensures r in a && r in b && b[r] == a[r].(count := b[r].count)
  {
  }

  lemma RecountTouches(refs: Refs, r: Id)
    requires r in refs
    ensures Touched(refs, Recount(refs, r, 1))
  {
  }

  lemma FadedGrown(a: Refs, p: Paths, b: Refs, q: Paths)
    requires Faded(a, b) && Thinned(p, q) && NamesKept(b, p, q) && SameLoops(a, b)
    ensures Grown(a, p, b, q, [])
  {
    assert forall n, s, m :: HasChild(q, n, s, m) <==> HasChild(p, n, s, m);
  }

  lemma NameOff(b: Refs, p: Paths, n: Node, r: Id)
    requires n in p && Dead(b, r)
    ensures NamesKept(b, p, Unname(p, n, r))
  {
  }

  lemma NamesKeptNone(b: Refs, p: Paths)
    ensures NamesKept(b, p, p)
  {
  }

  /** A new reference, registered. */
  lemma BirthGrown(refs: Refs, fids: Fids, held: multiset<Id>, p: Paths, q: Paths, c: Id, f: FidRef, n: Node, name: string)
    requires Counted(refs, fids, held, {}) && Registered(refs, p, {}) && c !in refs && (f.parent.Some? ==> f.parent.value in held)
    requires q == p || (n in p && q == Rename(p, n, c, name))
    ensures Grown(refs, p, refs[c := f], q, [])
  {
    BirthKeepsLoops(refs, fids, held, c, f);
    forall m, x, s | HasName(p, m, x, s) ensures HasName(q, m, x, s) {
      assert Named(p, m, x);
    }
    assert forall m, s, k :: HasChild(q, m, s, k) <==> HasChild(p, m, s, k);
  }

  /** A new path node. */
  lemma AddNodeGrown(refs: Refs, p: Paths, n: Node, name: string, m: Node)
    requires n in p && m !in p && name !in p[n].children
    ensures Grown(refs, p, refs, AddNode(p, n, name, m), [name]) && HasChild(AddNode(p, n, name, m), n, name, m)
  {
    assert forall k, x, s :: HasName(p, k, x, s) ==> HasName(AddNode(p, n, name, m), k, x, s);
    assert forall k, s, l :: HasChild(p, k, s, l) ==> HasChild(AddNode(p, n, name, m), k, s, l);
  }

  // ----- walks -----

  /** `c` is where the names lead from `r`: a chain of fresh references, each registered under
      its name with the path node of its parent, and with that entry's path node. */
  ghost predicate Reached(refs: Refs, paths: Paths, r: Id, c: Id, names: seq<string>)
    decreases |names|
  {
    if names == [] then c == r
    else
      var name := names[|names| - 1];
      && c in refs && !refs[c].deleted && !refs[c].isOpen
      && refs[c].parent.Some? && refs[c].parent.value in refs
      && HasName(paths, refs[refs[c].parent.value].node, c, name)
      && HasChild(paths, refs[refs[c].parent.value].node, name, refs[c].node)
      && Reached(refs, paths, r, refs[c].parent.value, names[..|names| - 1])
  }

  lemma {:induction false} ReachedKept(a: Refs, p: Paths, b: Refs, q: Paths, fids: Fids, held: multiset<Id>, r: Id, c: Id, names: seq<string>, l: seq<string>)
    requires Reached(a, p, r, c, names) && Grown(a, p, b, q, l) && Counted(b, fids, held, {}) && Live(b, c)
    ensures Reached(b, q, r, c, names)
    decreases |names|
  {
    hide SameLoops;
    if names != [] {
      ReachedKept(a, p, b, q, fids, held, r, a[c].parent.value, names[..|names| - 1], l);
    }
  }

  lemma ReachedStep(refs: Refs, paths: Paths, r: Id, p: Id, c: Id, names: seq<string>, i: nat)
    requires i < |names| && Reached(refs, paths, r, p, names[..i])
    requires c in refs && !refs[c].deleted && !refs[c].isOpen && refs[c].parent == Some(p) && p in refs
    requires HasName(paths, refs[p].node, c, names[i]) && HasChild(paths, refs[p].node, names[i], refs[c].node)
    ensures Reached(refs, paths, r, c, names[..i + 1])
  {
    assert names[..i + 1][..i] == names[..i];
  }

  // ----- path nodes -----

  /** Equal but at `n` and at new nodes. */
  ghost predicate AgreeBut(a: Paths, b: Paths, n: Node) {
    a.Keys <= b.Keys && forall x :: x in a && x != n ==> b[x] == a[x]
  }

  lemma AgreeThen(a: Paths, b: Paths, c: Paths, n: Node)
    requires AgreeBut(a, b, n) && AgreeBut(b, c, n)
    ensures AgreeBut(a, c, n)
  {
  }

  /** Every name stays, but `name` in `n` may go. */
  ghost predicate NamesBut(a: Paths, b: Paths, n: Node, name: string) {
    forall m, c, s {:trigger HasName(b, m, c, s)} {:trigger HasName(a, m, c, s)} ::
      HasName(a, m, c, s) && !(m == n && s == name) ==> HasName(b, m, c, s)
  }

  lemma NamesButSame(a: Paths, b: Paths, c: Paths, n: Node, name: string)
    requires NamesBut(a, b, n, name) && SameNames(b, c)
    ensures NamesBut(a, c, n, name)
  {
  }

  lemma UnnameLike(a: Paths, b: Paths, n: Node, r: Id, name: string)
    requires AgreeBut(a, b, n) && n in a && n in b && b[n].children == a[n].children && NamesBut(a, b, n, name)
    requires r in b[n].names && b[n].names[r] == name
    ensures var c := Unname(b, n, r); AgreeBut(a, c, n) && n in c && c[n].children == a[n].children && NamesBut(a, c, n, name)
  {
    assert forall m, x, s :: HasName(b, m, x, s) && !(m == n && s == name) ==> HasName(Unname(b, n, r), m, x, s);
  }

  lemma SetChildren(paths: Paths, n: Node, children: map<string, Node>, next: nat)
    requires Rooted(paths, next) && n in paths && forall s :: s in children ==> n < children[s] && children[s] in paths
    ensures var paths' := paths[n := paths[n].(children := children)];
            Rooted(paths', next) && SameNames(paths, paths') && AgreeBut(paths, paths', n)
  {
  }

  lemma SameNamesThen(a: Paths, b: Paths, c: Paths)
    requires SameNames(a, b) && SameNames(b, c)
    ensures SameNames(a, c)
  {
  }

  // ----- deleting -----

  /** The node that names lead to from `n`. */
  ghost function At(paths: Paths, n: Node, names: seq<string>): Option<Node>
    decreases |names|
  {
    if n !in paths then None
    else if names == [] then Some(n)
    else if names[0] !in paths[n].children then None
    else At(paths, paths[n].children[names[0]], names[1..])
  }

  ghost predicate Sits(paths: Paths, m: Option<Node>, x: Id) {
    m.Some? && Named(paths, m.value, x)
  }

  /** `x` is registered with `n` or somewhere below. */
  ghost predicate InSubtree(paths: Paths, n: Node, x: Id) {
    exists names :: Sits(paths, At(paths, n, names), x)
  }

  /** Removing entry `name` of `n` concerns `x`. */
  ghost predicate Struck(paths: Paths, n: Node, name: string, x: Id) {
    HasName(paths, n, x, name) || (n in paths && name in paths[n].children && InSubtree(paths, paths[n].children[name], x))
  }

  /** Exactly the references with the name, and those below, are marked as deleted. */
  ghost predicate Unlinked(paths: Paths, a: Refs, b: Refs, n: Node, name: string) {
    b.Keys == a.Keys && forall x :: x in a ==> (b[x].deleted <==> a[x].deleted || Struck(paths, n, name, x))
  }

  /** Exactly the references registered with `n` or below are newly marked. */
  ghost predicate Wiped(paths: Paths, a: Refs, b: Refs, n: Node) {
    b.Keys == a.Keys && forall x :: x in a ==> (b[x].deleted <==> a[x].deleted || InSubtree(paths, n, x))
  }

  lemma SubtreeIs(paths: Paths, n: Node, x: Id)
    requires n in paths
    ensures InSubtree(paths, n, x) <==>
              Named(paths, n, x) || exists s :: s in paths[n].children && InSubtree(paths, paths[n].children[s], x)
  {
    if Named(paths, n, x) {
      assert Sits(paths, At(paths, n, []), x);
    }
    if s :| s in paths[n].children && InSubtree(paths, paths[n].children[s], x) {
      var names :| Sits(paths, At(paths, paths[n].children[s], names), x);
      assert ([s] + names)[1..] == names;
      assert Sits(paths, At(paths, n, [s] + names), x);
    }
    if names :| Sits(paths, At(paths, n, names), x) {
      if names != [] {
        assert Sits(paths, At(paths, paths[n].children[names[0]], names[1..]), x);
      }
    }
  }

  /** With the names of `n` and the entries not in `left` done. */
  ghost predicate WipedBut(paths: Paths, a: Refs, b: Refs, n: Node, left: set<string>) {
    && b.Keys == a.Keys
    && n in paths
    && forall x :: x in a ==>
         (b[x].deleted <==> a[x].deleted || Named(paths, n, x) || BelowBut(paths, n, left, x))
  }

  ghost predicate BelowBut(paths: Paths, n: Node, left: set<string>, x: Id)
    requires n in paths
  {
    exists s :: s in paths[n].children && s !in left && InSubtree(paths, paths[n].children[s], x)
  }

  lemma WipedNames(paths: Paths, a: Refs, b: Refs, n: Node)
    requires b.Keys == a.Keys && n in paths && forall x :: x in a ==> (b[x].deleted <==> a[x].deleted || x in paths[n].names)
    ensures WipedBut(paths, a, b, n, paths[n].children.Keys)
  {
  }

  lemma WipedNext(paths: Paths, a: Refs, b: Refs, c: Refs, n: Node, left: set<string>, name: string)
    requires WipedBut(paths, a, b, n, left) && name in paths[n].children && Wiped(paths, b, c, paths[n].children[name])
    ensures WipedBut(paths, a, c, n, left - {name})
  {
    forall x | x in a ensures BelowBut(paths, n, left - {name}, x) <==> BelowBut(paths, n, left, x) || InSubtree(paths, paths[n].children[name], x) {
    }
  }

  lemma WipedAll(paths: Paths, a: Refs, b: Refs, n: Node)
    requires WipedBut(paths, a, b, n, {})
    ensures Wiped(paths, a, b, n)
  {
    forall x | x in a ensures InSubtree(paths, n, x) <==> Named(paths, n, x) || BelowBut(paths, n, {}, x) {
      SubtreeIs(paths, n, x);
    }
  }

  lemma {:induction false} AtAgree(a: Paths, b: Paths, n: Node, m: Node, next: nat, names: seq<string>)
    requires AgreeBut(a, b, n) && Rooted(a, next) && n < m && m in a
    ensures At(b, m, names) == At(a, m, names)
    ensures At(a, m, names).Some? ==> At(a, m, names).value in a && n < At(a, m, names).value
    decreases |names|
  {
    if names != [] && names[0] in a[m].children {
      AtAgree(a, b, n, a[m].children[names[0]], next, names[1..]);
    }
  }

  lemma SubtreeAgree(a: Paths, b: Paths, n: Node, m: Node, next: nat, x: Id)
    requires AgreeBut(a, b, n) && Rooted(a, next) && n < m && m in a
    ensures InSubtree(b, m, x) <==> InSubtree(a, m, x)
  {
    forall names ensures Sits(b, At(b, m, names), x) <==> Sits(a, At(a, m, names), x) {
      AtAgree(a, b, n, m, next, names);
    }
  }

  lemma EmptySubtree(paths: Paths, m: Node, x: Id)
    requires m in paths && paths[m] == PathNode(map[], map[])
    ensures !InSubtree(paths, m, x)
  {
    SubtreeIs(paths, m, x);
  }

  /** The references with the name are unregistered and marked, then what is below the entry. */
  lemma UnlinkedBy(was: Paths, paths: Paths, a: Refs, b: Refs, c: Refs, n: Node, name: string, m: Node, next: nat)
    requires n in was && Rooted(was, next) && AgreeBut(was, paths, n) && b.Keys == a.Keys
    requires forall x :: x in a ==> (b[x].deleted <==> a[x].deleted || HasName(was, n, x, name))
    requires Wiped(paths, b, c, m)
    requires if name in was[n].children then m == was[n].children[name] else m in paths && paths[m] == PathNode(map[], map[])
    ensures Unlinked(was, a, c, n, name)
  {
    forall x | x in a ensures c[x].deleted <==> a[x].deleted || Struck(was, n, name, x) {
      if name in was[n].children {
        SubtreeAgree(was, paths, n, m, next, x);
      } else {
        EmptySubtree(paths, m, x);
      }
    }
  }

  /** An entry made just before is empty. */
  lemma UnlinkedFrom(p: Paths, q: Paths, a: Refs, b: Refs, n: Node, name: string, m: Node)
    requires n in p && SameNames(p, q) && Unlinked(q, a, b, n, name)
    requires if name in p[n].children then q == p else HasChild(q, n, name, m) && m in q && q[m] == PathNode(map[], map[])
    ensures Unlinked(p, a, b, n, name)
  {
    forall x | x in a ensures Struck(p, n, name, x) <==> Struck(q, n, name, x) {
      if name !in p[n].children { EmptySubtree(q, m, x); }
    }
  }

  /** What the removal of entry `name` of `n` amounts to. */
  ghost predicate UnlinkDone(p: Paths, q: Paths, a: Refs, b: Refs, n: Node, name: string) {
    && Unlinked(p, a, b, n, name)
    && (forall x :: x in a ==>
          x in b && b[x] == a[x].(count := b[x].count, closes := b[x].closes, deleted := b[x].deleted) && a[x].closes <= b[x].closes)
    && NamesButDead(p, q, b, n, name)
    && (forall m :: m in p ==> m in q && q[m].children == if m == n then p[m].children - {name} else p[m].children)
    && SameLoops(a, b)
  }

  ghost predicate NamesButDead(p: Paths, q: Paths, b: Refs, n: Node, name: string) {
    forall m, x, s {:trigger HasName(q, m, x, s)} {:trigger HasName(p, m, x, s)} ::
      HasName(p, m, x, s) && !(m == n && s == name) ==> HasName(q, m, x, s) || Dead(b, x)
  }

  lemma UnlinkBy(p: Paths, q: Paths, a: Refs, b: Refs, n: Node, name: string)
    requires n in p && Marked(a, b) && Unlinked(p, a, b, n, name) && NamesBut(p, q, n, name)
    requires AgreeBut(p, q, n) && n in q && q[n].children == p[n].children - {name}
    ensures UnlinkDone(p, q, a, b, n, name)
  {
    KeepsLoops(a, b);
  }

  /** With the path node of the entry made just before. */
  lemma UnlinkMade(p: Paths, mid: Paths, q: Paths, a: Refs, b: Refs, n: Node, name: string, m: Node)
    requires n in p && SameNames(p, mid) && AgreeBut(p, mid, n) && HasChild(mid, n, name, m) && m in mid
    requires name in p[n].children ==> mid == p
    requires name !in p[n].children ==> mid[n].children == p[n].children[name := m] && mid[m] == PathNode(map[], map[])
    requires Marked(a, b) && Unlinked(mid, a, b, n, name) && NamesBut(mid, q, n, name)
    requires AgreeBut(mid, q, n) && n in q && q[n].children == mid[n].children - {name}
    ensures UnlinkDone(p, q, a, b, n, name)
  {
    UnlinkedFrom(p, mid, a, b, n, name, m);
    assert forall k, x, s :: HasName(p, k, x, s) ==> HasName(mid, k, x, s);
    hide Unlinked, SameNames;
    AgreeThen(p, mid, q, n);
    UnlinkBy(p, q, a, b, n, name);
  }

  /** Counts before, drops after. */
  lemma UnlinkAround(p: Paths, q: Paths, q': Paths, a: Refs, a': Refs, b: Refs, b': Refs, n: Node, name: string)
    requires Touched(a, a') && UnlinkDone(p, q, a', b, n, name)
    requires Grown(b, q, b', q', []) && b'.Keys == b.Keys
    ensures UnlinkDone(p, q', a, b', n, name)
  {
    hide SameLoops, Struck, TreeGrown, Looped, LiveLoop, NamesKept, NamesButDead, HasName, HasChild;
    KeepsLoops(a, a');
    SameLoopsThen(a, a', b);
    SameLoopsThen(a, b, b');
    SameChildren(q, q');
    NamesButAround(p, q, q', b, b', n, name);
  }

  lemma NamesButAround(p: Paths, q: Paths, q': Paths, b: Refs, b': Refs, n: Node, name: string)
    requires NamesButDead(p, q, b, n, name) && Kept(b, b') && NamesKept(b', q, q')
    ensures NamesButDead(p, q', b', n, name)
  {
    forall m, x, s | HasName(p, m, x, s) && !(m == n && s == name) ensures HasName(q', m, x, s) || Dead(b', x) {
      assert HasName(q, m, x, s) || Dead(b, x);
    }
  }

  // ----- renaming -----

  /** References with the name in a node. */
  function Having(paths: Paths, n: Node, name: string): set<Id> {
    if n in paths then set r | r in paths[n].names && paths[n].names[r] == name else {}
  }

  lemma HavingIs(paths: Paths, n: Node, name: string, x: Id)
    ensures x in Having(paths, n, name) <==> HasName(paths, n, x, name)
  {
  }

  /** `x` is a child of `t` now, under its new name. */
  ghost predicate Arrived(refs: Refs, paths: Paths, t: Id, x: Id, newName: string) {
    x in refs && t in refs && refs[x].parent == Some(t) && HasName(paths, refs[t].node, x, newName)
  }

  /** Only the parent of `r` changes, and counts. */
  ghost predicate Shifted(a: Refs, b: Refs, r: Id) {
    b.Keys == a.Keys && forall x :: x in a ==> b[x] == a[x].(count := b[x].count, parent := if x == r then b[x].parent else a[x].parent)
  }

  /** What moving `moved` away from `n` leaves of references, of other names, and of entries. */
  ghost predicate Hauled(a: Refs, b: Refs, p: Paths, q: Paths, moved: set<Id>) {
    && b.Keys == a.Keys && q.Keys == p.Keys
    && (forall x :: x in a ==>
          && b[x] == a[x].(count := b[x].count, closes := b[x].closes, parent := b[x].parent, lost := b[x].lost)
          && a[x].closes <= b[x].closes && (a[x].lost ==> b[x].lost)
          && (x !in moved ==> b[x].parent == a[x].parent && b[x].lost == a[x].lost))
    && (forall n, x, s {:trigger HasName(q, n, x, s)} {:trigger HasName(p, n, x, s)} ::
          x !in moved && HasName(p, n, x, s) ==> HasName(q, n, x, s) || Dead(b, x))
    && (forall n :: n in p ==> q[n].children == p[n].children)
  }

  lemma HauledNone(a: Refs, p: Paths)
    ensures Hauled(a, a, p, p, {})
  {
  }

  lemma HauledThen(a: Refs, b: Refs, c: Refs, p: Paths, q: Paths, r: Paths, s: set<Id>, t: set<Id>)
    requires Hauled(a, b, p, q, s) && Hauled(b, c, q, r, t)
    ensures Hauled(a, c, p, r, s + t)
  {
    forall n, x, l | x !in s + t && HasName(p, n, x, l) ensures HasName(r, n, x, l) || Dead(c, x) {
      assert HasName(q, n, x, l) || Dead(b, x);
    }
  }

  /** One reference moves. */
  lemma HauledOne(a: Refs, b: Refs, c: Refs, p: Paths, thin: Paths, q: Paths, n: Node, r: Id, n': Node, newName: string)
    requires Dropped(a, b, Some(r)) && Shifted(b, c, r) && n in p && n' in thin
    requires Thinned(Unname(p, n, r), thin) && NamesKept(b, Unname(p, n, r), thin) && q == Rename(thin, n', r, newName)
    ensures Hauled(a, c, p, q, {r}) && HasName(q, n', r, newName)
    ensures n in q && (n == n' || r !in q[n].names) && forall x :: x != r && x in q[n].names ==> x in p[n].names && q[n].names[x] == p[n].names[x]
  {
    forall m, x, s | x != r && HasName(p, m, x, s) ensures HasName(q, m, x, s) || Dead(c, x) {
      assert HasName(Unname(p, n, r), m, x, s);
      assert HasName(thin, m, x, s) || Dead(b, x);
    }
  }

  /** Everything that had the old name is still to move, has arrived, or is closed. */
  ghost predicate Leaving(start: Paths, paths: Paths, refs: Refs, n: Node, oldName: string, t: Id, newName: string) {
    forall x {:trigger HasName(start, n, x, oldName)} :: HasName(start, n, x, oldName) ==>
      HasName(paths, n, x, oldName) || Arrived(refs, paths, t, x, newName) || Dead(refs, x)
  }

  /** Everything that had the old name has arrived, or is closed. */
  ghost predicate Renamed(start: Paths, paths: Paths, refs: Refs, n: Node, oldName: string, t: Id, newName: string) {
    forall x {:trigger HasName(start, n, x, oldName)} :: HasName(start, n, x, oldName) ==>
      Arrived(refs, paths, t, x, newName) || Dead(refs, x)
  }

  lemma LeavingNext(start: Paths, p: Paths, q: Paths, a: Refs, b: Refs, n: Node, oldName: string, t: Id, newName: string, r: Id)
    requires Leaving(start, p, a, n, oldName, t, newName) && Hauled(a, b, p, q, {r}) && Arrived(b, q, t, r, newName)
    ensures Leaving(start, q, b, n, oldName, t, newName)
  {
    forall x | HasName(start, n, x, oldName) ensures HasName(q, n, x, oldName) || Arrived(b, q, t, x, newName) || Dead(b, x) {
      if x != r {
        if Arrived(a, p, t, x, newName) {
          assert HasName(q, a[t].node, x, newName) || Dead(b, x);
        }
      }
    }
  }

  lemma LeftAll(start: Paths, paths: Paths, refs: Refs, n: Node, oldName: string, t: Id, newName: string)
    requires Leaving(start, paths, refs, n, oldName, t, newName) && Having(paths, n, oldName) == {}
    ensures Renamed(start, paths, refs, n, oldName, t, newName)
  {
    forall x | HasName(start, n, x, oldName) ensures !HasName(paths, n, x, oldName) {
      HavingIs(paths, n, oldName, x);
    }
  }

  /** Where a rename leaves the path node of the moved entry: under its new name, but in the
      directory it came from; the target has an entry of that name exactly when the two
      directories are one. All other nodes keep their entries. */
  ghost predicate StoredAt(p: Paths, q: Paths, n: Node, oldName: string, n': Node, newName: string) {
    && n in p && n in q && n' in q && newName in q[n].children && p.Keys <= q.Keys
    && (oldName in p[n].children ==> q[n].children[newName] == p[n].children[oldName])
    && (newName in q[n'].children <==> n == n')
    && (forall m :: m in p && m != n && m != n' ==> q[m].children == p[m].children)
  }

  lemma StoredBy(p: Paths, mid: Paths, cur: Paths, q: Paths, n: Node, oldName: string, n': Node, newName: string)
    requires n in p && n' in p && !(n == n' && oldName == newName)
    requires AgreeBut(p, mid, n') && n' in mid && mid[n'].children == p[n'].children - {newName}
    requires cur.Keys == mid.Keys && (forall x :: x in mid ==> cur[x].children == mid[x].children)
    requires AgreeBut(cur, q, n) && n in q && newName in q[n].children
    requires oldName in cur[n].children ==> q[n].children[newName] == cur[n].children[oldName]
    ensures StoredAt(p, q, n, oldName, n', newName)
  {
  }

  /** References across a whole rename: only parents of the moved, and marks of the replaced. */
  ghost predicate RefsMoved(p: Paths, a: Refs, b: Refs, n: Node, oldName: string, n': Node, newName: string) {
    && Unlinked(p, a, b, n', newName)
    && forall x :: x in a ==>
         && x in b && b[x] == a[x].(count := b[x].count, closes := b[x].closes, deleted := b[x].deleted, parent := b[x].parent, lost := b[x].lost)
         && a[x].closes <= b[x].closes && (!HasName(p, n, x, oldName) ==> b[x].parent == a[x].parent && b[x].lost == a[x].lost)
  }

  /** Names across a whole rename: others stay. */
  ghost predicate NamesMoved(p: Paths, q: Paths, b: Refs, n: Node, oldName: string, n': Node, newName: string) {
    forall m, x, s {:trigger HasName(q, m, x, s)} {:trigger HasName(p, m, x, s)} ::
      HasName(p, m, x, s) && !(m == n && s == oldName) && !(m == n' && s == newName) ==> HasName(q, m, x, s) || Dead(b, x)
  }

  /** What a rename of entry `oldName` of `n` to entry `newName` of `t` amounts to. */
  ghost predicate RenameDone(p: Paths, q: Paths, a: Refs, b: Refs, n: Node, oldName: string, t: Id, newName: string) {
    && t in a
    && RefsMoved(p, a, b, n, oldName, a[t].node, newName)
    && NamesMoved(p, q, b, n, oldName, a[t].node, newName)
    && Renamed(p, q, b, n, oldName, t, newName)
    && StoredAt(p, q, n, oldName, a[t].node, newName)
  }

  /** The moved references are those that had the old name. */
  lemma MovedHad(p: Paths, mid: Paths, loose: set<Id>, refs: Refs, n: Node, oldName: string, moved: set<Id>)
    requires forall x :: x in moved ==> HasName(p, n, x, oldName)
    requires Registered(refs, p, loose)
    ensures forall m, x, s :: x in moved && HasName(p, m, x, s) ==> m == n && s == oldName
  {
    forall m, x, s | x in moved && HasName(p, m, x, s) ensures m == n && s == oldName {
      assert Named(p, m, x) && Named(p, n, x);
    }
  }

  /** Marking first, then moving, then storing the entry. */
  lemma RenameBy(p: Paths, mid: Paths, cur: Paths, q: Paths, a: Refs, m: Refs, b: Refs, n: Node, oldName: string, t: Id, newName: string, moved: set<Id>)
    requires t in a && n in p && a[t].node in p && !(n == a[t].node && oldName == newName)
    requires Marked(a, m) && Unlinked(p, a, m, a[t].node, newName) && NamesBut(p, mid, a[t].node, newName) && Registered(a, p, {})
    requires Hauled(m, b, mid, cur, moved) && forall x :: x in moved ==> HasName(p, n, x, oldName)
    requires Renamed(p, cur, b, n, oldName, t, newName) && SameNames(cur, q)
    requires StoredAt(p, q, n, oldName, a[t].node, newName)
    ensures RenameDone(p, q, a, b, n, oldName, t, newName)
  {
    hide *;
    MovedHad(p, mid, {}, a, n, oldName, moved);
    RefsBy(p, mid, cur, a, m, b, n, oldName, a[t].node, newName, moved);
    NamesBy(p, mid, cur, q, m, b, n, oldName, a[t].node, newName, moved);
    RenamedSame(p, cur, q, b, n, oldName, t, newName);
    RenameDoneIs(p, q, a, b, n, oldName, t, newName);
  }

  lemma RenameDoneIs(p: Paths, q: Paths, a: Refs, b: Refs, n: Node, oldName: string, t: Id, newName: string)
    requires t in a && RefsMoved(p, a, b, n, oldName, a[t].node, newName) && NamesMoved(p, q, b, n, oldName, a[t].node, newName)
    requires Renamed(p, q, b, n, oldName, t, newName) && StoredAt(p, q, n, oldName, a[t].node, newName)
    ensures RenameDone(p, q, a, b, n, oldName, t, newName)
  {
  }

  lemma RefsBy(p: Paths, mid: Paths, cur: Paths, a: Refs, m: Refs, b: Refs, n: Node, oldName: string, n': Node, newName: string, moved: set<Id>)
    requires Marked(a, m) && Unlinked(p, a, m, n', newName) && Hauled(m, b, mid, cur, moved)
    requires forall x :: x in moved ==> HasName(p, n, x, oldName)
    ensures RefsMoved(p, a, b, n, oldName, n', newName)
  {
    hide Struck;
  }

  lemma NamesBy(p: Paths, mid: Paths, cur: Paths, q: Paths, m: Refs, b: Refs, n: Node, oldName: string, n': Node, newName: string, moved: set<Id>)
    requires NamesBut(p, mid, n', newName) && Hauled(m, b, mid, cur, moved) && SameNames(cur, q)
    requires forall k, x, s :: x in moved && HasName(p, k, x, s) ==> k == n && s == oldName
    ensures NamesMoved(p, q, b, n, oldName, n', newName)
  {
    forall k, x, s | HasName(p, k, x, s) && !(k == n && s == oldName) && !(k == n' && s == newName)
      ensures HasName(q, k, x, s) || Dead(b, x)
    {
      assert HasName(mid, k, x, s);
      assert HasName(cur, k, x, s) || Dead(b, x);
    }
  }

  lemma RenamedSame(p: Paths, cur: Paths, q: Paths, b: Refs, n: Node, oldName: string, t: Id, newName: string)
    requires Renamed(p, cur, b, n, oldName, t, newName) && SameNames(cur, q)
    ensures Renamed(p, q, b, n, oldName, t, newName)
  {
    forall x | HasName(p, n, x, oldName) ensures Arrived(b, q, t, x, newName) || Dead(b, x) {
      assert Arrived(b, cur, t, x, newName) ==> Arrived(b, q, t, x, newName);
    }
  }

  /** Counts before, drops after. */
  lemma RenameAround(p: Paths, q: Paths, q': Paths, a: Refs, a': Refs, b: Refs, b': Refs, n: Node, oldName: string, t: Id, newName: string)
    requires Touched(a, a') && RenameDone(p, q, a', b, n, oldName, t, newName)
    requires Grown(b, q, b', q', []) && b'.Keys == b.Keys
    ensures RenameDone(p, q', a, b', n, oldName, t, newName)
  {
    hide RefsMoved, NamesMoved, Renamed, StoredAt, Grown, Touched;
    TouchedAt(a, a', t);
    RefsAround(p, q, q', a, a', b, b', n, oldName, a[t].node, newName);
    NamesAround(p, q, q', b, b', n, oldName, a[t].node, newName);
    RenamedAround(p, q, q', b, b', n, oldName, t, newName);
    StoredAround(p, q, q', b, b', n, oldName, a[t].node, newName);
  }

  lemma RefsAround(p: Paths, q: Paths, q': Paths, a: Refs, a': Refs, b: Refs, b': Refs, n: Node, oldName: string, n': Node, newName: string)
    requires Touched(a, a') && RefsMoved(p, a', b, n, oldName, n', newName) && Grown(b, q, b', q', []) && b'.Keys == b.Keys
    ensures RefsMoved(p, a, b', n, oldName, n', newName)
  {
    hide SameLoops, Struck, TreeGrown, NamesKept, HasName;
  }

  lemma NamesAround(p: Paths, q: Paths, q': Paths, b: Refs, b': Refs, n: Node, oldName: string, n': Node, newName: string)
    requires NamesMoved(p, q, b, n, oldName, n', newName) && Grown(b, q, b', q', [])
    ensures NamesMoved(p, q', b', n, oldName, n', newName)
  {
    hide SameLoops, TreeGrown;
    forall m, x, s | HasName(p, m, x, s) && !(m == n && s == oldName) && !(m == n' && s == newName)
      ensures HasName(q', m, x, s) || Dead(b', x)
    {
      assert HasName(q, m, x, s) || Dead(b, x);
    }
  }

  lemma RenamedAround(p: Paths, q: Paths, q': Paths, b: Refs, b': Refs, n: Node, oldName: string, t: Id, newName: string)
    requires Renamed(p, q, b, n, oldName, t, newName) && Grown(b, q, b', q', [])
    ensures Renamed(p, q', b', n, oldName, t, newName)
  {
    hide SameLoops, TreeGrown;
    forall x | HasName(p, n, x, oldName) ensures Arrived(b', q', t, x, newName) || Dead(b', x) {
      if Arrived(b, q, t, x, newName) {
        assert HasName(q', b[t].node, x, newName) || Dead(b', x);
      }
    }
  }

  lemma StoredAround(p: Paths, q: Paths, q': Paths, b: Refs, b': Refs, n: Node, oldName: string, n': Node, newName: string)
    requires StoredAt(p, q, n, oldName, n', newName) && Grown(b, q, b', q', [])
    ensures StoredAt(p, q', n, oldName, n', newName)
  {
    hide SameLoops, NamesKept, Kept;
    SameChildren(q, q');
  }

  /** The parents of a rename, for `AcyclicExactlyWhen`. */
  lemma RenameMoves(p: Paths, q: Paths, a: Refs, b: Refs, n: Node, oldName: string, t: Id, newName: string)
    requires RenameDone(p, q, a, b, n, oldName, t, newName)
    ensures MovesTo(a, b, Having(p, n, oldName), t)
  {
    forall x ensures x in Having(p, n, oldName) <==> HasName(p, n, x, oldName) { HavingIs(p, n, oldName, x); }
  }

  // ----- references closed while they move -----

  ghost predicate NewlyLost(a: Refs, b: Refs, x: Id) {
    x in a && x in b && !a[x].lost && b[x].lost
  }

  ghost predicate LosesOne(a: Refs, b: Refs) {
    exists x :: NewlyLost(a, b, x)
  }

  /** Which references a rename closes while it moves them: only some that had the old name
      and were above themselves; one at least, in whatever order they move, if one of them was
      trapped; and if only one reference had the name, that one exactly when it was trapped. */
  ghost predicate LostWhen(p: Paths, a: Refs, b: Refs, n: Node, name: string) {
    && (forall x :: NewlyLost(a, b, x) ==> HasName(p, n, x, name) && Looped(a, x))
    && (forall x :: HasName(p, n, x, name) && Trapped(a, x) ==> LosesOne(a, b))
    && (forall x :: Having(p, n, name) == {x} ==> (NewlyLost(a, b, x) <==> Trapped(a, x)))
  }

  /** The same before everything has moved. */
  ghost predicate LostSoFar(p: Paths, q: Paths, a: Refs, b: Refs, n: Node, name: string) {
    && (forall x :: x in a && a[x].lost ==> x in b && b[x].lost)
    && (forall x :: NewlyLost(a, b, x) ==> HasName(p, n, x, name) && Looped(a, x) && (Trapped(a, x) || |Having(p, n, name)| > 1))
    && (LosesOne(a, b) || forall x {:trigger HasName(p, n, x, name)} ::
          HasName(p, n, x, name) && Trapped(a, x) ==> HasName(q, n, x, name) && Live(b, x) && Trapped(b, x))
  }

  lemma LostNone(p: Paths, q: Paths, a: Refs, b: Refs, fids: Fids, held: multiset<Id>, n: Node, n': Node, name: string, newName: string)
    requires Marked(a, b) && NamesBut(p, q, n', newName) && !(n == n' && name == newName)
    requires Counted(a, fids, held, {}) && Registered(a, p, {})
    ensures LostSoFar(p, q, a, b, n, name)
  {
    hide Counted, Registered, Trapped;
    forall x | HasName(p, n, x, name) && Trapped(a, x) ensures HasName(q, n, x, name) && Live(b, x) && Trapped(b, x) {
      OwnerNamed(a, p, n, x);
      TrappedLive(a, fids, held, x);
      SameTrapped(a, b, x);
    }
  }

  lemma OwnerNamed(refs: Refs, paths: Paths, n: Node, x: Id)
    requires Registered(refs, paths, {}) && n in paths && x in paths[n].names
    ensures x in refs && Owner(refs[x])
  {
    assert Named(paths, n, x);
  }

  /** The move of one more reference. */
  lemma LostNext(p: Paths, q: Paths, s: Paths, a: Refs, b: Refs, c: Refs, fids: Fids, held: multiset<Id>, n: Node, name: string, r: Id, t: Id)
    requires LostSoFar(p, q, a, b, n, name) && Hauled(b, c, q, s, {r}) && MovesOne(b, c, r, t) && t in held && r in a && r in b
    requires Counted(b, fids, held, {}) && Counted(c, fids, held, {}) && Owner(b[r]) && (c[r].lost <==> b[r].lost || Trapped(b, r))
    requires HasName(p, n, r, name) && (Trapped(b, r) ==> Looped(a, r) && (Trapped(a, r) || |Having(p, n, name)| > 1))
    ensures LostSoFar(p, s, a, c, n, name)
  {
    hide Counted, Trapped, Looped, MovesOne, Having;
    LostSame(a, b, c, q, s, r);
    if LosesOne(a, b) {
    } else if Trapped(b, r) {
      TrappedLive(b, fids, held, r);
      LiveNotLost(b, fids, held, r);
      assert NewlyLost(a, c, r);
    } else {
      forall x | HasName(p, n, x, name) && Trapped(a, x) ensures HasName(s, n, x, name) && Live(c, x) && Trapped(c, x) {
        if Above(b, r, x) { TrappedToo(b, x, r); }
        TrappedStays(b, c, fids, held, r, t, x);
        assert HasName(s, n, x, name) || Dead(c, x);
      }
    }
  }

  lemma LostSame(a: Refs, b: Refs, c: Refs, q: Paths, s: Paths, r: Id)
    requires Hauled(b, c, q, s, {r})
    ensures forall x :: NewlyLost(a, c, x) && x != r ==> NewlyLost(a, b, x)
    ensures LosesOne(a, b) ==> LosesOne(a, c)
  {
    if x :| NewlyLost(a, b, x) { assert NewlyLost(a, c, x); }
  }

  lemma LostAll(p: Paths, q: Paths, a: Refs, b: Refs, n: Node, name: string)
    requires LostSoFar(p, q, a, b, n, name) && Having(q, n, name) == {}
    ensures LostWhen(p, a, b, n, name)
  {
    forall x | HasName(p, n, x, name) && Trapped(a, x) ensures LosesOne(a, b) {
      HavingIs(q, n, name, x);
    }
    hide Trapped, Looped;
    forall x | Having(p, n, name) == {x} ensures NewlyLost(a, b, x) <==> Trapped(a, x) {
      HavingIs(p, n, name, x);
      if Trapped(a, x) {
        var y :| NewlyLost(a, b, y);
        HavingIs(p, n, name, y);
      }
    }
  }

  /** Counts before, drops after. */
  lemma LostAround(p: Paths, q: Paths, q': Paths, a: Refs, a': Refs, b: Refs, b': Refs, n: Node, name: string)
    requires Touched(a, a') && LostWhen(p, a', b, n, name) && Grown(b, q, b', q', []) && b'.Keys == b.Keys
    requires forall x :: HasName(p, n, x, name) ==> (Trapped(a, x) <==> Trapped(a', x))
    ensures LostWhen(p, a, b', n, name)
  {
    hide Trapped, NamesKept, TreeGrown, SameLoops, Looped;
    forall x ensures NewlyLost(a, b', x) <==> NewlyLost(a', b, x) {}
    forall x | NewlyLost(a, b', x) ensures Looped(a, x) { SameParents(a, a'); }
    if x :| NewlyLost(a', b, x) { assert NewlyLost(a, b', x); }
  }

  /** More references to what the FID table has do not matter. */
  lemma TrappedAlike(a: Refs, b: Refs, fids: Fids, held: multiset<Id>, held': multiset<Id>, x: Id)
    requires Counted(a, fids, held, {}) && Counted(b, fids, held', {}) && Touched(a, b)
    requires (forall y :: held[y] == held'[y] || Entries(fids, y) != {}) && x in a && Owner(a[x])
    ensures Trapped(a, x) <==> Trapped(b, x)
  {
    hide Counted, Trapped;
    if Trapped(a, x) { TrappedFrom(a, b, fids, held, held', x); }
    if Trapped(b, x) { TrappedFrom(b, a, fids, held', held, x); }
  }

  lemma TrappedFrom(a: Refs, b: Refs, fids: Fids, held: multiset<Id>, held': multiset<Id>, x: Id)
    requires Counted(a, fids, held, {}) && Counted(b, fids, held', {}) && Touched(a, b)
    requires (forall y :: held[y] == held'[y] || Entries(fids, y) != {}) && x in a && Owner(a[x]) && Trapped(a, x)
    ensures Trapped(b, x)
  {
    hide Counted, DoomedIn, Entries, Looped;
    TrappedLive(a, fids, held, x);
    TrappedLoops(a, x);
    var n: nat :| DoomedIn(a, a[x].parent.value, x, n);
    PathAlike(a, b, fids, held, held', x, x, n);
  }

  lemma {:induction false} PathAlike(a: Refs, b: Refs, fids: Fids, held: multiset<Id>, held': multiset<Id>, x: Id, q: Id, n: nat)
    requires Counted(a, fids, held, {}) && Counted(b, fids, held', {}) && Touched(a, b)
    requires forall y :: held[y] == held'[y] || Entries(fids, y) != {}
    requires LiveLoop(a, q) && a[q].parent.Some? && DoomedIn(a, a[q].parent.value, x, n)
    ensures DoomedIn(b, a[q].parent.value, x, n)
    decreases n
  {
    hide Counted, Looped, Above, Entries;
    var p := a[q].parent.value;
    NextOnLoop(a, fids, held, q);
    SoleAlike(a, b, fids, held, held', p);
    if n > 0 {
      PathAlike(a, b, fids, held, held', x, p, n - 1);
    }
  }

  lemma SoleAlike(a: Refs, b: Refs, fids: Fids, held: multiset<Id>, held': multiset<Id>, y: Id)
    requires Counted(a, fids, held, {}) && Counted(b, fids, held', {}) && Touched(a, b)
    requires held[y] == held'[y] || Entries(fids, y) != {}
    requires LiveLoop(a, y) && a[y].count == 1
    ensures b[y].count == 1
  {
    hide Counted, Looped;
    var c := LoopKid(a, fids, held, y);
    OnlyKid(a, fids, held, y, c);
    assert Kids(b, {}, y) == Kids(a, {}, y);
    CountIs(a, fids, held, y);
    CountIs(b, fids, held', y);
  }
}

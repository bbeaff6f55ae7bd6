/** Three runs of the 9P server from its start: one that leaves a file open for ever, one that
    closes a file and goes on using it, and one that ends in a panic. */
module P9Runs {
  import opened Ownership
  import opened Ancestry
  import opened PathNames
  import opened P9Server

  const K0: Key := Key(0, 0)
  const K1: Key := Key(0, 1)
  const K2: Key := Key(0, 2)
  const K3: Key := Key(0, 3)
  const K4: Key := Key(0, 4)
  const K5: Key := Key(0, 5)

  lemma KeysDiffer()
    ensures K0 != K1 && K0 != K2 && K0 != K3 && K0 != K4 && K0 != K5 && K1 != K2 && K1 != K3 && K1 != K4 && K1 != K5
    ensures K2 != K3 && K2 != K4 && K2 != K5 && K3 != K4 && K3 != K5 && K4 != K5
  {
  }

  lemma SafeNames()
    ensures SafeName("a") && SafeName("d") && SafeName("e") && SafeName("f") && SafeName("q") && SafeName("w") && SafeName("x") && SafeName("y") && SafeName("z")
  {
  }

  /** A backend that finds a directory under every name. */
  function Everything(i: nat): Option<bool> {
    Some(true)
  }

  /** `x` is an open directory reference with this parent and path node. */
  ghost predicate Is(refs: Refs, x: Id, parent: Option<Id>, n: Node) {
    Live(refs, x) && refs[x].isDir && !refs[x].isOpen && refs[x].parent == parent && refs[x].node == n
  }

  lemma IsParts(refs: Refs, x: Id, parent: Option<Id>, n: Node)
    requires Is(refs, x, parent, n)
    ensures x in refs && refs[x].isDir && !refs[x].isOpen && refs[x].parent == parent && refs[x].node == n
  {
  }

  lemma IsKept(a: Refs, p: Paths, b: Refs, q: Paths, names: seq<string>, x: Id, parent: Option<Id>, n: Node)
    requires Grown(a, p, b, q, names) && Is(a, x, parent, n) && Live(b, x)
    ensures Is(b, x, parent, n) && b[x].deleted == a[x].deleted
  {
    KeptAt(a, p, b, q, names, x);
  }

  lemma NameKept(a: Refs, p: Paths, b: Refs, q: Paths, names: seq<string>, n: Node, x: Id, s: string)
    requires Grown(a, p, b, q, names) && HasName(p, n, x, s) && x in b && Owner(b[x])
    ensures HasName(q, n, x, s)
  {
    assert HasName(q, n, x, s) || Dead(b, x);
  }

  lemma NoNewEntry(a: Refs, p: Paths, b: Refs, q: Paths, names: seq<string>, n: Node, s: string)
    requires Grown(a, p, b, q, names) && n in p && s !in p[n].children && s !in names
    ensures n in q && s !in q[n].children
  {
    if s in q[n].children {
      assert HasChild(q, n, s, q[n].children[s]);
    }
  }

  lemma Below(paths: Paths, next: nat, n: Node, s: string, m: Node)
    requires Rooted(paths, next) && HasChild(paths, n, s, m)
    ensures n < m
  {
  }

  /** A name at `n` belongs to a child of a reference with that path node. */
  lemma NamedAt(refs: Refs, paths: Paths, n: Node, x: Id, s: string)
    requires Registered(refs, paths, {}) && HasName(paths, n, x, s)
    ensures x in refs && refs[x].parent.Some? && refs[x].parent.value in refs && refs[refs[x].parent.value].node == n
  {
    assert Named(paths, n, x);
  }

  /** A reference without parent has no name, and is not struck with any. */
  lemma TopUnstruck(refs: Refs, paths: Paths, r: Id, n: Node, s: string)
    requires Registered(refs, paths, {}) && r in refs && refs[r].parent.None?
    ensures !Struck(paths, n, s, r)
  {
    forall k ensures !Named(paths, k, r) {
      assert !Under(refs, {}, r, k);
    }
    assert !Named(paths, n, r);
  }

  // ----- the first steps -----

  ghost predicate Top(refs: Refs, paths: Paths, r: Id) {
    Is(refs, r, None, ROOT) && !refs[r].deleted && ROOT in paths && "y" !in paths[ROOT].children
  }

  lemma TopKept(a: Refs, p: Paths, b: Refs, q: Paths, name: string, r: Id)
    requires Grown(a, p, b, q, [name]) && Top(a, p, r) && name != "y" && AllLive(b)
    ensures Top(b, q, r)
  {
    KeptKeys(a, p, b, q, [name]);
    IsKept(a, p, b, q, [name], r, None, ROOT);
    NoNewEntry(a, p, b, q, [name], ROOT, "y");
  }

  lemma Begun(a: Refs, p: Paths, b: Refs, q: Paths, r: Id)
    requires a == map[] && p == map[ROOT := PathNode(map[], map[])] && Grown(a, p, b, q, []) && |b| == 1
    requires r in b && AttachedAt(a, b, q, r, [], Some(true), Everything)
    ensures Top(b, q, r) && b.Keys == {r}
  {
    SameChildren(p, q);
    OnlyNew(a, b, r);
    assert {} + {r} == {r};
  }

  lemma OnlyNew(a: Refs, b: Refs, c: Id)
    requires a.Keys <= b.Keys && |b| == |a| + 1 && c in b && c !in a
    ensures b.Keys == a.Keys + {c}
  {
    var rest := b.Keys - (a.Keys + {c});
    assert |a| == |a.Keys| && |b| == |b.Keys|;
    assert b.Keys == a.Keys + {c} + rest;
    assert |a.Keys + {c}| == |a.Keys| + 1;
    assert |a.Keys + {c} + rest| == |a.Keys + {c}| + |rest|;
  }

  method Begin() returns (s: Server, ghost r: Id)
    ensures fresh(s) && s.Valid() && s.held == multiset{} && s.fids == map[K0 := r] && s.refs.Keys == {r} && Top(s.refs, s.paths, r)
    ensures |s.refs| == 1 && Tabled(s.refs, s.fids)
  {
    hide *;
    s := new Server();
    ghost var a, p := s.refs, s.paths;
    var reply := s.Tattach(K0, [], Some(true), Everything);
    r := s.fids[K0];
    Begun(a, p, s.refs, s.paths, r);
    TabledOne(s.refs, s.fids, r);
  }

  lemma StepSucceeds(name: string)
    requires SafeName(name)
    ensures WalkOk([name], Everything, false, true) && Steps([name]) == 1
  {
    assert forall i: nat :: i < 1 ==> StepOk(Everything, true, i);
  }

  lemma OneStep(refs: Refs, paths: Paths, r: Id, c: Id, name: string)
    requires Walked(refs, paths, r, c, [name], Everything) && Live(refs, c)
    ensures Is(refs, c, Some(r), refs[c].node) && !refs[c].deleted && r in refs
    ensures HasName(paths, refs[r].node, c, name) && HasChild(paths, refs[r].node, name, refs[c].node)
  {
    assert [name][..0] == [];
    assert Reached(refs, paths, r, refs[c].parent.value, []);
  }

  ghost predicate AllLive(refs: Refs) {
    forall x :: x in refs ==> Live(refs, x)
  }

  /** Every reference has a FID. */
  ghost predicate Tabled(refs: Refs, fids: Fids) {
    forall x :: x in refs ==> InTable(fids, x)
  }

  ghost predicate InTable(fids: Fids, x: Id) {
    exists k :: k in fids && fids[k] == x
  }

  lemma TabledLive(refs: Refs, fids: Fids, held: multiset<Id>)
    requires Counted(refs, fids, held, {}) && Tabled(refs, fids)
    ensures AllLive(refs)
  {
    forall x | x in refs ensures Live(refs, x) {
      var k :| k in fids && fids[k] == x;
    }
  }

  lemma TabledNext(a: Refs, b: Refs, fids: Fids, k: Key, c: Id)
    requires Tabled(a, fids) && b.Keys == a.Keys + {c} && k !in fids
    ensures Tabled(b, fids[k := c])
  {
    var fids' := fids[k := c];
    forall x | x in b ensures InTable(fids', x) {
      if x == c {
        assert fids'[k] == x;
      } else {
        var k' :| k' in fids && fids[k'] == x;
        assert fids'[k'] == x;
      }
    }
  }

  lemma TabledSame(a: Refs, b: Refs, fids: Fids)
    requires Tabled(a, fids) && b.Keys == a.Keys
    ensures Tabled(b, fids)
  {
  }

  lemma TabledOne(refs: Refs, fids: Fids, r: Id)
    requires refs.Keys == {r} && fids == map[K0 := r]
    ensures Tabled(refs, fids)
  {
    assert fids[K0] == r;
  }

  /** A walk of one name, from one FID to a new one. */
  method Step(s: Server, k: Key, k': Key, name: string) returns (ghost c: Id)
    requires s.Valid() && s.held == multiset{} && k in s.fids && k' !in s.fids && s.fids[k] in s.refs && SafeName(name)
    requires s.refs[s.fids[k]].isDir && !s.refs[s.fids[k]].isOpen
    modifies s
    ensures s.Valid() && s.held == multiset{} && s.fids == old(s.fids)[k' := c] && c !in old(s.refs)
    ensures s.refs.Keys == old(s.refs).Keys + {c} && |s.refs| == |old(s.refs)| + 1
    ensures c in s.refs && Is(s.refs, c, Some(old(s.fids)[k]), s.refs[c].node) && !s.refs[c].deleted && old(s.fids)[k] in s.refs
    ensures HasName(s.paths, s.refs[old(s.fids)[k]].node, c, name) && HasChild(s.paths, s.refs[old(s.fids)[k]].node, name, s.refs[c].node)
    ensures Grown(old(s.refs), old(s.paths), s.refs, s.paths, [name])
    ensures Tabled(old(s.refs), old(s.fids)) ==> Tabled(s.refs, s.fids) && AllLive(s.refs)
  {
    hide *;
    ghost var a, p, f := s.refs, s.paths, s.fids;
    StepSucceeds(name);
    var reply := s.Twalk(k, k', [name], Everything);
    c := s.fids[k'];
    s.ValidParts();
    EntryLive(s.refs, s.fids, s.held, s.loose, k');
    LiveIs(s.refs, c);
    KeptKeys(a, p, s.refs, s.paths, [name]);
    OnlyNew(a, s.refs, c);
    OneStep(s.refs, s.paths, f[k], c, name);
    if Tabled(a, f) {
      TabledNext(a, s.refs, f, k', c);
      TabledLive(s.refs, s.fids, s.held);
    }
  }

  // ----- a loop of one -----

  /** Walked to a, from there to x, and from there to z. */
  ghost predicate Chain(refs: Refs, paths: Paths, r: Id, a: Id, x: Id, z: Id, an: Node, n: Node, m: Node) {
    && Top(refs, paths, r) && Is(refs, a, Some(r), an) && !refs[a].deleted && Is(refs, x, Some(a), n) && Is(refs, z, Some(x), m) && !refs[z].deleted
    && HasChild(paths, an, "x", n) && HasName(paths, an, x, "x") && HasChild(paths, n, "z", m) && HasName(paths, n, z, "z")
    && ROOT < an < n < m
  }

  /** x renamed to y in the root, its path node entered as y in a. */
  ghost predicate Bent(refs: Refs, paths: Paths, r: Id, a: Id, x: Id, z: Id, an: Node, n: Node, m: Node) {
    && Is(refs, r, None, ROOT) && !refs[r].deleted && Is(refs, a, Some(r), an) && Is(refs, x, Some(r), n) && Is(refs, z, Some(x), m) && !refs[z].deleted
    && HasChild(paths, an, "y", n) && HasChild(paths, n, "z", m) && HasName(paths, n, z, "z")
    && ROOT < an < n < m
  }

  /** z its own parent, under the name q; w has the path node of x. */
  ghost predicate Tied(refs: Refs, paths: Paths, r: Id, a: Id, x: Id, z: Id, w: Id, an: Node, n: Node, m: Node) {
    && Is(refs, r, None, ROOT) && !refs[r].deleted && Is(refs, a, Some(r), an) && Is(refs, x, Some(r), n) && Is(refs, w, Some(a), n)
    && Is(refs, z, Some(z), m) && HasName(paths, m, z, "q") && HasChild(paths, n, "q", m)
    && ROOT < an < n < m
  }

  lemma BentBy(p: Paths, q: Paths, b: Refs, c: Refs, r: Id, a: Id, x: Id, z: Id, an: Node, n: Node, m: Node)
    requires Chain(b, p, r, a, x, z, an, n, m) && Registered(b, p, {}) && b.Keys == {r, a, x, z} && AllLive(c)
    requires RenameDone(p, q, b, c, an, "x", r, "y")
    ensures Bent(c, q, r, a, x, z, an, n, m) && c.Keys == b.Keys
  {
    TopUnstruck(b, p, r, ROOT, "y");
    forall y, k, s | HasName(p, k, y, s) ensures y in b && b[y].parent.Some? && b[y].parent.value in b && b[b[y].parent.value].node == k {
      NamedAt(b, p, k, y, s);
    }
    hide Registered;
    assert HasName(q, n, z, "z") || Dead(c, z);
    assert Arrived(c, q, r, x, "y") || Dead(c, x);
  }

  lemma BentKept(b: Refs, p: Paths, c: Refs, q: Paths, r: Id, a: Id, x: Id, z: Id, an: Node, n: Node, m: Node)
    requires Bent(b, p, r, a, x, z, an, n, m) && Grown(b, p, c, q, ["y"]) && AllLive(c)
    ensures Bent(c, q, r, a, x, z, an, n, m)
  {
    KeptKeys(b, p, c, q, ["y"]);
    IsKept(b, p, c, q, ["y"], r, None, ROOT);
    IsKept(b, p, c, q, ["y"], a, Some(r), an);
    IsKept(b, p, c, q, ["y"], x, Some(r), n);
    IsKept(b, p, c, q, ["y"], z, Some(x), m);
    NameKept(b, p, c, q, ["y"], n, z, "z");
    hide Kept, NamesKept, SameLoops;
  }

  lemma TiedBy(p: Paths, q: Paths, b: Refs, c: Refs, r: Id, a: Id, x: Id, z: Id, w: Id, an: Node, n: Node, m: Node)
    requires Bent(b, p, r, a, x, z, an, n, m) && Is(b, w, Some(a), n) && Registered(b, p, {}) && b.Keys == {r, a, x, z, w} && AllLive(c)
    requires RenameDone(p, q, b, c, n, "z", z, "q")
    ensures Tied(c, q, r, a, x, z, w, an, n, m) && c.Keys == b.Keys
  {
    TopUnstruck(b, p, r, m, "q");
    forall y, k, s | HasName(p, k, y, s) ensures y in b && b[y].parent.Some? && b[y].parent.value in b && b[b[y].parent.value].node == k {
      NamedAt(b, p, k, y, s);
    }
    hide Registered;
    assert Arrived(c, q, z, z, "q") || Dead(c, z);
  }

  lemma ChainBy(b: Refs, p: Paths, c: Refs, q: Paths, d: Refs, t: Paths, e: Refs, u: Paths, next: nat, r: Id, a: Id, x: Id, z: Id)
    requires Top(b, p, r) && Grown(b, p, c, q, ["a"]) && Grown(c, q, d, t, ["x"]) && Grown(d, t, e, u, ["z"])
    requires AllLive(c) && AllLive(d) && AllLive(e) && Rooted(u, next)
    requires a in c && Is(c, a, Some(r), c[a].node) && !c[a].deleted && HasChild(q, ROOT, "a", c[a].node)
    requires x in d && a in d && Is(d, x, Some(a), d[x].node) && HasChild(t, d[a].node, "x", d[x].node) && HasName(t, d[a].node, x, "x")
    requires z in e && x in e && Is(e, z, Some(x), e[z].node) && !e[z].deleted && HasChild(u, e[x].node, "z", e[z].node) && HasName(u, e[x].node, z, "z")
    ensures Chain(e, u, r, a, x, z, c[a].node, d[x].node, e[z].node)
  {
    hide Grown, TreeGrown, Rooted;
    var an, n, m := c[a].node, d[x].node, e[z].node;
    KeptKeys(b, p, c, q, ["a"]);
    KeptKeys(c, q, d, t, ["x"]);
    KeptKeys(d, t, e, u, ["z"]);
    TopKept(b, p, c, q, "a", r);
    TopKept(c, q, d, t, "x", r);
    TopKept(d, t, e, u, "z", r);
    IsKept(c, q, d, t, ["x"], a, Some(r), an);
    IsKept(d, t, e, u, ["z"], a, Some(r), an);
    IsKept(d, t, e, u, ["z"], x, Some(a), n);
    ChildKept(c, q, d, t, ["x"], ROOT, "a", an);
    ChildKept(d, t, e, u, ["z"], ROOT, "a", an);
    ChildKept(d, t, e, u, ["z"], an, "x", n);
    NameKept(d, t, e, u, ["z"], an, x, "x");
    Below(u, next, ROOT, "a", an);
    Below(u, next, an, "x", n);
    Below(u, next, n, "z", m);
  }

  /** Attach; walk to a, to a/x and to a/x/z. */
  method Walks() returns (s: Server, ghost r: Id, ghost a: Id, ghost x: Id, ghost z: Id, ghost an: Node, ghost n: Node, ghost m: Node)
    ensures fresh(s) && s.Valid() && s.held == multiset{} && s.fids == map[K0 := r, K1 := a, K4 := x, K2 := z] && s.refs.Keys == {r, a, x, z}
    ensures |s.refs| == 4 && Chain(s.refs, s.paths, r, a, x, z, an, n, m) && Tabled(s.refs, s.fids)
  {
    hide *;
    KeysDiffer();
    SafeNames();
    s, r := Begin();
    ghost var b, p := s.refs, s.paths;
    TopParts(b, p, r);
    a := Step(s, K0, K1, "a");
    ghost var c, q := s.refs, s.paths;
    IsParts(c, a, Some(r), c[a].node);
    TopKept(b, p, c, q, "a", r);
    TopParts(c, q, r);
    x := Step(s, K1, K4, "x");
    ghost var d, t := s.refs, s.paths;
    IsParts(d, x, Some(a), d[x].node);
    z := Step(s, K4, K2, "z");
    s.ValidParts();
    ChainBy(b, p, c, q, d, t, s.refs, s.paths, s.nextNode, r, a, x, z);
    an, n, m := c[a].node, d[x].node, s.refs[z].node;
  }

  lemma TopParts(refs: Refs, paths: Paths, r: Id)
    requires Top(refs, paths, r)
    ensures r in refs && refs[r].isDir && !refs[r].isOpen && refs[r].parent.None? && refs[r].node == ROOT && !refs[r].deleted
  {
  }

  lemma ChainParts(refs: Refs, paths: Paths, r: Id, a: Id, x: Id, z: Id, an: Node, n: Node, m: Node)
    requires Chain(refs, paths, r, a, x, z, an, n, m)
    ensures r in refs && a in refs && Directory(refs[a]) && refs[a].node == an && refs[r].isDir && !refs[r].deleted && refs[r].node == ROOT && ROOT < an
  {
  }

  lemma BentParts(refs: Refs, paths: Paths, r: Id, a: Id, x: Id, z: Id, an: Node, n: Node, m: Node)
    requires Bent(refs, paths, r, a, x, z, an, n, m)
    ensures a in refs && refs[a].isDir && !refs[a].isOpen && refs[a].node == an && HasChild(paths, an, "y", n)
    ensures z in refs && refs[z].isDir && !refs[z].deleted && refs[z].node == m && n < m
  {
  }

  lemma TiedParts(refs: Refs, paths: Paths, r: Id, a: Id, x: Id, z: Id, w: Id, an: Node, n: Node, m: Node)
    requires Tied(refs, paths, r, a, x, z, w, an, n, m)
    ensures w in refs && refs[w].isDir && !refs[w].isOpen && refs[w].node == n && HasChild(paths, n, "q", m)
    ensures r in refs && refs[r].isDir && !refs[r].deleted && refs[r].node == ROOT && n < m && ROOT < m && refs[z].parent == Some(z) && LiveLoop(refs, z)
  {
    assert Up(refs, z, 0) == Some(z);
    assert Up(refs, z, 1) == Some(z);
  }

  lemma SameNode(paths: Paths, n: Node, s: string, m: Node, m': Node)
    requires HasChild(paths, n, s, m) && HasChild(paths, n, s, m')
    ensures m == m'
  {
  }

  lemma DirectoryBy(f: FidRef)
    requires f.isDir && !f.isOpen && !f.deleted
    ensures Directory(f)
  {
  }

  /** Then rename a/x to y. */
  method Bend() returns (s: Server, ghost r: Id, ghost a: Id, ghost x: Id, ghost z: Id, ghost an: Node, ghost n: Node, ghost m: Node)
    ensures fresh(s) && s.Valid() && s.held == multiset{} && s.fids == map[K0 := r, K1 := a, K4 := x, K2 := z] && s.refs.Keys == {r, a, x, z}
    ensures |s.refs| == 4 && Bent(s.refs, s.paths, r, a, x, z, an, n, m) && Tabled(s.refs, s.fids)
  {
    hide *;
    KeysDiffer();
    SafeNames();
    s, r, a, x, z, an, n, m := Walks();
    ghost var b, p := s.refs, s.paths;
    ChainParts(b, p, r, a, x, z, an, n, m);
    s.ValidParts();
    var reply := s.Trenameat(K1, "x", K0, "y", true);
    s.ValidParts();
    RenameKeys(p, s.paths, b, s.refs, an, "x", r, "y");
    SameSize(b, s.refs);
    TabledSame(b, s.refs, s.fids);
    TabledLive(s.refs, s.fids, s.held);
    BentBy(p, s.paths, b, s.refs, r, a, x, z, an, n, m);
  }

  /** Then walk from a to y, which has the path node x had, and rename y/z into the first z. The
      backend is never asked to move a directory under itself, and the first z is its own
      parent in the end. */
  method Tie() returns (s: Server, ghost r: Id, ghost a: Id, ghost x: Id, ghost z: Id, ghost w: Id, ghost an: Node, ghost n: Node, ghost m: Node)
    ensures fresh(s) && s.Valid() && s.held == multiset{} && s.fids == map[K0 := r, K1 := a, K4 := x, K2 := z, K3 := w] && s.refs.Keys == {r, a, x, z, w}
    ensures |s.refs| == 5 && Tied(s.refs, s.paths, r, a, x, z, w, an, n, m)
  {
    hide *;
    KeysDiffer();
    SafeNames();
    s, r, a, x, z, an, n, m := Bend();
    ghost var c, q := s.refs, s.paths;
    BentParts(c, q, r, a, x, z, an, n, m);
    w := Step(s, K1, K3, "y");
    ghost var d, t := s.refs, s.paths;
    s.ValidParts();
    BentKept(c, q, d, t, r, a, x, z, an, n, m);
    BentParts(d, t, r, a, x, z, an, n, m);
    IsParts(d, w, Some(a), d[w].node);
    DirectoryBy(d[w]);
    SameNode(t, an, "y", n, d[w].node);
    var reply := s.Trenameat(K3, "z", K2, "q", true);
    s.ValidParts();
    RenameKeys(t, s.paths, d, s.refs, n, "z", z, "q");
    SameSize(d, s.refs);
    TabledSame(d, s.refs, s.fids);
    TabledLive(s.refs, s.fids, s.held);
    TiedBy(t, s.paths, d, s.refs, r, a, x, z, w, an, n, m);
  }

  lemma RenameKeys(p: Paths, q: Paths, a: Refs, b: Refs, n: Node, name: string, t: Id, newName: string)
    requires RenameDone(p, q, a, b, n, name, t, newName)
    ensures b.Keys == a.Keys
  {
  }

  /** A run that ends with no FID and no handler left and a file still open. */
  method OpenForEver() returns (s: Server, ghost z: Id)
    ensures fresh(s) && s.Valid() && s.fids == map[] && s.held == multiset{}
    ensures z in s.refs && s.refs[z].closes == 0 && s.refs[z].parent == Some(z)
  {
    hide *;
    ghost var r, a, x, w, an, n, m;
    s, r, a, x, z, w, an, n, m := Tie();
    ghost var b, p := s.refs, s.paths;
    TiedParts(b, p, r, a, x, z, w, an, n, m);
    FidsOfOne(s.fids, r, a, x, z, w);
    s.Stop(0);
    LoopKept(b, p, s.refs, s.paths, z);
    KeptAt(b, p, s.refs, s.paths, [], z);
  }

  lemma FidsOfOne(fids: Fids, r: Id, a: Id, x: Id, z: Id, w: Id)
    requires fids == map[K0 := r, K1 := a, K4 := x, K2 := z, K3 := w]
    ensures forall k :: k in fids ==> k.conn == 0
  {
  }

  lemma LoopKept(a: Refs, p: Paths, b: Refs, q: Paths, x: Id)
    requires Grown(a, p, b, q, []) && LiveLoop(a, x)
    ensures LiveLoop(b, x) && x in b && b[x].closes == 0
  {
  }

  // ----- a file that is closed and still used -----

  lemma TiedKept(b: Refs, p: Paths, c: Refs, q: Paths, names: seq<string>, r: Id, a: Id, x: Id, z: Id, w: Id, an: Node, n: Node, m: Node)
    requires Tied(b, p, r, a, x, z, w, an, n, m) && Grown(b, p, c, q, names)
    requires Live(c, r) && Live(c, a) && Live(c, x) && Live(c, w)
    ensures Tied(c, q, r, a, x, z, w, an, n, m)
  {
    TiedParts(b, p, r, a, x, z, w, an, n, m);
    IsKept(b, p, c, q, names, r, None, ROOT);
    IsKept(b, p, c, q, names, a, Some(r), an);
    IsKept(b, p, c, q, names, x, Some(r), n);
    IsKept(b, p, c, q, names, w, Some(a), n);
    IsKept(b, p, c, q, names, z, Some(z), m);
    NameKept(b, p, c, q, names, m, z, "q");
    hide Kept, NamesKept, SameLoops;
  }

  lemma TiedTrapped(refs: Refs, paths: Paths, fids: Fids, r: Id, a: Id, x: Id, z: Id, w: Id, v: Id, an: Node, n: Node, m: Node)
    requires Tied(refs, paths, r, a, x, z, w, an, n, m) && Is(refs, v, Some(w), m) && v != z && z != w
    requires refs.Keys == {r, a, x, z, w, v} && Counted(refs, fids, multiset{}, {}) && fids == map[K0 := r, K1 := a, K4 := x, K3 := w, K5 := v]
    ensures Trapped(refs, z)
  {
    hide Counted, HasName, HasChild;
    CountIs(refs, fids, multiset{}, z);
    forall c ensures c in Kids(refs, {}, z) <==> c == z {
    }
    assert Kids(refs, {}, z) == {z};
    assert Entries(fids, z) == {};
    assert DoomedIn(refs, z, z, 0);
  }

  lemma LosesZ(p: Paths, q: Paths, b: Refs, c: Refs, r: Id, a: Id, x: Id, z: Id, w: Id, v: Id, an: Node, n: Node, m: Node)
    requires Tied(b, p, r, a, x, z, w, an, n, m) && Is(b, v, Some(w), m) && b.Keys == {r, a, x, z, w, v} && Registered(b, p, {})
    requires Trapped(b, z) && RenameDone(p, q, b, c, m, "q", r, "w") && LostWhen(p, b, c, m, "q")
    ensures NewlyLost(b, c, z) && Arrived(c, q, r, z, "w") && c[r].node == ROOT
  {
    hide Trapped, Looped, Registered, RefsMoved, NamesMoved, StoredAt, Having;
    var y :| NewlyLost(b, c, y);
    NamedAt(b, p, m, y, "q");
    assert Arrived(c, q, r, z, "w") || Dead(c, z);
    RenamedNode(p, q, b, c, m, "q", r, "w");
  }

  lemma RenamedNode(p: Paths, q: Paths, a: Refs, b: Refs, n: Node, name: string, t: Id, newName: string)
    requires RenameDone(p, q, a, b, n, name, t, newName)
    ensures t in b && b[t].node == a[t].node
  {
  }

  /** After the loop is tied, clunk the FID of z. */
  method Release() returns (s: Server, ghost r: Id, ghost a: Id, ghost x: Id, ghost z: Id, ghost w: Id, ghost an: Node, ghost n: Node, ghost m: Node)
    ensures fresh(s) && s.Valid() && s.held == multiset{} && s.fids == map[K0 := r, K1 := a, K4 := x, K3 := w] && s.refs.Keys == {r, a, x, z, w}
    ensures Tied(s.refs, s.paths, r, a, x, z, w, an, n, m) && z != w
  {
    hide *;
    KeysDiffer();
    s, r, a, x, z, w, an, n, m := Tie();
    ghost var b, p := s.refs, s.paths;
    FiveDiffer(b, r, a, x, z, w);
    FidsButOne(s.fids, r, a, x, z, w);
    var reply := s.Tclunk(K2);
    s.ValidParts();
    FourLive(s.refs, s.fids, s.held, r, a, x, w);
    TiedKept(b, p, s.refs, s.paths, [], r, a, x, z, w, an, n, m);
  }

  lemma FidsButOne(fids: Fids, r: Id, a: Id, x: Id, z: Id, w: Id)
    requires fids == map[K0 := r, K1 := a, K4 := x, K2 := z, K3 := w]
    ensures fids - {K2} == map[K0 := r, K1 := a, K4 := x, K3 := w]
  {
  }

  /** Then walk from y to q, which has the path node of z. Nothing but its own loop keeps z
      open. */
  method Trap() returns (s: Server, ghost r: Id, ghost a: Id, ghost x: Id, ghost z: Id, ghost w: Id, ghost v: Id, ghost an: Node, ghost n: Node, ghost m: Node)
    ensures fresh(s) && s.Valid() && s.held == multiset{} && s.fids == map[K0 := r, K1 := a, K4 := x, K3 := w, K5 := v] && s.refs.Keys == {r, a, x, z, w, v}
    ensures Tied(s.refs, s.paths, r, a, x, z, w, an, n, m) && Is(s.refs, v, Some(w), m) && v in s.refs && !s.refs[v].deleted && Trapped(s.refs, z)
  {
    hide *;
    KeysDiffer();
    SafeNames();
    s, r, a, x, z, w, an, n, m := Release();
    ghost var c, q := s.refs, s.paths;
    TiedParts(c, q, r, a, x, z, w, an, n, m);
    v := Step(s, K3, K5, "q");
    s.ValidParts();
    FourLive(s.refs, s.fids, s.held, r, a, x, w);
    TiedKept(c, q, s.refs, s.paths, ["q"], r, a, x, z, w, an, n, m);
    TiedParts(s.refs, s.paths, r, a, x, z, w, an, n, m);
    SameNode(s.paths, n, "q", m, s.refs[v].node);
    TiedTrapped(s.refs, s.paths, s.fids, r, a, x, z, w, v, an, n, m);
  }

  /** A run that goes on to rename q/q, which is z, to w in the root. The rename drops z, by its
      old parent, and closes it. It is entered as w all the same, and when the last FID is gone
      it still owns the root, which stays open. */
  method ClosesWhileMoving() returns (s: Server, ghost r: Id, ghost z: Id)
    ensures fresh(s) && s.Valid() && s.fids == map[] && s.held == multiset{}
    ensures z in s.refs && s.refs[z].closes == 1 && s.refs[z].lost && s.refs[z].parent == Some(r) && HasName(s.paths, ROOT, z, "w")
    ensures r in s.refs && s.refs[r].closes == 0
  {
    hide *;
    ghost var a, x, w, v, an, n, m;
    KeysDiffer();
    SafeNames();
    s, r, a, x, z, w, v, an, n, m := Trap();
    ghost var d, t := s.refs, s.paths;
    s.ValidParts();
    TiedParts(d, t, r, a, x, z, w, an, n, m);
    IsParts(d, v, Some(w), m);
    DirectoryBy(d[v]);
    var reply := s.Trenameat(K5, "q", K0, "w", true);
    ghost var e, u := s.refs, s.paths;
    LosesZ(t, u, d, e, r, a, x, z, w, v, an, n, m);
    FidsOfFive(s.fids, r, a, x, w, v);
    s.Stop(0);
    s.ValidParts();
    StaysLost(d, e, u, s.refs, s.paths, s.fids, s.held, r, z);
  }

  lemma FiveDiffer(refs: Refs, r: Id, a: Id, x: Id, z: Id, w: Id)
    requires refs.Keys == {r, a, x, z, w} && |refs| == 5
    ensures z != r && z != a && z != x && z != w
  {
    assert |refs| == |refs.Keys|;
  }

  lemma FourLive(refs: Refs, fids: Fids, held: multiset<Id>, r: Id, a: Id, x: Id, w: Id)
    requires Counted(refs, fids, held, {}) && K0 in fids && fids[K0] == r && K1 in fids && fids[K1] == a && K4 in fids && fids[K4] == x && K3 in fids && fids[K3] == w
    ensures Live(refs, r) && Live(refs, a) && Live(refs, x) && Live(refs, w)
  {
  }

  lemma FidsOfFive(fids: Fids, r: Id, a: Id, x: Id, w: Id, v: Id)
    requires fids == map[K0 := r, K1 := a, K4 := x, K3 := w, K5 := v]
    ensures forall k :: k in fids ==> k.conn == 0
  {
  }

  /** A lost reference keeps its name, and its parent open. */
  lemma StaysLost(d: Refs, e: Refs, u: Paths, refs: Refs, paths: Paths, fids: Fids, held: multiset<Id>, r: Id, z: Id)
    requires NewlyLost(d, e, z) && Arrived(e, u, r, z, "w") && e[r].node == ROOT && Grown(e, u, refs, paths, []) && Counted(refs, fids, held, {})
    ensures z in refs && refs[z].closes == 1 && refs[z].lost && refs[z].parent == Some(r) && HasName(paths, ROOT, z, "w")
    ensures r in refs && refs[r].closes == 0
  {
    KeptAt(e, u, refs, paths, [], z);
    NameKept(e, u, refs, paths, [], ROOT, z, "w");
    assert Live(refs, r);
  }

  // ----- a panic -----

  /** A run that ends in the panic of a rename: attach; walk to d; unlink d; walk from d, which
      is deleted now, to e, which is not; rename e. */
  method EndsInPanic() returns (s: Server, reply: Reply)
    ensures fresh(s) && reply == Failed(Panic)
  {
    hide *;
    KeysDiffer();
    SafeNames();
    ghost var r;
    s, r := Begin();
    ghost var b, p := s.refs, s.paths;
    TopParts(b, p, r);
    ghost var c := Step(s, K0, K1, "d");
    ghost var a, q := s.refs, s.paths;
    s.ValidParts();
    TopKept(b, p, a, q, "d", r);
    TopParts(a, q, r);
    DirectoryBy(a[r]);
    reply := s.Tunlinkat(K0, "d", true);
    s.ValidParts();
    ghost var d, t := s.refs, s.paths;
    Deleted(a, q, d, t, s.fids, s.held, r, c);
    IsParts(d, c, Some(r), a[c].node);
    ghost var e := Step(s, K1, K2, "e");
    s.ValidParts();
    Orphan(d, t, s.refs, s.paths, s.fids, s.held, r, c, e, a[c].node);
    reply := s.Trename(K2, K0, "f", true);
  }

  /** The reference to the unlinked file is marked, that to the root is not. */
  lemma Deleted(a: Refs, p: Paths, b: Refs, q: Paths, fids: Fids, held: multiset<Id>, r: Id, c: Id)
    requires Top(a, p, r) && c in a && Is(a, c, Some(r), a[c].node) && HasName(p, ROOT, c, "d") && UnlinkDone(p, q, a, b, ROOT, "d")
    requires Registered(a, p, {}) && Counted(b, fids, held, {}) && fids == map[K0 := r, K1 := c]
    ensures Is(b, r, None, ROOT) && !b[r].deleted && Is(b, c, Some(r), a[c].node) && b[c].deleted
  {
    EntryLive(b, fids, held, {}, K0);
    EntryLive(b, fids, held, {}, K1);
    TopUnstruck(a, p, r, ROOT, "d");
  }

  /** The new reference has a deleted parent and is not deleted itself. */
  lemma Orphan(a: Refs, p: Paths, b: Refs, q: Paths, fids: Fids, held: multiset<Id>, r: Id, c: Id, e: Id, n: Node)
    requires Is(a, r, None, ROOT) && !a[r].deleted && Is(a, c, Some(r), n) && a[c].deleted && Grown(a, p, b, q, ["e"])
    requires Counted(b, fids, held, {}) && fids == map[K0 := r, K1 := c, K2 := e] && e in b && Is(b, e, Some(c), b[e].node) && !b[e].deleted
    ensures r in b && WouldPanic(b, e, r)
  {
    EntryLive(b, fids, held, {}, K0);
    EntryLive(b, fids, held, {}, K1);
    hide Counted, Grown;
    IsKept(a, p, b, q, ["e"], r, None, ROOT);
    IsKept(a, p, b, q, ["e"], c, Some(r), n);
  }
}

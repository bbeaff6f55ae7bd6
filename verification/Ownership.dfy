/** Who owns a file reference of the 9P server: FID table entries, children and
    running handlers. One small lemma for each change the handlers make. */
module Ownership {
  datatype Option<+T> = None | Some(value: T)

  type Id = nat
  type Node = nat

  /** A FID of one connection. */
  datatype Key = Key(conn: nat, fid: nat)

  /** A file reference. `closes` counts the calls of Close on its file. A reference is `lost`
      if it was closed while it moved from one parent to another: it never drops the new one. */
  datatype FidRef = FidRef(count: int, parent: Option<Id>, node: Node, deleted: bool, isOpen: bool, isDir: bool, closes: nat, lost: bool)

  /** The reference holds its parent. */
  predicate Owner(f: FidRef) {
    f.closes == 0 || f.lost
  }

  /** A path node: names of the references below it, and path nodes of its entries. */
  datatype PathNode = PathNode(names: map<Id, string>, children: map<string, Node>)

  type Refs = map<Id, FidRef>
  type Fids = map<Key, Id>
  type Paths = map<Node, PathNode>

  // ----- counting owners -----

  ghost function Entries(fids: Fids, r: Id): set<Key> {
    set k | k in fids && fids[k] == r
  }

  /** Children, live or lost; a reference that is between two parents is `loose`. */
  ghost function Kids(refs: Refs, loose: set<Id>, r: Id): set<Id> {
    set c | c in refs && c !in loose && Owner(refs[c]) && refs[c].parent == Some(r)
  }

  ghost function Owners(refs: Refs, fids: Fids, held: multiset<Id>, loose: set<Id>, r: Id): nat {
    |Entries(fids, r)| + |Kids(refs, loose, r)| + held[r]
  }

  ghost predicate Live(refs: Refs, r: Id) {
    r in refs && refs[r].closes == 0
  }

  /** Every owner owns something live. */
  ghost predicate Grounded(refs: Refs, fids: Fids, held: multiset<Id>, loose: set<Id>) {
    && (forall k :: k in fids ==> Live(refs, fids[k]))
    && (forall r :: r in held ==> Live(refs, r))
    && (forall c :: c in refs && c !in loose && Owner(refs[c]) && refs[c].parent.Some? ==> Live(refs, refs[c].parent.value))
    && (forall r :: r in loose ==> r in refs && Owner(refs[r]))
    && (forall r :: r in refs ==> refs[r].closes <= 1 && (refs[r].lost ==> refs[r].closes == 1 && refs[r].parent.Some?))
  }

  /** Each count is the number of owners. */
  ghost predicate Counted(refs: Refs, fids: Fids, held: multiset<Id>, loose: set<Id>) {
    && Grounded(refs, fids, held, loose)
    && forall r :: Live(refs, r) ==> refs[r].count == Owners(refs, fids, held, loose, r)
  }

  ghost predicate Named(paths: Paths, n: Node, r: Id) {
    n in paths && r in paths[n].names
  }

  /** `n` is the path node of the parent of `r`. */
  ghost predicate Under(refs: Refs, loose: set<Id>, r: Id, n: Node) {
    && r in refs && Owner(refs[r]) && r !in loose
    && refs[r].parent.Some? && refs[r].parent.value in refs && refs[refs[r].parent.value].node == n
  }

  /** References are registered with the path node of their parent, and only there. */
  ghost predicate Registered(refs: Refs, paths: Paths, loose: set<Id>) {
    && (forall r :: r in refs ==> refs[r].node in paths)
    && (forall n, r {:trigger Named(paths, n, r)} :: Named(paths, n, r) ==> Under(refs, loose, r, n))
    && (forall r, n {:trigger Under(refs, loose, r, n)} :: Under(refs, loose, r, n) && !refs[r].deleted ==> Named(paths, n, r))
  }

  /** Path nodes lie below earlier ones. */
  ghost predicate Rooted(paths: Paths, next: nat) {
    && (forall n :: n in paths ==> n < next)
    && forall n, s :: n in paths && s in paths[n].children ==> n < paths[n].children[s] && paths[n].children[s] in paths
  }

  lemma OneMore<X>(a: set<X>, b: set<X>, x: X)
    requires x !in a && b == a + {x}
    ensures |b| == |a| + 1
  {
  }

  // ----- a handler takes or drops a reference -----

  ghost function Recount(refs: Refs, r: Id, d: int): Refs
    requires r in refs
  {
    refs[r := refs[r].(count := refs[r].count + d)]
  }

  lemma SameKids(refs: Refs, refs': Refs, loose: set<Id>)
    requires refs'.Keys == refs.Keys
    requires forall c :: c in refs ==> refs'[c].closes == refs[c].closes && refs'[c].lost == refs[c].lost && refs'[c].parent == refs[c].parent
    ensures forall r :: Kids(refs', loose, r) == Kids(refs, loose, r)
  {
    forall r ensures Kids(refs', loose, r) == Kids(refs, loose, r) {
      forall c ensures c in Kids(refs', loose, r) <==> c in Kids(refs, loose, r) {
      }
    }
  }

  lemma TakeCounts(refs: Refs, fids: Fids, held: multiset<Id>, loose: set<Id>, r: Id)
    requires Counted(refs, fids, held, loose) && Live(refs, r)
    ensures Counted(Recount(refs, r, 1), fids, held + multiset{r}, loose)
  {
    SameKids(refs, Recount(refs, r, 1), loose);
  }

  lemma DropCounts(refs: Refs, fids: Fids, held: multiset<Id>, loose: set<Id>, r: Id)
    requires Counted(refs, fids, held, loose) && r in held
    ensures Live(refs, r) && Counted(Recount(refs, r, -1), fids, held - multiset{r}, loose)
  {
    SameKids(refs, Recount(refs, r, -1), loose);
  }

  lemma EntryCounts(fids: Fids, k: Key)
    requires k in fids
    ensures |Entries(fids, fids[k])| > 0
  {
    assert k in Entries(fids, fids[k]);
  }

  lemma KidCounts(refs: Refs, loose: set<Id>, c: Id)
    requires c in refs && Owner(refs[c]) && c !in loose && refs[c].parent.Some?
    ensures |Kids(refs, loose, refs[c].parent.value)| > 0
  {
    assert c in Kids(refs, loose, refs[c].parent.value);
  }

  /** Nothing owns a reference whose count is zero. */
  lemma NoOwners(refs: Refs, fids: Fids, held: multiset<Id>, loose: set<Id>, r: Id)
    requires Counted(refs, fids, held, loose) && Live(refs, r) && refs[r].count == 0
    ensures r !in held && (forall k :: k in fids ==> fids[k] != r)
    ensures forall c :: c in refs && c !in loose && Owner(refs[c]) ==> refs[c].parent != Some(r)
  {
    assert |Entries(fids, r)| == 0 && |Kids(refs, loose, r)| == 0;
    forall k | k in fids ensures fids[k] != r { EntryCounts(fids, k); }
    forall c | c in refs && c !in loose && Owner(refs[c]) ensures refs[c].parent != Some(r) {
      if refs[c].parent.Some? { KidCounts(refs, loose, c); }
    }
  }

  lemma DifferAt<X>(a: set<X>, b: set<X>, c: X)
    requires a - {c} == b - {c}
    ensures |b| == |a| + (if c in b then 1 else 0) - (if c in a then 1 else 0)
  {
    if c in a { OneMore(a - {c}, a, c); } else { assert a - {c} == a; }
    if c in b { OneMore(b - {c}, b, c); } else { assert b - {c} == b; }
  }

  /** Nothing but `c` changed, as far as parents are concerned. */
  ghost predicate SameButFor(refs: Refs, loose: set<Id>, refs': Refs, loose': set<Id>, c: Id) {
    && refs.Keys - {c} == refs'.Keys - {c} && loose - {c} == loose' - {c}
    && forall y :: y != c && y in refs ==> y in refs' && refs'[y].closes == refs[y].closes && refs'[y].lost == refs[y].lost && refs'[y].parent == refs[y].parent
  }

  /** Children gained and lost. */
  lemma KidsChange(refs: Refs, loose: set<Id>, refs': Refs, loose': set<Id>, c: Id, x: Id)
    requires SameButFor(refs, loose, refs', loose', c)
    ensures |Kids(refs', loose', x)| ==
              |Kids(refs, loose, x)| + (if c in Kids(refs', loose', x) then 1 else 0) - (if c in Kids(refs, loose, x) then 1 else 0)
  {
    var a, b := Kids(refs, loose, x), Kids(refs', loose', x);
    forall y ensures y in a - {c} <==> y in b - {c} {
      assert y in refs.Keys - {c} <==> y in refs'.Keys - {c};
      assert y in loose - {c} <==> y in loose' - {c};
    }
    DifferAt(a, b, c);
  }

  ghost function HeldBy(f: Option<Id>): multiset<Id> {
    if f.Some? then multiset{f.value} else multiset{}
  }

  /** An unowned reference is closed; what it held of its parent passes to the handler. */
  lemma DieCounts(refs: Refs, fids: Fids, held: multiset<Id>, loose: set<Id>, r: Id)
    requires Counted(refs, fids, held, loose) && Live(refs, r) && refs[r].count == 0 && r !in loose
    ensures Counted(refs[r := refs[r].(closes := 1)], fids, held + HeldBy(refs[r].parent), loose)
  {
    var refs' := refs[r := refs[r].(closes := 1)];
    var held' := held + HeldBy(refs[r].parent);
    NoOwners(refs, fids, held, loose, r);
    DieGrounded(refs, fids, held, loose, r);
    hide Grounded;
    forall x | Live(refs', x) ensures refs'[x].count == Owners(refs', fids, held', loose, x) {
      KidsChange(refs, loose, refs', loose, r, x);
    }
  }

  lemma DieGrounded(refs: Refs, fids: Fids, held: multiset<Id>, loose: set<Id>, r: Id)
    requires Grounded(refs, fids, held, loose) && Live(refs, r) && r !in loose
    requires r !in held && (forall k :: k in fids ==> fids[k] != r)
    requires forall c :: c in refs && c !in loose && Owner(refs[c]) ==> refs[c].parent != Some(r)
    ensures Grounded(refs[r := refs[r].(closes := 1)], fids, held + HeldBy(refs[r].parent), loose)
  {
  }

  /** A loose reference that nothing owns is closed, and lost. */
  lemma LoseCounts(refs: Refs, fids: Fids, held: multiset<Id>, loose: set<Id>, r: Id)
    requires Counted(refs, fids, held, loose) && Live(refs, r) && refs[r].count == 0 && r in loose && refs[r].parent.Some?
    ensures Counted(refs[r := refs[r].(closes := 1, lost := true)], fids, held, loose)
  {
    hide Grounded;
    var refs' := refs[r := refs[r].(closes := 1, lost := true)];
    NoOwners(refs, fids, held, loose, r);
    LoseGrounded(refs, fids, held, loose, r);
    forall x | Live(refs', x) ensures refs'[x].count == Owners(refs', fids, held, loose, x) {
      KidsChange(refs, loose, refs', loose, r, x);
    }
  }

  lemma LoseGrounded(refs: Refs, fids: Fids, held: multiset<Id>, loose: set<Id>, r: Id)
    requires Grounded(refs, fids, held, loose) && Live(refs, r) && r in loose && refs[r].parent.Some?
    requires r !in held && (forall k :: k in fids ==> fids[k] != r)
    requires forall c :: c in refs && c !in loose && Owner(refs[c]) ==> refs[c].parent != Some(r)
    ensures Grounded(refs[r := refs[r].(closes := 1, lost := true)], fids, held, loose)
  {
  }

  /** The count of a closed reference does not matter. */
  lemma DeadCounts(refs: Refs, fids: Fids, held: multiset<Id>, loose: set<Id>, p: Id, d: int)
    requires Counted(refs, fids, held, loose) && p in refs && !Live(refs, p)
    ensures Counted(Recount(refs, p, d), fids, held, loose)
  {
    hide Grounded;
    RecountGrounded(refs, fids, held, loose, p, d);
    SameKids(refs, Recount(refs, p, d), loose);
  }

  lemma RecountGrounded(refs: Refs, fids: Fids, held: multiset<Id>, loose: set<Id>, p: Id, d: int)
    requires Grounded(refs, fids, held, loose) && p in refs
    ensures Grounded(Recount(refs, p, d), fids, held, loose)
  {
  }

  // ----- the FID table -----

  /** A handler's reference moves into the table; what was there passes to the handler. */
  lemma StoreCounts(refs: Refs, fids: Fids, held: multiset<Id>, loose: set<Id>, k: Key, r: Id)
    requires Counted(refs, fids, held, loose) && r in held
    ensures Counted(refs, fids[k := r], held - multiset{r} + (if k in fids then multiset{fids[k]} else multiset{}), loose)
  {
    hide Grounded, Entries, Kids;
    var fids', held' := fids[k := r], held - multiset{r} + (if k in fids then multiset{fids[k]} else multiset{});
    StoreGrounded(refs, fids, held, loose, k, r);
    forall x | Live(refs, x) ensures refs[x].count == Owners(refs, fids', held', loose, x) {
      StoreEntries(fids, k, r, x);
    }
  }

  lemma StoreGrounded(refs: Refs, fids: Fids, held: multiset<Id>, loose: set<Id>, k: Key, r: Id)
    requires Grounded(refs, fids, held, loose) && r in held
    ensures Grounded(refs, fids[k := r], held - multiset{r} + (if k in fids then multiset{fids[k]} else multiset{}), loose)
  {
  }

  lemma StoreEntries(fids: Fids, k: Key, r: Id, x: Id)
    ensures |Entries(fids[k := r], x)| ==
              |Entries(fids, x)| + (if x == r then 1 else 0) - (if k in fids && fids[k] == x then 1 else 0)
  {
    var a, b := Entries(fids, x), Entries(fids[k := r], x);
    if k in fids && fids[k] == x {
      if x == r {
        assert b == a;
      } else {
        assert a == b + {k};
        OneMore(b, a, k);
      }
    } else if x == r {
      assert b == a + {k};
      OneMore(a, b, k);
    } else {
      assert b == a;
    }
  }

  lemma EraseCounts(refs: Refs, fids: Fids, held: multiset<Id>, loose: set<Id>, k: Key)
    requires Counted(refs, fids, held, loose) && k in fids
    ensures Counted(refs, fids - {k}, held + multiset{fids[k]}, loose)
  {
    var fids', r := fids - {k}, fids[k];
    forall x | Live(refs, x) ensures refs[x].count == Owners(refs, fids', held + multiset{r}, loose, x) {
      if x == r {
        assert Entries(fids, x) == Entries(fids', x) + {k};
        OneMore(Entries(fids', x), Entries(fids, x), k);
      } else {
        assert Entries(fids', x) == Entries(fids, x);
      }
    }
  }

  // ----- new references -----

  /** A new reference takes over one reference to its parent. */
  lemma BirthCounts(refs: Refs, fids: Fids, held: multiset<Id>, loose: set<Id>, c: Id, f: FidRef)
    requires Counted(refs, fids, held, loose) && c !in refs && f.closes == 0 && !f.lost && 0 <= f.count <= 1
    requires f.parent.Some? ==> f.parent.value in held
    ensures Counted(refs[c := f], fids, held - HeldBy(f.parent) + (if f.count == 1 then multiset{c} else multiset{}), loose)
  {
    var refs' := refs[c := f];
    var held' := held - HeldBy(f.parent) + (if f.count == 1 then multiset{c} else multiset{});
    NoneYet(refs, fids, held, loose, c);
    BirthGrounded(refs, fids, held, loose, c, f);
    hide Grounded;
    forall x | Live(refs', x) ensures refs'[x].count == Owners(refs', fids, held', loose, x) {
      KidsChange(refs, loose, refs', loose, c, x);
    }
  }

  lemma BirthGrounded(refs: Refs, fids: Fids, held: multiset<Id>, loose: set<Id>, c: Id, f: FidRef)
    requires Grounded(refs, fids, held, loose) && c !in refs && f.closes == 0 && !f.lost
    requires f.parent.Some? ==> f.parent.value in held
    ensures Grounded(refs[c := f], fids, held - HeldBy(f.parent) + (if f.count == 1 then multiset{c} else multiset{}), loose)
  {
    var refs' := refs[c := f];
    assert forall x :: Live(refs, x) ==> Live(refs', x);
  }

  lemma NoneYet(refs: Refs, fids: Fids, held: multiset<Id>, loose: set<Id>, c: Id)
    requires Grounded(refs, fids, held, loose) && c !in refs
    ensures Entries(fids, c) == {} && Kids(refs, loose, c) == {} && held[c] == 0 && c !in loose
    ensures forall x :: c !in Kids(refs, loose, x)
  {
    forall k | k in fids ensures fids[k] != c { assert Live(refs, fids[k]); }
    forall x | x in refs && x !in loose && Owner(refs[x]) && refs[x].parent.Some? ensures refs[x].parent.value != c {
      assert Live(refs, refs[x].parent.value);
    }
    assert !Live(refs, c);
  }

  // ----- changing parents -----

  /** A reference leaves its parent; the handler has the parent reference. */
  lemma DetachCounts(refs: Refs, fids: Fids, held: multiset<Id>, loose: set<Id>, r: Id)
    requires Counted(refs, fids, held, loose) && r in refs && Owner(refs[r]) && r !in loose && refs[r].parent.Some?
    ensures Counted(refs, fids, held + multiset{refs[r].parent.value}, loose + {r})
  {
    var p := refs[r].parent.value;
    DetachGrounded(refs, fids, held, loose, r);
    hide Grounded;
    forall x | Live(refs, x) ensures refs[x].count == Owners(refs, fids, held + multiset{p}, loose + {r}, x) {
      KidsChange(refs, loose, refs, loose + {r}, r, x);
    }
  }

  lemma DetachGrounded(refs: Refs, fids: Fids, held: multiset<Id>, loose: set<Id>, r: Id)
    requires Grounded(refs, fids, held, loose) && r in refs && Owner(refs[r]) && r !in loose && refs[r].parent.Some?
    ensures Grounded(refs, fids, held + multiset{refs[r].parent.value}, loose + {r})
  {
    assert Live(refs, refs[r].parent.value);
  }

  /** A loose reference takes over one of the handler's references to its new parent. */
  lemma AttachCounts(refs: Refs, fids: Fids, held: multiset<Id>, loose: set<Id>, r: Id, t: Id)
    requires Counted(refs, fids, held, loose) && r in loose && t in held
    ensures r in refs && Counted(refs[r := refs[r].(parent := Some(t))], fids, held - multiset{t}, loose - {r})
  {
    AttachGrounded(refs, fids, held, loose, r, t);
    hide Grounded;
    var refs' := refs[r := refs[r].(parent := Some(t))];
    forall x | Live(refs', x) ensures refs'[x].count == Owners(refs', fids, held - multiset{t}, loose - {r}, x) {
      KidsChange(refs, loose, refs', loose - {r}, r, x);
    }
  }

  lemma AttachGrounded(refs: Refs, fids: Fids, held: multiset<Id>, loose: set<Id>, r: Id, t: Id)
    requires Grounded(refs, fids, held, loose) && r in loose && t in held
    ensures r in refs && Grounded(refs[r := refs[r].(parent := Some(t))], fids, held - multiset{t}, loose - {r})
  {
    var refs' := refs[r := refs[r].(parent := Some(t))];
    assert forall x :: Live(refs, x) <==> Live(refs', x);
  }

  // ----- registration with path nodes -----

  /** Counts may change, and deleted flags may be set; nothing else does. */
  ghost predicate SameShape(refs: Refs, refs': Refs) {
    && refs'.Keys == refs.Keys
    && forall r :: r in refs ==>
         && refs'[r] == refs[r].(count := refs'[r].count, deleted := refs'[r].deleted)
         && (refs[r].deleted ==> refs'[r].deleted)
  }

  lemma ShapeKeeps(refs: Refs, refs': Refs, paths: Paths, loose: set<Id>)
    requires SameShape(refs, refs') && Registered(refs, paths, loose)
    ensures Registered(refs', paths, loose)
  {
    assert forall r, n :: Under(refs', loose, r, n) <==> Under(refs, loose, r, n);
  }

  /** Deleted flags do not count. */
  lemma DeletedCounts(refs: Refs, refs': Refs, fids: Fids, held: multiset<Id>, loose: set<Id>)
    requires Counted(refs, fids, held, loose) && SameShape(refs, refs') && forall r :: r in refs ==> refs'[r].count == refs[r].count
    ensures Counted(refs', fids, held, loose)
  {
    assert forall r :: Live(refs', r) <==> Live(refs, r);
    SameKids(refs, refs', loose);
  }

  function Unname(paths: Paths, n: Node, r: Id): Paths
    requires n in paths
  {
    paths[n := paths[n].(names := paths[n].names - {r})]
  }

  function Rename(paths: Paths, n: Node, r: Id, name: string): Paths
    requires n in paths
  {
    paths[n := paths[n].(names := paths[n].names[r := name])]
  }

  lemma DieKeeps(refs: Refs, paths: Paths, loose: set<Id>, r: Id)
    requires Registered(refs, paths, loose) && Live(refs, r) && !refs[r].lost && r !in loose
    requires refs[r].parent.Some? ==> refs[r].parent.value in refs
    ensures var refs' := refs[r := refs[r].(closes := 1)];
            && (refs[r].parent.None? ==> Registered(refs', paths, loose))
            && (refs[r].parent.Some? ==>
                  && refs[refs[r].parent.value].node in paths
                  && Registered(refs', Unname(paths, refs[refs[r].parent.value].node, r), loose))
  {
    var refs' := refs[r := refs[r].(closes := 1)];
    assert forall x, n :: Under(refs', loose, x, n) <==> x != r && Under(refs, loose, x, n);
    if refs[r].parent.None? {
      forall n, x | Named(paths, n, x) ensures Under(refs', loose, x, n) {
        assert Under(refs, loose, x, n);
      }
    } else {
      var n0 := refs[refs[r].parent.value].node;
      UnnameIs(paths, n0, r);
      forall n, x | Named(Unname(paths, n0, r), n, x) ensures Under(refs', loose, x, n) {
        assert Under(refs, loose, x, n);
        assert x == r ==> n == n0;
      }
    }
  }

  lemma LoseKeeps(refs: Refs, paths: Paths, loose: set<Id>, r: Id)
    requires Registered(refs, paths, loose) && r in refs && r in loose
    ensures Registered(refs[r := refs[r].(closes := 1, lost := true)], paths, loose)
  {
    var refs' := refs[r := refs[r].(closes := 1, lost := true)];
    assert forall x, n :: Under(refs', loose, x, n) <==> Under(refs, loose, x, n);
  }

  lemma UnnameIs(paths: Paths, n0: Node, r: Id)
    requires n0 in paths
    ensures forall n, x {:trigger Named(Unname(paths, n0, r), n, x)} :: Named(Unname(paths, n0, r), n, x) <==> Named(paths, n, x) && !(n == n0 && x == r)
    ensures forall n, x {:trigger Named(paths, n, x)} :: Named(paths, n, x) && !(n == n0 && x == r) ==> Named(Unname(paths, n0, r), n, x)
    ensures Unname(paths, n0, r).Keys == paths.Keys
  {
  }

  lemma RenameIs(paths: Paths, n0: Node, r: Id, name: string)
    requires n0 in paths
    ensures forall n, x {:trigger Named(Rename(paths, n0, r, name), n, x)} :: Named(Rename(paths, n0, r, name), n, x) <==> Named(paths, n, x) || (n == n0 && x == r)
    ensures forall n, x {:trigger Named(paths, n, x)} :: Named(paths, n, x) ==> Named(Rename(paths, n0, r, name), n, x)
    ensures Rename(paths, n0, r, name).Keys == paths.Keys
  {
  }

  lemma BirthKeeps(refs: Refs, paths: Paths, loose: set<Id>, c: Id, f: FidRef, name: string)
    requires Registered(refs, paths, loose) && c !in refs && f.closes == 0 && !f.lost && f.node in paths && c !in loose
    requires f.parent.Some? ==> f.parent.value in refs
    requires forall x :: x in refs && x !in loose && Owner(refs[x]) ==> refs[x].parent != Some(c)
    ensures f.parent.None? || f.deleted ==> Registered(refs[c := f], paths, loose)
    ensures f.parent.Some? && !f.deleted ==>
              refs[f.parent.value].node in paths && Registered(refs[c := f], Rename(paths, refs[f.parent.value].node, c, name), loose)
  {
    var refs' := refs[c := f];
    BirthUnder(refs, loose, c, f);
    if f.parent.Some? && !f.deleted {
      RenameIs(paths, refs[f.parent.value].node, c, name);
    }
  }

  lemma BirthUnder(refs: Refs, loose: set<Id>, c: Id, f: FidRef)
    requires c !in refs && f.closes == 0 && !f.lost && c !in loose && (f.parent.Some? ==> f.parent.value in refs)
    requires forall x :: x in refs && x !in loose && Owner(refs[x]) ==> refs[x].parent != Some(c)
    ensures forall x, n {:trigger Under(refs[c := f], loose, x, n)} ::
              Under(refs[c := f], loose, x, n) <==> Under(refs, loose, x, n) || (x == c && f.parent.Some? && refs[f.parent.value].node == n)
    ensures forall x, n {:trigger Under(refs, loose, x, n)} :: Under(refs, loose, x, n) ==> Under(refs[c := f], loose, x, n)
  {
  }

  lemma DetachKeeps(refs: Refs, paths: Paths, loose: set<Id>, r: Id)
    requires Registered(refs, paths, loose) && r in refs && Owner(refs[r]) && r !in loose && refs[r].parent.Some?
    requires refs[r].parent.value in refs
    ensures refs[refs[r].parent.value].node in paths
    ensures Registered(refs, Unname(paths, refs[refs[r].parent.value].node, r), loose + {r})
  {
    var n0 := refs[refs[r].parent.value].node;
    UnnameIs(paths, n0, r);
    assert forall x, n :: Under(refs, loose + {r}, x, n) <==> x != r && Under(refs, loose, x, n);
    forall n, x | Named(Unname(paths, n0, r), n, x) ensures Under(refs, loose + {r}, x, n) {
      assert Under(refs, loose, x, n);
      assert x == r ==> n == n0;
    }
  }

  lemma AttachRegistered(refs: Refs, paths: Paths, loose: set<Id>, r: Id, t: Id, name: string)
    requires Registered(refs, paths, loose) && r in loose && r in refs && Owner(refs[r]) && t in refs && refs[t].node in paths
    ensures Registered(refs[r := refs[r].(parent := Some(t))], Rename(paths, refs[t].node, r, name), loose - {r})
  {
    var refs' := refs[r := refs[r].(parent := Some(t))];
    RenameIs(paths, refs[t].node, r, name);
    AttachUnder(refs, loose, r, t);
  }

  lemma AttachUnder(refs: Refs, loose: set<Id>, r: Id, t: Id)
    requires r in loose && r in refs && Owner(refs[r]) && t in refs
    ensures var refs' := refs[r := refs[r].(parent := Some(t))];
            && (forall x, n {:trigger Under(refs', loose - {r}, x, n)} ::
                  Under(refs', loose - {r}, x, n) <==> Under(refs, loose, x, n) || (x == r && n == refs[t].node))
            && (forall x, n {:trigger Under(refs, loose, x, n)} :: Under(refs, loose, x, n) ==> Under(refs', loose - {r}, x, n))
  {
  }

  // ----- what dropping a reference may change -----

  /** Counts may change and files may be closed; nothing else does. */
  ghost predicate Faded(refs: Refs, refs': Refs) {
    && refs'.Keys == refs.Keys
    && forall r :: r in refs ==> refs'[r] == refs[r].(count := refs'[r].count, closes := refs'[r].closes) && refs[r].closes <= refs'[r].closes
  }

  /** The same, but that `moving` may be lost as well. */
  ghost predicate Dropped(refs: Refs, refs': Refs, moving: Option<Id>) {
    && refs'.Keys == refs.Keys
    && forall r :: r in refs ==>
         && refs'[r] == refs[r].(count := refs'[r].count, closes := refs'[r].closes, lost := refs'[r].lost)
         && refs[r].closes <= refs'[r].closes && (refs[r].lost ==> refs'[r].lost) && (moving != Some(r) ==> refs'[r].lost == refs[r].lost)
  }

  lemma DroppedThen(a: Refs, b: Refs, c: Refs, moving: Option<Id>)
    requires Dropped(a, b, moving) && Dropped(b, c, moving)
    ensures Dropped(a, c, moving)
  {
  }

  /** Names may go; nothing else changes. */
  ghost predicate Thinned(paths: Paths, paths': Paths) {
    && paths'.Keys == paths.Keys
    && forall n :: n in paths ==>
         && paths'[n].children == paths[n].children
         && forall r :: r in paths'[n].names ==> r in paths[n].names && paths'[n].names[r] == paths[n].names[r]
  }

  lemma ThinnedThen(a: Paths, b: Paths, c: Paths)
    requires Thinned(a, b) && Thinned(b, c)
    ensures Thinned(a, c)
  {
  }

  lemma ThinnedOne(p: Paths, n: Node, r: Id)
    requires n in p
    ensures Thinned(p, Unname(p, n, r))
  {
  }

  lemma ThinnedRooted(p: Paths, p': Paths, next: nat)
    requires Thinned(p, p') && Rooted(p, next)
    ensures Rooted(p', next)
  {
  }

  lemma RenamedRooted(p: Paths, n: Node, r: Id, name: string, next: nat)
    requires n in p && Rooted(p, next)
    ensures Rooted(Rename(p, n, r, name), next)
  {
  }

  /** Every live reference is owned. */
  ghost predicate Positive(refs: Refs, but: set<Id>) {
    forall x :: Live(refs, x) && x !in but ==> refs[x].count > 0
  }

  // ----- unlinking -----

  /** Deleted flags may be set; nothing else changes. */
  ghost predicate Marked(refs: Refs, refs': Refs) {
    && refs'.Keys == refs.Keys
    && forall r :: r in refs ==> refs'[r] == refs[r].(deleted := refs'[r].deleted) && (refs[r].deleted ==> refs'[r].deleted)
  }

  lemma MarkedThen(a: Refs, b: Refs, c: Refs)
    requires Marked(a, b) && Marked(b, c)
    ensures Marked(a, c)
  {
  }

  lemma MarkedOne(a: Refs, r: Id)
    requires r in a
    ensures Marked(a, a) && Marked(a, a[r := a[r].(deleted := true)])
  {
  }

  lemma MarkedKeeps(refs: Refs, refs': Refs, fids: Fids, paths: Paths, held: multiset<Id>, loose: set<Id>)
    requires Marked(refs, refs') && Counted(refs, fids, held, loose) && Registered(refs, paths, loose)
    ensures Counted(refs', fids, held, loose) && Registered(refs', paths, loose)
  {
    hide Counted, Registered, Grounded, Owners;
    ShapeKeeps(refs, refs', paths, loose);
    DeletedCounts(refs, refs', fids, held, loose);
  }

  lemma MarkedPositive(refs: Refs, refs': Refs)
    requires Marked(refs, refs') && Positive(refs, {})
    ensures Positive(refs', {})
  {
    assert forall x :: Live(refs', x) ==> Live(refs, x);
  }

  /** A deleted reference may lose its name. */
  lemma UnnameKeeps(refs: Refs, paths: Paths, loose: set<Id>, n: Node, r: Id)
    requires Registered(refs, paths, loose) && n in paths && r in refs && refs[r].deleted
    ensures Registered(refs, Unname(paths, n, r), loose)
  {
    UnnameIs(paths, n, r);
  }

  // ----- path nodes -----

  /** New path nodes may appear, nameless; names may go from the others. */
  ghost predicate Regrown(paths: Paths, paths': Paths) {
    && paths.Keys <= paths'.Keys
    && (forall n :: n in paths ==> forall r :: r in paths'[n].names ==> r in paths[n].names && paths'[n].names[r] == paths[n].names[r])
    && (forall n :: n in paths' && n !in paths ==> paths'[n].names == map[])
  }

  lemma RegrownThen(a: Paths, b: Paths, c: Paths)
    requires Regrown(a, b) && Regrown(b, c)
    ensures Regrown(a, c)
  {
  }

  function AddNode(paths: Paths, n: Node, name: string, m: Node): Paths
    requires n in paths && m !in paths
  {
    paths[m := PathNode(map[], map[])][n := paths[n].(children := paths[n].children[name := m])]
  }

  /** The same names everywhere. */
  ghost predicate SameNames(paths: Paths, paths': Paths) {
    && paths.Keys <= paths'.Keys
    && (forall n :: n in paths ==> paths'[n].names == paths[n].names)
    && (forall n :: n in paths' && n !in paths ==> paths'[n].names == map[])
  }

  lemma SameNamesKeep(refs: Refs, paths: Paths, paths': Paths, loose: set<Id>)
    requires SameNames(paths, paths')
    ensures Regrown(paths, paths') && (Registered(refs, paths, loose) ==> Registered(refs, paths', loose))
    ensures forall n, r {:trigger Named(paths', n, r)} :: Named(paths', n, r) <==> Named(paths, n, r)
  {
    assert forall n, r :: Named(paths', n, r) <==> Named(paths, n, r);
  }

  lemma AddNodeIs(paths: Paths, n: Node, name: string, m: Node)
    requires n in paths && Rooted(paths, m)
    ensures m !in paths && Rooted(AddNode(paths, n, name, m), m + 1) && SameNames(paths, AddNode(paths, n, name, m)) && n < m
  {
    assert m !in paths;
    var paths' := AddNode(paths, n, name, m);
    forall x, s | x in paths' && s in paths'[x].children ensures x < paths'[x].children[s] && paths'[x].children[s] in paths' {
      if x != m { assert x in paths; }
    }
  }

  // ----- renaming -----

  /** The parent of a loose reference may be anything. */
  lemma LooseKeeps(refs: Refs, fids: Fids, paths: Paths, held: multiset<Id>, loose: set<Id>, r: Id, t: Id)
    requires Counted(refs, fids, held, loose) && Registered(refs, paths, loose) && r in loose && r in refs
    ensures var refs' := refs[r := refs[r].(parent := Some(t))];
            Counted(refs', fids, held, loose) && Registered(refs', paths, loose)
  {
    LooseCounts(refs, fids, held, loose, r, t);
    var refs' := refs[r := refs[r].(parent := Some(t))];
    assert forall x, n :: Under(refs', loose, x, n) <==> Under(refs, loose, x, n);
  }

  lemma LooseCounts(refs: Refs, fids: Fids, held: multiset<Id>, loose: set<Id>, r: Id, t: Id)
    requires Counted(refs, fids, held, loose) && r in loose && r in refs
    ensures Counted(refs[r := refs[r].(parent := Some(t))], fids, held, loose)
  {
    var refs' := refs[r := refs[r].(parent := Some(t))];
    assert forall x :: Live(refs', x) <==> Live(refs, x);
    forall x ensures Kids(refs', loose, x) == Kids(refs, loose, x) {
    }
  }
}

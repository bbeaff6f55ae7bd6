/** The 9P server's references, FID tables and path nodes, one method per routine and
    handler. Backend results are parameters. */
module P9Server {
  import opened Ownership
  import opened Ancestry
  import opened PathNames
  import opened Sets

  const ROOT: Node := 0

  datatype Errno = EBADF | EINVAL | EBUSY | Backend | Panic

  datatype Reply = Done | Failed(errno: Errno)

  predicate SafeName(name: string) {
    name != "" && '/' !in name && name != "." && name != ".."
  }

  class Server {
    var refs: Refs
    var fids: Fids
    var paths: Paths
    var nextRef: nat
    var nextNode: nat

    /** References held by running handlers. */
    ghost var held: multiset<Id>
    ghost var loose: set<Id>

    ghost predicate Inv()
      reads this
    {
      && Counted(refs, fids, held, loose)
      && Registered(refs, paths, loose) && Rooted(paths, nextNode)
      && (forall r :: r in refs ==> r < nextRef) && ROOT in paths
    }

    /** The state between handlers: every live reference is owned, none is loose. */
    ghost predicate Valid()
      reads this
    {
      Inv() && loose == {} && Positive(refs, {})
    }

    constructor ()
      ensures Valid() && fids == map[] && refs == map[] && held == multiset{} && paths == map[ROOT := PathNode(map[], map[])]
    {
      refs, fids, paths := map[], map[], map[ROOT := PathNode(map[], map[])];
      nextRef, nextNode := 0, 1;
      held, loose := multiset{}, {};
    }

    lemma Parts()
      requires Inv()
      ensures Counted(refs, fids, held, loose) && Registered(refs, paths, loose) && Rooted(paths, nextNode)
      ensures (forall r :: r in refs ==> r < nextRef) && ROOT in paths
    {
    }

    lemma Now()
      requires Counted(refs, fids, held, loose) && Registered(refs, paths, loose) && Rooted(paths, nextNode)
      requires (forall r :: r in refs ==> r < nextRef) && ROOT in paths
      ensures Inv() && (loose == {} && Positive(refs, {}) ==> Valid())
    {
    }

    lemma NowValid()
      requires Inv() && loose == {} && Positive(refs, {})
      ensures Valid()
    {
    }

    lemma ValidParts()
      requires Valid()
      ensures Inv() && loose == {} && Positive(refs, {}) && Counted(refs, fids, held, {}) && Registered(refs, paths, {}) && Rooted(paths, nextNode)
    {
    }

    // ----- counting -----

    method IncRef(r: Id)
      requires Inv() && Live(refs, r)
      modifies `refs, `held
      ensures Inv() && held == old(held) + multiset{r} && refs == Recount(old(refs), r, 1)
      ensures Touched(old(refs), refs) && (Positive(old(refs), {}) || Positive(old(refs), {r}) ==> Positive(refs, {}))
    {
      hide Counted, Registered, Rooted, Positive, Touched;
      TakeCounts(refs, fids, held, loose, r);
      CountKeeps(refs, paths, loose, r, 1);
      RecountTouches(refs, r);
      TakePositive(refs, fids, held, loose, r);
      refs := refs[r := refs[r].(count := refs[r].count + 1)];
      held := held + multiset{r};
    }

    /** Closes an unowned file and unregisters it; its parent reference is left to the caller. */
    method CloseFile(r: Id)
      requires Inv() && r in refs && refs[r].closes == 0 && refs[r].count == 0 && r !in loose
      modifies `refs, `paths, `held
      ensures Inv() && held == old(held) + HeldBy(old(refs)[r].parent)
      ensures refs == old(refs)[r := old(refs)[r].(closes := 1)] && Thinned(old(paths), paths) && NamesKept(refs, old(paths), paths)
    {
      hide Counted, Registered, Rooted, Thinned, NamesKept;
      DieCounts(refs, fids, held, loose, r);
      GroundedParent(refs, fids, held, loose, r);
      DieKeeps(refs, paths, loose, r);
      var parent := refs[r].parent;
      refs := refs[r := refs[r].(closes := refs[r].closes + 1)];
      held := held + HeldBy(parent);
      ThinnedNone(paths);
      NamesKeptNone(refs, paths);
      if parent.Some? {
        var n := refs[parent.value].node;
        ThinnedOne(paths, n, r);
        ThinnedRooted(paths, Unname(paths, n, r), nextNode);
        NameOff(refs, paths, n, r);
        paths := paths[n := paths[n].(names := paths[n].names - {r})];
      }
    }

    /** The decrement of a drop. */
    method Decrement(r: Id)
      requires Inv() && r in held
      modifies `refs, `held
      ensures Inv() && held == old(held) - multiset{r} && Live(old(refs), r)
      ensures refs == Recount(old(refs), r, -1) && refs.Keys == old(refs).Keys && Live(refs, r)
    {
      hide Counted, Registered, Rooted;
      DropCounts(refs, fids, held, loose, r);
      CountKeeps(refs, paths, loose, r, -1);
      refs := refs[r := refs[r].(count := refs[r].count - 1)];
      held := held - multiset{r};
    }

    /** Closes the file after the last drop. */
    method CloseDropped(r: Id, ghost before: Refs)
      requires Inv() && Live(before, r) && before[r].count == 1 && refs == Recount(before, r, -1) && r !in loose && Positive(before, {})
      modifies `refs, `paths, `held
      ensures Inv() && (before[r].parent.None? ==> held == old(held))
      ensures before[r].parent.Some? ==> before[r].parent.value in held && held - multiset{before[r].parent.value} == old(held)
      ensures refs == Closed(before, r) && Faded(before, refs) && Positive(refs, {}) && |LiveSet(refs)| < |LiveSet(before)|
      ensures Thinned(old(paths), paths) && NamesKept(refs, old(paths), paths)
    {
      hide *;
      LiveIs(before, r);
      RecountIs(before, r, -1);
      CloseFile(r);
      Closes(before, r, refs);
      HeldByIs(before[r].parent);
      assert before[r].parent.None? ==> held == old(held);
      assert before[r].parent.Some? ==> held - multiset{before[r].parent.value} == old(held);
    }

    /** Closes a file whose reference is between two parents; the old parent, which is closed
        or closing, is dropped once more. */
    method CloseMoving(r: Id, ghost before: Refs)
      requires Inv() && Live(before, r) && before[r].count == 1 && refs == Recount(before, r, -1) && r in loose && Positive(before, {}) && Adrift(before, r, r)
      modifies `refs
      ensures Inv() && Positive(refs, {}) && Dropped(before, refs, Some(r)) && ClosesDoomed(before, refs, r) && r in refs && refs[r].lost
    {
      hide *;
      Parts();
      LiveIs(before, r);
      RecountIs(before, r, -1);
      AdriftIs(before, r, r);
      LiveIs(refs, r);
      LoseCounts(refs, fids, held, loose, r);
      LoseKeeps(refs, paths, loose, r);
      refs := refs[r := refs[r].(closes := refs[r].closes + 1, lost := true)];
      assert refs == before[r := before[r].(count := 0, closes := 1, lost := true)];
      var p := refs[r].parent.value;
      LiveIs(refs, p);
      DeadCounts(refs, fids, held, loose, p, -1);
      CountKeeps(refs, paths, loose, p, -1);
      RecountIs(refs, p, -1);
      refs := refs[p := refs[p].(count := refs[p].count - 1)];
      Now();
      Loses(before, r, p, refs);
    }

    /** Drops a reference; when it was the last, closes the file and drops the parent, and so
        on up. A reference `moving` between two parents is lost if the way up ends there. */
    method Drop(r: Id, moving: Option<Id>)
      requires Inv() && r in held && Positive(refs, {}) && Between(loose, moving)
      requires moving.Some? ==> Adrift(refs, moving.value, r)
      modifies `refs, `paths, `held
      ensures Inv() && held == old(held) - multiset{r} && Positive(refs, {})
      ensures Dropped(old(refs), refs, moving) && ClosesDoomed(old(refs), refs, r)
      ensures moving.Some? ==> LostIf(old(refs), refs, moving.value, r)
      ensures Thinned(old(paths), paths) && NamesKept(refs, old(paths), paths)
      decreases |LiveSet(refs)|
    {
      hide *;
      ghost var before, was := refs, paths;
      Decrement(r);
      LiveIs(before, r);
      RecountAt(before, r, -1);
      if refs[r].count == 0 {
        BetweenIs(loose, moving, r);
        if moving == Some(r) {
          CloseMoving(r, before);
          LostHere(before, r, refs, was);
          return;
        }
        var parent := refs[r].parent;
        CloseDropped(r, before);
        FadedDropped(before, refs, moving);
        if parent.Some? {
          ghost var dead, thin := refs, paths;
          if moving.Some? { StillAdrift(before, moving.value, r); }
          Drop(parent.value, moving);
          DropsOn(before, dead, refs, was, thin, paths, r, moving);
        } else {
          ClosesAll(before, r, refs);
          if moving.Some? {
            AdriftIs(before, moving.value, r);
            LostNever(before, r, refs, moving.value);
          }
        }
      } else {
        if moving.Some? { AdriftIs(before, moving.value, r); }
        DropsNothing(before, r, refs, was, moving);
      }
    }

    method DecRef(r: Id)
      requires Valid() && r in held
      modifies `refs, `paths, `held
      ensures Valid() && held == old(held) - multiset{r}
      ensures Faded(old(refs), refs) && ClosesDoomed(old(refs), refs, r) && Thinned(old(paths), paths)
      ensures Grown(old(refs), old(paths), refs, paths, [])
    {
      hide Counted, Registered, Rooted, Positive, Faded, Thinned, NamesKept, Doomed, ClosesDoomed, Grown, Dropped, LostIf, Adrift;
      ghost var before, was, had := refs, paths, held;
      assert Between(loose, None);
      Drop(r, None);
      DroppedFaded(before, refs);
      DropKeepsLoops(before, refs, fids, had, r);
      FadedGrown(before, was, refs, paths);
    }

    // ----- the FID table -----

    method LookupFID(k: Key) returns (found: bool, r: Id)
      requires Valid()
      modifies `refs, `held
      ensures Valid() && (found <==> k in fids) && Touched(old(refs), refs)
      ensures found ==> r == fids[k] && Live(refs, r) && held == old(held) + multiset{r}
      ensures !found ==> held == old(held) && refs == old(refs)
    {
      hide Counted, Registered, Rooted, Positive;
      found, r := k in fids, 0;
      if found {
        r := fids[k];
        EntryLive(refs, fids, held, loose, k);
        IncRef(r);
      }
    }

    /** The reference at `k` gives way to one just taken, and is dropped. */
    method Displace(k: Key, r: Id, ghost had: multiset<Id>)
      requires Inv() && loose == {} && Positive(refs, {}) && held == had + multiset{r} && k in fids
      modifies `refs, `held, `fids, `paths
      ensures Valid() && held == had && fids == old(fids)[k := r] && refs.Keys == old(refs).Keys
      ensures Grown(old(refs), old(paths), refs, paths, [])
    {
      hide *;
      ghost var before := refs;
      Parts();
      Stored(refs, fids, had, loose, k, r);
      var orig := fids[k];
      PutBack(had, orig);
      fids := fids[k := r];
      held := had + multiset{orig};
      Now();
      DecRef(orig);
      FadedKeys(before, refs);
    }

    /** Installs `r`; a reference already installed there is dropped. */
    method InsertFID(k: Key, r: Id)
      requires Inv() && loose == {} && Live(refs, r) && Positive(refs, {r})
      modifies `refs, `held, `fids, `paths
      ensures Valid() && held == old(held) && fids == old(fids)[k := r] && refs.Keys == old(refs).Keys
      ensures Grown(old(refs), old(paths), refs, paths, [])
    {
      hide *;
      ghost var before, was, had := refs, paths, held;
      IncRef(r);
      ghost var mid := refs;
      TouchedKeys(before, mid);
      TouchedGrown(before, mid, was);
      if k in fids {
        Displace(k, r, had);
        GrownThen(before, was, mid, was, refs, paths, []);
      } else {
        Parts();
        Stored(refs, fids, had, loose, k, r);
        fids := fids[k := r];
        held := had;
        Now();
      }
    }

    method DeleteFID(k: Key) returns (ok: bool)
      requires Valid()
      modifies `refs, `held, `fids, `paths
      ensures Valid() && held == old(held) && (ok <==> k in old(fids)) && fids == old(fids) - {k} && refs.Keys == old(refs).Keys
      ensures Grown(old(refs), old(paths), refs, paths, [])
    {
      hide Counted, Registered, Rooted, Positive, Faded, Thinned, ClosesDoomed, Grown;
      ok := k in fids;
      GrownNone(refs, paths, []);
      if !ok {
        assert fids - {k} == fids;
        return;
      }
      EraseCounts(refs, fids, held, loose, k);
      var r := fids[k];
      fids := fids - {k};
      ghost var had, before := held, refs;
      held := held + multiset{r};
      DecRef(r);
      FadedKeys(before, refs);
      assert had + multiset{r} - multiset{r} == had;
    }

    // ----- path nodes -----

    /** The path node of an entry, made if there is none. */
    method PathNodeFor(n: Node, name: string) returns (m: Node)
      requires Inv() && n in paths
      modifies `paths, `nextNode
      ensures Inv() && n in paths && m in paths && n < m && SameNames(old(paths), paths) && AgreeBut(old(paths), paths, n)
      ensures HasChild(paths, n, name, m) && Grown(refs, old(paths), refs, paths, [name])
      ensures name in old(paths)[n].children ==> paths == old(paths)
      ensures name !in old(paths)[n].children ==>
                paths[n].children == old(paths)[n].children[name := m] && m != n && paths[m] == PathNode(map[], map[])
    {
      hide Counted, Registered, Rooted, Grown;
      if name in paths[n].children {
        m := paths[n].children[name];
        RootedAt(paths, nextNode, n, name);
        GrownNone(refs, paths, [name]);
        return;
      }
      m := nextNode;
      AddNodeIs(paths, n, name, m);
      SameNamesKeep(refs, paths, AddNode(paths, n, name, m), loose);
      AddNodeGrown(refs, paths, n, name, m);
      paths := paths[m := PathNode(map[], map[])];
      paths := paths[n := paths[n].(children := paths[n].children[name := m])];
      nextNode := nextNode + 1;
    }

    /** A new reference, registered with its parent's path node unless it is deleted. */
    method NewRef(f: FidRef, name: string) returns (c: Id)
      requires Inv() && loose == {} && f.closes == 0 && !f.lost && 0 <= f.count <= 1 && f.node in paths && (f.parent.Some? ==> f.parent.value in held)
      modifies `refs, `held, `paths, `nextRef
      ensures Inv() && c !in old(refs) && refs == old(refs)[c := f] && |refs| == |old(refs)| + 1
      ensures held == old(held) - HeldBy(f.parent) + (if f.count == 1 then multiset{c} else multiset{})
      ensures Grown(old(refs), old(paths), refs, paths, [])
      ensures f.parent.Some? && !f.deleted ==> f.parent.value in refs && HasName(paths, refs[f.parent.value].node, c, name)
      ensures Positive(old(refs), {}) ==> Positive(refs, if f.count == 1 then {} else {c})
    {
      hide Counted, Registered, Rooted, Positive, Grown;
      c := nextRef;
      nextRef := nextRef + 1;
      HeldLive(refs, fids, held, loose, f.parent);
      NotChild(refs, fids, held, loose, c);
      BirthCounts(refs, fids, held, loose, c, f);
      BirthKeeps(refs, paths, loose, c, f, name);
      BirthPositive(refs, c, f);
      ghost var was, had := paths, held;
      held := held - HeldBy(f.parent) + (if f.count == 1 then multiset{c} else multiset{});
      ghost var n := ROOT;
      if f.parent.Some? && !f.deleted {
        var node := refs[f.parent.value].node;
        RenamedRooted(paths, node, c, name, nextNode);
        n := node;
        paths := paths[node := paths[node].(names := paths[node].names[c := name])];
      }
      BirthGrown(refs, fids, had, was, paths, c, f, n, name);
      refs := refs[c := f];
    }

    // ----- walking -----

    /** A second reference to the file of `r`, with the same parent, name and path node. */
    method Clone(r: Id) returns (c: Id)
      requires Valid() && r in held
      modifies `refs, `held, `paths, `nextRef
      ensures Valid() && held == old(held) + multiset{c} && c !in old(refs) && c in refs && r in old(refs)
      ensures IsClone(old(refs)[r], refs, c) && |refs| == |old(refs)| + 1
      ensures old(refs)[r].parent.Some? && !old(refs)[r].deleted ==>
                var p := old(refs)[r].parent.value;
                && p in old(refs) && Named(old(paths), old(refs)[p].node, r)
                && HasName(paths, old(refs)[p].node, c, old(paths)[old(refs)[p].node].names[r])
      ensures Grown(old(refs), old(paths), refs, paths, [])
    {
      hide Counted, Registered, Rooted, Positive, Grown, Touched;
      HeldLive(refs, fids, held, loose, Some(r));
      RegisteredAt(refs, fids, paths, held, loose, r);
      var parent := refs[r].parent;
      var name := if parent.Some? && !refs[r].deleted then NameFor(refs[parent.value].node, r) else "";
      ghost var before, was, had := refs, paths, held;
      if parent.Some? {
        IncRef(parent.value);
        TouchedAt(before, refs, parent.value);
        TouchedAt(before, refs, r);
        TouchedGrown(before, refs, paths);
        TouchedSize(before, refs);
        assert held - multiset{parent.value} == had;
      } else {
        GrownNone(refs, paths, []);
        assert held - multiset{} == had;
      }
      ghost var mid := refs;
      NodeIn(refs, paths, loose, r);
      c := NewRef(FidRef(1, parent, refs[r].node, refs[r].deleted, false, refs[r].isDir, 0, false), name);
      GrownThen(before, was, mid, was, refs, paths, []);
    }

    /** The name of a registered reference. */
    function NameFor(n: Node, r: Id): string
      requires n in paths && r in paths[n].names
      reads this
    {
      paths[n].names[r]
    }

    lemma NameForIs(n: Node, r: Id)
      requires n in paths && r in paths[n].names
      ensures NameFor(n, r) == paths[n].names[r]
    {
    }

    /** One step of a walk: the reference to `r` becomes that of the new child. */
    method WalkStep(r: Id, name: string, isDir: bool) returns (c: Id)
      requires Valid() && r in held
      modifies `refs, `held, `paths, `nextRef, `nextNode
      ensures Valid() && held == old(held) - multiset{r} + multiset{c} && c !in old(refs) && c in refs && |refs| == |old(refs)| + 1
      ensures refs[c] == FidRef(1, Some(r), refs[c].node, false, false, isDir, 0, false) && r in refs
      ensures HasName(paths, refs[r].node, c, name) && HasChild(paths, refs[r].node, name, refs[c].node)
      ensures Grown(old(refs), old(paths), refs, paths, [name])
    {
      hide Counted, Registered, Rooted, Positive, Grown, SameNames, AgreeBut, HasName;
      HeldLive(refs, fids, held, loose, Some(r));
      NodeIn(refs, paths, loose, r);
      ghost var before, was := refs, paths;
      var node := PathNodeFor(refs[r].node, name);
      ghost var mid := paths;
      c := NewRef(FidRef(1, Some(r), node, false, false, isDir, 0, false), name);
      GrownStep(before, was, before, mid, refs, paths, [], [name]);
      ChildKept(before, mid, refs, paths, [], refs[r].node, name, node);
    }

    method DoWalk(r: Id, names: seq<string>, backend: nat -> Option<bool>) returns (reply: Reply, c: Id)
      requires Valid() && r in held
      modifies `refs, `held, `paths, `nextRef, `nextNode
      ensures Valid() && r in old(refs)
      ensures reply.Done? <==> WalkOk(names, backend, old(refs)[r].isOpen, old(refs)[r].isDir)
      ensures reply == WalkReply(names, backend, old(refs)[r].isOpen, old(refs)[r].isDir)
      ensures !reply.Done? ==> reply.Failed? && held == old(held)
      ensures reply.Done? ==> held == old(held) + multiset{c} && c in refs && c !in old(refs) && |refs| == |old(refs)| + Steps(names)
      ensures reply.Done? ==> if names == [] then IsClone(old(refs)[r], refs, c) else Walked(refs, paths, r, c, names, backend)
      ensures Grown(old(refs), old(paths), refs, paths, names)
    {
      hide *;
      c := r;
      GrownNone(refs, paths, names);
      ValidParts();
      HeldLive(refs, fids, held, loose, Some(r));
      LiveIs(refs, r);
      WalkOkIs(names, backend, refs[r].isOpen, refs[r].isDir);
      StepsIs(names);
      WalkReplyIs(names, backend, refs[r].isOpen, refs[r].isDir);
      if exists i :: 0 <= i < |names| && !SafeName(names[i]) {
        return Failed(EINVAL), c;
      }
      if refs[r].isOpen {
        return Failed(EBUSY), c;
      }
      if names == [] {
        if backend(0).None? { return Failed(Backend), c; }
        c := Clone(r);
        return Done, c;
      }
      ghost var before, was, had := refs, paths, held;
      IncRef(r);
      NowValid();
      TouchedGrown(before, refs, paths);
      GrownMore(before, was, refs, paths, [], names);
      TouchedAt(before, refs, r);
      TouchedKeys(before, refs);
      TouchedSize(before, refs);
      ghost var mid := refs;
      assert had + multiset{r} - multiset{r} == had;
      reply, c := WalkNames(r, names, backend);
      GrownThen(before, was, mid, was, refs, paths, names);
    }

    /** Step `i` of a walk that started at `r`. */
    method WalkOn(walk: Id, names: seq<string>, i: nat, isDir: bool, ghost r: Id) returns (c: Id)
      requires Valid() && walk in held && i < |names| && Reached(refs, paths, r, walk, names[..i])
      modifies `refs, `held, `paths, `nextRef, `nextNode
      ensures Valid() && held == old(held) - multiset{walk} + multiset{c} && c !in old(refs) && c in refs && |refs| == |old(refs)| + 1
      ensures refs[c].isDir == isDir && Reached(refs, paths, r, c, names[..i + 1])
      ensures Grown(old(refs), old(paths), refs, paths, [names[i]])
    {
      hide *;
      ghost var cur, now := refs, paths;
      c := WalkStep(walk, names[i], isDir);
      ValidParts();
      HeldLive(refs, fids, held, loose, Some(c));
      ParentLive(refs, fids, held, c);
      ReachedKept(cur, now, refs, paths, fids, held, r, walk, names[..i], [names[i]]);
      ReachedStep(refs, paths, r, walk, c, names, i);
    }

    /** The loop of a walk, from the reference just taken to `r`. */
    method WalkNames(r: Id, names: seq<string>, backend: nat -> Option<bool>) returns (reply: Reply, walk: Id)
      requires Valid() && r in held && r in refs && names != []
      modifies `refs, `held, `paths, `nextRef, `nextNode
      ensures Valid()
      ensures reply.Done? <==> StepsOk(backend, old(refs)[r].isDir, |names|)
      ensures reply == StepsReply(backend, old(refs)[r].isDir, 0, |names|)
      ensures !reply.Done? ==> reply.Failed? && held == old(held) - multiset{r}
      ensures reply.Done? ==> held == old(held) - multiset{r} + multiset{walk} && walk in refs && walk !in old(refs) && |refs| == |old(refs)| + |names|
      ensures reply.Done? ==> Walked(refs, paths, r, walk, names, backend)
      ensures Grown(old(refs), old(paths), refs, paths, names)
    {
      hide *;
      walk := r;
      ghost var before, was, had := refs, paths, held - multiset{r};
      ghost var dir := refs[r].isDir;
      GrownNone(refs, paths, names);
      ReachedNone(refs, paths, r, names);
      StepsOkNone(backend, dir);
      for i := 0 to |names|
        invariant Valid() && held == had + multiset{walk} && walk in refs && Reached(refs, paths, r, walk, names[..i])
        invariant StepsOk(backend, dir, i) && refs[walk].isDir == DirAt(backend, dir, i) && (i > 0 ==> walk !in before)
        invariant Grown(before, was, refs, paths, names) && |refs| == |before| + i
        invariant StepsReply(backend, dir, i, |names|) == StepsReply(backend, dir, 0, |names|)
      {
        StepsOkNext(backend, dir, i, |names|);
        StepsReplyIs(backend, dir, i, |names|);
        ghost var cur, now := refs, paths;
        PutBack(had, walk);
        if !refs[walk].isDir || backend(i).None? {
          reply := Failed(if !refs[walk].isDir then EINVAL else Backend);
          DecRef(walk);
          GrownStep(before, was, cur, now, refs, paths, [], names);
          return;
        }
        KeptKeys(before, was, cur, now, names);
        walk := WalkOn(walk, names, i, backend(i).value, r);
        GrownStep(before, was, cur, now, refs, paths, [names[i]], names);
      }
      StepsOkLast(backend, dir, |names|);
      StepsReplyIs(backend, dir, |names|, |names|);
      assert names[..|names|] == names;
      WalkedIs(refs, paths, r, walk, names, backend);
      reply := Done;
    }

    // ----- handlers -----

    method Twalk(k: Key, k': Key, names: seq<string>, backend: nat -> Option<bool>) returns (reply: Reply)
      requires Valid()
      modifies this
      ensures Valid() && held == old(held)
      ensures k !in old(fids) ==> reply == Failed(EBADF)
      ensures k in old(fids) ==> old(fids)[k] in old(refs)
      ensures k in old(fids) ==>
                && (reply.Done? <==> WalkOk(names, backend, old(refs)[old(fids)[k]].isOpen, old(refs)[old(fids)[k]].isDir))
                && reply == WalkReply(names, backend, old(refs)[old(fids)[k]].isOpen, old(refs)[old(fids)[k]].isDir)
      ensures !reply.Done? ==> reply.Failed? && fids == old(fids)
      ensures reply.Done? ==> k' in fids && fids == old(fids)[k' := fids[k']] && fids[k'] !in old(refs)
      ensures reply.Done? ==> |refs| == |old(refs)| + Steps(names)
      ensures k in old(fids) && reply.Done? ==>
                if names == [] then IsClone(old(refs)[old(fids)[k]], refs, fids[k'])
                else Walked(refs, paths, old(fids)[k], fids[k'], names, backend)
      ensures Grown(old(refs), old(paths), refs, paths, names)
    {
      hide *;
      ghost var before, was, had := refs, paths, held;
      ghost var table := fids;
      var found, r := LookupFID(k);
      TouchedGrown(before, refs, paths);
      GrownMore(before, was, refs, paths, [], names);
      if !found { return Failed(EBADF); }
      LiveIs(refs, r);
      TouchedAt(before, refs, r);
      TouchedKeys(before, refs);
      TouchedSize(before, refs);
      ghost var mid := refs;
      var c;
      reply, c := DoWalk(r, names, backend);
      GrownThen(before, was, mid, was, refs, paths, names);
      ghost var cur, now := refs, paths;
      assert had + multiset{r} - multiset{r} == had;
      if !reply.Done? {
        DecRef(r);
        GrownStep(before, was, cur, now, refs, paths, [], names);
        return;
      }
      Install(k', c, had + multiset{r});
      ghost var a, p := refs, paths;
      DecRef(r);
      FadedSize(a, refs);
      GrownThen(cur, now, a, p, refs, paths, []);
      GrownStep(before, was, cur, now, refs, paths, [], names);
      ValidParts();
      EntryLive(refs, fids, held, loose, k');
      WalkResult(cur, now, refs, paths, fids, held, before[r], mid[r], r, c, names, backend);
    }

    /** InsertFID of a reference the handler holds, which it then drops. */
    method Install(k: Key, c: Id, ghost had: multiset<Id>)
      requires Valid() && held == had + multiset{c}
      modifies `refs, `held, `fids, `paths
      ensures Valid() && held == had && fids == old(fids)[k := c] && |refs| == |old(refs)|
      ensures Grown(old(refs), old(paths), refs, paths, [])
    {
      hide Counted, Registered, Rooted, Positive, Grown, Faded, Thinned, ClosesDoomed;
      ghost var before, was := refs, paths;
      HeldLive(refs, fids, held, loose, Some(c));
      PositiveBut(refs, c);
      InsertFID(k, c);
      ghost var mid, now := refs, paths;
      DecRef(c);
      FadedSize(mid, refs);
      SameSize(before, mid);
      GrownThen(before, was, mid, now, refs, paths, []);
      assert had + multiset{c} - multiset{c} == had;
    }

    method Tclunk(k: Key) returns (reply: Reply)
      requires Valid()
      modifies this
      ensures Valid() && held == old(held) && fids == old(fids) - {k} && refs.Keys == old(refs).Keys && Grown(old(refs), old(paths), refs, paths, [])
      ensures reply == if k in old(fids) then Done else Failed(EBADF)
    {
      hide Counted, Registered, Rooted, Positive, Grown;
      var ok := DeleteFID(k);
      reply := if ok then Done else Failed(EBADF);
    }

    /** A new reference to the root, held by the handler. */
    method NewRoot(isDir: bool) returns (root: Id)
      requires Valid()
      modifies `refs, `held, `paths, `nextRef
      ensures Valid() && held == old(held) + multiset{root} && root !in old(refs) && IsRoot(refs, root, isDir) && |refs| == |old(refs)| + 1
      ensures Grown(old(refs), old(paths), refs, paths, [])
    {
      hide *;
      ValidParts();
      Parts();
      HeldByIs(None);
      root := NewRef(FidRef(1, None, ROOT, false, false, isDir, 0, false), "");
      NowValid();
      RootIs(refs, root, isDir);
    }

    /** A reference to the root, or one walked to from a root that is then dropped. */
    method Tattach(k: Key, names: seq<string>, attached: Option<bool>, backend: nat -> Option<bool>) returns (reply: Reply)
      requires Valid()
      modifies this
      ensures Valid() && held == old(held) && Grown(old(refs), old(paths), refs, paths, names)
      ensures !reply.Done? ==> reply.Failed? && fids == old(fids)
      ensures reply.Done? ==> k in fids && fids == old(fids)[k := fids[k]] && fids[k] in refs && fids[k] !in old(refs)
      ensures reply.Done? ==> |refs| == |old(refs)| + 1 + |names|
      ensures reply.Done? <==> attached.Some? && (names == [] || WalkOk(names, backend, false, attached.value))
      ensures reply == if attached.None? then Failed(Backend) else if names == [] then Done else WalkReply(names, backend, false, attached.value)
      ensures reply.Done? ==> AttachedAt(old(refs), refs, paths, fids[k], names, attached, backend)
    {
      hide *;
      ghost var had, before, was := held, refs, paths;
      GrownNone(refs, paths, names);
      if attached.None? { return Failed(Backend); }
      var root := NewRoot(attached.value);
      GrownMore(before, was, refs, paths, [], names);
      assert had + multiset{root} - multiset{root} == had;
      ghost var mid, now := refs, paths;
      KeptKeys(before, was, mid, now, names);
      RootIs(refs, root, attached.value);
      reply := Done;
      if names == [] {
        ValidParts();
        HeldLive(refs, fids, held, loose, Some(root));
        PositiveBut(refs, root);
        InsertFID(k, root);
        SameSize(mid, refs);
        ghost var cur, q := refs, paths;
        DecRef(root);
        FadedSize(cur, refs);
        GrownThen(mid, now, cur, q, refs, paths, []);
        GrownStep(before, was, mid, now, refs, paths, [], names);
        ValidParts();
        EntryLive(refs, fids, held, loose, k);
        AttachedRoot(before, mid, now, refs, paths, root, attached.value, backend);
        return;
      }
      reply := AttachWalk(k, root, names, attached.value, backend, had);
      GrownThen(before, was, mid, now, refs, paths, names);
      if reply.Done? { AttachedWalk(before, refs, paths, root, fids[k], names, attached.value, backend); }
    }

    /** The walk of an attach, the root dropped at its end. */
    method AttachWalk(k: Key, root: Id, names: seq<string>, isDir: bool, backend: nat -> Option<bool>, ghost had: multiset<Id>) returns (reply: Reply)
      requires Valid() && held == had + multiset{root} && IsRoot(refs, root, isDir) && names != []
      modifies this
      ensures Valid() && held == had && (reply.Done? <==> WalkOk(names, backend, false, isDir)) && reply == WalkReply(names, backend, false, isDir)
      ensures !reply.Done? ==> reply.Failed? && fids == old(fids)
      ensures reply.Done? ==> k in fids && fids == old(fids)[k := fids[k]] && fids[k] in refs && fids[k] !in old(refs)
      ensures reply.Done? ==> |refs| == |old(refs)| + |names|
      ensures reply.Done? ==> IsRoot(refs, root, isDir) && Walked(refs, paths, root, fids[k], names, backend)
      ensures Grown(old(refs), old(paths), refs, paths, names)
    {
      hide *;
      ghost var mid, now := refs, paths;
      RootIs(mid, root, isDir);
      StepsIs(names);
      assert had + multiset{root} - multiset{root} == had;
      var c;
      reply, c := DoWalk(root, names, backend);
      ghost var cur, q := refs, paths;
      if !reply.Done? {
        DecRef(root);
        GrownStep(mid, now, cur, q, refs, paths, [], names);
        return;
      }
      Install(k, c, had + multiset{root});
      ghost var a, p := refs, paths;
      DecRef(root);
      FadedSize(a, refs);
      GrownThen(cur, q, a, p, refs, paths, []);
      GrownStep(mid, now, cur, q, refs, paths, [], names);
      ValidParts();
      EntryLive(refs, fids, held, loose, k);
      LiveIs(refs, c);
      WalkResult(cur, q, refs, paths, fids, held, cur[c], cur[c], root, c, names, backend);
      RootStays(mid, now, refs, paths, root, names, isDir);
    }

    /** A created child of `r`, not owned by anything yet. */
    method NewChild(r: Id, name: string) returns (c: Id)
      requires Valid() && r in held
      modifies `refs, `held, `paths, `nextRef, `nextNode
      ensures Inv() && loose == {} && held == old(held) && c !in old(refs) && Live(refs, c) && Positive(refs, {c})
      ensures Arrived(refs, paths, r, c, name) && refs[c] == FidRef(0, Some(r), refs[c].node, false, true, false, 0, false)
      ensures r in refs && HasChild(paths, refs[r].node, name, refs[c].node)
      ensures Grown(old(refs), old(paths), refs, paths, [name])
    {
      hide Counted, Registered, Rooted, Positive, Grown, Touched, SameNames, AgreeBut, HasChild, HasName;
      ghost var before, was, had := refs, paths, held;
      HeldLive(refs, fids, held, loose, Some(r));
      NodeIn(refs, paths, loose, r);
      var node := PathNodeFor(refs[r].node, name);
      ghost var now := paths;
      IncRef(r);
      TouchedAt(before, refs, r);
      TouchedKeys(before, refs);
      TouchedGrown(before, refs, paths);
      GrownMore(before, now, refs, now, [], [name]);
      ghost var mid := refs;
      GrownThen(before, was, before, now, mid, now, [name]);
      c := NewRef(FidRef(0, Some(r), node, false, true, false, 0, false), name);
      ChildKept(mid, now, refs, paths, [], refs[r].node, name, node);
      GrownStep(before, was, mid, now, refs, paths, [], [name]);
      assert held == had;
    }

    /** Creates a file and replaces the directory's FID by it. */
    method Tlcreate(k: Key, name: string, backend: bool) returns (reply: Reply)
      requires Valid()
      modifies this
      ensures Valid() && held == old(held) && Grown(old(refs), old(paths), refs, paths, [name])
      ensures !reply.Done? ==> reply.Failed? && fids == old(fids)
      ensures reply.Done? ==> k in fids && fids == old(fids)[k := fids[k]] && fids[k] !in old(refs)
      ensures k in old(fids) ==> old(fids)[k] in old(refs)
      ensures reply == if !SafeName(name) then Failed(EINVAL)
                       else if k !in old(fids) then Failed(EBADF)
                       else if !Directory(old(refs)[old(fids)[k]]) then Failed(EINVAL)
                       else if !backend then Failed(Backend)
                       else Done
      ensures k in old(fids) ==>
                && (reply.Done? <==> SafeName(name) && backend && Directory(old(refs)[old(fids)[k]]))
                && (reply.Done? ==>
                      && Arrived(refs, paths, old(fids)[k], fids[k], name)
                      && Created(refs, paths, old(fids)[k], fids[k], name))
    {
      hide *;
      ghost var before, was, had := refs, paths, held;
      GrownNone(refs, paths, [name]);
      ValidParts();
      FidsIn(refs, fids, held, loose);
      if !SafeName(name) { return Failed(EINVAL); }
      var found, r := LookupFID(k);
      if !found { return Failed(EBADF); }
      LiveIs(refs, r);
      TouchedAt(before, refs, r);
      TouchedKeys(before, refs);
      TouchedGrown(before, refs, paths);
      GrownMore(before, was, refs, paths, [], [name]);
      DirectoryIs(before[r]);
      ghost var mid, now := refs, paths;
      assert had + multiset{r} - multiset{r} == had;
      if refs[r].deleted || !refs[r].isDir || refs[r].isOpen || !backend {
        reply := Failed(if refs[r].deleted || !refs[r].isDir || refs[r].isOpen then EINVAL else Backend);
        DecRef(r);
        GrownStep(before, was, mid, now, refs, paths, [], [name]);
        return;
      }
      var c := NewChild(r, name);
      GrownThen(before, was, mid, now, refs, paths, [name]);
      mid, now := refs, paths;
      LiveIs(mid, c);
      InsertFID(k, c);
      ghost var cur, q := refs, paths;
      DecRef(r);
      GrownThen(mid, now, cur, q, refs, paths, []);
      GrownStep(before, was, mid, now, refs, paths, [], [name]);
      ValidParts();
      EntryLive(refs, fids, held, loose, k);
      ArrivedKept(mid, now, refs, paths, [], r, c, name);
      CreatedKept(mid, now, refs, paths, r, c, name);
      LiveIs(refs, c);
      reply := Done;
    }

    // ----- unlinking -----

    /** Marks every reference registered with a path node or below as deleted. */
    method NotifyDelete(n: Node)
      requires Inv() && n in paths
      modifies `refs
      ensures Inv() && Marked(old(refs), refs) && Wiped(paths, old(refs), refs, n)
      decreases nextNode - n
    {
      hide *;
      Parts();
      ghost var before := refs;
      NamesIn(refs, paths, loose, n);
      MarkedNone(refs);
      var todo := paths[n].names.Keys;
      while todo != {}
        invariant Inv() && Marked(before, refs) && todo <= paths[n].names.Keys && refs.Keys == before.Keys
        invariant forall x :: x in before ==> (refs[x].deleted <==> before[x].deleted || (x in paths[n].names && x !in todo))
        decreases |todo|
      {
        var r :| r in todo;
        Parts();
        ghost var was := refs;
        MarkedOne(refs, r);
        MarkedKeeps(refs, refs[r := refs[r].(deleted := true)], fids, paths, held, loose);
        refs := refs[r := refs[r].(deleted := true)];
        MarkedThen(before, was, refs);
        todo := todo - {r};
        Now();
      }
      var names := paths[n].children.Keys;
      WipedNames(paths, before, refs, n);
      while names != {}
        invariant Inv() && Marked(before, refs) && names <= paths[n].children.Keys && WipedBut(paths, before, refs, n, names)
        decreases |names|
      {
        var name :| name in names;
        Parts();
        RootedAt(paths, nextNode, n, name);
        ghost var was := refs;
        NotifyDelete(paths[n].children[name]);
        MarkedThen(before, was, refs);
        WipedNext(paths, before, was, refs, n, names, name);
        names := names - {name};
      }
      WipedAll(paths, before, refs, n);
    }

    /** Removes the entry `name` of a path node: the references named so are unregistered,
        and they and everything below are marked as deleted. */
    method MarkChildDeleted(n: Node, name: string)
      requires Inv() && n in paths
      modifies `refs, `paths, `nextNode
      ensures Inv() && Marked(old(refs), refs) && n in paths && Having(paths, n, name) == {}
      ensures Unlinked(old(paths), old(refs), refs, n, name) && NamesBut(old(paths), paths, n, name) && Regrown(old(paths), paths)
      ensures AgreeBut(old(paths), paths, n) && paths[n].children == old(paths)[n].children - {name}
    {
      hide *;
      ghost var before, was, next := refs, paths, nextNode;
      Parts();
      UnlinkNamed(n, name);
      ghost var mid, cur := refs, paths;
      var orig := DropEntry(n, name);
      AgreeThen(was, cur, paths, n);
      NamesButSame(was, cur, paths, n, name);
      SameHaving(cur, paths, n, name);
      SameNamesRegrow(was, cur, paths);
      NotifyDelete(orig);
      MarkedThen(before, mid, refs);
      UnlinkedBy(was, paths, before, mid, refs, n, name, orig, next);
    }

    /** The path node of `name`, taken out of `n`. */
    method DropEntry(n: Node, name: string) returns (orig: Node)
      requires Inv() && n in paths
      modifies `paths, `nextNode
      ensures Inv() && n in paths && orig in paths && n < orig && SameNames(old(paths), paths) && AgreeBut(old(paths), paths, n)
      ensures if name in old(paths)[n].children then orig == old(paths)[n].children[name] else paths[orig] == PathNode(map[], map[])
      ensures paths[n].children == old(paths)[n].children - {name}
    {
      hide Counted, Registered, Rooted, SameNames, AgreeBut, Grown;
      ghost var was := paths;
      orig := PathNodeFor(n, name);
      ghost var cur := paths;
      RootedChildren(paths, nextNode, n);
      SetChildren(paths, n, paths[n].children - {name}, nextNode);
      SameNamesKeep(refs, paths, paths[n := paths[n].(children := paths[n].children - {name})], loose);
      paths := paths[n := paths[n].(children := paths[n].children - {name})];
      SameNamesThen(was, cur, paths);
      AgreeThen(was, cur, paths, n);
    }

    /** Unregisters and marks the references named `name`. */
    method UnlinkNamed(n: Node, name: string)
      requires Inv() && n in paths
      modifies `refs, `paths
      ensures Inv() && Marked(old(refs), refs) && refs.Keys == old(refs).Keys && n in paths && Having(paths, n, name) == {}
      ensures forall x :: x in old(refs) ==> (refs[x].deleted <==> old(refs)[x].deleted || HasName(old(paths), n, x, name))
      ensures AgreeBut(old(paths), paths, n) && NamesBut(old(paths), paths, n, name) && Regrown(old(paths), paths)
      ensures paths[n].children == old(paths)[n].children
    {
      hide *;
      ghost var before, was := refs, paths;
      MarkedNone(before);
      NothingYet(was, n, name);
      while Having(paths, n, name) != {}
        invariant Inv() && Marked(before, refs) && refs.Keys == before.Keys && Regrown(was, paths) && n in paths && AgreeBut(was, paths, n)
        invariant paths[n].children == was[n].children && NamesBut(was, paths, n, name)
        invariant forall x :: x in before ==>
                    (refs[x].deleted || HasName(paths, n, x, name) <==> before[x].deleted || HasName(was, n, x, name))
        decreases |Having(paths, n, name)|
      {
        var r :| r in Having(paths, n, name);
        HavingIs(paths, n, name, r);
        HasNameIs(paths, n, r, name);
        ghost var mid, cur := refs, paths;
        UnlinkOne(n, r);
        MarkedThen(before, mid, refs);
        RegrownThen(was, cur, paths);
        UnnameLike(was, cur, n, r, name);
        OneNameLess(cur, n, r, name);
      }
      NoneHave(paths, n, name);
    }

    method UnlinkOne(n: Node, r: Id)
      requires Inv() && n in paths && r in paths[n].names
      modifies `refs, `paths
      ensures Inv() && Marked(old(refs), refs) && paths == Unname(old(paths), n, r) && Regrown(old(paths), paths)
      ensures r in old(refs) && refs == old(refs)[r := old(refs)[r].(deleted := true)]
    {
      hide Counted, Registered, Rooted, Marked, Thinned, Regrown;
      NamesIn(refs, paths, loose, n);
      MarkedOne(refs, r);
      MarkedKeeps(refs, refs[r := refs[r].(deleted := true)], fids, paths, held, loose);
      refs := refs[r := refs[r].(deleted := true)];
      UnnameKeeps(refs, paths, loose, n, r);
      ThinnedOne(paths, n, r);
      ThinnedRooted(paths, Unname(paths, n, r), nextNode);
      ThinnedRegrown(paths, Unname(paths, n, r));
      paths := paths[n := paths[n].(names := paths[n].names - {r})];
    }

    method Tunlinkat(k: Key, name: string, backend: bool) returns (reply: Reply)
      requires Valid()
      modifies this
      ensures Valid() && held == old(held) && fids == old(fids)
      ensures k in old(fids) ==> old(fids)[k] in old(refs)
      ensures reply == if !SafeName(name) then Failed(EINVAL)
                       else if k !in old(fids) then Failed(EBADF)
                       else if !Directory(old(refs)[old(fids)[k]]) then Failed(EINVAL)
                       else if !backend then Failed(Backend)
                       else Done
      ensures k in old(fids) && reply.Done? ==> UnlinkDone(old(paths), paths, old(refs), refs, old(refs)[old(fids)[k]].node, name)
      ensures !reply.Done? ==> reply.Failed? && Grown(old(refs), old(paths), refs, paths, [name])
    {
      hide *;
      ghost var before, was, had := refs, paths, held;
      GrownNone(refs, paths, [name]);
      ValidParts();
      FidsIn(refs, fids, held, loose);
      if !SafeName(name) { return Failed(EINVAL); }
      var found, r := LookupFID(k);
      if !found { return Failed(EBADF); }
      LiveIs(refs, r);
      TouchedAt(before, refs, r);
      TouchedGrown(before, refs, paths);
      GrownMore(before, was, refs, paths, [], [name]);
      DirectoryIs(before[r]);
      ghost var mid := refs;
      assert had + multiset{r} - multiset{r} == had;
      if refs[r].deleted || !refs[r].isDir || refs[r].isOpen {
        reply := Failed(EINVAL);
        DecRef(r);
        GrownStep(before, was, mid, was, refs, paths, [], [name]);
        return;
      }
      var n := refs[r].node;
      ValidParts();
      NodeIn(refs, paths, loose, r);
      var child := PathNodeFor(n, name);
      GrownThen(before, was, mid, was, refs, paths, [name]);
      ghost var now := paths;
      NowValid();
      if !backend {
        reply := Failed(Backend);
        DecRef(r);
        GrownStep(before, was, mid, now, refs, paths, [], [name]);
        return;
      }
      MarkChildDeleted(n, name);
      MarkedPositive(mid, refs);
      NowValid();
      ghost var cur, q := refs, paths;
      DecRef(r);
      FadedKeys(cur, refs);
      UnlinkMade(was, now, q, mid, cur, n, name, child);
      UnlinkAround(was, q, paths, before, mid, cur, refs, n, name);
      reply := Done;
    }

    method Tremove(k: Key, backend: bool) returns (reply: Reply)
      requires Valid()
      modifies this
      ensures Valid() && held == old(held) && fids == old(fids) - {k}
      ensures k in old(fids) ==> old(fids)[k] in old(refs)
      ensures reply == if k !in old(fids) then Failed(EBADF)
                       else if old(refs)[old(fids)[k]].parent.None? || old(refs)[old(fids)[k]].deleted then Failed(EINVAL)
                       else if !backend then Failed(Backend)
                       else Done
      ensures k in old(fids) && reply.Done? ==>
                var f := old(refs)[old(fids)[k]];
                && f.parent.value in old(refs)
                && var n := old(refs)[f.parent.value].node;
                   Named(old(paths), n, old(fids)[k])
                   && UnlinkDone(old(paths), paths, old(refs), refs, n, old(paths)[n].names[old(fids)[k]])
      ensures !reply.Done? ==> reply.Failed? && Grown(old(refs), old(paths), refs, paths, [])
    {
      hide *;
      ghost var before, was, had := refs, paths, held;
      GrownNone(refs, paths, []);
      ValidParts();
      FidsIn(refs, fids, held, loose);
      var found, r := LookupFID(k);
      if !found {
        assert fids - {k} == fids;
        return Failed(EBADF);
      }
      LiveIs(refs, r);
      TouchedAt(before, refs, r);
      TouchedGrown(before, refs, paths);
      ghost var mid := refs;
      assert had + multiset{r} - multiset{r} == had;
      ValidParts();
      RegisteredAt(refs, fids, paths, held, loose, r);
      if refs[r].parent.None? || refs[r].deleted || !backend {
        reply := Failed(if refs[r].parent.None? || refs[r].deleted then EINVAL else Backend);
        var ok := DeleteFID(k);
        GrownThen(before, was, mid, was, refs, paths, []);
        ghost var cur, q := refs, paths;
        DecRef(r);
        GrownThen(before, was, cur, q, refs, paths, []);
        return;
      }
      LiveIs(refs, refs[r].parent.value);
      TouchedAt(before, refs, refs[r].parent.value);
      var n := refs[refs[r].parent.value].node;
      var name := NameFor(n, r);
      NameForIs(n, r);
      MarkChildDeleted(n, name);
      MarkedPositive(mid, refs);
      NowValid();
      ghost var cur, q := refs, paths;
      UnlinkBy(was, q, mid, cur, n, name);
      var ok := DeleteFID(k);
      ghost var a, p := refs, paths;
      DecRef(r);
      GrownThen(cur, q, a, p, refs, paths, []);
      FadedKeys(a, refs);
      UnlinkAround(was, q, paths, before, mid, cur, refs, n, name);
      NamedIs(was, n, r);
      reply := Done;
    }

    // ----- renaming -----

    /** Registering a reference that is already registered would panic. */
    method AddChild(n: Node, r: Id, name: string)
      requires n in paths && r !in paths[n].names
      modifies `paths
      ensures paths == Rename(old(paths), n, r, name)
    {
      paths := paths[n := paths[n].(names := paths[n].names[r := name])];
    }

    /** A reference registered with `n` leaves its parent. */
    method Detach(n: Node, r: Id)
      requires Valid() && n in paths && r in paths[n].names
      modifies `refs, `paths, `held, `loose
      ensures r in old(refs) && Owner(old(refs)[r]) && old(refs)[r].parent.Some?
      ensures Inv() && loose == {r} && Positive(refs, {}) && held == old(held)
      ensures Dropped(old(refs), refs, Some(r)) && ClosesDoomed(old(refs), refs, old(refs)[r].parent.value)
      ensures LostIf(old(refs), refs, r, old(refs)[r].parent.value)
      ensures Thinned(Unname(old(paths), n, r), paths) && NamesKept(refs, Unname(old(paths), n, r), paths)
    {
      hide *;
      ValidParts();
      Parts();
      NamedUnder(refs, paths, n, r);
      var p := refs[r].parent.value;
      AdriftFrom(refs, r);
      DetachCounts(refs, fids, held, loose, r);
      DetachKeeps(refs, paths, loose, r);
      ThinnedOne(paths, n, r);
      ThinnedRooted(paths, Unname(paths, n, r), nextNode);
      UnnameEq(paths, n, r);
      assert loose + {r} == {r};
      paths := paths[n := paths[n].(names := paths[n].names - {r})];
      loose := {r};
      ghost var had := held;
      held := held + multiset{p};
      assert had + multiset{p} - multiset{p} == had;
      Now();
      BetweenIs(loose, Some(r), r);
      Drop(p, Some(r));
    }

    /** A loose reference gets a new parent, and the handler a reference to it. */
    method SetParent(r: Id, t: Id)
      requires Inv() && loose == {r} && Positive(refs, {}) && t in held
      modifies `refs, `held
      ensures Inv() && Positive(refs, {}) && held == old(held) + multiset{t}
      ensures Shifted(old(refs), refs, r) && r in refs && refs[r].parent == Some(t) && t in old(refs) && t in refs && refs[t].node == old(refs)[t].node
    {
      hide *;
      Parts();
      ghost var before := refs;
      LooseIn(refs, fids, held, loose, r);
      HeldLive(refs, fids, held, loose, Some(t));
      LiveIs(refs, t);
      LooseKeeps(refs, fids, paths, held, loose, r, t);
      LoosePositive(refs, r, t);
      refs := refs[r := refs[r].(parent := Some(t))];
      Now();
      LiveIs(refs, t);
      IncRef(t);
      ShiftedBy(before, r, t);
    }

    /** A loose reference becomes a child of `t`. */
    method AttachTo(r: Id, t: Id, newName: string)
      requires Inv() && loose == {r} && Positive(refs, {}) && t in held
      modifies `refs, `paths, `held, `loose
      ensures Valid() && held == old(held) && Shifted(old(refs), refs, r) && r in refs && t in old(refs) && refs[r].parent == Some(t)
      ensures old(refs)[t].node in old(paths) && paths == Rename(old(paths), old(refs)[t].node, r, newName)
    {
      hide *;
      ghost var had := held;
      SetParent(r, t);
      Parts();
      NodeIn(refs, paths, loose, t);
      NotNamed(refs, paths, loose, refs[t].node, r);
      Attached(refs, fids, paths, had, r, t, newName);
      RenamedRooted(paths, refs[t].node, r, newName, nextNode);
      RenameEq(paths, refs[t].node, r, newName);
      AddChild(refs[t].node, r, newName);
      held := had;
      loose := {};
      Now();
    }

    /** A reference registered with `n` leaves its parent and becomes a child of `t`. It is lost
        exactly when nothing but its own loop kept it open. */
    method MoveOne(n: Node, r: Id, t: Id, newName: string)
      requires Valid() && n in paths && r in paths[n].names && t in held
      modifies `refs, `paths, `held, `loose
      ensures Valid() && held == old(held) && r in old(refs) && Owner(old(refs)[r]) && t in old(refs)
      ensures Hauled(old(refs), refs, old(paths), paths, {r}) && Arrived(refs, paths, t, r, newName)
      ensures MovesOne(old(refs), refs, r, t) && Gone(old(paths), paths, n, r, old(refs)[t].node)
      ensures r in refs && (refs[r].lost <==> old(refs)[r].lost || Trapped(old(refs), r))
    {
      hide *;
      ghost var before, was := refs, paths;
      Detach(n, r);
      ghost var mid, thin := refs, paths;
      AttachTo(r, t, newName);
      DroppedKeys(before, mid, Some(r));
      MovedOne(before, mid, refs, was, thin, paths, n, r, t, newName);
    }

    /** Moves the entry `oldName` of a path node to the directory `t` as `newName`. */
    method RenameChildTo(n: Node, oldName: string, t: Id, newName: string)
      requires Valid() && n in paths && t in held && t in refs && refs[t].node in paths && !(n == refs[t].node && oldName == newName)
      modifies `refs, `paths, `held, `loose, `nextNode
      ensures Valid() && held == old(held) && RenameDone(old(paths), paths, old(refs), refs, n, oldName, t, newName)
      ensures LostWhen(old(paths), old(refs), refs, n, oldName)
    {
      hide *;
      ghost var before, was := refs, paths;
      ValidParts();
      MarkChildDeleted(refs[t].node, newName);
      MarkedPositive(before, refs);
      NowValid();
      ghost var mid, now := refs, paths;
      ghost var moved: set<Id> := {};
      MarkedKeys(before, mid);
      StartMoving(was, now, before, mid, fids, held, n, oldName, t, newName);
      while Having(paths, n, oldName) != {}
        invariant Valid() && held == old(held) && n in paths && t in refs && refs[t].node == before[t].node
        invariant Moving(was, now, paths, before, mid, refs, n, oldName, t, newName, moved)
        decreases |Having(paths, n, oldName)|
      {
        var r :| r in Having(paths, n, oldName);
        HavingIs(paths, n, oldName, r);
        HasNameIs(paths, n, r, oldName);
        ghost var cur, q := refs, paths;
        ValidParts();
        MoveOne(n, r, t, newName);
        HauledAt(cur, refs, q, paths, {r}, t);
        FewerHaving(q, paths, refs, n, r, t, oldName, newName);
        ValidParts();
        MovesOn(was, now, q, paths, before, mid, cur, refs, fids, held, n, oldName, t, newName, moved, r);
        moved := moved + {r};
      }
      ghost var cur := paths;
      MovedAll(was, now, paths, before, mid, refs, n, oldName, t, newName, moved);
      SwapEntry(n, oldName, newName);
      NowValid();
      RenameAll(was, now, cur, paths, before, mid, refs, n, oldName, t, newName, moved);
    }

    /** Stores the path node of `oldName` again, as `newName`. */
    method SwapEntry(n: Node, oldName: string, newName: string)
      requires Valid() && n in paths
      modifies `paths, `nextNode
      ensures Inv() && loose == {} && Positive(refs, {})
      ensures SameNames(old(paths), paths) && AgreeBut(old(paths), paths, n) && n in paths && newName in paths[n].children
      ensures oldName in old(paths)[n].children ==> paths[n].children[newName] == old(paths)[n].children[oldName]
    {
      hide Counted, Registered, Rooted, Positive, SameNames, AgreeBut;
      ghost var was := paths;
      var orig := DropEntry(n, oldName);
      ghost var cur := paths;
      RootedChildren(paths, nextNode, n);
      SetChildren(paths, n, paths[n].children[newName := orig], nextNode);
      SameNamesKeep(refs, paths, paths[n := paths[n].(children := paths[n].children[newName := orig])], loose);
      paths := paths[n := paths[n].(children := paths[n].children[newName := orig])];
      SameNamesThen(was, cur, paths);
      AgreeThen(was, cur, paths, n);
    }

    /** Both references, or neither. */
    method LookupTwo(k: Key, k': Key) returns (found: bool, r: Id, t: Id, ghost had: multiset<Id>)
      requires Valid()
      modifies `refs, `held, `paths
      ensures Valid() && (found <==> k in fids && k' in fids)
      ensures found ==>
                && r == fids[k] && t == fids[k'] && Live(refs, r) && Live(refs, t)
                && had == old(held) + multiset{r} && held == had + multiset{t} && Touched(old(refs), refs) && paths == old(paths)
      ensures !found ==> held == old(held) && Grown(old(refs), old(paths), refs, paths, [])
    {
      hide *;
      ghost var before, was := refs, paths;
      t := 0;
      found, r := LookupFID(k);
      had := held;
      TouchedGrown(before, refs, paths);
      if !found { return; }
      ghost var mid := refs;
      found, t := LookupFID(k');
      TouchedThen(before, mid, refs);
      TouchedGrown(before, refs, paths);
      if !found {
        assert old(held) + multiset{r} - multiset{r} == old(held);
        DecRef(r);
        GrownThen(before, was, mid, was, refs, paths, []);
        return;
      }
      LiveIs(mid, r);
      TouchedAt(mid, refs, r);
      LiveIs(refs, r);
    }

    /** The deferred drops of a rename. */
    method FinishTwo(r: Id, t: Id, ghost had: multiset<Id>, ghost had': multiset<Id>)
      requires Valid() && held == had + multiset{t} && had == had' + multiset{r}
      modifies `refs, `held, `paths
      ensures Valid() && held == had' && refs.Keys == old(refs).Keys && Grown(old(refs), old(paths), refs, paths, [])
    {
      hide *;
      ghost var a, p := refs, paths;
      assert had + multiset{t} - multiset{t} == had;
      assert had' + multiset{r} - multiset{r} == had';
      DecRef(t);
      ghost var b, q := refs, paths;
      FadedKeys(a, b);
      DecRef(r);
      FadedKeys(b, refs);
      GrownThen(a, p, b, q, refs, paths, []);
    }

    method Trenameat(k: Key, oldName: string, k': Key, newName: string, backend: bool) returns (reply: Reply)
      requires Valid()
      modifies this
      ensures Valid() && held == old(held) && fids == old(fids)
      ensures k in old(fids) ==> old(fids)[k] in old(refs)
      ensures k' in old(fids) ==> old(fids)[k'] in old(refs)
      ensures reply == if !SafeName(oldName) || !SafeName(newName) then Failed(EINVAL)
                       else if k !in old(fids) || k' !in old(fids) then Failed(EBADF)
                       else
                         var r, t := old(refs)[old(fids)[k]], old(refs)[old(fids)[k']];
                         if !Directory(r) || t.deleted || !t.isDir then Failed(EINVAL)
                         else if (r.node == t.node && oldName == newName) || backend then Done
                         else Failed(Backend)
      ensures k in old(fids) && k' in old(fids) ==>
                var r, t := old(refs)[old(fids)[k]], old(refs)[old(fids)[k']];
                var same := r.node == t.node && oldName == newName;
                && (reply.Done? <==> SafeName(oldName) && SafeName(newName) && Directory(r) && !t.deleted && t.isDir && (same || backend))
                && (reply.Done? && !same ==>
                      && RenameDone(old(paths), paths, old(refs), refs, r.node, oldName, old(fids)[k'], newName)
                      && LoopsWhen(old(paths), old(refs), refs, r.node, oldName, old(fids)[k'])
                      && LostWhen(old(paths), old(refs), refs, r.node, oldName))
                && (reply.Done? && same ==> Grown(old(refs), old(paths), refs, paths, []))
      ensures reply.Failed? ==> Grown(old(refs), old(paths), refs, paths, [])
    {
      hide *;
      ghost var before, was := refs, paths;
      GrownNone(refs, paths, []);
      ValidParts();
      FidsIn(refs, fids, held, loose);
      if !SafeName(oldName) || !SafeName(newName) { return Failed(EINVAL); }
      var found, r, t, had := LookupTwo(k, k');
      if !found { return Failed(EBADF); }
      ghost var mid := refs;
      TouchedGrown(before, refs, paths);
      LiveIs(refs, r);
      LiveIs(refs, t);
      TouchedAt(before, refs, r);
      TouchedAt(before, refs, t);
      DirectoryIs(before[r]);
      ValidParts();
      NodeIn(refs, paths, loose, r);
      NodeIn(refs, paths, loose, t);
      if refs[r].deleted || !refs[r].isDir || refs[t].deleted || !refs[t].isDir || refs[r].isOpen {
        reply := Failed(EINVAL);
      } else if refs[r].node == refs[t].node && oldName == newName {
        reply := Done;
      } else if !backend {
        reply := Failed(Backend);
      } else {
        var n := refs[r].node;
        AlikeNamed(before, mid, fids, was, old(held), k, k', n, oldName);
        RenameChildTo(n, oldName, t, newName);
        ghost var b, q := refs, paths;
        FinishTwo(r, t, had, old(held));
        RenameAround(was, q, paths, before, mid, b, refs, n, oldName, t, newName);
        LostAround(was, q, paths, before, mid, b, refs, n, oldName);
        ValidParts();
        EntryLive(refs, fids, held, loose, k');
        LoopsAfter(was, paths, before, refs, fids, held, n, oldName, t, newName);
        return Done;
      }
      FinishTwo(r, t, had, old(held));
      GrownThen(before, was, mid, was, refs, paths, []);
    }

    /** Renames the file of `r`, through its parent. */
    method RenameRef(r: Id, t: Id, newName: string, backend: bool) returns (reply: Reply)
      requires Valid() && r in held && t in held && Live(refs, r) && Live(refs, t)
      modifies `refs, `paths, `held, `loose, `nextNode
      ensures reply.Done? <==> MayRename(old(refs), r, t) && (backend || InPlace(old(refs), old(paths), r, t, newName))
      ensures reply == Failed(Panic) <==> WouldPanic(old(refs), r, t)
      ensures reply == Failed(Backend) <==> MayRename(old(refs), r, t) && !backend && !InPlace(old(refs), old(paths), r, t, newName)
      ensures reply in {Done, Failed(Panic), Failed(Backend), Failed(EINVAL)}
      ensures Valid() && held == old(held)
      ensures reply.Failed? || InPlace(old(refs), old(paths), r, t, newName) ==> refs == old(refs) && paths == old(paths)
      ensures reply.Done? && !InPlace(old(refs), old(paths), r, t, newName) ==> RefRenamed(old(paths), paths, old(refs), refs, r, t, newName)
    {
      hide *;
      ValidParts();
      LiveIs(refs, r);
      LiveIs(refs, t);
      NodeIn(refs, paths, loose, t);
      RegisteredAt(refs, fids, paths, held, loose, r);
      if refs[r].parent.Some? { LiveIs(refs, refs[r].parent.value); }
      MayRenameIs(refs, r, t);
      InPlaceIs(refs, paths, r, t, newName);
      if refs[r].parent.None? || refs[r].deleted || refs[t].deleted || !refs[t].isDir {
        return Failed(EINVAL);
      }
      if refs[refs[r].parent.value].deleted {
        return Failed(Panic);
      }
      var n := refs[refs[r].parent.value].node;
      var oldName := NameFor(n, r);
      NameForIs(n, r);
      if n == refs[t].node && oldName == newName {
        return Done;
      }
      if !backend {
        return Failed(Backend);
      }
      ghost var before, was := refs, paths;
      RenameChildTo(n, oldName, t, newName);
      RefRenamedIs(was, paths, before, refs, r, t, n, oldName, newName);
      reply := Done;
    }

    method Trename(k: Key, k': Key, newName: string, backend: bool) returns (reply: Reply)
      requires Valid()
      modifies this
      ensures Valid() && held == old(held) && fids == old(fids)
      ensures k in old(fids) ==> old(fids)[k] in old(refs)
      ensures k' in old(fids) ==> old(fids)[k'] in old(refs)
      ensures reply == Failed(EBADF) <==> SafeName(newName) && (k !in old(fids) || k' !in old(fids))
      ensures reply in {Done, Failed(Panic), Failed(Backend), Failed(EINVAL), Failed(EBADF)}
      ensures k in old(fids) && k' in old(fids) ==>
                var r, t := old(fids)[k], old(fids)[k'];
                var same := InPlace(old(refs), old(paths), r, t, newName);
                && (reply.Done? <==> SafeName(newName) && MayRename(old(refs), r, t) && (backend || same))
                && (reply == Failed(Panic) <==> SafeName(newName) && WouldPanic(old(refs), r, t))
                && (reply == Failed(Backend) <==> SafeName(newName) && MayRename(old(refs), r, t) && !backend && !same)
                && (reply.Done? && !same ==>
                      RefRenamed(old(paths), paths, old(refs), refs, r, t, newName) && Arrived(refs, paths, t, r, newName)
                      && RefLoopsWhen(old(paths), old(refs), refs, r, t))
                && (reply.Done? && same ==> Grown(old(refs), old(paths), refs, paths, []))
      ensures reply.Failed? ==> Grown(old(refs), old(paths), refs, paths, [])
    {
      hide *;
      ghost var before, was := refs, paths;
      GrownNone(refs, paths, []);
      ValidParts();
      FidsIn(refs, fids, held, loose);
      if !SafeName(newName) { return Failed(EINVAL); }
      var found, r, t, had := LookupTwo(k, k');
      if !found { return Failed(EBADF); }
      ghost var mid := refs;
      TouchedGrown(before, refs, paths);
      LiveIs(refs, r);
      LiveIs(refs, t);
      TouchedAt(before, refs, r);
      TouchedAt(before, refs, t);
      RenameTouched(before, refs, paths, r, t, newName);
      ValidParts();
      assert r in had && r in had + multiset{t};
      reply := RenameRef(r, t, newName, backend);
      ghost var b, q := refs, paths;
      FinishTwo(r, t, had, old(held));
      ValidParts();
      EntryLive(refs, fids, held, loose, k);
      EntryLive(refs, fids, held, loose, k');
      if reply.Failed? || InPlace(before, was, r, t, newName) {
        GrownThen(before, was, mid, was, refs, paths, []);
      } else {
        RefRenameAround(was, q, paths, before, mid, b, refs, fids, held, k, k', newName);
      }
    }

    // ----- stopping -----

    /** Drops every FID of a connection. When that was the last one and no handler runs, every
        file has been closed, exactly once, if and only if no reference was on a loop or lost. */
    method Stop(conn: nat)
      requires Valid()
      modifies this
      ensures Valid() && held == old(held) && Grown(old(refs), old(paths), refs, paths, [])
      ensures fids == map k | k in old(fids) && k.conn != conn :: old(fids)[k]
      ensures fids == map[] && held == multiset{} ==> ((forall r :: r in refs ==> refs[r].closes == 1) <==> Acyclic(old(refs)) && NoneLost(old(refs)))
    {
      hide *;
      ghost var all, before, was := fids, refs, paths;
      GrownNone(refs, paths, []);
      while exists k :: k in fids && k.conn == conn
        invariant Valid() && held == old(held) && Grown(before, was, refs, paths, []) && refs.Keys == before.Keys
        invariant (forall k :: k in fids ==> k in all && fids[k] == all[k]) && (forall k :: k in all && k.conn != conn ==> k in fids)
        decreases |fids|
      {
        var k :| k in fids && k.conn == conn;
        FewerFids(fids, k);
        ghost var mid, now := refs, paths;
        var ok := DeleteFID(k);
        GrownThen(before, was, mid, now, refs, paths, []);
      }
      ValidParts();
      if fids == map[] && held == multiset{} {
        ClosedExactlyWhenAcyclic(refs);
        GrownLoops(before, was, refs, paths, []);
        GrownLost(before, was, refs, paths);
      }
    }

    /** Between handlers: a count is the number of FIDs, children and handlers that own
        the reference; its file is open while there are any, and was closed once otherwise. */
    lemma OwnedWhileOpen(r: Id)
      requires Valid() && r in refs
      ensures refs[r].closes == 0 ==> refs[r].count == Owners(refs, fids, held, {}, r) > 0
      ensures refs[r].closes != 0 ==> refs[r].closes == 1 && Owners(refs, fids, held, {}, r) == 0
    {
      if refs[r].closes == 0 {
        assert Live(refs, r);
      } else {
        assert !Live(refs, r);
        assert Entries(fids, r) == {};
        assert Kids(refs, {}, r) == {};
      }
    }

    /** An undeleted reference with a parent has a name, so looking it up cannot fail. */
    lemma NameIsThere(r: Id)
      requires Valid() && r in refs && refs[r].closes == 0 && refs[r].parent.Some? && !refs[r].deleted
      ensures refs[r].parent.value in refs && refs[refs[r].parent.value].node in paths
      ensures r in paths[refs[refs[r].parent.value].node].names
    {
      RegisteredAt(refs, fids, paths, held, loose, r);
    }
  }

  // ----- conditions of the handlers -----

  /** Step `i` has a directory to start from, and the backend finds its file. */
  ghost predicate StepOk(backend: nat -> Option<bool>, isDir: bool, i: nat) {
    backend(i).Some? && DirAt(backend, isDir, i)
  }

  /** Whether the walk stands at a directory before step `i`. */
  predicate DirAt(backend: nat -> Option<bool>, isDir: bool, i: nat) {
    if i == 0 then isDir else backend(i - 1) == Some(true)
  }

  /** What the steps of a walk from step `i` on come to: the first that fails decides. */
  ghost function StepsReply(backend: nat -> Option<bool>, isDir: bool, i: nat, n: nat): Reply
    decreases n - i
  {
    if i >= n then Done
    else if !DirAt(backend, isDir, i) then Failed(EINVAL)
    else if backend(i).None? then Failed(Backend)
    else StepsReply(backend, isDir, i + 1, n)
  }

  lemma StepsReplyIs(backend: nat -> Option<bool>, isDir: bool, i: nat, n: nat)
    ensures i >= n ==> StepsReply(backend, isDir, i, n) == Done
    ensures i < n ==>
              StepsReply(backend, isDir, i, n) == if !DirAt(backend, isDir, i) then Failed(EINVAL)
                                                  else if backend(i).None? then Failed(Backend)
                                                  else StepsReply(backend, isDir, i + 1, n)
  {
  }

  /** What a walk comes to. */
  ghost function WalkReply(names: seq<string>, backend: nat -> Option<bool>, isOpen: bool, isDir: bool): Reply {
    if exists i :: 0 <= i < |names| && !SafeName(names[i]) then Failed(EINVAL)
    else if isOpen then Failed(EBUSY)
    else if names == [] then (if backend(0).None? then Failed(Backend) else Done)
    else StepsReply(backend, isDir, 0, |names|)
  }

  lemma WalkReplyIs(names: seq<string>, backend: nat -> Option<bool>, isOpen: bool, isDir: bool)
    ensures WalkReply(names, backend, isOpen, isDir) ==
              if exists i :: 0 <= i < |names| && !SafeName(names[i]) then Failed(EINVAL)
              else if isOpen then Failed(EBUSY)
              else if names == [] then (if backend(0).None? then Failed(Backend) else Done)
              else StepsReply(backend, isDir, 0, |names|)
  {
  }

  ghost predicate StepsOk(backend: nat -> Option<bool>, isDir: bool, n: nat) {
    forall i: nat :: i < n ==> StepOk(backend, isDir, i)
  }

  /** When a walk succeeds: names are single components, the start is not open, and every
      step ends at a file. */
  ghost predicate WalkOk(names: seq<string>, backend: nat -> Option<bool>, isOpen: bool, isDir: bool) {
    && (forall i :: 0 <= i < |names| ==> SafeName(names[i])) && !isOpen
    && (if names == [] then backend(0).Some? else StepsOk(backend, isDir, |names|))
  }

  lemma WalkOkIs(names: seq<string>, backend: nat -> Option<bool>, isOpen: bool, isDir: bool)
    ensures WalkOk(names, backend, isOpen, isDir) <==>
              && !(exists i :: 0 <= i < |names| && !SafeName(names[i])) && !isOpen
              && (if names == [] then backend(0).Some? else StepsOk(backend, isDir, |names|))
  {
  }

  /** A walk along names has ended at `c`, a file of the kind the backend said. */
  ghost predicate Walked(refs: Refs, paths: Paths, r: Id, c: Id, names: seq<string>, backend: nat -> Option<bool>) {
    names != [] && Reached(refs, paths, r, c, names) && c in refs && backend(|names| - 1) == Some(refs[c].isDir)
  }

  lemma WalkedIs(refs: Refs, paths: Paths, r: Id, c: Id, names: seq<string>, backend: nat -> Option<bool>)
    requires names != [] && Reached(refs, paths, r, c, names) && c in refs && backend(|names| - 1) == Some(refs[c].isDir)
    ensures Walked(refs, paths, r, c, names, backend)
  {
  }

  /** What a walk found is still so after the drops at the end of the handler. */
  lemma WalkResult(a: Refs, p: Paths, b: Refs, q: Paths, fids: Fids, held: multiset<Id>, f: FidRef, f': FidRef, r: Id, c: Id, names: seq<string>, backend: nat -> Option<bool>)
    requires Grown(a, p, b, q, []) && Counted(b, fids, held, {}) && Live(b, c) && c in a && f' == f.(count := f'.count)
    requires if names == [] then IsClone(f', a, c) else Walked(a, p, r, c, names, backend)
    ensures if names == [] then IsClone(f, b, c) else Walked(b, q, r, c, names, backend)
  {
    hide Grown, Counted, Reached;
    KeptAt(a, p, b, q, [], c);
    if names != [] { ReachedKept(a, p, b, q, fids, held, r, c, names, []); }
  }

  lemma StepsOkNone(backend: nat -> Option<bool>, isDir: bool)
    ensures StepsOk(backend, isDir, 0) && DirAt(backend, isDir, 0) == isDir
  {
  }

  lemma StepsOkLast(backend: nat -> Option<bool>, isDir: bool, n: nat)
    requires StepsOk(backend, isDir, n) && n > 0
    ensures backend(n - 1).Some? && DirAt(backend, isDir, n) == backend(n - 1).value
  {
    assert StepOk(backend, isDir, n - 1);
  }

  lemma StepsOkNext(backend: nat -> Option<bool>, isDir: bool, i: nat, n: nat)
    requires StepsOk(backend, isDir, i) && i < n
    ensures StepsOk(backend, isDir, i + 1) <==> backend(i).Some? && DirAt(backend, isDir, i)
    ensures !(backend(i).Some? && DirAt(backend, isDir, i)) ==> !StepsOk(backend, isDir, n)
    ensures backend(i).Some? ==> DirAt(backend, isDir, i + 1) == backend(i).value
  {
    assert StepOk(backend, isDir, i) <==> backend(i).Some? && DirAt(backend, isDir, i);
  }

  lemma ReachedNone(refs: Refs, paths: Paths, r: Id, names: seq<string>)
    ensures Reached(refs, paths, r, r, names[..0])
  {
  }

  /** A reference in which entries may be made and removed. */
  predicate Directory(f: FidRef) {
    !f.deleted && f.isDir && !f.isOpen
  }

  lemma DirectoryIs(f: FidRef)
    ensures Directory(f) <==> !(f.deleted || !f.isDir || f.isOpen)
  {
  }

  /** A file just created: open, not deleted, with the path node of its entry. */
  ghost predicate Created(refs: Refs, paths: Paths, r: Id, c: Id, name: string) {
    && r in refs && c in refs && refs[c].isOpen && !refs[c].isDir && !refs[c].deleted
    && HasChild(paths, refs[r].node, name, refs[c].node)
  }

  lemma CreatedKept(a: Refs, p: Paths, b: Refs, q: Paths, r: Id, c: Id, name: string)
    requires Grown(a, p, b, q, []) && r in a && c in a && HasChild(p, a[r].node, name, a[c].node)
    requires a[c].isOpen && !a[c].isDir && !a[c].deleted
    ensures Created(b, q, r, c, name)
  {
    KeptAt(a, p, b, q, [], r);
    KeptAt(a, p, b, q, [], c);
    ChildKept(a, p, b, q, [], a[r].node, name, a[c].node);
  }

  /** A reference to the root of the tree. */
  ghost predicate IsRoot(refs: Refs, root: Id, isDir: bool) {
    root in refs && refs[root] == FidRef(refs[root].count, None, ROOT, false, false, isDir, refs[root].closes, false)
  }

  lemma RootIs(refs: Refs, root: Id, isDir: bool)
    ensures IsRoot(refs, root, isDir) <==>
              root in refs && refs[root] == FidRef(refs[root].count, None, ROOT, false, false, isDir, refs[root].closes, false)
  {
  }

  /** What an attach installs: a new reference to the root, or one walked to from such a one. */
  ghost predicate AttachedAt(a: Refs, b: Refs, q: Paths, c: Id, names: seq<string>, attached: Option<bool>, backend: nat -> Option<bool>) {
    attached.Some? && exists root :: root !in a && IsRoot(b, root, attached.value) && LeadsTo(b, q, root, c, names, backend)
  }

  ghost predicate LeadsTo(refs: Refs, paths: Paths, r: Id, c: Id, names: seq<string>, backend: nat -> Option<bool>) {
    if names == [] then c == r && Live(refs, c) else Walked(refs, paths, r, c, names, backend)
  }

  lemma AttachedRoot(a: Refs, m: Refs, p: Paths, b: Refs, q: Paths, root: Id, isDir: bool, backend: nat -> Option<bool>)
    requires root !in a && IsRoot(m, root, isDir) && Grown(m, p, b, q, []) && Live(b, root)
    ensures AttachedAt(a, b, q, root, [], Some(isDir), backend) && root in b
  {
    KeptAt(m, p, b, q, [], root);
    assert LeadsTo(b, q, root, root, [], backend);
  }

  lemma AttachedWalk(a: Refs, b: Refs, q: Paths, root: Id, c: Id, names: seq<string>, isDir: bool, backend: nat -> Option<bool>)
    requires root !in a && IsRoot(b, root, isDir) && names != [] && Walked(b, q, root, c, names, backend)
    ensures AttachedAt(a, b, q, c, names, Some(isDir), backend)
  {
    hide Walked;
    assert LeadsTo(b, q, root, c, names, backend);
  }

  lemma RootStays(a: Refs, p: Paths, b: Refs, q: Paths, root: Id, names: seq<string>, isDir: bool)
    requires IsRoot(a, root, isDir) && Grown(a, p, b, q, names)
    ensures IsRoot(b, root, isDir)
  {
    KeptAt(a, p, b, q, names, root);
  }

  /** References made by a walk. */
  ghost function Steps(names: seq<string>): nat {
    if names == [] then 1 else |names|
  }

  lemma StepsIs(names: seq<string>)
    ensures Steps(names) == if names == [] then 1 else |names|
  {
  }

  lemma SameSize(a: Refs, b: Refs)
    requires b.Keys == a.Keys
    ensures |b| == |a|
  {
    assert |a| == |a.Keys| && |b| == |b.Keys|;
  }

  lemma TouchedSize(a: Refs, b: Refs)
    requires Touched(a, b)
    ensures |b| == |a|
  {
    SameSize(a, b);
  }

  lemma FadedSize(a: Refs, b: Refs)
    requires Faded(a, b)
    ensures |b| == |a|
  {
    SameSize(a, b);
  }

  /** `c` is a copy of `f` that is not open. */
  ghost predicate IsClone(f: FidRef, refs: Refs, c: Id) {
    c in refs && refs[c] == FidRef(refs[c].count, f.parent, f.node, f.deleted, false, f.isDir, refs[c].closes, false)
  }

  // ----- facts about the hidden predicates -----

  lemma CountKeeps(refs: Refs, paths: Paths, loose: set<Id>, r: Id, d: int)
    requires Registered(refs, paths, loose) && r in refs
    ensures Registered(Recount(refs, r, d), paths, loose)
  {
    ShapeKeeps(refs, Recount(refs, r, d), paths, loose);
  }

  lemma TakePositive(refs: Refs, fids: Fids, held: multiset<Id>, loose: set<Id>, r: Id)
    requires Counted(refs, fids, held, loose) && Live(refs, r)
    ensures Positive(refs, {}) || Positive(refs, {r}) ==> Positive(Recount(refs, r, 1), {})
  {
    assert refs[r].count == Owners(refs, fids, held, loose, r);
    assert forall x :: Live(Recount(refs, r, 1), x) ==> Live(refs, x);
  }

  lemma GroundedParent(refs: Refs, fids: Fids, held: multiset<Id>, loose: set<Id>, r: Id)
    requires Counted(refs, fids, held, loose) && Live(refs, r)
    ensures !refs[r].lost && (r !in loose && refs[r].parent.Some? ==> Live(refs, refs[r].parent.value))
  {
  }

  lemma ParentLive(refs: Refs, fids: Fids, held: multiset<Id>, r: Id)
    requires Counted(refs, fids, held, {}) && Live(refs, r)
    ensures refs[r].parent.Some? ==> Live(refs, refs[r].parent.value)
  {
  }

  ghost function LiveSet(refs: Refs): set<Id> {
    set x | x in refs && refs[x].closes == 0
  }

  lemma FewerLive(refs: Refs, r: Id)
    requires Live(refs, r)
    ensures |LiveSet(Closed(refs, r))| < |LiveSet(refs)|
  {
    assert LiveSet(Closed(refs, r)) == LiveSet(refs) - {r};
    OneLess(LiveSet(refs), r);
  }

  lemma LiveIs(refs: Refs, r: Id)
    ensures Live(refs, r) <==> r in refs && refs[r].closes == 0
  {
  }

  lemma RecountIs(refs: Refs, r: Id, d: int)
    requires r in refs
    ensures Recount(refs, r, d) == refs[r := refs[r].(count := refs[r].count + d)]
  {
  }

  lemma RecountAt(refs: Refs, r: Id, d: int)
    requires r in refs
    ensures r in Recount(refs, r, d) && Recount(refs, r, d)[r] == refs[r].(count := refs[r].count + d)
  {
  }

  lemma HeldByIs(f: Option<Id>)
    ensures HeldBy(f) == if f.Some? then multiset{f.value} else multiset{}
  {
  }

  /** The first reference of a drop is closed. */
  lemma Closes(refs: Refs, r: Id, refs': Refs)
    requires Live(refs, r) && Positive(refs, {}) && refs' == Recount(refs, r, -1)[r := Recount(refs, r, -1)[r].(closes := 1)]
    ensures refs' == Closed(refs, r) && Faded(refs, refs') && Positive(refs', {}) && |LiveSet(refs')| < |LiveSet(refs)|
  {
    FewerLive(refs, r);
    DiePositive(refs, r, refs');
  }

  /** Only the moving reference is loose. */
  ghost predicate Between(loose: set<Id>, moving: Option<Id>) {
    loose == if moving.Some? then {moving.value} else {}
  }

  lemma BetweenIs(loose: set<Id>, moving: Option<Id>, r: Id)
    ensures Between(loose, moving) ==> (r in loose <==> moving == Some(r))
    ensures moving == Some(r) ==> (Between(loose, moving) <==> loose == {r})
  {
  }

  /** `m`, between two parents, has left one that is `r` or was closed on the way to `r`. */
  ghost predicate Adrift(refs: Refs, m: Id, r: Id) {
    && m in refs && Owner(refs[m]) && refs[m].parent.Some?
    && var p := refs[m].parent.value; p in refs && (p == r || (refs[p].closes > 0 && refs[p].count <= 0))
  }

  lemma AdriftIs(refs: Refs, m: Id, r: Id)
    requires Adrift(refs, m, r)
    ensures m in refs && refs[m].parent.Some? && refs[m].parent.value in refs
    ensures refs[m].parent.value == r || refs[refs[m].parent.value].closes > 0
  {
  }

  lemma AdriftFrom(refs: Refs, m: Id)
    requires m in refs && Owner(refs[m]) && refs[m].parent.Some? && refs[m].parent.value in refs
    ensures Adrift(refs, m, refs[m].parent.value)
  {
  }

  lemma StillAdrift(refs: Refs, m: Id, r: Id)
    requires Adrift(refs, m, r) && r in refs && refs[r].count == 1 && m != r && refs[r].parent.Some?
    ensures Adrift(Closed(refs, r), m, refs[r].parent.value)
  {
  }

  /** A drop of `r` loses the moving reference exactly when it is doomed. */
  ghost predicate LostIf(a: Refs, b: Refs, m: Id, r: Id) {
    m in a && m in b && (b[m].lost <==> a[m].lost || Doomed(a, r, m))
  }

  lemma LostHere(before: Refs, r: Id, refs: Refs, was: Paths)
    requires Live(before, r) && before[r].count == 1 && r in refs && refs[r].lost
    ensures LostIf(before, refs, r, r) && Thinned(was, was) && NamesKept(refs, was, was)
  {
    DoomedNext(before, r, r);
  }

  lemma LostNever(before: Refs, r: Id, refs: Refs, m: Id)
    requires Live(before, r) && before[r].count == 1 && before[r].parent.None? && refs == Closed(before, r) && m in before && m != r
    ensures LostIf(before, refs, m, r)
  {
    DoomedNext(before, r, m);
  }

  /** A drop that ends with the moving reference. */
  lemma Loses(before: Refs, r: Id, p: Id, refs: Refs)
    requires Live(before, r) && before[r].count == 1 && before[r].parent == Some(p) && Adrift(before, r, r) && Positive(before, {})
    requires refs == Recount(before[r := before[r].(count := 0, closes := 1, lost := true)], p, -1)
    ensures Positive(refs, {}) && Dropped(before, refs, Some(r)) && ClosesDoomed(before, refs, r)
  {
    hide Doomed;
    assert forall x :: Live(refs, x) ==> x != r && Live(before, x);
    forall x | x in before ensures Doomed(before, r, x) <==> x == r {
      DoomedNext(before, r, x);
      NotDoomed(Closed(before, r), p, x);
    }
  }

  /** The rest of a drop is that of the parent. */
  lemma DropsOn(before: Refs, dead: Refs, refs: Refs, was: Paths, thin: Paths, paths: Paths, r: Id, moving: Option<Id>)
    requires Live(before, r) && before[r].count == 1 && before[r].parent.Some? && dead == Closed(before, r) && Dropped(before, dead, moving)
    requires Dropped(dead, refs, moving) && ClosesDoomed(dead, refs, before[r].parent.value)
    requires moving.Some? ==> moving.value != r && Adrift(dead, moving.value, before[r].parent.value) && LostIf(dead, refs, moving.value, before[r].parent.value)
    requires Thinned(was, thin) && NamesKept(dead, was, thin) && Thinned(thin, paths) && NamesKept(refs, thin, paths)
    ensures Dropped(before, refs, moving) && ClosesDoomed(before, refs, r) && Thinned(was, paths) && NamesKept(refs, was, paths)
    ensures moving.Some? ==> LostIf(before, refs, moving.value, r)
  {
    hide Dropped, ClosesDoomed, Thinned, NamesKept;
    DroppedThen(before, dead, refs, moving);
    ThinnedThen(was, thin, paths);
    DroppedNames(dead, refs, was, thin, paths, moving);
    ClosesAll(before, r, refs);
    if moving.Some? { DoomedNext(before, r, moving.value); }
  }

  /** A drop that leaves owners. */
  lemma DropsNothing(before: Refs, r: Id, refs: Refs, was: Paths, moving: Option<Id>)
    requires Positive(before, {}) && Live(before, r) && refs == Recount(before, r, -1) && refs[r].count != 0
    requires moving.Some? ==> moving.value in before
    ensures Positive(refs, {}) && Dropped(before, refs, moving) && ClosesDoomed(before, refs, r) && Thinned(was, was) && NamesKept(refs, was, was)
    ensures moving.Some? ==> LostIf(before, refs, moving.value, r)
  {
    DropPositive(before, r, refs);
    ClosesNone(before, r, refs);
    if moving.Some? { NotDoomed(before, r, moving.value); }
  }

  lemma FadedDropped(a: Refs, b: Refs, moving: Option<Id>)
    requires Faded(a, b)
    ensures Dropped(a, b, moving)
  {
  }

  lemma DroppedFaded(a: Refs, b: Refs)
    requires Dropped(a, b, None)
    ensures Faded(a, b)
  {
  }

  lemma DroppedKeys(a: Refs, b: Refs, moving: Option<Id>)
    requires Dropped(a, b, moving)
    ensures b.Keys == a.Keys
  {
  }

  lemma ThinnedNone(p: Paths)
    ensures Thinned(p, p)
  {
  }

  lemma DroppedNames(dead: Refs, refs: Refs, was: Paths, thin: Paths, paths: Paths, moving: Option<Id>)
    requires NamesKept(dead, was, thin) && Dropped(dead, refs, moving) && NamesKept(refs, thin, paths)
    requires moving.Some? ==> moving.value in dead && Owner(dead[moving.value])
    ensures NamesKept(refs, was, paths)
  {
    forall n, x, s | HasName(was, n, x, s) ensures HasName(paths, n, x, s) || Dead(refs, x) {
      assert HasName(thin, n, x, s) || Dead(dead, x);
    }
  }

  lemma FadedKeys(a: Refs, b: Refs)
    requires Faded(a, b)
    ensures b.Keys == a.Keys
  {
  }

  lemma TouchedKeys(a: Refs, b: Refs)
    requires Touched(a, b)
    ensures b.Keys == a.Keys
  {
  }

  lemma KeptKeys(a: Refs, p: Paths, b: Refs, q: Paths, names: seq<string>)
    requires Grown(a, p, b, q, names)
    ensures a.Keys <= b.Keys
  {
  }

  lemma ChildKept(a: Refs, p: Paths, b: Refs, q: Paths, names: seq<string>, n: Node, name: string, m: Node)
    requires Grown(a, p, b, q, names) && HasChild(p, n, name, m)
    ensures HasChild(q, n, name, m)
  {
  }

  lemma ArrivedKept(a: Refs, p: Paths, b: Refs, q: Paths, names: seq<string>, t: Id, x: Id, name: string)
    requires Grown(a, p, b, q, names) && Arrived(a, p, t, x, name) && Live(b, x)
    ensures Arrived(b, q, t, x, name)
  {
    assert HasName(q, a[t].node, x, name) || Dead(b, x);
  }

  lemma DropPositive(refs: Refs, r: Id, refs': Refs)
    requires Positive(refs, {}) && Live(refs, r) && refs' == refs[r := refs[r].(count := refs[r].count - 1)] && refs'[r].count != 0
    ensures Positive(refs', {})
  {
    assert forall x :: Live(refs', x) ==> Live(refs, x);
  }

  lemma DiePositive(refs: Refs, r: Id, refs': Refs)
    requires Positive(refs, {}) && r in refs && refs' == Closed(refs, r)
    ensures Positive(refs', {})
  {
    assert forall x :: Live(refs', x) ==> x != r && Live(refs, x);
  }

  lemma EntryLive(refs: Refs, fids: Fids, held: multiset<Id>, loose: set<Id>, k: Key)
    requires Counted(refs, fids, held, loose) && k in fids
    ensures Live(refs, fids[k])
  {
  }

  lemma FidsIn(refs: Refs, fids: Fids, held: multiset<Id>, loose: set<Id>)
    requires Counted(refs, fids, held, loose)
    ensures forall k :: k in fids ==> fids[k] in refs
  {
    forall k | k in fids ensures fids[k] in refs { EntryLive(refs, fids, held, loose, k); }
  }

  lemma HeldLive(refs: Refs, fids: Fids, held: multiset<Id>, loose: set<Id>, r: Option<Id>)
    requires Counted(refs, fids, held, loose) && (r.Some? ==> r.value in held)
    ensures r.Some? ==> Live(refs, r.value)
  {
  }

  lemma NotChild(refs: Refs, fids: Fids, held: multiset<Id>, loose: set<Id>, c: Id)
    requires Counted(refs, fids, held, loose) && c !in refs
    ensures c !in loose && forall x :: x in refs && x !in loose && Owner(refs[x]) ==> refs[x].parent != Some(c)
  {
    assert !Live(refs, c);
  }

  lemma PutBack(held: multiset<Id>, r: Id)
    ensures r in held + multiset{r} && held + multiset{r} - multiset{r} == held
  {
  }

  lemma Stored(refs: Refs, fids: Fids, had: multiset<Id>, loose: set<Id>, k: Key, r: Id)
    requires Counted(refs, fids, had + multiset{r}, loose)
    ensures k in fids ==> Counted(refs, fids[k := r], had + multiset{fids[k]}, loose)
    ensures k !in fids ==> Counted(refs, fids[k := r], had, loose)
  {
    hide Counted;
    StoreCounts(refs, fids, had + multiset{r}, loose, k, r);
    assert had + multiset{r} - multiset{r} == had;
    assert had + multiset{} == had;
  }

  lemma RootedAt(paths: Paths, next: nat, n: Node, name: string)
    requires Rooted(paths, next) && n in paths && name in paths[n].children
    ensures paths[n].children[name] in paths && n < paths[n].children[name] < next
  {
  }

  /** An undeleted reference with a parent is registered with the parent's path node. */
  lemma RegisteredAt(refs: Refs, fids: Fids, paths: Paths, held: multiset<Id>, loose: set<Id>, r: Id)
    requires Counted(refs, fids, held, loose) && Registered(refs, paths, loose) && Live(refs, r) && r !in loose
    ensures refs[r].node in paths
    ensures refs[r].parent.Some? ==> Live(refs, refs[r].parent.value) && refs[refs[r].parent.value].node in paths
    ensures refs[r].parent.Some? && !refs[r].deleted ==> r in paths[refs[refs[r].parent.value].node].names
  {
    if refs[r].parent.Some? {
      assert Live(refs, refs[r].parent.value);
      assert Under(refs, loose, r, refs[refs[r].parent.value].node);
    }
  }

  lemma NodeIn(refs: Refs, paths: Paths, loose: set<Id>, r: Id)
    requires Registered(refs, paths, loose) && r in refs
    ensures refs[r].node in paths
  {
  }

  lemma BirthPositive(refs: Refs, c: Id, f: FidRef)
    requires c !in refs
    ensures Positive(refs, {}) ==> Positive(refs[c := f], if f.count == 1 then {} else {c})
  {
    assert forall x :: Live(refs[c := f], x) && x != c ==> Live(refs, x);
  }

  lemma PositiveBut(refs: Refs, c: Id)
    requires Positive(refs, {})
    ensures Positive(refs, {c})
  {
  }

  lemma NamesIn(refs: Refs, paths: Paths, loose: set<Id>, n: Node)
    requires Registered(refs, paths, loose) && n in paths
    ensures forall r :: r in paths[n].names ==> r in refs
  {
    forall r | r in paths[n].names ensures r in refs {
      assert Named(paths, n, r);
    }
  }

  lemma MarkedNone(refs: Refs)
    ensures Marked(refs, refs)
  {
  }

  lemma NothingYet(paths: Paths, n: Node, name: string)
    ensures Regrown(paths, paths) && AgreeBut(paths, paths, n) && NamesBut(paths, paths, n, name)
  {
  }

  lemma RootedChildren(paths: Paths, next: nat, n: Node)
    requires Rooted(paths, next) && n in paths
    ensures forall s :: s in paths[n].children ==> n < paths[n].children[s] && paths[n].children[s] in paths
  {
  }

  lemma ThinnedRegrown(a: Paths, b: Paths)
    requires Thinned(a, b)
    ensures Regrown(a, b)
  {
  }

  lemma SameNamesRegrow(a: Paths, b: Paths, c: Paths)
    requires Regrown(a, b) && SameNames(b, c)
    ensures Regrown(a, c)
  {
  }

  lemma SameHaving(a: Paths, b: Paths, n: Node, name: string)
    requires SameNames(a, b) && n in a
    ensures Having(b, n, name) == Having(a, n, name)
  {
  }

  lemma HasNameIs(paths: Paths, n: Node, r: Id, name: string)
    ensures HasName(paths, n, r, name) <==> n in paths && r in paths[n].names && paths[n].names[r] == name
  {
  }

  lemma NamedIs(paths: Paths, n: Node, r: Id)
    ensures Named(paths, n, r) <==> n in paths && r in paths[n].names
  {
  }

  lemma OneNameLess(paths: Paths, n: Node, r: Id, name: string)
    requires HasName(paths, n, r, name)
    ensures |Having(Unname(paths, n, r), n, name)| < |Having(paths, n, name)|
    ensures forall x :: HasName(Unname(paths, n, r), n, x, name) <==> x != r && HasName(paths, n, x, name)
  {
    assert Having(Unname(paths, n, r), n, name) == Having(paths, n, name) - {r};
    OneLess(Having(paths, n, name), r);
  }

  lemma NoneHave(paths: Paths, n: Node, name: string)
    requires Having(paths, n, name) == {}
    ensures forall x :: !HasName(paths, n, x, name)
  {
    forall x ensures !HasName(paths, n, x, name) { HavingIs(paths, n, name, x); }
  }

  // ----- facts for renames -----

  lemma NamedUnder(refs: Refs, paths: Paths, n: Node, r: Id)
    requires Registered(refs, paths, {}) && n in paths && r in paths[n].names
    ensures r in refs && Owner(refs[r]) && refs[r].parent.Some? && refs[r].parent.value in refs && refs[refs[r].parent.value].node == n
  {
    assert Named(paths, n, r);
  }

  lemma UnnameEq(paths: Paths, n: Node, r: Id)
    requires n in paths
    ensures Unname(paths, n, r) == paths[n := paths[n].(names := paths[n].names - {r})] && Unname(paths, n, r).Keys == paths.Keys
  {
  }

  lemma RenameEq(paths: Paths, n: Node, r: Id, name: string)
    requires n in paths
    ensures Rename(paths, n, r, name) == paths[n := paths[n].(names := paths[n].names[r := name])] && Rename(paths, n, r, name).Keys == paths.Keys
  {
  }

  lemma NotNamed(refs: Refs, paths: Paths, loose: set<Id>, n: Node, r: Id)
    requires Registered(refs, paths, loose) && r in loose
    ensures n in paths ==> r !in paths[n].names
  {
    if n in paths && r in paths[n].names {
      assert Named(paths, n, r);
    }
  }

  lemma LooseIn(refs: Refs, fids: Fids, held: multiset<Id>, loose: set<Id>, r: Id)
    requires Counted(refs, fids, held, loose) && r in loose
    ensures r in refs && Owner(refs[r])
  {
  }

  lemma LoosePositive(refs: Refs, r: Id, t: Id)
    requires Positive(refs, {}) && r in refs
    ensures Positive(refs[r := refs[r].(parent := Some(t))], {})
  {
    assert forall x :: Live(refs[r := refs[r].(parent := Some(t))], x) ==> Live(refs, x);
  }

  lemma ShiftedBy(a: Refs, r: Id, t: Id)
    requires r in a && t in a
    ensures var b := Recount(a[r := a[r].(parent := Some(t))], t, 1);
            Shifted(a, b, r) && b.Keys == a.Keys && b[r].parent == Some(t) && b[t].node == a[t].node
  {
  }

  lemma Attached(refs: Refs, fids: Fids, paths: Paths, had: multiset<Id>, r: Id, t: Id, name: string)
    requires Counted(refs, fids, had + multiset{t}, {r}) && Registered(refs, paths, {r})
    requires r in refs && t in refs && refs[r].parent == Some(t) && refs[t].node in paths
    ensures Counted(refs, fids, had, {}) && Registered(refs, Rename(paths, refs[t].node, r, name), {})
  {
    hide Counted, Registered, Rename, Grounded, Owners, Owner;
    LooseIn(refs, fids, had + multiset{t}, {r}, r);
    AttachCounts(refs, fids, had + multiset{t}, {r}, r, t);
    AttachRegistered(refs, paths, {r}, r, t, name);
    assert refs[r := refs[r].(parent := Some(t))] == refs;
    assert {r} - {r} == {} && had + multiset{t} - multiset{t} == had;
  }

  /** Of the names in `n`, that of `r` is gone or replaced, and none is new. */
  ghost predicate Gone(p: Paths, q: Paths, n: Node, r: Id, n': Node) {
    && n in p && n in q && (n == n' || r !in q[n].names)
    && forall x :: x != r && x in q[n].names ==> x in p[n].names && q[n].names[x] == p[n].names[x]
  }

  lemma MovedOne(a: Refs, b: Refs, c: Refs, p: Paths, thin: Paths, q: Paths, n: Node, r: Id, t: Id, newName: string)
    requires r in a && a[r].parent.Some? && Dropped(a, b, Some(r)) && ClosesDoomed(a, b, a[r].parent.value) && LostIf(a, b, r, a[r].parent.value)
    requires Shifted(b, c, r) && n in p && t in b && b[t].node in thin && r in c && c[r].parent == Some(t)
    requires Thinned(Unname(p, n, r), thin) && NamesKept(b, Unname(p, n, r), thin) && q == Rename(thin, b[t].node, r, newName)
    ensures Hauled(a, c, p, q, {r}) && Arrived(c, q, t, r, newName) && t in a && Gone(p, q, n, r, a[t].node)
    ensures MovesOne(a, c, r, t) && (c[r].lost <==> a[r].lost || Trapped(a, r))
  {
    hide Hauled, Thinned, NamesKept, Doomed;
    HauledOne(a, b, c, p, thin, q, n, r, b[t].node, newName);
  }

  lemma MarkedTrapped(a: Refs, b: Refs, x: Id)
    requires Marked(a, b)
    ensures Trapped(b, x) <==> Trapped(a, x)
  {
    SameTrapped(a, b, x);
  }

  /** The references a rename holds are in the FID table, so that they trap nothing. */
  lemma AlikeNamed(a: Refs, b: Refs, fids: Fids, paths: Paths, held: multiset<Id>, k: Key, k': Key, n: Node, name: string)
    requires Touched(a, b) && k in fids && k' in fids && Registered(a, paths, {})
    requires Counted(a, fids, held, {}) && Counted(b, fids, held + multiset{fids[k]} + multiset{fids[k']}, {})
    ensures forall x :: HasName(paths, n, x, name) ==> (Trapped(a, x) <==> Trapped(b, x))
  {
    hide Counted, Registered, Trapped, Touched;
    var held' := held + multiset{fids[k]} + multiset{fids[k']};
    assert k in Entries(fids, fids[k]) && k' in Entries(fids, fids[k']);
    forall x | HasName(paths, n, x, name) ensures Trapped(a, x) <==> Trapped(b, x) {
      OwnerNamed(a, paths, n, x);
      TrappedAlike(a, b, fids, held, held', x);
    }
  }

  ghost predicate AllHad(paths: Paths, n: Node, name: string, moved: set<Id>) {
    forall x :: x in moved ==> HasName(paths, n, x, name)
  }

  lemma HadOneMore(paths: Paths, n: Node, name: string, moved: set<Id>, r: Id)
    requires AllHad(paths, n, name, moved) && HasName(paths, n, r, name)
    ensures AllHad(paths, n, name, moved + {r})
  {
  }

  lemma MarkedKeys(a: Refs, b: Refs)
    requires Marked(a, b)
    ensures b.Keys == a.Keys && forall x :: x in a ==> b[x].node == a[x].node
  {
  }

  /** What is left with the old name had it, and is on no loop but the old ones and those
      that pass `t`. */
  ghost predicate Loops(a: Refs, b: Refs, p: Paths, q: Paths, n: Node, name: string, t: Id) {
    forall x {:trigger HasName(q, n, x, name)} :: HasName(q, n, x, name) ==>
      HasName(p, n, x, name) && (Looped(a, x) || LoopsThrough(b, x, t))
  }

  lemma StartLeaving(a: Refs, b: Refs, p: Paths, q: Paths, n: Node, oldName: string, t: Id, newName: string)
    requires Marked(a, b) && t in a && n in p && NamesBut(p, q, a[t].node, newName) && Regrown(p, q) && !(n == a[t].node && oldName == newName)
    ensures n in q && Leaving(p, q, b, n, oldName, t, newName) && Loops(a, b, p, q, n, oldName, t) && AllHad(p, n, oldName, {})
  {
    forall x: Id | HasName(q, n, x, oldName) && !Looped(a, x) ensures LoopsThrough(b, x, t) {
      SameParents(a, b);
      NoLoopsThrough(b, x, t);
    }
  }

  lemma LoopsAt(a: Refs, b: Refs, p: Paths, q: Paths, n: Node, name: string, t: Id, r: Id)
    requires Loops(a, b, p, q, n, name, t) && HasName(q, n, r, name)
    ensures HasName(p, n, r, name) && (Looped(a, r) || LoopsThrough(b, r, t))
  {
  }

  lemma LoopsHad(a: Refs, b: Refs, p: Paths, q: Paths, n: Node, name: string, t: Id)
    requires Loops(a, b, p, q, n, name, t)
    ensures |Having(q, n, name)| <= |Having(p, n, name)|
  {
    forall x | x in Having(q, n, name) ensures x in Having(p, n, name) {
      assert HasName(q, n, x, name);
    }
    SmallerSet(Having(q, n, name), Having(p, n, name));
  }

  lemma LoopsSafe(a: Refs, b: Refs, fids: Fids, p: Paths, q: Paths, held: multiset<Id>, n: Node, name: string, t: Id, r: Id)
    requires Loops(a, b, p, q, n, name, t) && HasName(q, n, r, name) && !Looped(a, r)
    requires Counted(b, fids, held, {}) && Registered(b, q, {}) && t in held
    ensures !Trapped(b, r)
  {
    hide Counted, Registered, Doomed, LoopsThrough;
    NamedUnder(b, q, n, r);
    if Trapped(b, r) {
      TrappedLive(b, fids, held, r);
      HeldLoopsHold(b, fids, held, r, t);
    }
  }

  lemma LoopsOn(a: Refs, b: Refs, c: Refs, p: Paths, q: Paths, s: Paths, n: Node, name: string, t: Id, r: Id)
    requires Loops(a, b, p, q, n, name, t) && Hauled(b, c, q, s, {r}) && r in c && c[r].parent == Some(t) && t in b
    requires forall x :: HasName(s, n, x, name) ==> HasName(q, n, x, name)
    ensures Loops(a, c, p, s, n, name, t)
  {
    forall x | HasName(s, n, x, name) ensures HasName(p, n, x, name) && (Looped(a, x) || LoopsThrough(c, x, t)) {
      assert HasName(q, n, x, name);
      if !Looped(a, x) { MoveKeepsThrough(b, c, r, t, x); }
    }
  }

  /** The moves so far: of the references in `moved`, from the state `m` with names `now`. */
  ghost predicate Moving(p: Paths, now: Paths, q: Paths, a: Refs, m: Refs, b: Refs, n: Node, oldName: string, t: Id, newName: string, moved: set<Id>) {
    && Leaving(p, q, b, n, oldName, t, newName) && Hauled(m, b, now, q, moved) && AllHad(p, n, oldName, moved)
    && Loops(a, b, p, q, n, oldName, t) && LostSoFar(p, q, a, b, n, oldName) && Marked(a, m)
    && if moved == {} then b == m else |Having(q, n, oldName)| < |Having(p, n, oldName)|
  }

  lemma StartMoving(p: Paths, q: Paths, a: Refs, b: Refs, fids: Fids, held: multiset<Id>, n: Node, oldName: string, t: Id, newName: string)
    requires Marked(a, b) && t in a && n in p && NamesBut(p, q, a[t].node, newName) && Regrown(p, q) && !(n == a[t].node && oldName == newName)
    requires Counted(a, fids, held, {}) && Registered(a, p, {})
    ensures n in q && Moving(p, q, q, a, b, b, n, oldName, t, newName, {})
  {
    hide *;
    HauledNone(b, q);
    StartLeaving(a, b, p, q, n, oldName, t, newName);
    LostNone(p, q, a, b, fids, held, n, a[t].node, oldName, newName);
    MovingIs(p, q, q, a, b, b, n, oldName, t, newName, {});
  }

  lemma MovingIs(p: Paths, now: Paths, q: Paths, a: Refs, m: Refs, b: Refs, n: Node, oldName: string, t: Id, newName: string, moved: set<Id>)
    ensures Moving(p, now, q, a, m, b, n, oldName, t, newName, moved) <==>
              && Leaving(p, q, b, n, oldName, t, newName) && Hauled(m, b, now, q, moved) && AllHad(p, n, oldName, moved)
              && Loops(a, b, p, q, n, oldName, t) && LostSoFar(p, q, a, b, n, oldName) && Marked(a, m)
              && if moved == {} then b == m else |Having(q, n, oldName)| < |Having(p, n, oldName)|
  {
  }

  /** `r` moves from `b` to `c`. */
  lemma MovesOn(p: Paths, now: Paths, q: Paths, s: Paths, a: Refs, m: Refs, b: Refs, c: Refs, fids: Fids, held: multiset<Id>, n: Node, oldName: string, t: Id, newName: string, moved: set<Id>, r: Id)
    requires Moving(p, now, q, a, m, b, n, oldName, t, newName, moved) && HasName(q, n, r, oldName) && t in held && t in b && r in b && Owner(b[r])
    requires Hauled(b, c, q, s, {r}) && Arrived(c, s, t, r, newName) && MovesOne(b, c, r, t) && r in c && c[r].parent == Some(t)
    requires c[r].lost <==> b[r].lost || Trapped(b, r)
    requires |Having(s, n, oldName)| < |Having(q, n, oldName)| && forall x :: HasName(s, n, x, oldName) ==> HasName(q, n, x, oldName)
    requires Counted(b, fids, held, {}) && Registered(b, q, {}) && Counted(c, fids, held, {})
    ensures Moving(p, now, s, a, m, c, n, oldName, t, newName, moved + {r})
  {
    hide *;
    MovingIs(p, now, q, a, m, b, n, oldName, t, newName, moved);
    LoopsAt(a, b, p, q, n, oldName, t, r);
    if !Looped(a, r) { LoopsSafe(a, b, fids, p, q, held, n, oldName, t, r); }
    MarkedTrapped(a, m, r);
    LoopsHad(a, b, p, q, n, oldName, t);
    LeavingNext(p, q, s, b, c, n, oldName, t, newName, r);
    HauledThen(m, b, c, now, q, s, moved, {r});
    HadOneMore(p, n, oldName, moved, r);
    LoopsOn(a, b, c, p, q, s, n, oldName, t, r);
    HauledKeys(m, b, now, q, moved);
    MarkedKeys(a, m);
    LostNext(p, q, s, a, b, c, fids, held, n, oldName, r, t);
    assert r in moved + {r};
    MovingIs(p, now, s, a, m, c, n, oldName, t, newName, moved + {r});
  }

  lemma MovedAll(p: Paths, now: Paths, q: Paths, a: Refs, m: Refs, b: Refs, n: Node, oldName: string, t: Id, newName: string, moved: set<Id>)
    requires Moving(p, now, q, a, m, b, n, oldName, t, newName, moved) && Having(q, n, oldName) == {}
    ensures Hauled(m, b, now, q, moved) && AllHad(p, n, oldName, moved)
    ensures Renamed(p, q, b, n, oldName, t, newName) && LostWhen(p, a, b, n, oldName)
  {
    hide *;
    MovingIs(p, now, q, a, m, b, n, oldName, t, newName, moved);
    LeftAll(p, q, b, n, oldName, t, newName);
    LostAll(p, q, a, b, n, oldName);
  }

  lemma HauledKeys(a: Refs, b: Refs, p: Paths, q: Paths, moved: set<Id>)
    requires Hauled(a, b, p, q, moved)
    ensures b.Keys == a.Keys
  {
  }

  lemma HauledAt(a: Refs, b: Refs, p: Paths, q: Paths, moved: set<Id>, t: Id)
    requires Hauled(a, b, p, q, moved) && t in a
    ensures t in b && b[t].node == a[t].node
  {
  }

  lemma FewerHaving(p: Paths, q: Paths, b: Refs, n: Node, r: Id, t: Id, oldName: string, newName: string)
    requires t in b && Gone(p, q, n, r, b[t].node) && HasName(p, n, r, oldName) && Arrived(b, q, t, r, newName)
    requires !(n == b[t].node && oldName == newName)
    ensures n in q && r in b && b[r].parent == Some(t)
    ensures |Having(q, n, oldName)| < |Having(p, n, oldName)|
    ensures forall x :: HasName(q, n, x, oldName) ==> HasName(p, n, x, oldName)
  {
    assert Having(q, n, oldName) <= Having(p, n, oldName) - {r};
    OneLess(Having(p, n, oldName), r);
    SmallerSet(Having(q, n, oldName), Having(p, n, oldName) - {r});
  }

  lemma RenameAll(p: Paths, mid: Paths, cur: Paths, q: Paths, a: Refs, m: Refs, b: Refs, n: Node, oldName: string, t: Id, newName: string, moved: set<Id>)
    requires t in a && n in p && a[t].node in p && !(n == a[t].node && oldName == newName)
    requires Marked(a, m) && Unlinked(p, a, m, a[t].node, newName) && NamesBut(p, mid, a[t].node, newName) && Registered(a, p, {})
    requires AgreeBut(p, mid, a[t].node) && a[t].node in mid && mid[a[t].node].children == p[a[t].node].children - {newName}
    requires Hauled(m, b, mid, cur, moved) && AllHad(p, n, oldName, moved)
    requires Renamed(p, cur, b, n, oldName, t, newName) && SameNames(cur, q)
    requires AgreeBut(cur, q, n) && n in cur && n in q && newName in q[n].children
    requires oldName in cur[n].children ==> q[n].children[newName] == cur[n].children[oldName]
    ensures RenameDone(p, q, a, b, n, oldName, t, newName)
  {
    HauledTree(m, b, mid, cur, moved);
    StoredBy(p, mid, cur, q, n, oldName, a[t].node, newName);
    HadAll(p, n, oldName, moved);
    hide *;
    RenameBy(p, mid, cur, q, a, m, b, n, oldName, t, newName, moved);
  }

  lemma HauledTree(a: Refs, b: Refs, p: Paths, q: Paths, moved: set<Id>)
    requires Hauled(a, b, p, q, moved)
    ensures q.Keys == p.Keys && forall n :: n in p ==> q[n].children == p[n].children
  {
  }

  lemma HadAll(paths: Paths, n: Node, name: string, moved: set<Id>)
    requires AllHad(paths, n, name, moved)
    ensures forall x :: x in moved ==> HasName(paths, n, x, name)
  {
  }

  /** A rename keeps parents free of loops if and only if nothing that had the old name is the
      target or above it. */
  ghost predicate LoopsWhen(p: Paths, a: Refs, b: Refs, n: Node, oldName: string, t: Id) {
    Acyclic(a) ==> (Acyclic(b) <==> forall x :: x in Having(p, n, oldName) ==> !Above(a, x, t))
  }

  lemma LoopsAfter(p: Paths, q: Paths, a: Refs, b: Refs, fids: Fids, held: multiset<Id>, n: Node, oldName: string, t: Id, newName: string)
    requires RenameDone(p, q, a, b, n, oldName, t, newName) && Counted(b, fids, held, {}) && Live(b, t)
    ensures LoopsWhen(p, a, b, n, oldName, t)
  {
    hide Counted, RenameDone, MovesTo, Above;
    RenameMoves(p, q, a, b, n, oldName, t, newName);
    CountedGrounded(b, fids, held);
    if Acyclic(a) { AcyclicExactlyWhen(a, b, Having(p, n, oldName), t, fids, held); }
  }

  lemma GrownLoops(a: Refs, p: Paths, b: Refs, q: Paths, names: seq<string>)
    requires Grown(a, p, b, q, names)
    ensures Acyclic(b) <==> Acyclic(a)
  {
  }

  lemma GrownLost(a: Refs, p: Paths, b: Refs, q: Paths)
    requires Grown(a, p, b, q, []) && b.Keys == a.Keys
    ensures NoneLost(b) <==> NoneLost(a)
  {
  }

  lemma FewerFids(fids: Fids, k: Key)
    requires k in fids
    ensures |fids - {k}| < |fids|
  {
    assert (fids - {k}).Keys == fids.Keys - {k};
    assert |(fids - {k}).Keys| == |fids - {k}| && |fids.Keys| == |fids|;
  }

  // ----- renames through the file -----

  /** The checks of a rename through the file itself. */
  ghost predicate MayRename(refs: Refs, r: Id, t: Id)
    requires r in refs && t in refs
  {
    && refs[r].parent.Some? && !refs[r].deleted && !refs[t].deleted && refs[t].isDir
    && refs[r].parent.value in refs && !refs[refs[r].parent.value].deleted
  }

  /** The parent is deleted and the file is not. */
  ghost predicate WouldPanic(refs: Refs, r: Id, t: Id)
    requires r in refs && t in refs
  {
    && refs[r].parent.Some? && !refs[r].deleted && !refs[t].deleted && refs[t].isDir
    && refs[r].parent.value in refs && refs[refs[r].parent.value].deleted
  }

  /** The file already has this name in this directory. */
  ghost predicate InPlace(refs: Refs, paths: Paths, r: Id, t: Id, newName: string)
    requires r in refs && t in refs
  {
    && refs[r].parent.Some? && refs[r].parent.value in refs && refs[refs[r].parent.value].node == refs[t].node
    && HasName(paths, refs[t].node, r, newName)
  }

  lemma MayRenameIs(refs: Refs, r: Id, t: Id)
    requires r in refs && t in refs && (refs[r].parent.Some? ==> refs[r].parent.value in refs)
    ensures MayRename(refs, r, t) <==>
              && !(refs[r].parent.None? || refs[r].deleted || refs[t].deleted || !refs[t].isDir)
              && !refs[refs[r].parent.value].deleted
    ensures WouldPanic(refs, r, t) <==>
              && !(refs[r].parent.None? || refs[r].deleted || refs[t].deleted || !refs[t].isDir)
              && refs[refs[r].parent.value].deleted
  {
  }

  lemma InPlaceIs(refs: Refs, paths: Paths, r: Id, t: Id, newName: string)
    requires r in refs && t in refs && (refs[r].parent.Some? ==> refs[r].parent.value in refs)
    ensures refs[r].parent.None? ==> !InPlace(refs, paths, r, t, newName)
    ensures refs[r].parent.Some? && refs[refs[r].parent.value].node in paths && r in paths[refs[refs[r].parent.value].node].names ==>
              var n := refs[refs[r].parent.value].node;
              InPlace(refs, paths, r, t, newName) <==> n == refs[t].node && paths[n].names[r] == newName
  {
  }

  lemma RenameTouched(a: Refs, b: Refs, paths: Paths, r: Id, t: Id, newName: string)
    requires Touched(a, b) && r in a && t in a
    ensures r in b && t in b && MayRename(b, r, t) == MayRename(a, r, t) && WouldPanic(b, r, t) == WouldPanic(a, r, t)
    ensures InPlace(b, paths, r, t, newName) == InPlace(a, paths, r, t, newName)
  {
  }

  /** The name of `r`, where it is registered. */
  ghost predicate Place(refs: Refs, paths: Paths, r: Id, n: Node, name: string) {
    r in refs && refs[r].parent.Some? && refs[r].parent.value in refs && refs[refs[r].parent.value].node == n && HasName(paths, n, r, name)
  }

  /** The entry of `r` in its directory is renamed, with all references to it. */
  ghost predicate RefRenamed(p: Paths, q: Paths, a: Refs, b: Refs, r: Id, t: Id, newName: string) {
    exists n, name :: Place(a, p, r, n, name) && RenameDone(p, q, a, b, n, name, t, newName) && LostWhen(p, a, b, n, name)
  }

  lemma RefRenamedIs(p: Paths, q: Paths, a: Refs, b: Refs, r: Id, t: Id, n: Node, name: string, newName: string)
    requires r in a && a[r].parent.Some? && a[r].parent.value in a && a[a[r].parent.value].node == n
    requires n in p && r in p[n].names && p[n].names[r] == name && RenameDone(p, q, a, b, n, name, t, newName) && LostWhen(p, a, b, n, name)
    ensures RefRenamed(p, q, a, b, r, t, newName)
  {
    hide RenameDone, LostWhen;
    assert Place(a, p, r, n, name);
  }

  ghost predicate RefLoopsWhen(p: Paths, a: Refs, b: Refs, r: Id, t: Id) {
    forall n, name :: Place(a, p, r, n, name) ==> LoopsWhen(p, a, b, n, name, t)
  }

  lemma RefRenameAround(p: Paths, q: Paths, q': Paths, a: Refs, a': Refs, b: Refs, b': Refs, fids: Fids, held: multiset<Id>, k: Key, k': Key, newName: string)
    requires Touched(a, a') && k in fids && k' in fids && RefRenamed(p, q, a', b, fids[k], fids[k'], newName) && Grown(b, q, b', q', []) && b'.Keys == b.Keys
    requires Counted(a, fids, held, {}) && Counted(a', fids, held + multiset{fids[k]} + multiset{fids[k']}, {}) && Registered(a, p, {})
    requires Counted(b', fids, held, {}) && Live(b', fids[k']) && Live(b', fids[k]) && fids[k] in a
    ensures RefRenamed(p, q', a, b', fids[k], fids[k'], newName) && Arrived(b', q', fids[k'], fids[k], newName) && RefLoopsWhen(p, a, b', fids[k], fids[k'])
  {
    hide RenameDone, Counted, Grown, LoopsWhen, LostWhen, Registered, Trapped;
    var r, t := fids[k], fids[k'];
    var n, name :| Place(a', p, r, n, name) && RenameDone(p, q, a', b, n, name, t, newName) && LostWhen(p, a', b, n, name);
    PlaceTouched(a, a', p, r, n, name);
    RenameAround(p, q, q', a, a', b, b', n, name, t, newName);
    AlikeNamed(a, a', fids, p, held, k, k', n, name);
    LostAround(p, q, q', a, a', b, b', n, name);
    LoopsAfter(p, q', a, b', fids, held, n, name, t, newName);
    ArrivedAt(p, q', a, b', n, name, t, newName, r);
  }

  lemma PlaceTouched(a: Refs, b: Refs, p: Paths, r: Id, n: Node, name: string)
    requires Touched(a, b) && Place(b, p, r, n, name) && r in a
    ensures Place(a, p, r, n, name)
  {
  }

  lemma ArrivedAt(p: Paths, q: Paths, a: Refs, b: Refs, n: Node, name: string, t: Id, newName: string, r: Id)
    requires RenameDone(p, q, a, b, n, name, t, newName) && HasName(p, n, r, name) && Live(b, r)
    ensures Arrived(b, q, t, r, newName)
  {
  }
}

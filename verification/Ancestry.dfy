/** The references above a reference: loops among parents, which references a drop closes,
    and why references on a loop are never closed. */
module Ancestry {
  import opened Ownership
  import opened Sets

  /** The reference `n` steps up from `x`. */
  ghost function Up(refs: Refs, x: Id, n: nat): Option<Id>
    decreases n
  {
    if x !in refs then None
    else if n == 0 then Some(x)
    else if refs[x].parent.None? then None
    else Up(refs, refs[x].parent.value, n - 1)
  }

  /** `a` is `x` or an ancestor of it. */
  ghost predicate Above(refs: Refs, a: Id, x: Id) {
    exists n: nat :: Up(refs, x, n) == Some(a)
  }

  /** `x` is an ancestor of itself. */
  ghost predicate Looped(refs: Refs, x: Id) {
    exists n: nat :: n > 0 && Up(refs, x, n) == Some(x)
  }

  ghost predicate LiveLoop(refs: Refs, x: Id) {
    Live(refs, x) && Looped(refs, x)
  }

  ghost predicate Acyclic(refs: Refs) {
    forall x :: !LiveLoop(refs, x)
  }

  lemma {:induction false} UpThen(refs: Refs, x: Id, m: nat, n: nat)
    requires Up(refs, x, m).Some?
    ensures Up(refs, x, m + n) == Up(refs, Up(refs, x, m).value, n)
    decreases m
  {
    if m > 0 {
      UpThen(refs, refs[x].parent.value, m - 1, n);
    }
  }

  lemma {:induction false} UpBefore(refs: Refs, x: Id, m: nat, n: nat)
    requires Up(refs, x, n).Some? && m <= n
    ensures Up(refs, x, m).Some? && Up(refs, x, m).value in refs
    decreases m
  {
    if m > 0 {
      UpBefore(refs, refs[x].parent.value, m - 1, n - 1);
    }
  }

  /** The step before the last goes to a child. */
  lemma LastStep(refs: Refs, x: Id, n: nat) returns (c: Id)
    requires n > 0 && Up(refs, x, n).Some?
    ensures Up(refs, x, n - 1) == Some(c) && c in refs && refs[c].parent == Up(refs, x, n)
  {
    UpBefore(refs, x, n - 1, n);
    c := Up(refs, x, n - 1).value;
    UpThen(refs, x, n - 1, 1);
    UpBefore(refs, x, n, n);
  }

  lemma {:induction false} UpLive(refs: Refs, fids: Fids, held: multiset<Id>, x: Id, n: nat)
    requires Grounded(refs, fids, held, {}) && Live(refs, x) && Up(refs, x, n).Some?
    ensures Live(refs, Up(refs, x, n).value)
    decreases n
  {
    if n > 0 {
      UpLive(refs, fids, held, refs[x].parent.value, n - 1);
    }
  }

  /** Along references with the same parents the way up is the same. */
  lemma {:induction false} UpSame(a: Refs, b: Refs, x: Id, n: nat)
    requires b.Keys == a.Keys
    requires forall i: nat, y :: i < n && Up(a, x, i) == Some(y) ==> y in a && b[y].parent == a[y].parent
    ensures Up(b, x, n) == Up(a, x, n)
    decreases n
  {
    if n > 0 && x in a {
      assert Up(a, x, 0) == Some(x);
      if a[x].parent.Some? {
        forall i: nat, y | i < n - 1 && Up(a, a[x].parent.value, i) == Some(y) ensures y in a && b[y].parent == a[y].parent {
          assert Up(a, x, i + 1) == Some(y);
        }
        UpSame(a, b, a[x].parent.value, n - 1);
      }
    }
  }

  // ----- which references a drop closes -----

  /** Every reference on the way from `p` up to `x` has one owner left. */
  ghost predicate DoomedIn(refs: Refs, p: Id, x: Id, n: nat)
    decreases n
  {
    && p in refs && refs[p].count == 1
    && if n == 0 then p == x else refs[p].parent.Some? && DoomedIn(refs, refs[p].parent.value, x, n - 1)
  }

  /** Dropping a reference to `p` closes `x`. */
  ghost predicate Doomed(refs: Refs, p: Id, x: Id) {
    exists n: nat :: DoomedIn(refs, p, x, n)
  }

  /** A drop of `p` closes the doomed, and nothing else. */
  ghost predicate ClosesDoomed(refs: Refs, refs': Refs, p: Id) {
    refs'.Keys == refs.Keys &&
    forall x :: x in refs ==> refs'[x].closes == refs[x].closes + if Doomed(refs, p, x) then 1 else 0
  }

  /** `p` after its last owner has dropped it. */
  ghost function Closed(refs: Refs, p: Id): Refs
    requires p in refs
  {
    refs[p := refs[p].(count := refs[p].count - 1, closes := 1)]
  }

  lemma {:induction false} DoomedWithout(refs: Refs, p: Id, q: Id, x: Id, n: nat)
    requires p in refs && refs[p].count == 1 && DoomedIn(Closed(refs, p), q, x, n)
    ensures DoomedIn(refs, q, x, n)
    decreases n
  {
    assert q != p;
    if n > 0 {
      DoomedWithout(refs, p, refs[q].parent.value, x, n - 1);
    }
  }

  lemma {:induction false} DoomedBeyond(refs: Refs, p: Id, q: Id, x: Id, n: nat)
    requires p in refs && refs[p].count == 1 && DoomedIn(refs, q, x, n) && forall i: nat :: i <= n ==> !DoomedIn(refs, p, x, i)
    ensures DoomedIn(Closed(refs, p), q, x, n)
    decreases n
  {
    assert q != p;
    if n > 0 {
      DoomedBeyond(refs, p, refs[q].parent.value, x, n - 1);
    }
  }

  lemma {:induction false} LeastDoom(refs: Refs, p: Id, x: Id, n: nat) returns (m: nat)
    requires DoomedIn(refs, p, x, n)
    ensures DoomedIn(refs, p, x, m) && forall i: nat :: i < m ==> !DoomedIn(refs, p, x, i)
    decreases n
  {
    if i: nat :| i < n && DoomedIn(refs, p, x, i) {
      m := LeastDoom(refs, p, x, i);
    } else {
      m := n;
    }
  }

  /** What is doomed with `p`: itself, and what is doomed with its parent once it is closed. */
  lemma DoomedNext(refs: Refs, p: Id, x: Id)
    requires p in refs && refs[p].count == 1
    ensures Doomed(refs, p, x) <==>
              x == p || (refs[p].parent.Some? && Doomed(Closed(refs, p), refs[p].parent.value, x))
    ensures !Doomed(Closed(refs, p), p, x)
    ensures refs[p].parent.Some? ==> !Doomed(Closed(refs, p), refs[p].parent.value, p)
  {
    assert x == p ==> DoomedIn(refs, p, x, 0);
    if n: nat :| DoomedIn(refs, p, x, n) {
      var m := LeastDoom(refs, p, x, n);
      if m > 0 {
        DoomedBeyond(refs, p, refs[p].parent.value, x, m - 1);
        assert Doomed(Closed(refs, p), refs[p].parent.value, x);
      }
    }
    if refs[p].parent.Some? {
      var q := refs[p].parent.value;
      if n: nat :| DoomedIn(Closed(refs, p), q, x, n) {
        DoomedWithout(refs, p, q, x, n);
        assert DoomedIn(refs, p, x, n + 1);
      }
      if n: nat :| DoomedIn(Closed(refs, p), q, p, n) {
        DoomedLast(Closed(refs, p), q, p, n);
      }
    }
  }

  lemma {:induction false} DoomedLast(refs: Refs, p: Id, x: Id, n: nat)
    requires DoomedIn(refs, p, x, n)
    ensures x in refs && refs[x].count == 1 && Up(refs, p, n) == Some(x)
    decreases n
  {
    if n > 0 {
      DoomedLast(refs, refs[p].parent.value, x, n - 1);
    }
  }

  lemma NotDoomed(refs: Refs, p: Id, x: Id)
    requires p in refs && refs[p].count != 1
    ensures !Doomed(refs, p, x)
  {
  }

  /** The whole drop, from the drop of the parent. */
  lemma ClosesAll(refs: Refs, p: Id, refs': Refs)
    requires p in refs && refs[p].count == 1 && refs[p].closes == 0
    requires if refs[p].parent.Some? then ClosesDoomed(Closed(refs, p), refs', refs[p].parent.value) else refs' == Closed(refs, p)
    ensures ClosesDoomed(refs, refs', p)
  {
    forall x | x in refs ensures refs'[x].closes == refs[x].closes + if Doomed(refs, p, x) then 1 else 0 {
      DoomedNext(refs, p, x);
    }
  }

  lemma ClosesNone(refs: Refs, p: Id, refs': Refs)
    requires p in refs && refs[p].count != 1 && refs' == refs[p := refs[p].(count := refs[p].count - 1)]
    ensures ClosesDoomed(refs, refs', p)
  {
    forall x | x in refs ensures !Doomed(refs, p, x) {
      NotDoomed(refs, p, x);
    }
  }

  // ----- loops are for ever -----

  lemma OnlyKid(refs: Refs, fids: Fids, held: multiset<Id>, x: Id, c: Id)
    requires Counted(refs, fids, held, {}) && Live(refs, x) && Live(refs, c) && refs[c].parent == Some(x) && refs[x].count == 1
    ensures x !in held && Entries(fids, x) == {} && Kids(refs, {}, x) == {c}
    ensures forall y :: y in refs && Owner(refs[y]) && refs[y].parent == Some(x) ==> y == c
  {
    var kids := Kids(refs, {}, x);
    OneLess(kids, c);
    assert kids - {c} == {};
    assert kids == {c};
    forall y | y in refs && Owner(refs[y]) && refs[y].parent == Some(x) ensures y == c {
      assert y in kids;
    }
  }

  /** A reference on a loop has an owner on the loop, so no drop closes it. */
  lemma {:induction false} LoopsHold(refs: Refs, fids: Fids, held: multiset<Id>, r: Id, x: Id, n: nat)
    requires Counted(refs, fids, held, {}) && r in held && LiveLoop(refs, x)
    ensures !DoomedIn(refs, r, x, n)
    decreases n
  {
    hide Counted, Up, DoomedIn, Looped;
    if DoomedIn(refs, r, x, n) {
      var c := LoopKid(refs, fids, held, x);
      DoomedLast(refs, r, x, n);
      OnlyKid(refs, fids, held, x, c);
      HeldAlive(refs, fids, held, r);
      UpIs(refs, r);
      if n > 0 {
        var y := LastStep(refs, r, n);
        UpLive(refs, fids, held, r, n - 1);
        DoomedPrefix(refs, r, c, n - 1, x);
        LoopsHold(refs, fids, held, r, c, n - 1);
      }
    }
  }

  lemma UpIs(refs: Refs, x: Id)
    ensures x in refs ==> Up(refs, x, 0) == Some(x)
    ensures x in refs && refs[x].parent.Some? && refs[x].parent.value in refs ==> Up(refs, x, 1) == refs[x].parent
  {
  }

  lemma HeldAlive(refs: Refs, fids: Fids, held: multiset<Id>, r: Id)
    requires Counted(refs, fids, held, {}) && r in held
    ensures Live(refs, r) && Grounded(refs, fids, held, {})
  {
  }

  /** The reference before `x` on its loop. */
  lemma LoopKid(refs: Refs, fids: Fids, held: multiset<Id>, x: Id) returns (c: Id)
    requires Counted(refs, fids, held, {}) && LiveLoop(refs, x)
    ensures LiveLoop(refs, c) && refs[c].parent == Some(x) && Above(refs, c, x)
  {
    hide Owners, Counted, Grounded;
    var k: nat :| k > 0 && Up(refs, x, k) == Some(x);
    c := LastStep(refs, x, k);
    CountedGrounded(refs, fids, held);
    UpLive(refs, fids, held, x, k - 1);
    UpThen(refs, c, 1, k - 1);
    assert Up(refs, c, k) == Some(c);
  }

  lemma CountedGrounded(refs: Refs, fids: Fids, held: multiset<Id>)
    requires Counted(refs, fids, held, {})
    ensures Grounded(refs, fids, held, {})
  {
  }

  lemma {:induction false} DoomedPrefix(refs: Refs, r: Id, c: Id, n: nat, x: Id)
    requires Up(refs, r, n) == Some(c) && DoomedIn(refs, r, x, n + 1)
    ensures DoomedIn(refs, r, c, n)
    decreases n
  {
    if n > 0 {
      DoomedPrefix(refs, refs[r].parent.value, c, n - 1, x);
    }
  }

  /** The same references are alive and on loops. */
  ghost predicate SameLoops(a: Refs, b: Refs) {
    forall x {:trigger LiveLoop(a, x)} {:trigger LiveLoop(b, x)} :: LiveLoop(b, x) <==> LiveLoop(a, x)
  }

  lemma SameLoopsThen(a: Refs, b: Refs, c: Refs)
    requires SameLoops(a, b) && SameLoops(b, c)
    ensures SameLoops(a, c) && (Acyclic(a) <==> Acyclic(c))
  {
  }

  lemma SameParents(a: Refs, b: Refs)
    requires b.Keys == a.Keys && forall x :: x in a ==> b[x].parent == a[x].parent
    ensures forall x :: Looped(b, x) <==> Looped(a, x)
  {
    forall x, n: nat ensures Up(b, x, n) == Up(a, x, n) {
      forall i: nat, y | i < n && Up(a, x, i) == Some(y) ensures y in a { UpBefore(a, x, i, i); }
      UpSame(a, b, x, n);
    }
  }

  /** Dropping a reference leaves every loop as it is. */
  lemma DropKeepsLoops(refs: Refs, refs': Refs, fids: Fids, held: multiset<Id>, r: Id)
    requires Counted(refs, fids, held, {}) && r in held && Faded(refs, refs') && ClosesDoomed(refs, refs', r)
    ensures SameLoops(refs, refs')
  {
    SameParents(refs, refs');
    forall x ensures LiveLoop(refs', x) <==> LiveLoop(refs, x) {
      if LiveLoop(refs, x) && Doomed(refs, r, x) {
        var n: nat :| DoomedIn(refs, r, x, n);
        LoopsHold(refs, fids, held, r, x, n);
      }
    }
  }

  lemma KeepsLoops(a: Refs, b: Refs)
    requires b.Keys == a.Keys && forall x :: x in a ==> b[x].parent == a[x].parent && b[x].closes == a[x].closes
    ensures SameLoops(a, b)
  {
    SameParents(a, b);
  }

  /** A new reference is on no loop. */
  lemma BirthKeepsLoops(refs: Refs, fids: Fids, held: multiset<Id>, c: Id, f: FidRef)
    requires Counted(refs, fids, held, {}) && c !in refs && (f.parent.Some? ==> f.parent.value in held)
    ensures SameLoops(refs, refs[c := f])
  {
    var b := refs[c := f];
    forall x ensures LiveLoop(b, x) <==> LiveLoop(refs, x) {
      if x == c {
        if n: nat :| n > 0 && Up(b, c, n) == Some(c) {
          UpInside(refs, b, fids, held, c, f.parent.value, n - 1);
        }
      } else {
        forall n: nat | Live(refs, x) ensures Up(b, x, n) == Up(refs, x, n) {
          UpInside(refs, b, fids, held, c, x, n);
        }
        if n: nat :| Live(refs, x) && n > 0 && Up(refs, x, n) == Some(x) { assert Up(b, x, n) == Some(x); }
        if n: nat :| Live(refs, x) && n > 0 && Up(b, x, n) == Some(x) { assert Up(refs, x, n) == Some(x); }
      }
    }
  }

  lemma {:induction false} UpInside(a: Refs, b: Refs, fids: Fids, held: multiset<Id>, c: Id, x: Id, n: nat)
    requires Counted(a, fids, held, {}) && c !in a && c in b && b == a[c := b[c]] && Live(a, x)
    ensures Up(b, x, n) == Up(a, x, n) && Up(b, x, n) != Some(c)
    decreases n
  {
    if n > 0 && a[x].parent.Some? {
      UpInside(a, b, fids, held, c, a[x].parent.value, n - 1);
    } else if n == 0 {
      assert x != c;
    }
  }

  // ----- after the last connection -----

  ghost predicate NoneLost(refs: Refs) {
    forall x :: x in refs ==> !refs[x].lost
  }

  /** Without FIDs and handlers, every live reference has one as far below as you like. */
  lemma {:induction false} FarBelow(refs: Refs, r: Id, n: nat) returns (x: Id)
    requires Counted(refs, map[], multiset{}, {}) && Positive(refs, {}) && NoneLost(refs) && Live(refs, r)
    ensures Live(refs, x) && Up(refs, x, n) == Some(r)
    decreases n
  {
    if n == 0 {
      x := r;
    } else {
      assert Entries(map[], r) == {};
      var c :| c in Kids(refs, {}, r);
      x := FarBelow(refs, c, n - 1);
      UpThen(refs, x, n - 1, 1);
    }
  }

  ghost function Line(refs: Refs, x: Id, n: nat): seq<Id>
    requires Up(refs, x, n).Some?
    ensures |Line(refs, x, n)| == n + 1
    ensures forall i :: 0 <= i <= n ==> Up(refs, x, i) == Some(Line(refs, x, n)[i]) && Line(refs, x, n)[i] in refs
    decreases n
  {
    if n == 0 then [x] else [x] + Line(refs, refs[x].parent.value, n - 1)
  }

  /** Without FIDs and handlers, all files are closed exactly when no reference is on a loop
      and none is lost. */
  lemma ClosedExactlyWhenAcyclic(refs: Refs)
    requires Counted(refs, map[], multiset{}, {}) && Positive(refs, {})
    ensures (forall r :: r in refs ==> refs[r].closes == 1) <==> Acyclic(refs) && NoneLost(refs)
  {
    hide Counted, Up, Looped, Positive;
    CountedGrounded(refs, map[], multiset{});
    forall r | r in refs && Acyclic(refs) && NoneLost(refs) ensures refs[r].closes == 1 {
      if refs[r].closes == 0 {
        var y := LoopSomewhere(refs, r);
      }
    }
    forall x | x in refs && refs[x].lost ensures exists r :: r in refs && refs[r].closes == 0 {
      assert Live(refs, refs[x].parent.value);
    }
  }

  lemma LoopSomewhere(refs: Refs, r: Id) returns (y: Id)
    requires Counted(refs, map[], multiset{}, {}) && Positive(refs, {}) && NoneLost(refs) && Live(refs, r)
    ensures LiveLoop(refs, y)
  {
    hide Counted, Up, Line, Positive, Grounded, NoneLost;
    var n := |refs.Keys|;
    var x := FarBelow(refs, r, n);
    var line := Line(refs, x, n);
    var i, j := Pigeonhole(line, refs.Keys);
    y := line[i];
    UpThen(refs, x, i, j - i);
    CountedGrounded(refs, map[], multiset{});
    UpLive(refs, map[], multiset{}, x, i);
    assert Up(refs, y, j - i) == Some(y);
  }

  // ----- renaming -----

  /** What a rename does to parents: the moved that stay alive go to `t`, the others stay. */
  ghost predicate MovesTo(a: Refs, b: Refs, moved: set<Id>, t: Id) {
    && b.Keys == a.Keys
    && (forall x :: x in a ==> a[x].closes <= b[x].closes)
    && (forall x :: x in a && x !in moved ==> b[x].parent == a[x].parent)
    && (forall x :: x in moved && Live(b, x) ==> b[x].parent == Some(t))
  }

  /** The first moved reference on the way up from `t`, if there is one. */
  lemma {:induction false} FirstMoved(a: Refs, moved: set<Id>, t: Id, n: nat) returns (m: nat)
    requires Up(a, t, n).Some? && Up(a, t, n).value in moved
    ensures m <= n && Up(a, t, m).Some? && Up(a, t, m).value in moved
    ensures forall i: nat :: i < m && Up(a, t, i).Some? ==> Up(a, t, i).value !in moved
    decreases n
  {
    if i: nat :| i < n && Up(a, t, i).Some? && Up(a, t, i).value in moved {
      m := FirstMoved(a, moved, t, i);
    } else {
      m := n;
    }
  }

  /** Loops after a rename are old ones, or lead from `t` up to something moved, as before. */
  lemma LoopOfRename(a: Refs, b: Refs, moved: set<Id>, t: Id, fids: Fids, held: multiset<Id>, x: Id)
    requires MovesTo(a, b, moved, t) && Grounded(b, fids, held, {}) && LiveLoop(b, x)
    ensures LiveLoop(a, x) || exists y :: y in moved && Above(a, y, t)
  {
    var k: nat :| k > 0 && Up(b, x, k) == Some(x);
    if i: nat :| i < k && Up(b, x, i).Some? && Up(b, x, i).value in moved {
      var y := Up(b, x, i).value;
      UpLive(b, fids, held, x, i);
      UpThen(b, x, i, k - i);
      UpThen(b, y, k - i, i);
      assert Up(b, y, k) == Some(y);
      assert Up(b, y, 1) == Up(b, t, 0);
      UpThen(b, y, 1, k - 1);
      var m := FirstMoved(b, moved, t, k - 1);
      UpBack(a, b, moved, t, m);
      assert Up(a, t, m) == Up(b, t, m);
      assert Above(a, Up(a, t, m).value, t);
    } else {
      UpBack(a, b, moved, x, k);
      assert Up(a, x, k) == Some(x);
    }
  }

  lemma UpBack(a: Refs, b: Refs, moved: set<Id>, x: Id, n: nat)
    requires b.Keys == a.Keys && forall y :: y in a && y !in moved ==> b[y].parent == a[y].parent
    requires forall i: nat :: i < n && Up(b, x, i).Some? ==> Up(b, x, i).value !in moved
    ensures Up(a, x, n) == Up(b, x, n)
  {
    forall i: nat, y | i < n && Up(b, x, i) == Some(y) ensures y in a && a[y].parent == b[y].parent { UpBefore(b, x, i, i); }
    UpSame(b, a, x, n);
  }

  /** Something moved that was above `t` closes a loop. */
  lemma RenameLoops(a: Refs, b: Refs, moved: set<Id>, t: Id, fids: Fids, held: multiset<Id>, y: Id)
    requires MovesTo(a, b, moved, t) && Grounded(b, fids, held, {}) && Live(b, t) && y in moved && Above(a, y, t)
    ensures LiveLoop(b, t)
  {
    var n: nat :| Up(a, t, n) == Some(y);
    var m := FirstMoved(a, moved, t, n);
    UpBack(b, a, moved, t, m);
    var x := Up(a, t, m).value;
    assert Up(b, t, m) == Some(x);
    UpLive(b, fids, held, t, m);
    assert Up(b, x, 1) == Some(t);
    UpThen(b, t, m, 1);
    assert Up(b, t, m + 1) == Some(t);
  }

  /** A rename keeps parents free of loops if and only if nothing that moves is the target or
      above it. */
  lemma AcyclicExactlyWhen(a: Refs, b: Refs, moved: set<Id>, t: Id, fids: Fids, held: multiset<Id>)
    requires MovesTo(a, b, moved, t) && Grounded(b, fids, held, {}) && Live(b, t) && Acyclic(a)
    ensures Acyclic(b) <==> forall x :: x in moved ==> !Above(a, x, t)
  {
    if x :| LiveLoop(b, x) {
      LoopOfRename(a, b, moved, t, fids, held, x);
    }
    if y :| y in moved && Above(a, y, t) {
      RenameLoops(a, b, moved, t, fids, held, y);
    }
  }

  /** Every loop through `x` passes `t`. */
  ghost predicate LoopsThrough(refs: Refs, x: Id, t: Id) {
    forall n: nat :: n > 0 && Up(refs, x, n) == Some(x) ==> Passes(refs, x, t, n)
  }

  lemma NoLoopsThrough(refs: Refs, x: Id, t: Id)
    requires !Looped(refs, x)
    ensures LoopsThrough(refs, x, t)
  {
  }

  ghost predicate Passes(refs: Refs, x: Id, t: Id, n: nat) {
    exists i: nat :: i < n && Up(refs, x, i) == Some(t)
  }

  lemma {:induction false} DoomedSole(refs: Refs, p: Id, x: Id, n: nat, i: nat)
    requires DoomedIn(refs, p, x, n) && i <= n
    ensures Up(refs, p, i).Some? && Up(refs, p, i).value in refs && refs[Up(refs, p, i).value].count == 1
    decreases n
  {
    if i > 0 {
      DoomedSole(refs, refs[p].parent.value, x, n - 1, i - 1);
    }
  }

  /** When all its loops pass a reference some handler holds, leaving its parent does not close
      a reference. */
  lemma HeldLoopsHold(refs: Refs, fids: Fids, held: multiset<Id>, r: Id, t: Id)
    requires Counted(refs, fids, held, {}) && Live(refs, r) && refs[r].parent.Some? && t in held && LoopsThrough(refs, r, t)
    ensures !Doomed(refs, refs[r].parent.value, r)
  {
    hide Counted, Up, DoomedIn, Grounded;
    var p := refs[r].parent.value;
    if n: nat :| DoomedIn(refs, p, r, n) {
      DoomedLast(refs, p, r, n);
      UpMore(refs, r, n);
      var i: nat :| i < n + 1 && Up(refs, r, i) == Some(t);
      CountedGrounded(refs, fids, held);
      UpLive(refs, fids, held, r, i);
      LoopedToo(refs, r, t, i, n + 1);
      var c := LoopKid(refs, fids, held, t);
      if i == 0 {
        UpIs(refs, r);
      } else {
        DoomedSole(refs, p, r, n, i - 1);
        UpMore(refs, r, i - 1);
      }
      OnlyKid(refs, fids, held, t, c);
    }
  }

  lemma UpMore(refs: Refs, x: Id, n: nat)
    requires x in refs && refs[x].parent.Some?
    ensures Up(refs, x, n + 1) == Up(refs, refs[x].parent.value, n)
  {
  }

  lemma LoopedToo(refs: Refs, x: Id, y: Id, i: nat, n: nat)
    requires i < n && Up(refs, x, i) == Some(y) && Up(refs, x, n) == Some(x)
    ensures Looped(refs, y)
  {
    UpThen(refs, x, i, n - i);
    UpThen(refs, y, n - i, i);
    assert Up(refs, y, n) == Some(y);
  }

  /** Moving `r` to `t` makes no loop that does not pass `t`. */
  lemma MoveKeepsThrough(a: Refs, b: Refs, r: Id, t: Id, x: Id)
    requires b.Keys == a.Keys && r in a && t in a && b[r].parent == Some(t) && forall y :: y in a && y != r ==> b[y].parent == a[y].parent
    requires LoopsThrough(a, x, t)
    ensures LoopsThrough(b, x, t)
  {
    forall n: nat | n > 0 && Up(b, x, n) == Some(x) ensures Passes(b, x, t, n) {
      if i: nat :| i < n && Up(b, x, i) == Some(r) {
        UpThen(b, x, i, 1);
        assert Up(b, t, 0) == Some(t);
        assert Up(b, x, i + 1) == Some(t);
        assert i + 1 == n ==> Up(b, x, 0) == Some(t);
      } else {
        UpBack(a, b, {r}, x, n);
        assert Passes(a, x, t, n);
        var i: nat :| i < n && Up(a, x, i) == Some(t);
        UpBack(a, b, {r}, x, i);
      }
    }
  }

  // ----- references closed while they move -----

  /** `x` is on a loop of references that nothing else owns: leaving its parent closes it. */
  ghost predicate Trapped(refs: Refs, x: Id) {
    x in refs && refs[x].parent.Some? && Doomed(refs, refs[x].parent.value, x)
  }

  /** Everything on the loop of a trapped reference has one owner. */
  lemma {:induction false} LoopSole(refs: Refs, x: Id, n: nat, k: nat)
    requires x in refs && refs[x].parent.Some? && DoomedIn(refs, refs[x].parent.value, x, n)
    ensures Up(refs, x, k).Some? && Up(refs, x, k).value in refs && refs[Up(refs, x, k).value].count == 1
    decreases k
  {
    var p := refs[x].parent.value;
    DoomedLast(refs, p, x, n);
    if k == 0 {
    } else if k <= n + 1 {
      DoomedSole(refs, p, x, n, k - 1);
    } else {
      assert Up(refs, x, n + 1) == Some(x);
      UpThen(refs, x, n + 1, k - (n + 1));
      LoopSole(refs, x, n, k - (n + 1));
    }
  }

  lemma {:induction false} DoomedBy(refs: Refs, q: Id, y: Id, m: nat)
    requires Up(refs, q, m) == Some(y)
    requires forall i: nat :: i <= m ==> Up(refs, q, i).Some? && Up(refs, q, i).value in refs && refs[Up(refs, q, i).value].count == 1
    ensures DoomedIn(refs, q, y, m)
    decreases m
  {
    assert Up(refs, q, 0) == Some(q);
    if m > 0 {
      forall i: nat | i <= m - 1
        ensures var o := Up(refs, refs[q].parent.value, i); o.Some? && o.value in refs && refs[o.value].count == 1
      {
        assert Up(refs, q, i + 1) == Up(refs, refs[q].parent.value, i);
      }
      DoomedBy(refs, refs[q].parent.value, y, m - 1);
    }
  }

  /** So everything on that loop is trapped. */
  lemma TrappedToo(refs: Refs, x: Id, r: Id)
    requires Trapped(refs, x) && Above(refs, r, x)
    ensures Trapped(refs, r)
  {
    var n: nat :| DoomedIn(refs, refs[x].parent.value, x, n);
    var j: nat :| Up(refs, x, j) == Some(r);
    LoopSole(refs, x, n, j + 1);
    LoopSole(refs, x, n, j);
    UpThen(refs, x, j, 1);
    var q := refs[r].parent.value;
    forall i: nat | i <= n ensures var o := Up(refs, q, i); o.Some? && o.value in refs && refs[o.value].count == 1 {
      LoopSole(refs, x, n, j + 1 + i);
      UpThen(refs, x, j + 1, i);
    }
    DoomedLast(refs, refs[x].parent.value, x, n);
    assert Up(refs, x, n + 1) == Some(x);
    UpThen(refs, x, n + 1, j);
    UpThen(refs, x, j, n + 1);
    UpMore(refs, r, n);
    DoomedBy(refs, q, r, n);
  }

  lemma TrappedLoops(refs: Refs, x: Id)
    requires Trapped(refs, x)
    ensures Looped(refs, x) && refs[x].count == 1
  {
    var n: nat :| DoomedIn(refs, refs[x].parent.value, x, n);
    DoomedLast(refs, refs[x].parent.value, x, n);
    UpMore(refs, x, n);
  }

  /** When `r` leaves its parent, nothing is closed on a loop that does not pass `r`. */
  lemma {:induction false} LoopUntouched(refs: Refs, fids: Fids, held: multiset<Id>, r: Id, x: Id, n: nat)
    requires Counted(refs, fids, held, {}) && r in refs && Owner(refs[r]) && refs[r].parent.Some? && LiveLoop(refs, x) && !Above(refs, r, x)
    ensures !DoomedIn(refs, refs[r].parent.value, x, n)
    decreases n
  {
    hide Counted, Up, DoomedIn, Looped, Above;
    var p := refs[r].parent.value;
    if DoomedIn(refs, p, x, n) {
      var c := LoopKid(refs, fids, held, x);
      DoomedLast(refs, p, x, n);
      OnlyKid(refs, fids, held, x, c);
      OwnerParent(refs, fids, held, r);
      UpIs(refs, p);
      if n > 0 {
        var y := LastStep(refs, p, n);
        CountedGrounded(refs, fids, held);
        UpLive(refs, fids, held, p, n - 1);
        DoomedPrefix(refs, p, c, n - 1, x);
        AboveThen(refs, r, c, x);
        LoopUntouched(refs, fids, held, r, c, n - 1);
      }
    }
  }

  lemma OwnerParent(refs: Refs, fids: Fids, held: multiset<Id>, r: Id)
    requires Counted(refs, fids, held, {}) && r in refs && Owner(refs[r]) && refs[r].parent.Some?
    ensures Live(refs, refs[r].parent.value)
  {
  }

  lemma AboveThen(refs: Refs, r: Id, c: Id, x: Id)
    requires Above(refs, c, x)
    ensures Above(refs, r, c) ==> Above(refs, r, x)
  {
    if Above(refs, r, c) {
      var m: nat :| Up(refs, x, m) == Some(c);
      var n: nat :| Up(refs, c, n) == Some(r);
      UpThen(refs, x, m, n);
      assert Up(refs, x, m + n) == Some(r);
    }
  }

  /** What the move of `r` to `t` does to parents, closed files and lost references. */
  ghost predicate MovesOne(a: Refs, b: Refs, r: Id, t: Id) {
    && b.Keys == a.Keys && r in a && a[r].parent.Some? && b[r].parent == Some(t)
    && (forall x :: x in a && x != r ==> b[x].parent == a[x].parent && b[x].lost == a[x].lost)
    && ClosesDoomed(a, b, a[r].parent.value)
  }

  /** A reference on another loop, with one owner, keeps parent and owner. */
  lemma SoleKept(a: Refs, b: Refs, fids: Fids, held: multiset<Id>, r: Id, t: Id, y: Id)
    requires Counted(a, fids, held, {}) && Counted(b, fids, held, {}) && MovesOne(a, b, r, t) && Owner(a[r]) && t in held
    requires LiveLoop(a, y) && a[y].count == 1 && !Above(a, r, y)
    ensures Live(b, y) && b[y].parent == a[y].parent && b[y].count == 1
  {
    hide Counted, Looped, Up, Doomed, DoomedIn;
    var c := LoopKid(a, fids, held, y);
    OnlyKid(a, fids, held, y, c);
    AboveThen(a, r, c, y);
    NotAbove(a, r, y);
    NotAbove(a, r, c);
    StaysOpen(a, b, fids, held, r, t, y);
    StaysOpen(a, b, fids, held, r, t, c);
    forall k ensures k in Kids(b, {}, y) <==> k == c {
    }
    assert Kids(b, {}, y) == {c};
    CountIs(b, fids, held, y);
  }

  lemma CountIs(refs: Refs, fids: Fids, held: multiset<Id>, y: Id)
    requires Counted(refs, fids, held, {}) && Live(refs, y)
    ensures refs[y].count == |Entries(fids, y)| + |Kids(refs, {}, y)| + held[y]
  {
  }

  lemma NotAbove(refs: Refs, r: Id, y: Id)
    requires y in refs && !Above(refs, r, y)
    ensures y != r
  {
    assert Up(refs, y, 0) == Some(y);
  }

  lemma StaysOpen(a: Refs, b: Refs, fids: Fids, held: multiset<Id>, r: Id, t: Id, y: Id)
    requires Counted(a, fids, held, {}) && MovesOne(a, b, r, t) && Owner(a[r]) && LiveLoop(a, y) && !Above(a, r, y)
    ensures Live(b, y)
  {
    hide Counted, Looped, Up, DoomedIn;
    forall n: nat ensures !DoomedIn(a, a[r].parent.value, y, n) {
      LoopUntouched(a, fids, held, r, y, n);
    }
  }

  /** The move of `r` leaves everything trapped on another loop trapped. */
  lemma TrappedStays(a: Refs, b: Refs, fids: Fids, held: multiset<Id>, r: Id, t: Id, x: Id)
    requires Counted(a, fids, held, {}) && Counted(b, fids, held, {}) && MovesOne(a, b, r, t) && Owner(a[r]) && t in held
    requires Live(a, x) && Trapped(a, x) && !Above(a, r, x)
    ensures Live(b, x) && Trapped(b, x)
  {
    hide Counted, Up, DoomedIn;
    TrappedLoops(a, x);
    SoleKept(a, b, fids, held, r, t, x);
    var n: nat :| DoomedIn(a, a[x].parent.value, x, n);
    CountedGrounded(a, fids, held);
    PathStays(a, b, fids, held, r, t, x, x, n);
  }

  lemma {:induction false} PathStays(a: Refs, b: Refs, fids: Fids, held: multiset<Id>, r: Id, t: Id, x: Id, q: Id, n: nat)
    requires Counted(a, fids, held, {}) && Counted(b, fids, held, {}) && MovesOne(a, b, r, t) && Owner(a[r]) && t in held
    requires LiveLoop(a, q) && !Above(a, r, q) && a[q].parent.Some? && DoomedIn(a, a[q].parent.value, x, n)
    ensures DoomedIn(b, a[q].parent.value, x, n)
    decreases n
  {
    hide Counted, Up, Looped, Above;
    var p := a[q].parent.value;
    NextOnLoop(a, fids, held, q);
    AboveThen(a, r, p, q);
    SoleKept(a, b, fids, held, r, t, p);
    if n > 0 {
      PathStays(a, b, fids, held, r, t, x, p, n - 1);
    }
  }

  lemma NextOnLoop(refs: Refs, fids: Fids, held: multiset<Id>, q: Id)
    requires Counted(refs, fids, held, {}) && LiveLoop(refs, q) && refs[q].parent.Some?
    ensures LiveLoop(refs, refs[q].parent.value) && Above(refs, refs[q].parent.value, q)
  {
    hide Owners;
    var p := refs[q].parent.value;
    assert Up(refs, q, 1) == Some(p) by { assert Live(refs, p); assert Up(refs, p, 0) == Some(p); }
    var k: nat :| k > 0 && Up(refs, q, k) == Some(q);
    UpThen(refs, q, 1, k - 1);
    UpThen(refs, p, k - 1, 1);
    assert Up(refs, p, k) == Some(p);
  }

  lemma LiveNotLost(refs: Refs, fids: Fids, held: multiset<Id>, r: Id)
    requires Counted(refs, fids, held, {}) && Live(refs, r)
    ensures !refs[r].lost
  {
  }

  /** A reference that its loop keeps open is open. */
  lemma TrappedLive(refs: Refs, fids: Fids, held: multiset<Id>, x: Id)
    requires Counted(refs, fids, held, {}) && x in refs && Owner(refs[x]) && Trapped(refs, x)
    ensures Live(refs, x)
  {
    hide Counted, Up, DoomedIn;
    OwnerParent(refs, fids, held, x);
    var n: nat :| DoomedIn(refs, refs[x].parent.value, x, n);
    DoomedLast(refs, refs[x].parent.value, x, n);
    CountedGrounded(refs, fids, held);
    UpLive(refs, fids, held, refs[x].parent.value, n);
  }

  lemma SameTrapped(a: Refs, b: Refs, x: Id)
    requires b.Keys == a.Keys && (forall y :: y in a ==> b[y].parent == a[y].parent && b[y].count == a[y].count)
    ensures Trapped(b, x) <==> Trapped(a, x)
  {
    if x in a && a[x].parent.Some? {
      forall n: nat ensures DoomedIn(b, a[x].parent.value, x, n) <==> DoomedIn(a, a[x].parent.value, x, n) {
        SameDoomed(a, b, a[x].parent.value, x, n);
      }
    }
  }

  lemma {:induction false} SameDoomed(a: Refs, b: Refs, p: Id, x: Id, n: nat)
    requires b.Keys == a.Keys && (forall y :: y in a ==> b[y].parent == a[y].parent && b[y].count == a[y].count)
    ensures DoomedIn(b, p, x, n) <==> DoomedIn(a, p, x, n)
    decreases n
  {
    if n > 0 && p in a && a[p].parent.Some? { SameDoomed(a, b, a[p].parent.value, x, n - 1); }
  }
}

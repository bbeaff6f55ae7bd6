/** The completion graph of state decoding. Objects wait for one another; when an
    object's last dependency completes its callbacks fire and it releases the
    objects it blocks, recursively. What is left over at the end is a cycle. */
module Completion {
  import opened Sets

  type Callback = nat

  // ----- counting waits -----

  function Occurrences(q: seq<nat>, p: nat): nat {
    if q == [] then 0 else (if q[0] == p then 1 else 0) + Occurrences(q[1..], p)
  }

  /** How many entries of all the lists name `p`. */
  function Count(lists: seq<seq<nat>>, p: nat): nat {
    if lists == [] then 0 else Occurrences(lists[0], p) + Count(lists[1..], p)
  }

  function Total(lists: seq<seq<nat>>): nat {
    if lists == [] then 0 else |lists[0]| + Total(lists[1..])
  }

  lemma {:induction false} OccurrencesIn(q: seq<nat>, p: nat)
    ensures Occurrences(q, p) > 0 <==> p in q
  {
    if q != [] {
      OccurrencesIn(q[1..], p);
      assert q == [q[0]] + q[1..];
    }
  }

  lemma {:induction false} CountIn(lists: seq<seq<nat>>, p: nat)
    ensures Count(lists, p) > 0 <==> exists o :: 0 <= o < |lists| && p in lists[o]
  {
    if lists != [] {
      CountIn(lists[1..], p);
      OccurrencesIn(lists[0], p);
      if o :| 0 <= o < |lists[1..]| && p in lists[1..][o] {
        assert p in lists[o + 1];
      }
      if o :| 0 <= o < |lists| && p in lists[o] {
        if o > 0 { assert p in lists[1..][o - 1]; }
      }
    }
  }

  /** Taking the first entry off list `o` lowers that waiter's count by one. */
  lemma {:induction false} CountTake(lists: seq<seq<nat>>, o: nat, p: nat)
    requires o < |lists| && lists[o] != []
    ensures Count(lists[o := lists[o][1..]], p) == Count(lists, p) - (if lists[o][0] == p then 1 else 0)
    ensures Total(lists[o := lists[o][1..]]) == Total(lists) - 1
  {
    var after := lists[o := lists[o][1..]];
    if o == 0 {
      assert after[1..] == lists[1..];
    } else {
      CountTake(lists[1..], o - 1, p);
      assert after[1..] == lists[1..][o - 1 := lists[1..][o - 1][1..]];
    }
  }

  lemma {:induction false} CountAdd(lists: seq<seq<nat>>, o: nat, w: nat, p: nat)
    requires o < |lists|
    ensures Count(lists[o := lists[o] + [w]], p) == Count(lists, p) + (if w == p then 1 else 0)
  {
    var after := lists[o := lists[o] + [w]];
    if o == 0 {
      assert after[1..] == lists[1..];
      OccurrencesAdd(lists[0], w, p);
    } else {
      CountAdd(lists[1..], o - 1, w, p);
      assert after[1..] == lists[1..][o - 1 := lists[1..][o - 1] + [w]];
    }
  }

  lemma {:induction false} OccurrencesAdd(q: seq<nat>, w: nat, p: nat)
    ensures Occurrences(q + [w], p) == Occurrences(q, p) + (if w == p then 1 else 0)
  {
    if q == [] {
      assert q + [w] == [w];
    } else {
      assert (q + [w])[1..] == q[1..] + [w];
      OccurrencesAdd(q[1..], w, p);
    }
  }

  function Flatten(cbs: seq<seq<Callback>>, order: seq<nat>): seq<Callback>
    requires forall k :: 0 <= k < |order| ==> order[k] < |cbs|
  {
    if order == [] then [] else Flatten(cbs, order[..|order| - 1]) + cbs[order[|order| - 1]]
  }

  ghost predicate NoDup(q: seq<nat>) {
    forall i, j :: 0 <= i < j < |q| ==> q[i] != q[j]
  }

  // ----- the states of a completion run -----

  /** `rem[o]`: the entries of `o`'s blocked list not yet released. `order`: the
      objects whose callbacks have fired, in that order. `active`: those still
      releasing others. */
  ghost predicate Consistent(graph: seq<seq<nat>>, cbs: seq<seq<Callback>>,
                             blockedBy: seq<int>, blocking: seq<seq<nat>>, callbacks: seq<seq<Callback>>,
                             rem: seq<seq<nat>>, order: seq<nat>, active: set<nat>, fired: seq<Callback>)
  {
    var n := |graph|;
    && |cbs| == |blockedBy| == |blocking| == |callbacks| == |rem| == n
    && (forall o, k :: 0 <= o < n && 0 <= k < |graph[o]| ==> graph[o][k] < n)
    && (forall p :: 0 <= p < n ==> blockedBy[p] == Count(rem, p))
    && NoDup(order) && (forall k :: 0 <= k < |order| ==> order[k] < n)
    && (forall o :: 0 <= o < n && o !in order ==> rem[o] == blocking[o] == graph[o] && callbacks[o] == cbs[o])
    && (forall o :: o in order ==> blockedBy[o] == 0 && callbacks[o] == [])
    && (forall o :: o in order && o !in active ==> rem[o] == [] && blocking[o] == [])
    && (forall o :: o in active ==> o in order && blocking[o] == graph[o] && |rem[o]| <= |graph[o]|
                                    && rem[o] == graph[o][|graph[o]| - |rem[o]|..])
    && (forall k, o :: 0 <= k < |order| && 0 <= o < n && order[k] in graph[o] ==> o in order[..k])
    && fired == Flatten(cbs, order)
  }

  /** Firing an object that waits for nothing. */
  lemma Fires(graph: seq<seq<nat>>, cbs: seq<seq<Callback>>, blockedBy: seq<int>, blocking: seq<seq<nat>>,
              callbacks: seq<seq<Callback>>, rem: seq<seq<nat>>, order: seq<nat>, active: set<nat>, fired: seq<Callback>,
              os: nat)
    requires Consistent(graph, cbs, blockedBy, blocking, callbacks, rem, order, active, fired)
    requires os < |graph| && os !in order && blockedBy[os] == 0
    ensures Consistent(graph, cbs, blockedBy, blocking, callbacks[os := []], rem, order + [os], active + {os}, fired + callbacks[os])
  {
    var order' := order + [os];
    assert order'[..|order|] == order;
    CountIn(rem, os);
    forall o | 0 <= o < |graph| && os in graph[o] ensures o in order {
      assert os !in rem[o];
    }
    forall k, o | 0 <= k < |order'| && 0 <= o < |graph| && order'[k] in graph[o] ensures o in order'[..k] {
      assert k < |order| ==> order'[..k] == order[..k];
    }
  }

  /** Releasing the next object that `os` blocks: one that has not fired yet. */
  lemma Releases(graph: seq<seq<nat>>, cbs: seq<seq<Callback>>, blockedBy: seq<int>, blocking: seq<seq<nat>>,
                 callbacks: seq<seq<Callback>>, rem: seq<seq<nat>>, order: seq<nat>, active: set<nat>, fired: seq<Callback>,
                 os: nat)
    requires Consistent(graph, cbs, blockedBy, blocking, callbacks, rem, order, active, fired)
    requires os in active && rem[os] != []
    ensures var other := rem[os][0];
            && other < |graph| && other !in order && other !in active && blockedBy[other] > 0
            && Consistent(graph, cbs, blockedBy[other := blockedBy[other] - 1], blocking, callbacks,
                          rem[os := rem[os][1..]], order, active, fired)
            && Total(rem[os := rem[os][1..]]) == Total(rem) - 1
  {
    hide Count, Total, Flatten, NoDup;
    var other := rem[os][0];
    var k := |graph[os]| - |rem[os]|;
    assert other == graph[os][k];
    CountIn(rem, other);
    assert other in rem[os];
    TakeOne(rem, os);
  }

  lemma TakeOne(lists: seq<seq<nat>>, o: nat)
    requires o < |lists| && lists[o] != []
    ensures forall p: nat :: Count(lists[o := lists[o][1..]], p) == Count(lists, p) - (if lists[o][0] == p then 1 else 0)
    ensures Total(lists[o := lists[o][1..]]) == Total(lists) - 1
  {
    hide Count, Total;
    forall p: nat ensures Count(lists[o := lists[o][1..]], p) == Count(lists, p) - (if lists[o][0] == p then 1 else 0) {
      CountTake(lists, o, p);
    }
    CountTake(lists, o, 0);
  }

  lemma Finishes(graph: seq<seq<nat>>, cbs: seq<seq<Callback>>, blockedBy: seq<int>, blocking: seq<seq<nat>>,
                 callbacks: seq<seq<Callback>>, rem: seq<seq<nat>>, order: seq<nat>, active: set<nat>, fired: seq<Callback>,
                 os: nat)
    requires Consistent(graph, cbs, blockedBy, blocking, callbacks, rem, order, active, fired)
    requires os in active && rem[os] == []
    ensures Consistent(graph, cbs, blockedBy, blocking[os := []], callbacks, rem, order, active - {os}, fired)
  {
  }

  /** One more object waiting, before anything has fired. */
  lemma Waits(graph: seq<seq<nat>>, cbs: seq<seq<Callback>>, blockedBy: seq<int>, blocking: seq<seq<nat>>,
              callbacks: seq<seq<Callback>>, rem: seq<seq<nat>>, fired: seq<Callback>, os: nat, other: nat, callback: seq<Callback>)
    requires Consistent(graph, cbs, blockedBy, blocking, callbacks, rem, [], {}, fired) && os < |graph| && other < |graph|
    ensures Consistent(graph[other := graph[other] + [os]], cbs[other := cbs[other] + callback], blockedBy[os := blockedBy[os] + 1],
                       blocking[other := blocking[other] + [os]], callbacks[other := callbacks[other] + callback],
                       rem[other := rem[other] + [os]], [], {}, fired)
  {
    hide Count;
    forall p | 0 <= p < |graph| ensures Count(rem[other := rem[other] + [os]], p) == Count(rem, p) + (if os == p then 1 else 0) {
      CountAdd(rem, other, os, p);
    }
  }

  /** `objectsByID` and the fields of its objects, changed in place. */
  class Decoder {
    var blockedBy: seq<int>
    var blocking: seq<seq<nat>>
    var callbacks: seq<seq<Callback>>
    var fired: seq<Callback>

    ghost var graph: seq<seq<nat>>
    ghost var cbs: seq<seq<Callback>>
    ghost var rem: seq<seq<nat>>
    ghost var order: seq<nat>
    ghost var active: set<nat>

    ghost predicate Valid()
      reads this
    {
      Consistent(graph, cbs, blockedBy, blocking, callbacks, rem, order, active, fired)
    }

    constructor (n: nat)
      ensures Valid() && graph == seq(n, _ => []) && cbs == seq(n, _ => []) && order == [] && active == {}
    {
      blockedBy := seq(n, _ => 0);
      blocking := seq(n, _ => []);
      callbacks := seq(n, _ => []);
      fired := [];
      graph := seq(n, _ => []);
      cbs := seq(n, _ => []);
      rem := seq(n, _ => []);
      order := [];
      active := {};
      new;
      forall p | 0 <= p < n ensures Count(rem, p) == 0 {
        CountIn(rem, p);
      }
    }

    /** `os` waits for `other`; the callback runs when `other` completes. */
    method WaitFor(os: nat, other: nat, callback: seq<Callback>)
      requires Valid() && order == [] && active == {} && os < |graph| && other < |graph| && |callback| <= 1
      modifies this
      ensures Valid() && order == [] && active == {}
      ensures graph == old(graph)[other := old(graph)[other] + [os]]
      ensures cbs == old(cbs)[other := old(cbs)[other] + callback]
    {
      hide Consistent;
      Shape();
      Waits(graph, cbs, blockedBy, blocking, callbacks, rem, fired, os, other, callback);
      blockedBy := blockedBy[os := blockedBy[os] + 1];
      blocking := blocking[other := blocking[other] + [os]];
      rem := rem[other := rem[other] + [os]];
      graph := graph[other := graph[other] + [os]];
      if callback != [] {
        callbacks := callbacks[other := callbacks[other] + callback];
        cbs := cbs[other := cbs[other] + callback];
      }
      assert callback == [] ==> cbs[other] + callback == cbs[other] && callbacks[other] + callback == callbacks[other];
      assert callback == [] ==> cbs[other := cbs[other]] == cbs && callbacks[other := callbacks[other]] == callbacks;
    }

    /** Objects that wait for nothing and have not fired. */
    ghost predicate Ready(p: nat)
      requires Valid()
      reads this
    {
      p < |graph| && blockedBy[p] == 0 && p !in order
    }

    /** Fires `os` if it waits for nothing, and whatever that releases. Never enters
        an object that is still releasing others; terminates, because every nested
        call has one unreleased entry less to go. */
    method CheckComplete(os: nat)
      requires Valid() && os < |graph| && os !in active
      modifies this
      ensures Valid() && graph == old(graph) && cbs == old(cbs) && active == old(active)
      ensures old(order) <= order
      ensures forall o :: o in active ==> rem[o] == old(rem[o]) && blocking[o] == old(blocking[o])
      ensures Total(rem) <= old(Total(rem))
      ensures forall p :: Ready(p) ==> old(Ready(p)) && p != os
      decreases Total(rem)
    {
      hide Consistent;
      Shape();
      if blockedBy[os] > 0 {
        return;
      }
      ghost var waiting := os !in order;
      ghost var before := active;
      if waiting {
        Fresh(os);
        Fires(graph, cbs, blockedBy, blocking, callbacks, rem, order, active, fired, os);
        order, active := order + [os], active + {os};
      } else {
        Quiet(os);
        assert fired + callbacks[os] == fired && callbacks[os := []] == callbacks;
      }
      // Fire all callbacks.
      fired := fired + callbacks[os];
      callbacks := callbacks[os := []];
      Shape();
      // Release all blocked objects.
      var list := blocking[os];
      var i := 0;
      while i < |list|
        invariant 0 <= i <= |list| && (!waiting ==> list == [])
        invariant Valid() && graph == old(graph) && cbs == old(cbs)
        invariant |blockedBy| == |blocking| == |callbacks| == |rem| == |graph|
        invariant active == if waiting then before + {os} else before
        invariant old(order) <= order && (waiting ==> os in order)
        invariant blocking[os] == list && (waiting ==> rem[os] == list[i..])
        invariant forall o :: o in before ==> o < |graph| && rem[o] == old(rem[o]) && blocking[o] == old(blocking[o])
        invariant Total(rem) <= old(Total(rem)) - i
        invariant forall p :: Ready(p) ==> old(Ready(p)) && p != os
      {
        var other := list[i];
        Releases(graph, cbs, blockedBy, blocking, callbacks, rem, order, active, fired, os);
        blockedBy := blockedBy[other := blockedBy[other] - 1];
        rem := rem[os := rem[os][1..]];
        assert list[i..][1..] == list[i + 1..];
        CheckComplete(other);
        Shape();
        i := i + 1;
      }
      if waiting {
        Finishes(graph, cbs, blockedBy, blocking, callbacks, rem, order, active, fired, os);
        active := active - {os};
      }
      assert active == before && (!waiting ==> blocking[os := []] == blocking);
      blocking := blocking[os := []];
    }

    lemma Shape()
      requires Valid()
      ensures |cbs| == |blockedBy| == |blocking| == |callbacks| == |rem| == |graph|
      ensures forall o :: o in active ==> o in order && o < |graph|
      ensures forall p :: 0 <= p < |graph| ==> blockedBy[p] >= 0
    {
    }

    lemma Fresh(o: nat)
      requires Valid() && o < |graph| && o !in order
      ensures |blocking| == |rem| == |graph| && rem[o] == blocking[o]
    {
    }

    /** An object that has fired and released everything has nothing left to do. */
    lemma Quiet(o: nat)
      requires Valid() && o in order && o !in active && |callbacks| == |graph|
      ensures o < |graph| && callbacks[o] == [] && blocking[o] == []
    {
    }

    /** `complete`. */
    predicate Complete(o: nat)
      requires o < |blockedBy| && o < |callbacks|
      reads this
    {
      blockedBy[o] == 0 && |callbacks[o]| == 0
    }

    /** The final scan of `Deserialize`, in whatever order the map is walked. Every
        callback of a completed object has fired, once, in completion order, and the
        completed objects are the fixpoint of "all my dependencies have completed". */
    method Scan(ids: seq<nat>)
      requires Valid() && order == [] && active == {}
      requires forall o: nat :: o in ids <==> o < |graph|
      modifies this
      ensures Valid() && graph == old(graph) && cbs == old(cbs) && active == {}
      ensures fired == Flatten(cbs, order)
      ensures Fixpoint(graph, order)
      ensures |blockedBy| == |callbacks| == |graph|
      ensures forall o: nat :: o < |graph| ==> (Complete(o) <==> o in order)
      ensures forall o: nat :: o < |graph| ==> (Complete(o) <==> !BehindCycle(graph, o))
    {
      hide Consistent, BehindCycle, Fixpoint, Flatten;
      for i := 0 to |ids|
        invariant Valid() && graph == old(graph) && cbs == old(cbs) && active == {}
        invariant forall p :: Ready(p) ==> p !in ids[..i]
      {
        assert ids[i] in ids;
        CheckComplete(ids[i]);
        assert ids[..i + 1] == ids[..i] + [ids[i]];
      }
      assert ids[..|ids|] == ids;
      forall p: nat ensures !Ready(p) {
        assert p < |graph| ==> p in ids;
      }
      Settled();
      forall o: nat | o < |graph| ensures o !in order <==> BehindCycle(graph, o) {
        IncompleteAreCycles(graph, order, o);
      }
    }

    /** With nothing ready and nothing active, every object that has not fired waits
        for another one that has not. */
    lemma Settled()
      requires Valid() && active == {} && (forall p :: !Ready(p))
      ensures fired == Flatten(cbs, order)
      ensures Fixpoint(graph, order)
      ensures |blockedBy| == |callbacks| == |graph|
      ensures forall o: nat :: o < |graph| ==> (Complete(o) <==> o in order)
    {
      forall o: nat | o < |graph| && o !in order ensures Stuck(graph, order, o) {
        assert !Ready(o);
        CountIn(rem, o);
        var q :| 0 <= q < |rem| && o in rem[q];
        assert q !in order && WaitsFor(graph, o, q);
      }
      forall o: nat | o < |graph| ensures Complete(o) <==> o in order {
        assert !Ready(o);
      }
    }
  }

  // ----- cycles -----

  /** `p` waits for `q`. */
  ghost predicate WaitsFor(graph: seq<seq<nat>>, p: nat, q: nat) {
    p < |graph| && q < |graph| && p in graph[q]
  }

  /** A chain of objects, each waiting for the next. */
  ghost predicate Chain(graph: seq<seq<nat>>, path: seq<nat>) {
    |path| > 0 && forall i :: 0 <= i < |path| - 1 ==> WaitsFor(graph, path[i], path[i + 1])
  }

  /** `p` is on a cycle of waits or waits, possibly through others, for one:
      some chain from `p` comes back to an object it has passed. */
  ghost predicate BehindCycle(graph: seq<seq<nat>>, p: nat) {
    exists path :: Chain(graph, path) && path[0] == p && Repeats(path)
  }

  ghost predicate Repeats(path: seq<nat>) {
    exists i, j :: 0 <= i < j < |path| && path[i] == path[j]
  }

  ghost predicate Stuck(graph: seq<seq<nat>>, order: seq<nat>, p: nat) {
    exists q :: WaitsFor(graph, p, q) && q !in order
  }

  /** The fixpoint the scan ends in: done objects wait only for done ones, in the
      order they fired, and every other object waits for one that is not done. */
  ghost predicate Fixpoint(graph: seq<seq<nat>>, order: seq<nat>) {
    && NoDup(order)
    && (forall k: nat, q :: k < |order| && WaitsFor(graph, order[k], q) ==> q in order[..k])
    && forall p: nat :: p < |graph| && p !in order ==> Stuck(graph, order, p)
  }

  lemma ChainTail(graph: seq<seq<nat>>, path: seq<nat>)
    requires Chain(graph, path) && |path| > 1
    ensures WaitsFor(graph, path[0], path[1]) && Chain(graph, path[1..])
  {
    var rest := path[1..];
    forall i | 0 <= i < |rest| - 1 ensures WaitsFor(graph, rest[i], rest[i + 1]) {
      assert WaitsFor(graph, path[i + 1], path[i + 1 + 1]);
    }
  }

  /** Along a chain from a fired object, firing times strictly decrease. */
  lemma {:induction false} ChainDescends(graph: seq<seq<nat>>, order: seq<nat>, path: seq<nat>, k: nat)
    requires Fixpoint(graph, order) && Chain(graph, path) && k < |order| && path[0] == order[k]
    ensures !Repeats(path)
    ensures forall i :: 0 < i < |path| ==> path[i] in order[..k]
    decreases |path|
  {
    if |path| > 1 {
      ChainTail(graph, path);
      var rest := path[1..];
      var q :| 0 <= q < k && order[q] == path[1];
      ChainDescends(graph, order, rest, q);
      forall i | 0 < i < |path| ensures path[i] in order[..k] {
        assert path[i] == rest[i - 1];
        assert order[..q] <= order[..k];
      }
      forall i, j | 0 <= i < j < |path| ensures path[i] != path[j] {
        assert i > 0 ==> path[i] == rest[i - 1] && path[j] == rest[j - 1];
        assert i == 0 ==> path[j] in order[..k] && order[k] !in order[..k];
      }
    }
  }

  lemma ChainCons(graph: seq<seq<nat>>, p: nat, rest: seq<nat>)
    requires Chain(graph, rest) && WaitsFor(graph, p, rest[0])
    ensures Chain(graph, [p] + rest)
  {
    var path := [p] + rest;
    forall i | 0 <= i < |path| - 1 ensures WaitsFor(graph, path[i], path[i + 1]) {
      assert i > 0 ==> path[i] == rest[i - 1] && path[i + 1] == rest[i - 1 + 1];
    }
  }

  /** A chain of any length through objects that never fire. */
  lemma {:induction false} StuckChain(graph: seq<seq<nat>>, order: seq<nat>, p: nat, n: nat) returns (path: seq<nat>)
    requires Fixpoint(graph, order) && p < |graph| && p !in order
    ensures Chain(graph, path) && |path| == n + 1 && path[0] == p
    ensures forall i :: 0 <= i < |path| ==> path[i] < |graph|
    decreases n
  {
    if n == 0 {
      path := [p];
    } else {
      assert Stuck(graph, order, p);
      var q :| WaitsFor(graph, p, q) && q !in order;
      var rest := StuckChain(graph, order, q, n - 1);
      path := [p] + rest;
      ChainCons(graph, p, rest);
    }
  }

  lemma {:induction false} Below(n: nat) returns (s: set<nat>)
    ensures |s| == n && forall i: nat :: i in s <==> i < n
    decreases n
  {
    if n == 0 {
      s := {};
    } else {
      s := Below(n - 1);
      s := s + {n - 1};
    }
  }

  /** What the scan leaves incomplete is exactly what is on a cycle or behind one. */
  lemma IncompleteAreCycles(graph: seq<seq<nat>>, order: seq<nat>, p: nat)
    requires Fixpoint(graph, order) && p < |graph|
    ensures p !in order <==> BehindCycle(graph, p)
  {
    if p in order {
      var k :| 0 <= k < |order| && order[k] == p;
      forall path | Chain(graph, path) && path[0] == p ensures !Repeats(path) {
        ChainDescends(graph, order, path, k);
      }
    } else {
      var path := StuckChain(graph, order, p, |graph|);
      var all := Below(|graph|);
      var i, j := Pigeonhole(path, all);
      assert Repeats(path);
    }
  }
}

/** Parallel compression with ordered output: the round-robin worker pool as a step
    machine, and the chained-hash framing that its results are written in.
    Compression and HMAC are parameters. */
module Compressio {

  // ----- the worker pool -----

  /** One worker: its one-slot input channel, the item it works on, its one-slot output channel. */
  datatype Worker<A, B> = Worker(input: seq<A>, busy: seq<A>, output: seq<B>)

  datatype Pool<A, B> = Pool(
    workers: seq<Worker<A, B>>,
    nextInput: nat,
    nextOutput: nat,
    scheduled: seq<A>,    // everything handed to schedule, in order
    delivered: seq<B>)    // everything handed to the callback, in order

  datatype Action<A> = Schedule(item: A) | Take(worker: nat) | Finish(worker: nat) | Deliver

  function InitPool<A, B>(n: nat): Pool<A, B> {
    Pool(seq(n, _ => Worker([], [], [])), 0, 0, [], [])
  }

  /** `select` in `schedule` and the blocking channel operations of a worker. */
  predicate Enabled<A, B>(p: Pool<A, B>, a: Action<A>)
    requires |p.workers| > 0
  {
    match a
    case Schedule(_) => |p.workers[(p.nextInput + 1) % |p.workers|].input| == 0
    case Take(i) => i < |p.workers| && |p.workers[i].input| == 1 && |p.workers[i].busy| == 0
    case Finish(i) => i < |p.workers| && |p.workers[i].busy| == 1 && |p.workers[i].output| == 0
    case Deliver => p.nextOutput != p.nextInput && |p.workers[(p.nextOutput + 1) % |p.workers|].output| == 1
  }

  function Step<A, B>(p: Pool<A, B>, a: Action<A>, f: A -> B): Pool<A, B>
    requires |p.workers| > 0 && Enabled(p, a)
  {
    match a
    case Schedule(c) =>
      var i := (p.nextInput + 1) % |p.workers|;
      p.(workers := p.workers[i := p.workers[i].(input := [c])], nextInput := p.nextInput + 1, scheduled := p.scheduled + [c])
    case Take(i) =>
      p.(workers := p.workers[i := p.workers[i].(input := [], busy := p.workers[i].input)])
    case Finish(i) =>
      p.(workers := p.workers[i := p.workers[i].(busy := [], output := [f(p.workers[i].busy[0])])])
    case Deliver =>
      var i := (p.nextOutput + 1) % |p.workers|;
      p.(workers := p.workers[i := p.workers[i].(output := [])], nextOutput := p.nextOutput + 1,
         delivered := p.delivered + p.workers[i].output)
  }

  /** The result of the item in a slot, if there is one. */
  ghost function Result<A, B>(f: A -> B, slot: seq<A>): seq<B> {
    if slot == [] then [] else [f(slot[0])]
  }

  /** The results of items `lo` to `hi` that belong to worker `i` of `n`, in order. */
  ghost function Lane<A, B>(f: A -> B, q: seq<A>, lo: nat, hi: nat, i: nat, n: nat): seq<B>
    requires lo <= hi <= |q| && n > 0
    decreases hi
  {
    if lo == hi then []
    else Lane(f, q, lo, hi - 1, i, n) + (if hi % n == i then [f(q[hi - 1])] else [])
  }

  lemma {:induction false} LaneHead<A, B>(f: A -> B, q: seq<A>, lo: nat, hi: nat, i: nat, n: nat)
    requires lo < hi <= |q| && n > 0
    ensures Lane(f, q, lo, hi, i, n) == (if (lo + 1) % n == i then [f(q[lo])] else []) + Lane(f, q, lo + 1, hi, i, n)
    decreases hi
  {
    if hi > lo + 1 {
      LaneHead(f, q, lo, hi - 1, i, n);
    }
  }

  lemma {:induction false} LaneStays<A, B>(f: A -> B, q: seq<A>, c: A, lo: nat, hi: nat, i: nat, n: nat)
    requires lo <= hi <= |q| && n > 0
    ensures Lane(f, q + [c], lo, hi, i, n) == Lane(f, q, lo, hi, i, n)
    decreases hi
  {
    if lo < hi {
      LaneStays(f, q, c, lo, hi - 1, i, n);
    }
  }

  /** What worker `w` holds, oldest first, as results. */
  ghost function Held<A, B>(w: Worker<A, B>, f: A -> B): seq<B> {
    w.output + Result(f, w.busy) + Result(f, w.input)
  }

  ghost predicate Slots<A, B>(w: Worker<A, B>) {
    |w.input| <= 1 && |w.busy| <= 1 && |w.output| <= 1
  }

  /** Each worker holds exactly its share of what is scheduled and not yet delivered. */
  ghost predicate Shares<A, B>(p: Pool<A, B>, f: A -> B, i: nat)
    requires i < |p.workers| && p.nextOutput <= p.nextInput == |p.scheduled|
  {
    Slots(p.workers[i]) && Held(p.workers[i], f) == Lane(f, p.scheduled, p.nextOutput, p.nextInput, i, |p.workers|)
  }

  ghost predicate Inv<A, B>(p: Pool<A, B>, f: A -> B) {
    && |p.workers| > 0
    && p.nextOutput <= p.nextInput == |p.scheduled|
    && |p.delivered| == p.nextOutput
    && (forall k :: 0 <= k < |p.delivered| ==> p.delivered[k] == f(p.scheduled[k]))
    && forall i: nat :: i < |p.workers| ==> Shares(p, f, i)
  }

  lemma ScheduleKeeps<A, B>(p: Pool<A, B>, c: A, f: A -> B)
    requires Inv(p, f) && Enabled(p, Schedule(c))
    ensures Inv(Step(p, Schedule(c), f), f)
  {
    var p' := Step(p, Schedule(c), f);
    forall i: nat | i < |p.workers| ensures Shares(p', f, i) {
      assert Shares(p, f, i);
      LaneStays(f, p.scheduled, c, p.nextOutput, p.nextInput, i, |p.workers|);
    }
  }

  lemma WorkKeeps<A, B>(p: Pool<A, B>, a: Action<A>, f: A -> B)
    requires Inv(p, f) && Enabled(p, a) && (a.Take? || a.Finish?)
    ensures Inv(Step(p, a, f), f)
  {
    var p' := Step(p, a, f);
    forall i: nat | i < |p.workers| ensures Shares(p', f, i) {
      assert Shares(p, f, i);
    }
  }

  lemma DeliverKeeps<A, B>(p: Pool<A, B>, f: A -> B)
    requires Inv(p, f) && Enabled(p, Deliver)
    ensures Inv(Step(p, Deliver, f), f)
  {
    var p' := Step(p, Deliver, f);
    var n := |p.workers|;
    var k := (p.nextOutput + 1) % n;
    forall i: nat | i < n ensures Shares(p', f, i) {
      assert Shares(p, f, i);
      LaneHead(f, p.scheduled, p.nextOutput, p.nextInput, i, n);
      if i == k {
        assert Held(p.workers[i], f) == [p.workers[i].output[0]] + Held(p'.workers[i], f);
        assert Held(p.workers[i], f)[1..] == Held(p'.workers[i], f);
      }
    }
    assert Shares(p, f, k);
    LaneHead(f, p.scheduled, p.nextOutput, p.nextInput, k, n);
    assert Held(p.workers[k], f)[0] == p.workers[k].output[0];
  }

  lemma StepKeeps<A, B>(p: Pool<A, B>, a: Action<A>, f: A -> B)
    requires Inv(p, f) && Enabled(p, a)
    ensures Inv(Step(p, a, f), f)
  {
    match a
    case Schedule(c) => ScheduleKeeps(p, c, f);
    case Deliver => DeliverKeeps(p, f);
    case _ => WorkKeeps(p, a, f);
  }

  ghost predicate Runs<A, B>(p: Pool<A, B>, actions: seq<Action<A>>, f: A -> B)
    requires Inv(p, f)
    decreases |actions|
  {
    actions == [] ||
    (Enabled(p, actions[0]) && (StepKeeps(p, actions[0], f); Runs(Step(p, actions[0], f), actions[1..], f)))
  }

  ghost function After<A, B>(p: Pool<A, B>, actions: seq<Action<A>>, f: A -> B): (q: Pool<A, B>)
    requires Inv(p, f) && Runs(p, actions, f)
    ensures Inv(q, f)
    decreases |actions|
  {
    if actions == [] then p
    else
      StepKeeps(p, actions[0], f);
      After(Step(p, actions[0], f), actions[1..], f)
  }

  lemma InitInv<A, B>(n: nat, f: A -> B)
    requires n > 0
    ensures Inv(InitPool<A, B>(n), f)
  {
  }

  /** A run of a fresh pool of `n` workers. */
  ghost predicate Possible<A, B>(n: nat, actions: seq<Action<A>>, f: A -> B) {
    n > 0 && (InitInv<A, B>(n, f); Runs(InitPool<A, B>(n), actions, f))
  }

  ghost function Final<A, B>(n: nat, actions: seq<Action<A>>, f: A -> B): (p: Pool<A, B>)
    requires Possible<A, B>(n, actions, f)
    ensures Inv(p, f)
  {
    InitInv<A, B>(n, f);
    After(InitPool<A, B>(n), actions, f)
  }

  /** Ordered parallelism: for any number of workers and any interleaving, the k-th
      result delivered is that of the k-th item scheduled, and when the counters
      meet everything has been delivered. */
  lemma DeliveredInOrder<A, B>(n: nat, actions: seq<Action<A>>, f: A -> B)
    requires Possible<A, B>(n, actions, f)
    ensures var p := Final<A, B>(n, actions, f);
            && |p.delivered| <= |p.scheduled|
            && (forall k :: 0 <= k < |p.delivered| ==> p.delivered[k] == f(p.scheduled[k]))
            && (p.nextOutput == p.nextInput ==> |p.delivered| == |p.scheduled|)
  {
    assert Inv(Final<A, B>(n, actions, f), f);
  }

  /** The pool never jams: while something is undelivered, some step that is not a
      new `schedule` can happen. */
  lemma NeverJams<A, B>(p: Pool<A, B>, f: A -> B)
    requires Inv(p, f) && p.nextOutput < p.nextInput
    ensures exists a: Action<A> :: !a.Schedule? && Enabled(p, a)
  {
    var n := |p.workers|;
    var i := (p.nextOutput + 1) % n;
    var w := p.workers[i];
    assert Shares(p, f, i);
    LaneHead(f, p.scheduled, p.nextOutput, p.nextInput, i, n);
    assert Held(w, f) != [];
    if |w.output| == 1 {
      assert Enabled(p, Deliver);
    } else if |w.busy| == 1 {
      assert Enabled(p, Finish(i));
    } else {
      assert Enabled(p, Take(i));
    }
  }
}

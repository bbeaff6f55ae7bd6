/** The abortable mutex and the try-lock mutex. Both keep an `int32` and a
    one-slot channel and share `Lock` and `Unlock`; one machine has the steps of
    both, so what holds of it holds of each. */
module Mutex {
  type Tid = nat

  datatype Pc =
    | LockAdd                  // atomic.AddInt32(&m.v, -1)
    | Load                     // top of the loop: v >= 0 ?
    | Swap                     // atomic.SwapInt32(&m.v, -1)
    | Wait                     // blocked on the channel, or on the abort channel
    | TryLoad                  // TryLock: v <= 0 ?
    | TryCas                   // TryLock: CompareAndSwap(1, 0)
    | Holding
    | Send                     // Unlock saw waiters: non-blocking send

  datatype State = State(v: int, token: bool, pcs: map<Tid, Pc>)

  datatype Action = CallLock(t: Tid) | CallTryLock(t: Tid) | Unlock(t: Tid) | Abort(t: Tid) | Go(t: Tid)

  function Init(): State { State(1, false, map[]) }

  predicate At(s: State, t: Tid, p: Pc) {
    t in s.pcs && s.pcs[t] == p
  }

  /** A thread blocked in the channel goes on only with the token. */
  predicate Enabled(s: State, a: Action) {
    match a
    case CallLock(t) => t !in s.pcs
    case CallTryLock(t) => t !in s.pcs
    case Unlock(t) => At(s, t, Holding)
    case Abort(t) => At(s, t, Wait)
    case Go(t) => t in s.pcs && s.pcs[t] != Holding && (s.pcs[t] == Wait ==> s.token)
  }

  function Move(s: State, t: Tid, p: Pc): State { s.(pcs := s.pcs[t := p]) }

  function Leave(s: State, t: Tid): State { s.(pcs := s.pcs - {t}) }

  function Step(s: State, a: Action): State
    requires Enabled(s, a)
  {
    match a
    case CallLock(t) => Move(s, t, LockAdd)
    case CallTryLock(t) => Move(s, t, TryLoad)
    case Abort(t) => Leave(s, t)
    case Unlock(t) => if s.v == 0 then Leave(s.(v := 1), t) else Move(s.(v := 1), t, Send)
    case Go(t) =>
      match s.pcs[t] {
        case LockAdd => Move(s.(v := s.v - 1), t, if s.v - 1 == 0 then Holding else Load)
        case Load => Move(s, t, if s.v >= 0 then Swap else Wait)
        case Swap => Move(s.(v := -1), t, if s.v == 1 then Holding else Wait)
        case Wait => Move(s.(token := false), t, Load)
        case TryLoad => if s.v <= 0 then Leave(s, t) else Move(s, t, TryCas)
        case TryCas => if s.v == 1 then Move(s.(v := 0), t, Holding) else Leave(s, t)
        case Send => Leave(s.(token := true), t)
        case Holding => s
      }
  }

  /** Awake in the loop: will look at `v` before it blocks again. */
  predicate Awake(s: State, t: Tid) {
    At(s, t, Load) || At(s, t, Swap)
  }

  /** Someone will see to a blocked waiter. */
  ghost predicate Attended(s: State) {
    || s.v < 0
    || s.token
    || (exists t :: Awake(s, t))
    || exists t :: At(s, t, Send)
  }

  ghost predicate Inv(s: State) {
    && s.v <= 1
    && (s.v == 1 <==> forall t :: !At(s, t, Holding))
    && (forall t, u :: At(s, t, Holding) && At(s, u, Holding) ==> t == u)
    && ((exists t :: At(s, t, Wait)) ==> Attended(s))
  }

  /** Only the acting thread's position changes. */
  lemma OthersStay(s: State, a: Action)
    requires Enabled(s, a)
    ensures forall u, p {:trigger At(Step(s, a), u, p)} {:trigger At(s, u, p)} :: u != a.t ==> (At(Step(s, a), u, p) <==> At(s, u, p))
  {
  }

  lemma SafetyKeeps(s: State, a: Action)
    requires Inv(s) && Enabled(s, a)
    ensures var s' := Step(s, a);
            && s'.v <= 1
            && (s'.v == 1 <==> forall t :: !At(s', t, Holding))
            && (forall t, u :: At(s', t, Holding) && At(s', u, Holding) ==> t == u)
  {
    var s' := Step(s, a);
    OthersStay(s, a);
    var t := a.t;
    if At(s', t, Holding) {
      if !At(s, t, Holding) {
        assert forall u :: !At(s, u, Holding);
      }
    } else if s.v != 1 && !At(s, t, Holding) {
      var h :| At(s, h, Holding);
      assert At(s', h, Holding);
    }
  }

  lemma AttendedKeeps(s: State, a: Action)
    requires Inv(s) && Enabled(s, a)
    ensures (exists t :: At(Step(s, a), t, Wait)) ==> Attended(Step(s, a))
  {
    var s' := Step(s, a);
    OthersStay(s, a);
    if w :| At(s', w, Wait) {
      if w == a.t {
        assert s'.v < 0;
      } else {
        assert At(s, w, Wait) && Attended(s);
        if a.Unlock? && s.v != 0 {
          assert At(s', a.t, Send);
        } else if a.Go? && s.pcs[a.t] == Wait {
          assert Awake(s', a.t);
        } else if t :| Awake(s, t) {
          assert t != a.t ==> Awake(s', t);
          assert t == a.t ==> Awake(s', t) || s'.v < 0;
        } else if t :| At(s, t, Send) {
          assert t != a.t ==> At(s', t, Send);
          assert t == a.t ==> s'.token;
        }
      }
    }
  }

  lemma StepKeeps(s: State, a: Action)
    requires Inv(s) && Enabled(s, a)
    ensures Inv(Step(s, a))
  {
    SafetyKeeps(s, a);
    AttendedKeeps(s, a);
  }

  ghost predicate Runs(s: State, actions: seq<Action>)
    decreases |actions|
  {
    actions == [] || (Enabled(s, actions[0]) && Runs(Step(s, actions[0]), actions[1..]))
  }

  ghost function After(s: State, actions: seq<Action>): State
    requires Runs(s, actions)
    decreases |actions|
  {
    if actions == [] then s else After(Step(s, actions[0]), actions[1..])
  }

  lemma {:induction false} RunKeeps(s: State, actions: seq<Action>)
    requires Inv(s) && Runs(s, actions)
    ensures Inv(After(s, actions))
    decreases |actions|
  {
    if actions != [] {
      StepKeeps(s, actions[0]);
      RunKeeps(Step(s, actions[0]), actions[1..]);
    }
  }

  /** In every reachable state at most one thread holds the lock, and `v` is 1
      exactly when none does. */
  lemma MutualExclusion(actions: seq<Action>, t: Tid, u: Tid)
    requires Runs(Init(), actions)
    ensures var s := After(Init(), actions);
            && (At(s, t, Holding) && At(s, u, Holding) ==> t == u)
            && (s.v == 1 <==> forall x :: !At(s, x, Holding))
  {
    RunKeeps(Init(), actions);
  }

  /** No waiter is forgotten, even when others abort: if the lock is free and a
      thread is blocked, then some thread other than a blocked one can take a
      step, or the blocked thread can take the token. */
  lemma NoForgottenWaiter(actions: seq<Action>, w: Tid)
    requires Runs(Init(), actions) && At(After(Init(), actions), w, Wait)
    ensures var s := After(Init(), actions);
            && Attended(s)
            && (s.v == 1 ==> Enabled(s, Go(w)) || exists t :: (Awake(s, t) || At(s, t, Send)) && Enabled(s, Go(t)))
  {
    RunKeeps(Init(), actions);
    var s := After(Init(), actions);
    if s.v == 1 && !s.token {
      if t :| Awake(s, t) {
        assert Enabled(s, Go(t));
      } else {
        var t :| At(s, t, Send);
        assert Enabled(s, Go(t));
      }
    }
  }

  // ----- answers -----

  ghost predicate Held(s: State) {
    exists t :: At(s, t, Holding)
  }

  predicate Trying(s: State, t: Tid) {
    At(s, t, TryLoad) || At(s, t, TryCas)
  }

  predicate Locking(s: State, t: Tid) {
    At(s, t, LockAdd) || At(s, t, Load) || At(s, t, Swap) || At(s, t, Wait)
  }

  /** In every run: a `TryLock` gives up only at a moment when the mutex is held, and a thread gets
      the mutex only when it is free; `Lock` ends with the mutex, unless it is aborted while it
      waits. */
  lemma AnswersAreTrue(actions: seq<Action>, a: Action)
    requires Runs(Init(), actions) && Enabled(After(Init(), actions), a)
    ensures var s := After(Init(), actions); var s' := Step(s, a);
            && (Trying(s, a.t) && a.t !in s'.pcs ==> Held(s))
            && (!At(s, a.t, Holding) && At(s', a.t, Holding) ==> !Held(s))
            && (Locking(s, a.t) && !Locking(s', a.t) ==> At(s', a.t, Holding) || a == Abort(a.t))
            && (At(s, a.t, Holding) ==> !Held(s'))
  {
    RunKeeps(Init(), actions);
    var s := After(Init(), actions);
    OthersStay(s, a);
    if s.v != 1 { var h :| At(s, h, Holding); }
  }

  /** A free mutex, without others interfering: `TryLock` gets it in two steps, `Lock` in one. */
  lemma FreeIsTaken(actions: seq<Action>, t: Tid)
    requires Runs(Init(), actions) && !Held(After(Init(), actions)) && t !in After(Init(), actions).pcs
    ensures var s := After(Init(), actions);
            && Runs(s, [CallTryLock(t), Go(t), Go(t)]) && At(After(s, [CallTryLock(t), Go(t), Go(t)]), t, Holding)
            && Runs(s, [CallLock(t), Go(t)]) && At(After(s, [CallLock(t), Go(t)]), t, Holding)
  {
    RunKeeps(Init(), actions);
    var s := After(Init(), actions);
    assert s.v == 1;
    Next(s, CallTryLock(t), [Go(t), Go(t)]);
    Next(Step(s, CallTryLock(t)), Go(t), [Go(t)]);
    Next(Step(Step(s, CallTryLock(t)), Go(t)), Go(t), []);
    Next(s, CallLock(t), [Go(t)]);
    Next(Step(s, CallLock(t)), Go(t), []);
  }

  lemma Next(s: State, a: Action, rest: seq<Action>)
    requires Enabled(s, a)
    ensures Runs(s, [a] + rest) <==> Runs(Step(s, a), rest)
    ensures Runs(Step(s, a), rest) ==> After(s, [a] + rest) == After(Step(s, a), rest)
  {
    assert ([a] + rest)[1..] == rest;
  }

  /** Someone holds the mutex after these steps. */
  ghost predicate LeadsToHolder(s: State, steps: seq<Action>) {
    && Runs(s, steps) && Held(After(s, steps))
    && forall i :: 0 <= i < |steps| ==> steps[i].Go?
  }

  lemma LeadsOn(s: State, t: Tid, rest: seq<Action>)
    requires Enabled(s, Go(t)) && LeadsToHolder(Step(s, Go(t)), rest)
    ensures LeadsToHolder(s, [Go(t)] + rest)
  {
    Next(s, Go(t), rest);
  }

  lemma SwapTakes(s: State, t: Tid)
    requires s.v == 1 && At(s, t, Swap)
    ensures LeadsToHolder(s, [Go(t)])
  {
    assert At(Step(s, Go(t)), t, Holding);
    LeadsOn(s, t, []);
    assert [Go(t)] + [] == [Go(t)];
  }

  lemma AwakeTakes(s: State, t: Tid) returns (steps: seq<Action>)
    requires s.v == 1 && Awake(s, t)
    ensures LeadsToHolder(s, steps) && |steps| <= 2
  {
    if At(s, t, Swap) {
      SwapTakes(s, t);
      steps := [Go(t)];
    } else {
      SwapTakes(Step(s, Go(t)), t);
      LeadsOn(s, t, [Go(t)]);
      steps := [Go(t)] + [Go(t)];
    }
  }

  /** In every run: when the mutex is free and a thread is blocked on it, threads already under way
      get it in four steps at most, without any new call. */
  lemma WaitersAreServed(actions: seq<Action>, w: Tid) returns (steps: seq<Action>)
    requires Runs(Init(), actions) && At(After(Init(), actions), w, Wait) && !Held(After(Init(), actions))
    ensures LeadsToHolder(After(Init(), actions), steps) && |steps| <= 4
  {
    RunKeeps(Init(), actions);
    var s := After(Init(), actions);
    if t :| Awake(s, t) {
      steps := AwakeTakes(s, t);
    } else if s.token {
      steps := TokenTaken(s, w);
    } else {
      var t :| At(s, t, Send);
      steps := TokenTaken(Step(s, Go(t)), w);
      LeadsOn(s, t, steps);
      steps := [Go(t)] + steps;
    }
  }

  lemma TokenTaken(s: State, w: Tid) returns (steps: seq<Action>)
    requires s.v == 1 && At(s, w, Wait) && s.token
    ensures LeadsToHolder(s, steps) && |steps| <= 3
  {
    steps := AwakeTakes(Step(s, Go(w)), w);
    LeadsOn(s, w, steps);
    steps := [Go(w)] + steps;
  }

  // ----- wakeups -----

  predicate IsWake(s: State, a: Action) {
    a.Go? && At(s, a.t, Wait)
  }

  predicate IsSend(s: State, a: Action) {
    a.Go? && At(s, a.t, Send)
  }

  ghost function Wakes(s: State, actions: seq<Action>): nat
    requires Runs(s, actions)
    decreases |actions|
  {
    if actions == [] then 0 else (if IsWake(s, actions[0]) then 1 else 0) + Wakes(Step(s, actions[0]), actions[1..])
  }

  ghost function Sends(s: State, actions: seq<Action>): nat
    requires Runs(s, actions)
    decreases |actions|
  {
    if actions == [] then 0 else (if IsSend(s, actions[0]) then 1 else 0) + Sends(Step(s, actions[0]), actions[1..])
  }

  lemma {:induction false} WakesFrom(s: State, actions: seq<Action>)
    requires Runs(s, actions)
    ensures Wakes(s, actions) + (if After(s, actions).token then 1 else 0) <= Sends(s, actions) + (if s.token then 1 else 0)
    decreases |actions|
  {
    if actions != [] { WakesFrom(Step(s, actions[0]), actions[1..]); }
  }

  /** In every run: no waiter is woken but by an unlocker that saw waiters, one for one. */
  lemma WakesAreSent(actions: seq<Action>)
    requires Runs(Init(), actions)
    ensures Wakes(Init(), actions) + (if After(Init(), actions).token then 1 else 0) <= Sends(Init(), actions)
  {
    WakesFrom(Init(), actions);
  }
}

/** The gate: users enter until it is closed, and the closer waits for those
    inside. `userCount` packs the closed bit and the number of users. */
module Gate {
  const CLOSED: int := 0x8000_0000

  type Tid = nat

  datatype Channel = Nil | Open | Done

  datatype UserPc =
    | EnterLoad
    | EnterCas(v: int)
    | Inside
    | LeaveLoad
    | LeaveCas(v: int)
    | CloseDone     // left last: close(g.done)

  datatype CloserPc =
    | Idle
    | CloseLoad
    | CloseCas(v: int)
    | WaitDone
    | Returned

  datatype State = State(
    userCount: int,
    done: Channel,
    users: map<Tid, UserPc>,
    inside: set<Tid>,      // entered, and not yet left
    closer: CloserPc,
    closes: nat)           // how often close(g.done) was executed

  datatype Action = CallEnter(t: Tid) | CallLeave(t: Tid) | User(t: Tid) | CallClose | Closer

  function Init(): State { State(0, Nil, map[], {}, Idle, 0) }

  predicate At(s: State, t: Tid, p: UserPc) {
    t in s.users && s.users[t] == p
  }

  /** `Leave` is called only by a user that is inside; one closer; fewer than 2^31 users. */
  predicate Enabled(s: State, a: Action) {
    match a
    case CallEnter(t) => t !in s.users
    case CallLeave(t) => At(s, t, Inside)
    case User(t) => t in s.users && s.users[t] != Inside && (s.users[t].EnterCas? ==> |s.inside| + 1 < CLOSED)
    case CallClose => s.closer.Idle?
    case Closer => s.closer.CloseLoad? || s.closer.CloseCas? || (s.closer.WaitDone? && s.done.Done?)
  }

  function Move(s: State, t: Tid, p: UserPc): State { s.(users := s.users[t := p]) }

  function Gone(s: State, t: Tid): State { s.(users := s.users - {t}) }

  /** The source panics: leaving with a zero count, or closing a channel that is nil or closed. */
  predicate Panics(s: State, a: Action) {
    a.User? && a.t in s.users &&
    match s.users[a.t]
    case LeaveLoad => Users(s.userCount) == 0
    case CloseDone => s.done != Open
    case _ => false
  }

  function Users(v: int): int { if v >= CLOSED then v - CLOSED else v }

  predicate IsClosed(v: int) { v >= CLOSED }

  function Step(s: State, a: Action): State
    requires Enabled(s, a)
  {
    match a
    case CallEnter(t) => Move(s, t, EnterLoad)
    case CallLeave(t) => Move(s, t, LeaveLoad)
    case CallClose => s.(closer := CloseLoad)
    case User(t) =>
      match s.users[t] {
        case EnterLoad => if IsClosed(s.userCount) then Gone(s, t) else Move(s, t, EnterCas(s.userCount))
        case EnterCas(v) =>
          if s.userCount == v then Move(s.(userCount := v + 1, inside := s.inside + {t}), t, Inside)
          else Move(s, t, EnterLoad)
        case LeaveLoad => Move(s, t, LeaveCas(s.userCount))
        case LeaveCas(v) =>
          if s.userCount == v then
            var s' := s.(userCount := v - 1, inside := s.inside - {t});
            if v == CLOSED + 1 then Move(s', t, CloseDone) else Gone(s', t)
          else Move(s, t, LeaveLoad)
        case CloseDone => Gone(s.(done := Done, closes := s.closes + 1), t)
        case Inside => s
      }
    case Closer =>
      match s.closer {
        case CloseLoad =>
          s.(done := if Users(s.userCount) != 0 && s.done == Nil then Open else s.done, closer := CloseCas(s.userCount))
        case CloseCas(v) =>
          if s.userCount == v then
            s.(userCount := if IsClosed(v) then v else v + CLOSED, closer := if Users(v) != 0 then WaitDone else Returned)
          else s.(closer := CloseLoad)
        case WaitDone => s.(closer := Returned)
        case _ => s
      }
  }

  /** A user that has entered and not yet left. */
  predicate HasEntered(s: State, t: Tid) {
    t in s.users && (s.users[t].Inside? || s.users[t].LeaveLoad? || s.users[t].LeaveCas?)
  }

  ghost predicate Inv(s: State) {
    && |s.inside| < CLOSED
    && (s.userCount == |s.inside| || s.userCount == |s.inside| + CLOSED)
    && (IsClosed(s.userCount) <==> s.closer.WaitDone? || s.closer.Returned?)
    && (forall t :: t in s.inside <==> HasEntered(s, t))
    && (forall t :: t in s.users && s.users[t].EnterCas? ==> 0 <= s.users[t].v < CLOSED)
    && (s.closer.CloseCas? ==> 0 <= s.closer.v < CLOSED && (s.closer.v != 0 ==> s.done == Open))
    && (s.done == Done <==> s.closes == 1) && s.closes <= 1
    && (forall t :: At(s, t, CloseDone) ==> s.inside == {} && IsClosed(s.userCount) && s.done == Open)
    && (forall t, u :: At(s, t, CloseDone) && At(s, u, CloseDone) ==> t == u)
    && (IsClosed(s.userCount) && s.inside != {} ==> s.done == Open && s.closer.WaitDone?)
    && (s.done == Done ==> s.inside == {} && IsClosed(s.userCount))
    && (s.closer.WaitDone? && s.inside == {} && s.done != Done ==> exists t :: At(s, t, CloseDone))
    && (s.closer.Returned? ==> s.inside == {} && forall t :: !At(s, t, CloseDone))
  }

  lemma UserStays(s: State, s': State, t: Tid)
    requires s'.users - {t} == s.users - {t}
    ensures forall u {:trigger HasEntered(s', u)} {:trigger HasEntered(s, u)} :: u != t ==> (HasEntered(s', u) <==> HasEntered(s, u))
    ensures forall u, p {:trigger At(s', u, p)} {:trigger At(s, u, p)} :: u != t ==> (At(s', u, p) <==> At(s, u, p))
    ensures forall u :: u != t ==> (u in s'.users <==> u in s.users) && (u in s.users ==> s'.users[u] == s.users[u])
  {
    forall u | u != t ensures (u in s'.users <==> u in s.users) && (u in s.users ==> s'.users[u] == s.users[u]) {
      assert u in s'.users <==> u in s'.users - {t};
      assert u in s.users <==> u in s.users - {t};
      assert u in s.users ==> (s.users - {t})[u] == s.users[u];
      assert u in s'.users ==> (s'.users - {t})[u] == s'.users[u];
    }
  }

  lemma CallKeeps(s: State, a: Action)
    requires Inv(s) && Enabled(s, a) && (a.CallEnter? || a.CallLeave?)
    ensures Inv(Step(s, a))
  {
    UserStays(s, Step(s, a), a.t);
    if s.closer.WaitDone? && s.inside == {} && s.done != Done {
      var u :| At(s, u, CloseDone);
      assert At(Step(s, a), u, CloseDone);
    }
  }

  lemma EnterKeeps(s: State, t: Tid)
    requires Inv(s) && Enabled(s, User(t)) && (s.users[t].EnterLoad? || s.users[t].EnterCas?)
    ensures Inv(Step(s, User(t)))
  {
    var s' := Step(s, User(t));
    UserStays(s, s', t);
    if s.closer.WaitDone? && s.inside == {} && s.done != Done {
      var u :| At(s, u, CloseDone);
      assert At(s', u, CloseDone);
    }
  }

  lemma LeaveKeeps(s: State, t: Tid)
    requires Inv(s) && t in s.users && (s.users[t].LeaveLoad? || s.users[t].LeaveCas?)
    ensures Inv(Step(s, User(t))) && !Panics(s, User(t))
  {
    var s' := Step(s, User(t));
    UserStays(s, s', t);
    assert HasEntered(s, t) && t in s.inside;
    assert |s.inside - {t}| == |s.inside| - 1;
    if s.users[t].LeaveCas? && s.userCount == s.users[t].v == CLOSED + 1 {
      assert s'.inside == {};
      assert At(s', t, CloseDone);
    }
  }

  lemma CloseDoneKeeps(s: State, t: Tid)
    requires Inv(s) && At(s, t, CloseDone)
    ensures Inv(Step(s, User(t))) && !Panics(s, User(t))
  {
    UserStays(s, Step(s, User(t)), t);
  }

  lemma CloserKeeps(s: State, a: Action)
    requires Inv(s) && Enabled(s, a) && (a.CallClose? || a.Closer?)
    ensures Inv(Step(s, a))
  {
    var s' := Step(s, a);
    assert forall u {:trigger HasEntered(s', u)} :: HasEntered(s', u) <==> HasEntered(s, u);
    assert forall u, p {:trigger At(s', u, p)} :: At(s', u, p) <==> At(s, u, p);
  }

  lemma StepKeeps(s: State, a: Action)
    requires Inv(s) && Enabled(s, a)
    ensures Inv(Step(s, a)) && !Panics(s, a)
  {
    hide Inv, Step;
    match a
    case CallEnter(_) => CallKeeps(s, a);
    case CallLeave(_) => CallKeeps(s, a);
    case CallClose => CloserKeeps(s, a);
    case Closer => CloserKeeps(s, a);
    case User(t) =>
      match s.users[t] {
        case EnterLoad => EnterKeeps(s, t);
        case EnterCas(_) => EnterKeeps(s, t);
        case LeaveLoad => LeaveKeeps(s, t);
        case LeaveCas(_) => LeaveKeeps(s, t);
        case CloseDone => CloseDoneKeeps(s, t);
        case Inside =>
      }
  }

  ghost predicate Runs(s: State, actions: seq<Action>)
    decreases |actions|
  {
    actions == [] || (Enabled(s, actions[0]) && Runs(Step(s, actions[0]), actions[1..]))
  }

  ghost function After(s: State, actions: seq<Action>): State
    requires Runs(s, actions)
    decreases |actions|
  {
    if actions == [] then s else After(Step(s, actions[0]), actions[1..])
  }

  lemma {:induction false} RunKeeps(s: State, actions: seq<Action>)
    requires Inv(s) && Runs(s, actions)
    ensures Inv(After(s, actions))
    ensures IsClosed(s.userCount) ==> IsClosed(After(s, actions).userCount) && After(s, actions).inside <= s.inside
    decreases |actions|
  {
    if actions != [] {
      StepKeeps(s, actions[0]);
      if IsClosed(s.userCount) {
        ClosedStays(s, actions[0]);
      }
      RunKeeps(Step(s, actions[0]), actions[1..]);
    }
  }

  lemma ClosedStays(s: State, a: Action)
    requires Inv(s) && Enabled(s, a) && IsClosed(s.userCount)
    ensures IsClosed(Step(s, a).userCount) && Step(s, a).inside <= s.inside
  {
    if a.User? && s.users[a.t].LeaveCas? {
      assert HasEntered(s, a.t);
      assert |s.inside - {a.t}| == |s.inside| - 1;
    }
  }

  /** Once the gate is closed nobody enters, in any continuation of any run. */
  lemma NoEntryAfterClose(actions: seq<Action>, more: seq<Action>)
    requires Runs(Init(), actions) && Runs(After(Init(), actions), more)
    requires IsClosed(After(Init(), actions).userCount)
    ensures After(After(Init(), actions), more).inside <= After(Init(), actions).inside
  {
    RunKeeps(Init(), actions);
    RunKeeps(After(Init(), actions), more);
  }

  /** In every reachable state the count is exact, nothing panics, the channel is
      closed at most once and only with nobody inside; `Close` has returned only
      if nobody is inside, and while it waits someone inside or about to signal remains. */
  lemma CloseWaitsForAll(actions: seq<Action>, a: Action)
    requires Runs(Init(), actions)
    ensures var s := After(Init(), actions);
            && Users(s.userCount) == |s.inside|
            && (Enabled(s, a) ==> !Panics(s, a))
            && s.closes <= 1
            && (s.closes == 1 || s.closer.Returned? ==> s.inside == {})
            && (s.closer.WaitDone? ==> s.inside != {} || s.done.Done? || exists t :: At(s, t, CloseDone))
  {
    RunKeeps(Init(), actions);
    if Enabled(After(Init(), actions), a) {
      StepKeeps(After(Init(), actions), a);
    }
  }

  // ----- answers -----

  predicate Entering(s: State, t: Tid) {
    t in s.users && (s.users[t].EnterLoad? || s.users[t].EnterCas?)
  }

  predicate Leaving(s: State, t: Tid) {
    t in s.users && (s.users[t].LeaveLoad? || s.users[t].LeaveCas?)
  }

  /** In every run: `Enter` is refused exactly when the gate is closed as it looks, it lets in only
      while the gate is open, a step that does neither found that another had changed the count, and
      leaving takes the user off the count. */
  lemma AnswersAreTrue(actions: seq<Action>, t: Tid)
    requires Runs(Init(), actions) && Enabled(After(Init(), actions), User(t))
    ensures var s := After(Init(), actions); var s' := Step(s, User(t));
            && (Entering(s, t) && t !in s'.users <==> At(s, t, EnterLoad) && IsClosed(s.userCount))
            && (Entering(s, t) && t in s'.inside ==> !IsClosed(s.userCount) && s'.inside == s.inside + {t} && t !in s.inside)
            && (s.users[t].EnterCas? && t !in s'.inside ==> s.userCount != s.users[t].v)
            && (Leaving(s, t) && !Leaving(s', t) ==> t in s.inside && s'.inside == s.inside - {t} && s'.userCount == s.userCount - 1)
  {
    RunKeeps(Init(), actions);
    var s := After(Init(), actions);
    assert t in s.inside <==> HasEntered(s, t);
  }

  /** An open gate, without others interfering, is entered in two steps. */
  lemma OpenIsEntered(actions: seq<Action>, t: Tid)
    requires Runs(Init(), actions) && !IsClosed(After(Init(), actions).userCount) && t !in After(Init(), actions).users
    requires |After(Init(), actions).inside| + 1 < CLOSED
    ensures var s := After(Init(), actions); var steps := [CallEnter(t), User(t), User(t)];
            Runs(s, steps) && At(After(s, steps), t, Inside) && t in After(s, steps).inside
  {
    var s := After(Init(), actions);
    Next(s, CallEnter(t), [User(t), User(t)]);
    Next(Step(s, CallEnter(t)), User(t), [User(t)]);
    Next(Step(Step(s, CallEnter(t)), User(t)), User(t), []);
  }

  lemma Next(s: State, a: Action, rest: seq<Action>)
    requires Enabled(s, a)
    ensures Runs(s, [a] + rest) <==> Runs(Step(s, a), rest)
    ensures Runs(Step(s, a), rest) ==> After(s, [a] + rest) == After(Step(s, a), rest)
  {
    assert ([a] + rest)[1..] == rest;
  }

  /** In every run: with nobody inside, a waiting `Close` returns after two steps at most. */
  lemma CloserIsLetGo(actions: seq<Action>) returns (steps: seq<Action>)
    requires Runs(Init(), actions)
    requires After(Init(), actions).closer.WaitDone? && After(Init(), actions).inside == {}
    ensures |steps| <= 2 && Runs(After(Init(), actions), steps) && After(After(Init(), actions), steps).closer.Returned?
  {
    RunKeeps(Init(), actions);
    var s := After(Init(), actions);
    if s.done == Done {
      Next(s, Closer, []);
      steps := [Closer] + [];
    } else {
      var t :| At(s, t, CloseDone);
      var s1 := Step(s, User(t));
      Next(s1, Closer, []);
      Next(s, User(t), [Closer]);
      steps := [User(t)] + [Closer];
    }
  }

  /** Closing a gate with nobody inside, without others interfering, takes two steps. */
  lemma EmptyIsClosed(actions: seq<Action>)
    requires Runs(Init(), actions) && After(Init(), actions).closer.Idle? && After(Init(), actions).inside == {}
    ensures var s := After(Init(), actions); var steps := [CallClose, Closer, Closer];
            Runs(s, steps) && After(s, steps).closer.Returned? && IsClosed(After(s, steps).userCount)
  {
    RunKeeps(Init(), actions);
    var s := After(Init(), actions);
    Next(s, CallClose, [Closer, Closer]);
    Next(Step(s, CallClose), Closer, [Closer]);
    Next(Step(Step(s, CallClose), Closer), Closer, []);
  }
}

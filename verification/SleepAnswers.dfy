/** What the callers of a sleeper and its wakers are told: over every run, each assertion is
    reported by one `Fetch`, taken back by one `Clear`, or still pending. */
module SleepAnswers {
  import opened Sleep

  // ----- the events of a step -----

  /** `w` becomes asserted. */
  predicate Raises(st: State, a: Action, w: Waker)
    requires Enabled(st, a)
  {
    st.S(w) != Asserted && Step(st, a).S(w) == Asserted
  }

  /** `w` is no longer asserted. */
  predicate Lowers(st: State, a: Action, w: Waker)
    requires Enabled(st, a)
  {
    st.S(w) == Asserted && Step(st, a).S(w) != Asserted
  }

  predicate InFetch(p: SleeperPc) {
    (p.Next? || p.Got?) && p.c.Fetch?
  }

  /** A `Fetch` returns `w`. */
  predicate Reports(st: State, a: Action, w: Waker)
    requires Enabled(st, a)
  {
    InFetch(st.sleeper) && Step(st, a).sleeper == Idle(Woken(w))
  }

  /** A `Fetch` returns that there is none. */
  predicate FindsNone(st: State, a: Action)
    requires Enabled(st, a)
  {
    InFetch(st.sleeper) && Step(st, a).sleeper == Idle(NoneReady)
  }

  /** A `Clear` of `w` gets its answer. */
  predicate Clears(st: State, a: Action, w: Waker, ok: bool)
    requires Enabled(st, a)
  {
    a.Thread? && !st.threads[a.t].Cleared? && a.t in Step(st, a).threads && Step(st, a).threads[a.t] == Cleared(w, ok)
  }

  /** An `Assert` of `w` marks it. */
  predicate Marks(st: State, a: Action, w: Waker) {
    a.Thread? && a.t in st.threads && st.threads[a.t] == AssertSwap(w)
  }

  // ----- one step -----

  /** An assertion ends exactly when a `Fetch` returns the waker or a `Clear` of it answers yes,
      and only an `Assert` makes one. */
  lemma EndsByAnswer(st: State, a: Action, w: Waker)
    requires Inv(st) && Enabled(st, a)
    ensures Lowers(st, a, w) <==> Reports(st, a, w) || Clears(st, a, w, true)
    ensures !(Reports(st, a, w) && Clears(st, a, w, true))
    ensures Raises(st, a, w) <==> Marks(st, a, w) && st.S(w) != Asserted
    ensures Clears(st, a, w, false) ==> st.S(w) != Asserted
  {
    hide Lists, OnePlace, NextSet, QueuedIff, DoneKnows, ListsWhere, Wakeups;
    if a.Thread? {
      hide *;
      ThreadAnswers(st, a, w);
    } else if a.Sleeper? {
      hide *;
      SleeperAnswers(st, a, w);
    }
  }

  lemma ThreadAnswers(st: State, a: Action, w: Waker)
    requires a.Thread? && Enabled(st, a)
    ensures Lowers(st, a, w) <==> Reports(st, a, w) || Clears(st, a, w, true)
    ensures !(Reports(st, a, w) && Clears(st, a, w, true))
    ensures Raises(st, a, w) <==> Marks(st, a, w) && st.S(w) != Asserted
    ensures Clears(st, a, w, false) ==> st.S(w) != Asserted
  {
  }

  lemma SleeperAnswers(st: State, a: Action, w: Waker)
    requires Inv(st) && a.Sleeper? && Enabled(st, a)
    ensures Lowers(st, a, w) <==> Reports(st, a, w) || Clears(st, a, w, true)
    ensures !(Reports(st, a, w) && Clears(st, a, w, true))
    ensures Raises(st, a, w) <==> Marks(st, a, w) && st.S(w) != Asserted
    ensures Clears(st, a, w, false) ==> st.S(w) != Asserted
  {
    hide Lists, OnePlace, NextSet, QueuedIff, DoneKnows, ListsWhere, Wakeups;
  }

  /** A `Fetch` returns a waker or that there is none, and the latter only when it was not to
      wait and both lists were empty: whatever is asserted then is still being pushed by the
      `Assert` that marked it. */
  lemma FetchReturns(st: State, a: Action)
    requires Inv(st) && Enabled(st, a) && InFetch(st.sleeper) && !InFetch(Step(st, a).sleeper)
    ensures FindsNone(st, a) || exists w :: Reports(st, a, w)
    ensures FindsNone(st, a) ==>
              && st.sleeper.c == Fetch(false) && st.rest == [] && st.local == [] && st.shared == []
              && forall w :: w in st.all && st.S(w) == Asserted ==> exists t :: ThreadCarries(st, t, w)
  {
    FetchEnds(st, a);
    if FindsNone(st, a) {
      forall w | w in st.all && st.S(w) == Asserted ensures exists t :: ThreadCarries(st, t, w) {
        NonePending(st, w);
      }
    }
  }

  lemma FetchEnds(st: State, a: Action)
    requires Inv(st) && Enabled(st, a) && InFetch(st.sleeper) && !InFetch(Step(st, a).sleeper)
    ensures FindsNone(st, a) || exists w :: Reports(st, a, w)
    ensures FindsNone(st, a) ==> st.sleeper.Next? && st.sleeper.c == Fetch(false) && st.rest == [] && st.local == [] && st.shared == []
  {
    hide Inv, SleeperStep, ThreadStep;
    if a.Thread? {
      FetchGoesOn(st, a.t);
    } else if st.sleeper.Got? {
      GotEnds(st);
      assert Reports(st, a, st.sleeper.w);
    } else {
      NextEnds(st);
    }
  }

  lemma GotEnds(st: State)
    requires InFetch(st.sleeper) && st.sleeper.Got?
    ensures InFetch(SleeperStep(st).sleeper) || SleeperStep(st).sleeper == Idle(Woken(st.sleeper.w))
  {
  }

  lemma NextEnds(st: State)
    requires Inv(st) && InFetch(st.sleeper) && st.sleeper.Next? && !InFetch(SleeperStep(st).sleeper)
    ensures SleeperStep(st).sleeper == Idle(NoneReady)
    ensures st.sleeper.c == Fetch(false) && st.rest == [] && st.local == [] && st.shared == []
  {
    hide OnePlace, NextSet, QueuedIff, DoneKnows, Wakeups, Linked, NoDup, AddSane;
    EmptyHeads(st);
  }

  lemma FetchGoesOn(st: State, t: Tid)
    requires t in st.threads && InFetch(st.sleeper)
    ensures InFetch(ThreadStep(st, t).sleeper)
  {
  }

  lemma NonePending(st: State, w: Waker)
    requires Inv(st) && st.sleeper.Next? && st.rest == [] && st.local == [] && st.shared == [] && w in st.all && st.S(w) == Asserted
    ensures exists t :: ThreadCarries(st, t, w)
  {
    assert !InLists(st, w) && !SleeperCarries(st, w) && !Adding(st, w);
    assert Carried(st, w);
  }

  // ----- every run -----

  ghost function Raised(st: State, actions: seq<Action>, w: Waker): nat
    requires Runs(st, actions)
    decreases |actions|
  {
    if actions == [] then 0
    else (if Raises(st, actions[0], w) then 1 else 0) + Raised(Step(st, actions[0]), actions[1..], w)
  }

  /** How many `Fetch` calls returned `w`. */
  ghost function Reported(st: State, actions: seq<Action>, w: Waker): nat
    requires Runs(st, actions)
    decreases |actions|
  {
    if actions == [] then 0
    else (if Reports(st, actions[0], w) then 1 else 0) + Reported(Step(st, actions[0]), actions[1..], w)
  }

  /** How many `Clear` calls on `w` answered yes. */
  ghost function TakenBack(st: State, actions: seq<Action>, w: Waker): nat
    requires Runs(st, actions)
    decreases |actions|
  {
    if actions == [] then 0
    else (if Clears(st, actions[0], w, true) then 1 else 0) + TakenBack(Step(st, actions[0]), actions[1..], w)
  }

  ghost function Pending(st: State, w: Waker): nat {
    if st.S(w) == Asserted then 1 else 0
  }

  lemma {:induction false} AnswersBalance(st: State, actions: seq<Action>, w: Waker)
    requires Inv(st) && Runs(st, actions)
    ensures Pending(st, w) + Raised(st, actions, w)
         == Reported(st, actions, w) + TakenBack(st, actions, w) + Pending(After(st, actions), w)
    decreases |actions|
  {
    hide Inv, Step, Lowers, Reports, Clears, Marks;
    if actions != [] {
      StepKeeps(st, actions[0]);
      OneBalance(st, actions[0], w);
      AnswersBalance(Step(st, actions[0]), actions[1..], w);
    }
  }

  lemma OneBalance(st: State, a: Action, w: Waker)
    requires Inv(st) && Enabled(st, a)
    ensures Pending(st, w) + (if Raises(st, a, w) then 1 else 0)
         == (if Reports(st, a, w) then 1 else 0) + (if Clears(st, a, w, true) then 1 else 0) + Pending(Step(st, a), w)
  {
    hide Inv, Step, Reports, Clears, Marks;
    EndsByAnswer(st, a, w);
  }

  /** In every run the assertions of a waker are those reported by a `Fetch`, those taken back by
      a `Clear`, and the one pending: none is consumed without being answered for, and none is
      answered for twice. */
  lemma EachAssertionAnsweredOnce(actions: seq<Action>, w: Waker)
    requires Runs(Init(), actions)
    ensures Raised(Init(), actions, w)
         == Reported(Init(), actions, w) + TakenBack(Init(), actions, w) + Pending(After(Init(), actions), w)
  {
    hide Inv;
    InitInv();
    AnswersBalance(Init(), actions, w);
    assert Pending(Init(), w) == 0;
  }

  /** In every run a `Fetch` that ends answers truly. */
  lemma FetchAnswersTruly(actions: seq<Action>, a: Action)
    requires Runs(Init(), actions) && Enabled(After(Init(), actions), a)
    requires var st := After(Init(), actions); InFetch(st.sleeper) && !InFetch(Step(st, a).sleeper)
    ensures var st := After(Init(), actions);
            && (FindsNone(st, a) || exists w :: Reports(st, a, w))
            && (forall w :: Reports(st, a, w) ==> st.S(w) == Asserted && w in st.all)
            && (FindsNone(st, a) ==>
                  && st.sleeper.c == Fetch(false) && Queue(st) == []
                  && forall w :: w in st.all && st.S(w) == Asserted ==> exists t :: ThreadCarries(st, t, w))
  {
    hide *;
    var st := After(Init(), actions);
    InitInv();
    RunKeeps(Init(), actions);
    FetchReturns(st, a);
    forall w | Reports(st, a, w) ensures st.S(w) == Asserted && w in st.all {
      EndsByAnswer(st, a, w);
      ReportedWas(st, a, w);
    }
    if FindsNone(st, a) { EmptyQueue(st); }
  }

  lemma ReportedWas(st: State, a: Action, w: Waker)
    requires Inv(st) && Enabled(st, a) && Reports(st, a, w) && Lowers(st, a, w)
    ensures st.S(w) == Asserted && w in st.all
  {
    hide Lists, OnePlace, NextSet, DoneKnows, ListsWhere, Wakeups, ThreadStep;
    if a.Thread? {
      FetchGoesOn(st, a.t);
    } else if st.sleeper.Got? {
      assert SleeperCarries(st, w);
    }
  }

  lemma EmptyQueue(st: State)
    requires st.rest == [] && st.local == [] && st.shared == []
    ensures Queue(st) == []
  {
  }

  // ----- undisturbed calls -----

  lemma Then(st: State, a: Action, rest: seq<Action>)
    requires Enabled(st, a)
    ensures Runs(st, [a] + rest) <==> Runs(Step(st, a), rest)
    ensures Runs(Step(st, a), rest) ==> After(st, [a] + rest) == After(Step(st, a), rest)
  {
    assert ([a] + rest)[1..] == rest;
  }

  /** Whatever others do, an `Assert` gets past marking its waker only with the waker asserted. */
  lemma AssertTakesEffect(st: State, t: Tid, w: Waker)
    requires t in st.threads && (st.threads[t] == AssertLoad(w) || st.threads[t] == AssertSwap(w))
    ensures var st' := Step(st, Thread(t));
            (t in st'.threads && st'.threads[t] == AssertSwap(w)) || st'.S(w) == Asserted
  {
  }

  /** An undisturbed `Assert` leaves its waker asserted after two steps at most. */
  lemma AssertAlone(st: State, t: Tid, w: Waker) returns (steps: seq<Action>)
    requires t !in st.threads
    ensures |steps| <= 3 && steps != [] && steps[0] == CallAssert(t, w) && Runs(st, steps) && After(st, steps).S(w) == Asserted
  {
    var st1 := Step(st, CallAssert(t, w));
    var st2 := Step(st1, Thread(t));
    Then(st1, Thread(t), []);
    if st.S(w) == Asserted {
      steps := [Thread(t)] + [];
    } else {
      Then(st2, Thread(t), []);
      Then(st1, Thread(t), [Thread(t)] + []);
      steps := [Thread(t)] + ([Thread(t)] + []);
    }
    Then(st, CallAssert(t, w), steps);
    steps := [CallAssert(t, w)] + steps;
  }

  /** An undisturbed `Clear` leaves its waker not asserted and answers whether it was. */
  lemma ClearAlone(st: State, t: Tid, w: Waker) returns (steps: seq<Action>)
    requires t !in st.threads
    ensures |steps| <= 3 && steps != [] && steps[0] == CallClear(t, w) && Runs(st, steps)
    ensures var st' := After(st, steps);
            st'.S(w) != Asserted && t in st'.threads && st'.threads[t] == Cleared(w, st.S(w) == Asserted)
  {
    var st1 := Step(st, CallClear(t, w));
    var st2 := Step(st1, Thread(t));
    Then(st1, Thread(t), []);
    if st.S(w) != Asserted {
      steps := [Thread(t)] + [];
    } else {
      Then(st2, Thread(t), []);
      Then(st1, Thread(t), [Thread(t)] + []);
      steps := [Thread(t)] + ([Thread(t)] + []);
    }
    Then(st, CallClear(t, w), steps);
    steps := [CallClear(t, w)] + steps;
  }

  /** The wakers a `Fetch` will look at, in order: the one in its hands, then the queue. */
  function Ahead(st: State): seq<Waker> {
    (if st.sleeper.Got? then [st.sleeper.w] else []) + Queue(st)
  }

  /** The answer they stand for: the first that is asserted. */
  function FirstAsserted(st: State, q: seq<Waker>): Answer {
    if q == [] then NoneReady else if st.S(q[0]) == Asserted then Woken(q[0]) else FirstAsserted(st, q[1..])
  }

  /** In the part of `Fetch` that does not prepare to sleep. */
  predicate Looking(p: SleeperPc) {
    InFetch(p) && (p.Got? || p.n.Start? || p.n.CheckShared? || p.n.SwapShared? || p.n.Reverse? || p.n.Pop?)
  }

  function Phase(p: SleeperPc): nat {
    if !p.Next? then 0 else
    match p.n
    case Start => 5
    case CheckShared => 4
    case SwapShared => 3
    case Reverse => 2
    case _ => 1
  }

  /** One undisturbed step of `Fetch` keeps the answer, or gives it. */
  lemma LookStep(st: State)
    requires Inv(st) && Looking(st.sleeper) && (FirstAsserted(st, Ahead(st)).Woken? || st.sleeper.c == Fetch(false))
    ensures CanStep(st.sleeper)
    ensures var st' := SleeperStep(st);
            if Looking(st'.sleeper)
            then
              && st'.sleeper.c == st.sleeper.c && FirstAsserted(st', Ahead(st')) == FirstAsserted(st, Ahead(st))
              && (|| |Ahead(st')| < |Ahead(st)|
                  || (|Ahead(st')| == |Ahead(st)| && Phase(st'.sleeper) < Phase(st.sleeper))
                  || (|Ahead(st')| == |Ahead(st)| && Phase(st'.sleeper) == Phase(st.sleeper) && |st'.rest| < |st.rest|))
            else st'.sleeper == Idle(FirstAsserted(st, Ahead(st)))
  {
    hide Inv, SleeperStep, Queue, FirstAsserted, Step;
    if st.sleeper.Got? {
      GotLooks(st);
    } else {
      NextLooks(st);
    }
  }

  lemma GotLooks(st: State)
    requires Looking(st.sleeper) && st.sleeper.Got?
    ensures CanStep(st.sleeper)
    ensures var st' := SleeperStep(st);
            if Looking(st'.sleeper)
            then
              && st'.sleeper.c == st.sleeper.c && FirstAsserted(st', Ahead(st')) == FirstAsserted(st, Ahead(st)) && |Ahead(st')| < |Ahead(st)|
            else st'.sleeper == Idle(FirstAsserted(st, Ahead(st)))
  {
    var st' := SleeperStep(st);
    var w := st.sleeper.w;
    assert Queue(st') == Queue(st) && Ahead(st) == [w] + Queue(st) && ([w] + Queue(st))[1..] == Queue(st);
    if st.S(w) != Asserted {
      assert Ahead(st') == Queue(st);
      SameFirst(st, st', Queue(st));
    }
  }

  lemma {:induction false} SameFirst(st: State, st': State, q: seq<Waker>)
    requires forall w :: st'.S(w) == Asserted <==> st.S(w) == Asserted
    ensures FirstAsserted(st', q) == FirstAsserted(st, q)
  {
    if q != [] { SameFirst(st, st', q[1..]); }
  }

  lemma NextLooks(st: State)
    requires Inv(st) && Looking(st.sleeper) && st.sleeper.Next? && (FirstAsserted(st, Ahead(st)).Woken? || st.sleeper.c == Fetch(false))
    ensures CanStep(st.sleeper)
    ensures var st' := SleeperStep(st);
            if Looking(st'.sleeper)
            then
              && st'.sleeper.c == st.sleeper.c && FirstAsserted(st', Ahead(st')) == FirstAsserted(st, Ahead(st))
              && |Ahead(st')| == |Ahead(st)|
              && (Phase(st'.sleeper) < Phase(st.sleeper) || (Phase(st'.sleeper) == Phase(st.sleeper) && |st'.rest| < |st.rest|))
            else st'.sleeper == Idle(FirstAsserted(st, Ahead(st)))
  {
    NextMoves(st);
    hide Inv, SleeperStep, Queue, FirstAsserted;
    var st' := SleeperStep(st);
    SameAhead(st);
    SameFirst(st, st', Ahead(st));
    if !Looking(st'.sleeper) { EmptyLooks(st); }
  }

  /** Where an undisturbed `nextWaker` goes. */
  lemma NextMoves(st: State)
    requires Inv(st) && Looking(st.sleeper) && st.sleeper.Next?
    ensures CanStep(st.sleeper)
    ensures var st' := SleeperStep(st);
            && st'.s == st.s
            && (Looking(st'.sleeper) ==>
                  && st'.sleeper.c == st.sleeper.c
                  && (Phase(st'.sleeper) < Phase(st.sleeper) || (Phase(st'.sleeper) == Phase(st.sleeper) && |st'.rest| < |st.rest|)))
            && (!Looking(st'.sleeper) ==>
                  && st.sleeper.n.CheckShared? && st.shared == [] && st.local == [] && st.rest == []
                  && st'.sleeper == if st.sleeper.c == Fetch(false) then Idle(NoneReady) else Next(st.sleeper.c, st.sleeper.g, Prepare))
  {
    hide OnePlace, NextSet, QueuedIff, DoneKnows, Wakeups, Linked, NoDup, AddSane;
    EmptyHeads(st);
  }

  lemma SameAhead(st: State)
    requires Inv(st) && Looking(st.sleeper) && st.sleeper.Next?
    ensures Ahead(SleeperStep(st)) == Ahead(st)
  {
    hide Inv, SleeperStep, Queue, IsPush;
    NextMoves(st);
    ListsAreOneQueue(st, Sleeper);
    NoPush(st);
    NotGot(st);
  }

  lemma NoPush(st: State)
    requires st.sleeper.Next?
    ensures forall w :: !IsPush(st, Sleeper, w)
  {
  }

  lemma NotGot(st: State)
    requires Looking(st.sleeper) && st.sleeper.Next? && CanStep(st.sleeper)
    ensures Step(st, Sleeper) == SleeperStep(st) && (IsPop(st, Sleeper) <==> st.sleeper.n.Pop?)
    ensures !st.sleeper.n.Pop? ==> !SleeperStep(st).sleeper.Got?
  {
  }

  lemma EmptyLooks(st: State)
    requires st.shared == [] && st.local == [] && st.rest == [] && st.sleeper.Next?
    ensures FirstAsserted(st, Ahead(st)) == NoneReady
  {
    EmptyQueue(st);
  }

  /** An undisturbed `Fetch` returns the first asserted waker of the queue; if there is none and it
      is not to wait, that there is none. */
  lemma {:induction false} FetchAlone(st: State) returns (steps: seq<Action>)
    requires Inv(st) && Looking(st.sleeper) && (FirstAsserted(st, Ahead(st)).Woken? || st.sleeper.c == Fetch(false))
    ensures Runs(st, steps) && (forall i :: 0 <= i < |steps| ==> steps[i] == Sleeper)
    ensures After(st, steps).sleeper == Idle(FirstAsserted(st, Ahead(st)))
    decreases |Ahead(st)|, Phase(st.sleeper), |st.rest|
  {
    hide Inv, SleeperStep, Ahead, FirstAsserted, Looking, Phase;
    LookStep(st);
    StepKeeps(st, Sleeper);
    var st' := Step(st, Sleeper);
    if Looking(st'.sleeper) {
      steps := FetchAlone(st');
    } else {
      steps := [];
    }
    Then(st, Sleeper, steps);
    steps := [Sleeper] + steps;
  }
}

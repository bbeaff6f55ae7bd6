/** The sleeper and its wakers as a step machine. Every atomic access of the
    source is one step; any number of threads call `Assert` and `Clear` while one
    goroutine uses the sleeper. The linked lists are kept as pointers, with the
    sequences they stand for beside them. */
module Sleep {
  type Waker = nat
  type Tid = nat

  datatype Ptr = Null | At(w: Waker)

  /** `Waker.s`: nil, `&assertedSleeper`, or the sleeper it is associated with. */
  datatype Assoc = NoSleeper | Asserted | Mine

  /** `Sleeper.waitingG`: zero, `preparingG`, or the goroutine that sleeps. */
  datatype Waiting = Zero | Preparing | Sleeping(g: nat)

  /** Positions inside `enqueueAssertedWaker`. */
  datatype EnqueuePc =
    | LoadHead
    | StoreNext(v: Ptr)
    | CasHead(v: Ptr)
    | LoadG
    | CasG(g: Waiting)
    | Ready(g: Waiting)

  /** A thread inside `Assert` or `Clear`, or returning from `Clear` with its answer. */
  datatype ThreadPc =
    | AssertLoad(w: Waker)
    | AssertSwap(w: Waker)
    | ClearLoad(w: Waker)
    | ClearCas(w: Waker)
    | Cleared(w: Waker, ok: bool)
    | Enqueue(w: Waker, e: EnqueuePc)

  /** Positions inside `nextWaker`, `gopark` and `commitSleep`. */
  datatype NextPc =
    | Start
    | CheckShared
    | Prepare
    | Recheck
    | Unprepare
    | CommitLoad
    | CommitCas
    | Parked
    | SwapShared
    | Reverse
    | Pop

  /** Who called `nextWaker`. */
  datatype Caller = Fetch(block: bool) | Drain(pending: set<Waker>)

  /** What a call on the sleeper returned: nothing, a waker, or that none was ready. */
  datatype Answer = Void | Woken(w: Waker) | NoneReady

  datatype SleeperPc =
    | Idle(answer: Answer)
    | AddLoad(w: Waker)
    | AddCas(w: Waker, p: Assoc)
    | AddEnqueue(w: Waker, e: EnqueuePc)
    | Next(c: Caller, g: nat, n: NextPc)
    | Got(c: Caller, g: nat, w: Waker)
    | Scan(todo: set<Waker>, pending: set<Waker>, g: nat)
    | ScanLoad(w: Waker, todo: set<Waker>, pending: set<Waker>, g: nat)
    | ScanCas(w: Waker, todo: set<Waker>, pending: set<Waker>, g: nat)

  datatype State = State(
    s: map<Waker, Assoc>,         // Waker.s, nil when absent
    next: map<Waker, Ptr>,        // Waker.next, nil when absent
    all: set<Waker>,              // Sleeper.allWakers
    sharedList: Ptr,
    localList: Ptr,
    v: Ptr,                       // nextWaker's local variable
    waitingG: Waiting,
    sleeper: SleeperPc,
    threads: map<Tid, ThreadPc>,  // threads inside a call
    shared: seq<Waker>,           // the list at sharedList
    local: seq<Waker>,            // the list at localList
    rest: seq<Waker>)             // the list at v
  {
    function S(w: Waker): Assoc { if w in s then s[w] else NoSleeper }
    function NextOf(w: Waker): Ptr { if w in next then next[w] else Null }
  }

  datatype Action =
    | CallAssert(t: Tid, w: Waker)
    | CallClear(t: Tid, w: Waker)
    | Thread(t: Tid)
    | CallAddWaker(w: Waker)
    | CallFetch(block: bool, g: nat)
    | CallDone(g: nat)
    | Sleeper
    | PickScan(w: Waker)

  function Init(): State {
    State(map[], map[], {}, Null, Null, Null, Zero, Idle(Void), map[], [], [], [])
  }

  predicate Enabled(st: State, a: Action) {
    match a
    case CallAssert(t, w) => t !in st.threads
    case CallClear(t, w) => t !in st.threads
    case Thread(t) => t in st.threads
    case CallAddWaker(w) => st.sleeper.Idle? && w !in st.all
    case CallFetch(_, _) => st.sleeper.Idle?
    case CallDone(_) => st.sleeper.Idle?
    case Sleeper => CanStep(st.sleeper)
    case PickScan(w) => st.sleeper.Scan? && w in st.sleeper.todo
  }

  /** The sleeper's goroutine has a step of its own: not idle, not parked. */
  predicate CanStep(p: SleeperPc) {
    && !p.Idle?
    && !(p.Next? && p.n.Parked?)
    && (p.Scan? ==> p.todo == {})
  }

  function Wait(st: State, t: Tid, p: ThreadPc): State {
    st.(threads := st.threads[t := p])
  }

  function Exit(st: State, t: Tid): State {
    st.(threads := st.threads - {t})
  }

  function Head(q: seq<Waker>): Ptr {
    if q == [] then Null else At(q[0])
  }

  /** One atomic step of `enqueueAssertedWaker(w)`: the new shared state and position. */
  function EnqueueStep(st: State, w: Waker, e: EnqueuePc): (State, EnqueueResult) {
    match e
    case LoadHead => (st, Goes(StoreNext(st.sharedList)))
    case StoreNext(v) => (st.(next := st.next[w := v]), Goes(CasHead(v)))
    case CasHead(v) =>
      if st.sharedList == v then (st.(sharedList := At(w), shared := [w] + st.shared), Goes(LoadG))
      else (st, Goes(LoadHead))
    case LoadG => if st.waitingG == Zero then (st, Returns) else (st, Goes(CasG(st.waitingG)))
    case CasG(g) =>
      if st.waitingG == g then (st.(waitingG := Zero), if g == Preparing then Goes(LoadG) else Goes(Ready(g)))
      else (st, Goes(LoadG))
    case Ready(g) => (st.(sleeper := Wake(st.sleeper)), Goes(LoadG))
  }

  datatype EnqueueResult = Goes(e: EnqueuePc) | Returns

  /** `goready`: a parked goroutine runs again. */
  function Wake(p: SleeperPc): SleeperPc {
    if p.Next? && p.n.Parked? then p.(n := CheckShared) else p
  }

  function ThreadStep(st: State, t: Tid): State
    requires t in st.threads
  {
    match st.threads[t]
    case AssertLoad(w) => if st.S(w) == Asserted then Exit(st, t) else Wait(st, t, AssertSwap(w))
    case AssertSwap(w) =>
      var st' := st.(s := st.s[w := Asserted]);
      if st.S(w) == Mine then Wait(st', t, Enqueue(w, LoadHead)) else Exit(st', t)
    case ClearLoad(w) => Wait(st, t, if st.S(w) == Asserted then ClearCas(w) else Cleared(w, false))
    case ClearCas(w) =>
      Wait(if st.S(w) == Asserted then st.(s := st.s[w := NoSleeper]) else st, t, Cleared(w, st.S(w) == Asserted))
    case Cleared(_, _) => Exit(st, t)
    case Enqueue(w, e) =>
      var (st', r) := EnqueueStep(st, w, e);
      match r {
        case Goes(e') => Wait(st', t, Enqueue(w, e'))
        case Returns => Exit(st', t)
      }
  }

  function NextStep(st: State, c: Caller, g: nat, n: NextPc): State {
    match n
    case Start => st.(sleeper := Next(c, g, if st.localList == Null then CheckShared else Pop))
    case CheckShared =>
      if st.sharedList != Null then st.(sleeper := Next(c, g, SwapShared))
      else if c == Fetch(false) then st.(sleeper := Idle(NoneReady))
      else st.(sleeper := Next(c, g, Prepare))
    case Prepare => st.(waitingG := Preparing, sleeper := Next(c, g, Recheck))
    case Recheck => st.(sleeper := Next(c, g, if st.sharedList != Null then Unprepare else CommitLoad))
    case Unprepare => st.(waitingG := Zero, sleeper := Next(c, g, SwapShared))
    case CommitLoad => st.(sleeper := Next(c, g, if st.waitingG == Zero then CheckShared else CommitCas))
    case CommitCas =>
      if st.waitingG == Preparing then st.(waitingG := Sleeping(g), sleeper := Next(c, g, Parked))
      else st.(sleeper := Next(c, g, CommitLoad))
    case Parked => st
    case SwapShared =>
      st.(v := st.sharedList, rest := st.shared, sharedList := Null, shared := [], sleeper := Next(c, g, Reverse))
    case Reverse =>
      if st.v == Null then st.(sleeper := Next(c, g, Pop))
      else if st.rest == [] then st
      else
        var cur := st.v.w;
        st.(v := st.NextOf(cur), next := st.next[cur := st.localList], localList := At(cur),
            rest := st.rest[1..], local := [st.rest[0]] + st.local)
    case Pop =>
      if st.localList == Null || st.local == [] then st
      else
        var w := st.localList.w;
        st.(localList := st.NextOf(w), local := st.local[1..], sleeper := Got(c, g, w))
  }

  function SleeperStep(st: State): State {
    match st.sleeper
    case Idle(_) => st
    case AddLoad(w) =>
      st.(sleeper := if st.S(w) == Asserted then AddEnqueue(w, LoadHead) else AddCas(w, st.S(w)))
    case AddCas(w, p) =>
      if st.S(w) == p then st.(s := st.s[w := Mine], sleeper := Idle(Void)) else st.(sleeper := AddLoad(w))
    case AddEnqueue(w, e) =>
      var (st', r) := EnqueueStep(st, w, e);
      match r {
        case Goes(e') => st'.(sleeper := AddEnqueue(w, e'))
        case Returns => st'.(sleeper := Idle(Void))
      }
    case Next(c, g, n) => NextStep(st, c, g, n)
    case Got(c, g, w) =>
      match c {
        case Fetch(_) =>
          st.(s := st.s[w := Mine], sleeper := if st.S(w) == Asserted then Idle(Woken(w)) else Next(c, g, Start))
        case Drain(pending) =>
          st.(all := st.all - {w}, sleeper := Draining(pending - {w}, g))
      }
    case Scan(todo, pending, g) => st.(sleeper := Draining(pending, g))
    case ScanLoad(w, todo, pending, g) =>
      st.(sleeper := if st.S(w) == Mine then ScanCas(w, todo, pending, g) else Scan(todo, pending + {w}, g))
    case ScanCas(w, todo, pending, g) =>
      if st.S(w) == Mine then
        st.(s := st.s[w := NoSleeper], all := st.all - {w}, sleeper := Scan(todo, pending, g))
      else st.(sleeper := ScanLoad(w, todo, pending, g))
  }

  /** `Done` waits until every pending waker has been pulled. */
  function Draining(pending: set<Waker>, g: nat): SleeperPc {
    if pending == {} then Idle(Void) else Next(Drain(pending), g, Start)
  }

  function Step(st: State, a: Action): State
    requires Enabled(st, a)
  {
    match a
    case CallAssert(t, w) => Wait(st, t, AssertLoad(w))
    case CallClear(t, w) => Wait(st, t, ClearLoad(w))
    case Thread(t) => ThreadStep(st, t)
    case CallAddWaker(w) => st.(all := st.all + {w}, sleeper := AddLoad(w))
    case CallFetch(block, g) => st.(sleeper := Next(Fetch(block), g, Start))
    case CallDone(g) => st.(sleeper := Scan(st.all, {}, g))
    case Sleeper => SleeperStep(st)
    case PickScan(w) =>
      st.(sleeper := ScanLoad(w, st.sleeper.todo - {w}, st.sleeper.pending, st.sleeper.g))
  }

  // ----- the invariant -----

  /** Pointer `p` starts the null-terminated list `q`. */
  ghost predicate Linked(st: State, p: Ptr, q: seq<Waker>) {
    && p == Head(q)
    && forall i :: 0 <= i < |q| ==> st.NextOf(q[i]) == Head(q[i + 1..])
  }

  ghost predicate NoDup(q: seq<Waker>) {
    forall i, j :: 0 <= i < j < |q| ==> q[i] != q[j]
  }

  ghost predicate Lists(st: State) {
    && Linked(st, st.sharedList, st.shared)
    && Linked(st, st.localList, st.local)
    && Linked(st, st.v, st.rest)
    && NoDup(st.rest + st.local + st.shared)
  }

  ghost predicate InLists(st: State, w: Waker) {
    w in st.rest || w in st.local || w in st.shared
  }

  predicate Pushing(e: EnqueuePc) {
    e.LoadHead? || e.StoreNext? || e.CasHead?
  }

  /** Thread `t` is about to push `w`. */
  predicate ThreadCarries(st: State, t: Tid, w: Waker) {
    t in st.threads && st.threads[t].Enqueue? && st.threads[t].w == w && Pushing(st.threads[t].e)
  }

  /** The sleeper is about to push `w`, or holds it between pop and swap. */
  predicate SleeperCarries(st: State, w: Waker) {
    || (st.sleeper.AddEnqueue? && st.sleeper.w == w && Pushing(st.sleeper.e))
    || (st.sleeper.Got? && st.sleeper.w == w)
  }

  /** `w` is in `allWakers`, but `AddWaker` has not yet looked at it. */
  predicate Adding(st: State, w: Waker) {
    (st.sleeper.AddLoad? || st.sleeper.AddCas?) && st.sleeper.w == w
  }

  ghost predicate Carried(st: State, w: Waker) {
    SleeperCarries(st, w) || exists t :: ThreadCarries(st, t, w)
  }

  /** A waker is in one place at most. */
  ghost predicate OnePlace(st: State) {
    && (forall t, u, w :: ThreadCarries(st, t, w) && ThreadCarries(st, u, w) ==> t == u)
    && (forall t, w :: ThreadCarries(st, t, w) ==> !InLists(st, w) && !SleeperCarries(st, w) && !Adding(st, w))
    && (forall w :: SleeperCarries(st, w) ==> !InLists(st, w))
    && (forall w :: Adding(st, w) ==> !InLists(st, w))
  }

  /** A waker about to be pushed already points at the head it expects. */
  ghost predicate NextSet(st: State) {
    && (forall t :: ThreadAt(st, t) && st.threads[t].e.CasHead? ==> st.NextOf(st.threads[t].w) == st.threads[t].e.v)
    && (st.sleeper.AddEnqueue? && st.sleeper.e.CasHead? ==> st.NextOf(st.sleeper.w) == st.sleeper.e.v)
  }

  /** An associated waker is queued or on its way exactly when its `s` is not the sleeper. */
  ghost predicate QueuedIff(st: State) {
    && (forall w :: w in st.all && !Adding(st, w) ==> (st.S(w) != Mine <==> InLists(st, w) || Carried(st, w)))
    && (forall w :: InLists(st, w) || Carried(st, w) || Adding(st, w) ==> w in st.all)
    && (forall w :: w !in st.all || Adding(st, w) ==> st.S(w) != Mine)
  }

  ghost predicate AddSane(st: State) {
    && (st.sleeper.AddCas? ==> st.sleeper.p == NoSleeper)
    && (st.sleeper.AddEnqueue? ==> !st.sleeper.e.CasG? && !st.sleeper.e.Ready?)
  }

  /** `Done` knows every waker still associated. */
  ghost predicate DoneKnows(st: State) {
    match st.sleeper
    case Scan(todo, pending, _) =>
      st.all == todo + pending && todo !! pending && forall w :: w in pending ==> st.S(w) != Mine
    case ScanLoad(w, todo, pending, _) =>
      st.all == todo + pending + {w} && w !in todo && w !in pending && todo !! pending && forall u :: u in pending ==> st.S(u) != Mine
    case ScanCas(w, todo, pending, _) =>
      st.all == todo + pending + {w} && w !in todo && w !in pending && todo !! pending && forall u :: u in pending ==> st.S(u) != Mine
    case Next(c, _, _) => c.Drain? ==> st.all == c.pending && c.pending != {} && forall w :: w in c.pending ==> st.S(w) != Mine
    case Got(c, _, w) => c.Drain? ==> st.all == c.pending && w in c.pending && forall u :: u in c.pending ==> st.S(u) != Mine
    case _ => true
  }

  predicate Reversing(st: State) { st.sleeper.Next? && st.sleeper.n.Reverse? }

  predicate Popping(st: State) { st.sleeper.Next? && st.sleeper.n.Pop? }

  predicate IsParked(st: State) { st.sleeper.Next? && st.sleeper.n.Parked? }

  /** Past the second look at the shared list. */
  predicate Committing(st: State) {
    st.sleeper.Next? && (st.sleeper.n.CommitLoad? || st.sleeper.n.CommitCas? || st.sleeper.n.Parked?)
  }

  /** Between announcing the sleep and taking it back. */
  predicate Announced(st: State) {
    Committing(st) || (st.sleeper.Next? && (st.sleeper.n.Recheck? || st.sleeper.n.Unprepare?))
  }

  /** About to pull a list known to be non-empty. */
  predicate Pulling(st: State) {
    st.sleeper.Next? && (st.sleeper.n.Unprepare? || st.sleeper.n.SwapShared?)
  }

  /** In the part of `nextWaker` that runs only when the local list is empty. */
  predicate Refilling(st: State) {
    Announced(st) || Pulling(st) || (st.sleeper.Next? && (st.sleeper.n.CheckShared? || st.sleeper.n.Prepare?))
  }

  /** Which of the sleeper's own lists may be non-empty where. */
  ghost predicate ListsWhere(st: State) {
    && (!Reversing(st) ==> st.rest == [])
    && (Refilling(st) ==> st.local == [])
    && (Pulling(st) ==> st.shared != [])
    && (Reversing(st) ==> st.rest != [] || st.local != [])
    && (Popping(st) ==> st.local != [])
  }

  predicate ThreadAt(st: State, t: Tid) {
    t in st.threads && st.threads[t].Enqueue?
  }

  /** Thread `t` has pushed and is in the loop over `waitingG`. */
  predicate InLoop(st: State, t: Tid) {
    ThreadAt(st, t) && (st.threads[t].e.LoadG? || st.threads[t].e.CasG?)
  }

  /** Thread `t` has taken the sleeping goroutine and is about to wake it. */
  predicate AboutToWake(st: State, t: Tid) {
    ThreadAt(st, t) && st.threads[t].e.Ready?
  }

  ghost predicate Wakeups(st: State) {
    && (st.waitingG != Zero ==> Announced(st))
    && (st.waitingG.Sleeping? ==> IsParked(st) && st.waitingG.g == st.sleeper.g)
    && (IsParked(st) ==> st.waitingG != Preparing)
    && (forall t :: AboutToWake(st, t) ==> IsParked(st) && st.waitingG == Zero)
    && (forall t, u :: AboutToWake(st, t) && AboutToWake(st, u) ==> t == u)
    && (IsParked(st) && st.waitingG == Zero ==> exists t :: AboutToWake(st, t))
    && (Committing(st) && st.shared != [] && st.waitingG != Zero ==> exists t :: InLoop(st, t))
    && (forall t :: ThreadAt(st, t) && st.threads[t].e.CasG? ==> st.threads[t].e.g != Zero)
  }

  ghost predicate Inv(st: State) {
    Lists(st) && OnePlace(st) && NextSet(st) && QueuedIff(st) && AddSane(st) && DoneKnows(st) && ListsWhere(st) && Wakeups(st)
  }

  lemma InitInv()
    ensures Inv(Init())
  {
  }

  // ----- what a step leaves alone -----

  /** Every waker is where it was. */
  ghost predicate SamePlaces(st: State, st': State) {
    && (forall t, w {:trigger ThreadCarries(st', t, w)} {:trigger ThreadCarries(st, t, w)} ::
          ThreadCarries(st', t, w) <==> ThreadCarries(st, t, w))
    && (forall w {:trigger SleeperCarries(st', w)} {:trigger SleeperCarries(st, w)} ::
          SleeperCarries(st', w) <==> SleeperCarries(st, w))
    && (forall w {:trigger Adding(st', w)} {:trigger Adding(st, w)} :: Adding(st', w) <==> Adding(st, w))
    && (forall w {:trigger InLists(st', w)} {:trigger InLists(st, w)} :: InLists(st', w) <==> InLists(st, w))
  }

  ghost predicate SameMine(st: State, st': State) {
    && st'.all == st.all
    && forall w {:trigger st'.S(w)} {:trigger st.S(w)} :: st'.S(w) == Mine <==> st.S(w) == Mine
  }

  lemma PlacesStay(st: State, st': State)
    requires OnePlace(st) && QueuedIff(st) && SamePlaces(st, st') && SameMine(st, st')
    ensures OnePlace(st') && QueuedIff(st')
  {
    hide ThreadCarries, SleeperCarries, Adding, InLists;
    forall w ensures Carried(st', w) <==> Carried(st, w) {
      if Carried(st, w) && !SleeperCarries(st, w) {
        var t :| ThreadCarries(st, t, w);
        assert ThreadCarries(st', t, w);
      }
      if Carried(st', w) && !SleeperCarries(st', w) {
        var t :| ThreadCarries(st', t, w);
        assert ThreadCarries(st, t, w);
      }
    }
  }

  /** All threads but `t` are where they were. */
  ghost predicate OnlyMoves(st: State, st': State, t: Tid) {
    forall u :: u != t ==>
      (u in st'.threads <==> u in st.threads) && (u in st.threads ==> st'.threads[u] == st.threads[u])
  }

  lemma OthersStay(st: State, st': State, t: Tid)
    requires OnlyMoves(st, st', t)
    ensures forall u {:trigger ThreadAt(st', u)} {:trigger ThreadAt(st, u)} :: u != t ==>
              (ThreadAt(st', u) <==> ThreadAt(st, u)) && (ThreadAt(st, u) ==> st'.threads[u] == st.threads[u])
    ensures forall u, w {:trigger ThreadCarries(st', u, w)} {:trigger ThreadCarries(st, u, w)} :: u != t ==>
              (ThreadCarries(st', u, w) <==> ThreadCarries(st, u, w))
    ensures forall u {:trigger InLoop(st', u)} {:trigger InLoop(st, u)} :: u != t ==> (InLoop(st', u) <==> InLoop(st, u))
    ensures forall u {:trigger AboutToWake(st', u)} {:trigger AboutToWake(st, u)} :: u != t ==>
              (AboutToWake(st', u) <==> AboutToWake(st, u))
  {
  }

  lemma ThreadSamePlaces(st: State, st': State, t: Tid)
    requires OnlyMoves(st, st', t) && st'.sleeper == st.sleeper
    requires st'.rest == st.rest && st'.local == st.local && st'.shared == st.shared
    requires forall w :: ThreadCarries(st', t, w) <==> ThreadCarries(st, t, w)
    ensures SamePlaces(st, st')
  {
    OthersStay(st, st', t);
  }

  ghost predicate SameLists(st: State, st': State) {
    && st'.rest == st.rest && st'.local == st.local && st'.shared == st.shared
    && st'.v == st.v && st'.localList == st.localList && st'.sharedList == st.sharedList
    && forall w {:trigger InLists(st, w)} {:trigger st'.NextOf(w)} :: InLists(st, w) ==> st'.NextOf(w) == st.NextOf(w)
  }

  lemma ListsStay(st: State, st': State)
    requires Lists(st) && SameLists(st, st')
    ensures Lists(st')
  {
    forall i | 0 <= i < |st.rest| ensures st'.NextOf(st.rest[i]) == st.NextOf(st.rest[i]) {
      assert InLists(st, st.rest[i]);
    }
    forall i | 0 <= i < |st.local| ensures st'.NextOf(st.local[i]) == st.NextOf(st.local[i]) {
      assert InLists(st, st.local[i]);
    }
    forall i | 0 <= i < |st.shared| ensures st'.NextOf(st.shared[i]) == st.NextOf(st.shared[i]) {
      assert InLists(st, st.shared[i]);
    }
  }

  /** A thread that is neither in the loop over `waitingG` nor enters it with a goroutine. */
  lemma WakeupsStay(st: State, st': State, t: Tid)
    requires Wakeups(st) && OnlyMoves(st, st', t)
    requires st'.sleeper == st.sleeper && st'.waitingG == st.waitingG && st'.shared == st.shared
    requires !InLoop(st, t) && !AboutToWake(st, t) && !AboutToWake(st', t) && (ThreadAt(st', t) ==> !st'.threads[t].e.CasG?)
    ensures Wakeups(st')
  {
    OthersStay(st, st', t);
    hide InLoop, AboutToWake;
    if IsParked(st) && st.waitingG == Zero {
      var u :| AboutToWake(st, u);
      assert AboutToWake(st', u);
    }
    if Committing(st) && st.shared != [] && st.waitingG != Zero {
      var u :| InLoop(st, u);
      assert InLoop(st', u);
    }
  }

  // ----- threads -----

  lemma DoneStays(st: State, st': State)
    requires DoneKnows(st) && st'.sleeper == st.sleeper && SameMine(st, st')
    ensures DoneKnows(st')
  {
  }

  lemma WhereStays(st: State, st': State)
    requires ListsWhere(st) && st'.sleeper == st.sleeper
    requires st'.rest == st.rest && st'.local == st.local && (st.shared != [] ==> st'.shared != [])
    ensures ListsWhere(st')
  {
  }

  lemma QuietThreadKeeps(st: State, t: Tid)
    requires Inv(st) && t in st.threads && !st.threads[t].Enqueue?
    requires st.threads[t].AssertSwap? ==> st.S(st.threads[t].w) != Mine
    ensures Inv(ThreadStep(st, t))
  {
    hide OnePlace, QueuedIff, Wakeups, Lists, SamePlaces, InLists, DoneKnows, ListsWhere;
    var st' := ThreadStep(st, t);
    ThreadSamePlaces(st, st', t);
    PlacesStay(st, st');
    ListsStay(st, st');
    DoneStays(st, st');
    WhereStays(st, st');
    WakeupsStay(st, st', t);
    OthersStay(st, st', t);
  }

  /** `Assert` takes an associated waker: it is now on its way. */
  lemma TakeKeeps(st: State, t: Tid)
    requires Inv(st) && t in st.threads && st.threads[t].AssertSwap? && st.S(st.threads[t].w) == Mine
    ensures Inv(ThreadStep(st, t))
  {
    hide Wakeups, Lists, InLists, Linked;
    var st' := ThreadStep(st, t);
    var w := st.threads[t].w;
    assert OnlyMoves(st, st', t);
    OthersStay(st, st', t);
    ListsStay(st, st');
    WakeupsStay(st, st', t);
    TakePlaces(st, st', t, w);
  }

  lemma TakePlaces(st: State, st': State, t: Tid, w: Waker)
    requires OnePlace(st) && QueuedIff(st) && st.S(w) == Mine
    requires OnlyMoves(st, st', t) && (forall u :: !ThreadCarries(st, t, u)) && (forall u :: ThreadCarries(st', t, u) <==> u == w)
    requires st' == st.(s := st.s[w := Asserted], threads := st'.threads)
    ensures OnePlace(st') && QueuedIff(st')
  {
    OthersStay(st, st', t);
    hide ThreadCarries;
    assert w in st.all && !Adding(st, w) && !InLists(st, w) && !Carried(st, w);
    assert forall u :: SleeperCarries(st', u) <==> SleeperCarries(st, u);
    assert forall u :: Adding(st', u) <==> Adding(st, u);
    assert forall u :: InLists(st', u) <==> InLists(st, u);
    assert ThreadCarries(st', t, w);
    forall u | u != w ensures Carried(st', u) <==> Carried(st, u) {
      if Carried(st, u) && !SleeperCarries(st, u) {
        var x :| ThreadCarries(st, x, u);
        assert ThreadCarries(st', x, u);
      }
    }
  }

  /** Reading the head, or storing it in `w.next`, moves nothing. */
  lemma PushingKeeps(st: State, t: Tid)
    requires Inv(st) && t in st.threads && st.threads[t].Enqueue?
    requires var e := st.threads[t].e; e.LoadHead? || e.StoreNext? || (e.CasHead? && st.sharedList != e.v)
    ensures Inv(ThreadStep(st, t))
  {
    hide QueuedIff, Wakeups, Lists, SamePlaces, InLists;
    var st' := ThreadStep(st, t);
    ThreadSamePlaces(st, st', t);
    PlacesStay(st, st');
    assert ThreadCarries(st, t, st.threads[t].w);
    ListsStay(st, st');
    WakeupsStay(st, st', t);
    OthersStay(st, st', t);
    NextSetStays(st, st', t);
  }

  lemma NextSetStays(st: State, st': State, t: Tid)
    requires NextSet(st) && OnePlace(st) && OnlyMoves(st, st', t) && st'.sleeper == st.sleeper
    requires t in st.threads && ThreadCarries(st, t, st.threads[t].w)
    requires forall u :: u != st.threads[t].w ==> st'.NextOf(u) == st.NextOf(u)
    requires ThreadAt(st', t) && st'.threads[t].e.CasHead? ==> st'.NextOf(st'.threads[t].w) == st'.threads[t].e.v
    ensures NextSet(st')
  {
    OthersStay(st, st', t);
    forall u | ThreadAt(st', u) && st'.threads[u].e.CasHead?
      ensures st'.NextOf(st'.threads[u].w) == st'.threads[u].e.v
    {
      if u != t {
        assert ThreadAt(st, u) && ThreadCarries(st, u, st.threads[u].w);
      }
    }
    if st.sleeper.AddEnqueue? && st.sleeper.e.CasHead? {
      assert SleeperCarries(st, st.sleeper.w);
    }
  }

  /** A successful push moves the waker from its thread to the front of the shared list. */
  lemma PushKeeps(st: State, t: Tid)
    requires Inv(st) && t in st.threads && st.threads[t].Enqueue? && st.threads[t].e.CasHead?
    requires st.sharedList == st.threads[t].e.v
    ensures Inv(ThreadStep(st, t))
  {
    hide OnePlace, QueuedIff, Lists, Wakeups, InLists;
    var st' := ThreadStep(st, t);
    var w := st.threads[t].w;
    assert OnlyMoves(st, st', t);
    PushLists(st, st', w) by { PushingIsOut(st, t); }
    PushPlaces(st, st', t, w);
    PushWakeups(st, st', t);
    OthersStay(st, st', t);
  }

  lemma PushingIsOut(st: State, t: Tid)
    requires OnePlace(st) && t in st.threads && ThreadCarries(st, t, st.threads[t].w)
    ensures !InLists(st, st.threads[t].w)
  {
  }

  lemma PushLists(st: State, st': State, w: Waker)
    requires Lists(st) && !InLists(st, w) && st.NextOf(w) == st.sharedList
    requires st' == st.(sharedList := At(w), shared := [w] + st.shared, threads := st'.threads, sleeper := st'.sleeper)
    ensures Lists(st')
  {
    LinkedPush(st, st', w);
    var front := st.rest + st.local;
    NoDupInsert(front, st.shared, w);
    assert st'.rest + st'.local + st'.shared == front + [w] + st.shared;
  }

  lemma LinkedPush(st: State, st': State, w: Waker)
    requires Linked(st, st.sharedList, st.shared) && st.NextOf(w) == st.sharedList && st'.next == st.next
    ensures Linked(st', At(w), [w] + st.shared)
  {
    var q := [w] + st.shared;
    forall i | 0 <= i < |q| ensures st'.NextOf(q[i]) == Head(q[i + 1..]) {
      if i == 0 {
        assert q[1..] == st.shared;
      } else {
        assert q[i] == st.shared[i - 1] && q[i + 1..] == st.shared[i - 1 + 1..];
      }
    }
  }

  lemma NoDupInsert(a: seq<Waker>, b: seq<Waker>, w: Waker)
    requires NoDup(a + b) && w !in a && w !in b
    ensures NoDup(a + [w] + b)
  {
    var old_, new_ := a + b, a + [w] + b;
    forall i, j | 0 <= i < j < |new_| ensures new_[i] != new_[j] {
      var i' := if i < |a| then i else i - 1;
      var j' := if j < |a| then j else j - 1;
      if i == |a| {
        assert new_[j] == b[j - |a| - 1];
      } else if j == |a| {
        assert new_[i] == a[i];
      } else {
        assert new_[i] == old_[i'] && new_[j] == old_[j'];
      }
    }
  }

  lemma PushPlaces(st: State, st': State, t: Tid, w: Waker)
    requires OnePlace(st) && QueuedIff(st) && OnlyMoves(st, st', t)
    requires ThreadCarries(st, t, w) && (forall u :: !ThreadCarries(st', t, u)) && (forall u :: ThreadCarries(st, t, u) ==> u == w)
    requires st' == st.(sharedList := At(w), shared := [w] + st.shared, threads := st'.threads)
    ensures OnePlace(st') && QueuedIff(st')
  {
    OthersStay(st, st', t);
    hide ThreadCarries;
    assert forall u {:trigger SleeperCarries(st', u)} :: SleeperCarries(st', u) <==> SleeperCarries(st, u);
    assert forall u {:trigger Adding(st', u)} :: Adding(st', u) <==> Adding(st, u);
    assert forall u {:trigger InLists(st', u)} :: InLists(st', u) <==> InLists(st, u) || u == w;
    assert Carried(st, w) && !SleeperCarries(st, w);
    forall x ensures !ThreadCarries(st', x, w) {
      assert ThreadCarries(st, x, w) ==> x == t;
    }
    forall u | u != w ensures Carried(st', u) <==> Carried(st, u) {
      if Carried(st, u) && !SleeperCarries(st, u) {
        var x :| ThreadCarries(st, x, u);
        assert ThreadCarries(st', x, u);
      }
    }
    hide SleeperCarries, Adding, InLists;
  }

  lemma PushWakeups(st: State, st': State, t: Tid)
    requires Wakeups(st) && OnlyMoves(st, st', t) && st'.sleeper == st.sleeper && st'.waitingG == st.waitingG
    requires !InLoop(st, t) && !AboutToWake(st, t) && ThreadAt(st', t) && st'.threads[t].e.LoadG?
    ensures Wakeups(st')
  {
    OthersStay(st, st', t);
    assert InLoop(st', t);
    hide InLoop, AboutToWake;
    if IsParked(st) && st.waitingG == Zero {
      var u :| AboutToWake(st, u);
      assert AboutToWake(st', u);
    }
  }

  /** The loop over `waitingG`: a thread leaves it only when nobody waits, and
      takes a sleeping goroutine at most once. */
  lemma LoopKeeps(st: State, t: Tid)
    requires Inv(st) && t in st.threads && st.threads[t].Enqueue? && (st.threads[t].e.LoadG? || st.threads[t].e.CasG?)
    ensures Inv(ThreadStep(st, t))
  {
    hide OnePlace, QueuedIff, Lists, Wakeups, InLists, SamePlaces;
    var st' := ThreadStep(st, t);
    ThreadSamePlaces(st, st', t);
    PlacesStay(st, st');
    ListsStay(st, st');
    OthersStay(st, st', t);
    LoopWakeups(st, t);
  }

  lemma LoopWakeups(st: State, t: Tid)
    requires Wakeups(st) && t in st.threads && st.threads[t].Enqueue? && (st.threads[t].e.LoadG? || st.threads[t].e.CasG?)
    ensures Wakeups(ThreadStep(st, t))
  {
    var st' := ThreadStep(st, t);
    OthersStay(st, st', t);
    assert InLoop(st, t);
    if IsParked(st) && st.waitingG == Zero {
      var u :| AboutToWake(st, u);
      assert AboutToWake(st', u);
    }
    if st.waitingG != Zero && st.threads[t].e.LoadG? {
      assert InLoop(st', t);
    }
    if st.threads[t].e.CasG? && st.waitingG == st.threads[t].e.g {
      assert st.waitingG.Sleeping? ==> AboutToWake(st', t);
    } else if st.threads[t].e.CasG? {
      assert InLoop(st', t);
    }
  }

  /** `goready`: the sleeper looks at the shared list again. */
  lemma ReadyKeeps(st: State, t: Tid)
    requires Inv(st) && AboutToWake(st, t)
    ensures Inv(ThreadStep(st, t))
  {
    hide OnePlace, QueuedIff, Lists, InLists, SamePlaces;
    var st' := ThreadStep(st, t);
    OthersStay(st, st', t);
    assert IsParked(st);
    ReadyPlaces(st, st', t);
    PlacesStay(st, st');
    ListsStay(st, st');
  }

  lemma ReadyPlaces(st: State, st': State, t: Tid)
    requires AboutToWake(st, t) && IsParked(st) && st' == ThreadStep(st, t)
    ensures SamePlaces(st, st')
  {
    OthersStay(st, st', t);
  }

  lemma ThreadKeeps(st: State, t: Tid)
    requires Inv(st) && t in st.threads
    ensures Inv(ThreadStep(st, t))
  {
    hide Inv, ThreadStep;
    match st.threads[t]
    case Enqueue(w, e) =>
      if e.Ready? {
        ReadyKeeps(st, t);
      } else if e.LoadG? || e.CasG? {
        LoopKeeps(st, t);
      } else if e.CasHead? && st.sharedList == e.v {
        PushKeeps(st, t);
      } else {
        PushingKeeps(st, t);
      }
    case AssertSwap(w) =>
      if st.S(w) == Mine { TakeKeeps(st, t); } else { QuietThreadKeeps(st, t); }
    case _ => QuietThreadKeeps(st, t);
  }

  // ----- the sleeper -----

  lemma ThreadsStay(st: State, st': State)
    requires st'.threads == st.threads
    ensures forall u {:trigger ThreadAt(st', u)} {:trigger ThreadAt(st, u)} :: ThreadAt(st', u) <==> ThreadAt(st, u)
    ensures forall u, w {:trigger ThreadCarries(st', u, w)} {:trigger ThreadCarries(st, u, w)} ::
              ThreadCarries(st', u, w) <==> ThreadCarries(st, u, w)
    ensures forall u {:trigger InLoop(st', u)} {:trigger InLoop(st, u)} :: InLoop(st', u) <==> InLoop(st, u)
    ensures forall u {:trigger AboutToWake(st', u)} {:trigger AboutToWake(st, u)} :: AboutToWake(st', u) <==> AboutToWake(st, u)
  {
  }

  /** The sleeper holds no waker outside the lists. */
  predicate Empty(p: SleeperPc) {
    p.Idle? || p.Next? || p.Scan? || p.ScanLoad? || p.ScanCas? || (p.AddEnqueue? && !Pushing(p.e))
  }

  lemma QuietPlaces(st: State, st': State)
    requires st' == st.(sleeper := st'.sleeper, waitingG := st'.waitingG)
    requires Empty(st.sleeper) && Empty(st'.sleeper)
    ensures SamePlaces(st, st')
  {
    ThreadsStay(st, st');
  }

  /** Steps that only move the sleeper's position or `waitingG`. */
  lemma QuietKeeps(st: State, st': State)
    requires Inv(st) && st' == st.(sleeper := st'.sleeper, waitingG := st'.waitingG)
    requires Empty(st.sleeper) && Empty(st'.sleeper) && AddSane(st')
    requires DoneKnows(st') && ListsWhere(st') && Wakeups(st')
    requires st'.sleeper.AddEnqueue? ==> !st'.sleeper.e.CasHead?
    ensures Inv(st')
  {
    hide OnePlace, QueuedIff, Lists, Wakeups, InLists, SamePlaces, DoneKnows, ListsWhere;
    QuietPlaces(st, st');
    PlacesStay(st, st');
    ListsStay(st, st');
    ThreadsStay(st, st');
  }

  lemma CallKeeps(st: State, a: Action)
    requires Inv(st) && Enabled(st, a) && (a.CallFetch? || a.CallDone? || a.PickScan?)
    ensures Inv(Step(st, a))
  {
    hide OnePlace, QueuedIff, Lists, InLists;
    var st' := Step(st, a);
    ThreadsStay(st, st');
    QuietKeeps(st, st');
  }

  predicate QuietNext(n: NextPc) {
    n.Start? || n.CheckShared? || n.Prepare? || n.Recheck? || n.Unprepare? || n.CommitLoad? || n.CommitCas?
  }

  lemma QuietNextKeeps(st: State)
    requires Inv(st) && st.sleeper.Next?
    requires QuietNext(st.sleeper.n) || (st.sleeper.n.Reverse? && st.v == Null)
    ensures Inv(SleeperStep(st))
  {
    hide Inv, ListsWhere, DoneKnows, Wakeups, Lists, OnePlace, NextSet, QueuedIff;
    InvParts(st);
    EmptyHeads(st);
    NextWakeups(st);
    NextWhere(st);
    QuietKeeps(st, SleeperStep(st));
  }

  lemma InvParts(st: State)
    requires Inv(st)
    ensures Lists(st) && Wakeups(st) && ListsWhere(st) && DoneKnows(st) && OnePlace(st) && QueuedIff(st)
  {
  }

  lemma NextWhere(st: State)
    requires ListsWhere(st) && DoneKnows(st) && st.sleeper.Next?
    requires (st.sharedList == Null <==> st.shared == []) && (st.localList == Null <==> st.local == [])
    requires st.v == Null <==> st.rest == []
    requires QuietNext(st.sleeper.n) || (st.sleeper.n.Reverse? && st.v == Null)
    ensures ListsWhere(SleeperStep(st)) && DoneKnows(SleeperStep(st))
  {
    hide ListsWhere, DoneKnows, SleeperStep;
    NextLists(st);
    NextKnows(st);
  }

  lemma NextLists(st: State)
    requires ListsWhere(st) && st.sleeper.Next?
    requires (st.sharedList == Null <==> st.shared == []) && (st.localList == Null <==> st.local == [])
    requires st.v == Null <==> st.rest == []
    requires QuietNext(st.sleeper.n) || (st.sleeper.n.Reverse? && st.v == Null)
    ensures ListsWhere(SleeperStep(st))
  {
  }

  lemma NextKnows(st: State)
    requires DoneKnows(st) && st.sleeper.Next? && (QuietNext(st.sleeper.n) || (st.sleeper.n.Reverse? && st.v == Null))
    ensures DoneKnows(SleeperStep(st))
  {
  }

  lemma EmptyHeads(st: State)
    requires Lists(st)
    ensures st.sharedList == Null <==> st.shared == []
    ensures st.localList == Null <==> st.local == []
    ensures st.v == Null <==> st.rest == []
  {
  }

  lemma NextWakeups(st: State)
    requires Wakeups(st) && (st.sharedList == Null <==> st.shared == []) && st.sleeper.Next?
    requires QuietNext(st.sleeper.n) || (st.sleeper.n.Reverse? && st.v == Null)
    ensures Wakeups(SleeperStep(st))
  {
    hide Wakeups, SleeperStep;
    if Announced(st) { AnnouncedWakeups(st); } else { EarlyWakeups(st); }
  }

  /** Before the sleep is announced nobody wakes the sleeper. */
  lemma EarlyWakeups(st: State)
    requires Wakeups(st) && st.sleeper.Next? && !Announced(st)
    requires QuietNext(st.sleeper.n) || (st.sleeper.n.Reverse? && st.v == Null)
    ensures Wakeups(SleeperStep(st))
  {
    var st' := SleeperStep(st);
    ThreadsStay(st, st');
    hide InLoop, AboutToWake;
  }

  lemma AnnouncedWakeups(st: State)
    requires Wakeups(st) && (st.sharedList == Null <==> st.shared == []) && st.sleeper.Next? && Announced(st) && QuietNext(st.sleeper.n)
    ensures Wakeups(SleeperStep(st))
  {
    AnnouncedFields(st);
    hide SleeperStep, InLoop, AboutToWake;
    var st' := SleeperStep(st);
    ThreadsStay(st, st');
    if Committing(st) && st.shared != [] && st.waitingG != Zero {
      var u :| InLoop(st, u);
      assert InLoop(st', u);
    }
  }

  lemma AnnouncedFields(st: State)
    requires (st.sharedList == Null <==> st.shared == []) && st.sleeper.Next? && Announced(st) && QuietNext(st.sleeper.n)
    ensures var st' := SleeperStep(st); var p := st.sleeper;
            && st'.threads == st.threads && st'.shared == st.shared && st'.sleeper.Next? && st'.sleeper.g == p.g
            && (p.n.Recheck? ==> st'.waitingG == st.waitingG && st'.sleeper.n == if st.shared == [] then CommitLoad else Unprepare)
            && (p.n.Unprepare? ==> st'.waitingG == Zero && st'.sleeper.n == SwapShared)
            && (p.n.CommitLoad? ==> st'.waitingG == st.waitingG && st'.sleeper.n == if st.waitingG == Zero then CheckShared else CommitCas)
            && (p.n.CommitCas? && st.waitingG == Preparing ==> st'.waitingG == Sleeping(p.g) && st'.sleeper.n == Parked)
            && (p.n.CommitCas? && st.waitingG != Preparing ==> st'.waitingG == st.waitingG && st'.sleeper.n == CommitLoad)
  {
  }

  /** Taking the shared list: the stack becomes the list to reverse. */
  lemma SwapKeeps(st: State)
    requires Inv(st) && st.sleeper.Next? && st.sleeper.n.SwapShared?
    ensures Inv(SleeperStep(st))
  {
    hide OnePlace, QueuedIff, InLists, Linked, SamePlaces;
    var st' := SleeperStep(st);
    ThreadsStay(st, st');
    SwapPlaces(st);
    PlacesStay(st, st');
    SwapLists(st);
  }

  lemma SwapPlaces(st: State)
    requires st.sleeper.Next? && st.sleeper.n.SwapShared? && st.rest == []
    ensures SamePlaces(st, SleeperStep(st))
  {
    ThreadsStay(st, SleeperStep(st));
  }

  lemma SwapLists(st: State)
    requires Lists(st) && st.sleeper.Next? && st.sleeper.n.SwapShared? && st.rest == [] && st.local == []
    ensures Lists(SleeperStep(st))
  {
    var st' := SleeperStep(st);
    assert st'.rest + st'.local + st'.shared == st.rest + st.local + st.shared;
  }

  /** One turn of the reversing loop moves the front of `v` to the front of the local list. */
  lemma ReverseKeeps(st: State)
    requires Inv(st) && Reversing(st) && st.v != Null
    ensures Inv(SleeperStep(st))
  {
    hide OnePlace, QueuedIff, InLists, Linked, SamePlaces, NoDup;
    EmptyHeads(st);
    var st' := SleeperStep(st);
    ThreadsStay(st, st');
    ReverseFields(st);
    ReversePlaces(st, st');
    PlacesStay(st, st');
    ReverseLists(st, st');
    ReverseNext(st, st');
  }

  lemma ReverseFields(st: State)
    requires Lists(st) && Reversing(st) && st.v != Null
    ensures st.rest != [] && st.v == At(st.rest[0])
    ensures SleeperStep(st) == st.(v := st.NextOf(st.rest[0]), next := st.next[st.rest[0] := st.localList],
                                   localList := At(st.rest[0]), rest := st.rest[1..], local := [st.rest[0]] + st.local)
  {
  }

  lemma ReversePlaces(st: State, st': State)
    requires st.rest != [] && st'.rest == st.rest[1..] && st'.local == [st.rest[0]] + st.local && st'.shared == st.shared
    requires st'.threads == st.threads && st'.sleeper == st.sleeper
    ensures SamePlaces(st, st')
  {
    ThreadsStay(st, st');
    assert st.rest == [st.rest[0]] + st.rest[1..];
  }

  lemma ReverseLists(st: State, st': State)
    requires Lists(st) && st.rest != []
    requires st' == st.(v := st.NextOf(st.rest[0]), next := st.next[st.rest[0] := st.localList],
                        localList := At(st.rest[0]), rest := st.rest[1..], local := [st.rest[0]] + st.local)
    ensures Lists(st')
  {
    hide NoDup, Linked;
    var cur := st.rest[0];
    FirstIsUnique(st.rest, st.local, st.shared);
    ReverseLinked(st, st', cur);
    var q := st.rest + st.local + st.shared;
    assert [cur] + st.rest[1..] + (st.local + st.shared) == q;
    NoDupRotate(st.rest[1..], [cur], st.local + st.shared);
    assert st'.rest + st'.local + st'.shared == st.rest[1..] + [cur] + (st.local + st.shared);
  }

  lemma FirstIsUnique(a: seq<Waker>, b: seq<Waker>, c: seq<Waker>)
    requires NoDup(a + b + c) && a != []
    ensures a[0] !in a[1..] && a[0] !in b && a[0] !in c
  {
    var q := a + b + c;
    assert q[0] == a[0];
    assert forall i :: 0 <= i < |a[1..]| ==> a[1..][i] == q[i + 1];
    assert forall i :: 0 <= i < |b| ==> b[i] == q[|a| + i];
    assert forall i :: 0 <= i < |c| ==> c[i] == q[|a| + |b| + i];
  }

  lemma ReverseLinked(st: State, st': State, cur: Waker)
    requires Linked(st, st.v, st.rest) && Linked(st, st.localList, st.local) && Linked(st, st.sharedList, st.shared)
    requires st.rest != [] && cur == st.rest[0] && cur !in st.rest[1..] && cur !in st.local && cur !in st.shared
    requires st'.next == st.next[cur := st.localList]
    ensures Linked(st', st.NextOf(cur), st.rest[1..])
    ensures Linked(st', At(cur), [cur] + st.local)
    ensures Linked(st', st.sharedList, st.shared)
  {
    var r, l := st.rest[1..], [cur] + st.local;
    forall i | 0 <= i < |r| ensures st'.NextOf(r[i]) == Head(r[i + 1..]) {
      assert r[i] == st.rest[i + 1] && r[i] in r && r[i + 1..] == st.rest[i + 1 + 1..];
    }
    forall i | 0 <= i < |l| ensures st'.NextOf(l[i]) == Head(l[i + 1..]) {
      if i == 0 {
        assert l[1..] == st.local;
      } else {
        assert l[i] == st.local[i - 1] && l[i] in st.local && l[i + 1..] == st.local[i - 1 + 1..];
      }
    }
  }

  lemma NoDupRotate(a: seq<Waker>, b: seq<Waker>, c: seq<Waker>)
    requires NoDup(b + a + c) && |b| == 1
    ensures NoDup(a + b + c)
  {
    var old_, new_ := b + a + c, a + b + c;
    forall i, j | 0 <= i < j < |new_| ensures new_[i] != new_[j] {
      var i' := if i < |a| then i + 1 else if i == |a| then 0 else i;
      var j' := if j < |a| then j + 1 else if j == |a| then 0 else j;
      assert new_[i] == old_[i'] && new_[j] == old_[j'];
    }
  }

  lemma ReverseNext(st: State, st': State)
    requires OnePlace(st) && NextSet(st) && st.rest != []
    requires st'.threads == st.threads && st'.sleeper == st.sleeper && Reversing(st)
    requires forall w :: w != st.rest[0] ==> st'.NextOf(w) == st.NextOf(w)
    ensures NextSet(st')
  {
    ThreadsStay(st, st');
    assert InLists(st, st.rest[0]);
    forall u | ThreadAt(st', u) && st'.threads[u].e.CasHead?
      ensures st'.NextOf(st'.threads[u].w) == st'.threads[u].e.v
    {
      assert ThreadCarries(st, u, st.threads[u].w);
    }
  }

  /** Popping hands the front of the local list to the caller. */
  lemma PopKeeps(st: State)
    requires Inv(st) && Popping(st)
    ensures Inv(SleeperStep(st))
  {
    hide QueuedIff, OnePlace, InLists, Linked, NoDup;
    EmptyHeads(st);
    var st' := SleeperStep(st);
    PopFields(st);
    ThreadsStay(st, st');
    PopLists(st, st');
    PopPlaces(st, st');
    PopDone(st, st');
  }

  lemma PopFields(st: State)
    requires Lists(st) && Popping(st) && st.local != []
    ensures SleeperStep(st) == st.(localList := st.NextOf(st.local[0]), local := st.local[1..],
                                   sleeper := Got(st.sleeper.c, st.sleeper.g, st.local[0]))
  {
  }

  lemma PopLists(st: State, st': State)
    requires Lists(st) && st.local != [] && st.rest == []
    requires st' == st.(localList := st.NextOf(st.local[0]), local := st.local[1..], sleeper := st'.sleeper)
    ensures Lists(st')
  {
    var l := st.local[1..];
    forall i | 0 <= i < |l| ensures st'.NextOf(l[i]) == Head(l[i + 1..]) {
      assert l[i] == st.local[i + 1] && l[i + 1..] == st.local[i + 1 + 1..];
    }
    var old_, new_ := st.rest + st.local + st.shared, st'.rest + st'.local + st'.shared;
    assert new_ == old_[1..];
  }

  lemma PopPlaces(st: State, st': State)
    requires OnePlace(st) && QueuedIff(st) && Lists(st) && st.local != [] && st.rest == [] && Popping(st)
    requires st' == st.(localList := st.NextOf(st.local[0]), local := st.local[1..],
                        sleeper := Got(st.sleeper.c, st.sleeper.g, st.local[0]))
    ensures OnePlace(st') && QueuedIff(st')
  {
    var w := st.local[0];
    ThreadsStay(st, st');
    var q := st.rest + st.local + st.shared;
    assert q[0] == w && forall i :: 1 <= i < |q| ==> q[i] != w;
    assert w !in st'.local by {
      forall i | 0 <= i < |st'.local| ensures st'.local[i] != w { assert st'.local[i] == q[i + 1]; }
    }
    assert w !in st'.shared by {
      forall i | 0 <= i < |st'.shared| ensures st'.shared[i] != w { assert st'.shared[i] == q[|st.local| + i]; }
    }
    assert st.local == [w] + st'.local;
    assert forall u {:trigger InLists(st', u)} {:trigger InLists(st, u)} :: InLists(st', u) <==> InLists(st, u) && u != w;
    assert forall u {:trigger SleeperCarries(st', u)} :: SleeperCarries(st', u) <==> u == w;
    assert forall u {:trigger SleeperCarries(st, u)} :: !SleeperCarries(st, u);
    assert forall u {:trigger Adding(st', u)} {:trigger Adding(st, u)} :: !Adding(st', u) && !Adding(st, u);
    assert InLists(st, w);
    hide ThreadCarries, SleeperCarries, InLists, Adding, Lists;
    forall u ensures Carried(st', u) <==> Carried(st, u) || u == w {
      if Carried(st, u) {
        var t :| ThreadCarries(st, t, u);
        assert ThreadCarries(st', t, u);
      }
    }
  }

  lemma PopDone(st: State, st': State)
    requires DoneKnows(st) && QueuedIff(st) && Popping(st) && st.local != []
    requires st'.sleeper == Got(st.sleeper.c, st.sleeper.g, st.local[0]) && st'.all == st.all && st'.s == st.s
    ensures DoneKnows(st')
  {
    assert InLists(st, st.local[0]);
  }

  /** `Fetch` reassociates the waker it pulled. */
  lemma GotFetchKeeps(st: State)
    requires Inv(st) && st.sleeper.Got? && st.sleeper.c.Fetch?
    ensures Inv(SleeperStep(st))
  {
    AddingAlone(st, st.sleeper.w);
    hide QueuedIff, OnePlace, InLists, Linked, NoDup;
    var st' := SleeperStep(st);
    ThreadsStay(st, st');
    ListsStay(st, st');
    ReleasePlaces(st, st', st.sleeper.w);
  }

  /** The sleeper lets go of `w`, which is Mine again or no longer its own. */
  lemma ReleasePlaces(st: State, st': State, w: Waker)
    requires OnePlace(st) && QueuedIff(st) && Empty(st'.sleeper)
    requires st'.threads == st.threads && st'.rest == st.rest && st'.local == st.local && st'.shared == st.shared
    requires (SleeperCarries(st, w) || Adding(st, w)) && (forall u :: SleeperCarries(st, u) || Adding(st, u) ==> u == w)
    requires forall u :: u != w ==> (st'.S(u) == Mine <==> st.S(u) == Mine) && (u in st'.all <==> u in st.all)
    requires if w in st'.all then st'.S(w) == Mine else st'.S(w) != Mine
    ensures OnePlace(st') && QueuedIff(st')
  {
    ThreadsStay(st, st');
    assert forall u {:trigger SleeperCarries(st', u)} :: !SleeperCarries(st', u);
    assert forall u {:trigger Adding(st', u)} :: !Adding(st', u);
    assert forall u {:trigger InLists(st', u)} {:trigger InLists(st, u)} :: InLists(st', u) <==> InLists(st, u);
    assert !InLists(st, w) && forall t :: !ThreadCarries(st, t, w);
    hide ThreadCarries, SleeperCarries, InLists, Adding;
    forall u ensures Carried(st', u) <==> Carried(st, u) && u != w {
      if Carried(st, u) && u != w {
        var t :| ThreadCarries(st, t, u);
        assert ThreadCarries(st', t, u);
      }
      if Carried(st', u) {
        var t :| ThreadCarries(st', t, u);
        assert ThreadCarries(st, t, u);
      }
    }
  }

  /** `Done` drops the waker it pulled. */
  lemma GotDrainKeeps(st: State)
    requires Inv(st) && st.sleeper.Got? && st.sleeper.c.Drain?
    ensures Inv(SleeperStep(st))
  {
    hide QueuedIff, OnePlace, InLists, Linked, NoDup;
    var st' := SleeperStep(st);
    ThreadsStay(st, st');
    ListsStay(st, st');
    ReleasePlaces(st, st', st.sleeper.w);
  }

  lemma ScanKeeps(st: State)
    requires Inv(st) && ((st.sleeper.Scan? && st.sleeper.todo == {}) || st.sleeper.ScanLoad?)
    ensures Inv(SleeperStep(st))
  {
    hide OnePlace, QueuedIff, Lists, InLists;
    var st' := SleeperStep(st);
    ThreadsStay(st, st');
    QuietKeeps(st, st');
  }

  /** `Done` dissociates a waker that nobody has asserted. */
  lemma ScanCasKeeps(st: State)
    requires Inv(st) && st.sleeper.ScanCas?
    ensures Inv(SleeperStep(st))
  {
    hide OnePlace, QueuedIff, InLists, Linked, NoDup;
    var st' := SleeperStep(st);
    ThreadsStay(st, st');
    if st.S(st.sleeper.w) == Mine {
      ListsStay(st, st');
      DropPlaces(st, st', st.sleeper.w);
    } else {
      QuietKeeps(st, st');
    }
  }

  lemma DropPlaces(st: State, st': State, w: Waker)
    requires OnePlace(st) && QueuedIff(st) && Empty(st.sleeper) && Empty(st'.sleeper) && st.S(w) == Mine && w in st.all
    requires st' == st.(s := st.s[w := NoSleeper], all := st.all - {w}, sleeper := st'.sleeper)
    ensures OnePlace(st') && QueuedIff(st')
  {
    ThreadsStay(st, st');
    assert forall u {:trigger SleeperCarries(st', u)} {:trigger SleeperCarries(st, u)} :: !SleeperCarries(st', u) && !SleeperCarries(st, u);
    assert forall u {:trigger Adding(st', u)} {:trigger Adding(st, u)} :: !Adding(st', u) && !Adding(st, u);
    assert forall u {:trigger InLists(st', u)} {:trigger InLists(st, u)} :: InLists(st', u) <==> InLists(st, u);
    hide ThreadCarries, SleeperCarries, InLists, Adding;
    forall u ensures Carried(st', u) <==> Carried(st, u) {
      if Carried(st, u) {
        var t :| ThreadCarries(st, t, u);
        assert ThreadCarries(st', t, u);
      }
      if Carried(st', u) {
        var t :| ThreadCarries(st', t, u);
        assert ThreadCarries(st, t, u);
      }
    }
  }

  // ----- AddWaker -----

  lemma StrangerAlone(st: State, w: Waker)
    requires OnePlace(st) && QueuedIff(st) && w !in st.all
    ensures !InLists(st, w) && (forall t :: !ThreadCarries(st, t, w)) && st.S(w) != Mine
  {
    forall t ensures !ThreadCarries(st, t, w) {
      assert ThreadCarries(st, t, w) ==> Carried(st, w);
    }
  }

  lemma CallAddKeeps(st: State, w: Waker)
    requires Inv(st) && st.sleeper.Idle? && w !in st.all
    ensures Inv(Step(st, CallAddWaker(w)))
  {
    StrangerAlone(st, w);
    hide OnePlace, QueuedIff, InLists, Linked, NoDup;
    var st' := Step(st, CallAddWaker(w));
    ThreadsStay(st, st');
    ListsStay(st, st');
    HoldPlaces(st, st', w);
  }

  /** The sleeper takes hold of `w`: to look at it, or to push it. */
  lemma HoldPlaces(st: State, st': State, w: Waker)
    requires OnePlace(st) && QueuedIff(st) && !InLists(st, w) && (forall t :: !ThreadCarries(st, t, w))
    requires forall u :: SleeperCarries(st, u) || Adding(st, u) ==> u == w
    requires SleeperCarries(st', w) != Adding(st', w) && (forall u :: SleeperCarries(st', u) || Adding(st', u) ==> u == w)
    requires st'.threads == st.threads && st'.rest == st.rest && st'.local == st.local && st'.shared == st.shared
    requires st'.all == st.all + {w} && st'.s == st.s && st.S(w) != Mine
    ensures OnePlace(st') && QueuedIff(st')
  {
    ThreadsStay(st, st');
    assert forall u {:trigger InLists(st', u)} {:trigger InLists(st, u)} :: InLists(st', u) <==> InLists(st, u);
    hide ThreadCarries, SleeperCarries, InLists, Adding;
    forall u | u != w ensures Carried(st', u) <==> Carried(st, u) {
      if Carried(st, u) {
        var t :| ThreadCarries(st, t, u);
        assert ThreadCarries(st', t, u);
      }
      if Carried(st', u) {
        var t :| ThreadCarries(st', t, u);
        assert ThreadCarries(st, t, u);
      }
    }
  }

  lemma AddLoadKeeps(st: State)
    requires Inv(st) && st.sleeper.AddLoad?
    ensures Inv(SleeperStep(st))
  {
    var st' := SleeperStep(st);
    AddingAlone(st, st.sleeper.w);
    hide OnePlace, QueuedIff, InLists, Linked, NoDup;
    ThreadsStay(st, st');
    ListsStay(st, st');
    HoldPlaces(st, st', st.sleeper.w);
  }

  lemma AddingAlone(st: State, w: Waker)
    requires OnePlace(st) && QueuedIff(st) && (Adding(st, w) || SleeperCarries(st, w))
    ensures !InLists(st, w) && (forall t :: !ThreadCarries(st, t, w)) && w in st.all && st.S(w) != Mine
  {
  }

  lemma AddCasKeeps(st: State)
    requires Inv(st) && st.sleeper.AddCas?
    ensures Inv(SleeperStep(st))
  {
    hide OnePlace, QueuedIff, InLists, Linked, NoDup;
    var st' := SleeperStep(st);
    var w := st.sleeper.w;
    AddingAlone(st, w);
    ThreadsStay(st, st');
    ListsStay(st, st');
    if st.S(w) == st.sleeper.p {
      ReleasePlaces(st, st', w);
    } else {
      HoldPlaces(st, st', w);
    }
  }

  lemma AddEnqueueKeeps(st: State)
    requires Inv(st) && st.sleeper.AddEnqueue?
    ensures Inv(SleeperStep(st))
  {
    var w, e := st.sleeper.w, st.sleeper.e;
    if Pushing(e) {
      assert SleeperCarries(st, w);
      AddingAlone(st, w);
      if e.CasHead? && st.sharedList == e.v {
        AddPushKeeps(st);
      } else {
        AddPushingKeeps(st);
      }
    } else {
      hide OnePlace, QueuedIff, Lists, InLists;
      ThreadsStay(st, SleeperStep(st));
      QuietKeeps(st, SleeperStep(st));
    }
  }

  lemma AddPushingKeeps(st: State)
    requires Inv(st) && st.sleeper.AddEnqueue? && Pushing(st.sleeper.e) && !(st.sleeper.e.CasHead? && st.sharedList == st.sleeper.e.v)
    requires !InLists(st, st.sleeper.w) && (forall t :: !ThreadCarries(st, t, st.sleeper.w))
    requires st.sleeper.w in st.all && st.S(st.sleeper.w) != Mine
    ensures Inv(SleeperStep(st))
  {
    hide OnePlace, QueuedIff, InLists, Linked, NoDup;
    var st' := SleeperStep(st);
    ThreadsStay(st, st');
    ListsStay(st, st');
    HoldPlaces(st, st', st.sleeper.w);
    forall u | ThreadAt(st', u) && st'.threads[u].e.CasHead?
      ensures st'.NextOf(st'.threads[u].w) == st'.threads[u].e.v
    {
      assert ThreadCarries(st, u, st.threads[u].w);
    }
  }

  lemma AddPushKeeps(st: State)
    requires Inv(st) && st.sleeper.AddEnqueue? && st.sleeper.e.CasHead? && st.sharedList == st.sleeper.e.v
    requires !InLists(st, st.sleeper.w) && (forall t :: !ThreadCarries(st, t, st.sleeper.w))
    requires st.sleeper.w in st.all && st.S(st.sleeper.w) != Mine
    ensures Inv(SleeperStep(st))
  {
    hide OnePlace, QueuedIff, InLists, Linked, NoDup;
    var st' := SleeperStep(st);
    var w := st.sleeper.w;
    ThreadsStay(st, st');
    PushLists(st, st', w);
    AddPushPlaces(st, st', w);
  }

  lemma AddPushPlaces(st: State, st': State, w: Waker)
    requires OnePlace(st) && QueuedIff(st) && st.sleeper.AddEnqueue? && st.sleeper.w == w && Pushing(st.sleeper.e)
    requires (forall t :: !ThreadCarries(st, t, w)) && w in st.all && st.S(w) != Mine
    requires Empty(st'.sleeper)
    requires st' == st.(sharedList := At(w), shared := [w] + st.shared, sleeper := st'.sleeper)
    ensures OnePlace(st') && QueuedIff(st')
  {
    ThreadsStay(st, st');
    assert forall u {:trigger SleeperCarries(st', u)} :: !SleeperCarries(st', u);
    assert forall u {:trigger SleeperCarries(st, u)} :: SleeperCarries(st, u) <==> u == w;
    assert forall u {:trigger Adding(st', u)} {:trigger Adding(st, u)} :: !Adding(st', u) && !Adding(st, u);
    assert forall u {:trigger InLists(st', u)} {:trigger InLists(st, u)} :: InLists(st', u) <==> InLists(st, u) || u == w;
    hide ThreadCarries, SleeperCarries, InLists, Adding;
    forall u ensures Carried(st', u) <==> Carried(st, u) && u != w {
      if Carried(st, u) && u != w {
        var t :| ThreadCarries(st, t, u);
        assert ThreadCarries(st', t, u);
      }
      if Carried(st', u) {
        var t :| ThreadCarries(st', t, u);
        assert ThreadCarries(st, t, u);
      }
    }
  }

  // ----- every step, every run -----

  lemma SleeperKeeps(st: State)
    requires Inv(st) && CanStep(st.sleeper)
    ensures Inv(SleeperStep(st))
  {
    hide Inv, SleeperStep;
    match st.sleeper
    case AddLoad(_) => AddLoadKeeps(st);
    case AddCas(_, _) => AddCasKeeps(st);
    case AddEnqueue(_, _) => AddEnqueueKeeps(st);
    case Next(c, g, n) =>
      match n {
        case SwapShared => SwapKeeps(st);
        case Reverse => if st.v == Null { QuietNextKeeps(st); } else { ReverseKeeps(st); }
        case Pop => PopKeeps(st);
        case _ => QuietNextKeeps(st);
      }
    case Got(c, _, _) => if c.Fetch? { GotFetchKeeps(st); } else { GotDrainKeeps(st); }
    case Scan(_, _, _) => ScanKeeps(st);
    case ScanLoad(_, _, _, _) => ScanKeeps(st);
    case ScanCas(_, _, _, _) => ScanCasKeeps(st);
    case Idle(_) =>
  }

  lemma EnterKeeps(st: State, a: Action)
    requires Inv(st) && Enabled(st, a) && (a.CallAssert? || a.CallClear?)
    ensures Inv(Step(st, a))
  {
    hide OnePlace, QueuedIff, Wakeups, Lists, SamePlaces, InLists, DoneKnows, ListsWhere;
    var st' := Step(st, a);
    ThreadSamePlaces(st, st', a.t);
    PlacesStay(st, st');
    ListsStay(st, st');
    DoneStays(st, st');
    WhereStays(st, st');
    WakeupsStay(st, st', a.t);
    OthersStay(st, st', a.t);
  }

  /** Every atomic step of every caller keeps the invariant. */
  lemma StepKeeps(st: State, a: Action)
    requires Inv(st) && Enabled(st, a)
    ensures Inv(Step(st, a))
  {
    hide Inv, SleeperStep, ThreadStep;
    match a
    case CallAssert(_, _) => EnterKeeps(st, a);
    case CallClear(_, _) => EnterKeeps(st, a);
    case Thread(t) => ThreadKeeps(st, t);
    case CallAddWaker(w) => CallAddKeeps(st, w);
    case CallFetch(_, _) => CallKeeps(st, a);
    case CallDone(_) => CallKeeps(st, a);
    case Sleeper => SleeperKeeps(st);
    case PickScan(_) => CallKeeps(st, a);
  }

  /** A run: the states reached by a list of actions, each enabled in its turn. */
  ghost predicate Runs(st: State, actions: seq<Action>)
    decreases |actions|
  {
    actions == [] || (Enabled(st, actions[0]) && Runs(Step(st, actions[0]), actions[1..]))
  }

  ghost function After(st: State, actions: seq<Action>): State
    requires Runs(st, actions)
    decreases |actions|
  {
    if actions == [] then st else After(Step(st, actions[0]), actions[1..])
  }

  lemma {:induction false} RunKeeps(st: State, actions: seq<Action>)
    requires Inv(st) && Runs(st, actions)
    ensures Inv(After(st, actions))
    decreases |actions|
  {
    if actions != [] {
      StepKeeps(st, actions[0]);
      RunKeeps(Step(st, actions[0]), actions[1..]);
    }
  }

  /** No lost wakeup. In every state of every run: if the sleeper is parked while
      its shared list is not empty, some thread has pushed and has not yet left
      its loop over `waitingG`, or is about to call `goready`. */
  lemma NoLostWakeup(actions: seq<Action>)
    requires Runs(Init(), actions)
    ensures var st := After(Init(), actions);
            IsParked(st) && st.shared != [] ==> exists t :: InLoop(st, t) || AboutToWake(st, t)
  {
    InitInv();
    RunKeeps(Init(), actions);
    var st := After(Init(), actions);
    if IsParked(st) && st.shared != [] {
      if st.waitingG == Zero {
        var t :| AboutToWake(st, t);
        assert InLoop(st, t) || AboutToWake(st, t);
      } else {
        var t :| InLoop(st, t);
        assert InLoop(st, t) || AboutToWake(st, t);
      }
    }
  }

  /** `goready` is only ever called on a goroutine that is parked, by one thread. */
  lemma WakesOnlyParked(actions: seq<Action>, t: Tid, u: Tid)
    requires Runs(Init(), actions) && AboutToWake(After(Init(), actions), t) && AboutToWake(After(Init(), actions), u)
    ensures IsParked(After(Init(), actions)) && t == u
  {
    InitInv();
    RunKeeps(Init(), actions);
  }

  /** An asserted waker is never forgotten: once associated, it is in a list, on
      its way into one, or in the sleeper's hands, until `Fetch` makes it Mine. */
  lemma AssertedIsPending(actions: seq<Action>, w: Waker)
    requires Runs(Init(), actions)
    ensures var st := After(Init(), actions);
            && (w in st.all && st.S(w) == Asserted ==> InLists(st, w) || Carried(st, w) || Adding(st, w))
            && (InLists(st, w) || Carried(st, w) ==> w in st.all && st.S(w) != Mine)
  {
    InitInv();
    RunKeeps(Init(), actions);
  }

  /** In every state of every run: an associated waker that is not just being added is queued
      or on its way exactly when its `s` is not the sleeper, and it is so once at most: one
      carrier, never carried and listed at once, and not twice in the lists. */
  lemma WakersAreUnique(actions: seq<Action>, w: Waker)
    requires Runs(Init(), actions)
    ensures var st := After(Init(), actions);
            && (w in st.all && !Adding(st, w) ==> (st.S(w) != Mine <==> InLists(st, w) || Carried(st, w)))
            && (forall t, u :: ThreadCarries(st, t, w) && ThreadCarries(st, u, w) ==> t == u)
            && (forall t :: ThreadCarries(st, t, w) ==> !SleeperCarries(st, w))
            && (Carried(st, w) ==> !InLists(st, w))
            && NoDup(st.rest + st.local + st.shared)
  {
    InitInv();
    RunKeeps(Init(), actions);
  }

  /** The sleeper's goroutine is inside `Done`. */
  predicate InDone(p: SleeperPc) {
    p.Scan? || p.ScanLoad? || p.ScanCas? || (p.Next? && p.c.Drain?) || (p.Got? && p.c.Drain?)
  }

  /** When `Done` returns, no waker is associated any more, and no thread can push to this
      sleeper. */
  lemma DoneIsClean(actions: seq<Action>, a: Action, w: Waker)
    requires Runs(Init(), actions) && Enabled(After(Init(), actions), a)
    requires InDone(After(Init(), actions).sleeper) && !InDone(Step(After(Init(), actions), a).sleeper)
    ensures var st := Step(After(Init(), actions), a);
            && st.sleeper.Idle? && st.all == {} && !InLists(st, w) && !Carried(st, w) && st.S(w) != Mine
  {
    InitInv();
    RunKeeps(Init(), actions);
    DoneEmpties(After(Init(), actions), a);
    NoneLeft(Step(After(Init(), actions), a), w);
  }

  lemma DoneEmpties(st: State, a: Action)
    requires Inv(st) && Enabled(st, a) && InDone(st.sleeper) && !InDone(Step(st, a).sleeper)
    ensures Inv(Step(st, a)) && Step(st, a).sleeper.Idle? && Step(st, a).all == {}
  {
    hide Lists, OnePlace, NextSet, QueuedIff, AddSane, ListsWhere, Wakeups, DoneKnows, ThreadStep, SleeperStep, InDone;
    StepKeeps(st, a);
    match a
    case CallAddWaker(_) => IdleIsNotDone(st);
    case CallFetch(_, _) => IdleIsNotDone(st);
    case CallDone(_) => IdleIsNotDone(st);
    case Thread(t) => ThreadsKeepDone(st, t);
    case Sleeper => LastStepOfDone(st);
    case PickScan(_) => ScanIsDone(Step(st, a));
    case _ =>
  }

  lemma IdleIsNotDone(st: State)
    ensures InDone(st.sleeper) ==> !st.sleeper.Idle?
  {
  }

  lemma ScanIsDone(st: State)
    ensures st.sleeper.ScanLoad? ==> InDone(st.sleeper)
  {
  }

  lemma ThreadsKeepDone(st: State, t: Tid)
    requires t in st.threads && InDone(st.sleeper)
    ensures InDone(ThreadStep(st, t).sleeper)
  {
  }

  lemma LastStepOfDone(st: State)
    requires DoneKnows(st) && InDone(st.sleeper) && CanStep(st.sleeper) && !InDone(SleeperStep(st).sleeper)
    ensures SleeperStep(st).sleeper.Idle? && SleeperStep(st).all == {}
  {
    hide NextStep;
    if st.sleeper.Next? {
      DrainingGoesOn(st, st.sleeper.c, st.sleeper.g, st.sleeper.n);
    }
  }

  lemma DrainingGoesOn(st: State, c: Caller, g: nat, n: NextPc)
    requires c.Drain? && InDone(st.sleeper)
    ensures InDone(NextStep(st, c, g, n).sleeper)
  {
  }

  lemma NoneLeft(st: State, w: Waker)
    requires Inv(st) && st.all == {}
    ensures !InLists(st, w) && !Carried(st, w) && st.S(w) != Mine
  {
  }

  // ----- the lists are one queue -----

  function Reversed(q: seq<Waker>): seq<Waker> {
    if q == [] then [] else Reversed(q[1..]) + [q[0]]
  }

  /** The wakers in the order `nextWaker` will return them. */
  function Queue(st: State): seq<Waker> {
    Reversed(st.rest) + st.local + Reversed(st.shared)
  }

  /** A step is the push of this waker. */
  predicate IsPush(st: State, a: Action, w: Waker) {
    || (a.Thread? && ThreadCarries(st, a.t, w) && st.threads[a.t].e == CasHead(st.sharedList))
    || (a.Sleeper? && st.sleeper == AddEnqueue(w, CasHead(st.sharedList)))
  }

  predicate IsPop(st: State, a: Action) {
    a.Sleeper? && Popping(st)
  }

  lemma ReversedOne(w: Waker, q: seq<Waker>)
    ensures Reversed([w] + q) == Reversed(q) + [w]
  {
    assert ([w] + q)[1..] == q;
  }

  lemma QueuePush(st: State, st': State, w: Waker)
    requires st'.rest == st.rest && st'.local == st.local && st'.shared == [w] + st.shared
    ensures Queue(st') == Queue(st) + [w]
  {
    ReversedOne(w, st.shared);
  }

  lemma QueueReverse(st: State, st': State)
    requires st.rest != [] && st'.rest == st.rest[1..] && st'.local == [st.rest[0]] + st.local && st'.shared == st.shared
    ensures Queue(st') == Queue(st)
  {
    assert Reversed(st.rest) == Reversed(st.rest[1..]) + [st.rest[0]];
  }

  lemma QueueSwap(st: State, st': State)
    requires st.rest == [] && st.local == [] && st'.rest == st.shared && st'.local == [] && st'.shared == []
    ensures Queue(st') == Queue(st)
  {
    assert Reversed(st.rest) == [] && Reversed(st'.shared) == [];
    assert Queue(st) == Reversed(st.shared) && Queue(st') == Reversed(st.shared);
  }

  lemma QueuePop(st: State, st': State)
    requires st.rest == [] && st'.rest == [] && st.local != [] && st'.local == st.local[1..] && st'.shared == st.shared
    ensures Queue(st) == [st.local[0]] + Queue(st')
  {
    assert Reversed(st.rest) == [];
    assert st.local == [st.local[0]] + st.local[1..];
    assert Queue(st) == st.local + Reversed(st.shared);
    assert Queue(st') == st.local[1..] + Reversed(st.shared);
  }

  /** Across pushes by any thread, the swap and the reversal, the two linked lists
      behave as one first-in first-out queue: a push appends, a pop removes and
      returns the front, and no other step changes it. */
  lemma ListsAreOneQueue(st: State, a: Action)
    requires Inv(st) && Enabled(st, a)
    ensures forall w :: IsPush(st, a, w) ==> Queue(Step(st, a)) == Queue(st) + [w]
    ensures IsPop(st, a) ==>
              && Step(st, a).sleeper.Got?
              && Queue(st) == [Step(st, a).sleeper.w] + Queue(Step(st, a))
    ensures (forall w :: !IsPush(st, a, w)) && !IsPop(st, a) ==> Queue(Step(st, a)) == Queue(st)
  {
    hide OnePlace, QueuedIff, Wakeups, DoneKnows, NextSet, Linked, NoDup, Queue;
    var st' := Step(st, a);
    EmptyHeads(st);
    if a.Thread? {
      ThreadQueue(st, a);
    } else if a.Sleeper? && st.sleeper.AddEnqueue? {
      AddQueue(st, a);
    } else if IsPop(st, a) {
      PopFields(st);
      QueuePop(st, st');
    } else if a.Sleeper? && Reversing(st) && st.v != Null {
      ReverseFields(st);
      QueueReverse(st, st');
    } else if a.Sleeper? && st.sleeper.Next? && st.sleeper.n.SwapShared? {
      QueueSwap(st, st');
    } else {
      SameQueue(st, st');
    }
  }

  lemma SameQueue(st: State, st': State)
    requires st'.rest == st.rest && st'.local == st.local && st'.shared == st.shared
    ensures Queue(st') == Queue(st)
  {
  }

  lemma ThreadQueue(st: State, a: Action)
    requires a.Thread? && a.t in st.threads
    ensures forall w :: IsPush(st, a, w) ==> Queue(ThreadStep(st, a.t)) == Queue(st) + [w]
    ensures (forall w :: !IsPush(st, a, w)) ==> Queue(ThreadStep(st, a.t)) == Queue(st)
  {
    hide Queue;
    var p := st.threads[a.t];
    var st' := ThreadStep(st, a.t);
    if p.Enqueue? && p.e == CasHead(st.sharedList) {
      assert IsPush(st, a, p.w);
      QueuePush(st, st', p.w);
    } else {
      SameQueue(st, st');
    }
  }

  lemma AddQueue(st: State, a: Action)
    requires a.Sleeper? && st.sleeper.AddEnqueue?
    ensures forall w :: IsPush(st, a, w) ==> Queue(SleeperStep(st)) == Queue(st) + [w]
    ensures (forall w :: !IsPush(st, a, w)) ==> Queue(SleeperStep(st)) == Queue(st)
  {
    hide Queue;
    var st' := SleeperStep(st);
    if st.sleeper.e == CasHead(st.sharedList) {
      assert IsPush(st, a, st.sleeper.w);
      QueuePush(st, st', st.sleeper.w);
    } else {
      SameQueue(st, st');
    }
  }
}

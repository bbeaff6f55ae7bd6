/** Reference counting with speculative references, as a step machine over the
    single 64-bit word that packs both counts. */
module Refs {
  import opened Sets

  const SPECULATIVE: int := 0x1_0000_0000

  type Tid = nat

  /** A `TryIncRef` that has added its speculative reference, and what it saw. */
  datatype Try = WillSucceed | WillFail

  datatype State = State(
    refCount: int,        // AtomicRefCount.refCount
    refs: nat,            // references held by anyone
    tries: map<Tid, Try>, // TryIncRef calls between their two additions
    destroyed: nat)       // how often the destructor was started

  datatype Action = IncRef | DecRef | TryBegin(t: Tid) | TryEnd(t: Tid)

  function Init(): State {
    State(0, 1, map[], 0)
  }

  /** The low 32 bits of a word, read as a signed number. */
  function Int32(v: int): int {
    var low := v % 0x1_0000_0000;
    if low >= 0x8000_0000 then low - 0x1_0000_0000 else low
  }

  /** `IncRef` and `DecRef` are called by someone who holds a reference. Both
      counts stay below 2^31. */
  predicate Enabled(s: State, a: Action) {
    match a
    case IncRef => s.refs > 0 && s.refs + |s.tries| + 1 < 0x8000_0000
    case DecRef => s.refs > 0
    case TryBegin(t) => t !in s.tries && s.refs + |s.tries| + 1 < 0x8000_0000
    case TryEnd(t) => t in s.tries
  }

  /** The source panics: an increment from zero, or a decrement below it. */
  predicate Panics(s: State, a: Action) {
    match a
    case IncRef => s.refCount + 1 <= 0
    case DecRef => s.refCount - 1 < -1
    case _ => false
  }

  function Step(s: State, a: Action): State
    requires Enabled(s, a)
  {
    match a
    case IncRef => s.(refCount := s.refCount + 1, refs := s.refs + 1)
    case DecRef =>
      var v := s.refCount - 1;
      s.(refCount := v, refs := s.refs - 1, destroyed := if v == -1 then s.destroyed + 1 else s.destroyed)
    case TryBegin(t) =>
      var v := s.refCount + SPECULATIVE;
      s.(refCount := v, tries := s.tries[t := if Int32(v) < 0 then WillFail else WillSucceed])
    case TryEnd(t) =>
      if s.tries[t].WillFail? then s.(refCount := s.refCount - SPECULATIVE, tries := s.tries - {t})
      else s.(refCount := s.refCount - SPECULATIVE + 1, refs := s.refs + 1, tries := s.tries - {t})
  }

  ghost predicate Inv(s: State) {
    && s.refCount == s.refs - 1 + SPECULATIVE * |s.tries|
    && s.refs + |s.tries| < 0x8000_0000
    && s.destroyed <= 1
    && (s.destroyed > 0 ==> s.refs == 0 && forall t :: t in s.tries ==> s.tries[t].WillFail?)
  }

  /** The last reference is dropped while no `TryIncRef` is in flight. */
  predicate DropsAlone(s: State, a: Action) {
    a.DecRef? && s.refs == 1 && s.tries == map[]
  }

  lemma PackedCounts(refs: nat, n: nat)
    requires refs < 0x8000_0000
    ensures Int32(refs - 1 + SPECULATIVE * n) == refs - 1
  {
    assert SPECULATIVE == 0x1_0000_0000;
  }

  lemma StepKeeps(s: State, a: Action)
    requires Inv(s) && Enabled(s, a)
    ensures Inv(Step(s, a)) && !Panics(s, a)
    ensures Step(s, a).destroyed == s.destroyed + if DropsAlone(s, a) then 1 else 0
  {
    assert SPECULATIVE == 0x1_0000_0000;
    match a
    case IncRef =>
    case DecRef =>
      assert s.tries == map[] <==> |s.tries| == 0;
    case TryBegin(t) =>
      PackedCounts(s.refs, |s.tries| + 1);
      assert s.refCount + SPECULATIVE == s.refs - 1 + SPECULATIVE * (|s.tries| + 1);
    case TryEnd(t) =>
      RemovedOne(s.tries, t);
  }

  lemma RemovedOne(m: map<Tid, Try>, t: Tid)
    requires t in m
    ensures |m - {t}| == |m| - 1
  {
    assert (m - {t}).Keys == m.Keys - {t};
    assert |m| == |m.Keys| && |m - {t}| == |(m - {t}).Keys|;
  }

  ghost predicate Runs(s: State, actions: seq<Action>)
    decreases |actions|
  {
    actions == [] || (Enabled(s, actions[0]) && Runs(Step(s, actions[0]), actions[1..]))
  }

  ghost function After(s: State, actions: seq<Action>): State
    requires Runs(s, actions)
    decreases |actions|
  {
    if actions == [] then s else After(Step(s, actions[0]), actions[1..])
  }

  lemma {:induction false} RunKeeps(s: State, actions: seq<Action>)
    requires Inv(s) && Runs(s, actions)
    ensures Inv(After(s, actions))
    ensures s.destroyed <= After(s, actions).destroyed
    decreases |actions|
  {
    if actions != [] {
      StepKeeps(s, actions[0]);
      RunKeeps(Step(s, actions[0]), actions[1..]);
    }
  }

  /** In every reachable state the word holds both counts, nothing panics, the
      destructor has started at most once, and only when no reference is held
      and no `TryIncRef` in flight is going to succeed. */
  lemma CountsAndDestructor(actions: seq<Action>, a: Action)
    requires Runs(Init(), actions)
    ensures var s := After(Init(), actions);
            && s.refCount == s.refs - 1 + SPECULATIVE * |s.tries|
            && s.destroyed <= 1
            && (s.destroyed == 1 ==> s.refs == 0 && forall t :: t in s.tries ==> s.tries[t].WillFail?)
            && (Enabled(s, a) ==> !Panics(s, a))
  {
    RunKeeps(Init(), actions);
    if Enabled(After(Init(), actions), a) {
      StepKeeps(After(Init(), actions), a);
    }
  }

  /** Once the destructor has started, no later `TryIncRef` succeeds: no reference
      exists in any state that follows. */
  lemma NoneAfterDestructor(actions: seq<Action>, more: seq<Action>)
    requires Runs(Init(), actions) && Runs(After(Init(), actions), more)
    requires After(Init(), actions).destroyed == 1
    ensures After(After(Init(), actions), more).refs == 0
  {
    RunKeeps(Init(), actions);
    RunKeeps(After(Init(), actions), more);
  }

  /** In every run: a `TryIncRef` will succeed exactly when a reference is held at its first addition,
      whatever others do, and then it adds one reference; failing it adds none. */
  lemma TryAnswersTruly(actions: seq<Action>, t: Tid)
    requires Runs(Init(), actions)
    ensures var s := After(Init(), actions);
            && (Enabled(s, TryBegin(t)) ==>
                  t in Step(s, TryBegin(t)).tries && (Step(s, TryBegin(t)).tries[t].WillSucceed? <==> s.refs > 0)
                  && Step(s, TryBegin(t)).refs == s.refs)
            && (Enabled(s, TryEnd(t)) ==>
                  t !in Step(s, TryEnd(t)).tries && Step(s, TryEnd(t)).refs == s.refs + if s.tries[t].WillSucceed? then 1 else 0)
  {
    RunKeeps(Init(), actions);
    var s := After(Init(), actions);
    if Enabled(s, TryBegin(t)) {
      PackedCounts(s.refs, |s.tries| + 1);
      assert s.refCount + SPECULATIVE == s.refs - 1 + SPECULATIVE * (|s.tries| + 1);
    }
  }

  /** Nothing but its own end changes what a `TryIncRef` in flight has seen. */
  lemma TryKeepsItsAnswer(s: State, a: Action, t: Tid)
    requires Inv(s) && Enabled(s, a) && t in s.tries && a != TryEnd(t)
    ensures t in Step(s, a).tries && Step(s, a).tries[t] == s.tries[t]
  {
  }

  /** Action `i` of the run drops the last reference while no `TryIncRef` is in flight. */
  ghost predicate DropsAloneAt(s: State, actions: seq<Action>, i: nat) {
    i < |actions| && Runs(s, actions[..i]) && DropsAlone(After(s, actions[..i]), actions[i])
  }

  lemma OneLater(s: State, actions: seq<Action>, i: nat)
    requires actions != [] && Enabled(s, actions[0])
    ensures DropsAloneAt(s, actions, i + 1) <==> DropsAloneAt(Step(s, actions[0]), actions[1..], i)
  {
    if i + 1 < |actions| {
      assert actions[..i + 1][1..] == actions[1..][..i];
    }
  }

  lemma {:induction false} DestroyedFrom(s: State, actions: seq<Action>)
    requires Inv(s) && Runs(s, actions)
    ensures After(s, actions).destroyed > s.destroyed <==> exists i: nat :: DropsAloneAt(s, actions, i)
    decreases |actions|
  {
    if actions != [] {
      var s', rest := Step(s, actions[0]), actions[1..];
      StepKeeps(s, actions[0]);
      RunKeeps(s', rest);
      DestroyedFrom(s', rest);
      if i: nat :| DropsAloneAt(s, actions, i) {
        if i > 0 { OneLater(s, actions, i - 1); }
      }
      if i: nat :| DropsAloneAt(s', rest, i) { OneLater(s, actions, i); }
      if DropsAlone(s, actions[0]) {
        assert actions[..0] == [];
        assert DropsAloneAt(s, actions, 0);
      }
    }
  }

  /** The destructor has run if and only if at some point of the run a `DecRef` dropped the
      last reference while no `TryIncRef` was in flight. */
  lemma DestroyedExactlyWhen(actions: seq<Action>)
    requires Runs(Init(), actions)
    ensures After(Init(), actions).destroyed == 1 <==> exists i: nat :: DropsAloneAt(Init(), actions, i)
  {
    RunKeeps(Init(), actions);
    DestroyedFrom(Init(), actions);
  }

  lemma Prepend(s: State, a: Action, rest: seq<Action>, s': State, end: State)
    requires Enabled(s, a) && s' == Step(s, a) && Runs(s', rest) && After(s', rest) == end
    ensures Runs(s, [a] + rest) && After(s, [a] + rest) == end
  {
    assert ([a] + rest)[1..] == rest;
  }

  lemma SmallMap(m: map<Tid, Try>)
    requires m.Keys <= {1, 2}
    ensures |m| <= 2
  {
    assert |m| == |m.Keys|;
    SmallerSet(m.Keys, {1, 2});
  }

  const S1 := State(SPECULATIVE, 1, map[1 := WillSucceed], 0)
  const S2 := State(SPECULATIVE - 1, 0, map[1 := WillSucceed], 0)
  const S3 := State(2 * SPECULATIVE - 1, 0, map[1 := WillSucceed, 2 := WillFail], 0)
  const S4 := State(SPECULATIVE, 1, map[2 := WillFail], 0)
  const S5 := State(SPECULATIVE - 1, 0, map[2 := WillFail], 0)
  const S6 := State(-1, 0, map[], 0)

  lemma HiddenStart()
    ensures Enabled(Init(), TryBegin(1)) && S1 == Step(Init(), TryBegin(1))
    ensures Enabled(S1, DecRef) && S2 == Step(S1, DecRef)
    ensures Enabled(S2, TryBegin(2)) && S3 == Step(S2, TryBegin(2))
  {
    SmallMap(S2.tries);
    assert Int32(SPECULATIVE) == 0;
    assert Int32(2 * SPECULATIVE - 1) == -1;
  }

  lemma HiddenEnd()
    ensures Enabled(S3, TryEnd(1)) && S4 == Step(S3, TryEnd(1))
    ensures Enabled(S4, DecRef) && S5 == Step(S4, DecRef)
    ensures Enabled(S5, TryEnd(2)) && S6 == Step(S5, TryEnd(2))
  {
    assert S3.tries - {1} == S4.tries;
    assert S5.tries - {2} == S6.tries;
  }

  /** So "exactly once" fails: a failing `TryIncRef` in flight hides the last drop.
      Nothing refers to the object, nothing is in flight, and it was never destroyed. */
  lemma HiddenLastDrop()
    ensures exists run ::
              && Runs(Init(), run)
              && After(Init(), run) == State(-1, 0, map[], 0)
  {
    HiddenStart();
    HiddenEnd();
    hide Step, Enabled;
    var s := [Init(), S1, S2, S3, S4, S5, S6];
    var r5 := [TryEnd(2)] + [];
    Prepend(s[5], TryEnd(2), [], s[6], s[6]);
    Prepend(s[4], DecRef, r5, s[5], s[6]);
    Prepend(s[3], TryEnd(1), [DecRef] + r5, s[4], s[6]);
    Prepend(s[2], TryBegin(2), [TryEnd(1)] + ([DecRef] + r5), s[3], s[6]);
    Prepend(s[1], DecRef, [TryBegin(2)] + ([TryEnd(1)] + ([DecRef] + r5)), s[2], s[6]);
    Prepend(s[0], TryBegin(1), [DecRef] + ([TryBegin(2)] + ([TryEnd(1)] + ([DecRef] + r5))), s[1], s[6]);
  }
}

/** Where the filter departs from the policy. A blanket rule set for vsyscalls
    leaves its node without a jump to the default action, so a call from user
    code runs on into the next subtree; numbers of 2^32 and more are truncated. */
module SeccompExact {
  import opened Words
  import opened Bpf
  import opened SeccompPolicy
  import opened SeccompCode
  import opened SeccompLabels
  import opened SeccompMeaning
  import opened SeccompSearch

  // ----- every seccomp_data has its bytes -----

  function ByteOf(w: u32, k: nat): u8
    requires k < 4
  {
    if k == 0 then w % 0x100
    else if k == 1 then w / 0x100 % 0x100
    else if k == 2 then w / 0x100 / 0x100 % 0x100
    else w / 0x100 / 0x100 / 0x100
  }

  lemma BytesOfWord(w: u32)
    ensures Word32(ByteOf(w, 0), ByteOf(w, 1), ByteOf(w, 2), ByteOf(w, 3)) == w
  {
  }

  predicate WellFormed(d: Data) {
    |d.args| == 6
  }

  /** The sixteen words of `d`, in layout order. */
  function WordAt(d: Data, j: nat): u32
    requires WellFormed(d) && j < 16
  {
    if j == 0 then d.nr
    else if j == 1 then d.arch
    else
      var v := if j < 4 then d.ip else d.args[j / 2 - 2];
      if j % 2 == 0 then Low(v) else High(v)
  }

  function Encode(d: Data): Bytes
    requires WellFormed(d)
  {
    seq(64, i requires 0 <= i < 64 => ByteOf(WordAt(d, i / 4), i % 4))
  }

  lemma EncodedWord(d: Data, j: nat)
    requires WellFormed(d) && j < 16
    ensures U32At(Encode(d), 4 * j) == WordAt(d, j)
  {
    hide ByteOf, WordAt, Encode, Word32;
    EncodedByte(d, j, 0);
    EncodedByte(d, j, 1);
    EncodedByte(d, j, 2);
    EncodedByte(d, j, 3);
    BytesOfWord(WordAt(d, j));
  }

  lemma EncodedByte(d: Data, j: nat, k: nat)
    requires WellFormed(d) && j < 16 && k < 4
    ensures Encode(d)[4 * j + k] == ByteOf(WordAt(d, j), k)
  {
    hide ByteOf, WordAt;
    assert (4 * j + k) / 4 == j && (4 * j + k) % 4 == k;
  }

  lemma Rejoined(v: u64)
    ensures Low(v) + TWO32 * High(v) == v
  {
    assert TWO32 == 0x1_0000_0000;
  }

  lemma EncodedPair(d: Data, j: nat, v: u64)
    requires WellFormed(d) && j + 1 < 16 && WordAt(d, j) == Low(v) && WordAt(d, j + 1) == High(v)
    ensures U64At(Encode(d), 4 * j) == v
  {
    EncodedWord(d, j);
    EncodedWord(d, j + 1);
    Rejoined(v);
  }

  lemma WordsOf(d: Data)
    requires WellFormed(d)
    ensures WordAt(d, 0) == d.nr && WordAt(d, 1) == d.arch && WordAt(d, 2) == Low(d.ip) && WordAt(d, 3) == High(d.ip)
    ensures WordAt(d, 4) == Low(d.args[0]) && WordAt(d, 5) == High(d.args[0])
    ensures WordAt(d, 6) == Low(d.args[1]) && WordAt(d, 7) == High(d.args[1])
    ensures WordAt(d, 8) == Low(d.args[2]) && WordAt(d, 9) == High(d.args[2])
    ensures WordAt(d, 10) == Low(d.args[3]) && WordAt(d, 11) == High(d.args[3])
    ensures WordAt(d, 12) == Low(d.args[4]) && WordAt(d, 13) == High(d.args[4])
    ensures WordAt(d, 14) == Low(d.args[5]) && WordAt(d, 15) == High(d.args[5])
  {
    hide Low, High;
  }

  lemma DecodeEncode(d: Data)
    requires WellFormed(d)
    ensures Decode(Encode(d)) == d
  {
    hide Encode, U32At, U64At, WordAt;
    WordsOf(d);
    EncodedWord(d, 0);
    EncodedWord(d, 1);
    EncodedPair(d, 2, d.ip);
    EncodedPair(d, 4, d.args[0]);
    EncodedPair(d, 6, d.args[1]);
    EncodedPair(d, 8, d.args[2]);
    EncodedPair(d, 10, d.args[3]);
    EncodedPair(d, 12, d.args[4]);
    EncodedPair(d, 14, d.args[5]);
  }

  lemma IpHighOf(d: Data)
    requires WellFormed(d)
    ensures IpHigh(Encode(d)) == High(d.ip)
  {
    EncodedWord(d, 3);
  }

  // ----- where a search ends -----

  /** The end of a search: a node and the code that follows it, or the default action. */
  datatype Landing = Nowhere | Found(node: u64, after: Forest)

  /** Nodes compare the low word of their number with the key. */
  function Land(f: Forest, key: u32): (l: Landing)
    ensures l.Found? ==> ForestWeight(l.after) < ForestWeight(f) && Low(l.node) == key
    decreases ForestWeight(f)
  {
    if f.Empty? then Nowhere
    else if f.head.Nil? then Land(f.tail, key)
    else
      var t := f.head;
      if key == Low(t.value) then Found(t.value, Children(t, f.tail))
      else if key > Low(t.value) then if t.right.Nil? then Nowhere else Land(Then(t.right, f.tail), key)
      else if t.left.Nil? then Nowhere else Land(Children(t, f.tail), key)
  }

  lemma {:induction false} DescendLands(f: Forest, key: u32, sets: seq<RuleSet>, default: u32, b: Bytes)
    ensures Descend(f, key, sets, default, b) ==
            match Land(f, key)
            case Nowhere => default
            case Found(v, g) =>
              match FirstMatch(sets, 0, v, Decode(b))
              case Act(a) => a
              case NoMatch => if Emitted(sets, v) then Descend(g, IpHigh(b), sets, default, b) else default
    decreases ForestWeight(f)
  {
    hide FirstMatch, Emitted, Decode, IpHigh;
    if f.Then? {
      var t := f.head;
      if t.Nil? {
        DescendLands(f.tail, key, sets, default, b);
      } else if key > Low(t.value) {
        if t.right.Node? { DescendLands(Then(t.right, f.tail), key, sets, default, b); }
      } else if key < Low(t.value) {
        if t.left.Node? { DescendLands(Children(t, f.tail), key, sets, default, b); }
      }
    }
  }

  // ----- verdicts -----

  type Args = a: seq<u64> | |a| == 6 witness seq(6, _ => 0)

  /** What the rule sets of a number say to these arguments, from a vsyscall or from user code. */
  ghost function Verdict(sets: seq<RuleSet>, sysno: u64, vsyscall: bool, args: Args): Decision {
    FirstMatch(sets, 0, sysno, Data(0, 0, if vsyscall then 0x8000_0000_0000_0000 else 0, args))
  }

  lemma {:induction false} SameMatch(sets: seq<RuleSet>, from: nat, sysno: u64, d: Data, e: Data)
    requires WellFormed(d) && d.args == e.args && FromVsyscall(d) == FromVsyscall(e) && from <= |sets|
    ensures FirstMatch(sets, from, sysno, d) == FirstMatch(sets, from, sysno, e)
    decreases |sets| - from
  {
    if from < |sets| {
      assert Applies(sets[from], sysno, d) <==> Applies(sets[from], sysno, e);
      SameMatch(sets, from + 1, sysno, d, e);
    }
  }

  lemma VerdictIs(sets: seq<RuleSet>, sysno: u64, d: Data)
    requires WellFormed(d)
    ensures FirstMatch(sets, 0, sysno, d) == Verdict(sets, sysno, FromVsyscall(d), d.args)
  {
    SameMatch(sets, 0, sysno, d, Data(0, 0, if FromVsyscall(d) then 0x8000_0000_0000_0000 else 0, d.args));
  }

  ghost function OrElse(d: Decision, default: u32): u32 {
    if d.Act? then d.action else default
  }

  /** The first verdict at the nodes that the search for `key` visits when it runs on past
      every node that is left without a jump to the default action. */
  ghost function Onward(f: Forest, key: u32, sets: seq<RuleSet>, vsyscall: bool, args: Args): Decision
    decreases ForestWeight(f)
  {
    match Land(f, key)
    case Nowhere => NoMatch
    case Found(v, g) =>
      if Verdict(sets, v, vsyscall, args).Act? || !Emitted(sets, v) then Verdict(sets, v, vsyscall, args)
      else Onward(g, key, sets, vsyscall, args)
  }

  lemma {:induction false} DescendOnward(f: Forest, sets: seq<RuleSet>, default: u32, b: Bytes)
    ensures Descend(f, IpHigh(b), sets, default, b)
            == OrElse(Onward(f, IpHigh(b), sets, FromVsyscall(Decode(b)), Decode(b).args), default)
    decreases ForestWeight(f)
  {
    hide FirstMatch, Emitted, Decode, IpHigh, Descend, Land, FromVsyscall, Verdict;
    DescendLands(f, IpHigh(b), sets, default, b);
    var l := Land(f, IpHigh(b));
    if l.Found? {
      VerdictIs(sets, l.node, Decode(b));
      DescendOnward(l.after, sets, default, b);
    }
  }

  // ----- the exact condition, for every tree and all rule sets -----

  /** Whenever the node at which the search for `nr` stops has a verdict, or jumps to the
      default action, that is what the rule sets of `nr` itself say. */
  ghost predicate StopsRight(t: Tree, sets: seq<RuleSet>, default: u32, nr: u32, vsyscall: bool, args: Args) {
    var own := OrElse(Verdict(sets, nr, vsyscall, args), default);
    match Land(Then(t, Empty), nr)
    case Nowhere => own == default
    case Found(v, _) =>
      Verdict(sets, v, vsyscall, args).Act? || !Emitted(sets, v) ==> OrElse(Verdict(sets, v, vsyscall, args), default) == own
  }

  /** A call from user code that runs on past that node, with `high` in the upper half of its
      instruction pointer, still gets what the rule sets of `nr` say. */
  ghost predicate RunsOnRight(t: Tree, sets: seq<RuleSet>, default: u32, nr: u32, high: u32, args: Args) {
    match Land(Then(t, Empty), nr)
    case Nowhere => true
    case Found(v, g) =>
      high < 0x8000_0000 && Emitted(sets, v) && Verdict(sets, v, false, args).NoMatch? ==>
        OrElse(Onward(g, high, sets, false, args), default) == OrElse(Verdict(sets, nr, false, args), default)
  }

  ghost predicate NumbersKept(t: Tree, sets: seq<RuleSet>, default: u32) {
    forall nr: u32, vsyscall: bool, args: Args :: StopsRight(t, sets, default, nr, vsyscall, args)
  }

  ghost predicate NothingLeaks(t: Tree, sets: seq<RuleSet>, default: u32) {
    forall nr: u32, high: u32, args: Args :: RunsOnRight(t, sets, default, nr, high, args)
  }

  lemma HighIsTop(b: Bytes)
    ensures FromVsyscall(Decode(b)) <==> IpHigh(b) >= 0x8000_0000
  {
  }

  lemma VsyscallsStop(sets: seq<RuleSet>, sysno: u64, args: Args)
    requires Emitted(sets, sysno)
    ensures Verdict(sets, sysno, true, args).Act?
  {
    var i :| 0 <= i < |sets| && Blanket(sets[i], sysno);
    BlanketActs(sets, 0, i, sysno, Data(0, 0, 0x8000_0000_0000_0000, args));
  }

  /** One call is decided right exactly when it stops right and runs on right. */
  lemma CallDecided(t: Tree, sets: seq<RuleSet>, default: u32, b: Bytes)
    requires Decode(b).arch == AUDIT_ARCH_X86_64
    ensures Filter(t, sets, default, b) == Policy(sets, default, Decode(b)) <==>
              var d := Decode(b);
              StopsRight(t, sets, default, d.nr, FromVsyscall(d), d.args)
              && (!FromVsyscall(d) ==> RunsOnRight(t, sets, default, d.nr, IpHigh(b), d.args))
  {
    hide FirstMatch, Emitted, Decode, IpHigh, Descend, Land, FromVsyscall, Verdict, Onward;
    var d := Decode(b);
    DecodeFields(b);
    DescendLands(Then(t, Empty), d.nr, sets, default, b);
    VerdictIs(sets, d.nr, d);
    HighIsTop(b);
    var l := Land(Then(t, Empty), d.nr);
    if l.Found? {
      VerdictIs(sets, l.node, d);
      DescendOnward(l.after, sets, default, b);
      if Emitted(sets, l.node) { VsyscallsStop(sets, l.node, d.args); }
    }
  }

  /** A call with the given number, upper half of the instruction pointer, and arguments. */
  lemma SomeCall(nr: u32, high: u32, args: Args) returns (b: Bytes)
    ensures Decode(b).nr == nr && Decode(b).arch == AUDIT_ARCH_X86_64 && Decode(b).args == args && IpHigh(b) == high
    ensures FromVsyscall(Decode(b)) <==> high >= 0x8000_0000
  {
    hide Encode, Decode, IpHigh;
    var d := Data(nr, AUDIT_ARCH_X86_64, high * TWO32, args);
    b := Encode(d);
    DecodeEncode(d);
    IpHighOf(d);
    assert High(d.ip) == high;
    HighIsTop(b);
  }

  /** The filter enforces the policy on every input if and only if every search stops at a
      node that decides like the number searched for, and nothing leaks past such a node. */
  lemma CorrectExactlyWhen(t: Tree, sets: seq<RuleSet>, default: u32)
    ensures (forall b: Bytes :: Filter(t, sets, default, b) == Policy(sets, default, Decode(b)))
            <==> NumbersKept(t, sets, default) && NothingLeaks(t, sets, default)
  {
    hide StopsRight, RunsOnRight, Decode, IpHigh, FromVsyscall, Descend, FirstMatch;
    if NumbersKept(t, sets, default) && NothingLeaks(t, sets, default) {
      forall b: Bytes ensures Filter(t, sets, default, b) == Policy(sets, default, Decode(b)) {
        DecodeFields(b);
        if Decode(b).arch == AUDIT_ARCH_X86_64 { CallDecided(t, sets, default, b); }
      }
    }
    if forall b: Bytes :: Filter(t, sets, default, b) == Policy(sets, default, Decode(b)) {
      forall nr: u32, vsyscall: bool, args: Args ensures StopsRight(t, sets, default, nr, vsyscall, args) {
        var b := SomeCall(nr, if vsyscall then 0x8000_0000 else 0, args);
        CallDecided(t, sets, default, b);
      }
      forall nr: u32, high: u32, args: Args ensures RunsOnRight(t, sets, default, nr, high, args) {
        if high < 0x8000_0000 {
          var b := SomeCall(nr, high, args);
          CallDecided(t, sets, default, b);
        } else {
          RunsOnOnlyLow(t, sets, default, nr, high, args);
        }
      }
    }
  }

  lemma RunsOnOnlyLow(t: Tree, sets: seq<RuleSet>, default: u32, nr: u32, high: u32, args: Args)
    requires high >= 0x8000_0000
    ensures RunsOnRight(t, sets, default, nr, high, args)
  {
  }

  /** Without blanket rule sets for vsyscalls, all that matters is where searches stop. */
  lemma CorrectExactlyWhenKept(t: Tree, sets: seq<RuleSet>, default: u32)
    requires NoVsyscallBlanket(sets)
    ensures (forall b: Bytes :: Filter(t, sets, default, b) == Policy(sets, default, Decode(b))) <==> NumbersKept(t, sets, default)
  {
    hide NumbersKept, Decode, Policy, Filter, Land, Onward, FirstMatch;
    CorrectExactlyWhen(t, sets, default);
    forall nr: u32, high: u32, args: Args ensures RunsOnRight(t, sets, default, nr, high, args) {
      var l := Land(Then(t, Empty), nr);
      if l.Found? && Emitted(sets, l.node) {
        var i :| 0 <= i < |sets| && Blanket(sets[i], l.node);
        BlanketActs(sets, 0, i, l.node, Data(0, 0, 0, args));
      }
    }
  }

  // ----- numbers below 2^32 -----

  function ForestValues(f: Forest): set<u64> {
    if f.Empty? then {} else Values(f.head) + ForestValues(f.tail)
  }

  /** Every tree is ordered, and no number occurs twice. */
  ghost predicate Disjoint(f: Forest) {
    f.Then? ==> Ordered(f.head) && Disjoint(f.tail) && Values(f.head) !! ForestValues(f.tail)
  }

  lemma {:induction false} AfterFacts(t: Tree, key: u64, rest: Forest)
    requires key in Values(t) && Disjoint(Then(t, rest))
    ensures Disjoint(After(t, key, rest))
    ensures ForestValues(After(t, key, rest)) <= Values(t) + ForestValues(rest)
    ensures key !in ForestValues(After(t, key, rest))
    decreases t
  {
    if key == t.value {
      assert ForestValues(Then(t.right, rest)) == Values(t.right) + ForestValues(rest);
      assert Disjoint(Then(t.right, rest));
    } else if key > t.value {
      AfterFacts(t.right, key, rest);
    } else {
      assert Disjoint(Then(t.right, rest));
      AfterFacts(t.left, key, Then(t.right, rest));
    }
  }

  lemma OneTree(t: Tree)
    requires Ordered(t)
    ensures Disjoint(Then(t, Empty)) && ForestValues(Then(t, Empty)) == Values(t)
  {
    assert Disjoint(Empty) && ForestValues(Empty) == {};
  }

  /** In an ordered tree the search finds the key's own node, if there is one. */
  lemma {:induction false} LandsOnKey(t: Tree, rest: Forest, key: u32)
    requires t.Node? && Ordered(t) && AllBelow(t, TWO32)
    ensures Land(Then(t, rest), key) == if key in Values(t) then Found(key, After(t, key, rest)) else Nowhere
    decreases t
  {
    assert t.value in Values(t) && Low(t.value) == t.value;
    if key > t.value {
      assert key !in Values(t.left);
      if t.right.Node? { LandsOnKey(t.right, rest, key); }
    } else if key < t.value {
      assert key !in Values(t.right);
      if t.left.Node? { LandsOnKey(t.left, Then(t.right, rest), key); }
    }
  }

  /** A key that no tree holds lands nowhere. */
  lemma {:induction false} LandsNowhere(f: Forest, key: u32)
    requires key !in ForestValues(f) && forall v :: v in ForestValues(f) ==> v < TWO32
    ensures Land(f, key) == Nowhere
    decreases ForestWeight(f)
  {
    if f.Then? {
      var t := f.head;
      if t.Nil? {
        LandsNowhere(f.tail, key);
      } else {
        assert t.value in ForestValues(f);
        if key > t.value {
          LandsNowhere(Then(t.right, f.tail), key);
        } else {
          var g := Children(t, f.tail);
          assert ForestValues(g) == Values(t.left) + (Values(t.right) + ForestValues(f.tail));
          LandsNowhere(g, key);
        }
      }
    }
  }

  /** The first subtree of a forest, if any. */
  function NextTree(f: Forest): Tree {
    if f.Empty? then Nil else if f.head.Node? then f.head else NextTree(f.tail)
  }

  function NextRest(f: Forest): Forest {
    if f.Empty? then Empty else if f.head.Node? then f.tail else NextRest(f.tail)
  }

  lemma {:induction false} SkipNil(f: Forest, key: u32)
    ensures Land(f, key) == if NextTree(f).Nil? then Nowhere else Land(Then(NextTree(f), NextRest(f)), key)
    ensures Disjoint(f) && NextTree(f).Node? ==> Disjoint(Then(NextTree(f), NextRest(f)))
    ensures ForestValues(f) == Values(NextTree(f)) + ForestValues(NextRest(f))
  {
    if f.Then? && f.head.Nil? {
      SkipNil(f.tail, key);
    }
  }

  /** Running on reaches at most one node: that of `high` in the subtree that comes next. */
  lemma RunsOnOnce(f: Forest, high: u32, sets: seq<RuleSet>, args: Args)
    requires Disjoint(f) && forall v :: v in ForestValues(f) ==> v < TWO32
    ensures Onward(f, high, sets, false, args) == if high in Values(NextTree(f)) then Verdict(sets, high, false, args) else NoMatch
  {
    hide Verdict, Emitted, Land;
    SkipNil(f, high);
    var m, rest := NextTree(f), NextRest(f);
    if m.Node? {
      LandsOnKey(m, rest, high);
      if high in Values(m) {
        AfterFacts(m, high, rest);
        LandsNowhere(After(m, high, rest), high);
      }
    }
  }

  /** `sysno` has a blanket rule set that only covers vsyscalls. */
  ghost predicate Hole(sets: seq<RuleSet>, sysno: u64) {
    exists i :: 0 <= i < |sets| && Blanket(sets[i], sysno) && sets[i].vsyscall
  }

  /** Arguments that nothing but the hole of `h` covers get no action but the default one
      from the rule sets of `w`, when they come from user code. */
  ghost predicate Sealed(sets: seq<RuleSet>, default: u32, h: u64, w: u64) {
    forall args: Args :: Verdict(sets, h, false, args).NoMatch? ==> OrElse(Verdict(sets, w, false, args), default) == default
  }

  /** Every hole is sealed against the numbers of the subtree that follows it. Those of 2^31
      and more are out of reach: an instruction pointer with such an upper half is a vsyscall's. */
  ghost predicate LeakFree(t: Tree, sets: seq<RuleSet>, default: u32) {
    forall h, w :: h in Values(t) && Hole(sets, h) && w in Values(NextTree(After(t, h, Empty))) && w < 0x8000_0000 ==>
      Sealed(sets, default, h, w)
  }

  lemma {:induction false} HoleIsOpen(sets: seq<RuleSet>, sysno: u64, args: Args)
    requires Emitted(sets, sysno) && Verdict(sets, sysno, false, args).NoMatch?
    ensures Hole(sets, sysno)
  {
    var i :| 0 <= i < |sets| && Blanket(sets[i], sysno);
    if !sets[i].vsyscall {
      BlanketActs(sets, 0, i, sysno, Data(0, 0, 0, args));
    }
  }

  ghost predicate Narrow(t: Tree, sets: seq<RuleSet>) {
    t.Node? && Ordered(t) && Values(t) == Syscalls(sets) && AllBelow(t, TWO32)
  }

  lemma NarrowStops(t: Tree, sets: seq<RuleSet>, default: u32)
    requires Narrow(t, sets)
    ensures NumbersKept(t, sets, default)
  {
    hide FirstMatch, Emitted, Land, Ordered, Syscalls;
    forall nr: u32, vsyscall: bool, args: Args ensures StopsRight(t, sets, default, nr, vsyscall, args) {
      LandsOnKey(t, Empty, nr);
      if nr !in Values(t) && Verdict(sets, nr, vsyscall, args).Act? {
        MatchNeedsKey(sets, 0, nr, Data(0, 0, if vsyscall then 0x8000_0000_0000_0000 else 0, args));
      }
    }
  }

  /** One number and one upper half of the instruction pointer. */
  lemma NarrowRunsOn(t: Tree, sets: seq<RuleSet>, default: u32, nr: u32, high: u32, args: Args)
    requires Narrow(t, sets)
    ensures RunsOnRight(t, sets, default, nr, high, args) <==>
              (nr in Values(t) && Emitted(sets, nr) && Verdict(sets, nr, false, args).NoMatch?
               && high < 0x8000_0000 && high in Values(NextTree(After(t, nr, Empty)))
               ==> OrElse(Verdict(sets, high, false, args), default) == default)
  {
    hide Verdict, Emitted, Land, Onward, After, NextTree, Syscalls, Ordered;
    LandsOnKey(t, Empty, nr);
    if nr in Values(t) {
      OneTree(t);
      AfterFacts(t, nr, Empty);
      RunsOnOnce(After(t, nr, Empty), high, sets, args);
    }
  }

  /** With all numbers below 2^32, the filter enforces the policy on every input if and only
      if every hole is sealed. */
  lemma CorrectExactlyWhenLeakFree(t: Tree, sets: seq<RuleSet>, default: u32)
    requires Narrow(t, sets)
    ensures (forall b: Bytes :: Filter(t, sets, default, b) == Policy(sets, default, Decode(b))) <==> LeakFree(t, sets, default)
  {
    hide Filter, Policy, Decode, NumbersKept, Verdict, Hole, After, NextTree, RunsOnRight, Emitted;
    CorrectExactlyWhen(t, sets, default);
    NarrowStops(t, sets, default);
    if LeakFree(t, sets, default) {
      forall nr: u32, high: u32, args: Args ensures RunsOnRight(t, sets, default, nr, high, args) {
        NarrowRunsOn(t, sets, default, nr, high, args);
        if Emitted(sets, nr) && Verdict(sets, nr, false, args).NoMatch? { HoleIsOpen(sets, nr, args); }
      }
    }
    if NothingLeaks(t, sets, default) {
      forall h, w | h in Values(t) && Hole(sets, h) && w in Values(NextTree(After(t, h, Empty))) && w < 0x8000_0000
        ensures Sealed(sets, default, h, w)
      {
        HoleIsEmitted(sets, h);
        forall args: Args | Verdict(sets, h, false, args).NoMatch? ensures OrElse(Verdict(sets, w, false, args), default) == default {
          NarrowRunsOn(t, sets, default, h, w, args);
        }
      }
    }
  }

  lemma HoleIsEmitted(sets: seq<RuleSet>, h: u64)
    requires Hole(sets, h)
    ensures Emitted(sets, h)
  {
  }

  // ----- two concrete calls -----

  const ALLOW: u32 := 0x7fff_0000
  const KILL: u32 := 0x8000_0000

  const ZEROS: seq<u64> := [0, 0, 0, 0, 0, 0]

  /** System call 1 for vsyscalls only, system call 0 for all. */
  const LEAKY: seq<RuleSet> := [RuleSet(map[1 := []], ALLOW, true), RuleSet(map[0 := []], ALLOW, false)]

  lemma LeakyMatches(d: Data)
    requires d == Data(1, AUDIT_ARCH_X86_64, 0, ZEROS)
    ensures FirstMatch(LEAKY, 0, 1, d) == NoMatch && Emitted(LEAKY, 1)
    ensures FirstMatch(LEAKY, 0, 0, d) == Act(ALLOW)
  {
    assert Blanket(LEAKY[0], 1);
    assert !Applies(LEAKY[0], 1, d) && !Applies(LEAKY[1], 1, d);
    assert !Applies(LEAKY[0], 0, d) && Applies(LEAKY[1], 0, d);
    assert FirstMatch(LEAKY, 2, 1, d) == NoMatch;
    assert FirstMatch(LEAKY, 1, 0, d) == Act(ALLOW);
  }

  /** System call 1 is for vsyscalls only, yet user code at address 0 is let through. */
  lemma VsyscallLeak()
    ensures var b := Encode(Data(1, AUDIT_ARCH_X86_64, 0, ZEROS));
            && Filter(CreateBST([0, 1]), LEAKY, KILL, b) == ALLOW
            && Policy(LEAKY, KILL, Decode(b)) == KILL
  {
    hide Encode, Decode, FirstMatch, Emitted, U32At, IpHigh;
    var d := Data(1, AUDIT_ARCH_X86_64, 0, ZEROS);
    var b := Encode(d);
    DecodeEncode(d);
    DecodeFields(b);
    IpHighOf(d);
    LeakyMatches(d);
    var leaf := Node(0, Nil, Nil);
    assert [0, 1][..1] == [0];
    assert CreateBST([0]) == leaf;
    assert CreateBST([0, 1]) == Node(1, leaf, Nil);
    var rest := Children(Node(1, leaf, Nil), Empty);
    assert Descend(rest, 0, LEAKY, KILL, b) == ALLOW;
  }

  /** A rule for number 2^32 only. */
  const WIDE: seq<RuleSet> := [RuleSet(map[0x1_0000_0000 := []], ALLOW, false)]

  lemma WideMatches(d: Data)
    requires d == Data(0, AUDIT_ARCH_X86_64, 0, ZEROS)
    ensures FirstMatch(WIDE, 0, 0, d) == NoMatch && FirstMatch(WIDE, 0, 0x1_0000_0000, d) == Act(ALLOW)
  {
    assert !Applies(WIDE[0], 0, d) && Applies(WIDE[0], 0x1_0000_0000, d);
    assert FirstMatch(WIDE, 1, 0, d) == NoMatch;
  }

  /** A rule for number 2^32 lets system call 0 through. */
  lemma TruncatedNumber()
    ensures var b := Encode(Data(0, AUDIT_ARCH_X86_64, 0, ZEROS));
            && Filter(CreateBST([0x1_0000_0000]), WIDE, KILL, b) == ALLOW
            && Policy(WIDE, KILL, Decode(b)) == KILL
  {
    hide Encode, Decode, FirstMatch, Emitted, U32At, IpHigh;
    var d := Data(0, AUDIT_ARCH_X86_64, 0, ZEROS);
    DecodeEncode(d);
    DecodeFields(Encode(d));
    WideMatches(d);
    assert CreateBST([0x1_0000_0000]) == Node(0x1_0000_0000, Nil, Nil);
    assert Low(0x1_0000_0000) == 0;
  }
}

/** What the generated code computes. `Descend` is the exact meaning of a
    preorder run of subtrees, for every list of rule sets; each lemma relates a
    piece of labelled code to it, from single instructions up to whole trees. */
module SeccompMeaning {
  import opened Words
  import opened Bpf
  import opened Assembler
  import opened SeccompPolicy
  import opened SeccompCode

  // ----- single instructions -----

  function In(b: Bytes): Input { InputBytes(b, false) }

  /** Line `pc` holds the instruction `i`. */
  ghost predicate At(s: Symbolic<Label>, pc: nat, i: Item<Label>)
    requires i.Code?
  {
    pc < |s.code| && s.code[pc] == i.insn
  }

  /** Code without marks lies on consecutive lines. */
  lemma {:induction false} PlainCodeAt(s: Symbolic<Label>, pc: nat, items: Listing)
    requires CodeAt(s, pc, items) && forall i :: 0 <= i < |items| ==> items[i].Code?
    ensures |CodeOf(items)| == |items|
    ensures forall i :: 0 <= i < |items| ==> At(s, pc + i, items[i])
    decreases |items|
  {
    if items != [] {
      PlainCodeAt(s, pc + 1, items[1..]);
      forall i | 0 <= i < |items| ensures At(s, pc + i, items[i]) {
        if i > 0 {
          assert At(s, pc + 1 + (i - 1), items[1..][i - 1]);
        }
      }
    }
  }

  lemma LoadRuns(s: Symbolic<Label>, pc: nat, m: Machine, b: Bytes, off: u32)
    requires Forward(s) && At(s, pc, Stmt(LOAD, off)) && off + 4 <= 64
    ensures RunSym(s, pc, m, In(b)) == RunSym(s, pc + 1, m.(a := U32At(b, off)), In(b))
  {
    assert Step(LOAD, off, m, In(b)) == Next(m.(a := U32At(b, off)), Sequential);
  }

  lemma ReturnRuns(s: Symbolic<Label>, pc: nat, m: Machine, in_: Input, v: u32)
    requires Forward(s) && At(s, pc, Stmt(RETK, v))
    ensures RunSym(s, pc, m, in_) == Value(v)
  {
    assert Step(RETK, v, m, in_) == Return(v);
  }

  lemma GotoRuns(s: Symbolic<Label>, pc: nat, m: Machine, in_: Input, l: Label)
    requires Forward(s) && At(s, pc, Code(Goto(l)))
    ensures l in s.targets && RunSym(s, pc, m, in_) == RunSym(s, s.targets[l], m, in_)
  {
    assert JumpsTo(s, pc, OnJump, l);
    assert Step(JMP | JA, 0xffff_ffff, m, in_) == Next(m, Direct);
  }

  lemma JumpIsMarked(s: Symbolic<Label>, line: nat, slot: Slot, l: Label)
    requires Forward(s) && JumpsTo(s, line, slot, l)
    ensures l in s.targets
  {
  }

  /** The three conditional jumps the generator emits. */
  predicate Holds(op: bv16, a: u32, k: u32) {
    if op == IFEQ then a == k else if op == IFGT then a > k else Bitwise32(And, a, k) != 0
  }

  lemma BranchRuns(s: Symbolic<Label>, pc: nat, m: Machine, in_: Input, i: SymInsn<Label>)
    requires Forward(s) && At(s, pc, Code(i))
    requires i.Plain? && i.op in {IFEQ, IFGT, IFSET}
    ensures var t := if Holds(i.op, m.a, i.k) then i.jt else i.jf;
            && (t.To? ==> t.name in s.targets)
            && RunSym(s, pc, m, in_) ==
               RunSym(s, if t.To? then s.targets[t.name] else pc + 1 + t.n, m, in_)
  {
    var cond := Holds(i.op, m.a, i.k);
    assert Step(i.op, i.k, m, in_) == Next(m, if cond then WhenTrue else WhenFalse);
    if cond {
      if i.jt.To? { assert JumpsTo(s, pc, OnTrue, i.jt.name); }
    } else {
      if i.jf.To? { assert JumpsTo(s, pc, OnFalse, i.jf.name); }
    }
  }

  // ----- matching the arguments -----

  lemma SplitWords(lo: u32, hi: u32)
    ensures Low(lo + TWO32 * hi) == lo && High(lo + TWO32 * hi) == hi
  {
    assert TWO32 == 0x1_0000_0000;
  }

  lemma ArgWords(b: Bytes, i: nat)
    requires i < 6
    ensures Low(Decode(b).args[i]) == U32At(b, ArgLow(i)) && High(Decode(b).args[i]) == U32At(b, ArgHigh(i))
  {
    assert Decode(b).args[i] == U64At(b, ArgLow(i));
    SplitWords(U32At(b, ArgLow(i)), U32At(b, ArgHigh(i)));
  }

  lemma SameWords(v: u64, w: u64)
    ensures v == w <==> Low(v) == Low(w) && High(v) == High(w)
  {
  }

  /** Arguments `i` to 5 match. */
  ghost predicate MatchesFrom(r: Rule, args: seq<u64>, i: nat)
    requires |args| == 6
  {
    forall j :: i <= j < 6 && r[j].AllowValue? ==> args[j] == r[j].value
  }

  lemma ArgRuns(s: Symbolic<Label>, pc: nat, m: Machine, b: Bytes, v: u64, i: nat, violation: Label)
    returns (m': Machine)
    requires i < 6 && Forward(s) && CodeAt(s, pc, ArgCode(AllowValue(v), i, violation))
    ensures violation in s.targets
    ensures RunSym(s, pc, m, In(b)) ==
            RunSym(s, if Decode(b).args[i] == v then pc + 4 else s.targets[violation], m', In(b))
  {
    hide RunSym, Step, Forward, Decode;
    var c := ArgCode(AllowValue(v), i, violation);
    PlainCodeAt(s, pc, c);
    assert At(s, pc, c[0]) && At(s, pc + 1, c[1]) && At(s, pc + 2, c[2]) && At(s, pc + 3, c[3]);
    JumpIsMarked(s, pc + 1, OnFalse, violation);
    ArgWords(b, i);
    SameWords(Decode(b).args[i], v);
    LoadRuns(s, pc, m, b, ArgLow(i));
    m' := m.(a := U32At(b, ArgLow(i)));
    BranchRuns(s, pc + 1, m', In(b), c[1].insn);
    if m'.a == Low(v) {
      LoadRuns(s, pc + 2, m', b, ArgHigh(i));
      m' := m'.(a := U32At(b, ArgHigh(i)));
      BranchRuns(s, pc + 3, m', In(b), c[3].insn);
    }
  }

  lemma ArgLength(arg: Arg, i: nat, violation: Label)
    requires i < 6
    ensures |CodeOf(ArgCode(arg, i, violation))| == if arg.AllowValue? then 4 else 0
  {
    if arg.AllowValue? {
      AllCode(ArgCode(arg, i, violation));
    }
  }

  lemma NoCode()
    ensures CodeOf<Label>([]) == []
  {
  }

  lemma {:induction false} AllCode(items: Listing)
    requires forall i :: 0 <= i < |items| ==> items[i].Code?
    ensures |CodeOf(items)| == |items|
  {
    if items != [] {
      AllCode(items[1..]);
    }
  }

  lemma {:induction false} ArgsRun(s: Symbolic<Label>, pc: nat, m: Machine, b: Bytes, r: Rule, i: nat, violation: Label)
    returns (m': Machine)
    requires i <= 6 && Forward(s) && CodeAt(s, pc, ArgsCode(r, i, violation))
    ensures MatchesFrom(r, Decode(b).args, i) ==>
              RunSym(s, pc, m, In(b)) == RunSym(s, pc + |CodeOf(ArgsCode(r, i, violation))|, m', In(b))
    ensures !MatchesFrom(r, Decode(b).args, i) ==>
              violation in s.targets && RunSym(s, pc, m, In(b)) == RunSym(s, s.targets[violation], m', In(b))
    decreases 6 - i
  {
    hide RunSym, Step, Forward, Decode, CodeAt, CodeOf, ArgCode;
    m' := m;
    if i < 6 {
      var c, rest := ArgCode(r[i], i, violation), ArgsCode(r, i + 1, violation);
      CodeAtSplit(s, pc, c, rest);
      CodeOfAppend(c, rest);
      ArgLength(r[i], i, violation);
      if r[i].AllowValue? {
        m' := ArgRuns(s, pc, m, b, r[i].value, i, violation);
        if Decode(b).args[i] == r[i].value {
          m' := ArgsRun(s, pc + 4, m', b, r, i + 1, violation);
        }
      } else {
        m' := ArgsRun(s, pc, m, b, r, i + 1, violation);
      }
    } else {
      NoCode();
    }
  }

  /** Splits code into three parts, with the line each starts on. */
  lemma CodeAt3(s: Symbolic<Label>, pc: nat, a: Listing, b: Listing, c: Listing)
    requires CodeAt(s, pc, a + b + c)
    ensures CodeAt(s, pc, a) && CodeAt(s, pc + |CodeOf(a)|, b)
    ensures CodeAt(s, pc + |CodeOf(a)| + |CodeOf(b)|, c)
    ensures |CodeOf(a + b + c)| == |CodeOf(a)| + |CodeOf(b)| + |CodeOf(c)|
  {
    CodeAtSplit(s, pc, a + b, c);
    CodeAtSplit(s, pc, a, b);
    CodeOfAppend(a + b, c);
    CodeOfAppend(a, b);
  }

  lemma OneLine(s: Symbolic<Label>, pc: nat, i: Item<Label>)
    requires i.Code? && CodeAt(s, pc, [i])
    ensures At(s, pc, i) && |CodeOf([i])| == 1
  {
  }

  lemma OneMark(s: Symbolic<Label>, pc: nat, l: Label)
    requires CodeAt(s, pc, [Mark(l)])
    ensures l in s.targets && s.targets[l] == pc && |CodeOf([Mark(l)])| == 0
  {
  }

  lemma RuleRuns(s: Symbolic<Label>, pc: nat, m: Machine, b: Bytes, r: Rule, action: u32, set_: nat, sysno: u64, idx: nat)
    returns (m': Machine)
    requires Forward(s) && CodeAt(s, pc, RuleCode(r, action, set_, sysno, idx))
    ensures RunSym(s, pc, m, In(b)) ==
            if Matches(r, Decode(b).args) then Value(action)
            else RunSym(s, pc + |CodeOf(RuleCode(r, action, set_, sysno, idx))|, m', In(b))
  {
    hide RunSym, Step, Forward, Decode, CodeAt, CodeOf, ArgsCode, At;
    var violation := RuleViolation(set_, sysno, idx);
    var args := ArgsCode(r, 0, violation);
    var end: Listing := if Labelled(r) then [Mark(violation)] else [];
    CodeAt3(s, pc, args, [Stmt(RETK, action)], end);
    OneLine(s, pc + |CodeOf(args)|, Stmt(RETK, action));
    m' := ArgsRun(s, pc, m, b, r, 0, violation);
    if Matches(r, Decode(b).args) {
      ReturnRuns(s, pc + |CodeOf(args)|, m', In(b), action);
    } else {
      OneMark(s, pc + |CodeOf(args)| + 1, violation);
    }
  }

  lemma {:induction false} RulesRun(s: Symbolic<Label>, pc: nat, m: Machine, b: Bytes,
                                    rules: seq<Rule>, action: u32, set_: nat, sysno: u64, idx: nat)
    returns (m': Machine)
    requires idx <= |rules| && Forward(s) && CodeAt(s, pc, RulesCode(rules, action, set_, sysno, idx))
    ensures RunSym(s, pc, m, In(b)) ==
            if exists i :: idx <= i < |rules| && Matches(rules[i], Decode(b).args) then Value(action)
            else RunSym(s, pc + |CodeOf(RulesCode(rules, action, set_, sysno, idx))|, m', In(b))
    decreases |rules| - idx
  {
    hide RunSym, Step, Forward, Decode, CodeAt, CodeOf, RuleCode, Matches;
    m' := m;
    if idx < |rules| {
      var c, rest := RuleCode(rules[idx], action, set_, sysno, idx), RulesCode(rules, action, set_, sysno, idx + 1);
      CodeAtSplit(s, pc, c, rest);
      CodeOfAppend(c, rest);
      m' := RuleRuns(s, pc, m, b, rules[idx], action, set_, sysno, idx);
      if !Matches(rules[idx], Decode(b).args) {
        m' := RulesRun(s, pc + |CodeOf(c)|, m', b, rules, action, set_, sysno, idx + 1);
      }
    } else {
      NoCode();
    }
  }

  lemma MatchersRun(s: Symbolic<Label>, pc: nat, m: Machine, b: Bytes, rs: RuleSet, set_: nat, sysno: u64)
    returns (m': Machine)
    requires sysno in rs.rules && Forward(s) && CodeAt(s, pc, MatchersCode(rs, set_, sysno))
    ensures RunSym(s, pc, m, In(b)) ==
            if Allowed(rs.rules[sysno], Decode(b).args) then Value(rs.action)
            else RunSym(s, pc + |CodeOf(MatchersCode(rs, set_, sysno))|, m', In(b))
  {
    hide RunSym, Step, Forward, Decode, CodeAt, CodeOf, RulesCode, Matches, At;
    if rs.rules[sysno] == [] {
      OneLine(s, pc, Stmt(RETK, rs.action));
      ReturnRuns(s, pc, m, In(b), rs.action);
      m' := m;
    } else {
      m' := RulesRun(s, pc, m, b, rs.rules[sysno], rs.action, set_, sysno, 0);
    }
  }

  // ----- rule sets -----

  /** The high word of the instruction pointer. */
  function IpHigh(b: Bytes): u32 { U32At(b, IP_HIGH_OFFSET) }

  lemma VsyscallBit(b: Bytes)
    ensures Holds(IFSET, IpHigh(b), 0x8000_0000) <==> FromVsyscall(Decode(b))
  {
    TopBit32(IpHigh(b));
    assert IFSET != IFEQ && IFSET != IFGT;
  }

  /** A rule set either acts or falls through to the code after it. When a
      blanket rule set falls through, A holds the high word of the instruction pointer. */
  lemma SetRuns(s: Symbolic<Label>, pc: nat, m: Machine, b: Bytes, rs: RuleSet, set_: nat, sysno: u64)
    returns (m': Machine)
    requires sysno in rs.rules && Forward(s) && CodeAt(s, pc, SetCode(rs, set_, sysno))
    ensures RunSym(s, pc, m, In(b)) ==
            if Applies(rs, sysno, Decode(b)) then Value(rs.action)
            else RunSym(s, pc + |CodeOf(SetCode(rs, set_, sysno))|, m', In(b))
    ensures Blanket(rs, sysno) && !Applies(rs, sysno, Decode(b)) ==> m'.a == IpHigh(b)
  {
    hide RunSym, Step, Forward, Decode, CodeAt, CodeOf, MatchersCode, Matches, At, Holds, FromVsyscall;
    if rs.vsyscall {
      var violation := VsyscallViolation(set_, sysno);
      var jump := JumpFalse(IFSET, 0x8000_0000, 0, violation);
      var check: Listing := [Stmt(LOAD, IP_HIGH_OFFSET), jump];
      var body := MatchersCode(rs, set_, sysno);
      CodeAt3(s, pc, check, body, [Mark(violation)]);
      PlainCodeAt(s, pc, check);
      assert At(s, pc, check[0]) && At(s, pc + 1, check[1]);
      OneMark(s, pc + 2 + |CodeOf(body)|, violation);
      LoadRuns(s, pc, m, b, IP_HIGH_OFFSET);
      m' := m.(a := IpHigh(b));
      BranchRuns(s, pc + 1, m', In(b), jump.insn);
      VsyscallBit(b);
      if FromVsyscall(Decode(b)) {
        m' := MatchersRun(s, pc + 2, m', b, rs, set_, sysno);
      }
    } else {
      m' := MatchersRun(s, pc, m, b, rs, set_, sysno);
    }
  }

  /** A rule set follows a blanket action for the same system call. */
  ghost predicate Unreachable(sets: seq<RuleSet>, sysno: u64) {
    exists i, j :: 0 <= i < j < |sets| && Blanket(sets[i], sysno) && sysno in sets[j].rules
  }

  /** The rule sets for one system call act as the first match, or leave
      the machine at the end of their code. */
  lemma {:induction false} SetsRun(s: Symbolic<Label>, pc: nat, m: Machine, b: Bytes,
                                   sets: seq<RuleSet>, set_: nat, sysno: u64)
    returns (m': Machine)
    requires set_ <= |sets| && Forward(s) && CodeAt(s, pc, SetsCode(sets, set_, sysno))
    ensures RunSym(s, pc, m, In(b)) ==
            match FirstMatch(sets, set_, sysno, Decode(b))
            case Act(a) => Value(a)
            case NoMatch => RunSym(s, pc + |CodeOf(SetsCode(sets, set_, sysno))|, m', In(b))
    ensures (&& FirstMatch(sets, set_, sysno, Decode(b)).NoMatch?
             && !Unreachable(sets, sysno)
             && exists i :: set_ <= i < |sets| && Blanket(sets[i], sysno)) ==> m'.a == IpHigh(b)
    ensures (forall i :: set_ <= i < |sets| ==> sysno !in sets[i].rules) ==> m' == m
    decreases |sets| - set_
  {
    hide RunSym, Step, Forward, Decode, CodeAt, CodeOf, SetCode, Applies;
    m' := m;
    if set_ < |sets| {
      var rs := sets[set_];
      var c: Listing := if sysno in rs.rules then SetCode(rs, set_, sysno) else [];
      var rest := SetsCode(sets, set_ + 1, sysno);
      CodeAtSplit(s, pc, c, rest);
      CodeOfAppend(c, rest);
      if sysno in rs.rules {
        m' := SetRuns(s, pc, m, b, rs, set_, sysno);
        if !Applies(rs, sysno, Decode(b)) {
          m' := SetsRun(s, pc + |CodeOf(c)|, m', b, sets, set_ + 1, sysno);
        }
      } else {
        NoCode();
        NeedsKey(rs, sysno, Decode(b));
        m' := SetsRun(s, pc, m, b, sets, set_ + 1, sysno);
      }
    } else {
      NoCode();
    }
  }

  lemma NeedsKey(rs: RuleSet, sysno: u64, d: Data)
    requires |d.args| == 6 && sysno !in rs.rules
    ensures !Applies(rs, sysno, d)
  {
  }

  // ----- trees -----

  /** Subtrees whose code follows one another in the program. */
  datatype Forest = Empty | Then(head: Tree, tail: Forest)

  function Weight(t: Tree): nat {
    if t.Nil? then 1 else 2 + Weight(t.left) + Weight(t.right)
  }

  function ForestWeight(f: Forest): nat {
    if f.Empty? then 0 else Weight(f.head) + ForestWeight(f.tail)
  }

  function ForestCode(f: Forest, sets: seq<RuleSet>): Listing {
    if f.Empty? then [] else TreeCode(f.head, sets) + ForestCode(f.tail, sets)
  }

  /** The subtrees of `t`, then `rest`: what follows the code of node `t`. */
  function Children(t: Tree, rest: Forest): (f: Forest)
    requires t.Node?
    ensures ForestWeight(f) == Weight(t.left) + Weight(t.right) + ForestWeight(rest)
  {
    assert ForestWeight(Then(t.right, rest)) == Weight(t.right) + ForestWeight(rest);
    Then(t.left, Then(t.right, rest))
  }

  /** The exact meaning of the code of a forest, entered with `key` in A. A node
      compares the low word of its number. A matching node whose rule sets do
      not act goes to the default action, unless its last rule set is a blanket
      one: then control runs on into the code that follows, the node's own
      subtrees first, now comparing the high word of the instruction pointer. */
  ghost function Descend(f: Forest, key: u32, sets: seq<RuleSet>, default: u32, b: Bytes): u32
    decreases ForestWeight(f)
  {
    if f.Empty? then default
    else if f.head.Nil? then Descend(f.tail, key, sets, default, b)
    else
      var t := f.head;
      if key == Low(t.value) then
        match FirstMatch(sets, 0, t.value, Decode(b))
        case Act(a) => a
        case NoMatch =>
          if Emitted(sets, t.value) then Descend(Children(t, f.tail), IpHigh(b), sets, default, b)
          else default
      else if key > Low(t.value) then
        if t.right.Nil? then default else Descend(Then(t.right, f.tail), key, sets, default, b)
      else
        if t.left.Nil? then default else Descend(Children(t, f.tail), key, sets, default, b)
  }

  ghost predicate NoneUnreachable(sets: seq<RuleSet>) {
    forall v: u64 :: !Unreachable(sets, v)
  }

  lemma EpilogueRuns(s: Symbolic<Label>, pc: nat, m: Machine, in_: Input, default: u32)
    requires Forward(s) && CodeAt(s, pc, Epilogue(default))
    ensures Default in s.targets && s.targets[Default] == pc
    ensures RunSym(s, pc, m, in_) == Value(default)
  {
    hide RunSym, Step, Forward;
    assert Epilogue(default)[1..] == [Stmt(RETK, default)];
    OneLine(s, pc, Stmt(RETK, default));
    ReturnRuns(s, pc, m, in_, default);
  }

  /** A jump to the default label returns the default action. */
  lemma DefaultRuns(s: Symbolic<Label>, pc: nat, end: nat, m: Machine, in_: Input, default: u32)
    requires Forward(s) && At(s, pc, Code(Goto(Default))) && CodeAt(s, end, Epilogue(default))
    ensures RunSym(s, pc, m, in_) == Value(default)
  {
    hide RunSym, Step, Forward, CodeAt;
    GotoRuns(s, pc, m, in_, Default);
    EpilogueRuns(s, end, m, in_, default);
  }

  /** The argument check of a node: act, go to the default, or run on. */
  lemma ArgsCheckRuns(s: Symbolic<Label>, pc: nat, end: nat, m: Machine, b: Bytes,
                      sets: seq<RuleSet>, sysno: u64, default: u32)
    returns (m': Machine)
    requires Forward(s) && !Unreachable(sets, sysno)
    requires CodeAt(s, pc, ArgsCheckCode(sets, sysno)) && CodeAt(s, end, Epilogue(default))
    ensures m'.a == IpHigh(b)
    ensures RunSym(s, pc, m, In(b)) ==
            match FirstMatch(sets, 0, sysno, Decode(b))
            case Act(a) => Value(a)
            case NoMatch =>
              if Emitted(sets, sysno) then RunSym(s, pc + |CodeOf(ArgsCheckCode(sets, sysno))|, m', In(b))
              else Value(default)
  {
    hide RunSym, Step, Forward, Decode, CodeAt, CodeOf, SetsCode, At, FirstMatch, Unreachable;
    var c := SetsCode(sets, 0, sysno);
    var end_: Listing := if Emitted(sets, sysno) then [] else [Code(Goto(Default))];
    CodeAtSplit(s, pc, c, end_);
    CodeOfAppend(c, end_);
    m' := SetsRun(s, pc, m, b, sets, 0, sysno);
    if FirstMatch(sets, 0, sysno, Decode(b)).NoMatch? && Emitted(sets, sysno) {
      NoCode();
    } else {
      if !Emitted(sets, sysno) {
        OneLine(s, pc + |CodeOf(c)|, Code(Goto(Default)));
        DefaultRuns(s, pc + |CodeOf(c)|, end, m', In(b), default);
      }
      m' := m'.(a := IpHigh(b));
    }
  }

  /** The code of a node `t` and of everything after it, with the lines of its parts. */
  ghost predicate Laid(s: Symbolic<Label>, pc: nat, args: nat, left: nat, right: nat, next: nat, end: nat,
                       t: Tree, rest: Forest, sets: seq<RuleSet>, default: u32)
    requires t.Node?
  {
    && At(s, pc, JumpTrue(IFEQ, Low(t.value), CheckArgs(t.value), 0))
    && CodeAt(s, pc + 1, BranchCode(t))
    && CheckArgs(t.value) in s.targets && s.targets[CheckArgs(t.value)] == args
    && CodeAt(s, args, ArgsCheckCode(sets, t.value))
    && args + |CodeOf(ArgsCheckCode(sets, t.value))| == left
    && CodeAt(s, left, TreeCode(t.left, sets)) && left + |CodeOf(TreeCode(t.left, sets))| == right
    && CodeAt(s, right, TreeCode(t.right, sets)) && right + |CodeOf(TreeCode(t.right, sets))| == next
    && CodeAt(s, next, ForestCode(rest, sets)) && next + |CodeOf(ForestCode(rest, sets))| == end
    && CodeAt(s, end, Epilogue(default))
  }

  lemma Layout(s: Symbolic<Label>, pc: nat, t: Tree, rest: Forest, sets: seq<RuleSet>, default: u32)
    returns (args: nat, left: nat, right: nat, next: nat, end: nat)
    requires t.Node? && CodeAt(s, pc, RootCode(t, sets) + ForestCode(rest, sets) + Epilogue(default))
    ensures Laid(s, pc, args, left, right, next, end, t, rest, sets, default)
  {
    hide TreeCode, ForestCode, ArgsCheckCode, BranchCode, CodeAt, CodeOf, At;
    var jump: Listing := [JumpTrue(IFEQ, Low(t.value), CheckArgs(t.value), 0)];
    var branch := BranchCode(t);
    var mark: Listing := [Mark(CheckArgs(t.value))];
    var check := ArgsCheckCode(sets, t.value);
    var l, r := TreeCode(t.left, sets), TreeCode(t.right, sets);
    CodeAt3(s, pc, RootCode(t, sets), ForestCode(rest, sets), Epilogue(default));
    CodeAt3(s, pc, NodeCode(t, sets), l, r);
    CodeAtSplit(s, pc, jump + branch + mark, check);
    CodeOfAppend(jump + branch + mark, check);
    CodeAt3(s, pc, jump, branch, mark);
    OneLine(s, pc, jump[0]);
    args := pc + |CodeOf(jump)| + |CodeOf(branch)|;
    OneMark(s, args, CheckArgs(t.value));
    left := args + |CodeOf(check)|;
    right := left + |CodeOf(l)|;
    next := right + |CodeOf(r)|;
    end := next + |CodeOf(ForestCode(rest, sets))|;
  }

  /** The listing of a forest and the epilogue, from its parts. */
  lemma ForestLaid(s: Symbolic<Label>, pc: nat, t: Tree, rest: Forest, sets: seq<RuleSet>, default: u32)
    requires CodeAt(s, pc, TreeCode(t, sets))
    requires CodeAt(s, pc + |CodeOf(TreeCode(t, sets))|, ForestCode(rest, sets) + Epilogue(default))
    ensures CodeAt(s, pc, ForestCode(Then(t, rest), sets) + Epilogue(default))
  {
    hide TreeCode, CodeAt, CodeOf, Epilogue;
    var c, r := TreeCode(t, sets), ForestCode(rest, sets);
    CodeAtSplit(s, pc, c, r + Epilogue(default));
    assert c + (r + Epilogue(default)) == (c + r) + Epilogue(default);
  }

  lemma ChildrenLaid(s: Symbolic<Label>, pc: nat, args: nat, left: nat, right: nat, next: nat, end: nat,
                     t: Tree, rest: Forest, sets: seq<RuleSet>, default: u32)
    requires t.Node? && Laid(s, pc, args, left, right, next, end, t, rest, sets, default)
    ensures CodeAt(s, right, ForestCode(Then(t.right, rest), sets) + Epilogue(default))
    ensures CodeAt(s, left, ForestCode(Children(t, rest), sets) + Epilogue(default))
  {
    hide TreeCode, CodeAt, CodeOf, Epilogue, ForestCode, ArgsCheckCode, At, BranchCode;
    CodeAtSplit(s, next, ForestCode(rest, sets), Epilogue(default));
    ForestLaid(s, right, t.right, rest, sets, default);
    ForestLaid(s, left, t.left, Then(t.right, rest), sets, default);
  }

  lemma NodeMarked(s: Symbolic<Label>, pc: nat, t: Tree, sets: seq<RuleSet>)
    requires t.Node? && CodeAt(s, pc, TreeCode(t, sets))
    ensures Index(t.value) in s.targets && s.targets[Index(t.value)] == pc
  {
    assert TreeCode(t, sets)[0] == Mark(Index(t.value));
  }

  lemma HeadUnmarked(s: Symbolic<Label>, pc: nat, t: Tree, rest: Forest, sets: seq<RuleSet>, default: u32)
    requires t.Node? && CodeAt(s, pc, ForestCode(Then(t, rest), sets) + Epilogue(default))
    ensures CodeAt(s, pc, RootCode(t, sets) + ForestCode(rest, sets) + Epilogue(default))
  {
    hide NodeCode, CodeAt, Epilogue;
    var body := RootCode(t, sets) + ForestCode(rest, sets) + Epilogue(default);
    assert ForestCode(Then(t, rest), sets) + Epilogue(default) == IndexMark(t) + body;
    CodeAtSplit(s, pc, IndexMark(t), body);
    MarkLength(t);
  }

  lemma MarkLength(t: Tree)
    requires t.Node?
    ensures |CodeOf(IndexMark(t))| == 0
  {
  }

  /** Where the search goes from a node whose number is not the key. */
  lemma BranchCodeRuns(s: Symbolic<Label>, pc: nat, args: nat, left: nat, right: nat, next: nat, end: nat,
                       t: Tree, rest: Forest, sets: seq<RuleSet>, default: u32, m: Machine, b: Bytes)
    requires t.Node? && Forward(s) && Laid(s, pc, args, left, right, next, end, t, rest, sets, default)
    ensures var child := if m.a > Low(t.value) then t.right else t.left;
            RunSym(s, pc + 1, m, In(b)) ==
            if child.Nil? then Value(default)
            else RunSym(s, if m.a > Low(t.value) then right else left, m, In(b))
  {
    hide TreeCode, CodeOf, Epilogue, ForestCode, ArgsCheckCode, RunSym, Step, Forward, CodeAt;
    var c := BranchCode(t);
    PlainCodeAt(s, pc + 1, c);
    assert At(s, pc + 1, c[0]);
    if t.left.Nil? && t.right.Nil? {
      DefaultRuns(s, pc + 1, end, m, In(b), default);
    } else {
      assert At(s, pc + 2, c[1]) && At(s, pc + 3, c[2]);
      BranchRuns(s, pc + 1, m, In(b), c[0].insn);
      var child, line := if m.a > Low(t.value) then t.right else t.left, if m.a > Low(t.value) then pc + 2 else pc + 3;
      GotoRuns(s, line, m, In(b), NodeLabel(child));
      if child.Nil? {
        DefaultRuns(s, line, end, m, In(b), default);
      } else {
        NodeMarked(s, if m.a > Low(t.value) then right else left, child, sets);
      }
    }
  }

  /** The code of a node and what follows it computes `Descend`. */
  lemma {:induction false} NodeRuns(s: Symbolic<Label>, pc: nat, m: Machine, b: Bytes,
                                    t: Tree, rest: Forest, sets: seq<RuleSet>, default: u32)
    requires t.Node? && Forward(s) && NoneUnreachable(sets)
    requires CodeAt(s, pc, RootCode(t, sets) + ForestCode(rest, sets) + Epilogue(default))
    ensures RunSym(s, pc, m, In(b)) == Value(Descend(Then(t, rest), m.a, sets, default, b))
    decreases ForestWeight(Then(t, rest)), 0
  {
    hide TreeCode, CodeOf, CodeAt, Epilogue, ForestCode, RootCode, ArgsCheckCode, BranchCode, RunSym, Step, Forward,
         FirstMatch, Decode, Unreachable, Emitted, IpHigh;
    var args, left, right, next, end := Layout(s, pc, t, rest, sets, default);
    BranchRuns(s, pc, m, In(b), Plain(IFEQ, Low(t.value), To(CheckArgs(t.value)), Offset(0)));
    ChildrenLaid(s, pc, args, left, right, next, end, t, rest, sets, default);
    assert ForestWeight(Then(t.right, rest)) < ForestWeight(Then(t, rest));
    if m.a == Low(t.value) {
      var m' := ArgsCheckRuns(s, args, end, m, b, sets, t.value, default);
      ForestRuns(s, left, m', b, Children(t, rest), sets, default);
    } else {
      BranchCodeRuns(s, pc, args, left, right, next, end, t, rest, sets, default, m, b);
      if m.a > Low(t.value) {
        ForestRuns(s, right, m, b, Then(t.right, rest), sets, default);
      } else {
        ForestRuns(s, left, m, b, Children(t, rest), sets, default);
      }
    }
  }

  lemma {:induction false} ForestRuns(s: Symbolic<Label>, pc: nat, m: Machine, b: Bytes,
                                      f: Forest, sets: seq<RuleSet>, default: u32)
    requires Forward(s) && NoneUnreachable(sets)
    requires CodeAt(s, pc, ForestCode(f, sets) + Epilogue(default))
    ensures RunSym(s, pc, m, In(b)) == Value(Descend(f, m.a, sets, default, b))
    decreases ForestWeight(f), 1
  {
    hide RunSym, Step, Forward, Decode, CodeAt, CodeOf, NodeCode, Epilogue, Unreachable;
    if f.Empty? {
      assert ForestCode(f, sets) + Epilogue(default) == Epilogue(default);
      EpilogueRuns(s, pc, m, In(b), default);
    } else if f.head.Nil? {
      assert ForestCode(f, sets) == ForestCode(f.tail, sets);
      ForestRuns(s, pc, m, b, f.tail, sets, default);
    } else {
      HeadUnmarked(s, pc, f.head, f.tail, sets, default);
      NodeRuns(s, pc, m, b, f.head, f.tail, sets, default);
    }
  }
}

/** The whole program: its meaning, when it links, and why the validator accepts it. */
module SeccompCorrect {
  import opened Words
  import opened Bpf
  import opened Assembler
  import opened Placement
  import opened SeccompPolicy
  import opened SeccompCode
  import opened SeccompLabels
  import opened SeccompMeaning
  import opened SeccompSearch

  // ----- meaning -----

  lemma PrologueRuns(s: Symbolic<Label>, end: nat, b: Bytes, default: u32)
    requires Forward(s) && CodeAt(s, 0, Prologue()) && CodeAt(s, end, Epilogue(default))
    ensures |CodeOf(Prologue())| == 4
    ensures RunSym(s, 0, ZERO, In(b)) ==
            if U32At(b, 4) != AUDIT_ARCH_X86_64 then Value(default)
            else RunSym(s, 4, ZERO.(a := U32At(b, 0)), In(b))
  {
    hide Forward, RunSym, Step, CodeAt, CodeOf;
    var c := Prologue();
    PlainCodeAt(s, 0, c);
    assert At(s, 0 + 0, c[0]) && At(s, 0 + 1, c[1]) && At(s, 0 + 2, c[2]) && At(s, 0 + 3, c[3]);
    LoadRuns(s, 0, ZERO, b, ARCH_OFFSET);
    var m := ZERO.(a := U32At(b, 4));
    BranchRuns(s, 1, m, In(b), c[1].insn);
    if m.a == AUDIT_ARCH_X86_64 {
      LoadRuns(s, 3, m, b, NR_OFFSET);
    } else {
      DefaultRuns(s, 2, end, m, In(b), default);
    }
  }

  /** On every input, the labelled program returns exactly what `Filter` says,
      whatever the rule sets are. */
  lemma ProgramRuns(t: Tree, sets: seq<RuleSet>, default: u32, b: Bytes)
    requires t.Node? && Distinct(t) && NoneUnreachable(sets)
    ensures Forward(Assemble(ProgramCode(t, sets, default)))
    ensures RunSym(Assemble(ProgramCode(t, sets, default)), 0, ZERO, In(b)) == Value(Filter(t, sets, default, b))
  {
    hide RunSym, Step, Forward, CodeOf, CodeAt, RootCode, Prologue, Epilogue, Assemble, WellPlaced, Descend, NoneUnreachable;
    var items := ProgramCode(t, sets, default);
    ProgramForward(t, sets, default);
    AssembledProgram(t, sets, default);
    var s := Assemble(items);
    CodeAt3(s, 0, Prologue(), RootCode(t, sets), Epilogue(default));
    CodeAtSplit(s, |CodeOf(Prologue())|, RootCode(t, sets), Epilogue(default));
    var end := |CodeOf(Prologue())| + |CodeOf(RootCode(t, sets))|;
    PrologueRuns(s, end, b, default);
    NoTrees(t, sets, default);
    NodeRuns(s, 4, ZERO.(a := U32At(b, 0)), b, t, Empty, sets, default);
  }

  lemma NoTrees(t: Tree, sets: seq<RuleSet>, default: u32)
    requires t.Node?
    ensures RootCode(t, sets) + ForestCode(Empty, sets) + Epilogue(default) == RootCode(t, sets) + Epilogue(default)
  {
  }

  lemma EndsInReturn(t: Tree, sets: seq<RuleSet>, default: u32)
    requires t.Node?
    ensures var items := ProgramCode(t, sets, default); items != [] && items[|items| - 1] == Stmt(RETK, default)
  {
    hide RootCode;
  }

  lemma ProgramForward(t: Tree, sets: seq<RuleSet>, default: u32)
    requires t.Node? && Distinct(t)
    ensures Forward(Assemble(ProgramCode(t, sets, default)))
    ensures WellPlaced(ProgramCode(t, sets, default), {})
  {
    hide ProgramCode, Closed, CondClosed, MarkedOnce, Forward;
    ProgramPlaced(t, sets, default);
    EndsInReturn(t, sets, default);
    ClosedIsForward(ProgramCode(t, sets, default));
  }

  lemma AssembledProgram(t: Tree, sets: seq<RuleSet>, default: u32)
    requires t.Node? && WellPlaced(ProgramCode(t, sets, default), {})
    ensures CodeAt(Assemble(ProgramCode(t, sets, default)), 0, ProgramCode(t, sets, default))
  {
    hide ProgramCode;
    AssembledListing(ProgramCode(t, sets, default));
  }

  // ----- when the program links -----

  function ProgramLength(t: Tree, sets: seq<RuleSet>, default: u32): nat
    requires t.Node?
  {
    |CodeOf(ProgramCode(t, sets, default))|
  }

  lemma DefaultLine(t: Tree, sets: seq<RuleSet>, default: u32)
    requires t.Node? && Distinct(t)
    ensures var s := Assemble(ProgramCode(t, sets, default));
            && |s.code| >= 5
            && Default in s.targets && s.targets[Default] == |s.code| - 1
            && s.code[0].Plain? && s.code[1].Plain? && s.code[2] == Goto(Default)
  {
    hide RootCode, CodeOf, CodeAt, WellPlaced, Forward;
    var p, r, e := Prologue(), RootCode(t, sets), Epilogue(default);
    ProgramForward(t, sets, default);
    AssembledProgram(t, sets, default);
    var s := Assemble(ProgramCode(t, sets, default));
    CodeAt3(s, 0, p, r, e);
    PlainCodeAt(s, 0, p);
    assert At(s, 0 + 0, p[0]) && At(s, 0 + 1, p[1]) && At(s, 0 + 2, p[2]);
    EpilogueLines(s, |CodeOf(p)| + |CodeOf(r)|, default);
  }

  lemma EpilogueLines(s: Symbolic<Label>, pc: nat, default: u32)
    requires CodeAt(s, pc, Epilogue(default))
    ensures |CodeOf(Epilogue(default))| == 1 && Default in s.targets && s.targets[Default] == pc
  {
    var ret: Item<Label> := Stmt(RETK, default);
    assert Epilogue(default)[1..] == [ret];
    assert CodeOf([ret]) == [ret.insn];
  }

  /** The generated program links exactly when every vsyscall block is short
      enough for a one-byte offset and the whole for a four-byte one. */
  lemma LinksExactlyWhen(t: Tree, sets: seq<RuleSet>, default: u32)
    requires t.Node? && Distinct(t)
    ensures Forward(Assemble(ProgramCode(t, sets, default)))
    ensures Fits(Assemble(ProgramCode(t, sets, default))) <==>
              AllShort(Values(t), sets) && ProgramLength(t, sets, default) - 4 <= 0xffff_ffff
  {
    hide ProgramCode, CodeOf, TargetsFrom, ShortBlocks, CondClosed, Near;
    var items := ProgramCode(t, sets, default);
    var s := Assemble(items);
    ProgramForward(t, sets, default);
    ProgramPlaced(t, sets, default);
    DefaultLine(t, sets, default);
    if ProgramLength(t, sets, default) - 4 <= 0xffff_ffff {
      forall line: nat, l | JumpsTo(s, line, OnJump, l) && l in s.targets
        ensures s.targets[l] - line - 1 <= Limit(OnJump)
      {
        assert line >= 2;
        assert s.targets[l] < |s.code|;
      }
      FitsIsNear(items);
    } else {
      assert JumpsTo(s, 2, OnJump, Default);
    }
  }

  // ----- the validator -----

  /** An instruction the generator emits, with `after` instructions behind it. */
  predicate Sane(i: SymInsn<Label>, after: nat) {
    i.Plain? ==>
      || i.op in {LOAD, RETK}
      || (i.op in {IFEQ, IFGT, IFSET} && (i.jt.Offset? ==> i.jt.n < after) && (i.jf.Offset? ==> i.jf.n < after))
  }

  ghost predicate AllSane(items: Listing, after: nat) {
    items == [] ||
    (AllSane(items[1..], after) && (items[0].Code? ==> Sane(items[0].insn, |CodeOf(items[1..])| + after)))
  }

  lemma {:induction false} SaneAppend(a: Listing, b: Listing, after: nat)
    requires AllSane(b, after) && AllSane(a, |CodeOf(b)| + after)
    ensures AllSane(a + b, after)
  {
    if a == [] {
      assert a + b == b;
    } else {
      assert (a + b)[1..] == a[1..] + b;
      CodeOfAppend(a[1..], b);
      SaneAppend(a[1..], b, after);
    }
  }

  lemma SaneCons(i: Item<Label>, rest: Listing, after: nat)
    requires AllSane(rest, after) && (i.Code? ==> Sane(i.insn, |CodeOf(rest)| + after))
    ensures AllSane([i] + rest, after)
    ensures |CodeOf([i] + rest)| == |CodeOf(rest)| + if i.Code? then 1 else 0
  {
    assert ([i] + rest)[1..] == rest;
  }

  lemma SaneKinds(k: u32, l: Label, after: nat)
    requires after > 0
    ensures Sane(Stmt<Label>(LOAD, k).insn, after) && Sane(Stmt<Label>(RETK, k).insn, after - 1) && Sane(Goto(l), after)
    ensures Sane(JumpFalse(IFEQ, k, 0, l).insn, after) && Sane(JumpTrue(IFEQ, k, l, 0).insn, after)
    ensures Sane(JumpFalse(IFSET, k, 0, l).insn, after)
    ensures after > 1 ==> Sane(Jump<Label>(IFGT, k, 0, 1).insn, after) && Sane(Jump<Label>(IFEQ, k, 1, 0).insn, after)
  {
  }

  lemma ArgSane(v: u64, i: nat, violation: Label, rest: Listing, after: nat)
    requires i < 6 && after > 0 && AllSane(rest, after)
    ensures AllSane(ArgCode(AllowValue(v), i, violation) + rest, after)
  {
    hide AllSane, CodeOf, Sane;
    var c := ArgCode(AllowValue(v), i, violation);
    var n := |CodeOf(rest)| + after;
    SaneKinds(High(v), violation, n);
    SaneCons(c[3], rest, after);
    SaneKinds(ArgHigh(i), violation, n + 1);
    SaneCons(c[2], [c[3]] + rest, after);
    SaneKinds(Low(v), violation, n + 2);
    SaneCons(c[1], [c[2]] + ([c[3]] + rest), after);
    SaneKinds(ArgLow(i), violation, n + 3);
    SaneCons(c[0], [c[1]] + ([c[2]] + ([c[3]] + rest)), after);
    assert [c[0]] + ([c[1]] + ([c[2]] + ([c[3]] + rest))) == c + rest;
  }

  lemma {:induction false} ArgsSane(r: Rule, i: nat, violation: Label, after: nat)
    requires i <= 6 && after > 0
    ensures AllSane(ArgsCode(r, i, violation), after)
    decreases 6 - i
  {
    hide AllSane, CodeOf;
    NothingSane(after);
    if i < 6 {
      var rest := ArgsCode(r, i + 1, violation);
      ArgsSane(r, i + 1, violation, after);
      if r[i].AllowValue? {
        ArgSane(r[i].value, i, violation, rest, after);
      } else {
        assert ArgsCode(r, i, violation) == rest;
      }
    }
  }

  lemma NothingSane(after: nat)
    ensures AllSane([], after) && |CodeOf<Label>([])| == 0
  {
  }

  lemma ReturnSane(action: u32, end: Listing, after: nat)
    requires end == [] || (|end| == 1 && end[0].Mark?)
    ensures AllSane([Stmt(RETK, action)] + end, after)
    ensures |CodeOf([Stmt(RETK, action)] + end)| == 1
  {
    NothingSane(after);
    if end != [] {
      SaneCons(end[0], [], after);
      assert [end[0]] + [] == end;
    }
    SaneCons(Stmt(RETK, action), end, after);
  }

  lemma {:induction false} RulesSane(rules: seq<Rule>, action: u32, set_: nat, sysno: u64, idx: nat, after: nat)
    requires idx <= |rules|
    ensures AllSane(RulesCode(rules, action, set_, sysno, idx), after)
    decreases |rules| - idx
  {
    hide AllSane, CodeOf, ArgsCode;
    NothingSane(after);
    if idx < |rules| {
      var rest := RulesCode(rules, action, set_, sysno, idx + 1);
      RulesSane(rules, action, set_, sysno, idx + 1, after);
      var violation := RuleViolation(set_, sysno, idx);
      var args := ArgsCode(rules[idx], 0, violation);
      var end: Listing := if Labelled(rules[idx]) then [Mark(violation)] else [];
      var ret: Listing := [Stmt(RETK, action)] + end;
      ReturnSane(action, end, |CodeOf(rest)| + after);
      ArgsSane(rules[idx], 0, violation, |CodeOf(ret)| + (|CodeOf(rest)| + after));
      SaneAppend(args, ret, |CodeOf(rest)| + after);
      SaneAppend(args + ret, rest, after);
      assert args + ret == RuleCode(rules[idx], action, set_, sysno, idx);
    }
  }

  lemma SetSane(rs: RuleSet, set_: nat, sysno: u64, after: nat)
    requires sysno in rs.rules && after > 0
    ensures AllSane(SetCode(rs, set_, sysno), after)
  {
    hide AllSane, CodeOf, RulesCode;
    ReturnSane(rs.action, [], after);
    assert [Stmt<Label>(RETK, rs.action)] + [] == [Stmt(RETK, rs.action)];
    RulesSane(rs.rules[sysno], rs.action, set_, sysno, 0, after);
    var body := MatchersCode(rs, set_, sysno);
    if rs.vsyscall {
      var violation := VsyscallViolation(set_, sysno);
      var end: Listing := [Mark(violation)];
      NothingSane(after);
      SaneCons(Mark(violation), [], after);
      assert [Mark(violation)] + [] == end;
      SaneAppend(body, end, after);
      var check: Listing := [Stmt(LOAD, IP_HIGH_OFFSET), JumpFalse(IFSET, 0x8000_0000, 0, violation)];
      SaneCons(check[1], body + end, after);
      SaneCons(check[0], [check[1]] + (body + end), after);
      assert [check[0]] + ([check[1]] + (body + end)) == SetCode(rs, set_, sysno);
    }
  }

  lemma {:induction false} SetsSane(sets: seq<RuleSet>, set_: nat, sysno: u64, after: nat)
    requires set_ <= |sets| && after > 0
    ensures AllSane(SetsCode(sets, set_, sysno), after)
    decreases |sets| - set_
  {
    hide AllSane, CodeOf, SetCode;
    NothingSane(after);
    if set_ < |sets| {
      var rest := SetsCode(sets, set_ + 1, sysno);
      SetsSane(sets, set_ + 1, sysno, after);
      NothingSane(|CodeOf(rest)| + after);
      if sysno in sets[set_].rules {
        SetSane(sets[set_], set_, sysno, |CodeOf(rest)| + after);
      }
      SaneAppend(if sysno in sets[set_].rules then SetCode(sets[set_], set_, sysno) else [], rest, after);
    }
  }

  lemma ArgsCheckSane(sets: seq<RuleSet>, sysno: u64, after: nat)
    requires after > 0
    ensures AllSane(ArgsCheckCode(sets, sysno), after)
  {
    hide AllSane, CodeOf, SetsCode;
    var end: Listing := if Emitted(sets, sysno) then [] else [Code(Goto(Default))];
    NothingSane(after);
    SaneCons(Code(Goto(Default)), [], after);
    assert [Code(Goto(Default))] + [] == [Code(Goto(Default))];
    SetsSane(sets, 0, sysno, |CodeOf(end)| + after);
    SaneAppend(SetsCode(sets, 0, sysno), end, after);
  }

  lemma BranchSane(t: Tree, rest: Listing, after: nat)
    requires t.Node? && after > 0 && AllSane(rest, after)
    ensures AllSane(BranchCode(t) + rest, after)
  {
    hide AllSane, CodeOf, Sane;
    var c := BranchCode(t);
    var n := |CodeOf(rest)| + after;
    if t.left.Nil? && t.right.Nil? {
      SaneKinds(0, Default, n);
      SaneCons(c[0], rest, after);
      assert [c[0]] + rest == c + rest;
    } else {
      SaneKinds(0, NodeLabel(t.left), n);
      SaneCons(c[2], rest, after);
      SaneKinds(0, NodeLabel(t.right), n + 1);
      SaneCons(c[1], [c[2]] + rest, after);
      SaneKinds(Low(t.value), Default, n + 2);
      SaneCons(c[0], [c[1]] + ([c[2]] + rest), after);
      assert [c[0]] + ([c[1]] + ([c[2]] + rest)) == c + rest;
    }
  }

  lemma NodeSane(t: Tree, sets: seq<RuleSet>, after: nat)
    requires t.Node? && after > 0
    ensures AllSane(NodeCode(t, sets), after)
  {
    hide AllSane, CodeOf, ArgsCheckCode, BranchCode, Sane;
    var rest := ArgsCheckCode(sets, t.value);
    ArgsCheckSane(sets, t.value, after);
    var mark: Listing := [Mark(CheckArgs(t.value))];
    SaneCons(mark[0], rest, after);
    BranchSane(t, mark + rest, after);
    var tail := BranchCode(t) + (mark + rest);
    var jump := JumpTrue(IFEQ, Low(t.value), CheckArgs(t.value), 0);
    SaneKinds(Low(t.value), CheckArgs(t.value), |CodeOf(tail)| + after);
    SaneCons(jump, tail, after);
    assert [jump] + tail == NodeCode(t, sets);
  }

  lemma {:induction false} TreeSane(t: Tree, sets: seq<RuleSet>, after: nat)
    requires after > 0
    ensures AllSane(TreeCode(t, sets), after)
    ensures t.Node? ==> AllSane(RootCode(t, sets), after)
    decreases t
  {
    hide AllSane, CodeOf, NodeCode;
    NothingSane(after);
    if t.Node? {
      var n, l, r := NodeCode(t, sets), TreeCode(t.left, sets), TreeCode(t.right, sets);
      TreeSane(t.right, sets, after);
      TreeSane(t.left, sets, |CodeOf(r)| + after);
      SaneAppend(l, r, after);
      NodeSane(t, sets, |CodeOf(l + r)| + after);
      SaneAppend(n, l + r, after);
      assert n + (l + r) == RootCode(t, sets);
      SaneCons(Mark(Index(t.value)), RootCode(t, sets), after);
      assert [Mark(Index(t.value))] + RootCode(t, sets) == TreeCode(t, sets);
    }
  }

  lemma ProgramSane(t: Tree, sets: seq<RuleSet>, default: u32)
    requires t.Node?
    ensures AllSane(ProgramCode(t, sets, default), 0)
  {
    hide AllSane, CodeOf, RootCode, Prologue, Epilogue;
    var p, r, e := Prologue(), RootCode(t, sets), Epilogue(default);
    EpilogueSane(default);
    TreeSane(t, sets, |CodeOf(e)|);
    SaneAppend(r, e, 0);
    CodeOfAppend(r, e);
    PrologueSane(r + e);
    assert p + (r + e) == ProgramCode(t, sets, default);
  }

  lemma EpilogueSane(default: u32)
    ensures AllSane(Epilogue(default), 0) && |CodeOf(Epilogue(default))| > 0
  {
    hide AllSane, CodeOf;
    ReturnSane(default, [], 0);
    assert [Stmt<Label>(RETK, default)] + [] == [Stmt(RETK, default)];
    SaneCons(Mark(Default), [Stmt(RETK, default)], 0);
    assert [Mark(Default)] + [Stmt(RETK, default)] == Epilogue(default);
  }

  lemma PrologueSane(rest: Listing)
    requires AllSane(rest, 0) && |CodeOf(rest)| > 0
    ensures AllSane(Prologue() + rest, 0)
  {
    hide AllSane, CodeOf;
    var p := Prologue();
    SaneCons(p[3], rest, 0);
    SaneCons(p[2], [p[3]] + rest, 0);
    SaneCons(p[1], [p[2]] + ([p[3]] + rest), 0);
    SaneCons(p[0], [p[1]] + ([p[2]] + ([p[3]] + rest)), 0);
    assert [p[0]] + ([p[1]] + ([p[2]] + ([p[3]] + rest))) == p + rest;
  }

  lemma {:induction false} SaneLines(items: Listing, line: nat)
    requires AllSane(items, 0) && line < |CodeOf(items)|
    ensures Sane(CodeOf(items)[line], |CodeOf(items)| - 1 - line)
  {
    if items[0].Code? {
      if line > 0 {
        SaneLines(items[1..], line - 1);
      }
    } else {
      SaneLines(items[1..], line);
    }
  }

  /** A linked sane instruction passes the validator's check. */
  lemma SanePasses(s: Symbolic<Label>, line: nat)
    requires Forward(s) && Fits(s) && line < |s.code| && Sane(s.code[line], |s.code| - 1 - line)
    ensures Check(ResolveInsn(s, line), line, |s.code|) == Pass
  {
    var i := s.code[line];
    match i {
      case Goto(l) =>
        assert JumpsTo(s, line, OnJump, l);
      case Plain(op, k, jt, jf) =>
        if jt.To? { assert JumpsTo(s, line, OnTrue, jt.name); }
        if jf.To? { assert JumpsTo(s, line, OnFalse, jf.name); }
    }
  }

  lemma LastLine(t: Tree, sets: seq<RuleSet>, default: u32)
    requires t.Node?
    ensures var c := CodeOf(ProgramCode(t, sets, default)); c != [] && c[|c| - 1] == Stmt<Label>(RETK, default).insn
  {
    var items := ProgramCode(t, sets, default);
    EndsInReturn(t, sets, default);
    var init, last := items[..|items| - 1], items[|items| - 1..];
    assert items == init + last;
    CodeOfAppend(init, last);
    assert CodeOf(last) == [last[0].insn];
  }

  /** Every linked program of at most 4096 instructions is accepted by the validator. */
  lemma ProgramIsValid(t: Tree, sets: seq<RuleSet>, default: u32)
    requires t.Node? && Forward(Assemble(ProgramCode(t, sets, default))) && Fits(Assemble(ProgramCode(t, sets, default)))
    requires ProgramLength(t, sets, default) <= MAX_INSTRUCTIONS
    ensures ValidProgram(Resolve(Assemble(ProgramCode(t, sets, default))))
  {
    hide ProgramCode, Forward, Fits, CodeOf, TargetsFrom, AllSane, Check, Sane;
    var items := ProgramCode(t, sets, default);
    var s := Assemble(items);
    ProgramSane(t, sets, default);
    LastLine(t, sets, default);
    forall pc | 0 <= pc < |s.code| ensures Check(Resolve(s)[pc], pc, |s.code|) == Pass {
      SaneLines(items, pc);
      SanePasses(s, pc);
    }
  }
}

/** The labels of the generated listing: each is marked once, after all jumps to
    it, and near enough exactly when no vsyscall block is too long. */
module SeccompLabels {
  import opened Words
  import opened Assembler
  import opened Placement
  import opened SeccompPolicy
  import opened SeccompCode

  // ----- one rule -----

  /** The checks from argument `i` on, up to the label at the end of the rule. */
  function RuleTail(r: Rule, i: nat, action: u32, violation: Label): Listing
    requires i <= 6
  {
    ArgsCode(r, i, violation) + [Stmt(RETK, action), Mark(violation)]
  }

  /** One more item in front of a well placed listing. */
  lemma ConsPlaced(i: Item<Label>, rest: Listing, ext: set<Label>)
    requires WellPlaced(rest, ext)
    requires if i.Code? then Labels(i.insn) <= Marked(rest) + ext && CondLabels(i) <= Marked(rest)
             else i.name !in Marked(rest)
    ensures WellPlaced([i] + rest, ext)
    ensures Marked([i] + rest) == Marked(rest) + if i.Mark? then {i.name} else {}
    ensures Near([i] + rest) <==> Near(rest) && forall l :: l in CondLabels(i) ==> LinesTo(rest, l) <= 0xff
    ensures forall l :: LinesTo([i] + rest, l) ==
                        if i.Code? then 1 + LinesTo(rest, l) else if i.name == l then 0 else LinesTo(rest, l)
  {
    assert ([i] + rest)[1..] == rest;
  }

  lemma ArgBefore(v: u64, i: nat, violation: Label, rest: Listing)
    requires i < 6 && WellPlaced(rest, {}) && Near(rest)
    requires Marked(rest) == {violation} && LinesTo(rest, violation) <= 0xf0
    ensures var items := ArgCode(AllowValue(v), i, violation) + rest;
            && WellPlaced(items, {}) && Near(items) && Marked(items) == {violation}
            && LinesTo(items, violation) == 4 + LinesTo(rest, violation)
  {
    var c := ArgCode(AllowValue(v), i, violation);
    hide WellPlaced, Near, LinesTo, Marked;
    ConsPlaced(c[3], rest, {});
    ConsPlaced(c[2], [c[3]] + rest, {});
    ConsPlaced(c[1], [c[2]] + ([c[3]] + rest), {});
    ConsPlaced(c[0], [c[1]] + ([c[2]] + ([c[3]] + rest)), {});
    assert [c[0]] + ([c[1]] + ([c[2]] + ([c[3]] + rest))) == c + rest;
  }

  lemma {:induction false} RuleTailPlaced(r: Rule, i: nat, action: u32, violation: Label)
    requires i <= 6
    ensures var items := RuleTail(r, i, action, violation);
            && WellPlaced(items, {}) && Near(items) && Marked(items) == {violation}
            && LinesTo(items, violation) <= 1 + 4 * (6 - i)
    decreases 6 - i
  {
    hide WellPlaced, Near, LinesTo, Marked, ArgCode;
    if i < 6 {
      var rest := RuleTail(r, i + 1, action, violation);
      RuleTailPlaced(r, i + 1, action, violation);
      assert RuleTail(r, i, action, violation) == ArgCode(r[i], i, violation) + rest;
      if r[i].AllowValue? {
        ArgBefore(r[i].value, i, violation, rest);
      } else {
        NoArgCode(r[i], i, violation);
        assert RuleTail(r, i, action, violation) == rest;
      }
    } else {
      assert RuleTail(r, i, action, violation) == [Stmt(RETK, action), Mark(violation)];
      ReturnAndMark(action, violation);
    }
  }

  lemma NoArgCode(arg: Arg, i: nat, violation: Label)
    requires i < 6 && !arg.AllowValue?
    ensures ArgCode(arg, i, violation) == []
  {
  }

  lemma ReturnAndMark(action: u32, violation: Label)
    ensures var items: Listing := [Stmt(RETK, action), Mark(violation)];
            WellPlaced(items, {}) && Near(items) && Marked(items) == {violation} && LinesTo(items, violation) == 1
  {
    var m: Listing := [Mark(violation)];
    NothingPlaced({});
    ConsPlaced(Mark(violation), [], {});
    assert [Mark(violation)] + [] == m;
    ConsPlaced(Stmt(RETK, action), m, {});
    assert [Stmt(RETK, action)] + m == [Stmt(RETK, action), Mark(violation)];
  }

  lemma JustReturn(action: u32)
    ensures var items: Listing := [Stmt(RETK, action)];
            WellPlaced(items, {}) && Near(items) && Marked(items) == {} && |CodeOf(items)| == 1
  {
    NothingPlaced({});
    var ret: Item<Label> := Stmt(RETK, action);
    ConsPlaced(ret, [], {});
    assert [ret] + [] == [ret];
  }

  lemma {:induction false} UnlabelledRule(r: Rule, i: nat, violation: Label)
    requires i <= 6 && !Labelled(r)
    ensures ArgsCode(r, i, violation) == []
    decreases 6 - i
  {
    if i < 6 {
      UnlabelledRule(r, i + 1, violation);
    }
  }

  lemma RulePlaced(r: Rule, action: u32, set_: nat, sysno: u64, idx: nat)
    ensures var items := RuleCode(r, action, set_, sysno, idx);
            WellPlaced(items, {}) && Near(items) && Marked(items) <= {RuleViolation(set_, sysno, idx)}
  {
    hide WellPlaced, Near, Marked;
    var violation := RuleViolation(set_, sysno, idx);
    var items := RuleCode(r, action, set_, sysno, idx);
    if Labelled(r) {
      RuleTailPlaced(r, 0, action, violation);
      assert items == RuleTail(r, 0, action, violation);
    } else {
      UnlabelledRule(r, 0, violation);
      assert items == [Stmt(RETK, action)];
      JustReturn(action);
    }
  }

  lemma NothingPlaced(ext: set<Label>)
    ensures WellPlaced<Label>([], ext) && Near<Label>([]) && Marked<Label>([]) == {}
  {
  }

  lemma Wider(items: Listing, ext: set<Label>, ext': set<Label>)
    requires WellPlaced(items, ext) && ext <= ext'
    ensures WellPlaced(items, ext')
  {
    ClosedMonotone(items, ext, ext');
  }

  lemma {:induction false} RulesPlaced(rules: seq<Rule>, action: u32, set_: nat, sysno: u64, idx: nat)
    requires idx <= |rules|
    ensures var items := RulesCode(rules, action, set_, sysno, idx);
            && WellPlaced(items, {}) && Near(items)
            && forall l :: l in Marked(items) ==> l.RuleViolation? && l.ruleSet == set_ && l.sysno == sysno && l.rule >= idx
    decreases |rules| - idx
  {
    hide WellPlaced, Near, Marked, RuleCode;
    NothingPlaced({});
    if idx < |rules| {
      var c, rest := RuleCode(rules[idx], action, set_, sysno, idx), RulesCode(rules, action, set_, sysno, idx + 1);
      RulePlaced(rules[idx], action, set_, sysno, idx);
      RulesPlaced(rules, action, set_, sysno, idx + 1);
      Wider(c, {}, Marked(rest) + {});
      WellPlacedAppend(c, rest, {});
    }
  }

  // ----- rule sets -----

  lemma MatchersPlaced(rs: RuleSet, set_: nat, sysno: u64)
    requires sysno in rs.rules
    ensures var items := MatchersCode(rs, set_, sysno);
            && WellPlaced(items, {}) && Near(items)
            && forall l :: l in Marked(items) ==> l.RuleViolation? && l.ruleSet == set_ && l.sysno == sysno
  {
    hide WellPlaced, Near, Marked;
    JustReturn(rs.action);
    RulesPlaced(rs.rules[sysno], rs.action, set_, sysno, 0);
  }

  /** The vsyscall jump of a rule set fits its one-byte offset. */
  predicate ShortBlock(rs: RuleSet, set_: nat, sysno: u64) {
    sysno in rs.rules && rs.vsyscall ==> |CodeOf(MatchersCode(rs, set_, sysno))| <= 0xff
  }

  lemma {:induction false} LinesToEnd(items: Listing, l: Label)
    requires l !in Marked(items)
    ensures LinesTo(items + [Mark(l)], l) == |CodeOf(items)|
  {
    if items == [] {
      assert items + [Mark(l)] == [Mark(l)];
    } else {
      assert (items + [Mark(l)])[1..] == items[1..] + [Mark(l)];
      LinesToEnd(items[1..], l);
    }
  }

  lemma OneMarkPlaced(l: Label, ext: set<Label>)
    ensures WellPlaced([Mark(l)], ext) && Near([Mark(l)]) && Marked([Mark(l)]) == {l}
  {
    NothingPlaced(ext);
    ConsPlaced(Mark(l), [], ext);
    assert [Mark(l)] + [] == [Mark(l)];
  }

  /** A jump in front whose label is marked further down. */
  lemma CheckBefore(violation: Label, rest: Listing)
    requires WellPlaced(rest, {}) && Near(rest) && violation in Marked(rest)
    ensures var items := [Stmt(LOAD, IP_HIGH_OFFSET), JumpFalse(IFSET, 0x8000_0000, 0, violation)] + rest;
            && WellPlaced(items, {}) && Marked(items) == Marked(rest)
            && (Near(items) <==> LinesTo(rest, violation) <= 0xff)
  {
    hide WellPlaced, Near, Marked, LinesTo;
    var check: Listing := [Stmt(LOAD, IP_HIGH_OFFSET), JumpFalse(IFSET, 0x8000_0000, 0, violation)];
    ConsPlaced(check[1], rest, {});
    ConsPlaced(check[0], [check[1]] + rest, {});
    assert [check[0]] + ([check[1]] + rest) == check + rest;
  }

  lemma SetPlaced(rs: RuleSet, set_: nat, sysno: u64)
    requires sysno in rs.rules
    ensures var items := SetCode(rs, set_, sysno);
            && WellPlaced(items, {})
            && (Near(items) <==> ShortBlock(rs, set_, sysno))
            && forall l :: l in Marked(items) ==>
                 (l.RuleViolation? || l.VsyscallViolation?) && l.ruleSet == set_ && l.sysno == sysno
  {
    hide WellPlaced, Near, Marked, MatchersCode, LinesTo, CodeOf;
    MatchersPlaced(rs, set_, sysno);
    if rs.vsyscall {
      var violation := VsyscallViolation(set_, sysno);
      var body := MatchersCode(rs, set_, sysno);
      OneMarkPlaced(violation, {});
      Wider(body, {}, Marked([Mark(violation)]) + {});
      WellPlacedAppend(body, [Mark(violation)], {});
      LinesToEnd(body, violation);
      CheckBefore(violation, body + [Mark(violation)]);
      assert SetCode(rs, set_, sysno) ==
             [Stmt(LOAD, IP_HIGH_OFFSET), JumpFalse(IFSET, 0x8000_0000, 0, violation)] + (body + [Mark(violation)]);
    }
  }

  ghost predicate ShortBlocks(sets: seq<RuleSet>, from: nat, sysno: u64) {
    forall i :: from <= i < |sets| ==> ShortBlock(sets[i], i, sysno)
  }

  lemma {:induction false} SetsPlaced(sets: seq<RuleSet>, set_: nat, sysno: u64)
    requires set_ <= |sets|
    ensures var items := SetsCode(sets, set_, sysno);
            && WellPlaced(items, {})
            && (Near(items) <==> ShortBlocks(sets, set_, sysno))
            && forall l :: l in Marked(items) ==>
                 (l.RuleViolation? || l.VsyscallViolation?) && l.ruleSet >= set_ && l.sysno == sysno
    decreases |sets| - set_
  {
    hide WellPlaced, Near, Marked, SetCode, ShortBlock;
    NothingPlaced({});
    if set_ < |sets| {
      var c: Listing := if sysno in sets[set_].rules then SetCode(sets[set_], set_, sysno) else [];
      var rest := SetsCode(sets, set_ + 1, sysno);
      SetsPlaced(sets, set_ + 1, sysno);
      if sysno in sets[set_].rules {
        SetPlaced(sets[set_], set_, sysno);
      } else {
        AbsentIsShort(sets[set_], set_, sysno);
      }
      Wider(c, {}, Marked(rest) + {});
      WellPlacedAppend(c, rest, {});
      assert ShortBlocks(sets, set_, sysno) <==>
             ShortBlock(sets[set_], set_, sysno) && ShortBlocks(sets, set_ + 1, sysno);
    }
  }

  lemma AbsentIsShort(rs: RuleSet, set_: nat, sysno: u64)
    requires sysno !in rs.rules
    ensures ShortBlock(rs, set_, sysno)
  {
  }

  lemma GotoPlaced(l: Label, ext: set<Label>)
    requires l in ext
    ensures WellPlaced([Code(Goto(l))], ext) && Near([Code(Goto(l))]) && Marked([Code(Goto(l))]) == {}
  {
    NothingPlaced(ext);
    ConsPlaced(Code(Goto(l)), [], ext);
    assert [Code(Goto(l))] + [] == [Code(Goto(l))];
  }

  lemma ArgsCheckPlaced(sets: seq<RuleSet>, sysno: u64, ext: set<Label>)
    requires Default in ext
    ensures var items := ArgsCheckCode(sets, sysno);
            && WellPlaced(items, ext)
            && (Near(items) <==> ShortBlocks(sets, 0, sysno))
            && forall l :: l in Marked(items) ==> (l.RuleViolation? || l.VsyscallViolation?) && l.sysno == sysno
  {
    hide WellPlaced, Near, Marked, SetsCode, ShortBlock;
    var c := SetsCode(sets, 0, sysno);
    SetsPlaced(sets, 0, sysno);
    NothingPlaced(ext);
    GotoPlaced(Default, ext);
    var end: Listing := if Emitted(sets, sysno) then [] else [Code(Goto(Default))];
    Wider(c, {}, Marked(end) + ext);
    WellPlacedAppend(c, end, ext);
  }

  // ----- nodes and trees -----

  lemma NodeHeadPlaced(t: Tree, rest: Listing, ext: set<Label>)
    requires t.Node? && Default in ext && NodeLabel(t.left) in ext && NodeLabel(t.right) in ext
    requires WellPlaced(rest, ext) && CheckArgs(t.value) !in Marked(rest)
    ensures var items := [JumpTrue(IFEQ, Low(t.value), CheckArgs(t.value), 0)] + BranchCode(t)
                         + [Mark(CheckArgs(t.value))] + rest;
            && WellPlaced(items, ext)
            && (Near(items) <==> Near(rest))
            && Marked(items) == Marked(rest) + {CheckArgs(t.value)}
  {
    hide WellPlaced, Near, Marked, LinesTo, BranchCode;
    var mark := CheckArgs(t.value);
    var jump := JumpTrue(IFEQ, Low(t.value), mark, 0);
    ConsPlaced(Mark(mark), rest, ext);
    var marked: Listing := [Mark(mark)] + rest;
    BranchBefore(t, marked, ext);
    ConsPlaced(jump, BranchCode(t) + marked, ext);
    assert [jump] + (BranchCode(t) + marked) == [jump] + BranchCode(t) + [Mark(mark)] + rest;
  }

  lemma BranchBefore(t: Tree, marked: Listing, ext: set<Label>)
    requires t.Node? && Default in ext && NodeLabel(t.left) in ext && NodeLabel(t.right) in ext
    requires WellPlaced(marked, ext) && marked != [] && marked[0] == Mark(CheckArgs(t.value))
    ensures var items := BranchCode(t) + marked;
            && WellPlaced(items, ext)
            && (Near(items) <==> Near(marked))
            && Marked(items) == Marked(marked)
            && LinesTo(items, CheckArgs(t.value)) <= 3
  {
    hide WellPlaced, Near, Marked;
    var c := BranchCode(t);
    assert LinesTo(marked, CheckArgs(t.value)) == 0;
    if t.left.Nil? && t.right.Nil? {
      ConsPlaced(c[0], marked, ext);
      assert [c[0]] + marked == c + marked;
    } else {
      ConsPlaced(c[2], marked, ext);
      ConsPlaced(c[1], [c[2]] + marked, ext);
      ConsPlaced(c[0], [c[1]] + ([c[2]] + marked), ext);
      assert [c[0]] + ([c[1]] + ([c[2]] + marked)) == c + marked;
    }
  }

  lemma NodePlaced(t: Tree, sets: seq<RuleSet>, ext: set<Label>)
    requires t.Node? && Default in ext && NodeLabel(t.left) in ext && NodeLabel(t.right) in ext
    ensures var items := NodeCode(t, sets);
            && WellPlaced(items, ext)
            && (Near(items) <==> ShortBlocks(sets, 0, t.value))
            && forall l :: l in Marked(items) ==> !l.Default? && !l.Index? && l.sysno == t.value
  {
    hide WellPlaced, Near, Marked, ArgsCheckCode, BranchCode, ShortBlock;
    ArgsCheckPlaced(sets, t.value, ext);
    NodeHeadPlaced(t, ArgsCheckCode(sets, t.value), ext);
  }

  function Values(t: Tree): set<u64> {
    if t.Nil? then {} else {t.value} + Values(t.left) + Values(t.right)
  }

  /** No number occurs twice in the tree. */
  ghost predicate Distinct(t: Tree) {
    t.Node? ==>
      && Distinct(t.left) && Distinct(t.right)
      && t.value !in Values(t.left) && t.value !in Values(t.right) && Values(t.left) !! Values(t.right)
  }

  ghost predicate AllShort(vs: set<u64>, sets: seq<RuleSet>) {
    forall v :: v in vs ==> ShortBlocks(sets, 0, v)
  }

  lemma {:induction false} TreePlaced(t: Tree, sets: seq<RuleSet>, ext: set<Label>)
    requires Distinct(t) && Default in ext
    ensures var items := TreeCode(t, sets);
            && WellPlaced(items, ext)
            && (Near(items) <==> AllShort(Values(t), sets))
            && (forall l :: l in Marked(items) ==> !l.Default? && l.sysno in Values(t))
            && (t.Node? ==> Index(t.value) in Marked(items))
    decreases t, 1
  {
    hide WellPlaced, Near, Marked, NodeCode, ShortBlocks;
    NothingPlaced(ext);
    if t.Node? {
      RootPlaced(t, sets, ext);
      var root := RootCode(t, sets);
      OneMarkPlaced(Index(t.value), Marked(root) + ext);
      WellPlacedAppend(IndexMark(t), root, ext);
      assert TreeCode(t, sets) == IndexMark(t) + root;
    }
  }

  lemma {:induction false} RootPlaced(t: Tree, sets: seq<RuleSet>, ext: set<Label>)
    requires t.Node? && Distinct(t) && Default in ext
    ensures var items := RootCode(t, sets);
            && WellPlaced(items, ext)
            && (Near(items) <==> AllShort(Values(t), sets))
            && (forall l :: l in Marked(items) ==> !l.Default? && l.sysno in Values(t))
            && Index(t.value) !in Marked(items)
    decreases t, 0
  {
    hide WellPlaced, Near, Marked, NodeCode, TreeCode, ShortBlocks;
    var n, l, r := NodeCode(t, sets), TreeCode(t.left, sets), TreeCode(t.right, sets);
    TreePlaced(t.left, sets, Marked(r) + ext);
    TreePlaced(t.right, sets, ext);
    WellPlacedAppend(l, r, ext);
    NodePlaced(t, sets, Marked(l + r) + ext);
    WellPlacedAppend(n, l + r, ext);
    assert n + (l + r) == RootCode(t, sets);
  }

  // ----- the whole program -----

  lemma EpiloguePlaced(default: u32)
    ensures WellPlaced(Epilogue(default), {}) && Near(Epilogue(default)) && Marked(Epilogue(default)) == {Default}
  {
    JustReturn(default);
    ConsPlaced(Mark(Default), [Stmt(RETK, default)], {});
    assert [Mark(Default)] + [Stmt(RETK, default)] == Epilogue(default);
  }

  lemma ProloguePlaced(ext: set<Label>)
    requires Default in ext
    ensures WellPlaced(Prologue(), ext) && Near(Prologue()) && Marked(Prologue()) == {}
  {
    hide WellPlaced, Near, Marked;
    var p := Prologue();
    NothingPlaced(ext);
    ConsPlaced(p[3], [], ext);
    ConsPlaced(p[2], [p[3]] + [], ext);
    ConsPlaced(p[1], [p[2]] + ([p[3]] + []), ext);
    ConsPlaced(p[0], [p[1]] + ([p[2]] + ([p[3]] + [])), ext);
    assert [p[0]] + ([p[1]] + ([p[2]] + ([p[3]] + []))) == p;
  }

  /** The whole listing marks each label once, after all its uses; its conditional
      jumps are near exactly when every vsyscall block is short. */
  lemma ProgramPlaced(t: Tree, sets: seq<RuleSet>, default: u32)
    requires t.Node? && Distinct(t)
    ensures WellPlaced(ProgramCode(t, sets, default), {})
    ensures Near(ProgramCode(t, sets, default)) <==> AllShort(Values(t), sets)
  {
    hide WellPlaced, Near, Marked, RootCode, Prologue, Epilogue, ShortBlocks;
    var p, r, e := Prologue(), RootCode(t, sets), Epilogue(default);
    EpiloguePlaced(default);
    RootPlaced(t, sets, Marked(e) + {});
    WellPlacedAppend(r, e, {});
    ProloguePlaced(Marked(r + e) + {});
    WellPlacedAppend(p, r + e, {});
    assert p + (r + e) == ProgramCode(t, sets, default);
  }
}

/** `BuildProgram` as it runs: loops that append to a `ProgramBuilder`, a preorder
    walk of the search tree, and the final linking. Each method is tied to the
    code generator's functions; `BuildProgram` itself to the policy. */
module SeccompBuild {
  import opened Words
  import opened Bpf
  import opened Assembler
  import opened ProgramBuilders
  import opened SeccompPolicy
  import opened SeccompCode
  import opened SeccompLabels
  import opened SeccompMeaning
  import opened SeccompSearch
  import opened SeccompCorrect
  import opened SeccompExact
  import opened SeccompSpeed

  ghost predicate KnownRule(r: Rule) {
    forall i :: 0 <= i < 6 ==> !r[i].Unknown?
  }

  ghost predicate KnownRules(rules: seq<Rule>) {
    forall i :: 0 <= i < |rules| ==> KnownRule(rules[i])
  }

  lemma AppendOne(items: Listing, i: Item<Label>)
    ensures Marked(items + [i]) == Marked(items) + if i.Mark? then {i.name} else {}
    ensures Used(items + [i]) == Used(items) + if i.Code? then Labels(i.insn) else {}
  {
    MarkedAppend(items, [i]);
    UsedAppend(items, [i]);
    assert Marked([i]) == if i.Mark? then {i.name} else {};
    assert Used([i]) == if i.Code? then Labels(i.insn) else {};
  }

  /** A = the word at `off`; leave the rule unless it equals `k`. */
  method AddCompare(p: ProgramBuilder<Label>, off: u32, k: u32, violation: Label)
    requires p.Valid()
    modifies p
    ensures p.Valid()
    ensures p.listing == old(p.listing) + [Stmt(LOAD, off), JumpFalse(IFEQ, k, 0, violation)]
    ensures Marked(p.listing) == Marked(old(p.listing))
    ensures Used(p.listing) == Used(old(p.listing)) + {violation}
  {
    hide Represents, Used, Marked;
    AppendOne(p.listing, Stmt(LOAD, off));
    p.AddStmt(LOAD, off);
    AppendOne(p.listing, JumpFalse(IFEQ, k, 0, violation));
    p.AddJumpFalseLabel(IFEQ, k, 0, violation);
  }

  /** Appends the check of one argument; fails on a matcher of unknown type. */
  method AddArg(p: ProgramBuilder<Label>, arg: Arg, i: nat, violation: Label) returns (ok: bool)
    requires i < 6 && p.Valid()
    modifies p
    ensures p.Valid()
    ensures ok <==> !arg.Unknown?
    ensures ok ==> p.listing == old(p.listing) + ArgCode(arg, i, violation)
    ensures Marked(p.listing) == Marked(old(p.listing))
    ensures Used(p.listing) == Used(old(p.listing)) + if arg.AllowValue? then {violation} else {}
  {
    hide Represents, Used, Marked;
    ok := true;
    match arg {
      case AllowValue(v) =>
        var high, low := High(v), Low(v);
        AddCompare(p, ArgLow(i), low, violation);
        AddCompare(p, ArgHigh(i), high, violation);
      case Unknown =>
        ok := false;
      case _ =>
    }
  }

  lemma ArgsSplit(items: Listing, r: Rule, i: nat, violation: Label)
    requires i < 6
    ensures items + ArgsCode(r, i, violation) == items + ArgCode(r[i], i, violation) + ArgsCode(r, i + 1, violation)
  {
    assert items + ArgsCode(r, i, violation) == items + (ArgCode(r[i], i, violation) + ArgsCode(r, i + 1, violation));
  }

  /** Appends the checks of one rule's arguments. */
  method AddArgs(p: ProgramBuilder<Label>, r: Rule, violation: Label) returns (ok: bool, labelled: bool)
    requires p.Valid()
    modifies p
    ensures p.Valid()
    ensures ok <==> KnownRule(r)
    ensures ok ==> p.listing == old(p.listing) + ArgsCode(r, 0, violation)
    ensures ok ==> labelled == Labelled(r) && (labelled ==> violation in Used(p.listing))
    ensures Marked(p.listing) == Marked(old(p.listing)) && Used(old(p.listing)) <= Used(p.listing)
  {
    hide Represents, Used, Marked, ArgCode, ArgsCode;
    labelled := false;
    ghost var l0 := p.listing;
    for i := 0 to 6
      invariant p.Valid()
      invariant p.listing + ArgsCode(r, i, violation) == l0 + ArgsCode(r, 0, violation)
      invariant labelled == exists j :: 0 <= j < i && r[j].AllowValue?
      invariant labelled ==> violation in Used(p.listing)
      invariant Marked(p.listing) == Marked(l0) && Used(l0) <= Used(p.listing)
      invariant forall j :: 0 <= j < i ==> !r[j].Unknown?
    {
      ArgsSplit(p.listing, r, i, violation);
      var known := AddArg(p, r[i], i, violation);
      if !known {
        return false, false;
      }
      labelled := labelled || r[i].AllowValue?;
    }
    ok := true;
    NoArgsLeft(r, violation);
    assert p.listing == p.listing + [];
  }

  lemma NoArgsLeft(r: Rule, violation: Label)
    ensures ArgsCode(r, 6, violation) == []
  {
  }

  lemma RuleAppended(items: Listing, r: Rule, action: u32, set_: nat, sysno: u64, idx: nat)
    ensures var c, s := ArgsCode(r, 0, RuleViolation(set_, sysno, idx)), Stmt(RETK, action);
            items + RuleCode(r, action, set_, sysno, idx) ==
              if Labelled(r) then items + c + [s] + [Mark(RuleViolation(set_, sysno, idx))] else items + c + [s]
  {
    hide ArgsCode;
  }

  lemma RulesSplit(items: Listing, rules: seq<Rule>, action: u32, set_: nat, sysno: u64, idx: nat)
    requires idx < |rules|
    ensures items + RulesCode(rules, action, set_, sysno, idx) ==
              items + RuleCode(rules[idx], action, set_, sysno, idx) + RulesCode(rules, action, set_, sysno, idx + 1)
  {
    hide RuleCode;
  }

  lemma NoRulesLeft(items: Listing, rules: seq<Rule>, action: u32, set_: nat, sysno: u64)
    ensures items + RulesCode(rules, action, set_, sysno, |rules|) == items
  {
  }

  /** Appends the check of one rule. */
  method AddRule(p: ProgramBuilder<Label>, r: Rule, action: u32, set_: nat, sysno: u64, idx: nat) returns (ok: bool)
    requires p.Valid() && RuleViolation(set_, sysno, idx) !in Marked(p.listing)
    modifies p
    ensures p.Valid() && (ok <==> KnownRule(r))
    ensures ok ==> p.listing == old(p.listing) + RuleCode(r, action, set_, sysno, idx)
    ensures Marked(p.listing) <= Marked(old(p.listing)) + {RuleViolation(set_, sysno, idx)}
  {
    hide Represents, Used, Marked, ArgsCode, RuleCode, Labelled, KnownRule;
    ghost var before := p.listing;
    var violation := RuleViolation(set_, sysno, idx);
    var labelled;
    ok, labelled := AddArgs(p, r, violation);
    if !ok {
      return;
    }
    AppendOne(p.listing, Stmt(RETK, action));
    p.AddStmt(RETK, action);
    if labelled {
      AppendOne(p.listing, Mark(violation));
      var added := p.AddLabel(violation);
      assert added;
    }
    RuleAppended(before, r, action, set_, sysno, idx);
  }

  method AddSyscallArgsCheck(p: ProgramBuilder<Label>, rules: seq<Rule>, action: u32, set_: nat, sysno: u64)
    returns (ok: bool)
    requires p.Valid()
    requires forall i: nat :: RuleViolation(set_, sysno, i) !in Marked(p.listing)
    modifies p
    ensures p.Valid()
    ensures ok <==> KnownRules(rules)
    ensures ok ==> p.listing == old(p.listing) + RulesCode(rules, action, set_, sysno, 0)
  {
    hide Represents, Used, Marked, RulesCode, RuleCode;
    ghost var l0 := p.listing;
    for idx := 0 to |rules|
      invariant p.Valid()
      invariant p.listing + RulesCode(rules, action, set_, sysno, idx) == l0 + RulesCode(rules, action, set_, sysno, 0)
      invariant forall i: nat :: i >= idx ==> RuleViolation(set_, sysno, i) !in Marked(p.listing)
      invariant forall i :: 0 <= i < idx ==> KnownRule(rules[i])
    {
      RulesSplit(p.listing, rules, action, set_, sysno, idx);
      var known := AddRule(p, rules[idx], action, set_, sysno, idx);
      if !known {
        return false;
      }
    }
    ok := true;
    NoRulesLeft(p.listing, rules, action, set_, sysno);
  }

  // ----- rule sets of one system call -----

  /** The labels of rule sets from the `from`-th on are free. */
  ghost predicate FreeSets(items: Listing, from: nat, sysno: u64) {
    forall l :: l in Marked(items) && (l.VsyscallViolation? || l.RuleViolation?) && l.sysno == sysno ==> l.ruleSet < from
  }

  method AddMatchers(p: ProgramBuilder<Label>, rs: RuleSet, set_: nat, sysno: u64) returns (ok: bool)
    requires p.Valid() && sysno in rs.rules && FreeSets(p.listing, set_, sysno)
    modifies p
    ensures p.Valid()
    ensures ok <==> KnownRules(rs.rules[sysno])
    ensures ok ==> p.listing == old(p.listing) + MatchersCode(rs, set_, sysno)
  {
    hide Represents, Used, Marked;
    if |rs.rules[sysno]| == 0 {
      p.AddStmt(RETK, rs.action);
      ok := true;
    } else {
      ok := AddSyscallArgsCheck(p, rs.rules[sysno], rs.action, set_, sysno);
    }
  }

  lemma MatchersMarks(items: Listing, rs: RuleSet, set_: nat, sysno: u64)
    requires sysno in rs.rules && FreeSets(items, set_, sysno)
    ensures VsyscallViolation(set_, sysno) !in Marked(items + MatchersCode(rs, set_, sysno))
    ensures Used(items) <= Used(items + MatchersCode(rs, set_, sysno))
  {
    MatchersPlaced(rs, set_, sysno);
    MarkedAppend(items, MatchersCode(rs, set_, sysno));
    UsedAppend(items, MatchersCode(rs, set_, sysno));
  }

  lemma SetMarks(items: Listing, rs: RuleSet, set_: nat, sysno: u64)
    requires sysno in rs.rules && FreeSets(items, set_, sysno)
    ensures FreeSets(items + SetCode(rs, set_, sysno), set_ + 1, sysno)
  {
    SetPlaced(rs, set_, sysno);
    MarkedAppend(items, SetCode(rs, set_, sysno));
  }

  /** Appends one rule set: the vsyscall test if it has one, then its matchers. */
  method AddRuleSet(p: ProgramBuilder<Label>, rs: RuleSet, set_: nat, sysno: u64) returns (ok: bool)
    requires p.Valid() && sysno in rs.rules && FreeSets(p.listing, set_, sysno)
    modifies p
    ensures p.Valid()
    ensures ok <==> KnownRules(rs.rules[sysno])
    ensures ok ==> p.listing == old(p.listing) + SetCode(rs, set_, sysno)
  {
    hide Represents, Used, Marked, MatchersCode;
    var violation := VsyscallViolation(set_, sysno);
    if rs.vsyscall {
      AppendOne(p.listing, Stmt(LOAD, IP_HIGH_OFFSET));
      p.AddStmt(LOAD, IP_HIGH_OFFSET);
      AppendOne(p.listing, JumpFalse(IFSET, 0x8000_0000, 0, violation));
      p.AddJumpFalseLabel(IFSET, 0x8000_0000, 0, violation);
    }
    ghost var l1 := p.listing;
    ok := AddMatchers(p, rs, set_, sysno);
    if ok && rs.vsyscall {
      MatchersMarks(l1, rs, set_, sysno);
      var added := p.AddLabel(violation);
      assert added;
      assert p.listing == old(p.listing) + SetCode(rs, set_, sysno);
    }
  }

  ghost predicate KnownSets(sets: seq<RuleSet>, sysno: u64) {
    forall i :: 0 <= i < |sets| && sysno in sets[i].rules ==> KnownRules(sets[i].rules[sysno])
  }

  /** The generator has code for `sysno`: no action is shadowed by a blanket one
      and every matcher is of a known type. */
  ghost predicate NodeBuilds(sets: seq<RuleSet>, sysno: u64) {
    !Unreachable(sets, sysno) && KnownSets(sets, sysno)
  }

  lemma SetsSplit(items: Listing, sets: seq<RuleSet>, set_: nat, sysno: u64)
    requires set_ < |sets|
    ensures items + SetsCode(sets, set_, sysno) ==
            items + (if sysno in sets[set_].rules then SetCode(sets[set_], set_, sysno) else [])
            + SetsCode(sets, set_ + 1, sysno)
  {
    hide SetCode;
    var c: Listing := if sysno in sets[set_].rules then SetCode(sets[set_], set_, sysno) else [];
    assert items + (c + SetsCode(sets, set_ + 1, sysno)) == items + c + SetsCode(sets, set_ + 1, sysno);
  }

  method AddRuleSets(p: ProgramBuilder<Label>, sets: seq<RuleSet>, sysno: u64) returns (ok: bool)
    requires p.Valid() && FreeSets(p.listing, 0, sysno)
    modifies p
    ensures p.Valid()
    ensures ok <==> NodeBuilds(sets, sysno)
    ensures ok ==> p.listing == old(p.listing) + ArgsCheckCode(sets, sysno)
  {
    hide Represents, Used, Marked, SetCode, SetsCode;
    var emitted := false;
    ghost var l0 := p.listing;
    for set_ := 0 to |sets|
      invariant p.Valid() && FreeSets(p.listing, set_, sysno)
      invariant p.listing + SetsCode(sets, set_, sysno) == l0 + SetsCode(sets, 0, sysno)
      invariant emitted <==> exists i :: 0 <= i < set_ && Blanket(sets[i], sysno)
      invariant forall i, j :: 0 <= i < j < set_ && Blanket(sets[i], sysno) ==> sysno !in sets[j].rules
      invariant forall i :: 0 <= i < set_ && sysno in sets[i].rules ==> KnownRules(sets[i].rules[sysno])
    {
      var rs := sets[set_];
      SetsSplit(p.listing, sets, set_, sysno);
      if sysno in rs.rules {
        if emitted {
          return false;
        }
        ghost var before := p.listing;
        var known := AddRuleSet(p, rs, set_, sysno);
        if !known {
          return false;
        }
        SetMarks(before, rs, set_, sysno);
        emitted := |rs.rules[sysno]| == 0;
      } else {
        assert p.listing + [] == p.listing;
      }
    }
    NoSetsLeft(sets, sysno);
    assert p.listing + [] == p.listing;
    if !emitted {
      p.AddDirectJumpLabel(Default);
    }
    ok := true;
    assert p.listing == l0 + ArgsCheckCode(sets, sysno);
  }

  lemma NoSetsLeft(sets: seq<RuleSet>, sysno: u64)
    ensures SetsCode(sets, |sets|, sysno) == []
  {
  }

  // ----- the tree -----

  /** No label of a system call in `vs` is marked yet. */
  ghost predicate Untouched(items: Listing, vs: set<u64>) {
    forall l :: l in Marked(items) ==> l.Default? || l.sysno !in vs
  }

  lemma NodeMarks(items: Listing, t: Tree, sets: seq<RuleSet>, vs: set<u64>)
    requires t.Node? && Untouched(items, vs) && t.value !in vs
    ensures Untouched(items + IndexMark(t) + NodeCode(t, sets), vs) && Untouched(items + NodeCode(t, sets), vs)
    ensures forall c :: c in {t.left, t.right} && c.Node? ==>
              Index(c.value) in Used(items + NodeCode(t, sets)) && Index(c.value) in Used(items + IndexMark(t) + NodeCode(t, sets))
  {
    hide Marked, Used, NodeCode, BranchCode;
    NodePlaced(t, sets, {Default, NodeLabel(t.left), NodeLabel(t.right)});
    OneMarkPlaced(Index(t.value), {});
    MarkedAppend(items, IndexMark(t));
    MarkedAppend(items + IndexMark(t), NodeCode(t, sets));
    MarkedAppend(items, NodeCode(t, sets));
    UsedAppend(items + IndexMark(t), NodeCode(t, sets));
    UsedAppend(items, NodeCode(t, sets));
    NodeUses(t, sets);
  }

  lemma NodeUses(t: Tree, sets: seq<RuleSet>)
    requires t.Node?
    ensures forall c :: c in {t.left, t.right} && c.Node? ==> Index(c.value) in Used(NodeCode(t, sets))
  {
    hide ArgsCheckCode, Marked;
    var jump: Listing := [JumpTrue(IFEQ, Low(t.value), CheckArgs(t.value), 0)];
    var c := BranchCode(t);
    var rest: Listing := [Mark(CheckArgs(t.value))] + ArgsCheckCode(sets, t.value);
    UsedAppend(jump, c);
    UsedAppend(jump + c, rest);
    assert NodeCode(t, sets) == (jump + c) + rest;
    if t.left.Node? || t.right.Node? {
      UsedAppend([c[0]], c[1..]);
      assert [c[0]] + c[1..] == c && c[1..] == [c[1], c[2]];
      UsedAppend([c[1]], [c[2]]);
      assert [c[1]] + [c[2]] == c[1..];
      assert Used([c[1]]) == {NodeLabel(t.right)} && Used([c[2]]) == {NodeLabel(t.left)};
    }
  }

  /** Appends the code of one node. */
  method BuildBSTProgram(t: Tree, root: bool, sets: seq<RuleSet>, p: ProgramBuilder<Label>) returns (ok: bool)
    requires t.Node? && p.Valid() && Untouched(p.listing, {t.value})
    requires !root ==> Index(t.value) in Used(p.listing)
    modifies p
    ensures p.Valid()
    ensures ok <==> NodeBuilds(sets, t.value)
    ensures ok ==> p.listing == old(p.listing) + (if root then [] else IndexMark(t)) + NodeCode(t, sets)
  {
    hide Represents, Used, Marked, ArgsCheckCode, Labels, NodeBuilds, BranchCode, NodeCode;
    var sysno := t.value;
    if !root {
      AppendOne(p.listing, Mark(Index(sysno)));
      var added := p.AddLabel(Index(sysno));
      assert added;
    }
    ghost var l1 := p.listing;
    var jump := JumpTrue(IFEQ, Low(sysno), CheckArgs(sysno), 0);
    AppendOne(p.listing, jump);
    p.AddJumpTrueLabel(IFEQ, Low(sysno), CheckArgs(sysno), 0);
    BranchMarks(p.listing, t);
    AddBranch(t, p);
    JumpUses(Low(sysno), CheckArgs(sysno));
    AppendOne(p.listing, Mark(CheckArgs(sysno)));
    var added := p.AddLabel(CheckArgs(sysno));
    assert added;
    ok := AddRuleSets(p, sets, sysno);
    NodeAppended(l1, t, sets);
    assert root ==> l1 == old(p.listing) + [];
  }

  lemma NodeAppended(items: Listing, t: Tree, sets: seq<RuleSet>)
    requires t.Node?
    ensures var jump := JumpTrue(IFEQ, Low(t.value), CheckArgs(t.value), 0);
            items + NodeCode(t, sets) ==
              items + [jump] + BranchCode(t) + [Mark(CheckArgs(t.value))] + ArgsCheckCode(sets, t.value)
  {
    hide BranchCode, ArgsCheckCode, Low;
  }

  lemma JumpUses(k: u32, l: Label)
    ensures Labels(JumpTrue(IFEQ, k, l, 0).insn) == {l}
  {
  }

  lemma BranchMarks(items: Listing, t: Tree)
    requires t.Node?
    ensures Marked(items + BranchCode(t)) == Marked(items) && Used(items) <= Used(items + BranchCode(t))
  {
    var c := BranchCode(t);
    UsedAppend(items, c);
    MarkedAppend(items, c);
    NoMarks(c);
  }

  lemma {:induction false} NoMarks(items: Listing)
    requires forall i :: 0 <= i < |items| ==> items[i].Code?
    ensures Marked(items) == {}
  {
    if items != [] {
      NoMarks(items[1..]);
    }
  }

  method AddBranch(t: Tree, p: ProgramBuilder<Label>)
    requires t.Node? && p.Valid()
    modifies p
    ensures p.Valid() && p.listing == old(p.listing) + BranchCode(t)
  {
    hide Represents;
    if t.left.Nil? && t.right.Nil? {
      p.AddDirectJumpLabel(Default);
    } else {
      p.AddJump(IFGT, Low(t.value), 0, 1);
      p.AddDirectJumpLabel(NodeLabel(t.right));
      p.AddDirectJumpLabel(NodeLabel(t.left));
    }
  }

  ghost predicate TreeBuilds(t: Tree, sets: seq<RuleSet>) {
    forall v :: v in Values(t) ==> NodeBuilds(sets, v)
  }

  lemma TreeMarks(items: Listing, t: Tree, sets: seq<RuleSet>, vs: set<u64>)
    requires Untouched(items, vs) && Distinct(t) && Values(t) !! vs
    ensures Untouched(items + TreeCode(t, sets), vs)
    ensures Used(items) <= Used(items + TreeCode(t, sets))
  {
    TreePlaced(t, sets, {Default});
    MarkedAppend(items, TreeCode(t, sets));
    UsedAppend(items, TreeCode(t, sets));
  }

  /** Appends a subtree in preorder. */
  method Traverse(t: Tree, root: bool, sets: seq<RuleSet>, p: ProgramBuilder<Label>) returns (ok: bool)
    requires p.Valid() && Distinct(t) && Untouched(p.listing, Values(t))
    requires t.Node? && !root ==> Index(t.value) in Used(p.listing)
    modifies p
    ensures p.Valid()
    ensures ok <==> TreeBuilds(t, sets)
    ensures ok ==> p.listing == old(p.listing) + if root && t.Node? then RootCode(t, sets) else TreeCode(t, sets)
    decreases t
  {
    hide Represents, Used, Marked, NodeBuilds, NodeCode, BranchCode, TreeCode, RootCode, TreeBuilds;
    ghost var l0 := p.listing;
    TreeParts(l0, t, sets);
    if t.Nil? {
      return true;
    }
    ok := BuildBSTProgram(t, root, sets, p);
    if !ok {
      return;
    }
    ghost var l1 := p.listing;
    NodeMarks(l0, t, sets, Values(t.left) + Values(t.right));
    assert l0 + [] == l0;
    ok := Traverse(t.left, false, sets, p);
    if !ok {
      return;
    }
    TreeMarks(l1, t.left, sets, Values(t.right));
    ok := Traverse(t.right, false, sets, p);
  }

  lemma Grouped(items: Listing, i: Listing, n: Listing, l: Listing, r: Listing)
    ensures items + i + n + l + r == items + (i + n + l + r)
  {
  }

  lemma TreeParts(items: Listing, t: Tree, sets: seq<RuleSet>)
    ensures t.Nil? ==> items == items + TreeCode(t, sets) && TreeBuilds(t, sets)
    ensures t.Node? ==>
              && (TreeBuilds(t, sets) <==> NodeBuilds(sets, t.value) && TreeBuilds(t.left, sets) && TreeBuilds(t.right, sets))
              && items + [] + NodeCode(t, sets) + TreeCode(t.left, sets) + TreeCode(t.right, sets)
                 == items + RootCode(t, sets)
              && items + IndexMark(t) + NodeCode(t, sets) + TreeCode(t.left, sets) + TreeCode(t.right, sets)
                 == items + TreeCode(t, sets)
  {
    hide NodeBuilds, NodeCode;
    if t.Node? {
      BuildsParts(t, sets);
      Grouped(items, [], NodeCode(t, sets), TreeCode(t.left, sets), TreeCode(t.right, sets));
      assert [] + NodeCode(t, sets) == NodeCode(t, sets);
      Grouped(items, IndexMark(t), NodeCode(t, sets), TreeCode(t.left, sets), TreeCode(t.right, sets));
    }
  }

  lemma BuildsParts(t: Tree, sets: seq<RuleSet>)
    requires t.Node?
    ensures TreeBuilds(t, sets) <==> NodeBuilds(sets, t.value) && TreeBuilds(t.left, sets) && TreeBuilds(t.right, sets)
  {
    hide NodeBuilds;
    assert forall v :: v in Values(t) <==> v == t.value || v in Values(t.left) || v in Values(t.right);
  }

  // ----- the whole program -----

  ghost predicate Largest(m: u64, s: set<u64>) {
    m in s && forall x :: x in s ==> x <= m
  }

  lemma {:induction false} LargestExists(s: set<u64>)
    requires s != {}
    ensures exists m :: Largest(m, s)
  {
    var x :| x in s;
    if s == {x} {
      assert Largest(x, s);
    } else {
      LargestExists(s - {x});
      var m :| Largest(m, s - {x});
      var top := if x > m then x else m;
      forall y | y in s ensures y <= top {
        assert y == x || y in s - {x};
      }
      assert Largest(top, s);
    }
  }

  /** The numbers of a set in ascending order. */
  ghost function Sorted(s: set<u64>): (r: seq<u64>)
    ensures Ascending(r) && forall v :: v in r <==> v in s
  {
    if s == {} then []
    else
      LargestExists(s);
      var m :| Largest(m, s);
      Sorted(s - {m}) + [m]
  }

  ghost predicate SameElements(a: seq<u64>, b: seq<u64>) {
    forall v :: v in a <==> v in b
  }

  lemma LastIsLargest(a: seq<u64>, init: seq<u64>, last: u64)
    requires Ascending(a) && a == init + [last]
    ensures forall v :: v in a <==> v == last || v in init
    ensures forall v :: v in init ==> v < last
    ensures Ascending(init)
  {
    forall v | v in init ensures v < last {
      var i :| 0 <= i < |init| && init[i] == v;
      assert a[i] < a[|a| - 1];
    }
    assert forall i :: 0 <= i < |init| ==> init[i] == a[i];
  }

  lemma SameInit(a: seq<u64>, b: seq<u64>, a': seq<u64>, b': seq<u64>, x: u64, y: u64)
    requires SameElements(a, b) && x in b && y in a
    requires (forall v :: v in a <==> v == x || v in a') && (forall v :: v in a' ==> v < x)
    requires (forall v :: v in b <==> v == y || v in b') && (forall v :: v in b' ==> v < y)
    ensures x == y && SameElements(a', b')
  {
  }

  lemma {:induction false} SortedIsUnique(a: seq<u64>, b: seq<u64>)
    requires Ascending(a) && Ascending(b) && SameElements(a, b)
    ensures a == b
  {
    assert a != [] ==> a[0] in b;
    assert b != [] ==> b[0] in a;
    if a != [] && b != [] {
      var a', x := a[..|a| - 1], a[|a| - 1];
      var b', y := b[..|b| - 1], b[|b| - 1];
      assert a == a' + [x] && b == b' + [y];
      LastIsLargest(a, a', x);
      LastIsLargest(b, b', y);
      assert x in b && y in a;
      SameInit(a, b, a', b', x, y);
      SortedIsUnique(a', b');
    }
  }

  lemma AscendingCons(x: u64, s: seq<u64>)
    requires Ascending(s) && forall w :: w in s ==> x < w
    ensures Ascending([x] + s)
  {
    assert forall j :: 1 <= j < |s| + 1 ==> ([x] + s)[j] in s;
  }

  /** Inserts a number into an ascending sequence. */
  function Insert(s: seq<u64>, v: u64): (r: seq<u64>)
    requires Ascending(s) && v !in s
    ensures Ascending(r) && forall w :: w in r <==> w == v || w in s
  {
    if s == [] then [v]
    else if v < s[0] then
      assert forall w :: w in s ==> s[0] <= w;
      AscendingCons(v, s);
      [v] + s
    else
      assert s[0] in s && forall w :: w in s <==> w == s[0] || w in s[1..];
      var r' := Insert(s[1..], v);
      AscendingCons(s[0], r');
      [s[0]] + r'
  }

  /** The search tree of the rule sets. */
  ghost function TreeOf(sets: seq<RuleSet>): Tree
    requires Syscalls(sets) != {}
  {
    CreateBST(Sorted(Syscalls(sets)))
  }

  lemma TreeOfFacts(sets: seq<RuleSet>)
    requires Syscalls(sets) != {}
    ensures var t := TreeOf(sets); t.Node? && Ordered(t) && Distinct(t) && Values(t) == Syscalls(sets)
  {
    var s := Sorted(Syscalls(sets));
    var v :| v in Syscalls(sets);
    assert v in s;
    CreateBSTOrdered(s);
    OrderedIsDistinct(CreateBST(s));
  }

  /** Collects the system calls of all rule sets and sorts them. */
  method SortedSyscalls(sets: seq<RuleSet>) returns (syscalls: seq<u64>)
    ensures syscalls == Sorted(Syscalls(sets))
  {
    var required: set<u64> := {};
    for i := 0 to |sets|
      invariant required == Syscalls(sets[..i])
    {
      required := required + sets[i].rules.Keys;
      assert Syscalls(sets[..i + 1]) == Syscalls(sets[..i]) + sets[i].rules.Keys;
    }
    assert sets[..|sets|] == sets;
    syscalls := [];
    var todo := required;
    while todo != {}
      invariant Ascending(syscalls) && todo <= required
      invariant forall v :: v in syscalls <==> v in required && v !in todo
    {
      var v :| v in todo;
      syscalls := Insert(syscalls, v);
      todo := todo - {v};
    }
    SortedIsUnique(syscalls, Sorted(required));
  }

  /** The conditions under which `BuildProgram` returns a program. */
  ghost predicate Buildable(sets: seq<RuleSet>, default: u32)
    requires Syscalls(sets) != {}
  {
    && TreeBuilds(TreeOf(sets), sets)
    && AllShort(Syscalls(sets), sets)
    && (TreeOfFacts(sets); ProgramLength(TreeOf(sets), sets, default) - 4 <= 0xffff_ffff)
  }

  datatype BuildResult = Built(program: seq<Insn>) | BuildError | BuildPanic

  /** `createBST` panics on an empty list; otherwise the index is the root's code. */
  method BuildIndex(sets: seq<RuleSet>, p: ProgramBuilder<Label>) returns (panicked: bool, ok: bool)
    requires p.Valid() && p.listing == Prologue()[..3]
    modifies p
    ensures p.Valid()
    ensures panicked <==> Syscalls(sets) == {}
    ensures !panicked ==> (ok <==> TreeBuilds(TreeOf(sets), sets))
    ensures !panicked && ok ==>
              (TreeOfFacts(sets); p.listing == Prologue() + RootCode(TreeOf(sets), sets))
  {
    hide Represents, Used, Marked, RootCode, TreeBuilds, CreateBST, Sorted;
    var syscalls := SortedSyscalls(sets);
    if |syscalls| == 0 {
      NoSyscalls(sets);
      return true, false;
    }
    NoSyscalls(sets);
    panicked := false;
    var t := CreateBST(syscalls);
    TreeOfFacts(sets);
    p.AddStmt(LOAD, NR_OFFSET);
    assert p.listing == Prologue();
    ProloguePlaced({Default});
    ok := Traverse(t, true, sets, p);
  }

  lemma NoSyscalls(sets: seq<RuleSet>)
    ensures Sorted(Syscalls(sets)) == [] <==> Syscalls(sets) == {}
  {
    if Syscalls(sets) != {} {
      var v :| v in Syscalls(sets);
      assert v in Sorted(Syscalls(sets));
    }
  }

  lemma TreeBuildsReachable(t: Tree, sets: seq<RuleSet>)
    requires TreeBuilds(t, sets) && Values(t) == Syscalls(sets)
    ensures NoneUnreachable(sets)
  {
    forall v: u64 ensures !Unreachable(sets, v) {
      if v in Syscalls(sets) {
        assert NodeBuilds(sets, v);
      } else {
        assert forall j :: 0 <= j < |sets| ==> v !in sets[j].rules;
      }
    }
  }

  lemma EpilogueLabel(t: Tree, sets: seq<RuleSet>)
    requires t.Node? && Distinct(t)
    ensures Default in Used(Prologue() + RootCode(t, sets)) && Default !in Marked(Prologue() + RootCode(t, sets))
  {
    hide RootCode, Marked, Used, Prologue;
    RootPlaced(t, sets, {Default});
    ProloguePlaced({Default});
    MarkedAppend(Prologue(), RootCode(t, sets));
    UsedAppend(Prologue(), RootCode(t, sets));
    PrologueUses();
  }

  lemma PrologueUses()
    ensures Default in Used(Prologue())
  {
    var p := Prologue();
    UsedAppend(p[..2], p[2..]);
    assert p[..2] + p[2..] == p && p[2..][0] == Code(Goto(Default));
  }

  /** Compiler correctness, for every list of rule sets. The program exists
      exactly under the stated conditions; on every `seccomp_data` it returns
      exactly what `Filter` says; it passes the validator if it is short enough. */
  method BuildProgram(sets: seq<RuleSet>, default: u32) returns (r: BuildResult)
    ensures r.BuildPanic? <==> Syscalls(sets) == {}
    ensures Syscalls(sets) != {} ==> (r.Built? <==> Buildable(sets, default))
    ensures r.Built? ==> forall b: Bytes ::
              Run(r.program, 0, ZERO, In(b)) == Value(Filter(TreeOf(sets), sets, default, b))
    ensures r.Built? && |r.program| <= MAX_INSTRUCTIONS ==> ValidProgram(r.program)
    ensures r.Built? && NoVsyscallBlanket(sets) && (forall v :: v in Syscalls(sets) ==> v < TWO32) ==> Enforces(r.program, sets, default)
    ensures r.Built? ==>
              (Enforces(r.program, sets, default) <==> NumbersKept(TreeOf(sets), sets, default) && NothingLeaks(TreeOf(sets), sets, default))
    ensures r.Built? && NoVsyscallBlanket(sets) ==> (Enforces(r.program, sets, default) <==> NumbersKept(TreeOf(sets), sets, default))
    ensures r.Built? && (forall v :: v in Syscalls(sets) ==> v < TWO32) ==>
              (Enforces(r.program, sets, default) <==> LeakFree(TreeOf(sets), sets, default))
  {
    hide Represents, Used, Marked, RootCode, TreeBuilds, TreeOf, Syscalls, Forward, Fits, Assemble, Run, Filter, Policy,
         ValidProgram, NoVsyscallBlanket, AllShort, NoneUnreachable, Decode, Enforces, NumbersKept, NothingLeaks, LeakFree;
    var p := new ProgramBuilder<Label>();
    p.AddStmt(LOAD, ARCH_OFFSET);
    p.AddJump(IFEQ, AUDIT_ARCH_X86_64, 1, 0);
    p.AddDirectJumpLabel(Default);
    assert p.listing == Prologue()[..3];
    var panicked, ok := BuildIndex(sets, p);
    if panicked {
      return BuildPanic;
    }
    if !ok {
      return BuildError;
    }
    ghost var t := TreeOf(sets);
    TreeOfFacts(sets);
    EpilogueLabel(t, sets);
    var added := p.AddLabel(Default);
    assert added;
    p.AddStmt(RETK, default);
    assert p.listing == ProgramCode(t, sets, default);
    LinksExactlyWhen(t, sets, default);
    var linked, program := p.Instructions();
    if !linked {
      return BuildError;
    }
    TreeBuildsReachable(t, sets);
    ProgramMeets(t, sets, default, program);
    ProgramEnforces(t, sets, default, program);
    r := Built(program);
  }

  lemma {:induction false} SortedSize(s: set<u64>)
    ensures |Sorted(s)| == |s|
    decreases |s|
  {
    if s != {} {
      LargestExists(s);
      var m :| Largest(m, s) && Sorted(s) == Sorted(s - {m}) + [m];
      SortedSize(s - {m});
    }
  }

  /** Every search in a program that is built takes three instructions per level at most, and
      the levels are logarithmic in the number of system calls. */
  lemma BuiltIsFast(sets: seq<RuleSet>, default: u32, m: Machine, in_: Input) returns (line: nat, levels: nat)
    requires Syscalls(sets) != {} && Buildable(sets, default)
    ensures levels > 0 && Pow2(levels - 1) <= |Syscalls(sets)|
    ensures TreeOf(sets).Node? && Forward(Assemble(ProgramCode(TreeOf(sets), sets, default)))
    ensures var s := Assemble(ProgramCode(TreeOf(sets), sets, default));
            Fits(s) && SearchEnd(s, TreeOf(sets), m.a, line) && Within(Resolve(s), 4, m, in_, 3 * levels, line)
  {
    hide Forward, Fits, ProgramCode, Assemble, Resolve, Within, SearchEnd, Sorted, AllShort, TreeBuilds, Syscalls, CreateBST, Ordered, Distinct;
    TreeOfFacts(sets);
    LinksExactlyWhen(TreeOf(sets), sets, default);
    NoSyscalls(sets);
    SortedSize(Syscalls(sets));
    line, levels := SearchIsFast(Sorted(Syscalls(sets)), sets, default, m, in_);
  }

  /** The program returns what the policy says, whatever the call. */
  ghost predicate Enforces(program: seq<Insn>, sets: seq<RuleSet>, default: u32) {
    forall b: Bytes :: Decides(program, sets, default, b)
  }

  ghost predicate Decides(program: seq<Insn>, sets: seq<RuleSet>, default: u32, b: Bytes) {
    Run(program, 0, ZERO, In(b)) == Value(Policy(sets, default, Decode(b)))
  }

  /** When a program that computes the filter enforces the policy. */
  lemma ProgramEnforces(t: Tree, sets: seq<RuleSet>, default: u32, program: seq<Insn>)
    requires t.Node? && Ordered(t) && Values(t) == Syscalls(sets)
    requires forall b: Bytes :: Run(program, 0, ZERO, In(b)) == Value(Filter(t, sets, default, b))
    ensures Enforces(program, sets, default) <==> NumbersKept(t, sets, default) && NothingLeaks(t, sets, default)
    ensures NoVsyscallBlanket(sets) ==> (Enforces(program, sets, default) <==> NumbersKept(t, sets, default))
    ensures (forall v :: v in Syscalls(sets) ==> v < TWO32) ==> (Enforces(program, sets, default) <==> LeakFree(t, sets, default))
  {
    hide Run, Filter, Policy, Decode, NumbersKept, NothingLeaks, LeakFree, NoVsyscallBlanket, Syscalls, Ordered;
    assert Enforces(program, sets, default) <==> forall b: Bytes :: Filter(t, sets, default, b) == Policy(sets, default, Decode(b)) by {
      if forall b: Bytes :: Filter(t, sets, default, b) == Policy(sets, default, Decode(b)) {
        forall b: Bytes ensures Decides(program, sets, default, b) {
        }
      }
      if Enforces(program, sets, default) {
        forall b: Bytes ensures Filter(t, sets, default, b) == Policy(sets, default, Decode(b)) {
          assert Decides(program, sets, default, b);
        }
      }
    }
    CorrectExactlyWhen(t, sets, default);
    if NoVsyscallBlanket(sets) { CorrectExactlyWhenKept(t, sets, default); }
    if forall v :: v in Syscalls(sets) ==> v < TWO32 { CorrectExactlyWhenLeakFree(t, sets, default); }
  }

  /** What a linked program of the generator is worth. */
  lemma ProgramMeets(t: Tree, sets: seq<RuleSet>, default: u32, program: seq<Insn>)
    requires t.Node? && Ordered(t) && Distinct(t) && Values(t) == Syscalls(sets) && NoneUnreachable(sets)
    requires Forward(Assemble(ProgramCode(t, sets, default))) && Fits(Assemble(ProgramCode(t, sets, default)))
    requires program == Resolve(Assemble(ProgramCode(t, sets, default)))
    ensures forall b: Bytes :: Run(program, 0, ZERO, In(b)) == Value(Filter(t, sets, default, b))
    ensures |program| <= MAX_INSTRUCTIONS ==> ValidProgram(program)
    ensures NoVsyscallBlanket(sets) && (forall v :: v in Syscalls(sets) ==> v < TWO32) ==> Enforces(program, sets, default)
  {
    hide Forward, Fits, ProgramCode, Run, RunSym, Filter, Policy, Decode, NoVsyscallBlanket, FallsThrough, ValidProgram,
         NoneUnreachable, Syscalls, Distinct, Ordered;
    var s := Assemble(ProgramCode(t, sets, default));
    forall b: Bytes ensures Run(program, 0, ZERO, In(b)) == Value(Filter(t, sets, default, b)) {
      ProgramRuns(t, sets, default, b);
      LinkingPreservesMeaning(s, 0, ZERO, In(b));
    }
    if |program| <= MAX_INSTRUCTIONS {
      ProgramIsValid(t, sets, default);
    }
    if NoVsyscallBlanket(sets) && forall v :: v in Syscalls(sets) ==> v < TWO32 {
      forall b: Bytes ensures Filter(t, sets, default, b) == Policy(sets, default, Decode(b)) {
        NothingFallsThrough(sets, Decode(b));
        FilterDecides(t, sets, default, b);
      }
    }
  }

  // ----- two programs that do not enforce their policy -----

  /** Only actions without rules. */
  ghost predicate Plain(sets: seq<RuleSet>) {
    forall i, v :: 0 <= i < |sets| && v in sets[i].rules ==> sets[i].rules[v] == []
  }

  lemma {:induction false} CodeFits(items: Listing)
    ensures |CodeOf(items)| <= |items|
  {
    if items != [] { CodeFits(items[1..]); }
  }

  lemma {:induction false} PlainCode(sets: seq<RuleSet>, from: nat, sysno: u64)
    requires Plain(sets) && from <= |sets|
    ensures |SetsCode(sets, from, sysno)| <= 4 * (|sets| - from)
    decreases |sets| - from
  {
    if from < |sets| { PlainCode(sets, from + 1, sysno); }
  }

  lemma PlainNode(t: Tree, sets: seq<RuleSet>)
    requires Plain(sets) && |sets| <= 2 && t.Node?
    ensures |NodeCode(t, sets)| <= 14
  {
    hide SetsCode;
    PlainCode(sets, 0, t.value);
  }

  /** A root with one child at most, as the tree of one or two numbers has. */
  lemma PlainProgram(t: Tree, sets: seq<RuleSet>, default: u32)
    requires Plain(sets) && |sets| <= 2 && t.Node? && t.right.Nil? && (t.left.Node? ==> t.left.left.Nil? && t.left.right.Nil?)
    ensures ProgramLength(t, sets, default) <= 40
  {
    hide NodeCode, CodeOf;
    CodeFits(ProgramCode(t, sets, default));
    PlainNode(t, sets);
    if t.left.Node? { PlainNode(t.left, sets); }
    assert |TreeCode(t.left, sets)| <= 15 && TreeCode(t.right, sets) == [];
  }

  lemma PlainShort(sets: seq<RuleSet>)
    requires Plain(sets)
    ensures AllShort(Syscalls(sets), sets) && forall v: u64 :: KnownSets(sets, v)
  {
    forall i, v: u64 | 0 <= i < |sets| ensures ShortBlock(sets[i], i, v) {
      if v in sets[i].rules { CodeFits(MatchersCode(sets[i], i, v)); }
    }
  }

  lemma PlainBuilds(sets: seq<RuleSet>, syscalls: seq<u64>, default: u32)
    requires Plain(sets) && |sets| <= 2 && (forall v: u64 :: !Unreachable(sets, v))
    requires 1 <= |syscalls| <= 2 && Ascending(syscalls) && forall v :: v in syscalls <==> v in Syscalls(sets)
    ensures Syscalls(sets) != {} && TreeOf(sets) == CreateBST(syscalls) && Buildable(sets, default)
  {
    hide Syscalls, Plain, Unreachable, AllShort, ProgramLength, Sorted, KnownSets;
    assert syscalls[0] in Syscalls(sets);
    SortedIsUnique(syscalls, Sorted(Syscalls(sets)));
    PlainShort(sets);
    var t := CreateBST(syscalls);
    assert |syscalls| == 2 ==> CreateBST(syscalls[..1]) == Node(syscalls[0], Nil, Nil);
    assert t.right.Nil? && (t.left.Node? ==> t.left.left.Nil? && t.left.right.Nil?);
    TreeOfFacts(sets);
    PlainProgram(t, sets, default);
  }

  /** `LEAKY` is built, and the program lets a call through that is for vsyscalls only. */
  method BuildsLeaky() returns (r: BuildResult)
    ensures r.Built? && !Enforces(r.program, LEAKY, KILL)
    ensures var b := Encode(Data(1, AUDIT_ARCH_X86_64, 0, ZEROS));
            Run(r.program, 0, ZERO, In(b)) == Value(ALLOW) && Policy(LEAKY, KILL, Decode(b)) == KILL
  {
    hide *;
    CallsWellFormed();
    LeakyBuilds();
    VsyscallLeak();
    r := BuildProgram(LEAKY, KILL);
    NotEnforced(r.program, LEAKY, KILL, Encode(Data(1, AUDIT_ARCH_X86_64, 0, ZEROS)));
  }

  lemma LeakyBuilds()
    ensures Syscalls(LEAKY) != {} && TreeOf(LEAKY) == CreateBST([0, 1]) && Buildable(LEAKY, KILL)
  {
    assert 1 in LEAKY[0].rules && 0 in LEAKY[1].rules;
    PlainBuilds(LEAKY, [0, 1], KILL);
  }

  lemma CallsWellFormed()
    ensures WellFormed(Data(0, AUDIT_ARCH_X86_64, 0, ZEROS)) && WellFormed(Data(1, AUDIT_ARCH_X86_64, 0, ZEROS))
  {
  }

  lemma NotEnforced(program: seq<Insn>, sets: seq<RuleSet>, default: u32, b: Bytes)
    requires Run(program, 0, ZERO, In(b)) == Value(ALLOW) && Policy(sets, default, Decode(b)) == KILL
    ensures !Enforces(program, sets, default)
  {
    hide Run, Policy, Decode;
    assert !Decides(program, sets, default, b);
  }

  /** `WIDE` is built, and the program lets a call through that has no rule. */
  method BuildsWide() returns (r: BuildResult)
    ensures r.Built? && !Enforces(r.program, WIDE, KILL)
    ensures var b := Encode(Data(0, AUDIT_ARCH_X86_64, 0, ZEROS));
            Run(r.program, 0, ZERO, In(b)) == Value(ALLOW) && Policy(WIDE, KILL, Decode(b)) == KILL
  {
    hide *;
    CallsWellFormed();
    WideBuilds();
    TruncatedNumber();
    r := BuildProgram(WIDE, KILL);
    NotEnforced(r.program, WIDE, KILL, Encode(Data(0, AUDIT_ARCH_X86_64, 0, ZEROS)));
  }

  lemma WideBuilds()
    ensures Syscalls(WIDE) != {} && TreeOf(WIDE) == CreateBST([0x1_0000_0000]) && Buildable(WIDE, KILL)
  {
    assert 0x1_0000_0000 in WIDE[0].rules;
    PlainBuilds(WIDE, [0x1_0000_0000], KILL);
  }
}

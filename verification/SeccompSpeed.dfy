/** How fast the generated code finds a system call: three instructions per level. */
module SeccompSpeed {
  import opened Words
  import opened Bpf
  import opened Assembler
  import opened Placement
  import opened SeccompPolicy
  import opened SeccompCode
  import opened SeccompLabels
  import opened SeccompMeaning
  import opened SeccompSearch
  import opened SeccompCorrect

  /** Running `p` from `pc` reaches line `to` in at most `n` instructions, none of
      which changes the machine. */
  ghost predicate Within(p: seq<Insn>, pc: nat, m: Machine, in_: Input, n: nat, to: nat)
    decreases n
  {
    pc == to ||
    (n > 0 && pc < |p| &&
     var o := Step(p[pc].op, p[pc].k, m, in_);
     o.Next? && o.m == m && Within(p, pc + 1 + Skip(p[pc], o.branch), m, in_, n - 1, to))
  }

  lemma {:induction false} WithinTrans(p: seq<Insn>, pc: nat, m: Machine, in_: Input, n: nat, mid: nat, k: nat, to: nat)
    requires Within(p, pc, m, in_, n, mid) && Within(p, mid, m, in_, k, to)
    ensures Within(p, pc, m, in_, n + k, to)
    decreases n
  {
    hide Step;
    if pc == mid {
      WithinMore(p, mid, m, in_, k, n + k, to);
    } else if pc != to {
      var o := Step(p[pc].op, p[pc].k, m, in_);
      WithinTrans(p, pc + 1 + Skip(p[pc], o.branch), m, in_, n - 1, mid, k, to);
    }
  }

  lemma {:induction false} WithinMore(p: seq<Insn>, pc: nat, m: Machine, in_: Input, n: nat, n': nat, to: nat)
    requires Within(p, pc, m, in_, n, to) && n <= n'
    ensures Within(p, pc, m, in_, n', to)
    decreases n
  {
    hide Step;
    if pc != to {
      var o := Step(p[pc].op, p[pc].k, m, in_);
      WithinMore(p, pc + 1 + Skip(p[pc], o.branch), m, in_, n - 1, n' - 1, to);
    }
  }

  /** One step that goes where the labelled instruction says. */
  lemma OneHop(s: Symbolic<Label>, pc: nat, m: Machine, in_: Input, b: Branch)
    requires Forward(s) && Fits(s) && pc < |s.code|
    requires Step(OpOf(s.code[pc]), KOf(s.code[pc]), m, in_) == Next(m, b)
    ensures Within(Resolve(s), pc, m, in_, 1, Dest(s, pc, b))
  {
    hide Step, Forward, Fits;
    StepAgrees(s, pc, m, in_);
    var p := Resolve(s);
    assert Within(p, pc + 1 + Skip(p[pc], b), m, in_, 0, Dest(s, pc, b));
  }

  lemma GotoHop(s: Symbolic<Label>, pc: nat, m: Machine, in_: Input, l: Label)
    requires Forward(s) && Fits(s) && At(s, pc, Code(Goto(l)))
    ensures l in s.targets && Within(Resolve(s), pc, m, in_, 1, s.targets[l])
  {
    assert JumpsTo(s, pc, OnJump, l);
    assert Step(JMP | JA, 0xffff_ffff, m, in_) == Next(m, Direct);
    OneHop(s, pc, m, in_, Direct);
  }

  lemma BranchHop(s: Symbolic<Label>, pc: nat, m: Machine, in_: Input, i: SymInsn<Label>)
    requires Forward(s) && Fits(s) && At(s, pc, Code(i))
    requires i.Plain? && i.op in {IFEQ, IFGT, IFSET}
    ensures var t := if Holds(i.op, m.a, i.k) then i.jt else i.jf;
            && (t.To? ==> t.name in s.targets)
            && Within(Resolve(s), pc, m, in_, 1, if t.To? then s.targets[t.name] else pc + 1 + t.n)
  {
    var cond := Holds(i.op, m.a, i.k);
    assert Step(i.op, i.k, m, in_) == Next(m, if cond then WhenTrue else WhenFalse);
    OneHop(s, pc, m, in_, if cond then WhenTrue else WhenFalse);
    if cond {
      if i.jt.To? { assert JumpsTo(s, pc, OnTrue, i.jt.name); }
    } else {
      if i.jf.To? { assert JumpsTo(s, pc, OnFalse, i.jf.name); }
    }
  }

  /** Where a search for `key` in `t` may end: an argument check or the default action. */
  ghost predicate SearchEnd(s: Symbolic<Label>, t: Tree, key: u32, line: nat) {
    || (Default in s.targets && line == s.targets[Default])
    || exists v :: v in Values(t) && Low(v) == key && CheckArgs(v) in s.targets && line == s.targets[CheckArgs(v)]
  }

  /** From a node that is not the key, two more instructions lead to a child or the default. */
  lemma BranchHops(s: Symbolic<Label>, pc: nat, args: nat, left: nat, right: nat, next: nat, end: nat,
                   t: Tree, rest: Forest, sets: seq<RuleSet>, default: u32, m: Machine, in_: Input)
    requires t.Node? && Forward(s) && Fits(s) && Laid(s, pc, args, left, right, next, end, t, rest, sets, default)
    ensures Default in s.targets
    ensures var child := if m.a > Low(t.value) then t.right else t.left;
            Within(Resolve(s), pc + 1, m, in_, 2,
                   if child.Nil? then s.targets[Default] else if m.a > Low(t.value) then right else left)
  {
    hide TreeCode, CodeOf, ForestCode, ArgsCheckCode, Step, Forward, Fits, CodeAt, Within, Epilogue;
    var c := BranchCode(t);
    PlainCodeAt(s, pc + 1, c);
    EpilogueLines(s, end, default);
    assert At(s, pc + 1, c[0]);
    if t.left.Nil? && t.right.Nil? {
      GotoHop(s, pc + 1, m, in_, Default);
      WithinMore(Resolve(s), pc + 1, m, in_, 1, 2, s.targets[Default]);
    } else {
      assert At(s, pc + 2, c[1]) && At(s, pc + 3, c[2]);
      BranchHop(s, pc + 1, m, in_, c[0].insn);
      var child, line := if m.a > Low(t.value) then t.right else t.left, if m.a > Low(t.value) then pc + 2 else pc + 3;
      GotoHop(s, line, m, in_, NodeLabel(child));
      WithinTrans(Resolve(s), pc + 1, m, in_, 1, line, 1, s.targets[NodeLabel(child)]);
      if child.Node? {
        NodeMarked(s, if m.a > Low(t.value) then right else left, child, sets);
      }
    }
  }

  lemma {:induction false} SearchSteps(s: Symbolic<Label>, pc: nat, m: Machine, in_: Input,
                                       t: Tree, rest: Forest, sets: seq<RuleSet>, default: u32)
    returns (line: nat)
    requires t.Node? && Forward(s) && Fits(s)
    requires CodeAt(s, pc, RootCode(t, sets) + ForestCode(rest, sets) + Epilogue(default))
    ensures SearchEnd(s, t, m.a, line) && Within(Resolve(s), pc, m, in_, 3 * Depth(t), line)
    decreases t
  {
    hide TreeCode, CodeOf, CodeAt, Epilogue, ForestCode, RootCode, ArgsCheckCode, BranchCode, Step, Forward, Fits, Within;
    var p := Resolve(s);
    var args, left, right, next, end := Layout(s, pc, t, rest, sets, default);
    BranchHop(s, pc, m, in_, Plain(IFEQ, Low(t.value), To(CheckArgs(t.value)), Offset(0)));
    ChildrenLaid(s, pc, args, left, right, next, end, t, rest, sets, default);
    if m.a == Low(t.value) {
      line := args;
      WithinMore(p, pc, m, in_, 1, 3 * Depth(t), line);
    } else {
      BranchHops(s, pc, args, left, right, next, end, t, rest, sets, default, m, in_);
      var child, at := if m.a > Low(t.value) then t.right else t.left, if m.a > Low(t.value) then right else left;
      if child.Nil? {
        line := s.targets[Default];
        WithinTrans(p, pc, m, in_, 1, pc + 1, 2, line);
        WithinMore(p, pc, m, in_, 3, 3 * Depth(t), line);
      } else {
        var rest' := if m.a > Low(t.value) then rest else Then(t.right, rest);
        HeadUnmarked(s, at, child, rest', sets, default);
        line := SearchSteps(s, at, m, in_, child, rest', sets, default);
        WithinTrans(p, pc, m, in_, 1, pc + 1, 2, at);
        WithinTrans(p, pc, m, in_, 3, at, 3 * Depth(child), line);
        WithinMore(p, pc, m, in_, 3 + 3 * Depth(child), 3 * Depth(t), line);
      }
    }
  }

  /** With the system call number loaded (line 4), the linked program of `n` system
      calls reaches the argument check or the default action within
      3 * (floor(log2(n)) + 1) instructions. */
  lemma SearchIsFast(syscalls: seq<u64>, sets: seq<RuleSet>, default: u32, m: Machine, in_: Input)
    returns (line: nat, levels: nat)
    requires |syscalls| > 0 && Distinct(CreateBST(syscalls))
    requires Forward(Assemble(ProgramCode(CreateBST(syscalls), sets, default)))
    requires Fits(Assemble(ProgramCode(CreateBST(syscalls), sets, default)))
    ensures levels > 0 && Pow2(levels - 1) <= |syscalls|
    ensures var s := Assemble(ProgramCode(CreateBST(syscalls), sets, default));
            SearchEnd(s, CreateBST(syscalls), m.a, line) && Within(Resolve(s), 4, m, in_, 3 * levels, line)
  {
    hide CodeOf, CodeAt, Epilogue, ForestCode, RootCode, Step, Forward, Fits, Within, CreateBST, Prologue, WellPlaced, SearchEnd;
    var t := CreateBST(syscalls);
    CreateBSTBalanced(syscalls);
    levels := Depth(t);
    var s := Assemble(ProgramCode(t, sets, default));
    ProgramForward(t, sets, default);
    AssembledProgram(t, sets, default);
    CodeAt3(s, 0, Prologue(), RootCode(t, sets), Epilogue(default));
    CodeAtSplit(s, |CodeOf(Prologue())|, RootCode(t, sets), Epilogue(default));
    PrologueRuns(s, |CodeOf(Prologue())| + |CodeOf(RootCode(t, sets))|, seq(64, _ => 0), default);
    NoTrees(t, sets, default);
    line := SearchSteps(s, 4, m, in_, t, Empty, sets, default);
  }
}

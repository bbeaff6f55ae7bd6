/** The label-resolving program builder. A listing is the sequence of builder
    calls so far: code with symbolic jump targets, interleaved with label marks.
    `ProgramBuilder` keeps the source's two fields and a ghost listing; linking
    is specified on listings, and shown to preserve the meaning of the code. */
module Assembler {
  import opened Words
  import opened Bpf

  // ----- listings -----

  datatype Target<L> = Offset(n: u8) | To(name: L)

  datatype SymInsn<L> =
    | Plain(op: bv16, k: u32, jt: Target<L>, jf: Target<L>)
    | Goto(name: L)

  datatype Item<L> = Mark(name: L) | Code(insn: SymInsn<L>)

  function Stmt<L>(op: bv16, k: u32): Item<L> {
    Code(Plain(op, k, Offset(0), Offset(0)))
  }

  function Jump<L>(op: bv16, k: u32, jt: u8, jf: u8): Item<L> {
    Code(Plain(op, k, Offset(jt), Offset(jf)))
  }

  function JumpTrue<L>(op: bv16, k: u32, name: L, jf: u8): Item<L> {
    Code(Plain(op, k, To(name), Offset(jf)))
  }

  function JumpFalse<L>(op: bv16, k: u32, jt: u8, name: L): Item<L> {
    Code(Plain(op, k, Offset(jt), To(name)))
  }

  /** The code of a listing, without its marks. */
  function CodeOf<L>(items: seq<Item<L>>): seq<SymInsn<L>> {
    if items == [] then []
    else if items[0].Code? then [items[0].insn] + CodeOf(items[1..])
    else CodeOf(items[1..])
  }

  /** The line each marked label stands for, when the listing starts at `line`. */
  function TargetsFrom<L>(items: seq<Item<L>>, line: nat): map<L, nat> {
    if items == [] then map[]
    else if items[0].Mark? then TargetsFrom(items[1..], line)[items[0].name := line]
    else TargetsFrom(items[1..], line + 1)
  }

  datatype Slot = OnTrue | OnFalse | OnJump

  function LabelAt<L>(i: SymInsn<L>, slot: Slot): Target<L> {
    match i
    case Goto(l) => if slot == OnJump then To(l) else Offset(0)
    case Plain(_, _, jt, jf) => if slot == OnTrue then jt else if slot == OnFalse then jf else Offset(0)
  }

  function Labels<L>(i: SymInsn<L>): set<L> {
    match i
    case Goto(l) => {l}
    case Plain(_, _, jt, jf) =>
      (if jt.To? then {jt.name} else {}) + (if jf.To? then {jf.name} else {})
  }

  function Used<L>(items: seq<Item<L>>): set<L> {
    if items == [] then {}
    else if items[0].Code? then Labels(items[0].insn) + Used(items[1..])
    else Used(items[1..])
  }

  function Marked<L>(items: seq<Item<L>>): set<L> {
    if items == [] then {}
    else if items[0].Mark? then {items[0].name} + Marked(items[1..])
    else Marked(items[1..])
  }

  /** No label is marked twice. */
  ghost predicate MarkedOnce<L>(items: seq<Item<L>>) {
    items == [] || (MarkedOnce(items[1..]) && (items[0].Mark? ==> items[0].name !in Marked(items[1..])))
  }

  lemma {:induction false} CodeOfAppend<L>(a: seq<Item<L>>, b: seq<Item<L>>)
    ensures CodeOf(a + b) == CodeOf(a) + CodeOf(b)
  {
    if a == [] {
      assert a + b == b;
    } else {
      assert (a + b)[1..] == a[1..] + b;
      CodeOfAppend(a[1..], b);
    }
  }

  lemma {:induction false} UsedAppend<L>(a: seq<Item<L>>, b: seq<Item<L>>)
    ensures Used(a + b) == Used(a) + Used(b)
  {
    if a == [] {
      assert a + b == b;
    } else {
      assert (a + b)[1..] == a[1..] + b;
      UsedAppend(a[1..], b);
    }
  }

  lemma {:induction false} MarkedAppend<L>(a: seq<Item<L>>, b: seq<Item<L>>)
    ensures Marked(a + b) == Marked(a) + Marked(b)
    ensures MarkedOnce(a + b) <==> MarkedOnce(a) && MarkedOnce(b) && Marked(a) !! Marked(b)
  {
    if a == [] {
      assert a + b == b;
    } else {
      assert (a + b)[1..] == a[1..] + b;
      MarkedAppend(a[1..], b);
    }
  }

  lemma {:induction false} TargetsAppend<L>(a: seq<Item<L>>, b: seq<Item<L>>, line: nat)
    requires MarkedOnce(a + b)
    ensures TargetsFrom(a + b, line) == TargetsFrom(a, line) + TargetsFrom(b, line + |CodeOf(a)|)
  {
    if a == [] {
      assert a + b == b;
    } else {
      assert (a + b)[1..] == a[1..] + b;
      MarkedAppend(a[..1], a[1..] + b);
      assert a[..1] + (a[1..] + b) == a + b;
      MarkedAppend(a[1..], b);
      if a[0].Mark? {
        TargetsAppend(a[1..], b, line);
        TargetsKeys(b, line + |CodeOf(a)|);
      } else {
        TargetsAppend(a[1..], b, line + 1);
      }
    }
  }

  lemma {:induction false} TargetsKeys<L>(items: seq<Item<L>>, line: nat)
    ensures TargetsFrom(items, line).Keys == Marked(items)
    ensures forall l :: l in Marked(items) ==> line <= TargetsFrom(items, line)[l] <= line + |CodeOf(items)|
  {
    if items != [] {
      TargetsKeys(items[1..], line);
      TargetsKeys(items[1..], line + 1);
    }
  }

  // ----- symbolic programs and their meaning -----

  /** Code together with the line of each label. */
  datatype Symbolic<L> = Symbolic(code: seq<SymInsn<L>>, targets: map<L, nat>)

  function Assemble<L>(items: seq<Item<L>>): Symbolic<L> {
    Symbolic(CodeOf(items), TargetsFrom(items, 0))
  }

  ghost predicate JumpsTo<L>(s: Symbolic<L>, line: nat, slot: Slot, l: L) {
    line < |s.code| && LabelAt(s.code[line], slot) == To(l)
  }

  /** Every label reference is to a marked line further down, inside the code. */
  ghost predicate Forward<L(!new)>(s: Symbolic<L>) {
    forall line: nat, slot, l :: JumpsTo(s, line, slot, l) ==>
      l in s.targets && line < s.targets[l] < |s.code|
  }

  function Limit(slot: Slot): nat {
    if slot == OnJump then 0xffff_ffff else 0xff
  }

  /** Every label reference fits the field that will hold its offset. */
  ghost predicate Fits<L(!new)>(s: Symbolic<L>) {
    forall line: nat, slot, l :: JumpsTo(s, line, slot, l) && l in s.targets ==>
      s.targets[l] - line - 1 <= Limit(slot)
  }

  function OpOf<L>(i: SymInsn<L>): bv16 {
    if i.Goto? then JMP | JA else i.op
  }

  function KOf<L>(i: SymInsn<L>): u32 {
    if i.Goto? then 0xffff_ffff else i.k
  }

  function SlotOf(b: Branch): Slot {
    match b
    case WhenTrue => OnTrue
    case WhenFalse => OnFalse
    case _ => OnJump
  }

  /** The line reached from `pc` by branch `b`: a label stands for its marked line. */
  ghost function Dest<L(!new)>(s: Symbolic<L>, pc: nat, b: Branch): (d: nat)
    requires Forward(s) && pc < |s.code|
    ensures d > pc
  {
    if b == Sequential then pc + 1
    else
      match LabelAt(s.code[pc], SlotOf(b))
      case To(l) =>
        assert JumpsTo(s, pc, SlotOf(b), l);
        s.targets[l]
      case Offset(n) => if b == Direct && s.code[pc].Plain? then pc + 1 + s.code[pc].k else pc + 1 + n
  }

  /** The meaning of labelled code: the virtual machine, with labels as jump targets. */
  ghost function RunSym<L(!new)>(s: Symbolic<L>, pc: nat, m: Machine, in_: Input): Result
    requires Forward(s)
    decreases |s.code| - pc
  {
    if pc >= |s.code| then Failed(InvalidEndOfProgram, pc)
    else
      match Step(OpOf(s.code[pc]), KOf(s.code[pc]), m, in_)
      case Next(m', b) => RunSym(s, Dest(s, pc, b), m', in_)
      case Return(v) => Value(v)
      case Fail(code) => Failed(code, pc)
      case Panic => Panicked(pc)
  }

  // ----- linking -----

  ghost function Field<L(!new)>(s: Symbolic<L>, line: nat, slot: Slot): (r: int)
    requires Forward(s) && Fits(s) && line < |s.code|
    ensures 0 <= r <= Limit(slot)
  {
    match LabelAt(s.code[line], slot)
    case To(l) =>
      assert JumpsTo(s, line, slot, l);
      s.targets[l] - line - 1
    case Offset(n) => n
  }

  /** The linked program: each label replaced by the distance to its mark, and
      nothing else changed. */
  ghost function Resolve<L(!new)>(s: Symbolic<L>): (p: seq<Insn>)
    requires Forward(s) && Fits(s)
    ensures |p| == |s.code|
  {
    seq(|s.code|, line requires 0 <= line < |s.code| => ResolveInsn(s, line))
  }

  ghost function ResolveInsn<L(!new)>(s: Symbolic<L>, line: nat): Insn
    requires Forward(s) && Fits(s) && line < |s.code|
  {
    match s.code[line]
    case Goto(_) => Insn(JMP | JA, 0, 0, Field(s, line, OnJump))
    case Plain(op, k, _, _) => Insn(op, Field(s, line, OnTrue), Field(s, line, OnFalse), k)
  }

  /** One step of the linked program goes where the labelled one goes. */
  lemma StepAgrees<L(!new)>(s: Symbolic<L>, pc: nat, m: Machine, in_: Input)
    requires Forward(s) && Fits(s) && pc < |s.code|
    ensures Step(OpOf(s.code[pc]), KOf(s.code[pc]), m, in_) == Step(Resolve(s)[pc].op, Resolve(s)[pc].k, m, in_)
    ensures var o := Step(OpOf(s.code[pc]), KOf(s.code[pc]), m, in_);
            o.Next? ==> Dest(s, pc, o.branch) == pc + 1 + Skip(Resolve(s)[pc], o.branch)
  {
    assert Resolve(s)[pc] == ResolveInsn(s, pc);
  }

  /** Linking preserves meaning: from every line, machine and input, the linked
      program computes exactly what the labelled one does. */
  lemma {:induction false} LinkingPreservesMeaning<L(!new)>(s: Symbolic<L>, pc: nat, m: Machine, in_: Input)
    requires Forward(s) && Fits(s)
    ensures Run(Resolve(s), pc, m, in_) == RunSym(s, pc, m, in_)
    decreases |s.code| - pc
  {
    hide Step;
    if pc < |s.code| {
      StepAgrees(s, pc, m, in_);
      var o := Step(OpOf(s.code[pc]), KOf(s.code[pc]), m, in_);
      if o.Next? {
        LinkingPreservesMeaning(s, Dest(s, pc, o.branch), o.m, in_);
      }
    }
  }

  // ----- code at a position -----

  /** The listing `items` is what `s` holds from line `pc` on: its code, and its marks. */
  ghost predicate CodeAt<L>(s: Symbolic<L>, pc: nat, items: seq<Item<L>>)
    decreases |items|
  {
    items == [] ||
    match items[0]
    case Mark(l) => l in s.targets && s.targets[l] == pc && CodeAt(s, pc, items[1..])
    case Code(i) => pc < |s.code| && s.code[pc] == i && CodeAt(s, pc + 1, items[1..])
  }

  lemma {:induction false} CodeAtSplit<L>(s: Symbolic<L>, pc: nat, a: seq<Item<L>>, b: seq<Item<L>>)
    ensures CodeAt(s, pc, a + b) <==> CodeAt(s, pc, a) && CodeAt(s, pc + |CodeOf(a)|, b)
    decreases |a|
  {
    if a == [] {
      assert a + b == b;
    } else {
      assert (a + b)[1..] == a[1..] + b;
      CodeAtSplit(s, if a[0].Mark? then pc else pc + 1, a[1..], b);
    }
  }

  lemma {:induction false} AssembledFrom<L>(done: seq<Item<L>>, items: seq<Item<L>>)
    requires MarkedOnce(done + items)
    ensures CodeAt(Assemble(done + items), |CodeOf(done)|, items)
    decreases |items|
  {
    if items != [] {
      var done' := done + [items[0]];
      assert done' + items[1..] == done + items;
      AssembledFrom(done', items[1..]);
      CodeOfAppend(done, [items[0]]);
      CodeOfAppend(done, items);
      CodeOfAppend(done', items[1..]);
      TargetsAppend(done, items, 0);
      MarkedAppend(done, items);
      if items[0].Mark? {
        assert CodeOf([items[0]]) == [];
      } else {
        assert CodeOf([items[0]]) == [items[0].insn];
      }
    }
  }

  /** A listing without repeated marks assembles to a program that holds it at line 0. */
  lemma AssembledListing<L>(items: seq<Item<L>>)
    requires MarkedOnce(items)
    ensures CodeAt(Assemble(items), 0, items)
  {
    assert [] + items == items;
    AssembledFrom([], items);
  }

  // ----- the builder -----

  datatype Source = Source(line: nat, slot: Slot)

  /** `target` is -1 until the label is marked. */
  datatype LabelInfo = LabelInfo(sources: seq<Source>, target: int)

  ghost function Uses<L>(i: SymInsn<L>, l: L, line: nat): seq<Source> {
    match i
    case Goto(l') => if l' == l then [Source(line, OnJump)] else []
    case Plain(_, _, jt, jf) =>
      (if jt == To(l) then [Source(line, OnTrue)] else []) + (if jf == To(l) then [Source(line, OnFalse)] else [])
  }

  /** All references to `l`, in program order. */
  ghost function SourcesFrom<L>(code: seq<SymInsn<L>>, l: L): seq<Source> {
    if code == [] then []
    else SourcesFrom(code[..|code| - 1], l) + Uses(code[|code| - 1], l, |code| - 1)
  }

  lemma {:induction false} SourcesAreUses<L>(code: seq<SymInsn<L>>, l: L, s: Source)
    ensures s in SourcesFrom(code, l) <==> s.line < |code| && LabelAt(code[s.line], s.slot) == To(l)
  {
    if code != [] {
      SourcesAreUses(code[..|code| - 1], l, s);
    }
  }

  lemma {:induction false} SourcesDistinct<L>(code: seq<SymInsn<L>>, l: L)
    ensures forall i, j :: 0 <= i < j < |SourcesFrom(code, l)| ==> SourcesFrom(code, l)[i] != SourcesFrom(code, l)[j]
  {
    if code != [] {
      var init := code[..|code| - 1];
      SourcesDistinct(init, l);
      forall s | s in SourcesFrom(init, l) ensures s.line < |init| {
        SourcesAreUses(init, l, s);
      }
    }
  }

  lemma {:induction false} UsedIsJumpedTo<L>(items: seq<Item<L>>, l: L)
    ensures l in Used(items) <==> SourcesFrom(CodeOf(items), l) != []
  {
    if items != [] {
      var init := items[..|items| - 1];
      var last := items[|items| - 1..];
      assert items == init + last;
      UsedIsJumpedTo(init, l);
      UsedAppend(init, last);
      CodeOfAppend(init, last);
      if last[0].Code? {
        assert CodeOf(last) == [last[0].insn];
        assert CodeOf(items)[..|CodeOf(items)| - 1] == CodeOf(init);
      } else {
        assert CodeOf(items) == CodeOf(init);
      }
    }
  }

  function Placeholder(t: Target): u8 {
    if t.To? then 0xff else t.n
  }

  function PlaceholderInsn<L>(i: SymInsn<L>): Insn {
    match i
    case Goto(_) => Insn(JMP | JA, 0, 0, 0xffff_ffff)
    case Plain(op, k, jt, jf) => Insn(op, Placeholder(jt), Placeholder(jf), k)
  }

  /** A listing of already linked code. */
  function Literal<L>(p: seq<Insn>): (items: seq<Item<L>>)
    ensures |items| == |p|
  {
    seq(|p|, i requires 0 <= i < |p| => Jump<L>(p[i].op, p[i].k, p[i].jt, p[i].jf))
  }

  function GetSlot(i: Insn, slot: Slot): int {
    match slot
    case OnJump => i.k
    case OnTrue => i.jt
    case OnFalse => i.jf
  }

  function SetSlot(i: Insn, slot: Slot, n: int): Insn
    requires 0 <= n <= Limit(slot)
  {
    match slot
    case OnJump => i.(k := n)
    case OnTrue => i.(jt := n)
    case OnFalse => i.(jf := n)
  }
}

/** The code generator: a balanced search tree over system call numbers, written
    out in preorder as a listing with symbolic labels. */
module SeccompCode {
  import opened Words
  import opened Bpf
  import opened Assembler
  import opened SeccompPolicy

  datatype Label =
    | Default
    | Index(sysno: u64)
    | CheckArgs(sysno: u64)
    | VsyscallViolation(ruleSet: nat, sysno: u64)
    | RuleViolation(ruleSet: nat, sysno: u64, rule: nat)

  type Listing = seq<Item<Label>>

  // ----- the search tree -----

  /** `Nil` is the source's nil pointer. */
  datatype Tree = Nil | Node(value: u64, left: Tree, right: Tree)

  function CreateBST(syscalls: seq<u64>): Tree
    requires |syscalls| > 0
  {
    var i := |syscalls| / 2;
    Node(syscalls[i],
         if i > 0 then CreateBST(syscalls[..i]) else Nil,
         if i + 1 < |syscalls| then CreateBST(syscalls[i + 1..]) else Nil)
  }

  /** The label of a node; a nil node stands for the default action. */
  function NodeLabel(t: Tree): Label {
    if t.Nil? then Default else Index(t.value)
  }

  // ----- code for one system call -----

  function Low(v: u64): u32 { v % TWO32 }
  function High(v: u64): u32 { v / TWO32 }

  const LOAD: bv16 := LD | ABS | W
  const IFEQ: bv16 := JMP | JEQ | K
  const IFGT: bv16 := JMP | JGT | K
  const IFSET: bv16 := JMP | JSET | K
  const RETK: bv16 := RET | K

  const NR_OFFSET: u32 := 0
  const ARCH_OFFSET: u32 := 4
  const IP_HIGH_OFFSET: u32 := 12

  function ArgLow(i: nat): u32
    requires i < 6
  {
    16 + i * 8
  }

  function ArgHigh(i: nat): u32
    requires i < 6
  {
    ArgLow(i) + 4
  }

  function ArgCode(arg: Arg, i: nat, violation: Label): Listing
    requires i < 6
  {
    match arg
    case AllowValue(v) =>
      [Stmt(LOAD, ArgLow(i)), JumpFalse(IFEQ, Low(v), 0, violation),
       Stmt(LOAD, ArgHigh(i)), JumpFalse(IFEQ, High(v), 0, violation)]
    case _ => []
  }

  function ArgsCode(r: Rule, i: nat, violation: Label): Listing
    requires i <= 6
    decreases 6 - i
  {
    if i == 6 then [] else ArgCode(r[i], i, violation) + ArgsCode(r, i + 1, violation)
  }

  /** The rule compares some argument, so its end needs a label. */
  predicate Labelled(r: Rule) {
    exists i :: 0 <= i < 6 && r[i].AllowValue?
  }

  function RuleCode(r: Rule, action: u32, set_: nat, sysno: u64, idx: nat): Listing {
    var violation := RuleViolation(set_, sysno, idx);
    ArgsCode(r, 0, violation) + [Stmt(RETK, action)] + (if Labelled(r) then [Mark(violation)] else [])
  }

  function RulesCode(rules: seq<Rule>, action: u32, set_: nat, sysno: u64, idx: nat): Listing
    requires idx <= |rules|
    decreases |rules| - idx
  {
    if idx == |rules| then []
    else RuleCode(rules[idx], action, set_, sysno, idx) + RulesCode(rules, action, set_, sysno, idx + 1)
  }

  /** A blanket action, or the rule checks one after the other. */
  function MatchersCode(rs: RuleSet, set_: nat, sysno: u64): Listing
    requires sysno in rs.rules
  {
    if rs.rules[sysno] == [] then [Stmt(RETK, rs.action)]
    else RulesCode(rs.rules[sysno], rs.action, set_, sysno, 0)
  }

  function SetCode(rs: RuleSet, set_: nat, sysno: u64): Listing
    requires sysno in rs.rules
  {
    var violation := VsyscallViolation(set_, sysno);
    if rs.vsyscall then
      [Stmt(LOAD, IP_HIGH_OFFSET), JumpFalse(IFSET, 0x8000_0000, 0, violation)]
      + MatchersCode(rs, set_, sysno) + [Mark(violation)]
    else MatchersCode(rs, set_, sysno)
  }

  /** All rule sets that mention `sysno`, from the `set_`-th on. */
  function SetsCode(sets: seq<RuleSet>, set_: nat, sysno: u64): Listing
    requires set_ <= |sets|
    decreases |sets| - set_
  {
    if set_ == |sets| then []
    else (if sysno in sets[set_].rules then SetCode(sets[set_], set_, sysno) else [])
         + SetsCode(sets, set_ + 1, sysno)
  }

  predicate Blanket(rs: RuleSet, sysno: u64) {
    sysno in rs.rules && rs.rules[sysno] == []
  }

  /** Some rule set gives `sysno` a blanket action; then no jump to the default is emitted. */
  predicate Emitted(sets: seq<RuleSet>, sysno: u64) {
    exists i :: 0 <= i < |sets| && Blanket(sets[i], sysno)
  }

  function BranchCode(t: Tree): Listing
    requires t.Node?
  {
    if t.left.Nil? && t.right.Nil? then [Code(Goto(Default))]
    else [Jump(IFGT, Low(t.value), 0, 1), Code(Goto(NodeLabel(t.right))), Code(Goto(NodeLabel(t.left)))]
  }

  function ArgsCheckCode(sets: seq<RuleSet>, sysno: u64): Listing {
    SetsCode(sets, 0, sysno) + (if Emitted(sets, sysno) then [] else [Code(Goto(Default))])
  }

  /** The code of one node, without the label of a non-root node. */
  function NodeCode(t: Tree, sets: seq<RuleSet>): Listing
    requires t.Node?
  {
    [JumpTrue(IFEQ, Low(t.value), CheckArgs(t.value), 0)] + BranchCode(t)
    + [Mark(CheckArgs(t.value))] + ArgsCheckCode(sets, t.value)
  }

  function IndexMark(t: Tree): Listing
    requires t.Node?
  {
    [Mark(Index(t.value))]
  }

  /** A subtree in preorder. */
  function TreeCode(t: Tree, sets: seq<RuleSet>): Listing {
    if t.Nil? then []
    else IndexMark(t) + NodeCode(t, sets) + TreeCode(t.left, sets) + TreeCode(t.right, sets)
  }

  /** The root is never the target of a jump and gets no label. */
  function RootCode(t: Tree, sets: seq<RuleSet>): Listing
    requires t.Node?
  {
    NodeCode(t, sets) + TreeCode(t.left, sets) + TreeCode(t.right, sets)
  }

  function Prologue(): Listing {
    [Stmt(LOAD, ARCH_OFFSET), Jump(IFEQ, AUDIT_ARCH_X86_64, 1, 0), Code(Goto(Default)), Stmt(LOAD, NR_OFFSET)]
  }

  function Epilogue(default: u32): Listing {
    [Mark(Default), Stmt(RETK, default)]
  }

  function ProgramCode(t: Tree, sets: seq<RuleSet>, default: u32): Listing
    requires t.Node?
  {
    Prologue() + RootCode(t, sets) + Epilogue(default)
  }
}

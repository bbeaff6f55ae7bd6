/** Classic BPF: instruction encoding, the validator `Compile` and the virtual
    machine `Exec`. Instruction words keep the source's bit layout, so the
    validator's masks and the interpreter's `switch` are two independent views
    of the same opcode; `CheckIsExact` and `ValidatedProgramsAreSafe` connect them. */
module Bpf {
  import opened Words

  const MAX_INSTRUCTIONS: nat := 4096
  const SCRATCH_REGISTERS: nat := 16

  // Instruction class, bits 0-2.
  const LD: bv16 := 0x00
  const LDX: bv16 := 0x01
  const ST: bv16 := 0x02
  const STX: bv16 := 0x03
  const ALU: bv16 := 0x04
  const JMP: bv16 := 0x05
  const RET: bv16 := 0x06
  const MISC: bv16 := 0x07
  const CLASS_MASK: bv16 := 0x07

  // Load size, bits 3-4.
  const W: bv16 := 0x00
  const H: bv16 := 0x08
  const B: bv16 := 0x10
  const SIZE_MASK: bv16 := 0x18

  // Load mode, bits 5-7.
  const IMM: bv16 := 0x00
  const ABS: bv16 := 0x20
  const IND: bv16 := 0x40
  const MEM: bv16 := 0x60
  const LEN: bv16 := 0x80
  const MSH: bv16 := 0xa0
  const MODE_MASK: bv16 := 0xe0

  // Source operand of arithmetic, jump and return instructions.
  const K: bv16 := 0x00
  const X: bv16 := 0x08
  const A: bv16 := 0x10
  const SRC_MASK: bv16 := 0x08
  const RET_SRC_MASK: bv16 := 0x18

  // Arithmetic operations, bits 4-7.
  const ADD: bv16 := 0x00
  const SUB: bv16 := 0x10
  const MUL: bv16 := 0x20
  const DIV: bv16 := 0x30
  const OR: bv16 := 0x40
  const AND: bv16 := 0x50
  const LSH: bv16 := 0x60
  const RSH: bv16 := 0x70
  const NEG: bv16 := 0x80
  const MOD: bv16 := 0x90
  const XOR: bv16 := 0xa0
  const ALU_MASK: bv16 := 0xf0

  // Jump conditions, bits 4-7.
  const JA: bv16 := 0x00
  const JEQ: bv16 := 0x10
  const JGT: bv16 := 0x20
  const JGE: bv16 := 0x30
  const JSET: bv16 := 0x40
  const JMP_MASK: bv16 := 0xf0

  // Register moves, bits 3-7.
  const TAX: bv16 := 0x00
  const TXA: bv16 := 0x80
  const MISC_MASK: bv16 := 0xf8

  // Bits that must be zero.
  const UNUSED_MASK: bv16 := 0xff00
  const STORE_UNUSED_MASK: bv16 := 0xf8
  const RET_UNUSED_MASK: bv16 := 0xe0

  datatype Insn = Insn(op: bv16, jt: u8, jf: u8, k: u32)

  datatype ErrorCode =
    | DivisionByZero
    | InvalidEndOfProgram
    | InvalidInstructionCount
    | InvalidJumpTarget
    | InvalidLoad
    | InvalidOpcode
    | InvalidRegister

  // ----- the validator -----

  datatype Verdict = Accepted(program: seq<Insn>) | Rejected(code: ErrorCode, pc: nat)

  datatype CheckResult = Pass | Reject(code: ErrorCode)

  function CheckLoad(i: Insn): CheckResult {
    var mode := i.op & MODE_MASK;
    var size := i.op & SIZE_MASK;
    if size == W then
      if mode != IMM && mode != ABS && mode != IND && mode != MEM && mode != LEN then Reject(InvalidOpcode)
      else if mode == MEM && i.k >= SCRATCH_REGISTERS then Reject(InvalidRegister)
      else Pass
    else if size == H || size == B then
      if mode != ABS && mode != IND then Reject(InvalidOpcode) else Pass
    else Reject(InvalidOpcode)
  }

  function CheckLoadX(i: Insn): CheckResult {
    var mode := i.op & MODE_MASK;
    var size := i.op & SIZE_MASK;
    if size == W then
      if mode != IMM && mode != MEM && mode != LEN then Reject(InvalidOpcode)
      else if mode == MEM && i.k >= SCRATCH_REGISTERS then Reject(InvalidRegister)
      else Pass
    else if size == B then
      if mode != MSH then Reject(InvalidOpcode) else Pass
    else Reject(InvalidOpcode)
  }

  function CheckAlu(i: Insn): CheckResult {
    var op := i.op & ALU_MASK;
    if op == ADD || op == SUB || op == MUL || op == OR || op == AND || op == LSH || op == RSH || op == XOR then Pass
    else if op == DIV || op == MOD then
      if i.op & SRC_MASK == K && i.k == 0 then Reject(DivisionByZero) else Pass
    else if op == NEG then
      if i.op & SRC_MASK != 0 then Reject(InvalidOpcode) else Pass
    else Reject(InvalidOpcode)
  }

  function CheckJump(i: Insn, pc: nat, n: nat): CheckResult {
    var op := i.op & JMP_MASK;
    if op == JA then
      if i.op & SRC_MASK != 0 then Reject(InvalidOpcode)
      else if pc + i.k + 1 >= n then Reject(InvalidJumpTarget)
      else Pass
    else if op == JEQ || op == JGT || op == JGE || op == JSET then
      if pc + i.jt + 1 >= n then Reject(InvalidJumpTarget)
      else if pc + i.jf + 1 >= n then Reject(InvalidJumpTarget)
      else Pass
    else Reject(InvalidOpcode)
  }

  /** What `Compile` demands of the instruction at `pc` of a program of `n` instructions. */
  function Check(i: Insn, pc: nat, n: nat): CheckResult {
    if i.op & UNUSED_MASK != 0 then Reject(InvalidOpcode) else
    var class_ := i.op & CLASS_MASK;
    if class_ == LD then CheckLoad(i)
    else if class_ == LDX then CheckLoadX(i)
    else if class_ == ST || class_ == STX then
      if i.op & STORE_UNUSED_MASK != 0 then Reject(InvalidOpcode)
      else if i.k >= SCRATCH_REGISTERS then Reject(InvalidRegister)
      else Pass
    else if class_ == ALU then CheckAlu(i)
    else if class_ == JMP then CheckJump(i, pc, n)
    else if class_ == RET then
      if i.op & RET_UNUSED_MASK != 0 then Reject(InvalidOpcode)
      else if i.op & RET_SRC_MASK != K && i.op & RET_SRC_MASK != A then Reject(InvalidOpcode)
      else Pass
    else
      if i.op & MISC_MASK != TAX && i.op & MISC_MASK != TXA then Reject(InvalidOpcode) else Pass
  }

  predicate IsReturn(op: bv16) {
    op == RET | K || op == RET | A
  }

  ghost predicate ValidProgram(p: seq<Insn>) {
    && 0 < |p| <= MAX_INSTRUCTIONS
    && IsReturn(p[|p| - 1].op)
    && forall pc :: 0 <= pc < |p| ==> Check(p[pc], pc, |p|) == Pass
  }

  /** Accepts exactly the valid programs, unchanged; otherwise reports the first
      fault in the order: instruction count, final instruction, lowest bad pc. */
  method Compile(insns: seq<Insn>) returns (r: Verdict)
    ensures r.Accepted? <==> ValidProgram(insns)
    ensures r.Accepted? ==> r.program == insns
    ensures r == Rejected(InvalidInstructionCount, |insns|) <==> !(0 < |insns| <= MAX_INSTRUCTIONS)
    ensures 0 < |insns| <= MAX_INSTRUCTIONS && !IsReturn(insns[|insns| - 1].op) ==>
              r == Rejected(InvalidEndOfProgram, |insns| - 1)
    ensures r.Rejected? && 0 < |insns| <= MAX_INSTRUCTIONS && IsReturn(insns[|insns| - 1].op) ==>
              && r.pc < |insns|
              && Check(insns[r.pc], r.pc, |insns|) == Reject(r.code)
              && forall pc :: 0 <= pc < r.pc ==> Check(insns[pc], pc, |insns|) == Pass
  {
    if |insns| == 0 || |insns| > MAX_INSTRUCTIONS {
      return Rejected(InvalidInstructionCount, |insns|);
    }
    if !IsReturn(insns[|insns| - 1].op) {
      return Rejected(InvalidEndOfProgram, |insns| - 1);
    }
    for pc := 0 to |insns|
      invariant forall q :: 0 <= q < pc ==> Check(insns[q], q, |insns|) == Pass
    {
      var c := Check(insns[pc], pc, |insns|);
      if c.Reject? {
        return Rejected(c.code, pc);
      }
    }
    r := Accepted(insns);
  }

  // ----- the input -----

  datatype Input = InputBytes(data: seq<u8>, bigEndian: bool)
  datatype Load = Loaded(value: u32) | OutOfBounds

  function Word16(b0: int, b1: int): int { b0 + 0x100 * b1 }

  function Word32(b0: int, b1: int, b2: int, b3: int): int { Word16(b0, b1) + 0x1_0000 * Word16(b2, b3) }

  function Load32(i: Input, off: u32): Load {
    if off + 4 > |i.data| then OutOfBounds
    else if i.bigEndian then Loaded(Word32(i.data[off + 3], i.data[off + 2], i.data[off + 1], i.data[off]))
    else Loaded(Word32(i.data[off], i.data[off + 1], i.data[off + 2], i.data[off + 3]))
  }

  function Load16(i: Input, off: u32): Load {
    if off + 2 > |i.data| then OutOfBounds
    else if i.bigEndian then Loaded(Word16(i.data[off + 1], i.data[off]))
    else Loaded(Word16(i.data[off], i.data[off + 1]))
  }

  function Load8(i: Input, off: u32): Load {
    if off + 1 > |i.data| then OutOfBounds else Loaded(i.data[off])
  }

  function Length(i: Input): u32 {
    |i.data| % TWO32
  }

  // ----- the virtual machine -----

  type Memory = m: seq<u32> | |m| == SCRATCH_REGISTERS witness seq(SCRATCH_REGISTERS, _ => 0)

  datatype Machine = Machine(a: u32, x: u32, mem: Memory)

  const ZERO: Machine := Machine(0, 0, [0, 0, 0, 0, 0, 0, 0, 0, 0, 0, 0, 0, 0, 0, 0, 0])

  /** Where control goes after an instruction: to the next one, or past it by
      its jt, jf or k field. */
  datatype Branch = Sequential | WhenTrue | WhenFalse | Direct

  /** One iteration of the interpreter's loop. `Panic` is a Go runtime panic: an
      index outside M, or an integer division by a zero constant. */
  datatype Outcome =
    | Next(m: Machine, branch: Branch)
    | Return(value: u32)
    | Fail(code: ErrorCode)
    | Panic

  function LoadA(m: Machine, l: Load): Outcome {
    match l
    case Loaded(v) => Next(m.(a := v), Sequential)
    case OutOfBounds => Fail(InvalidLoad)
  }

  function SetA(m: Machine, v: int): Outcome {
    Next(m.(a := v % TWO32), Sequential)
  }

  function If(m: Machine, cond: bool): Outcome {
    Next(m, if cond then WhenTrue else WhenFalse)
  }

  function StepLoad(op: bv16, k: u32, m: Machine, in_: Input): Outcome {
    if op == LD | IMM | W then SetA(m, k)
    else if op == LD | ABS | W then LoadA(m, Load32(in_, k))
    else if op == LD | ABS | H then LoadA(m, Load16(in_, k))
    else if op == LD | ABS | B then LoadA(m, Load8(in_, k))
    else if op == LD | IND | W then LoadA(m, Load32(in_, (m.x + k) % TWO32))
    else if op == LD | IND | H then LoadA(m, Load16(in_, (m.x + k) % TWO32))
    else if op == LD | IND | B then LoadA(m, Load8(in_, (m.x + k) % TWO32))
    else if op == LD | MEM | W then
      if k < SCRATCH_REGISTERS then SetA(m, m.mem[k]) else Panic
    else if op == LD | LEN | W then SetA(m, Length(in_))
    else Fail(InvalidOpcode)
  }

  function StepLoadX(op: bv16, k: u32, m: Machine, in_: Input): Outcome {
    if op == LDX | IMM | W then Next(m.(x := k), Sequential)
    else if op == LDX | MEM | W then
      if k < SCRATCH_REGISTERS then Next(m.(x := m.mem[k]), Sequential) else Panic
    else if op == LDX | LEN | W then Next(m.(x := Length(in_)), Sequential)
    else if op == LDX | MSH | B then
      match Load8(in_, k) {
        case Loaded(v) => Next(m.(x := 4 * (v % 16)), Sequential)
        case OutOfBounds => Fail(InvalidLoad)
      }
    else Fail(InvalidOpcode)
  }

  function StepStore(op: bv16, k: u32, m: Machine): Outcome {
    if op == ST then
      if k < SCRATCH_REGISTERS then Next(m.(mem := m.mem[k := m.a]), Sequential) else Panic
    else if op == STX then
      if k < SCRATCH_REGISTERS then Next(m.(mem := m.mem[k := m.x]), Sequential) else Panic
    else Fail(InvalidOpcode)
  }

  function StepAlu(op: bv16, k: u32, m: Machine): Outcome {
    if op == ALU | ADD | K then SetA(m, m.a + k)
    else if op == ALU | ADD | X then SetA(m, m.a + m.x)
    else if op == ALU | SUB | K then SetA(m, m.a - k)
    else if op == ALU | SUB | X then SetA(m, m.a - m.x)
    else if op == ALU | MUL | K then SetA(m, m.a * k)
    else if op == ALU | MUL | X then SetA(m, m.a * m.x)
    else if op == ALU | DIV | K then if k == 0 then Panic else SetA(m, m.a / k)
    else if op == ALU | DIV | X then if m.x == 0 then Fail(DivisionByZero) else SetA(m, m.a / m.x)
    else if op == ALU | OR | K then SetA(m, Bitwise32(Or, m.a, k))
    else if op == ALU | OR | X then SetA(m, Bitwise32(Or, m.a, m.x))
    else if op == ALU | AND | K then SetA(m, Bitwise32(And, m.a, k))
    else if op == ALU | AND | X then SetA(m, Bitwise32(And, m.a, m.x))
    else if op == ALU | LSH | K then SetA(m, ShiftLeft(m.a, k))
    else if op == ALU | LSH | X then SetA(m, ShiftLeft(m.a, m.x))
    else if op == ALU | RSH | K then SetA(m, ShiftRight(m.a, k))
    else if op == ALU | RSH | X then SetA(m, ShiftRight(m.a, m.x))
    else if op == ALU | NEG then SetA(m, 0 - m.a)
    else if op == ALU | MOD | K then if k == 0 then Panic else SetA(m, m.a % k)
    else if op == ALU | MOD | X then if m.x == 0 then Fail(DivisionByZero) else SetA(m, m.a % m.x)
    else if op == ALU | XOR | K then SetA(m, Bitwise32(Xor, m.a, k))
    else if op == ALU | XOR | X then SetA(m, Bitwise32(Xor, m.a, m.x))
    else Fail(InvalidOpcode)
  }

  function StepJump(op: bv16, k: u32, m: Machine): Outcome {
    if op == JMP | JA then Next(m, Direct)
    else if op == JMP | JEQ | K then If(m, m.a == k)
    else if op == JMP | JEQ | X then If(m, m.a == m.x)
    else if op == JMP | JGT | K then If(m, m.a > k)
    else if op == JMP | JGT | X then If(m, m.a > m.x)
    else if op == JMP | JGE | K then If(m, m.a >= k)
    else if op == JMP | JGE | X then If(m, m.a >= m.x)
    else if op == JMP | JSET | K then If(m, Bitwise32(And, m.a, k) != 0)
    else if op == JMP | JSET | X then If(m, Bitwise32(And, m.a, m.x) != 0)
    else Fail(InvalidOpcode)
  }

  /** The interpreter's `switch`. Its cases are grouped by class only to keep
      them readable: each case still tests the whole opcode. */
  function Step(op: bv16, k: u32, m: Machine, in_: Input): Outcome {
    var class_ := op & CLASS_MASK;
    if class_ == LD then StepLoad(op, k, m, in_)
    else if class_ == LDX then StepLoadX(op, k, m, in_)
    else if class_ == ST || class_ == STX then StepStore(op, k, m)
    else if class_ == ALU then StepAlu(op, k, m)
    else if class_ == JMP then StepJump(op, k, m)
    else if op == RET | K then Return(k)
    else if op == RET | A then Return(m.a)
    else if op == MISC | TAX then Next(m.(a := m.x), Sequential)
    else if op == MISC | TXA then Next(m.(x := m.a), Sequential)
    else Fail(InvalidOpcode)
  }

  function Skip(i: Insn, b: Branch): nat {
    match b
    case Sequential => 0
    case WhenTrue => i.jt
    case WhenFalse => i.jf
    case Direct => i.k
  }

  datatype Result = Value(v: u32) | Failed(code: ErrorCode, pc: nat) | Panicked(pc: nat)

  /** The result of running `p` from `pc` with machine `m`. */
  function Run(p: seq<Insn>, pc: nat, m: Machine, in_: Input): Result
    decreases |p| - pc
  {
    if pc >= |p| then Failed(InvalidEndOfProgram, pc)
    else
      match Step(p[pc].op, p[pc].k, m, in_)
      case Next(m', b) => Run(p, pc + 1 + Skip(p[pc], b), m', in_)
      case Return(v) => Value(v)
      case Fail(code) => Failed(code, pc)
      case Panic => Panicked(pc)
  }

  /** The instructions executed by that run, in order. */
  function Trace(p: seq<Insn>, pc: nat, m: Machine, in_: Input): seq<nat>
    decreases |p| - pc
  {
    if pc >= |p| then []
    else
      match Step(p[pc].op, p[pc].k, m, in_)
      case Next(m', b) => [pc] + Trace(p, pc + 1 + Skip(p[pc], b), m', in_)
      case _ => [pc]
  }

  method Exec(p: seq<Insn>, in_: Input) returns (r: Result)
    ensures r == Run(p, 0, ZERO, in_)
  {
    var m := ZERO;
    var pc: nat := 0;
    while pc < |p|
      invariant Run(p, pc, m, in_) == Run(p, 0, ZERO, in_)
    {
      match Step(p[pc].op, p[pc].k, m, in_) {
        case Next(m', b) =>
          m := m';
          pc := pc + Skip(p[pc], b);
        case Return(v) =>
          return Value(v);
        case Fail(code) =>
          return Failed(code, pc);
        case Panic =>
          return Panicked(pc);
      }
      pc := pc + 1;
    }
    r := Failed(InvalidEndOfProgram, pc);
  }

  // ----- what validation buys -----

  /** The step neither panics nor meets an unknown opcode. */
  predicate Harmless(o: Outcome) {
    o != Panic && o != Fail(InvalidOpcode)
  }

  predicate JumpsInside(i: Insn, pc: nat, n: nat) {
    i.op & CLASS_MASK == JMP ==>
      if i.op & JMP_MASK == JA then pc + i.k + 1 < n else pc + i.jt + 1 < n && pc + i.jf + 1 < n
  }

  /** The validator's bit masks and the interpreter's opcode list agree exactly:
      an instruction passes iff no machine and input make it panic or hit the
      `default` case, and its jump fields stay inside the program. */
  lemma CheckIsExact(i: Insn, pc: nat, n: nat)
    ensures Check(i, pc, n) == Pass <==>
              (forall m, in_ :: Harmless(Step(i.op, i.k, m, in_))) && JumpsInside(i, pc, n)
  {
    hide Load32, Load16, Load8, Bitwise32, ShiftLeft, ShiftRight, Length;
    var in_ := InputBytes([], false);
    assert Harmless(Step(i.op, i.k, ZERO, in_)) && JumpsInside(i, pc, n) ==> Check(i, pc, n) == Pass;
  }

  predicate IsInputLoad(op: bv16) {
    || op in {LD | ABS | W, LD | ABS | H, LD | ABS | B}
    || op in {LD | IND | W, LD | IND | H, LD | IND | B}
    || op == LDX | MSH | B
  }

  predicate DividesByX(op: bv16) {
    op == ALU | DIV | X || op == ALU | MOD | X
  }

  lemma NextStaysInside(i: Insn, pc: nat, n: nat, m: Machine, in_: Input)
    requires Check(i, pc, n) == Pass && pc < n && (pc == n - 1 ==> IsReturn(i.op))
    ensures Harmless(Step(i.op, i.k, m, in_))
    ensures Step(i.op, i.k, m, in_).Next? ==> pc + 1 + Skip(i, Step(i.op, i.k, m, in_).branch) < n
    ensures Step(i.op, i.k, m, in_).Fail? ==>
              || (Step(i.op, i.k, m, in_).code == InvalidLoad && IsInputLoad(i.op))
              || (Step(i.op, i.k, m, in_).code == DivisionByZero && DividesByX(i.op) && m.x == 0)
  {
    CheckIsExact(i, pc, n);
  }

  /** A validated program, on every input and from every reachable state, either
      returns a value or stops at an input load outside the data or at a division
      by a zero X: it never runs off its end, panics or meets a bad opcode. */
  lemma {:induction false} ValidatedProgramsAreSafe(p: seq<Insn>, pc: nat, m: Machine, in_: Input)
    requires ValidProgram(p) && pc < |p|
    ensures Run(p, pc, m, in_).Value? || Run(p, pc, m, in_).Failed?
    ensures Run(p, pc, m, in_).Failed? ==>
              && Run(p, pc, m, in_).pc < |p|
              && var f := Run(p, pc, m, in_);
                 || (f.code == InvalidLoad && IsInputLoad(p[f.pc].op))
                 || (f.code == DivisionByZero && DividesByX(p[f.pc].op))
    decreases |p| - pc
  {
    NextStaysInside(p[pc], pc, |p|, m, in_);
    var o := Step(p[pc].op, p[pc].k, m, in_);
    if o.Next? {
      ValidatedProgramsAreSafe(p, pc + 1 + Skip(p[pc], o.branch), o.m, in_);
    }
  }

  /** Every run, of any program, executes each instruction at most once and in
      ascending order, so it takes at most as many steps as the program is long. */
  lemma {:induction false} RunsOnlyForward(p: seq<Insn>, pc: nat, m: Machine, in_: Input)
    ensures Ascending(Trace(p, pc, m, in_))
    ensures forall q :: q in Trace(p, pc, m, in_) ==> pc <= q < |p|
    ensures pc <= |p| ==> |Trace(p, pc, m, in_)| <= |p| - pc
    decreases |p| - pc
  {
    if pc < |p| {
      var o := Step(p[pc].op, p[pc].k, m, in_);
      if o.Next? {
        var next := pc + 1 + Skip(p[pc], o.branch);
        RunsOnlyForward(p, next, o.m, in_);
        var rest := Trace(p, next, o.m, in_);
        assert forall j :: 1 <= j < |rest| + 1 ==> ([pc] + rest)[j] in rest;
      }
    }
  }
}

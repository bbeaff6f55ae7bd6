/** Laws between the instructions of the virtual machine, for all operands: each instruction
    is said by others, never by its own case of the interpreter. */
module BpfLaws {
  import opened Words
  import opened Bpf

  // ----- vocabulary -----

  /** The instruction goes on to the next one with `v` in A, all else as it was. */
  ghost predicate Leaves(o: Outcome, m: Machine, v: u32) {
    o == Next(m.(a := v), Sequential)
  }

  ghost predicate Taken(op: bv16, k: u32, m: Machine, in_: Input) {
    Step(op, k, m, in_) == Next(m, WhenTrue)
  }

  ghost predicate NotTaken(op: bv16, k: u32, m: Machine, in_: Input) {
    Step(op, k, m, in_) == Next(m, WhenFalse)
  }

  /** A after an instruction that goes on. */
  ghost function AfterA(op: bv16, k: u32, m: Machine, in_: Input): u32 {
    var o := Step(op, k, m, in_);
    if o.Next? then o.m.a else 0
  }

  const ARITHMETIC: set<bv16> := {ADD, SUB, MUL, OR, AND, LSH, RSH, XOR}
  const CONDITIONS: set<bv16> := {JEQ, JGT, JGE, JSET}

  /** The results of arithmetic as numbers. */
  lemma Sums(k: u32, m: Machine, in_: Input)
    ensures Leaves(Step(ALU | ADD | K, k, m, in_), m, (m.a + k) % TWO32) && AfterA(ALU | ADD | K, k, m, in_) == (m.a + k) % TWO32
    ensures Leaves(Step(ALU | SUB | K, k, m, in_), m, (m.a - k) % TWO32) && AfterA(ALU | SUB | K, k, m, in_) == (m.a - k) % TWO32
  {
  }

  lemma Products(k: u32, m: Machine, in_: Input)
    ensures Leaves(Step(ALU | MUL | K, k, m, in_), m, m.a * k % TWO32) && AfterA(ALU | MUL | K, k, m, in_) == m.a * k % TWO32
  {
  }

  lemma Quotients(k: u32, m: Machine, in_: Input)
    requires k != 0
    ensures 0 <= m.a / k < TWO32 && 0 <= m.a % k < TWO32
    ensures Leaves(Step(ALU | DIV | K, k, m, in_), m, m.a / k) && AfterA(ALU | DIV | K, k, m, in_) == m.a / k
    ensures Leaves(Step(ALU | MOD | K, k, m, in_), m, m.a % k) && AfterA(ALU | MOD | K, k, m, in_) == m.a % k
  {
    DivShrinks(m.a, k);
  }

  // ----- where operands come from and results go -----

  /** An operand from X is the same as a constant of that value. Only a division by zero is
      told apart: with X it is an error, a constant cannot be zero. */
  lemma SourceX(op: bv16, k: u32, m: Machine, in_: Input)
    ensures op in ARITHMETIC ==> Step(ALU | op | X, k, m, in_) == Step(ALU | op | K, m.x, m, in_)
    ensures op in CONDITIONS ==> Step(JMP | op | X, k, m, in_) == Step(JMP | op | K, m.x, m, in_)
    ensures op in {DIV, MOD} && m.x != 0 ==> Step(ALU | op | X, k, m, in_) == Step(ALU | op | K, m.x, m, in_)
    ensures op in {DIV, MOD} && m.x == 0 ==> Step(ALU | op | X, k, m, in_) == Fail(DivisionByZero)
  {
    hide Bitwise32, ShiftLeft, ShiftRight;
  }

  /** Arithmetic and loads change A only, loads of X change X only, stores change one scratch
      register only, and jumps nothing. */
  lemma OnlyTarget(op: bv16, k: u32, m: Machine, in_: Input)
    requires Step(op, k, m, in_).Next?
    ensures var m' := Step(op, k, m, in_).m; var c := op & CLASS_MASK;
            && (c == LD || c == ALU ==> m' == m.(a := m'.a))
            && (c == LDX ==> m' == m.(x := m'.x))
            && (c == ST || c == STX ==> m' == m.(mem := m'.mem) && forall j :: 0 <= j < SCRATCH_REGISTERS && j != k ==> m'.mem[j] == m.mem[j])
            && (c == JMP ==> m' == m)
    ensures op & CLASS_MASK != JMP ==> Step(op, k, m, in_).branch == Sequential
  {
    hide Bitwise32, ShiftLeft, ShiftRight, Load32, Load16, Load8, Length;
  }

  /** Returning A after loading a constant is returning the constant. */
  lemma ReturnsA(k: u32, j: u32, m: Machine, in_: Input)
    ensures var o := Step(LD | IMM | W, k, m, in_); o.Next? && Step(RET | A, j, o.m, in_) == Step(RET | K, k, m, in_)
    ensures Step(RET | K, k, m, in_) == Return(k)
  {
  }

  // ----- comparisons -----

  /** Every conditional jump goes one way or the other. JGE is JGT or JEQ, JGT is the other
      way round when the operands are, and JSET is taken when AND leaves something. */
  lemma Comparisons(k: u32, m: Machine, in_: Input)
    ensures forall op :: op in CONDITIONS ==> (Taken(JMP | op | K, k, m, in_) <==> !NotTaken(JMP | op | K, k, m, in_))
    ensures Taken(JMP | JGE | K, k, m, in_) <==> Taken(JMP | JGT | K, k, m, in_) || Taken(JMP | JEQ | K, k, m, in_)
    ensures Taken(JMP | JGT | K, k, m, in_) <==> !Taken(JMP | JGE | K, m.a, m.(a := k), in_)
    ensures Taken(JMP | JEQ | K, k, m, in_) <==> k == m.a
    ensures Taken(JMP | JSET | K, k, m, in_) <==> AfterA(ALU | AND | K, k, m, in_) != 0
  {
    hide Bitwise32;
  }

  /** A jump on "greater" is taken exactly when subtracting wraps around the other way. */
  lemma GreaterBySub(k: u32, m: Machine, in_: Input)
    ensures Taken(JMP | JGT | K, k, m, in_) <==> 0 < AfterA(ALU | SUB | K, k, m, in_) <= m.a && m.a - AfterA(ALU | SUB | K, k, m, in_) == k
  {
  }

  // ----- arithmetic -----

  /** SUB undoes ADD and ADD undoes SUB. */
  lemma AddSub(k: u32, m: Machine, in_: Input)
    ensures Leaves(Step(ALU | SUB | K, k, m.(a := AfterA(ALU | ADD | K, k, m, in_)), in_), m, m.a)
    ensures Leaves(Step(ALU | ADD | K, k, m.(a := AfterA(ALU | SUB | K, k, m, in_)), in_), m, m.a)
  {
    hide Step, AfterA, Leaves;
    Sums(k, m, in_);
    var sum, less := m.(a := AfterA(ALU | ADD | K, k, m, in_)), m.(a := AfterA(ALU | SUB | K, k, m, in_));
    Sums(k, sum, in_);
    Sums(k, less, in_);
    Undone(m.a, k);
    SameLeaves(sum, m);
    SameLeaves(less, m);
  }

  lemma Undone(a: u32, k: u32)
    ensures ((a + k) % TWO32 - k) % TWO32 == a && ((a - k) % TWO32 + k) % TWO32 == a
  {
    assert (a + k) % TWO32 == if a + k < TWO32 then a + k else a + k - TWO32;
    assert (a - k) % TWO32 == if a >= k then a - k else a - k + TWO32;
  }

  /** Zero adds nothing, the operands of ADD may be exchanged, and NEG is SUB from zero. */
  lemma AddNeg(k: u32, m: Machine, in_: Input)
    ensures Leaves(Step(ALU | ADD | K, 0, m, in_), m, m.a)
    ensures AfterA(ALU | ADD | K, k, m, in_) == AfterA(ALU | ADD | K, m.a, m.(a := k), in_)
    ensures Leaves(Step(ALU | NEG, k, m, in_), m, AfterA(ALU | SUB | K, m.a, m.(a := 0), in_))
  {
  }

  lemma SameLeaves(m': Machine, m: Machine)
    requires m' == m.(a := m'.a)
    ensures forall o, v: u32 {:trigger Leaves(o, m', v)} :: Leaves(o, m', v) <==> Leaves(o, m, v)
  {
  }

  /** Adding twice is adding the sum. */
  lemma AddTwice(j: u32, k: u32, m: Machine, in_: Input)
    ensures AfterA(ALU | ADD | K, k, m.(a := AfterA(ALU | ADD | K, j, m, in_)), in_) ==
            AfterA(ALU | ADD | K, AfterA(ALU | ADD | K, k, m.(a := j), in_), m, in_)
  {
    hide Step, AfterA, Leaves;
    Sums(j, m, in_);
    Sums(k, m.(a := j), in_);
    Sums(k, m.(a := AfterA(ALU | ADD | K, j, m, in_)), in_);
    Sums(AfterA(ALU | ADD | K, k, m.(a := j), in_), m, in_);
    ModAdd(m.a + j, k);
    ModAdd(j + k, m.a);
  }

  /** Multiplying by zero clears, and by one more adds once more. */
  lemma MulSteps(k: u32, m: Machine, in_: Input)
    ensures Leaves(Step(ALU | MUL | K, 0, m, in_), m, 0)
    ensures k + 1 < TWO32 ==>
              AfterA(ALU | MUL | K, k + 1, m, in_) == AfterA(ALU | ADD | K, m.a, m.(a := AfterA(ALU | MUL | K, k, m, in_)), in_)
  {
    hide Step, AfterA, Leaves;
    Products(0, m, in_);
    Products(k, m, in_);
    if k + 1 < TWO32 {
      Products(k + 1, m, in_);
      Sums(m.a, m.(a := AfterA(ALU | MUL | K, k, m, in_)), in_);
      assert m.a * (k + 1) == m.a * k + m.a;
      ModAdd(m.a * k, m.a);
    }
  }

  lemma ModAdd(x: int, y: int)
    ensures (x % TWO32 + y) % TWO32 == (x + y) % TWO32
  {
    var q := x / TWO32;
    assert x == q * TWO32 + x % TWO32;
    ModShift(x % TWO32 + y, q);
  }

  lemma ModShift(x: int, q: int)
    ensures (x + q * TWO32) % TWO32 == x % TWO32
  {
  }

  /** Quotient and remainder make up the number, and the remainder is smaller than the divisor. */
  lemma DivMod(k: u32, m: Machine, in_: Input)
    requires k != 0
    ensures var q, r := AfterA(ALU | DIV | K, k, m, in_), AfterA(ALU | MOD | K, k, m, in_);
            && Leaves(Step(ALU | DIV | K, k, m, in_), m, q) && Leaves(Step(ALU | MOD | K, k, m, in_), m, r)
            && m.a == k * q + r && r < k
            && m.a == AfterA(ALU | ADD | K, r, m.(a := AfterA(ALU | MUL | K, k, m.(a := q), in_)), in_)
  {
    hide Step, AfterA, Leaves;
    Quotients(k, m, in_);
    var q: u32, r: u32 := m.a / k, m.a % k;
    assert m.a == k * q + r && q * k == k * q;
    Products(k, m.(a := q), in_);
    Sums(r, m.(a := AfterA(ALU | MUL | K, k, m.(a := q), in_)), in_);
    NoWrap(k * q, r, m.a);
  }

  lemma NoWrap(p: int, r: int, a: u32)
    requires p >= 0 && r >= 0 && a == p + r
    ensures p % TWO32 == p && (p % TWO32 + r) % TWO32 == a
  {
  }

  // ----- shifts -----

  /** Shifts multiply and divide by powers of two, and clear from 32 on. */
  lemma Shifts(k: u32, m: Machine, in_: Input)
    ensures k >= 32 ==> Leaves(Step(ALU | LSH | K, k, m, in_), m, 0) && Leaves(Step(ALU | RSH | K, k, m, in_), m, 0)
    ensures k < 32 ==>
              && Pow2(k) < TWO32
              && Step(ALU | LSH | K, k, m, in_) == Step(ALU | MUL | K, Pow2(k), m, in_)
              && Step(ALU | RSH | K, k, m, in_) == Step(ALU | DIV | K, Pow2(k), m, in_)
  {
    ShiftSteps(k, m, in_);
    hide Step, Leaves, Pow2, ShiftLeft, ShiftRight, AfterA;
    if k < 32 {
      Pow2Of32();
      PowGrows(31, k);
      Products(Pow2(k), m, in_);
      Quotients(Pow2(k), m, in_);
      ShiftedBy(k, m);
    }
  }

  lemma ShiftSteps(k: u32, m: Machine, in_: Input)
    ensures Step(ALU | LSH | K, k, m, in_) == Next(m.(a := ShiftLeft(m.a, k)), Sequential)
    ensures Step(ALU | RSH | K, k, m, in_) == Next(m.(a := ShiftRight(m.a, k)), Sequential)
    ensures k >= 32 ==> ShiftLeft(m.a, k) == 0 && ShiftRight(m.a, k) == 0
    ensures forall o, v: u32 :: Leaves(o, m, v) <==> o == Next(m.(a := v), Sequential)
  {
  }

  lemma ShiftedBy(k: u32, m: Machine)
    requires k < 32 && 1 <= Pow2(k) < TWO32
    ensures ShiftLeft(m.a, k) == m.a * Pow2(k) % TWO32 && ShiftRight(m.a, k) == m.a / Pow2(k)
  {
  }

  // ----- bits -----

  /** OR and AND share the bits of both operands, XOR has those of one, and masks take
      remainders. */
  lemma Bits(k: u32, m: Machine, in_: Input)
    ensures AfterA(ALU | OR | K, k, m, in_) + AfterA(ALU | AND | K, k, m, in_) == m.a + k
    ensures AfterA(ALU | XOR | K, k, m, in_) + 2 * AfterA(ALU | AND | K, k, m, in_) == m.a + k
    ensures AfterA(ALU | AND | K, k, m, in_) == AfterA(ALU | AND | K, m.a, m.(a := k), in_)
  {
    BitSteps(k, m, in_);
    BitSteps(m.a, m.(a := k), in_);
    hide Step, AfterA, Bitwise, Bitwise32;
    BitsAre(m.a, k);
    Pow2Of32();
    OrAnd(32, m.a, k);
    XorAnd(32, m.a, k);
    AndSwaps(32, m.a, k);
  }

  lemma BitSteps(k: u32, m: Machine, in_: Input)
    ensures AfterA(ALU | OR | K, k, m, in_) == Bitwise32(Or, m.a, k)
    ensures AfterA(ALU | XOR | K, k, m, in_) == Bitwise32(Xor, m.a, k)
    ensures AfterA(ALU | AND | K, k, m, in_) == Bitwise32(And, m.a, k)
  {
    hide Bitwise32;
  }

  lemma BitsAre(a: u32, b: u32)
    ensures Pow2(32) == TWO32 && Bitwise32(And, a, b) == Bitwise(32, And, a, b) && Bitwise32(And, b, a) == Bitwise(32, And, b, a)
    ensures Bitwise32(Or, a, b) == Bitwise(32, Or, a, b) && Bitwise32(Xor, a, b) == Bitwise(32, Xor, a, b)
  {
    Pow2Of32();
  }

  lemma {:induction false} OrAnd(w: nat, a: int, b: int)
    requires 0 <= a < Pow2(w) && 0 <= b < Pow2(w)
    ensures Bitwise(w, Or, a, b) + Bitwise(w, And, a, b) == a + b
  {
    if w > 0 { OrAnd(w - 1, a / 2, b / 2); }
  }

  lemma {:induction false} XorAnd(w: nat, a: int, b: int)
    requires 0 <= a < Pow2(w) && 0 <= b < Pow2(w)
    ensures Bitwise(w, Xor, a, b) + 2 * Bitwise(w, And, a, b) == a + b
  {
    if w > 0 { XorAnd(w - 1, a / 2, b / 2); }
  }

  lemma {:induction false} AndSwaps(w: nat, a: int, b: int)
    requires 0 <= a < Pow2(w) && 0 <= b < Pow2(w)
    ensures Bitwise(w, And, a, b) == Bitwise(w, And, b, a)
  {
    if w > 0 { AndSwaps(w - 1, a / 2, b / 2); }
  }

  /** XOR twice with the same operand changes nothing. */
  lemma XorTwice(k: u32, m: Machine, in_: Input)
    ensures Leaves(Step(ALU | XOR | K, k, m.(a := AfterA(ALU | XOR | K, k, m, in_)), in_), m, m.a)
  {
    hide Bitwise;
    Pow2Of32();
    XorBack(32, m.a, k);
  }

  lemma {:induction false} XorBack(w: nat, a: int, b: int)
    requires 0 <= a < Pow2(w) && 0 <= b < Pow2(w)
    ensures Bitwise(w, Xor, Bitwise(w, Xor, a, b), b) == a
  {
    if w > 0 {
      var c := Bitwise(w, Xor, a, b);
      assert c % 2 == Bit(Xor, a % 2, b % 2) && c / 2 == Bitwise(w - 1, Xor, a / 2, b / 2);
      XorBack(w - 1, a / 2, b / 2);
    }
  }

  /** A mask of the low bits is a remainder. */
  lemma MaskIsMod(n: nat, m: Machine, in_: Input)
    requires n < 32
    ensures 1 <= Pow2(n) < TWO32 && Step(ALU | AND | K, Pow2(n) - 1, m, in_) == Step(ALU | MOD | K, Pow2(n), m, in_)
  {
    AndStep(m, in_);
    hide Step, Leaves, Pow2, Bitwise, AfterA, Bitwise32;
    Pow2Of32();
    PowGrows(31, n);
    LowBits(32, n, m.a);
    Quotients(Pow2(n), m, in_);
    AndIs(m.a, Pow2(n) - 1);
  }

  lemma AndStep(m: Machine, in_: Input)
    ensures forall k: u32 {:trigger Step(ALU | AND | K, k, m, in_)} :: Step(ALU | AND | K, k, m, in_) == Next(m.(a := Bitwise32(And, m.a, k)), Sequential)
    ensures forall o, v: u32 :: Leaves(o, m, v) <==> o == Next(m.(a := v), Sequential)
  {
    hide Bitwise32;
  }

  lemma AndIs(a: u32, b: u32)
    ensures Pow2(32) == TWO32 && Bitwise32(And, a, b) == Bitwise(32, And, a, b)
  {
    Pow2Of32();
  }

  lemma {:induction false} LowBits(w: nat, n: nat, a: int)
    requires n <= w && 0 <= a < Pow2(w)
    ensures Pow2(n) <= Pow2(w) && Bitwise(w, And, a, Pow2(n) - 1) == a % Pow2(n)
    decreases w
  {
    hide Bitwise;
    PowGrows(w, n);
    if n == 0 {
      AndZero(w, a);
    } else {
      PowGrows(w - 1, n - 1);
      LowBits(w - 1, n - 1, a / 2);
      LowStep(w, a, Pow2(n - 1));
      assert Pow2(n) == 2 * Pow2(n - 1);
    }
  }

  lemma LowStep(w: nat, a: int, p: int)
    requires w > 0 && 0 <= a < Pow2(w) && 1 <= p && p <= Pow2(w - 1)
    requires Bitwise(w - 1, And, a / 2, p - 1) == a / 2 % p
    ensures Bitwise(w, And, a, 2 * p - 1) == a % (2 * p)
  {
    assert (2 * p - 1) % 2 == 1 && (2 * p - 1) / 2 == p - 1;
    ModHalves(a, p);
  }

  lemma PowGrows(w: nat, n: nat)
    requires n <= w
    ensures Pow2(n) <= Pow2(w)
  {
    Pow2Split(w, n);
    assert Pow2(n) * Pow2(w - n) >= Pow2(n) * 1;
  }

  lemma ModHalves(a: int, p: int)
    requires 0 <= a && 1 <= p
    ensures a % (2 * p) == a % 2 + 2 * (a / 2 % p)
  {
    var q, r := a / 2 / p, a / 2 % p;
    assert a / 2 == q * p + r && 0 <= r < p;
    var d := a % 2 + 2 * r;
    assert a == (2 * p) * q + d && 0 <= d < 2 * p;
    ModUnique(a, 2 * p, q, d);
  }

  lemma ModUnique(a: int, n: int, q: int, d: int)
    requires 0 < n && a == n * q + d && 0 <= d < n
    ensures a % n == d
  {
    var q', d' := a / n, a % n;
    assert n * (q - q') == d' - d;
    AtLeast(n, q - q');
    AtLeast(n, q' - q);
    assert n * (q' - q) == d - d';
  }

  lemma AtLeast(n: int, x: int)
    requires 0 < n
    ensures x >= 1 ==> n * x >= n
  {
    if x >= 1 { assert n * (x - 1) >= 0; }
  }

  // ----- scratch memory -----

  /** What is stored is loaded again, into A or X, and nothing else is changed by it. */
  lemma StoreLoad(k: u32, j: u32, m: Machine, in_: Input)
    requires k < SCRATCH_REGISTERS && j < SCRATCH_REGISTERS
    ensures var o := Step(ST, k, m, in_);
            && o.Next?
            && Leaves(Step(LD | MEM | W, j, o.m, in_), o.m, if j == k then m.a else AfterA(LD | MEM | W, j, m, in_))
    ensures var o := Step(STX, k, m, in_);
            && o.Next?
            && Step(LDX | MEM | W, j, o.m, in_) == Next(o.m.(x := if j == k then m.x else AfterA(LD | MEM | W, j, m, in_)), Sequential)
  {
  }

  // ----- the input -----

  /** An indirect load is an absolute one at X + k, modulo 2^32. */
  lemma Indirect(k: u32, m: Machine, in_: Input)
    ensures Step(LD | IND | W, k, m, in_) == Step(LD | ABS | W, (m.x + k) % TWO32, m, in_)
    ensures Step(LD | IND | H, k, m, in_) == Step(LD | ABS | H, (m.x + k) % TWO32, m, in_)
    ensures Step(LD | IND | B, k, m, in_) == Step(LD | ABS | B, (m.x + k) % TWO32, m, in_)
  {
    hide Load32, Load16, Load8;
  }

  /** A half word is made of its bytes in the order of the input. */
  lemma HalfFromBytes(k: u32, m: Machine, in_: Input)
    requires k + 1 < TWO32
    ensures Step(LD | ABS | H, k, m, in_).Next? <==> Step(LD | ABS | B, k + 1, m, in_).Next?
    ensures Step(LD | ABS | H, k, m, in_).Next? ==>
              var b0, b1 := AfterA(LD | ABS | B, k, m, in_), AfterA(LD | ABS | B, k + 1, m, in_);
              AfterA(LD | ABS | H, k, m, in_) == if in_.bigEndian then 0x100 * b0 + b1 else b0 + 0x100 * b1
  {
  }

  /** And a word of its halves. */
  lemma WordFromHalves(k: u32, m: Machine, in_: Input)
    requires k + 2 < TWO32
    ensures Step(LD | ABS | W, k, m, in_).Next? <==> Step(LD | ABS | H, k + 2, m, in_).Next?
    ensures Step(LD | ABS | W, k, m, in_).Next? ==>
              var h0, h1 := AfterA(LD | ABS | H, k, m, in_), AfterA(LD | ABS | H, k + 2, m, in_);
              AfterA(LD | ABS | W, k, m, in_) == if in_.bigEndian then 0x1_0000 * h0 + h1 else h0 + 0x1_0000 * h1
  {
  }

  /** The bytes themselves, and the length: a byte is loaded exactly when it is there. */
  lemma Bytes(k: u32, m: Machine, in_: Input)
    requires |in_.data| < TWO32
    ensures Step(LD | ABS | B, k, m, in_).Next? <==> k < AfterA(LD | LEN | W, 0, m, in_)
    ensures Step(LD | ABS | B, k, m, in_).Next? ==> k < |in_.data| && Leaves(Step(LD | ABS | B, k, m, in_), m, in_.data[k])
    ensures !Step(LD | ABS | B, k, m, in_).Next? ==> Step(LD | ABS | B, k, m, in_) == Fail(InvalidLoad)
    ensures Step(LDX | LEN | W, k, m, in_) == Next(m.(x := AfterA(LD | LEN | W, 0, m, in_)), Sequential)
    ensures Step(LDX | IMM | W, k, m, in_) == Next(m.(x := AfterA(LD | IMM | W, k, m, in_)), Sequential)
  {
  }

  /** The header length load: four times the low half of a byte. */
  lemma HeaderLength(k: u32, m: Machine, in_: Input)
    ensures var o := Step(LD | ABS | B, k, m, in_);
            if o.Next?
            then
              var low := AfterA(ALU | AND | K, 15, o.m, in_);
              Step(LDX | MSH | B, k, m, in_) == Next(m.(x := AfterA(ALU | LSH | K, 2, m.(a := low), in_)), Sequential)
            else Step(LDX | MSH | B, k, m, in_) == o
  {
    hide Bitwise32, Bitwise;
    var o := Step(LD | ABS | B, k, m, in_);
    if o.Next? {
      MaskIsMod(4, o.m, in_);
      assert Pow2(4) == 16 && Pow2(2) == 4;
    }
  }

  // ----- register moves -----

  /** What a move does by its listing in the decoder: TAX copies A to X, TXA copies X to A. */
  function Listed(op: bv16, m: Machine): Machine {
    if op == MISC | TAX then m.(x := m.a) else m.(a := m.x)
  }

  /** The interpreter moves the other way: a move does what its listing says if and only if both
      registers are equal. Each move after the other keeps what that one wrote. */
  lemma MovesAsListedExactlyWhen(op: bv16, k: u32, m: Machine, in_: Input)
    requires op == MISC | TAX || op == MISC | TXA
    ensures Step(op, k, m, in_) == Next(Listed(op, m), Sequential) <==> m.a == m.x
    ensures var o := Step(op, k, m, in_); o.Next? && o.m.a == o.m.x && o.m.mem == m.mem
    ensures op == MISC | TAX ==> Step(op, k, m, in_) == Next(Listed(MISC | TXA, m), Sequential)
    ensures op == MISC | TXA ==> Step(op, k, m, in_) == Next(Listed(MISC | TAX, m), Sequential)
  {
  }

  /** A program that returns 0 by its listing and 42 when it is run. */
  method MovesSwapped() returns (r: Result)
    ensures r == Value(42)
    ensures Listed(MISC | TAX, Machine(0, 42, ZERO.mem)).a == 0
  {
    var p := [Insn(LDX | IMM | W, 0, 0, 42), Insn(MISC | TAX, 0, 0, 0), Insn(RET | A, 0, 0, 0)];
    r := Exec(p, InputBytes([], false));
    assert Run(p, 2, Machine(42, 42, ZERO.mem), InputBytes([], false)) == Value(42);
    assert Run(p, 1, Machine(0, 42, ZERO.mem), InputBytes([], false)) == Value(42);
  }
}

// What each instruction leaves behind, told on the machine's state before and after it.
module RbmlInstructions {
  import opened Arithmetic
  import opened RbmlWord
  import opened RbmlCpu
  import opened RbmlArithmetic

  /** The operands of the three forms of an instruction: two registers, accumulator and register, jump and register. */
  ghost predicate Operands(c: Core, form: nat, arg1: nat, arg2: nat, x: Word, y: Word)
    requires arg1 < REGISTERS && arg2 < REGISTERS
  {
    && (form == 0 ==> x == c.reg[arg1] && y == c.reg[arg2])
    && (form == 1 ==> x == c.accumulator && y == c.reg[arg1])
    && (form == 2 ==> x == c.jump && y == c.reg[arg1])
    && form < 3
  }

  /** Equal but for multiples of 2 to the 32. */
  predicate Congruent(a: int, b: int) { (a - b) % TWO_32 == 0 }

  predicate InWord(v: int) { WORD_MIN <= v <= WORD_MAX }

  /** Nothing but the accumulator and the two flags of arithmetic has changed. */
  ghost predicate OnlyResult(s: Cpu, t: Cpu) {
    t == s.(core := s.core.(accumulator := t.core.accumulator, overflow := t.core.overflow, divzero := t.core.divzero))
  }

  ghost predicate OnlyAccumulator(s: Cpu, t: Cpu) {
    t == s.(core := s.core.(accumulator := t.core.accumulator))
  }

  lemma Computes(s: Cpu, op: nat, base: nat, arg1: nat, arg2: nat, arg3: nat, input: Input, x: Word, y: Word)
    requires arg1 < REGISTERS && arg2 < REGISTERS && op >= base && Operands(s.core, op - base, arg1, arg2, x, y)
    requires base in {0x10, 0x13, 0x16, 0x19, 0x1c, 0xa0, 0xa3, 0xa6, 0xa9, 0xac}
    ensures var operation := if base < 0xa0 then LOGIC[(base - 0x10) / 3] else ARITHMETIC[(base - 0xa0) / 3];
      Execute(s, op, arg1, arg2, arg3, input) == s.(core := Compute(s.core, operation, x, y))
  {
    hide Compute;
  }

  lemma CongruentWrap(v: int)
    ensures Congruent(Signed(Wrap(v)), v)
  {
  }

  /** ADD, ADDA and ADDJ leave the sum; the flag is set if and only if it does not fit. */
  lemma AddLaw(s: Cpu, op: nat, arg1: nat, arg2: nat, arg3: nat, input: Input, x: Word, y: Word)
    requires arg1 < REGISTERS && arg2 < REGISTERS && 0xa0 <= op < 0xa3 && Operands(s.core, op - 0xa0, arg1, arg2, x, y)
    ensures var t := Execute(s, op, arg1, arg2, arg3, input);
      var a, b, r := Signed(x), Signed(y), Signed(t.core.accumulator);
      && OnlyResult(s, t) && t.core.divzero == s.core.divzero
      && Congruent(r, a + b) && (InWord(a + b) ==> r == a + b) && (t.core.overflow <==> !InWord(a + b))
  {
    Computes(s, op, 0xa0, arg1, arg2, arg3, input, x, y);
    Fits(Signed(x) + Signed(y));
    CongruentWrap(Signed(x) + Signed(y));
    SumFlagExact(x, y);
    hide Wrap, Signed, SumOverflows, Execute;
  }

  /** SUB, SUBA and SUBJ leave the difference: adding the second operand gives the first again. The flag is that of the sum. */
  lemma SubLaw(s: Cpu, op: nat, arg1: nat, arg2: nat, arg3: nat, input: Input, x: Word, y: Word)
    requires arg1 < REGISTERS && arg2 < REGISTERS && 0xa3 <= op < 0xa6 && Operands(s.core, op - 0xa3, arg1, arg2, x, y)
    ensures var t := Execute(s, op, arg1, arg2, arg3, input);
      var a, b, r := Signed(x), Signed(y), Signed(t.core.accumulator);
      && OnlyResult(s, t) && t.core.divzero == s.core.divzero
      && Congruent(r + b, a) && (InWord(a - b) ==> r == a - b) && (t.core.overflow <==> !InWord(a + b))
  {
    Computes(s, op, 0xa3, arg1, arg2, arg3, input, x, y);
    Fits(Signed(x) - Signed(y));
    Fits(Signed(x) + Signed(y));
    CongruentWrap(Signed(x) - Signed(y));
    SumFlagExact(x, y);
    hide Wrap, Signed, SumOverflows, Execute;
  }

  /** MULT, MLTA and MLTJ leave the product; the flag says whether it fits exactly for the operands of ProductFlagRight. */
  lemma MultLaw(s: Cpu, op: nat, arg1: nat, arg2: nat, arg3: nat, input: Input, x: Word, y: Word)
    requires arg1 < REGISTERS && arg2 < REGISTERS && 0xa9 <= op < 0xac && Operands(s.core, op - 0xa9, arg1, arg2, x, y)
    ensures var t := Execute(s, op, arg1, arg2, arg3, input);
      var a, b, r := Signed(x), Signed(y), Signed(t.core.accumulator);
      && OnlyResult(s, t) && t.core.divzero == s.core.divzero
      && Congruent(r, a * b) && (InWord(a * b) ==> r == a * b)
      && ((t.core.overflow <==> !InWord(a * b)) <==> ProductFlagRight(a, b))
  {
    Computes(s, op, 0xa9, arg1, arg2, arg3, input, x, y);
    var a, b := Signed(x), Signed(y);
    var product := a * b;
    Fits(product);
    CongruentWrap(product);
    ProductFlag(x, y);
    hide Wrap, ProductOverflows, ProductFlagRight, Execute;
  }

  /** DIV, DIVA and DIVJ leave the quotient rounded towards zero, MOD, MODA and MODJ the remainder with the sign of the dividend;
      both leave 0, and set a flag, if and only if the divisor is 0. */
  lemma DivLaw(s: Cpu, op: nat, arg1: nat, arg2: nat, arg3: nat, input: Input, x: Word, y: Word)
    requires arg1 < REGISTERS && arg2 < REGISTERS && 0xa6 <= op < 0xa9 && Operands(s.core, op - 0xa6, arg1, arg2, x, y)
    ensures var t := Execute(s, op, arg1, arg2, arg3, input);
      var a, b, q := Signed(x), Signed(y), Signed(t.core.accumulator);
      && OnlyResult(s, t) && t.core.overflow == s.core.overflow && (t.core.divzero <==> b == 0)
      && if b == 0 then q == 0
         else if a == WORD_MIN && b == -1 then q == WORD_MIN
         else Small(a - b * q, b) && SameSign(a - b * q, a)
  {
    Computes(s, op, 0xa6, arg1, arg2, arg3, input, x, y);
    if Signed(y) != 0 {
      DivisionLaw(x, y);
      ByMinusOne();
    }
    hide Wrap, TruncatedMod, TruncatedDiv, Execute;
  }

  lemma ModLaw(s: Cpu, op: nat, arg1: nat, arg2: nat, arg3: nat, input: Input, x: Word, y: Word) returns (q: int)
    requires arg1 < REGISTERS && arg2 < REGISTERS && 0xac <= op < 0xaf && Operands(s.core, op - 0xac, arg1, arg2, x, y)
    ensures var t := Execute(s, op, arg1, arg2, arg3, input);
      var a, b, r := Signed(x), Signed(y), Signed(t.core.accumulator);
      && OnlyResult(s, t) && t.core.overflow == s.core.overflow && (t.core.divzero <==> b == 0)
      && if b == 0 then r == 0 else a == b * q + r && Small(r, b) && SameSign(r, a)
  {
    Computes(s, op, 0xac, arg1, arg2, arg3, input, x, y);
    q := 0;
    if Signed(y) != 0 {
      DivisionLaw(x, y);
      q := TruncatedDiv(Signed(x), Signed(y));
      TruncatedLaw(Signed(x), Signed(y));
      InRange(y);
      Fits(TruncatedMod(Signed(x), Signed(y)));
    }
    hide Wrap, TruncatedMod, TruncatedDiv, Execute;
  }

  // Bits

  function Bits(w: Word): bv32 { w as bv32 }

  predicate Bit(w: Word, i: bv5) { BitOf(Bits(w), i) }

  predicate BitOf(b: bv32, i: bv5) { (b >> i) & 1 == 1 }

  lemma BitsOfAnd(d: bv32, b: bv32, c: bv32, i: bv5)
    requires d == b & c
    ensures BitOf(d, i) <==> BitOf(b, i) && BitOf(c, i)
  {
  }

  lemma BitsOfOr(d: bv32, b: bv32, c: bv32, i: bv5)
    requires d == b | c
    ensures BitOf(d, i) <==> BitOf(b, i) || BitOf(c, i)
  {
  }

  lemma BitsOfNot(d: bv32, b: bv32, i: bv5)
    requires d == !b
    ensures BitOf(d, i) <==> !BitOf(b, i)
  {
  }

  lemma BackAndForth(b: bv32)
    ensures Bits(b as int) == b
  {
  }

  lemma AndIs(x: Word, y: Word)
    ensures And(x, y) == (Bits(x) & Bits(y)) as int
  {
  }

  lemma AndWord(x: Word, y: Word)
    ensures Bits(And(x, y)) == Bits(x) & Bits(y)
  {
    hide And, Bits;
    AndIs(x, y);
    BackAndForth(Bits(x) & Bits(y));
  }

  lemma OrIs(x: Word, y: Word)
    ensures Or(x, y) == (Bits(x) | Bits(y)) as int
  {
  }

  lemma OrWord(x: Word, y: Word)
    ensures Bits(Or(x, y)) == Bits(x) | Bits(y)
  {
    hide Or, Bits;
    OrIs(x, y);
    BackAndForth(Bits(x) | Bits(y));
  }

  lemma NotIs(x: Word)
    ensures Not(x) == (!Bits(x)) as int
  {
  }

  lemma NotWord(x: Word)
    ensures Bits(Not(x)) == !Bits(x)
  {
    hide Not, Bits;
    NotIs(x);
    BackAndForth(!Bits(x));
  }

  lemma AndBits(x: Word, y: Word, i: bv5)
    ensures Bit(And(x, y), i) <==> Bit(x, i) && Bit(y, i)
  {
    hide And, Bits, BitOf;
    AndWord(x, y);
    BitsOfAnd(Bits(And(x, y)), Bits(x), Bits(y), i);
  }

  lemma OrBits(x: Word, y: Word, i: bv5)
    ensures Bit(Or(x, y), i) <==> Bit(x, i) || Bit(y, i)
  {
    hide Or, Bits, BitOf;
    OrWord(x, y);
    BitsOfOr(Bits(Or(x, y)), Bits(x), Bits(y), i);
  }

  lemma NotBits(x: Word, i: bv5)
    ensures Bit(Not(x), i) <==> !Bit(x, i)
  {
    hide Not, Bits, BitOf;
    NotWord(x);
    BitsOfNot(Bits(Not(x)), Bits(x), i);
  }

  /** CJNT, CJNA and CJNJ: the bits that both operands have. */
  lemma ConjunctLaw(s: Cpu, op: nat, arg1: nat, arg2: nat, arg3: nat, input: Input, x: Word, y: Word, i: bv5)
    requires arg1 < REGISTERS && arg2 < REGISTERS && 0x10 <= op < 0x13 && Operands(s.core, op - 0x10, arg1, arg2, x, y)
    ensures var t := Execute(s, op, arg1, arg2, arg3, input);
      OnlyAccumulator(s, t) && (Bit(t.core.accumulator, i) <==> Bit(x, i) && Bit(y, i))
  {
    hide And, Bit;
    Computes(s, op, 0x10, arg1, arg2, arg3, input, x, y);
    AndBits(x, y, i);
    hide Execute;
  }

  /** DJNT, DJNA and DJNJ: the bits that either operand has. */
  lemma DisjunctLaw(s: Cpu, op: nat, arg1: nat, arg2: nat, arg3: nat, input: Input, x: Word, y: Word, i: bv5)
    requires arg1 < REGISTERS && arg2 < REGISTERS && 0x13 <= op < 0x16 && Operands(s.core, op - 0x13, arg1, arg2, x, y)
    ensures var t := Execute(s, op, arg1, arg2, arg3, input);
      OnlyAccumulator(s, t) && (Bit(t.core.accumulator, i) <==> Bit(x, i) || Bit(y, i))
  {
    hide Or, Bit;
    Computes(s, op, 0x13, arg1, arg2, arg3, input, x, y);
    OrBits(x, y, i);
    hide Execute;
  }

  /** COMP, COMPA and COMPJ: the bits that the first operand does not have. */
  lemma ComplementLaw(s: Cpu, op: nat, arg1: nat, arg2: nat, arg3: nat, input: Input, x: Word, y: Word, i: bv5)
    requires arg1 < REGISTERS && arg2 < REGISTERS && 0x16 <= op < 0x19 && Operands(s.core, op - 0x16, arg1, arg2, x, y)
    ensures var t := Execute(s, op, arg1, arg2, arg3, input);
      OnlyAccumulator(s, t) && (Bit(t.core.accumulator, i) <==> !Bit(x, i))
  {
    hide Not, Bit;
    Computes(s, op, 0x16, arg1, arg2, arg3, input, x, y);
    NotBits(x, i);
    hide Execute;
  }

  /** LSFT, LSFA and LSFJ multiply by a power of two; RSFT, RSFA and RSFJ divide, rounding down. */
  lemma LeftShiftLaw(s: Cpu, op: nat, arg1: nat, arg2: nat, arg3: nat, input: Input, x: Word, y: Word)
    requires arg1 < REGISTERS && arg2 < REGISTERS && 0x19 <= op < 0x1c && Operands(s.core, op - 0x19, arg1, arg2, x, y)
    ensures var t := Execute(s, op, arg1, arg2, arg3, input);
      var v, r := Signed(x) * Pow2(y % 32), Signed(t.core.accumulator);
      OnlyAccumulator(s, t) && Congruent(r, v) && (InWord(v) ==> r == v)
  {
    Computes(s, op, 0x19, arg1, arg2, arg3, input, x, y);
    var v := Signed(x) * Pow2(y % 32);
    Fits(v);
    CongruentWrap(v);
    hide Wrap, Pow2, Execute;
  }

  lemma RightShiftLaw(s: Cpu, op: nat, arg1: nat, arg2: nat, arg3: nat, input: Input, x: Word, y: Word)
    requires arg1 < REGISTERS && arg2 < REGISTERS && 0x1c <= op < 0x1f && Operands(s.core, op - 0x1c, arg1, arg2, x, y)
    ensures var t := Execute(s, op, arg1, arg2, arg3, input);
      var a, p, r := Signed(x), Pow2(y % 32), Signed(t.core.accumulator);
      OnlyAccumulator(s, t) && r * p <= a < (r + 1) * p
  {
    Computes(s, op, 0x1c, arg1, arg2, arg3, input, x, y);
    InRange(x);
    Halved(Signed(x), Pow2(y % 32));
    Fits(Signed(x) / Pow2(y % 32));
    hide Wrap, Signed, Pow2, Execute;
  }

  lemma Halved(a: int, p: int)
    requires p > 0 && InWord(a)
    ensures (a / p) * p <= a < (a / p + 1) * p && InWord(a / p)
  {
    var q := a / p;
    assert a == q * p + a % p;
    assert (q + 1) * p == q * p + p;
    assert q > WORD_MAX ==> q * p >= q;
    assert q < WORD_MIN ==> (q + 1) * p <= q + 1;
  }

  // Comparing, branching and calling

  /** The flags are those of comparing a with b. */
  ghost predicate Compared(c: Core, a: int, b: int) {
    (c.less <==> a < b) && (c.equal <==> a == b) && (c.greater <==> a > b)
  }

  ghost predicate OnlyFlags(s: Cpu, t: Cpu) {
    t == s.(core := s.core.(less := t.core.less, equal := t.core.equal, greater := t.core.greater))
  }

  /** CMP, CMPA and CMPJ. */
  lemma CompareLaw(s: Cpu, op: nat, arg1: nat, arg2: nat, arg3: nat, input: Input, x: Word, y: Word)
    requires arg1 < REGISTERS && arg2 < REGISTERS && 0x20 <= op < 0x23 && Operands(s.core, op - 0x20, arg1, arg2, x, y)
    ensures var t := Execute(s, op, arg1, arg2, arg3, input); OnlyFlags(s, t) && Compared(t.core, Signed(x), Signed(y))
  {
  }

  /** CMPM compares a register with memory. */
  lemma CompareMemoryLaw(s: Cpu, arg1: nat, arg2: nat, arg3: nat, input: Input)
    requires arg1 < REGISTERS && arg2 < REGISTERS
    ensures var t := Execute(s, 0x23, arg1, arg2, arg3, input);
      if arg3 < |s.memory| then OnlyFlags(s, t) && Compared(t.core, Signed(s.core.reg[arg1]), Signed(s.memory[arg3]))
      else t == s.(status := Undefined)
  {
  }

  /** Which branch is taken after comparing a with b; BRLE also when a is greater, and not when they are equal. */
  predicate Branches(op: nat, a: int, b: int) {
    op == 0x30 || (op == 0x31 && a > b) || (op == 0x32 && a < b) || (op == 0x33 && a == b) || (op == 0x34 && a >= b) || (op == 0x35 && a != b)
  }

  lemma BranchLaw(s: Cpu, op: nat, arg1: nat, arg2: nat, arg3: nat, input: Input, a: int, b: int)
    requires arg1 < REGISTERS && arg2 < REGISTERS && 0x30 <= op < 0x36 && Compared(s.core, a, b)
    ensures Execute(s, op, arg1, arg2, arg3, input) == if Branches(op, a, b) then s.(counter := arg3 - 1) else s
  {
  }

  /** CMP and a branch: the branch goes by the signed values of the registers compared. */
  lemma CompareThenBranch(s: Cpu, r: nat, q: nat, op: nat, target: nat, input: Input)
    requires r < REGISTERS && q < REGISTERS && 0x30 <= op < 0x36
    ensures var t := Execute(s, 0x20, r, q, 0, input);
      Execute(t, op, 0, 0, target, input).counter == if Branches(op, Signed(s.core.reg[r]), Signed(s.core.reg[q])) then target - 1 else s.counter
  {
    CompareLaw(s, 0x20, r, q, 0, input, s.core.reg[r], s.core.reg[q]);
    var t := Execute(s, 0x20, r, q, 0, input);
    BranchLaw(t, op, 0, 0, target, input, Signed(s.core.reg[r]), Signed(s.core.reg[q]));
    hide Execute, Signed;
  }

  /** Which call is made after comparing a with b. */
  predicate Calls(op: nat, a: int, b: int) {
    op == 0x40 || (op == 0x41 && a > b) || (op == 0x42 && a < b) || (op == 0x43 && a == b) || (op == 0x44 && a >= b) || (op == 0x45 && a <= b)
  }

  /** A call goes to its target and keeps its own address in jump, and what jump held, unless 0, on the call stack; without room there
      it is the end. */
  lemma CallLaw(s: Cpu, op: nat, arg1: nat, arg2: nat, arg3: nat, input: Input, a: int, b: int)
    requires arg1 < REGISTERS && arg2 < REGISTERS && 0x40 <= op < 0x46 && Compared(s.core, a, b) && 0 <= s.counter < TWO_32
    ensures var t, c := Execute(s, op, arg1, arg2, arg3, input), s.core;
      if !Calls(op, a, b) then t == s
      else if c.jump == 0 then t == s.(core := c.(jump := s.counter), counter := arg3 - 1)
      else if c.depth < |c.callStack| then
        t == s.(core := c.(jump := s.counter, callStack := c.callStack[c.depth := c.jump], depth := c.depth + 1), counter := arg3 - 1)
      else t == s.(status := Undefined)
  {
  }

  // Moving data

  /** STO, STOA and STOJ: the word is in memory, and everything else is as it was. */
  lemma StoreLaw(s: Cpu, op: nat, arg1: nat, arg2: nat, arg3: nat, input: Input)
    requires arg1 < REGISTERS && arg2 < REGISTERS && op < 0x03
    ensures var t := Execute(s, op, arg1, arg2, arg3, input);
      var w := if op == 0x00 then s.core.reg[arg1] else if op == 0x01 then s.core.accumulator else s.core.jump;
      if arg3 >= |s.memory| then t == s.(status := Undefined)
      else
        && t == s.(memory := t.memory) && |t.memory| == |s.memory| && t.memory[arg3] == w
        && forall i | 0 <= i < |s.memory| && i != arg3 :: t.memory[i] == s.memory[i]
  {
  }

  ghost predicate OnlyRegister(c: Core, d: Core, r: nat, w: Word)
    requires r < REGISTERS
  {
    d == c.(reg := d.reg) && d.reg[r] == w && forall i | 0 <= i < REGISTERS && i != r :: d.reg[i] == c.reg[i]
  }

  /** LOD, LODA and LODJ: the word of memory is in the register, the accumulator or jump. */
  lemma LoadLaw(s: Cpu, op: nat, arg1: nat, arg2: nat, arg3: nat, input: Input)
    requires arg1 < REGISTERS && arg2 < REGISTERS && 0x03 <= op < 0x06
    ensures var t := Execute(s, op, arg1, arg2, arg3, input);
      if arg3 >= |s.memory| then t == s.(status := Undefined)
      else
        var w := s.memory[arg3];
        && t == s.(core := t.core)
        && (op == 0x03 ==> OnlyRegister(s.core, t.core, arg1, w))
        && (op == 0x04 ==> t.core == s.core.(accumulator := w))
        && (op == 0x05 ==> t.core == s.core.(jump := w))
  {
  }

  /** MOV from the first register to the second; MOVA and MOVJ to the second register, or from it if the first field is 0. */
  lemma MoveLaw(s: Cpu, op: nat, arg1: nat, arg2: nat, arg3: nat, input: Input)
    requires arg1 < REGISTERS && arg2 < REGISTERS && 0x06 <= op < 0x09
    ensures var t, c := Execute(s, op, arg1, arg2, arg3, input), s.core;
      && t == s.(core := t.core)
      && (op == 0x06 ==> OnlyRegister(c, t.core, arg2, c.reg[arg1]))
      && (op == 0x07 ==> if arg1 != 0 then OnlyRegister(c, t.core, arg2, c.accumulator) else t.core == c.(accumulator := c.reg[arg2]))
      && (op == 0x08 ==> if arg1 != 0 then OnlyRegister(c, t.core, arg2, c.jump) else t.core == c.(jump := c.reg[arg2]))
  {
    hide Compute, Compare, Load, ConsoleRead, ConsoleWrite, Called, Returned;
  }

  lemma Reads(s: Cpu, op: nat, arg1: nat, arg2: nat, arg3: nat, input: Input)
    requires arg1 < REGISTERS && arg2 < REGISTERS && 0xb0 <= op < 0xb4
    ensures Execute(s, op, arg1, arg2, arg3, input) == ConsoleRead(s, op, arg2, arg3, input)
  {
    hide ConsoleRead, Compute, Compare, Load, Move, ConsoleWrite, Called, Returned;
  }

  /** CRDR, CRDA and CRDJ take the next word of the input. */
  lemma ReadLaw(s: Cpu, op: nat, arg1: nat, arg2: nat, arg3: nat, input: Input)
    requires arg1 < REGISTERS && arg2 < REGISTERS && 0xb1 <= op < 0xb4
    ensures var t, w := Execute(s, op, arg1, arg2, arg3, input), input(s.core.taken);
      var c := s.core.(taken := s.core.taken + 1);
      && t == s.(core := t.core)
      && (op == 0xb1 ==> OnlyRegister(c, t.core, arg2, w))
      && (op == 0xb2 ==> t.core == c.(accumulator := w))
      && (op == 0xb3 ==> t.core == c.(jump := w))
  {
    Reads(s, op, arg1, arg2, arg3, input);
    hide Execute;
  }

  /** So does CRDM, which puts it into memory. */
  lemma ReadToMemoryLaw(s: Cpu, arg1: nat, arg2: nat, arg3: nat, input: Input)
    requires arg1 < REGISTERS && arg2 < REGISTERS
    ensures var t, w, c := Execute(s, 0xb0, arg1, arg2, arg3, input), input(s.core.taken), s.core.(taken := s.core.taken + 1);
      t == if arg3 < |s.memory| then s.(core := c, memory := s.memory[arg3 := w]) else s.(core := c, status := Undefined)
  {
    hide Compute, Compare, Load, Move, ConsoleWrite, Called, Returned;
  }

  /** The three console writes add one word to the output: as characters if the first field is not 0, else as a number. */
  lemma WriteLaw(s: Cpu, op: nat, arg1: nat, arg2: nat, arg3: nat, input: Input)
    requires arg1 < REGISTERS && arg2 < REGISTERS && 0xb4 <= op < 0xb7
    ensures var t, c := Execute(s, op, arg1, arg2, arg3, input), s.core;
      var w := if op == 0xb4 then c.reg[arg2] else if op == 0xb5 then c.accumulator else c.jump;
      t == s.(core := t.core) && t.core == c.(output := t.core.output)
      && |t.core.output| == |c.output| + 1 && t.core.output[..|c.output|] == c.output && t.core.output[|c.output|] == (arg1 != 0, w)
  {
  }

  /** END goes to the address in jump and takes the one below it from the call stack, or what its first place still holds. */
  lemma EndLaw(s: Cpu, arg1: nat, arg2: nat, arg3: nat, input: Input)
    requires arg1 < REGISTERS && arg2 < REGISTERS
    ensures var t, c := Execute(s, 0x4f, arg1, arg2, arg3, input), s.core;
      t == s.(counter := Signed(c.jump), core :=
        if c.depth > 0 then c.(jump := c.callStack[c.depth - 1], depth := c.depth - 1) else c.(jump := c.callStack[0], callStack := c.callStack[0 := 0]))
  {
  }

  /** HALT and HERR stop with their codes; opcodes that are not listed, and those of the disks, change nothing. */
  lemma HaltLaw(s: Cpu, op: nat, arg1: nat, arg2: nat, arg3: nat, input: Input)
    requires arg1 < REGISTERS && arg2 < REGISTERS
    requires op >= 0xb7 || 0x09 <= op < 0x10 || op == 0x1f || 0x24 <= op < 0x30 || 0x36 <= op < 0x40 || 0x46 <= op < 0x4f || 0x50 <= op < 0xa0 || op == 0xaf
    ensures Execute(s, op, arg1, arg2, arg3, input) == if op == 0xff then s.(status := Exited(0)) else if op == 0xee then s.(status := Exited(2)) else s
  {
  }

  /** The machine starts at the first word, with 16 registers, all else 0 and nothing read, written or called, and room for 100 return addresses. */
  lemma StartLaw(program: seq<Word>, size: nat)
    ensures var s := Start(program, size); var c := s.core;
      && s.counter == 0 && s.status == Running && |s.memory| == size
      && (forall i | 0 <= i < size :: s.memory[i] == if i < |program| then program[i] else 0)
      && |c.reg| == 16 && (forall i | 0 <= i < 16 :: c.reg[i] == 0) && |c.callStack| == 100 && (forall i | 0 <= i < 100 :: c.callStack[i] == 0)
      && c.accumulator == c.jump == 0 && c.depth == c.taken == 0 && c.output == []
      && !c.less && !c.equal && !c.greater && !c.overflow && !c.divzero
  {
  }
}

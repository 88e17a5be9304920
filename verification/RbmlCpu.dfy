// The RBML machine: registers, flags, memory and call stack, and what one instruction does to them.
module RbmlCpu {
  import opened Arithmetic
  import opened RbmlWord

  const WORD_MIN := -0x8000_0000
  const WORD_MAX := 0x7fff_ffff

  const REGISTERS: nat := 16

  /** Everything but memory and the instruction counter. */
  datatype Registers = Registers(
    accumulator: Word, jump: Word, reg: seq<Word>, callStack: seq<Word>, depth: nat,
    less: bool, equal: bool, greater: bool, overflow: bool, divzero: bool,
    taken: nat, output: seq<(bool, Word)>)

  type Core = r: Registers | |r.reg| == REGISTERS && |r.callStack| > 0 && r.depth <= |r.callStack|
    witness Registers(0, 0, seq(REGISTERS, _ => 0), [0], 0, false, false, false, false, false, 0, [])

  /** What the console reads, one word after the other. */
  type Input = nat -> Word

  /** Undefined stands for an access outside memory or the call stack. */
  datatype Status = Running | Exited(code: nat) | Outside | Undefined

  datatype Cpu = Cpu(core: Core, memory: seq<Word>, counter: int, status: Status)

  // Arithmetic

  /** Division and remainder of C, which round towards zero. */
  function TruncatedDiv(a: int, b: int): int
    requires b != 0
  {
    var q := (if a < 0 then -a else a) / (if b < 0 then -b else b);
    if (a < 0) == (b < 0) then q else -q
  }

  function TruncatedMod(a: int, b: int): int
    requires b != 0
  {
    var r := (if a < 0 then -a else a) % (if b < 0 then -b else b);
    if a < 0 then -r else r
  }

  function Product(a: int, b: int): Word { if a == 0 || b == 0 then 0 else Wrap(a * b) }

  function Quotient(a: int, b: int): Word { if b == 0 then 0 else Wrap(TruncatedDiv(a, b)) }

  function Remainder(a: int, b: int): Word { if b == 0 then 0 else Wrap(TruncatedMod(a, b)) }

  function And(x: Word, y: Word): Word { ((x as bv32) & (y as bv32)) as int }

  function Or(x: Word, y: Word): Word { ((x as bv32) | (y as bv32)) as int }

  function Not(x: Word): Word { (!(x as bv32)) as int }

  function ShiftLeft(a: int, y: Word): Word { Wrap(a * Pow2(y % 32)) }

  function ShiftRight(a: int, y: Word): Word { Wrap(a / Pow2(y % 32)) }

  /** The test that addition() and subtraction() make. */
  predicate SumOverflows(a: int, b: int) {
    (a > 0 && b > WORD_MAX - a) || (a < 0 && b < WORD_MIN - a)
  }

  /** The test that multiplication() makes; the least number divided by -1 wraps. */
  predicate ProductOverflows(a: int, b: int) {
    a != 0 && b != 0 && ((a > 0 && b > TruncatedDiv(WORD_MAX, a)) || (a < 0 && b < Signed(Wrap(TruncatedDiv(WORD_MIN, a)))))
  }

  datatype Operation = Add | Sub | Div | Mult | Mod | Cjnt | Djnt | Comp | Lsft | Rsft

  const ARITHMETIC := [Add, Sub, Div, Mult, Mod]
  const LOGIC := [Cjnt, Djnt, Comp, Lsft, Rsft]

  function Bitwise(op: Operation, x: Word, y: Word): Word {
    match op
    case Cjnt => And(x, y)
    case Djnt => Or(x, y)
    case Comp => Not(x)
    case Lsft => ShiftLeft(Signed(x), y)
    case _ => ShiftRight(Signed(x), y)
  }

  /** The accumulator and the flags after an operation on two words. */
  function Compute(c: Core, op: Operation, x: Word, y: Word): Core {
    var a, b := Signed(x), Signed(y);
    match op
    case Add => c.(overflow := SumOverflows(a, b), accumulator := Wrap(a + b))
    case Sub => c.(overflow := SumOverflows(a, b), accumulator := Wrap(a - b))
    case Mult => c.(overflow := ProductOverflows(a, b), accumulator := Product(a, b))
    case Div => c.(divzero := b == 0, accumulator := Quotient(a, b))
    case Mod => c.(divzero := b == 0, accumulator := Remainder(a, b))
    case _ => c.(accumulator := Bitwise(op, x, y))
  }

  function Compare(c: Core, x: Word, y: Word): Core {
    var a, b := Signed(x), Signed(y);
    c.(less := a < b, equal := a == b, greater := a > b)
  }

  // The conditions of branches and of calls, numbered as their opcodes; BRLE tests greater or less

  predicate BranchTaken(c: Core, n: nat) {
    match n
    case 0 => true
    case 1 => c.greater
    case 2 => c.less
    case 3 => c.equal
    case 4 => c.greater || c.equal
    case _ => c.greater || c.less
  }

  predicate CallTaken(c: Core, n: nat) {
    match n
    case 0 => true
    case 1 => c.greater
    case 2 => c.less
    case 3 => c.equal
    case 4 => c.greater || c.equal
    case _ => c.less || c.equal
  }

  /** call() may push only while the call stack has room. */
  predicate CanCall(c: Core) { c.jump == 0 || c.depth < |c.callStack| }

  /** jump holds the place to return to; the place it held before goes on the stack, unless it is 0. */
  function Called(c: Core, from: int): Core
    requires CanCall(c)
  {
    if c.jump == 0 then c.(jump := Wrap(from))
    else c.(callStack := c.callStack[c.depth := c.jump], depth := c.depth + 1, jump := Wrap(from))
  }

  /** jump is taken from the stack again; from an empty stack it is what callStack[0] still holds, once. */
  function Returned(c: Core): Core {
    if c.depth == 0 then c.(jump := c.callStack[0], callStack := c.callStack[0 := 0])
    else c.(depth := c.depth - 1, jump := c.callStack[c.depth - 1])
  }

  // Instructions

  function Store(s: Cpu, address: nat, w: Word): Cpu {
    if address < |s.memory| then s.(memory := s.memory[address := w]) else s.(status := Undefined)
  }

  /** Three operand forms: two registers, accumulator and register, jump and register. */
  function First(c: Core, form: nat, arg1: nat): Word
    requires arg1 < REGISTERS
  {
    match form
    case 0 => c.reg[arg1]
    case 1 => c.accumulator
    case _ => c.jump
  }

  function Second(c: Core, form: nat, arg1: nat, arg2: nat): Word
    requires arg1 < REGISTERS && arg2 < REGISTERS
  {
    if form == 0 then c.reg[arg2] else c.reg[arg1]
  }

  function Put(c: Core, r: nat, w: Word): Core
    requires r < REGISTERS
  {
    c.(reg := c.reg[r := w])
  }

  /** cread */
  function Read(c: Core, input: Input): (Core, Word) {
    (c.(taken := c.taken + 1), input(c.taken))
  }

  function Written(c: Core, control: nat, w: Word): Core {
    c.(output := c.output + [(control != 0, w)])
  }

  /** MOVA */
  function MoveAccumulator(c: Core, arg1: nat, arg2: nat): Core
    requires arg2 < REGISTERS
  {
    if arg1 != 0 then Put(c, arg2, c.accumulator) else c.(accumulator := c.reg[arg2])
  }

  function Load(s: Cpu, op: nat, arg1: nat, arg3: nat): Cpu
    requires arg1 < REGISTERS
  {
    if arg3 >= |s.memory| then s.(status := Undefined)
    else
      var w := s.memory[arg3];
      s.(core := if op == 0x03 then Put(s.core, arg1, w) else if op == 0x04 then s.core.(accumulator := w) else s.core.(jump := w))
  }

  function Move(c: Core, op: nat, arg1: nat, arg2: nat): Core
    requires arg1 < REGISTERS && arg2 < REGISTERS
  {
    if op == 0x06 then Put(c, arg2, c.reg[arg1])
    else if op == 0x07 then MoveAccumulator(c, arg1, arg2)
    else if arg1 != 0 then Put(c, arg2, c.jump) else c.(jump := c.reg[arg2])
  }

  function ConsoleRead(s: Cpu, op: nat, arg2: nat, arg3: nat, input: Input): Cpu
    requires arg2 < REGISTERS
  {
    var (c, w) := Read(s.core, input);
    if op == 0xb0 then Store(s.(core := c), arg3, w)
    else s.(core := if op == 0xb1 then Put(c, arg2, w) else if op == 0xb2 then c.(accumulator := w) else c.(jump := w))
  }

  function ConsoleWrite(c: Core, op: nat, arg1: nat, arg2: nat): Core
    requires arg2 < REGISTERS
  {
    Written(c, arg1, if op == 0xb4 then c.reg[arg2] else if op == 0xb5 then c.accumulator else c.jump)
  }

  function Call(s: Cpu, arg3: nat): Cpu {
    if CanCall(s.core) then s.(core := Called(s.core, s.counter), counter := arg3 - 1) else s.(status := Undefined)
  }

  /** The function of an opcode; an unknown one and those of the disks change nothing here. */
  function Execute(s: Cpu, op: nat, arg1: nat, arg2: nat, arg3: nat, input: Input): Cpu
    requires arg1 < REGISTERS && arg2 < REGISTERS
  {
    var c := s.core;
    if op < 0x03 then Store(s, arg3, if op == 0x00 then c.reg[arg1] else if op == 0x01 then c.accumulator else c.jump)
    else if op < 0x06 then Load(s, op, arg1, arg3)
    else if op < 0x09 then s.(core := Move(c, op, arg1, arg2))
    else if 0x10 <= op < 0x1f then
      var form := (op - 0x10) % 3;
      s.(core := Compute(c, LOGIC[(op - 0x10) / 3], First(c, form, arg1), Second(c, form, arg1, arg2)))
    else if 0x20 <= op < 0x23 then s.(core := Compare(c, First(c, op - 0x20, arg1), Second(c, op - 0x20, arg1, arg2)))
    else if op == 0x23 then
      if arg3 < |s.memory| then s.(core := Compare(c, c.reg[arg1], s.memory[arg3])) else s.(status := Undefined)
    else if 0x30 <= op < 0x36 then if BranchTaken(c, op - 0x30) then s.(counter := arg3 - 1) else s
    else if 0x40 <= op < 0x46 then if CallTaken(c, op - 0x40) then Call(s, arg3) else s
    else if op == 0x4f then s.(core := Returned(c), counter := Signed(c.jump))
    else if 0xa0 <= op < 0xaf then
      var form := (op - 0xa0) % 3;
      s.(core := Compute(c, ARITHMETIC[(op - 0xa0) / 3], First(c, form, arg1), Second(c, form, arg1, arg2)))
    else if 0xb0 <= op < 0xb4 then ConsoleRead(s, op, arg2, arg3, input)
    else if 0xb4 <= op < 0xb7 then s.(core := ConsoleWrite(c, op, arg1, arg2))
    else if op == 0xff then s.(status := Exited(0))
    else if op == 0xee then s.(status := Exited(2))
    else s
  }

  /** One turn of the main loop: fetch, execute, count. */
  function Step(s: Cpu, input: Input): Cpu {
    if !s.status.Running? then s
    else if !(0 <= s.counter < |s.memory|) then s.(status := Undefined)
    else
      var w := s.memory[s.counter];
      Count(Execute(s, Opcode(w), Arg1(w), Arg2(w), Arg3(w), input))
  }

  /** The counter goes up after every instruction, even after a jump, and must stay within memory. */
  function Count(s: Cpu): Cpu {
    if !s.status.Running? then s
    else s.(counter := s.counter + 1, status := if 0 <= s.counter + 1 < |s.memory| then Running else Outside)
  }

  lemma FieldsFit(w: Word)
    ensures Arg1(w) < REGISTERS && Arg2(w) < REGISTERS
  {
  }

  function Run(s: Cpu, input: Input, steps: nat): Cpu {
    if steps == 0 then s else Step(Run(s, input, steps - 1), input)
  }

  const SIZE_OF_CALLSTACK: nat := 100

  function Zeros(n: nat): (z: seq<Word>)
    ensures |z| == n && forall i | 0 <= i < n :: z[i] == 0
  {
    seq(n, _ => 0)
  }

  function Fresh(): Core {
    Registers(0, 0, Zeros(REGISTERS), Zeros(SIZE_OF_CALLSTACK), 0, false, false, false, false, false, 0, [])
  }

  /** The machine as main() starts it: everything zero but as much of the program as fits into memory. */
  function Start(program: seq<Word>, size: nat): Cpu {
    Cpu(Fresh(), if |program| < size then program + Zeros(size - |program|) else program[..size], 0, Running)
  }
}

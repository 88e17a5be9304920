// The emulator: the machine's state in variables and arrays, changed in place by each instruction.
module RbmlEmulator {
  import opened RbmlWord
  import opened RbmlCpu

  class Emulator {
    var accumulator: Word
    var jump: Word
    const reg: array<Word>
    var instructionCounter: int
    const memory: array<Word>
    const callStack: array<Word>
    var callStackCounter: nat
    var less: bool
    var equal: bool
    var greater: bool
    var overflow: bool
    var divzero: bool
    const input: Input
    var taken: nat
    var output: seq<(bool, Word)>
    var status: Status

    /** Everything zero but as much of the program as fits into memory. */
    constructor (program: seq<Word>, size: nat, input: Input)
      ensures Valid() && fresh(reg) && fresh(memory) && fresh(callStack)
      ensures this.input == input && Abs() == Start(program, size)
    {
      this.input := input;
      reg := new Word[REGISTERS](_ => 0);
      memory := new Word[size](i => if 0 <= i < |program| then program[i] else 0);
      callStack := new Word[SIZE_OF_CALLSTACK](_ => 0);
      accumulator, jump, instructionCounter, callStackCounter := 0, 0, 0, 0;
      less, equal, greater, overflow, divzero := false, false, false, false, false;
      taken, output, status := 0, [], Running;
      new;
      assert reg[..] == Zeros(REGISTERS) && callStack[..] == Zeros(SIZE_OF_CALLSTACK);
      assert memory[..] == Start(program, size).memory;
    }

    ghost predicate Valid()
      reads this
    {
      && reg.Length == REGISTERS && callStack.Length > 0 && callStackCounter <= callStack.Length
      && reg != memory && reg != callStack && memory != callStack
    }

    ghost function Core(): Core
      reads this, reg, callStack
      requires Valid()
    {
      Registers(accumulator, jump, reg[..], callStack[..], callStackCounter, less, equal, greater, overflow, divzero, taken, output)
    }

    ghost function Abs(): Cpu
      reads this, reg, memory, callStack
      requires Valid()
    {
      Cpu(Core(), memory[..], instructionCounter, status)
    }

    // Memory

    method Sto(address: nat, w: Word)
      requires Valid()
      modifies memory, `status
      ensures Valid() && Abs() == Store(old(Abs()), address, w)
    {
      if address < memory.Length {
        memory[address] := w;
      } else {
        status := Undefined;
      }
    }

    method SetReg(r: nat, w: Word)
      requires Valid() && r < REGISTERS
      modifies reg
      ensures Valid() && Core() == Put(old(Core()), r, w)
      ensures memory[..] == old(memory[..])
    {
      reg[r] := w;
    }

    method CRead() returns (w: Word)
      requires Valid()
      modifies `taken
      ensures Valid() && (Core(), w) == Read(old(Core()), input)
    {
      w := input(taken);
      taken := taken + 1;
    }

    method CWrite(control: nat, w: Word)
      requires Valid()
      modifies `output
      ensures Valid() && Core() == Written(old(Core()), control, w)
    {
      output := output + [(control != 0, w)];
    }

    // Arithmetic and logic

    method Addition(x: Word, y: Word) returns (w: Word)
      requires Valid()
      modifies `overflow
      ensures Valid() && Core().(accumulator := w) == Compute(old(Core()), Add, x, y)
    {
      var a, b := Signed(x), Signed(y);
      overflow := (a > 0 && b > WORD_MAX - a) || (a < 0 && b < WORD_MIN - a);
      w := Wrap(a + b);
    }

    method Subtraction(x: Word, y: Word) returns (w: Word)
      requires Valid()
      modifies `overflow
      ensures Valid() && Core().(accumulator := w) == Compute(old(Core()), Sub, x, y)
    {
      var a, b := Signed(x), Signed(y);
      overflow := (a > 0 && b > WORD_MAX - a) || (a < 0 && b < WORD_MIN - a);
      w := Wrap(a - b);
    }

    method Multiplication(x: Word, y: Word) returns (w: Word)
      requires Valid()
      modifies `overflow
      ensures Valid() && Core().(accumulator := w) == Compute(old(Core()), Mult, x, y)
    {
      hide TruncatedDiv, Wrap, Signed;
      var a, b := Signed(x), Signed(y);
      overflow := false;
      if a == 0 || b == 0 {
        return 0;
      }
      if a > 0 && b > TruncatedDiv(WORD_MAX, a) {
        overflow := true;
      } else if a < 0 && b < Signed(Wrap(TruncatedDiv(WORD_MIN, a))) {
        overflow := true;
      }
      w := Wrap(a * b);
    }

    method Division(x: Word, y: Word) returns (w: Word)
      requires Valid()
      modifies `divzero
      ensures Valid() && Core().(accumulator := w) == Compute(old(Core()), Div, x, y)
    {
      hide TruncatedDiv, Wrap, Signed;
      divzero := Signed(y) == 0;
      w := if divzero then 0 else Wrap(TruncatedDiv(Signed(x), Signed(y)));
    }

    method Modulus(x: Word, y: Word) returns (w: Word)
      requires Valid()
      modifies `divzero
      ensures Valid() && Core().(accumulator := w) == Compute(old(Core()), Mod, x, y)
    {
      hide TruncatedMod, Wrap, Signed;
      divzero := Signed(y) == 0;
      w := if divzero then 0 else Wrap(TruncatedMod(Signed(x), Signed(y)));
    }

    method Calculate(op: Operation, x: Word, y: Word)
      requires Valid()
      modifies `accumulator, `overflow, `divzero
      ensures Valid() && Core() == Compute(old(Core()), op, x, y)
    {
      hide SumOverflows, ProductOverflows, TruncatedDiv, TruncatedMod, Wrap, Signed, And, Or, ShiftLeft, ShiftRight;
      match op
      case Add => accumulator := Addition(x, y);
      case Sub => accumulator := Subtraction(x, y);
      case Mult => accumulator := Multiplication(x, y);
      case Div => accumulator := Division(x, y);
      case Mod => accumulator := Modulus(x, y);
      case Cjnt => accumulator := And(x, y);
      case Djnt => accumulator := Or(x, y);
      case Comp => accumulator := Not(x);
      case Lsft => accumulator := ShiftLeft(Signed(x), y);
      case Rsft => accumulator := ShiftRight(Signed(x), y);
    }

    method Cmp(x: Word, y: Word)
      requires Valid()
      modifies `less, `equal, `greater
      ensures Valid() && Core() == Compare(old(Core()), x, y)
    {
      less, equal, greater := Signed(x) < Signed(y), Signed(x) == Signed(y), Signed(x) > Signed(y);
    }

    // Control

    method CallTo(arg3: nat)
      requires Valid()
      modifies `jump, callStack, `callStackCounter, `instructionCounter, `status
      ensures Valid() && Abs() == Call(old(Abs()), arg3)
    {
      if jump == 0 {
        jump := Wrap(instructionCounter);
      } else if callStackCounter < callStack.Length {
        callStack[callStackCounter] := jump;
        callStackCounter := callStackCounter + 1;
        jump := Wrap(instructionCounter);
      } else {
        status := Undefined;
        return;
      }
      instructionCounter := arg3 - 1;
    }

    method End()
      requires Valid()
      modifies `jump, callStack, `callStackCounter, `instructionCounter
      ensures Valid() && Abs() == old(Abs()).(core := Returned(old(Core())), counter := Signed(old(jump)))
    {
      instructionCounter := Signed(jump);
      if callStackCounter == 0 {
        jump := callStack[0];
        callStack[0] := 0;
      } else {
        callStackCounter := callStackCounter - 1;
        jump := callStack[callStackCounter];
      }
    }

    /** The opcodes 0x00 to 0x08: between registers and memory. */
    method Transfer(op: nat, arg1: nat, arg2: nat, arg3: nat)
      requires Valid() && op < 0x09 && arg1 < REGISTERS && arg2 < REGISTERS
      modifies this, reg, memory
      ensures Valid() && Abs() == Execute(old(Abs()), op, arg1, arg2, arg3, input)
    {
      if op < 0x03 {
        Sto(arg3, if op == 0x00 then reg[arg1] else if op == 0x01 then accumulator else jump);
      } else if op < 0x06 {
        if arg3 >= memory.Length {
          status := Undefined;
        } else if op == 0x03 {
          SetReg(arg1, memory[arg3]);
        } else if op == 0x04 {
          accumulator := memory[arg3];
        } else {
          jump := memory[arg3];
        }
      } else if op == 0x06 {
        SetReg(arg2, reg[arg1]);
      } else if op == 0x07 {
        if arg1 != 0 { SetReg(arg2, accumulator); } else { accumulator := reg[arg2]; }
      } else {
        if arg1 != 0 { SetReg(arg2, jump); } else { jump := reg[arg2]; }
      }
    }

    /** The operands of the three forms of an operation. */
    method Operands(form: nat, arg1: nat, arg2: nat) returns (x: Word, y: Word)
      requires Valid() && form < 3 && arg1 < REGISTERS && arg2 < REGISTERS
      ensures x == First(Core(), form, arg1) && y == Second(Core(), form, arg1, arg2)
    {
      x := if form == 0 then reg[arg1] else if form == 1 then accumulator else jump;
      y := if form == 0 then reg[arg2] else reg[arg1];
    }

    /** The condition of a branch or call; the two kinds differ in the last one. */
    method Condition(n: nat, last: bool) returns (taken: bool)
      requires Valid() && n < 6
      ensures last == (greater || less) ==> taken == BranchTaken(Core(), n)
      ensures last == (less || equal) ==> taken == CallTaken(Core(), n)
    {
      if n == 0 { return true; }
      if n == 1 { return greater; }
      if n == 2 { return less; }
      if n == 3 { return equal; }
      if n == 4 { return greater || equal; }
      taken := last;
    }

    /** evaluateInstruction */
    method Evaluate(op: nat, arg1: nat, arg2: nat, arg3: nat)
      requires Valid() && arg1 < REGISTERS && arg2 < REGISTERS
      modifies this, reg, memory, callStack
      ensures Valid() && Abs() == Execute(old(Abs()), op, arg1, arg2, arg3, input)
    {
      hide Compute, Compare, Returned, Called, CanCall;
      if op < 0x09 {
        Transfer(op, arg1, arg2, arg3);
      } else if 0x10 <= op < 0x1f {
        var x, y := Operands((op - 0x10) % 3, arg1, arg2);
        Calculate(LOGIC[(op - 0x10) / 3], x, y);
      } else if 0x20 <= op < 0x23 {
        var x, y := Operands(op - 0x20, arg1, arg2);
        Cmp(x, y);
      } else if op == 0x23 {
        if arg3 < memory.Length { Cmp(reg[arg1], memory[arg3]); } else { status := Undefined; }
      } else if 0x30 <= op < 0x36 {
        var holds := Condition(op - 0x30, greater || less);
        if holds { instructionCounter := arg3 - 1; }
      } else if 0x40 <= op < 0x46 {
        var holds := Condition(op - 0x40, less || equal);
        if holds { CallTo(arg3); }
      } else if op == 0x4f {
        End();
      } else if 0xa0 <= op < 0xaf {
        var x, y := Operands((op - 0xa0) % 3, arg1, arg2);
        Calculate(ARITHMETIC[(op - 0xa0) / 3], x, y);
      } else if 0xb0 <= op < 0xb7 {
        Console(op, arg1, arg2, arg3);
      } else if op == 0xff {
        status := Exited(0);
      } else if op == 0xee {
        status := Exited(2);
      }
    }

    method Console(op: nat, arg1: nat, arg2: nat, arg3: nat)
      requires Valid() && 0xb0 <= op < 0xb7 && arg1 < REGISTERS && arg2 < REGISTERS
      modifies this, reg, memory
      ensures Valid() && Abs() == Execute(old(Abs()), op, arg1, arg2, arg3, input)
    {
      if op < 0xb4 {
        var w := CRead();
        if op == 0xb0 {
          Sto(arg3, w);
        } else if op == 0xb1 {
          SetReg(arg2, w);
        } else if op == 0xb2 {
          accumulator := w;
        } else {
          jump := w;
        }
      } else {
        CWrite(arg1, if op == 0xb4 then reg[arg2] else if op == 0xb5 then accumulator else jump);
      }
    }

    /** The fetch loop, for at most this many turns. */
    method Go(turns: nat)
      requires Valid()
      modifies this, reg, memory, callStack
      ensures Valid() && Abs() == Run(old(Abs()), input, turns)
    {
      hide Execute;
      var i := 0;
      while i < turns
        invariant i <= turns && Valid() && Abs() == Run(old(Abs()), input, i)
      {
        Turn();
        i := i + 1;
      }
    }

    method Turn()
      requires Valid()
      modifies this, reg, memory, callStack
      ensures Valid() && Abs() == Step(old(Abs()), input)
    {
      hide Execute, Opcode, Arg1, Arg2, Arg3;
      if !status.Running? {
        return;
      }
      if !(0 <= instructionCounter < memory.Length) {
        status := Undefined;
        return;
      }
      var w := memory[instructionCounter];
      FieldsFit(w);
      Evaluate(Opcode(w), Arg1(w), Arg2(w), Arg3(w));
      if !status.Running? {
        return;
      }
      instructionCounter := instructionCounter + 1;
      if !(0 <= instructionCounter < memory.Length) {
        status := Outside;
      }
    }
  }
}

// Subroutines: jump as the top of the call stack, 0 for an empty one, and why every END finds its CALL.
module RbmlCalls {
  import opened RbmlWord
  import opened RbmlCpu

  /** The return addresses the machine holds, the oldest first. */
  function Held(c: Core): seq<Word> {
    if c.jump == 0 then [] else c.callStack[..c.depth] + [c.jump]
  }

  /** The machine holds the addresses of the open calls, perhaps above one left over from earlier. */
  ghost predicate Linked(c: Core, open: seq<Word>) {
    && (c.jump == 0 ==> c.depth == 0)
    && (forall i | 0 <= i < c.depth :: c.callStack[i] != 0)
    && (Held(c) == open || (Held(c) != [] && Held(c)[1..] == open))
  }

  lemma CallLinks(c: Core, open: seq<Word>, at: Word)
    requires Linked(c, open) && at != 0 && |open| < |c.callStack|
    ensures CanCall(c) && Linked(Called(c, at), open + [at])
  {
    var d := Called(c, at);
    if c.jump == 0 {
      assert Held(d) == [at];
    } else {
      assert |Held(c)| <= |open| + 1;
      assert d.callStack[..d.depth] == Held(c);
      assert Held(d) == Held(c) + [at];
      if Held(c) != open {
        assert Held(d)[1..] == Held(c)[1..] + [at];
      }
    }
  }

  lemma EndLinks(c: Core, open: seq<Word>)
    requires Linked(c, open) && open != []
    ensures c.jump == open[|open| - 1] && Linked(Returned(c), open[..|open| - 1])
  {
    var d := Returned(c);
    if c.depth > 0 {
      assert Held(d) == c.callStack[..c.depth - 1] + [c.callStack[c.depth - 1]] == c.callStack[..c.depth];
      assert Held(c)[..c.depth] == Held(d);
      if Held(c) != open {
        assert Held(c)[1..][..|open| - 1] == Held(c)[..c.depth][1..];
      }
    } else {
      assert Held(c) == [c.jump];
    }
  }

  /** The word a running machine is about to execute. */
  function Current(s: Cpu): Word {
    if 0 <= s.counter < |s.memory| then s.memory[s.counter] else 0
  }

  predicate Calling(s: Cpu) {
    s.status.Running? && 0x40 <= Opcode(Current(s)) < 0x46 && CallTaken(s.core, Opcode(Current(s)) - 0x40)
  }

  predicate Ending(s: Cpu) { s.status.Running? && Opcode(Current(s)) == 0x4f }

  /** LODJ, MOVJ to jump, and a console read to jump. */
  predicate WritesJump(w: Word) {
    Opcode(w) == 0x05 || (Opcode(w) == 0x08 && Arg1(w) == 0) || Opcode(w) == 0xb3
  }

  /** The addresses of the calls still open after so many steps. */
  function Open(s: Cpu, input: Input, steps: nat): seq<int> {
    if steps == 0 then []
    else
      var before, t := Open(s, input, steps - 1), Run(s, input, steps - 1);
      if Calling(t) then before + [t.counter]
      else if Ending(t) && before != [] then before[..|before| - 1]
      else before
  }

  /** What this step may do: call, but not from address 0 nor deeper than the call stack; end, but only an open call; anything else but write jump. */
  predicate Disciplined(s: Cpu, open: seq<int>) {
    s.status.Running? ==>
      && 0 <= s.counter < |s.memory|
      && if Calling(s) then s.counter != 0 && |open| < |s.core.callStack|
         else if Ending(s) then open != []
         else !WritesJump(Current(s))
  }

  predicate Nested(s: Cpu, input: Input, steps: nat) {
    steps > 0 ==> Nested(s, input, steps - 1) && Disciplined(Run(s, input, steps - 1), Open(s, input, steps - 1))
  }

  function Words(open: seq<int>): seq<Word> {
    seq(|open|, i requires 0 <= i < |open| => Wrap(open[i]))
  }

  predicate Addresses(s: Cpu, open: seq<int>) {
    forall a <- open :: 0 < a < |s.memory|
  }

  /** The two have the same return addresses. */
  predicate SameCalls(c: Core, d: Core) { d.jump == c.jump && d.callStack == c.callStack && d.depth == c.depth }

  lemma ComputeKeeps(c: Core, op: Operation, x: Word, y: Word)
    ensures SameCalls(c, Compute(c, op, x, y))
  {
    hide SumOverflows, ProductOverflows, And, Or, ShiftLeft, ShiftRight, TruncatedDiv, TruncatedMod, Wrap, Signed;
  }

  lemma ConsoleKeeps(s: Cpu, op: nat, arg1: nat, arg2: nat, arg3: nat, input: Input)
    requires arg2 < REGISTERS && 0xb0 <= op < 0xb7 && op != 0xb3
    ensures op < 0xb4 ==> SameCalls(s.core, ConsoleRead(s, op, arg2, arg3, input).core)
    ensures SameCalls(s.core, ConsoleWrite(s.core, op, arg1, arg2))
  {
  }

  lemma ExecuteKeeps(s: Cpu, op: nat, arg1: nat, arg2: nat, arg3: nat, input: Input)
    requires arg1 < REGISTERS && arg2 < REGISTERS
    requires op != 0x05 && !(op == 0x08 && arg1 == 0) && op != 0xb3 && op != 0x4f
    requires 0x40 <= op < 0x46 ==> !CallTaken(s.core, op - 0x40)
    ensures SameCalls(s.core, Execute(s, op, arg1, arg2, arg3, input).core)
  {
    hide Compute, First, Second, Wrap, Signed, ConsoleRead, ConsoleWrite;
    if 0xb0 <= op < 0xb7 {
      ConsoleKeeps(s, op, arg1, arg2, arg3, input);
    } else if 0x10 <= op < 0x1f {
      var form := (op - 0x10) % 3;
      ComputeKeeps(s.core, LOGIC[(op - 0x10) / 3], First(s.core, form, arg1), Second(s.core, form, arg1, arg2));
    } else if 0xa0 <= op < 0xaf {
      var form := (op - 0xa0) % 3;
      ComputeKeeps(s.core, ARITHMETIC[(op - 0xa0) / 3], First(s.core, form, arg1), Second(s.core, form, arg1, arg2));
    }
  }

  /** An instruction that neither calls nor ends nor writes jump leaves the return addresses alone. */
  lemma OthersKeep(s: Cpu, input: Input)
    requires s.status.Running? && 0 <= s.counter < |s.memory| && !Calling(s) && !Ending(s) && !WritesJump(Current(s))
    ensures SameCalls(s.core, Step(s, input).core)
  {
    hide Opcode, Arg1, Arg2, Arg3, Execute;
    var w := s.memory[s.counter];
    FieldsFit(w);
    ExecuteKeeps(s, Opcode(w), Arg1(w), Arg2(w), Arg3(w), input);
  }

  ghost predicate SameSizes(s: Cpu, t: Cpu) {
    |t.memory| == |s.memory| && |t.core.callStack| == |s.core.callStack|
  }

  lemma TransferSizes(s: Cpu, op: nat, arg1: nat, arg2: nat, arg3: nat, input: Input)
    requires op < 0x09 && arg1 < REGISTERS && arg2 < REGISTERS
    ensures SameSizes(s, Execute(s, op, arg1, arg2, arg3, input))
  {
    hide Wrap, Signed;
  }

  lemma ExecuteSizes(s: Cpu, op: nat, arg1: nat, arg2: nat, arg3: nat, input: Input)
    requires arg1 < REGISTERS && arg2 < REGISTERS
    ensures SameSizes(s, Execute(s, op, arg1, arg2, arg3, input))
  {
    hide Compute, First, Second, Wrap, Signed, Load, Move;
    if op < 0x09 {
      TransferSizes(s, op, arg1, arg2, arg3, input);
    } else if !(0x40 <= op < 0x50) && op != 0xb3 {
      hide Called, Returned;
      ExecuteKeeps(s, op, arg1, arg2, arg3, input);
    }
  }

  /** Memory and call stack keep their sizes. */
  lemma SizesStay(s: Cpu, input: Input)
    ensures |Step(s, input).memory| == |s.memory| && |Step(s, input).core.callStack| == |s.core.callStack|
  {
    hide Opcode, Arg1, Arg2, Arg3, Execute;
    if s.status.Running? && 0 <= s.counter < |s.memory| {
      var w := s.memory[s.counter];
      FieldsFit(w);
      ExecuteSizes(s, Opcode(w), Arg1(w), Arg2(w), Arg3(w), input);
    }
  }

  /** In a nested run the machine always holds the addresses of the open calls. */
  lemma {:induction false} NestedIsLinked(s: Cpu, input: Input, steps: nat)
    requires Linked(s.core, []) && |s.memory| <= TWO_32 && Nested(s, input, steps)
    ensures var t := Run(s, input, steps); var open := Open(s, input, steps);
      |t.memory| == |s.memory| && Addresses(s, open) && Linked(t.core, Words(open))
  {
    hide Step, Calling, Ending;
    if steps > 0 {
      var t, open := Run(s, input, steps - 1), Open(s, input, steps - 1);
      NestedIsLinked(s, input, steps - 1);
      SizesStay(t, input);
      StepLinks(t, input, open);
    }
  }

  lemma CallGoesOn(s: Cpu, input: Input)
    requires Calling(s) && 0 <= s.counter < |s.memory| && CanCall(s.core)
    ensures Step(s, input).core == Called(s.core, s.counter)
  {
    hide Opcode, Arg1, Arg2, Arg3, Called, CanCall;
    FieldsFit(s.memory[s.counter]);
  }

  lemma EndGoesTo(s: Cpu, input: Input)
    requires Ending(s) && 0 <= s.counter < |s.memory|
    ensures Step(s, input).counter == Signed(s.core.jump) + 1 && Step(s, input).core == Returned(s.core)
  {
    hide Opcode, Arg1, Arg2, Arg3, Returned;
    FieldsFit(s.memory[s.counter]);
  }

  lemma StoppedStays(s: Cpu, input: Input)
    requires !s.status.Running?
    ensures Step(s, input) == s
  {
  }

  lemma StepLinks(s: Cpu, input: Input, open: seq<int>)
    requires |s.memory| <= TWO_32 && Addresses(s, open) && Linked(s.core, Words(open)) && Disciplined(s, open)
    ensures var next := if Calling(s) then open + [s.counter] else if Ending(s) && open != [] then open[..|open| - 1] else open;
      Addresses(s, next) && Linked(Step(s, input).core, Words(next))
  {
    hide Linked, Called, Returned, Step, Opcode;
    if Calling(s) {
      CallLinks(s.core, Words(open), s.counter);
      CallGoesOn(s, input);
      assert Words(open + [s.counter]) == Words(open) + [s.counter];
    } else if Ending(s) {
      EndLinks(s.core, Words(open));
      EndGoesTo(s, input);
      assert Words(open[..|open| - 1]) == Words(open)[..|open| - 1];
      var rest := open[..|open| - 1];
      forall a | a in rest ensures 0 < a < |s.memory| {
        assert a in open;
      }
    } else if s.status.Running? {
      OthersKeep(s, input);
      LinkedSame(s.core, Step(s, input).core, Words(open));
    } else {
      StoppedStays(s, input);
    }
  }

  lemma LinkedSame(c: Core, d: Core, open: seq<Word>)
    requires Linked(c, open) && SameCalls(c, d)
    ensures Linked(d, open)
  {
  }

  /** Every END of a nested run goes on right behind the call it ends. */
  lemma EveryEndFindsItsCall(s: Cpu, input: Input, steps: nat)
    requires Linked(s.core, []) && |s.memory| <= 0x8000_0000 && Nested(s, input, steps)
    requires var t := Run(s, input, steps); Ending(t) && Disciplined(t, Open(s, input, steps))
    ensures var open := Open(s, input, steps); Run(s, input, steps + 1).counter == open[|open| - 1] + 1
  {
    hide Nested, Linked, Run, Open, Ending, Disciplined, Step;
    var t, open := Run(s, input, steps), Open(s, input, steps);
    NestedIsLinked(s, input, steps);
    EndsOpen(t, open);
    EndLinks(t.core, Words(open));
    assert open[|open| - 1] in open;
    EndGoesTo(t, input);
    assert Run(s, input, steps + 1) == Step(t, input) by { RunOn(s, input, steps); }
  }

  lemma RunOn(s: Cpu, input: Input, steps: nat)
    ensures Run(s, input, steps + 1) == Step(Run(s, input, steps), input)
  {
  }

  lemma EndsOpen(s: Cpu, open: seq<int>)
    requires Ending(s) && Disciplined(s, open)
    ensures open != [] && 0 <= s.counter < |s.memory|
  {
  }

  /** After two nested calls have ended, the address of the outer one is still there: no call is open, yet jump is not 0. */
  lemma LeftOver(a: Word, b: Word)
    requires a != 0 && b != 0
    ensures var c := Returned(Returned(Called(Called(Fresh(), a), b))); Held(c) == [a] && Linked(c, [])
  {
  }
}

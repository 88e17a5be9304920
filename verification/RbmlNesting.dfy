// Calls within calls, as trees: where every END goes back to, and when the way back to a CALL at address 0 is lost.
module RbmlNesting {
  import opened Options
  import opened RbmlWord
  import opened RbmlCpu
  import opened RbmlCalls

  /** The calls that a subroutine makes, one after the other, each with those made within it. */
  datatype Body = Empty | Sub(at: Word, inner: Body, rest: Body)

  /** How deep calls are nested in each other. */
  function Depth(b: Body): nat {
    match b
    case Empty => 0
    case Sub(_, inner, rest) => if Depth(inner) + 1 > Depth(rest) then Depth(inner) + 1 else Depth(rest)
  }

  /** No call is made at address 0. */
  predicate FromElsewhere(b: Body) { b.Sub? ==> b.at != 0 && FromElsewhere(b.inner) && FromElsewhere(b.rest) }

  /** The core after these calls and their ENDs, unless the call stack overflows. */
  function After(c: Core, b: Body): Option<Core>
    decreases b
  {
    match b
    case Empty => Some(c)
    case Sub(at, inner, rest) =>
      if !CanCall(c) then None
      else
        match After(Called(c, at), inner)
        case None => None
        case Some(d) => After(Returned(d), rest)
  }

  /** While an address is held, calls and their ENDs leave everything in place that was there, and what is in jump in the first free place above. */
  ghost predicate Restored(c: Core, d: Core, b: Body) {
    && d.jump == c.jump && d.depth == c.depth && |d.callStack| == |c.callStack|
    && d.callStack[..c.depth] == c.callStack[..c.depth]
    && (b.Sub? ==> c.depth < |c.callStack| && d.callStack[c.depth] == c.jump)
  }

  /** Above an address other than 0, every body of calls finds its way back: the address is in jump again. */
  lemma {:induction false} NestedReturns(c: Core, b: Body)
    requires c.jump != 0 && FromElsewhere(b) && After(c, b).Some?
    ensures Restored(c, After(c, b).value, b)
    decreases b
  {
    if b.Sub? {
      var c1 := Called(c, b.at);
      NestedReturns(c1, b.inner);
      var d := After(c1, b.inner).value;
      assert d.callStack[..c.depth] == d.callStack[..c1.depth][..c.depth];
      assert d.callStack[c.depth] == d.callStack[..c1.depth][c.depth] == c.jump;
      var c2 := Returned(d);
      NestedReturns(c2, b.rest);
      var e := After(c2, b.rest).value;
    }
  }

  /** Every END of these calls goes back to its CALL. */
  predicate Finds(c: Core, b: Body)
    decreases b
  {
    b.Sub? && CanCall(c) ==>
      var d := After(Called(c, b.at), b.inner);
      Finds(Called(c, b.at), b.inner) && (d.Some? ==> d.value.jump == b.at && Finds(Returned(d.value), b.rest))
  }

  /** Whatever the machine holds, every END of a body of calls from other addresses than 0 goes back to its CALL. */
  lemma {:induction false} EveryEndFinds(c: Core, b: Body)
    requires FromElsewhere(b)
    ensures Finds(c, b)
    decreases b
  {
    if b.Sub? && CanCall(c) {
      var d := After(Called(c, b.at), b.inner);
      EveryEndFinds(Called(c, b.at), b.inner);
      if d.Some? {
        NestedReturns(Called(c, b.at), b.inner);
        EveryEndFinds(Returned(d.value), b.rest);
      }
    }
  }

  /** With no address held and none left over, one call after another is fine, but one within another leaves its address behind. */
  lemma {:induction false} OutermostReturns(c: Core, b: Body)
    requires c.jump == 0 && c.depth == 0 && FromElsewhere(b) && After(c, b).Some?
    ensures After(c, b).value.jump == 0 <==> b.Empty? || (c.callStack[0] == 0 && Depth(b) <= 1)
    decreases b
  {
    if b.Sub? {
      var c1 := Called(c, b.at);
      NestedReturns(c1, b.inner);
      var d := Returned(After(c1, b.inner).value);
      if d.jump == 0 {
        OutermostReturns(d, b.rest);
      } else {
        NestedReturns(d, b.rest);
      }
    }
  }

  /** jump does not tell address 0 from no address. The END of a call made at 0 goes back to 0 if and only if the body has no calls,
      or no address was held before, nor one left in the first place of the call stack, and no call of the body is within another. */
  lemma CallFromZero(c: Core, b: Body)
    requires (c.jump == 0 ==> c.depth == 0) && (forall i | 0 <= i < c.depth :: c.callStack[i] != 0)
    requires CanCall(c) && FromElsewhere(b) && After(Called(c, 0), b).Some?
    ensures After(Called(c, 0), b).value.jump == 0 <==> b.Empty? || (c.jump == 0 && c.callStack[0] == 0 && Depth(b) <= 1)
  {
    var d := Called(c, 0);
    if c.jump == 0 {
      assert d == c;
      OutermostReturns(d, b);
    } else if b.Sub? {
      var c1 := Called(d, b.at);
      NestedReturns(c1, b.inner);
      var e := After(c1, b.inner).value;
      assert e.callStack[..c1.depth][c.depth] == c.jump;
      NestedReturns(Returned(e), b.rest);
    }
  }

  /** In particular an END right after a call from 0 goes back to it, and finds the address below it. */
  lemma LeafCallFromZero(c: Core)
    requires CanCall(c)
    ensures var d := Called(c, 0); d.jump == 0 && (c.jump != 0 ==> Returned(d).jump == c.jump)
  {
  }

  // Two programs that lose their way

  /** A program of instructions on register 0 and an address. */
  function Program(code: seq<(nat, nat)>): (p: seq<Word>)
    ensures |p| == |code|
  {
    seq(|code|, i requires 0 <= i < |code| => Inst(code[i].0, 0, 0, code[i].1))
  }

  predicate Understood(code: seq<(nat, nat)>) {
    forall i | 0 <= i < |code| :: code[i].0 in {0x20, 0x30, 0x40, 0x43, 0x4f, 0xff} && code[i].1 < 0x1_0000
  }

  function Moved(t: Cpu, c: Core, n: int): Cpu {
    t.(core := c, counter := n, status := if 0 <= n < |t.memory| then Running else Outside)
  }

  /** COMP R0 R0, BR, CALL, CAEQ, END and HALT. */
  function Done(t: Cpu, op: nat, arg3: nat): Cpu
    requires CanCall(t.core)
  {
    var c := t.core;
    if op == 0x20 then Moved(t, Compare(c, c.reg[0], c.reg[0]), t.counter + 1)
    else if op == 0x30 then Moved(t, c, arg3)
    else if op == 0x40 || (op == 0x43 && c.equal) then Moved(t, Called(c, t.counter), arg3)
    else if op == 0x4f then Moved(t, Returned(c), Signed(c.jump) + 1)
    else if op == 0xff then t.(status := Exited(0))
    else Moved(t, c, t.counter + 1)
  }

  function Next(code: seq<(nat, nat)>, t: Cpu): Cpu
    requires 0 <= t.counter < |code| && CanCall(t.core)
  {
    Done(t, code[t.counter].0, code[t.counter].1)
  }

  lemma Executed(t: Cpu, op: nat, arg3: nat, input: Input)
    requires t.status.Running? && CanCall(t.core) && op in {0x20, 0x30, 0x40, 0x43, 0x4f, 0xff}
    ensures Count(Execute(t, op, 0, 0, arg3, input)) == Done(t, op, arg3)
  {
    hide Called, Returned, Compare;
  }

  /** The open calls after the next instruction. */
  function NextOpen(code: seq<(nat, nat)>, t: Cpu, open: seq<int>): seq<int>
    requires 0 <= t.counter < |code|
  {
    var op := code[t.counter].0;
    if op == 0x40 || (op == 0x43 && t.core.equal) then open + [t.counter]
    else if op == 0x4f && open != [] then open[..|open| - 1]
    else open
  }

  lemma NextIs(code: seq<(nat, nat)>, t: Cpu, input: Input)
    requires Understood(code) && t.memory == Program(code) && t.status.Running? && 0 <= t.counter < |code| && CanCall(t.core)
    ensures Step(t, input) == Next(code, t) && Ending(t) == (code[t.counter].0 == 0x4f)
    ensures Calling(t) == (code[t.counter].0 == 0x40 || (code[t.counter].0 == 0x43 && t.core.equal))
  {
    hide Inst, Opcode, Arg1, Arg2, Arg3, CanCall, Execute, Count, Done;
    var (op, arg3) := code[t.counter];
    DecodeEncode(op, 0, 0, arg3);
    Executed(t, op, arg3, input);
  }

  lemma Runs(code: seq<(nat, nat)>, s: Cpu, input: Input, steps: nat, t: Cpu, open: seq<int>) returns (u: Cpu, rest: seq<int>)
    requires Understood(code) && t == Run(s, input, steps) && open == Open(s, input, steps)
    requires t.memory == Program(code) && t.status.Running? && 0 <= t.counter < |code| && CanCall(t.core)
    ensures u == Next(code, t) == Run(s, input, steps + 1) && rest == NextOpen(code, t, open) == Open(s, input, steps + 1)
  {
    hide Step, Calling, Ending, Program, Next;
    NextIs(code, t, input);
    u, rest := Next(code, t), NextOpen(code, t, open);
  }

  lemma RunsFrom(s: Cpu, input: Input)
    ensures Run(s, input, 0) == s && Open(s, input, 0) == []
  {
  }

  /** The CAEQ at 0, taken the second time, is the inner of two open calls. */
  const LOST_INSIDE: seq<(nat, nat)> :=
    [(0x43, 5),  // 0  CAEQ 5
     (0x20, 0),  // 1  COMP R0 R0
     (0x40, 4),  // 2  CALL 4
     (0xff, 0),  // 3  HALT
     (0x30, 0),  // 4  BR 0
     (0x40, 7),  // 5  CALL 7
     (0x4f, 0),  // 6  END
     (0x4f, 0)]  // 7  END

  /** Its END goes on at 3, behind the outer call, instead of at 1. */
  lemma InnerCallFromZeroRun(input: Input)
    ensures var s := Start(Program(LOST_INSIDE), 8); Open(s, input, 7) == [2, 0] && Ending(Run(s, input, 7)) && Run(s, input, 8).counter == 3
  {
    hide Step, Calling, Ending, Program, Run, Open;
    var code, s := LOST_INSIDE, Start(Program(LOST_INSIDE), 8);
    RunsFrom(s, input);
    var t, open := Runs(code, s, input, 0, s, []);
    t, open := Runs(code, s, input, 1, t, open);
    t, open := Runs(code, s, input, 2, t, open);
    t, open := Runs(code, s, input, 3, t, open);
    t, open := Runs(code, s, input, 4, t, open);
    t, open := Runs(code, s, input, 5, t, open);
    t, open := Runs(code, s, input, 6, t, open);
    NextIs(code, t, input);
    t, open := Runs(code, s, input, 7, t, open);
  }

  /** The first instruction calls a subroutine that makes two calls, one within the other. */
  const LOST_OUTSIDE: seq<(nat, nat)> :=
    [(0x40, 2),  // 0  CALL 2
     (0xff, 0),  // 1  HALT
     (0x40, 4),  // 2  CALL 4
     (0x4f, 0),  // 3  END
     (0x40, 6),  // 4  CALL 6
     (0x4f, 0),  // 5  END
     (0x4f, 0)]  // 6  END

  /** Its END goes on at 3, behind the call at 2 that has ended already, instead of at 1. */
  lemma OutermostCallFromZeroRun(input: Input)
    ensures var s := Start(Program(LOST_OUTSIDE), 7); Open(s, input, 5) == [0] && Ending(Run(s, input, 5)) && Run(s, input, 6).counter == 3
  {
    hide Step, Calling, Ending, Program, Run, Open;
    var code, s := LOST_OUTSIDE, Start(Program(LOST_OUTSIDE), 7);
    RunsFrom(s, input);
    var t, open := Runs(code, s, input, 0, s, []);
    t, open := Runs(code, s, input, 1, t, open);
    t, open := Runs(code, s, input, 2, t, open);
    t, open := Runs(code, s, input, 3, t, open);
    t, open := Runs(code, s, input, 4, t, open);
    NextIs(code, t, input);
    t, open := Runs(code, s, input, 5, t, open);
  }
}

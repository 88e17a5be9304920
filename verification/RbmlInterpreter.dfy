// The meaning of an assembly program, told on its statements and labels, and that the assembled words have this meaning.
module RbmlInterpreter {
  import opened RbmlWord
  import opened RbmlSource
  import opened RbmlCpu

  /** What the lexer lets through: each opcode with its operands, and registers R0 to R15. */
  predicate Lexed(s: Statement) {
    match s
    case Data(_) => true
    case Plain(op) => op in {0x4f, 0xff, 0xee}
    case Address(op, _) => 0x30 <= op < 0x36 || 0x40 <= op < 0x46
    case Register(op, r) => op == 0x16 && 0 <= r < REGISTERS
    case Registers(op, r, q) =>
      op in {0xa0, 0xa3, 0xa6, 0xa9, 0xac, 0x10, 0x13, 0x20, 0x19, 0x1c, 0x06} && 0 <= r < REGISTERS && 0 <= q < REGISTERS
    case RegisterAddress(op, r, _) => op in {0x00, 0x03} && 0 <= r < REGISTERS
    case NumberRegister(op, _, q) => op in {0xb1, 0xb4, 0x07} && 0 <= q < REGISTERS
  }

  /** Wrong: the program executes or overwrites something it should not, or reads outside memory. Gone: it ran off its end, or returned to nowhere. */
  datatype Progress = Going | Done(code: nat) | Gone | Wrong

  /** The registers, the contents of the data lines, and the statement to execute next. */
  datatype State = State(core: Core, data: map<nat, Word>, at: int, progress: Progress)

  /** A program all of whose references have labels, with 16-bit addresses. */
  ghost predicate Sound(p: Scanned) {
    forall s <- p.statements :: Lexed(s) && (s.Address? || s.RegisterAddress? ==> s.name in p.labels && p.labels[s.name] < 0x1_0000)
  }

  function InitialData(p: Scanned): map<nat, Word> {
    map i: nat | i < |p.statements| && p.statements[i].Data? :: Wrap(p.statements[i].number)
  }

  function Go(p: Scanned, s: State, at: int): State {
    s.(at := at, progress := if 0 <= at < |p.statements| then Going else Gone)
  }

  function Initial(p: Scanned): State {
    Go(p, State(Fresh(), InitialData(p), 0, Going), 0)
  }

  /** What a label's place holds: data, or the word of the statement there, or nothing yet behind the program. */
  function Content(p: Scanned, data: map<nat, Word>, i: nat): Word {
    if i in data then data[i] else if i < |p.statements| then Resolved(p, p.statements[i]) else 0
  }

  function OperationOf(op: int): Operation {
    match op
    case 0xa0 => Add
    case 0xa3 => Sub
    case 0xa6 => Div
    case 0xa9 => Mult
    case 0xac => Mod
    case 0x10 => Cjnt
    case 0x13 => Djnt
    case 0x19 => Lsft
    case _ => Rsft
  }

  /** Branches and calls go to labels. */
  function Jump(p: Scanned, s: State, op: int, target: nat): State
    requires 0x30 <= op < 0x36 || 0x40 <= op < 0x46
  {
    var c := s.core;
    if op < 0x40 then Go(p, s, if BranchTaken(c, op - 0x30) then target else s.at + 1)
    else if !CallTaken(c, op - 0x40) then Go(p, s, s.at + 1)
    else if CanCall(c) then Go(p, s.(core := Called(c, s.at)), target)
    else s.(progress := Wrong)
  }

  function StoreOrLoad(p: Scanned, size: nat, s: State, op: int, r: nat, place: nat): State
    requires r < REGISTERS
  {
    if op == 0x00 then
      if place in s.data then Go(p, s.(data := s.data[place := s.core.reg[r]]), s.at + 1) else s.(progress := Wrong)
    else if place < size then Go(p, s.(core := Put(s.core, r, Content(p, s.data, place))), s.at + 1)
    else s.(progress := Wrong)
  }

  function Registered(c: Core, op: int, r: nat, q: nat): Core
    requires r < REGISTERS && q < REGISTERS
  {
    if op == 0x06 then Put(c, q, c.reg[r])
    else if op == 0x20 then Compare(c, c.reg[r], c.reg[q])
    else Compute(c, OperationOf(op), c.reg[r], c.reg[q])
  }

  /** A number, of which four bits count, and a register: console input and output, and moving the accumulator. */
  function Numbered(c: Core, op: int, number: int, q: nat, input: Input): Core
    requires q < REGISTERS
  {
    if op == 0xb1 then var (d, w) := Read(c, input); Put(d, q, w)
    else if op == 0xb4 then Written(c, number % 0x10, c.reg[q])
    else MoveAccumulator(c, number % 0x10, q)
  }

  /** One statement. */
  function Advance(p: Scanned, size: nat, s: State, input: Input): State
    requires s.progress.Going? ==> 0 <= s.at < |p.statements|
    requires s.progress.Going? ==> var x := p.statements[s.at]; Lexed(x) && (x.Address? || x.RegisterAddress? ==> x.name in p.labels)
  {
    if !s.progress.Going? then s
    else
      match p.statements[s.at]
      case Data(_) => s.(progress := Wrong)
      case Plain(op) =>
        if op == 0x4f then Go(p, s.(core := Returned(s.core)), Signed(s.core.jump) + 1)
        else s.(progress := Done(if op == 0xff then 0 else 2))
      case Address(op, name) => Jump(p, s, op, p.labels[name])
      case Register(_, r) => Go(p, s.(core := Compute(s.core, Comp, s.core.reg[r], 0)), s.at + 1)
      case Registers(op, r, q) => Go(p, s.(core := Registered(s.core, op, r, q)), s.at + 1)
      case RegisterAddress(op, r, name) => StoreOrLoad(p, size, s, op, r, p.labels[name])
      case NumberRegister(op, n, q) => Go(p, s.(core := Numbered(s.core, op, n, q, input)), s.at + 1)
  }

  function Interpret(p: Scanned, size: nat, input: Input, steps: nat): (s: State)
    requires Sound(p)
    ensures s.progress.Going? ==> 0 <= s.at < |p.statements|
  {
    if steps == 0 then Initial(p) else Advance(p, size, Interpret(p, size, input, steps - 1), input)
  }

  /** The machine stands where the program stands. */
  predicate SamePlace(size: nat, s: State, m: Cpu) {
    match s.progress
    case Going => m.status.Running? && m.counter == s.at
    case Done(code) => m.status == Exited(code)
    case Gone => m.counter == s.at && m.status == (if 0 <= s.at < size then Running else Outside)
    case Wrong => true
  }

  ghost predicate SameMemory(p: Scanned, data: map<nat, Word>, memory: seq<Word>) {
    forall i | 0 <= i < |memory| :: memory[i] == Content(p, data, i)
  }

  /** Same registers, the same contents everywhere, the same place. */
  ghost predicate Simulates(p: Scanned, size: nat, s: State, m: Cpu) {
    |m.memory| == size && m.core == s.core && SameMemory(p, s.data, m.memory) && SamePlace(size, s, m)
  }

  /** Only data lines have changed. */
  ghost predicate DataLines(p: Scanned, s: State) {
    forall i :: i in s.data <==> 0 <= i < |p.statements| && p.statements[i].Data?
  }

  /** The fields of the word of a statement. */
  function Field1(s: Statement): nat
    requires Lexed(s)
  {
    if s.NumberRegister? then s.number % 0x10 else if s.Register? || s.Registers? || s.RegisterAddress? then s.r else 0
  }

  function Field2(s: Statement): nat
    requires Lexed(s)
  {
    if s.NumberRegister? || s.Registers? then s.q else 0
  }

  function Field3(p: Scanned, s: Statement): nat {
    if (s.Address? || s.RegisterAddress?) && s.name in p.labels then p.labels[s.name] else 0
  }

  /** The word at the place of a statement decodes to it. */
  lemma Fetched(p: Scanned, s: Statement)
    requires Lexed(s) && !s.Data?
    requires (s.Address? || s.RegisterAddress? ==> s.name in p.labels && p.labels[s.name] < 0x1_0000)
    ensures Opcode(Resolved(p, s)) == s.op && Arg1(Resolved(p, s)) == Field1(s)
    ensures Arg2(Resolved(p, s)) == Field2(s) && Arg3(Resolved(p, s)) == Field3(p, s)
  {
    hide Opcode, Arg1, Arg2, Arg3, Inst;
    match s
    case Plain(op) => DecodeEncode(op, 0, 0, 0);
    case Address(op, name) => DecodeEncode(op, 0, 0, p.labels[name]);
    case Register(op, r) => DecodeEncode(op, r, 0, 0);
    case Registers(op, r, q) => DecodeEncode(op, r, q, 0);
    case RegisterAddress(op, r, name) => DecodeEncode(op, r, 0, p.labels[name]);
    case NumberRegister(op, n, q) => DecodeEncode(op, n, q, 0);
  }

  /** A machine about to count up to at is where the program goes on at at. */
  lemma Counted(p: Scanned, size: nat, s: State, t: Cpu, at: int)
    requires |p.statements| <= size && |t.memory| == size && t.core == s.core && SameMemory(p, s.data, t.memory)
    requires t.status.Running? && t.counter + 1 == at
    ensures Simulates(p, size, Go(p, s, at), Count(t))
  {
  }

  /** Instructions on registers only. */
  lemma RegisterStep(p: Scanned, x: Statement, m: Cpu, input: Input)
    requires Lexed(x) && (x.Register? || x.Registers? || x.NumberRegister?)
    ensures var c := m.core;
      Execute(m, x.op, Field1(x), Field2(x), 0, input) ==
        m.(core := if x.Register? then Compute(c, Comp, c.reg[x.r], 0)
                   else if x.Registers? then Registered(c, x.op, x.r, x.q) else Numbered(c, x.op, x.number, x.q, input))
  {
    hide Compare, Put, Read, Written, SumOverflows, ProductOverflows, And, Or, ShiftLeft, ShiftRight, TruncatedDiv, TruncatedMod;
  }

  /** Branches and calls: setting the counter one below the address, and counting, is going to the label. */
  lemma JumpStep(p: Scanned, size: nat, s: State, m: Cpu, x: Statement, input: Input)
    requires Lexed(x) && x.Address? && x.name in p.labels && |p.statements| <= size
    requires Simulates(p, size, s, m) && s.progress.Going?
    ensures var t := Jump(p, s, x.op, p.labels[x.name]);
      !t.progress.Wrong? ==> Simulates(p, size, t, Count(Execute(m, x.op, 0, 0, p.labels[x.name], input)))
  {
    hide Called, CanCall, BranchTaken, CallTaken, SameMemory, Content;
    var target := p.labels[x.name];
    var t := Execute(m, x.op, 0, 0, target, input);
    if x.op < 0x40 {
      Counted(p, size, s, t, if BranchTaken(s.core, x.op - 0x30) then target else s.at + 1);
    } else if !CallTaken(s.core, x.op - 0x40) {
      Counted(p, size, s, t, s.at + 1);
    } else if CanCall(s.core) {
      Counted(p, size, s.(core := Called(s.core, s.at)), t, target);
    }
  }

  /** Stores and loads: the place of a label is its address. */
  lemma StoreOrLoadStep(p: Scanned, size: nat, s: State, m: Cpu, x: Statement, input: Input)
    requires Lexed(x) && x.RegisterAddress? && x.name in p.labels && |p.statements| <= size && DataLines(p, s)
    requires Simulates(p, size, s, m) && s.progress.Going?
    ensures var t := StoreOrLoad(p, size, s, x.op, x.r, p.labels[x.name]);
      !t.progress.Wrong? ==> Simulates(p, size, t, Count(Execute(m, x.op, x.r, 0, p.labels[x.name], input))) && DataLines(p, t)
  {
    var place := p.labels[x.name];
    var t := Execute(m, x.op, x.r, 0, place, input);
    if x.op == 0x00 {
      if place in s.data {
        var u := s.(data := s.data[place := s.core.reg[x.r]]);
        forall i | 0 <= i < size ensures t.memory[i] == Content(p, u.data, i) {
          assert m.memory[i] == Content(p, s.data, i);
        }
        Counted(p, size, u, t, s.at + 1);
      }
    } else if place < size {
      assert m.memory[place] == Content(p, s.data, place);
      Counted(p, size, s.(core := Put(s.core, x.r, Content(p, s.data, place))), t, s.at + 1);
    }
  }

  /** One statement and one turn of the machine's loop keep step. */
  lemma StepSimulates(p: Scanned, size: nat, s: State, m: Cpu, input: Input)
    requires Sound(p) && |p.statements| <= size && DataLines(p, s) && Simulates(p, size, s, m)
    requires s.progress.Going? && 0 <= s.at < |p.statements|
    ensures var x := p.statements[s.at]; Lexed(x) && (x.Address? || x.RegisterAddress? ==> x.name in p.labels)
    ensures var t := Advance(p, size, s, input); !t.progress.Wrong? ==> DataLines(p, t) && Simulates(p, size, t, Step(m, input))
  {
    hide Execute, Compute, Registered, Numbered, Resolved, Lexed, SameMemory;
    var x := p.statements[s.at];
    assert x in p.statements;
    if !x.Data? {
      assert m.memory[s.at] == Resolved(p, x) by { AtStatement(p, size, s, m); }
      Fetched(p, x);
      if x.Plain? {
        PlainStep(p, size, s, m, x, input);
      } else if x.Address? {
        JumpStep(p, size, s, m, x, input);
      } else if x.RegisterAddress? {
        StoreOrLoadStep(p, size, s, m, x, input);
      } else {
        RegisterStep(p, x, m, input);
        var t := Execute(m, x.op, Field1(x), Field2(x), 0, input);
        Counted(p, size, s.(core := t.core), t, s.at + 1);
      }
    }
  }

  lemma AtStatement(p: Scanned, size: nat, s: State, m: Cpu)
    requires Simulates(p, size, s, m) && DataLines(p, s) && 0 <= s.at < |p.statements| <= size
    requires !p.statements[s.at].Data?
    ensures m.memory[s.at] == Resolved(p, p.statements[s.at])
  {
  }

  lemma PlainStep(p: Scanned, size: nat, s: State, m: Cpu, x: Statement, input: Input)
    requires Lexed(x) && x.Plain? && |p.statements| <= size && Simulates(p, size, s, m) && s.progress.Going?
    ensures var t := Execute(m, x.op, 0, 0, 0, input);
      if x.op == 0x4f then Simulates(p, size, Go(p, s.(core := Returned(s.core)), Signed(s.core.jump) + 1), Count(t))
      else Simulates(p, size, s.(progress := Done(if x.op == 0xff then 0 else 2)), Count(t))
  {
    if x.op == 0x4f {
      Counted(p, size, s.(core := Returned(s.core)), Execute(m, x.op, 0, 0, 0, input), Signed(s.core.jump) + 1);
    }
  }

  lemma {:induction false} AllResolved(statements: seq<Statement>, labels: map<string, nat>)
    ensures Unresolved(statements, labels) == 0 <==> forall s <- statements :: s.Address? || s.RegisterAddress? ==> s.name in labels
  {
    if statements != [] {
      var n := |statements| - 1;
      AllResolved(statements[..n], labels);
      assert statements == statements[..n] + [statements[n]];
    }
  }

  lemma {:induction false} LabelsInside(lines: seq<Line>)
    ensures forall name <- Scan(lines).labels :: Scan(lines).labels[name] <= |Scan(lines).statements|
  {
    if lines != [] { LabelsInside(lines[..|lines| - 1]); }
  }

  /** A program that the lexer lets through and the assembler reports no error for is sound if it has at most 65535 words;
      with 65536 words it is sound if and only if nothing refers to a label behind the last of them. */
  lemma NoErrorsSound(lines: seq<Line>)
    requires Errors(lines) == 0 && |TwoPass(lines)| <= 0x1_0000
    requires forall s <- Scan(lines).statements :: Lexed(s)
    ensures |TwoPass(lines)| < 0x1_0000 ==> Sound(Scan(lines))
    ensures Sound(Scan(lines)) <==>
      forall s <- Scan(lines).statements :: s.Address? || s.RegisterAddress? ==> s.name in Scan(lines).labels && Scan(lines).labels[s.name] != 0x1_0000
  {
    AllResolved(Scan(lines).statements, Scan(lines).labels);
    LabelsInside(lines);
  }

  /** A label behind 65536 words is out of reach: a branch to it goes to address 0. */
  lemma FullProgramBreaks(p: Scanned, name: string)
    requires name in p.labels && p.labels[name] == 0x1_0000
    ensures Arg3(Resolved(p, Address(0x30, name))) == 0
  {
    hide Arg3, Inst;
    DecodeEncode(0x30, 0, 0, 0x1_0000);
  }

  /** The assembled words mean what the program says: as long as the program is in control and does not go wrong,
      the machine that has loaded them is after every number of steps exactly where the program is. */
  lemma {:induction false} AssemblyPreservesMeaning(lines: seq<Line>, size: nat, input: Input, steps: nat)
    requires var p := Scan(lines); Sound(p) && |p.statements| <= size && 0 < size
    requires steps > 0 ==> var s := Interpret(Scan(lines), size, input, steps - 1); s.progress.Going? || s.progress.Done?
    ensures var p := Scan(lines);
      var s := Interpret(p, size, input, steps);
      !s.progress.Wrong? ==> DataLines(p, s) && Simulates(p, size, s, Run(Start(TwoPass(lines), size), input, steps))
  {
    hide Advance, Step, Simulates, DataLines, Initial, Start, Words, Scan, Sound;
    var p := Scan(lines);
    if steps == 0 {
      StartSimulates(p, size);
    } else {
      var s := Interpret(p, size, input, steps - 1);
      if steps > 1 {
        BeforeGoing(p, size, input, steps - 1);
      }
      AssemblyPreservesMeaning(lines, size, input, steps - 1);
      if s.progress.Going? {
        StepSimulates(p, size, s, Run(Start(TwoPass(lines), size), input, steps - 1), input);
      } else {
        DoneStays(p, size, s, Run(Start(TwoPass(lines), size), input, steps - 1), input);
      }
    }
  }

  lemma DoneStays(p: Scanned, size: nat, s: State, m: Cpu, input: Input)
    requires Simulates(p, size, s, m) && s.progress.Done?
    ensures Advance(p, size, s, input) == s && Step(m, input) == m
  {
  }

  /** A program still in control, or properly ended, was so before. */
  lemma BeforeGoing(p: Scanned, size: nat, input: Input, steps: nat)
    requires Sound(p) && steps > 0
    requires var s := Interpret(p, size, input, steps); s.progress.Going? || s.progress.Done?
    ensures var s := Interpret(p, size, input, steps - 1); s.progress.Going? || s.progress.Done?
  {
  }

  lemma StartSimulates(p: Scanned, size: nat)
    requires |p.statements| <= size && 0 < size
    ensures DataLines(p, Initial(p)) && Simulates(p, size, Initial(p), Start(Words(p), size))
  {
    var m := Start(Words(p), size);
    forall i | 0 <= i < size ensures m.memory[i] == Content(p, InitialData(p), i) {
    }
  }
}

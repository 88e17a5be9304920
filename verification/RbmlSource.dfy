// Assembly source as parsed lines, and the assembler that reads it twice: first all labels, then all words.
module RbmlSource {
  import opened Options
  import opened RbmlWord

  /** An instruction by its operands: none, an address, a register, two registers, a register and an address, a number and a register. */
  datatype Statement =
    | Data(number: int)
    | Plain(op: int)
    | Address(op: int, name: string)
    | Register(op: int, r: int)
    | Registers(op: int, r: int, q: int)
    | RegisterAddress(op: int, r: int, name: string)
    | NumberRegister(op: int, number: int, q: int)

  type LineNumber = n: nat | n > 0 witness 1

  /** A place in the text waiting for the address of a name, and the line that wrote it. */
  datatype Ref = Ref(line: LineNumber, offset: nat)

  datatype Line = Line(number: LineNumber, define: Option<string>, statement: Option<Statement>)

  predicate Names(s: Statement, name: string) {
    (s.Address? || s.RegisterAddress?) && s.name == name
  }

  /** The word of a statement whose address, if it has one, is at address. */
  function Encode(s: Statement, address: int): Word {
    match s
    case Data(n) => Wrap(n)
    case Plain(op) => Inst(op, 0, 0, 0)
    case Address(op, _) => Inst(op, 0, 0, address)
    case Register(op, r) => Inst(op, r, 0, 0)
    case Registers(op, r, q) => Inst(op, r, q, 0)
    case RegisterAddress(op, r, _) => Inst(op, r, 0, address)
    case NumberRegister(op, n, q) => Inst(op, n, q, 0)
  }

  /** What the first reading finds: the statements, the position of every label, and the labels that were there before. */
  datatype Scanned = Scanned(statements: seq<Statement>, labels: map<string, nat>, duplicates: nat)

  function Found(s: Option<Statement>): seq<Statement> {
    if s.Some? then [s.value] else []
  }

  function ScanLine(p: Scanned, line: Line): Scanned {
    if line.define.None? then p.(statements := p.statements + Found(line.statement))
    else if line.define.value in p.labels then p.(duplicates := p.duplicates + 1)
    else Scanned(p.statements + Found(line.statement), p.labels[line.define.value := |p.statements|], p.duplicates)
  }

  /** A line that defines a label again is an error and is dropped. */
  function Scan(lines: seq<Line>): Scanned {
    if lines == [] then Scanned([], map[], 0) else ScanLine(Scan(lines[..|lines| - 1]), lines[|lines| - 1])
  }

  /** The first statement that refers to name, or the end. */
  function FirstReference(statements: seq<Statement>, name: string): (i: nat)
    ensures i <= |statements|
    ensures i < |statements| ==> Names(statements[i], name)
    ensures forall j :: 0 <= j < i ==> !Names(statements[j], name)
  {
    if statements == [] then 0
    else
      var i := FirstReference(statements[..|statements| - 1], name);
      if i < |statements| - 1 || Names(statements[|statements| - 1], name) then i else |statements|
  }

  /** The address of a name: the position of its label, or, if it has none, of the first statement that refers to it. */
  function Resolve(p: Scanned, name: string): nat {
    if name in p.labels then p.labels[name] else FirstReference(p.statements, name)
  }

  function Resolved(p: Scanned, s: Statement): Word {
    Encode(s, if s.Address? || s.RegisterAddress? then Resolve(p, s.name) else 0)
  }

  /** The second reading. */
  function Words(p: Scanned): (text: seq<Word>)
    ensures |text| == |p.statements|
  {
    seq(|p.statements|, i requires 0 <= i < |p.statements| => Resolved(p, p.statements[i]))
  }

  function TwoPass(lines: seq<Line>): seq<Word> {
    Words(Scan(lines))
  }

  /** The positions of the statements that refer to name, last one first. */
  function References(statements: seq<Statement>, name: string): seq<nat> {
    if statements == [] then []
    else
      var n := |statements| - 1;
      (if Names(statements[n], name) then [n] else []) + References(statements[..n], name)
  }

  /** The references that no label resolves. */
  function Unresolved(statements: seq<Statement>, labels: map<string, nat>): nat {
    if statements == [] then 0
    else
      var n := |statements| - 1;
      var s := statements[n];
      Unresolved(statements[..n], labels) + if (s.Address? || s.RegisterAddress?) && s.name !in labels then 1 else 0
  }

  /** The number of errors the assembler reports. */
  function Errors(lines: seq<Line>): nat {
    Scan(lines).duplicates + Unresolved(Scan(lines).statements, Scan(lines).labels)
  }

  lemma {:induction false} ReferencesAre(statements: seq<Statement>, name: string)
    ensures forall i :: i in References(statements, name) <==> 0 <= i < |statements| && Names(statements[i], name)
  {
    if statements != [] { ReferencesAre(statements[..|statements| - 1], name); }
  }

  /** A name that is referred to keeps its first reference; a new one gets the next position. */
  lemma FirstReferenceStays(statements: seq<Statement>, s: Statement, name: string)
    ensures FirstReference(statements + [s], name) ==
      if FirstReference(statements, name) < |statements| || Names(s, name) then FirstReference(statements, name) else |statements| + 1
  {
    assert (statements + [s])[..|statements|] == statements;
  }

  lemma ReferencesAdd(statements: seq<Statement>, s: Statement, name: string)
    ensures References(statements + [s], name) == (if Names(s, name) then [|statements|] else []) + References(statements, name)
  {
    assert (statements + [s])[..|statements|] == statements;
  }

  /** Line i defines a label that an earlier line defines. */
  ghost predicate Again(lines: seq<Line>, i: nat)
    requires i < |lines|
  {
    lines[i].define.Some? && exists j | 0 <= j < i :: lines[j].define == lines[i].define
  }

  /** How many words the lines before line n make: one for each statement, but none for a line that defines a label again. */
  ghost function WordsBefore(lines: seq<Line>, n: nat): nat
    requires n <= |lines|
  {
    if n == 0 then 0 else WordsBefore(lines, n - 1) + if lines[n-1].statement.Some? && !Again(lines, n - 1) then 1 else 0
  }

  ghost function AgainBefore(lines: seq<Line>, n: nat): nat
    requires n <= |lines|
  {
    if n == 0 then 0 else AgainBefore(lines, n - 1) + if Again(lines, n - 1) then 1 else 0
  }

  lemma LastLine(lines: seq<Line>, n: nat)
    requires 0 < n <= |lines|
    ensures Scan(lines[..n]) == ScanLine(Scan(lines[..n-1]), lines[n-1])
  {
    assert lines[..n][..n-1] == lines[..n-1];
  }

  /** The names with labels are those of the lines read, and a line defines a label again exactly if its name is one of them. */
  lemma {:induction false} LabelsFound(lines: seq<Line>, n: nat)
    requires n <= |lines|
    ensures forall name: string :: name in Scan(lines[..n]).labels <==> exists i | 0 <= i < n :: lines[i].define == Some(name)
    ensures n < |lines| && lines[n].define.Some? ==> (lines[n].define.value in Scan(lines[..n]).labels <==> Again(lines, n))
  {
    if n > 0 {
      LabelsFound(lines, n - 1);
      LastLine(lines, n);
      hide Scan;
      forall name: string ensures name in Scan(lines[..n]).labels <==> exists i | 0 <= i < n :: lines[i].define == Some(name) {
        assert name in Scan(lines[..n]).labels <==> name in Scan(lines[..n-1]).labels || lines[n-1].define == Some(name);
      }
    }
  }

  /** The first reading counts the words and the labels defined again. */
  lemma {:induction false} WordsCounted(lines: seq<Line>, n: nat)
    requires n <= |lines|
    ensures var p := Scan(lines[..n]); |p.statements| == WordsBefore(lines, n) && p.duplicates == AgainBefore(lines, n)
  {
    if n > 0 {
      WordsCounted(lines, n - 1);
      LabelsFound(lines, n - 1);
      LastLine(lines, n);
      hide Scan, Again;
    }
  }

  /** Each statement that counts is the word of its number, and each label the number of the word behind it. */
  lemma {:induction false} ScanFinds(lines: seq<Line>, n: nat, i: nat)
    requires i < n <= |lines| && !Again(lines, i)
    ensures var p, line, at := Scan(lines[..n]), lines[i], WordsBefore(lines, i);
      && (line.statement.Some? ==> at < |p.statements| && p.statements[at] == line.statement.value)
      && (line.define.Some? ==> line.define.value in p.labels && p.labels[line.define.value] == at)
  {
    LastLine(lines, n);
    LabelsFound(lines, n - 1);
    WordsCounted(lines, n - 1);
    hide Scan, Again;
    if i < n - 1 { ScanFinds(lines, n - 1, i); }
  }
}

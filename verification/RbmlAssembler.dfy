// The assembler as it works: one reading, with a list of places to patch for every name that has no label yet.
module RbmlAssembler {
  import opened Options
  import opened RbmlWord
  import opened RbmlSource

  /** What is known of a name: the line of its label (0 while there is none), its address, and the places waiting for it. */
  datatype Entry = Entry(line: nat, offset: nat, refs: seq<Ref>)

  datatype Assembly = Assembly(text: seq<Word>, symbols: map<string, Entry>, errors: nat)

  /** symbol_define: every waiting place gets the address. */
  function Patch(text: seq<Word>, refs: seq<Ref>, offset: nat): (r: seq<Word>)
    ensures |r| == |text|
    decreases refs
  {
    if refs == [] then text
    else if refs[0].offset < |text| then
      Patch(text[refs[0].offset := SetArg3(text[refs[0].offset], offset)], refs[1..], offset)
    else Patch(text, refs[1..], offset)
  }

  /** code_symbol_ref */
  function Refer(a: Assembly, name: string, line: LineNumber): (r: Assembly)
    ensures name in r.symbols
  {
    var e := if name in a.symbols then a.symbols[name] else Entry(0, |a.text|, []);
    var f := if e.line == 0 then e.(refs := [Ref(line, |a.text|)] + e.refs) else e;
    a.(symbols := a.symbols[name := f])
  }

  function Emit(a: Assembly, s: Statement, line: LineNumber): Assembly {
    if s.Address? || s.RegisterAddress? then
      var b := Refer(a, s.name, line);
      b.(text := b.text + [Encode(s, b.symbols[s.name].offset)])
    else a.(text := a.text + [Encode(s, 0)])
  }

  function EmitFound(a: Assembly, s: Option<Statement>, line: LineNumber): Assembly {
    if s.Some? then Emit(a, s.value, line) else a
  }

  function Define(a: Assembly, name: string, line: LineNumber): Assembly {
    var e := Entry(line, |a.text|, []);
    if name !in a.symbols then a.(symbols := a.symbols[name := e])
    else Assembly(Patch(a.text, a.symbols[name].refs, |a.text|), a.symbols[name := e], a.errors)
  }

  /** The grammar's actions for one line. */
  function AssembleLine(a: Assembly, line: Line): Assembly {
    if line.define.None? then EmitFound(a, line.statement, line.number)
    else
      var name := line.define.value;
      if name in a.symbols && a.symbols[name].line != 0 then a.(errors := a.errors + 1)
      else EmitFound(Define(a, name, line.number), line.statement, line.number)
  }

  function Assemble(lines: seq<Line>): Assembly {
    if lines == [] then Assembly([], map[], 0)
    else AssembleLine(Assemble(lines[..|lines| - 1]), lines[|lines| - 1])
  }

  function Offsets(refs: seq<Ref>): seq<nat> {
    if refs == [] then [] else [refs[0].offset] + Offsets(refs[1..])
  }

  /** What the table must say of a name: its label's address and nothing pending, or exactly the places that name it. */
  ghost predicate Recorded(a: Assembly, p: Scanned, name: string) {
    if name in p.labels then
      name in a.symbols && a.symbols[name].line > 0 && a.symbols[name].offset == p.labels[name] && a.symbols[name].refs == []
    else if References(p.statements, name) == [] then name !in a.symbols
    else
      && name in a.symbols && a.symbols[name].line == 0
      && a.symbols[name].offset == FirstReference(p.statements, name)
      && Offsets(a.symbols[name].refs) == References(p.statements, name)
  }

  /** After any part of the source, the one reading has produced what two readings of that part produce. */
  ghost predicate Agrees(a: Assembly, p: Scanned) {
    && a.text == Words(p)
    && a.errors == p.duplicates
    && forall name: string :: Recorded(a, p, name)
  }

  lemma {:induction false} PatchAt(text: seq<Word>, refs: seq<Ref>, offset: nat, i: nat)
    requires i < |text|
    ensures Patch(text, refs, offset)[i] == if i in Offsets(refs) then SetArg3(text[i], offset) else text[i]
    decreases refs
  {
    if refs != [] {
      var next := if refs[0].offset < |text| then text[refs[0].offset := SetArg3(text[refs[0].offset], offset)] else text;
      PatchAt(next, refs[1..], offset, i);
    }
  }

  lemma EncodePatched(s: Statement, before: nat, after: nat)
    requires s.Address? || s.RegisterAddress?
    ensures SetArg3(Encode(s, before), after) == Encode(s, after)
  {
    match s
    case Address(op, _) => Patched(op, 0, 0, before, after);
    case RegisterAddress(op, r, _) => Patched(op, r, 0, before, after);
    case _ =>
  }

  /** A new label: every pending reference to it is patched, and nothing else changes. */
  lemma DefineAgrees(a: Assembly, p: Scanned, name: string, line: LineNumber)
    requires Agrees(a, p) && name !in p.labels
    ensures Agrees(Define(a, name, line), p.(labels := p.labels[name := |p.statements|]))
  {
    var q := p.(labels := p.labels[name := |p.statements|]);
    var b := Define(a, name, line);
    assert Recorded(a, p, name);
    ReferencesAre(p.statements, name);
    forall i | 0 <= i < |b.text| ensures b.text[i] == Words(q)[i] {
      var s := p.statements[i];
      if name in a.symbols {
        PatchAt(a.text, a.symbols[name].refs, |a.text|, i);
      }
      if Names(s, name) {
        EncodePatched(s, Resolve(p, name), |a.text|);
      }
    }
    forall x: string ensures Recorded(b, q, x) {
      assert Recorded(a, p, x);
    }
  }

  lemma EmitAgrees(a: Assembly, p: Scanned, s: Statement, line: LineNumber)
    requires Agrees(a, p)
    ensures Agrees(Emit(a, s, line), p.(statements := p.statements + [s]))
  {
    var q := p.(statements := p.statements + [s]);
    var b := Emit(a, s, line);
    forall x: string ensures Recorded(b, q, x) {
      assert Recorded(a, p, x);
      FirstReferenceStays(p.statements, s, x);
      ReferencesAdd(p.statements, s, x);
      FirstReferenceExists(p.statements, x);
    }
    forall i | 0 <= i < |b.text| ensures b.text[i] == Words(q)[i] {
      if i < |a.text| {
        var t := p.statements[i];
        if t.Address? || t.RegisterAddress? {
          FirstReferenceStays(p.statements, s, t.name);
        }
      } else if s.Address? || s.RegisterAddress? {
        assert Recorded(b, q, s.name);
        assert s.name in q.labels || References(q.statements, s.name) != [] by { ReferencesAdd(p.statements, s, s.name); }
      }
    }
  }

  lemma FirstReferenceExists(statements: seq<Statement>, name: string)
    ensures FirstReference(statements, name) < |statements| <==> References(statements, name) != []
  {
    ReferencesAre(statements, name);
    var i := FirstReference(statements, name);
    if i < |statements| {
      assert i in References(statements, name);
    } else if References(statements, name) != [] {
      assert References(statements, name)[0] in References(statements, name);
    }
  }

  lemma LineAgrees(a: Assembly, p: Scanned, line: Line)
    requires Agrees(a, p)
    ensures Agrees(AssembleLine(a, line), ScanLine(p, line))
  {
    assert p.statements + [] == p.statements;
    if line.define.None? {
      if line.statement.Some? { EmitAgrees(a, p, line.statement.value, line.number); }
    } else {
      var name := line.define.value;
      assert Recorded(a, p, name);
      if name in p.labels {
        forall x: string ensures Recorded(AssembleLine(a, line), ScanLine(p, line), x) { assert Recorded(a, p, x); }
      } else {
        DefineAgrees(a, p, name, line.number);
        if line.statement.Some? {
          EmitAgrees(Define(a, name, line.number), p.(labels := p.labels[name := |p.statements|]), line.statement.value, line.number);
        }
      }
    }
  }

  /** One reading of any source does what two readings do, and while it is at work each undefined name waits at exactly the places that name it. */
  lemma {:induction false} OnePassIsTwoPass(lines: seq<Line>)
    ensures Agrees(Assemble(lines), Scan(lines))
    ensures Assemble(lines).text == TwoPass(lines)
  {
    if lines == [] {
      assert Assemble(lines).text == Words(Scan(lines));
    } else {
      OnePassIsTwoPass(lines[..|lines| - 1]);
      LineAgrees(Assemble(lines[..|lines| - 1]), Scan(lines[..|lines| - 1]), lines[|lines| - 1]);
    }
  }

  /** symbol_check_refs for each symbol in turn: one error for every place still waiting. */
  function Pending(a: Assembly, names: seq<string>): nat {
    if names == [] then 0
    else Pending(a, names[1..]) + if names[0] in a.symbols then |a.symbols[names[0]].refs| else 0
  }

  ghost predicate Lists(names: seq<string>, symbols: map<string, Entry>) {
    && (forall name: string :: name in names <==> name in symbols)
    && forall i, j :: 0 <= i < j < |names| ==> names[i] != names[j]
  }

  /** The references to the listed names that have no label. */
  function Waiting(statements: seq<Statement>, labels: map<string, nat>, names: seq<string>): nat {
    if names == [] then 0
    else Waiting(statements, labels, names[1..]) + if names[0] in labels then 0 else |References(statements, names[0])|
  }

  lemma {:induction false} PendingIsWaiting(a: Assembly, p: Scanned, names: seq<string>)
    requires Agrees(a, p)
    ensures Pending(a, names) == Waiting(p.statements, p.labels, names)
  {
    if names != [] {
      PendingIsWaiting(a, p, names[1..]);
      assert Recorded(a, p, names[0]);
      if names[0] in a.symbols { OffsetsLength(a.symbols[names[0]].refs); }
    }
  }

  lemma {:induction false} OffsetsLength(refs: seq<Ref>)
    ensures |Offsets(refs)| == |refs|
  {
    if refs != [] { OffsetsLength(refs[1..]); }
  }

  /** One more statement is one more reference to at most one of the names. */
  lemma {:induction false} WaitingGrows(statements: seq<Statement>, s: Statement, labels: map<string, nat>,
          names: seq<string>)
    requires forall i, j :: 0 <= i < j < |names| ==> names[i] != names[j]
    ensures Waiting(statements + [s], labels, names) == Waiting(statements, labels, names)
      + if (s.Address? || s.RegisterAddress?) && s.name !in labels && s.name in names then 1 else 0
  {
    if names != [] {
      WaitingGrows(statements, s, labels, names[1..]);
      ReferencesAdd(statements, s, names[0]);
    }
  }

  lemma {:induction false} NoneWaiting(labels: map<string, nat>, names: seq<string>)
    ensures Waiting([], labels, names) == 0
  {
    if names != [] { NoneWaiting(labels, names[1..]); }
  }

  lemma {:induction false} WaitingIsUnresolved(statements: seq<Statement>, labels: map<string, nat>, names: seq<string>)
    requires forall i, j :: 0 <= i < j < |names| ==> names[i] != names[j]
    requires forall i | 0 <= i < |statements| :: (statements[i].Address? || statements[i].RegisterAddress?) && statements[i].name !in labels ==> statements[i].name in names
    ensures Waiting(statements, labels, names) == Unresolved(statements, labels)
  {
    if statements == [] {
      NoneWaiting(labels, names);
    } else {
      var n := |statements| - 1;
      WaitingIsUnresolved(statements[..n], labels, names);
      WaitingGrows(statements[..n], statements[n], labels, names);
      assert statements[..n] + [statements[n]] == statements;
    }
  }

  /** The errors are one for every label defined again and one for every reference to a name without a label. */
  lemma ErrorsReported(lines: seq<Line>, names: seq<string>)
    requires Lists(names, Assemble(lines).symbols)
    ensures Assemble(lines).errors + Pending(Assemble(lines), names) == Errors(lines)
  {
    var a, p := Assemble(lines), Scan(lines);
    OnePassIsTwoPass(lines);
    PendingIsWaiting(a, p, names);
    forall i | 0 <= i < |p.statements| && (p.statements[i].Address? || p.statements[i].RegisterAddress?)
      ensures p.statements[i].name in names
    {
      var name := p.statements[i].name;
      assert Recorded(a, p, name);
      ReferencesAre(p.statements, name);
      assert i in References(p.statements, name);
    }
    WaitingIsUnresolved(p.statements, p.labels, names);
  }

  /** Patching does not touch what lies behind the places patched. */
  lemma {:induction false} PatchPrefix(text: seq<Word>, refs: seq<Ref>, offset: nat, n: nat)
    requires n <= |text| && forall r <- refs :: r.offset < n
    ensures Patch(text, refs, offset)[..n] == Patch(text[..n], refs, offset)
    decreases refs
  {
    if refs != [] {
      var next := text[refs[0].offset := SetArg3(text[refs[0].offset], offset)];
      assert next[..n] == text[..n][refs[0].offset := SetArg3(text[refs[0].offset], offset)];
      PatchPrefix(next, refs[1..], offset, n);
    }
  }

  /** Only places already in the text wait for an address. */
  lemma WaitingInText(lines: seq<Line>, name: string)
    requires name in Assemble(lines).symbols
    ensures forall r <- Assemble(lines).symbols[name].refs :: r.offset < |Assemble(lines).text|
  {
    OnePassIsTwoPass(lines);
    assert Recorded(Assemble(lines), Scan(lines), name);
    ReferencesAre(Scan(lines).statements, name);
    OffsetsContain(Assemble(lines).symbols[name].refs);
  }

  lemma {:induction false} OffsetsContain(refs: seq<Ref>)
    ensures forall r <- refs :: r.offset in Offsets(refs)
  {
    if refs != [] { OffsetsContain(refs[1..]); }
  }
}

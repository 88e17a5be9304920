// The assembler's program code: growing text and a symbol table, filled in by the grammar's actions.
module RbmlCode {
  import opened RbmlWord
  import opened RbmlSource
  import opened RbmlAssembler
  import opened Symbols
  import opened RbTree
  import opened RbOrder

  const CODE_ALLOCATION_STEP := 100

  class Parser {
    var numErrors: nat

    constructor ()
      ensures numErrors == 0
    {
      numErrors := 0;
    }

    method Error()
      modifies this
      ensures numErrors == old(numErrors) + 1
    {
      numErrors := numErrors + 1;
    }
  }

  ghost predicate Describes(n: Symbol, e: Entry)
    reads n`line, n`offset, n`refs
  {
    n.line == e.line && n.offset == e.offset && n.refs == e.refs
  }

  ghost function Keys(s: set<Symbol>): set<string> {
    set n | n in s :: n.name
  }

  class Code {
    var text: array<Word>
    var size: nat
    const table: Head

    constructor ()
      ensures Holds(Assembly([], map[], 0))
      ensures fresh(text) && fresh(table) && fresh(table.nodes)
    {
      text := new Word[0];
      size := 0;
      table := new Head();
    }

    /** The text and the symbols are those of a. */
    ghost predicate Holds(a: Assembly)
      reads this, text, table, table.nodes
    {
      && table.Valid()
      && size <= text.Length && text[..size] == a.text
      && Keys(table.nodes) == a.symbols.Keys
      && forall n <- table.nodes :: n.name in a.symbols ==> Describes(n, a.symbols[n.name])
    }

    /** code_symbol_lookup */
    method Lookup(name: string, ghost a: Assembly) returns (s: Symbol?)
      requires Holds(a)
      ensures if s == null then name !in a.symbols
        else s in table.nodes && s.name == name && name in a.symbols && Describes(s, a.symbols[name])
    {
      hide Head.Valid, Head.Order;
      s := table.Find(name);
      table.OrderIsNodes();
      assert s != null ==> s.name in Keys(table.nodes);
    }

    /** code_symbol_add */
    method Add(name: string, line: nat, ghost a: Assembly) returns (s: Symbol)
      requires Holds(a) && name !in a.symbols
      modifies table, table.nodes
      ensures Holds(a.(symbols := a.symbols[name := Entry(line, |a.text|, [])]))
      ensures s in table.nodes && s.name == name && fresh(s) && table.nodes == old(table.nodes) + {s}
    {
      hide Head.Valid, Head.Order;
      s := new Symbol(name, line, size);
      ghost var nodes := table.nodes;
      table.OrderIsNodes();
      var found, k := table.Insert(s);
      table.OrderIsNodes();
      NoneFound(nodes, found, name);
      AddKey(nodes, s);
    }

    lemma NoneFound(nodes: set<Symbol>, found: Symbol?, name: string)
      requires name !in Keys(nodes) && (found != null ==> found in nodes && found.name == name)
      ensures found == null
    {
    }

    lemma AddKey(nodes: set<Symbol>, s: Symbol)
      ensures Keys(nodes + {s}) == Keys(nodes) + {s.name}
    {
    }

    /** code_symbol_ref */
    method Refer(name: string, line: LineNumber, ghost a: Assembly) returns (s: Symbol)
      requires Holds(a)
      modifies table, table.nodes
      ensures Holds(RbmlAssembler.Refer(a, name, line))
      ensures s in table.nodes && s.name == name && fresh(table.nodes - old(table.nodes))
    {
      hide Head.Valid, Head.Order;
      var found := Lookup(name, a);
      if found == null {
        s := Add(name, 0, a);
      } else {
        s := found;
      }
      table.OrderIsNodes();
      if s.line == 0 {
        s.Reference(line, size);
      }
    }

    /** code_symbol_define */
    method Define(s: Symbol, line: LineNumber, ghost a: Assembly)
      requires Holds(a) && s in table.nodes && s.name in a.symbols
      requires forall r <- a.symbols[s.name].refs :: r.offset < |a.text|
      modifies s`line, s`offset, s`refs, text
      ensures Holds(RbmlAssembler.Define(a, s.name, line))
    {
      hide Head.Valid, Head.Order;
      table.OrderIsNodes();
      PatchPrefix(text[..], s.refs, size, size);
      s.Define(line, size, text);
    }

    /** code_emit */
    method Emit(w: Word, ghost a: Assembly)
      requires Holds(a)
      modifies `text, `size, text
      ensures Holds(a.(text := a.text + [w]))
      ensures text == old(text) || fresh(text)
    {
      hide Head.Valid, Head.Order;
      if text.Length <= size {
        var larger := new Word[text.Length + CODE_ALLOCATION_STEP];
        forall i | 0 <= i < text.Length {
          larger[i] := text[i];
        }
        text := larger;
      }
      assert text[..size] == a.text;
      text[size] := w;
      size := size + 1;
    }

    /** The action for one statement of the grammar. */
    method Statement(s: Statement, line: LineNumber, ghost a: Assembly)
      requires Holds(a)
      modifies this, text, table, table.nodes
      ensures Holds(RbmlAssembler.Emit(a, s, line))
      ensures (text == old(text) || fresh(text)) && fresh(table.nodes - old(table.nodes))
    {
      hide Head.Valid, Head.Order;
      match s
      case Data(n) => Emit(Wrap(n), a);
      case Plain(op) => Emit(Inst(op, 0, 0, 0), a);
      case Address(op, name) =>
        var symbol := Refer(name, line, a);
        Emit(Inst(op, 0, 0, symbol.offset), RbmlAssembler.Refer(a, name, line));
      case Register(op, r) => Emit(Inst(op, r, 0, 0), a);
      case Registers(op, r, q) => Emit(Inst(op, r, q, 0), a);
      case RegisterAddress(op, r, name) =>
        var symbol := Refer(name, line, a);
        Emit(Inst(op, r, 0, symbol.offset), RbmlAssembler.Refer(a, name, line));
      case NumberRegister(op, n, q) => Emit(Inst(op, n, q, 0), a);
    }

    /** The action for a label; false, after an error, if the label is already defined. */
    method Label(name: string, line: LineNumber, parser: Parser, ghost lines: seq<Line>) returns (ok: bool)
      requires Holds(Assemble(lines))
      modifies this, text, table, table.nodes, parser
      ensures var a := Assemble(lines); ok <==> !(name in a.symbols && a.symbols[name].line != 0)
      ensures var a := Assemble(lines); Holds(if ok then RbmlAssembler.Define(a, name, line) else a.(errors := a.errors + 1))
      ensures parser.numErrors == old(parser.numErrors) + if ok then 0 else 1
      ensures text == old(text) && fresh(table.nodes - old(table.nodes))
    {
      ghost var a := Assemble(lines);
      var s := Lookup(name, a);
      if s == null {
        var added := Add(name, line, a);
      } else {
        if s.line != 0 {
          parser.Error();
          return false;
        }
        WaitingInText(lines, name);
        Define(s, line, a);
      }
      ok := true;
    }

    /** One line of the source, after the lines read before. */
    method Line(line: Line, parser: Parser, ghost lines: seq<Line>)
      requires Holds(Assemble(lines)) && parser.numErrors == Assemble(lines).errors
      modifies this, text, table, table.nodes, parser
      ensures Holds(Assemble(lines + [line])) && parser.numErrors == Assemble(lines + [line]).errors
      ensures (text == old(text) || fresh(text)) && fresh(table.nodes - old(table.nodes))
    {
      hide Holds;
      ghost var a := Assemble(lines);
      assert (lines + [line])[..|lines|] == lines;
      if line.define.Some? {
        var ok := Label(line.define.value, line.number, parser, lines);
        if !ok {
          return;
        }
        a := RbmlAssembler.Define(a, line.define.value, line.number);
      }
      if line.statement.Some? {
        Statement(line.statement.value, line.number, a);
      }
    }

    /** The names of the table, in order. */
    ghost function Names(): seq<string>
      reads table
    {
      seq(|table.Order()|, i requires 0 <= i < |table.Order()| reads table => table.Order()[i].name)
    }

    /** code_check_refs: one error for every place that still waits. */
    method CheckRefs(parser: Parser, ghost a: Assembly)
      requires Holds(a)
      modifies parser
      ensures parser.numErrors == old(parser.numErrors) + Pending(a, Names())
    {
      hide Head.Valid, Head.Order;
      table.OrderIsNodes();
      ghost var names := Names();
      ghost var k := 0;
      var s := table.MinMax(-1);
      while s != null
        invariant k <= |names| && s == (if k < |names| then table.Order()[k] else null)
        invariant parser.numErrors + Pending(a, names[k..]) == old(parser.numErrors) + Pending(a, names)
        decreases |names| - k
      {
        assert s in Elements(table.Order()) && s.name in Keys(table.nodes);
        CheckSymbolRefs(s, parser);
        assert names[k..][0] == s.name && names[k..][1..] == names[k + 1..];
        s := table.Next(s, k);
        k := k + 1;
      }
    }

    lemma NamesList(a: Assembly)
      requires Holds(a)
      ensures Lists(Names(), a.symbols)
    {
      table.OrderIsNodes();
      forall name: string ensures name in Names() <==> name in a.symbols {
        if name in a.symbols {
          assert name in Keys(table.nodes);
          var n :| n in table.nodes && n.name == name;
          var i :| 0 <= i < |table.Order()| && table.Order()[i] == n;
          assert Names()[i] == name;
        }
        if name in Names() {
          var i :| 0 <= i < |Names()| && Names()[i] == name;
          assert table.Order()[i] in Elements(table.Order());
          assert name in Keys(table.nodes);
        }
      }
      forall i, j | 0 <= i < j < |Names()| ensures Names()[i] != Names()[j] {
        CompareEqual(Names()[i], Names()[j]);
      }
    }
  }

  /** symbol_check_refs: one error for each waiting place. */
  method CheckSymbolRefs(s: Symbol, parser: Parser)
    modifies parser
    ensures parser.numErrors == old(parser.numErrors) + |s.refs|
  {
    for i := 0 to |s.refs|
      invariant parser.numErrors == old(parser.numErrors) + i
    {
      parser.Error();
    }
  }

  /** Reads all lines in turn. */
  method ReadLines(lines: seq<Line>) returns (code: Code, parser: Parser)
    ensures fresh(code) && fresh(parser) && code.Holds(Assemble(lines)) && parser.numErrors == Assemble(lines).errors
  {
    hide Head.Valid, Head.Order, AssembleLine;
    code := new Code();
    parser := new Parser();
    var i := 0;
    assert lines[..0] == [];
    while i < |lines|
      invariant i <= |lines| && code.Holds(Assemble(lines[..i])) && parser.numErrors == Assemble(lines[..i]).errors
      invariant fresh(code) && fresh(code.text) && fresh(code.table) && fresh(code.table.nodes) && fresh(parser)
    {
      code.Line(lines[i], parser, lines[..i]);
      assert lines[..i] + [lines[i]] == lines[..i + 1];
      i := i + 1;
    }
    assert lines[..i] == lines;
  }

  /** Assembles a source: the text and the number of errors are those of two readings. */
  method Compile(lines: seq<Line>) returns (code: Code, errors: nat)
    ensures errors == Errors(lines)
    ensures code.size <= code.text.Length && code.text[..code.size] == TwoPass(lines)
  {
    hide Head.Valid, Head.Order, Assemble, Agrees, Pending, Errors, Lists;
    var parser;
    code, parser := ReadLines(lines);
    code.NamesList(Assemble(lines));
    code.CheckRefs(parser, Assemble(lines));
    OnePassIsTwoPass(lines);
    ErrorsReported(lines, code.Names());
    errors := parser.numErrors;
  }
}

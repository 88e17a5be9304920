// A symbol of the symbol table: its name, its definition, and its place in the red-black tree.
module Symbols {
  import opened RbmlSource
  import opened RbmlWord
  import opened RbmlAssembler

  /** strcmp: negative, zero or positive. */
  function Compare(a: string, b: string): int {
    if a == "" then if b == "" then 0 else -1
    else if b == "" then 1
    else if a[0] < b[0] then -1
    else if a[0] > b[0] then 1
    else Compare(a[1..], b[1..])
  }

  predicate Less(a: string, b: string) { Compare(a, b) < 0 }

  lemma {:induction false} CompareEqual(a: string, b: string)
    ensures Compare(a, b) == 0 <==> a == b
  {
    if a != "" && b != "" && a[0] == b[0] {
      CompareEqual(a[1..], b[1..]);
      assert a == [a[0]] + a[1..] && b == [b[0]] + b[1..];
    }
  }

  lemma {:induction false} CompareFlips(a: string, b: string)
    ensures Compare(a, b) < 0 <==> Compare(b, a) > 0
  {
    if a != "" && b != "" && a[0] == b[0] { CompareFlips(a[1..], b[1..]); }
  }

  lemma {:induction false} LessTransitive(a: string, b: string, c: string)
    requires Less(a, b) && Less(b, c)
    ensures Less(a, c)
  {
    if a != "" && b != "" && c != "" && a[0] == b[0] == c[0] { LessTransitive(a[1..], b[1..], c[1..]); }
  }

  /** a comes before b in the dictionary: the first difference decides, and a proper prefix comes first. */
  ghost predicate Precedes(a: string, b: string) {
    exists i | 0 <= i <= |a| && i <= |b| :: a[..i] == b[..i] && Differs(a, b, i)
  }

  predicate Differs(a: string, b: string, i: nat)
    requires i <= |a| && i <= |b|
  {
    i < |b| && (i < |a| ==> a[i] < b[i])
  }

  lemma {:induction false} FirstDifferenceDecides(a: string, b: string, i: nat)
    requires i <= |a| && i <= |b| && a[..i] == b[..i] && Differs(a, b, i)
    ensures Compare(a, b) < 0
    decreases i
  {
    if i > 0 {
      assert a[0] == a[..i][0] && b[0] == b[..i][0];
      assert a[1..][..i-1] == a[..i][1..] && b[1..][..i-1] == b[..i][1..];
      FirstDifferenceDecides(a[1..], b[1..], i - 1);
    }
  }

  lemma {:induction false} FirstDifference(a: string, b: string) returns (i: nat)
    requires Compare(a, b) < 0
    ensures i <= |a| && i <= |b| && a[..i] == b[..i] && Differs(a, b, i)
    decreases |a|
  {
    i := 0;
    if a != "" && a[0] == b[0] {
      var j := FirstDifference(a[1..], b[1..]);
      i := j + 1;
      assert a[..i] == [a[0]] + a[1..][..j] && b[..i] == [b[0]] + b[1..][..j];
    }
  }

  /** The order of names is that of the dictionary. */
  lemma LessIsDictionary(a: string, b: string)
    ensures Less(a, b) <==> Precedes(a, b)
  {
    if Less(a, b) {
      var i := FirstDifference(a, b);
    }
    if Precedes(a, b) {
      var i :| 0 <= i <= |a| && i <= |b| && a[..i] == b[..i] && Differs(a, b, i);
      FirstDifferenceDecides(a, b, i);
    }
  }

  class Symbol {
    const name: string

    // line of the definition, 0 for a symbol only referred to so far
    var line: nat
    var offset: nat
    var refs: seq<Ref>

    // the entry in the red-black tree
    var left: Symbol?
    var right: Symbol?
    var parent: Symbol?
    var red: bool

    /** symbol_alloc */
    constructor (name: string, line: nat, offset: nat)
      ensures this.name == name && this.line == line && this.offset == offset && refs == []
    {
      this.name := name;
      this.line := line;
      this.offset := offset;
      refs := [];
    }

    /** symbol_ref: one more place waits for this symbol. */
    method Reference(line: LineNumber, offset: nat)
      modifies `refs
      ensures refs == [Ref(line, offset)] + old(refs)
    {
      refs := [Ref(line, offset)] + refs;
    }

    /** symbol_define: the symbol gets its address, and so does every place waiting for it. */
    method Define(line: nat, offset: nat, text: array<Word>)
      requires forall r <- refs :: r.offset < text.Length
      modifies `line, `offset, `refs, text
      ensures this.line == line && this.offset == offset && refs == []
      ensures text[..] == Patch(old(text[..]), old(refs), offset)
    {
      this.line := line;
      this.offset := offset;
      while refs != []
        invariant forall r <- refs :: r.offset < text.Length
        invariant Patch(text[..], refs, offset) == Patch(old(text[..]), old(refs), offset)
        modifies `refs, text
        decreases |refs|
      {
        var ref := refs[0];
        ghost var before := text[..];
        text[ref.offset] := SetArg3(text[ref.offset], offset);
        assert text[..] == before[ref.offset := SetArg3(before[ref.offset], offset)];
        refs := refs[1..];
      }
    }
  }
}

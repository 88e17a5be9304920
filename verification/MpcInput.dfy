// The input of a parse (string mode): reading one character and matching a literal.
module MpcInput {
  import opened MpcTypes
  import opened MpcErrors

  /** The character at a position; a C string is followed by NUL. */
  function CharAt(txt: string, pos: int): char {
    if 0 <= pos < |txt| then txt[pos] else '\0'
  }

  /** The cursor after reading c. */
  function Advance(c: char, cur: Cursor): Cursor {
    var s := cur.state;
    Cursor(if c == '\n' then State(s.pos + 1, s.row + 1, 0) else State(s.pos + 1, s.row, s.col + 1), c)
  }

  predicate IsCharParser(p: Parser) {
    p.Any? || p.Single? || p.Range? || p.OneOf? || p.NoneOf? || p.Satisfy?
  }

  predicate Accepts(p: Parser, c: char)
    requires IsCharParser(p)
  {
    match p
    case Any => true
    case Single(d) => c == d
    case Range(lo, hi) => lo <= c <= hi
    case OneOf(cs) => c in cs
    case NoneOf(cs) => c !in cs
    case Satisfy(cond) => cond(c)
  }

  /** Whether the next character is there and is accepted. */
  predicate Reads(txt: string, p: Parser, cur: Cursor)
    requires IsCharParser(p)
  {
    cur.state.pos != |txt| && Accepts(p, CharAt(txt, cur.state.pos))
  }

  /** How many characters of str match the input at the cursor before the first difference. */
  function Matched(txt: string, str: string, pos: int): (n: nat)
    ensures n <= |str| && (0 <= pos <= |txt| ==> pos + n <= |txt|)
    decreases |str|
  {
    if str == [] || pos == |txt| || CharAt(txt, pos) != str[0] then 0
    else 1 + Matched(txt, str[1..], pos + 1)
  }

  /** The cursor after reading the characters of str. */
  function AdvanceBy(str: string, cur: Cursor): Cursor
    decreases |str|
  {
    if str == [] then cur else AdvanceBy(str[1..], Advance(str[0], cur))
  }

  /** Rewinding to a mark does nothing when backtracking is disabled. */
  function Back(bt: int, mark: Cursor, cur: Cursor): Cursor {
    if bt < 1 then cur else mark
  }

  datatype Outcome = Outcome(r: Res, w: World)

  /** A parser that runs no other parser. */
  predicate IsLeaf(p: Parser) {
    p.Undefined? || p.Pass? || p.Fail? || p.Lift? || p.StateOf? || p.Anchor? || IsCharParser(p) || p.String?
  }

  /** The outcome of a parser that runs no other parser. */
  function LeafOutcome(txt: string, p: Parser, bt: int, w: World): Outcome
    requires IsLeaf(p)
  {
    var s := w.cur.state;
    match p
    case Undefined => Outcome(Er(ErrFail(s, "Parser Undefined!")), w)
    case Pass => Outcome(Out(Null), w)
    case Fail(m) => Outcome(Er(ErrFail(s, m)), w)
    case Lift(v) => Outcome(Out(v), w)
    case StateOf => Outcome(Out(Position(s)), w)
    case Anchor(f) =>
      if f(w.cur.last, CharAt(txt, s.pos)) then Outcome(Out(Null), w)
      else Outcome(Er(ErrNew(s, "anchor")), w)
    case String(str) =>
      var n := Matched(txt, str, s.pos);
      var read := AdvanceBy(str[..n], w.cur);
      if n == |str| then Outcome(Out(Str(str)), w.(cur := read))
      else
        var w1 := w.(cur := Back(bt, w.cur, read));
        Outcome(Er(ErrFail(w1.cur.state, "Incorrect Input")), w1)
    case _ =>
      if Reads(txt, p, w.cur) then
        var c := CharAt(txt, s.pos);
        Outcome(Out(Str([c])), w.(cur := Advance(c, w.cur)))
      else Outcome(Er(ErrFail(s, "Incorrect Input")), w)
  }

  /** The input of a parse: a string, the position in it, and the marks to rewind to. */
  class Input {
    const text: string
    var state: State
    var last: char
    var backtrack: int
    var marks: seq<State>
    var lasts: seq<char>

    ghost predicate Valid()
      reads this
    {
      && 0 <= state.pos <= |text|
      && |marks| == |lasts|
      && forall i :: 0 <= i < |marks| ==> 0 <= marks[i].pos <= |text|
    }

    ghost function Here(): Cursor
      reads this
    {
      Cursor(state, last)
    }

    ghost function Marks(): (ms: seq<Cursor>)
      reads this
      requires Valid()
      ensures |ms| == |marks|
    {
      seq(|marks|, i requires 0 <= i < |marks| && |marks| == |lasts| reads this => Cursor(marks[i], lasts[i]))
    }

    constructor (text: string)
      ensures Valid() && this.text == text
      ensures Here() == START && Marks() == [] && backtrack == 1
    {
      this.text := text;
      state, last := START_STATE, '\0';
      backtrack, marks, lasts := 1, [], [];
    }

    method BacktrackDisable()
      requires Valid()
      modifies this`backtrack
      ensures backtrack == old(backtrack) - 1
    {
      backtrack := backtrack - 1;
    }

    method BacktrackEnable()
      requires Valid()
      modifies this`backtrack
      ensures backtrack == old(backtrack) + 1
    {
      backtrack := backtrack + 1;
    }

    method Mark()
      requires Valid()
      modifies this`marks, this`lasts
      ensures Valid()
      ensures Marks() == if backtrack < 1 then old(Marks()) else old(Marks()) + [Here()]
    {
      if backtrack < 1 { return; }
      marks := marks + [state];
      lasts := lasts + [last];
    }

    method Unmark()
      requires Valid() && (backtrack >= 1 ==> Marks() != [])
      modifies this`marks, this`lasts
      ensures Valid()
      ensures Marks() == if backtrack < 1 then old(Marks()) else old(Marks())[..|old(Marks())|-1]
    {
      if backtrack < 1 { return; }
      marks := marks[..|marks|-1];
      lasts := lasts[..|lasts|-1];
    }

    method Rewind()
      requires Valid() && (backtrack >= 1 ==> Marks() != [])
      modifies this`state, this`last, this`marks, this`lasts
      ensures Valid()
      ensures backtrack < 1 ==> Here() == old(Here()) && Marks() == old(Marks())
      ensures backtrack >= 1 ==> Marks() == old(Marks())[..|old(Marks())|-1] && Here() == old(Marks())[|old(Marks())|-1]
    {
      if backtrack < 1 { return; }
      state := marks[|marks|-1];
      last := lasts[|lasts|-1];
      Unmark();
    }

    predicate Terminated()
      reads this
    {
      state.pos == |text|
    }

    /** The next character without reading it; NUL at the end. */
    method Peekc() returns (c: char)
      requires Valid()
      ensures c == CharAt(text, state.pos)
    {
      c := if state.pos < |text| then text[state.pos] else '\0';
    }

    method Success(c: char)
      requires Valid() && !Terminated()
      modifies this`state, this`last
      ensures Valid() && Here() == Advance(c, old(Here()))
    {
      last := c;
      state := State(state.pos + 1, state.row, state.col + 1);
      if c == '\n' {
        state := State(state.pos, state.row + 1, 0);
      }
    }

    /** The one-character parsers: reads a character that p accepts. */
    method Character(p: Parser) returns (ok: bool, c: char)
      requires Valid() && IsCharParser(p)
      modifies this`state, this`last
      ensures Valid() && c == CharAt(text, old(state).pos)
      ensures ok == Reads(text, p, old(Here()))
      ensures Here() == if ok then Advance(c, old(Here())) else old(Here())
    {
      c := Peekc();
      if Terminated() { return false, c; }
      if Accepts(p, c) {
        Success(c);
        return true, c;
      }
      ok := false;
    }

    /** Reads a literal, rewinding if it is not there. */
    method Literal(str: string) returns (ok: bool)
      requires Valid()
      modifies this`state, this`last, this`marks, this`lasts
      ensures Valid() && Marks() == old(Marks())
      ensures var n := Matched(text, str, old(state).pos);
              && ok == (n == |str|)
              && var read := AdvanceBy(str[..n], old(Here()));
                 Here() == if ok then read else Back(backtrack, old(Here()), read)
    {
      hide Matched, AdvanceBy;
      Mark();
      var x := ReadMatching(str);
      assert str[..|str|] == str;
      if x < |str| {
        Rewind();
        return false;
      }
      Unmark();
      ok := true;
    }

    /** Reads as much of a literal as is there. */
    method ReadMatching(str: string) returns (x: nat)
      requires Valid()
      modifies this`state, this`last
      ensures Valid()
      ensures Marks() == old(Marks())
      ensures x == Matched(text, str, old(state).pos) && Here() == AdvanceBy(str[..x], old(Here()))
    {
      x := 0;
      ghost var h := Here();
      assert str[0..] == str;
      while x < |str|
        invariant 0 <= x <= |str| && Valid()
        invariant Matched(text, str, h.state.pos) == x + Matched(text, str[x..], state.pos)
        invariant Here() == AdvanceBy(str[..x], h)
      {
        MatchedStep(text, str, x, state.pos);
        AdvanceByStep(str, x, h);
        var more, _ := Character(Single(str[x]));
        if !more {
          return;
        }
        x := x + 1;
      }
    }
  }

  lemma MatchedStep(txt: string, str: string, x: nat, pos: int)
    requires x < |str|
    ensures Matched(txt, str[x..], pos)
         == if pos == |txt| || CharAt(txt, pos) != str[x] then 0 else 1 + Matched(txt, str[x+1..], pos + 1)
  {
    assert str[x..][1..] == str[x+1..];
  }

  lemma AdvanceByStep(str: string, x: nat, cur: Cursor)
    requires x < |str|
    ensures AdvanceBy(str[..x+1], cur) == Advance(str[x], AdvanceBy(str[..x], cur))
  {
    AdvanceByMore(str[..x], str[x], cur);
    assert str[..x] + [str[x]] == str[..x+1];
  }

  lemma {:induction false} AdvanceByMore(str: string, c: char, cur: Cursor)
    ensures AdvanceBy(str + [c], cur) == Advance(c, AdvanceBy(str, cur))
    decreases |str|
  {
    if str == [] {
      assert AdvanceBy([c], cur) == AdvanceBy([c][1..], Advance(c, cur));
    } else {
      AdvanceByMore(str[1..], c, Advance(str[0], cur));
      assert (str + [c])[1..] == str[1..] + [c];
    }
  }
}

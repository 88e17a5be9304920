// Compiling regular expressions: the parser built for a regular expression computes its prioritised
// greedy matching, and its output is exactly the text it read.
module MpcRegex {
  import opened MpcTypes
  import opened Options
  import opened MpcErrors
  import opened MpcInput
  import opened MpcBigStep
  import opened MpcCursors
  import opened MpcTermination

  /** The three classes of characters with escapes of their own. */
  datatype Class = Digit | Space | Word

  /** Regular expressions. Ranges are already expanded to their characters. */
  datatype Regex =
    | Chr(c: char)
    | Dot
    | OneIn(cs: string)
    | OneNotIn(cs: string)
    | Begin
    | End
    | Boundary(yes: bool)
    | InClass(class_: Class, yes: bool)
    | Alt(a: Regex, b: Regex)
    | Cat(rs: seq<Regex>)
    | Star(r: Regex)
    | Plus(r: Regex)
    | Optional(r: Regex)
    | Rep(n: int, r: Regex)

  /* The parsers that a regular expression is compiled to. */

  function Text(v: Val): string { if v.Str? then v.s else "" }

  function StrFold(vs: seq<Val>): Val
  {
    if vs == [] then Str("") else Str(Text(StrFold(vs[..|vs|-1])) + Text(vs[|vs|-1]))
  }

  /** mpcf_strfold appends the strings one after the other to an empty one. */
  method AppendAll(xs: seq<Val>) returns (r: Val)
    ensures r == StrFold(xs)
  {
    var joined := "";
    var i := 0;
    while i < |xs|
      invariant 0 <= i <= |xs|
      invariant StrFold(xs[..i]) == Str(joined)
    {
      assert xs[..i + 1][..i] == xs[..i];
      joined := joined + Text(xs[i]);
      i := i + 1;
    }
    assert xs[..i] == xs;
    r := Str(joined);
  }

  function Second(vs: seq<Val>): Val { if |vs| > 1 then vs[1] else Null }

  const FREE: Dtor := 0

  const LETTERS := "abcdefghijklmnopqrstuvwxyzABCDEFGHIJKLMNOPQRSTUVWXYZ"
  const DIGITS := "0123456789"
  const SPACES := [' ', '\U{000C}', '\n', '\r', '\t', '\U{000B}']
  const WORD := LETTERS + DIGITS + "_"

  /** strchr finds the terminating NUL of the word characters too. */
  predicate InWord(c: char) { c in WORD || c == '\0' }

  predicate StartAnchor(prev: char, next: char) { prev == '\0' }

  predicate EndAnchor(prev: char, next: char) { next == '\0' }

  predicate BoundaryAnchor(prev: char, next: char) {
    || (InWord(next) && prev == '\0')
    || (InWord(prev) && next == '\0')
    || (InWord(next) && !InWord(prev))
    || (!InWord(next) && InWord(prev))
  }

  /** An anchor followed by an empty string as its output. */
  function Anchored(anchor: (char, char) -> bool, expected: string): Parser {
    And([Expect(Anchor(anchor), expected), Lift(Str(""))], Second, [FREE])
  }

  function OneOfParser(cs: string, expected: string): (p: Parser)
    ensures !p.Ref?
  {
    Expect(Expect(OneOf(cs), "one of '" + cs + "'"), expected)
  }

  /** The parsers for the three classes; word characters are an alternative of three. */
  function ClassParser(c: Class): Parser {
    match c
    case Digit => OneOfParser(DIGITS, "digit")
    case Space => OneOfParser(SPACES, "whitespace")
    case Word =>
      Expect(Or([OneOfParser(LETTERS, "letter"), OneOfParser(DIGITS, "digit"), UNDERSCORE]),
             "alphanumeric")
  }

  function Compile(re: Regex): (p: Parser)
    ensures !p.Ref?
  {
    match re
    case Chr(c) => Expect(Single(c), "'" + [c] + "'")
    case Dot => Expect(Any, "any character")
    case OneIn(cs) => Expect(OneOf(cs), "one of '" + cs + "'")
    case OneNotIn(cs) => Expect(NoneOf(cs), "one of '" + cs + "'")
    case Begin => Anchored(StartAnchor, "start of input")
    case End => Anchored(EndAnchor, "end of input")
    case Boundary(yes) =>
      if yes then Anchored(BoundaryAnchor, "boundary")
      else Not(Expect(Anchor(BoundaryAnchor), "boundary"), FREE, Str(""))
    case InClass(c, yes) => if yes then ClassParser(c) else Not(ClassParser(c), FREE, Str(""))
    case Alt(a, b) => Or([Compile(a), Compile(b)])
    case Cat(rs) => CompileAll(rs)
    case Star(r) => Many(Compile(r), StrFold)
    case Plus(r) => Many1(Compile(r), StrFold)
    case Optional(r) => Maybe(Compile(r), Str(""))
    case Rep(n, r) => Count(n, Compile(r), StrFold, FREE)
  }

  /** A concatenation becomes a left-nested chain of binary sequences. */
  function CompileAll(rs: seq<Regex>): (p: Parser)
    ensures !p.Ref?
  {
    if rs == [] then Lift(Str(""))
    else And([CompileAll(rs[..|rs|-1]), Compile(rs[|rs|-1])], StrFold, [FREE])
  }

  /* The matching that a regular expression stands for. */

  /** No match, a match that ends at a position, or a repetition of nothing that never ends. */
  datatype Match = No | To(pos: nat) | Never

  function OneChar(txt: string, pos: nat, ok: bool): Match {
    if pos < |txt| && ok then To(pos + 1) else No
  }

  function Here(pos: nat, ok: bool): Match { if ok then To(pos) else No }

  /** At either end of the text, or between a word character and another character. */
  predicate AtBoundary(txt: string, pos: nat)
    requires pos <= |txt|
  {
    pos == 0 || pos == |txt| || (txt[pos-1] in WORD) != (txt[pos] in WORD)
  }

  predicate ClassHas(cl: Class, c: char) {
    match cl
    case Digit => c in DIGITS
    case Space => c in SPACES
    case Word => c in WORD
  }

  function MatchAt(re: Regex, txt: string, pos: nat): (m: Match)
    requires pos <= |txt|
    ensures m.To? ==> pos <= m.pos <= |txt|
    decreases |txt| - pos, re, 0
  {
    match re
    case Chr(c) => OneChar(txt, pos, pos < |txt| && txt[pos] == c)
    case Dot => OneChar(txt, pos, true)
    case OneIn(cs) => OneChar(txt, pos, pos < |txt| && txt[pos] in cs)
    case OneNotIn(cs) => OneChar(txt, pos, pos < |txt| && txt[pos] !in cs)
    case Begin => Here(pos, pos == 0)
    case End => Here(pos, pos == |txt|)
    case Boundary(yes) => Here(pos, AtBoundary(txt, pos) == yes)
    case InClass(c, yes) =>
      var there := pos < |txt| && ClassHas(c, txt[pos]);
      if yes then OneChar(txt, pos, there) else Here(pos, !there)
    case Alt(a, b) =>
      var m := MatchAt(a, txt, pos);
      if m.No? then MatchAt(b, txt, pos) else m
    case Cat(rs) => MatchAll(rs, txt, pos)
    case Optional(r) =>
      var m := MatchAt(r, txt, pos);
      if m.No? then To(pos) else m
    case Star(r) =>
      (match Greedy(r, txt, pos)
       case Forever => Never
       case Ends(_, end) => To(end))
    case Plus(r) =>
      (match Greedy(r, txt, pos)
       case Forever => Never
       case Ends(times, end) => if times == 0 then No else To(end))
    case Rep(n, r) =>
      (match Greedy(r, txt, pos)
       case Forever => Never
       case Ends(times, end) => if times == n then To(end) else No)
  }

  /** How often a repetition matches before it first does not; forever once it matches nothing. */
  datatype Repeated = Ends(times: nat, end: nat) | Forever

  function Greedy(r: Regex, txt: string, pos: nat): (g: Repeated)
    requires pos <= |txt|
    ensures g.Ends? ==> pos <= g.end <= |txt|
    decreases |txt| - pos, r, 1
  {
    var m := MatchAt(r, txt, pos);
    if m.No? then Ends(0, pos)
    else if m.Never? || m.pos == pos then Forever
    else
      var g := Greedy(r, txt, m.pos);
      if g.Ends? then Ends(g.times + 1, g.end) else Forever
  }

  function MatchAll(rs: seq<Regex>, txt: string, pos: nat): (m: Match)
    requires pos <= |txt|
    ensures m.To? ==> pos <= m.pos <= |txt|
    decreases |txt| - pos, rs, 0
  {
    if rs == [] then To(pos)
    else
      var m := MatchAt(rs[0], txt, pos);
      if m.To? then MatchAll(rs[1..], txt, m.pos) else m
  }

  /* Agreement of the two. */

  /** The outcome o of a parser started at w is the match m: on failure nothing is read, on success
      the output is the text read. */
  ghost predicate Agrees(txt: string, w: World, m: Match, o: Outcome)
    requires 0 <= w.cur.state.pos <= |txt|
    requires m.To? ==> w.cur.state.pos <= m.pos <= |txt|
  {
    match m
    case No => o.r.Er? && o.w.cur == w.cur
    case To(q) => o.r == Out(Str(txt[w.cur.state.pos..q])) && AtText(txt, o.w.cur) && o.w.cur.state.pos == q
    case Never => false
  }

  ghost predicate Ready(txt: string, bt: int, w: World) {
    bt >= 1 && '\0' !in txt && AtText(txt, w.cur)
  }

  lemma CharAgrees(g: Grammar, txt: string, k: nat, x: Parser, e: string, bt: int, w: World)
    requires Ready(txt, bt, w) && IsCharParser(x) && Eval(g, txt, k, Expect(x, e), bt, w).Some?
    ensures var pos := w.cur.state.pos;
            Agrees(txt, w, OneChar(txt, pos, pos < |txt| && Accepts(x, txt[pos])), Eval(g, txt, k, Expect(x, e), bt, w).value)
  {
    var pos := w.cur.state.pos;
    if pos < |txt| {
      AdvanceAtText(txt, w.cur);
      assert txt[pos..pos+1] == [txt[pos]];
    }
    hide AtText;
  }

  /** Another name for what is expected changes only the error. */
  lemma ExpectAgrees(g: Grammar, txt: string, k: nat, x: Parser, e: string, bt: int, w: World, m: Match)
    requires k > 0 && Ready(txt, bt, w) && !x.Ref? && Eval(g, txt, k, Expect(x, e), bt, w).Some?
    requires m.To? ==> w.cur.state.pos <= m.pos <= |txt|
    requires Eval(g, txt, k - 1, x, bt, w).Some? ==> Agrees(txt, w, m, Eval(g, txt, k - 1, x, bt, w).value)
    ensures Agrees(txt, w, m, Eval(g, txt, k, Expect(x, e), bt, w).value)
  {
    hide AtText;
  }

  lemma NotAgrees(g: Grammar, txt: string, k: nat, x: Parser, bt: int, w: World, m: Match)
    requires k > 0 && Ready(txt, bt, w) && !x.Ref? && Eval(g, txt, k, Not(x, FREE, Str("")), bt, w).Some?
    requires m.To? ==> w.cur.state.pos <= m.pos <= |txt|
    requires Eval(g, txt, k - 1, x, bt, w).Some? ==> Agrees(txt, w, m, Eval(g, txt, k - 1, x, bt, w).value)
    ensures Agrees(txt, w, Here(w.cur.state.pos, m.No?), Eval(g, txt, k, Not(x, FREE, Str("")), bt, w).value)
  {
    InText(txt, w.cur);
    hide AtText, ErrOr, DestroySame;
    AfterUnaryCursor(Not(x, FREE, Str("")), bt, w, Eval(g, txt, k - 1, x, bt, w).value);
    assert txt[w.cur.state.pos..w.cur.state.pos] == "";
  }

  /** Where the three anchors hold. */
  lemma AnchorsHold(txt: string, w: World)
    requires '\0' !in txt && AtText(txt, w.cur)
    ensures var pos := w.cur.state.pos;
            && (StartAnchor(w.cur.last, CharAt(txt, pos)) <==> pos == 0)
            && (EndAnchor(w.cur.last, CharAt(txt, pos)) <==> pos == |txt|)
            && (BoundaryAnchor(w.cur.last, CharAt(txt, pos)) <==> AtBoundary(txt, pos))
  {
  }

  lemma AnchorAgrees(g: Grammar, txt: string, k: nat, f: (char, char) -> bool, e: string, bt: int, w: World)
    requires Ready(txt, bt, w) && Eval(g, txt, k, Expect(Anchor(f), e), bt, w).Some?
    ensures var o := Eval(g, txt, k, Expect(Anchor(f), e), bt, w).value;
            o.w == w && (o.r.Out? <==> f(w.cur.last, CharAt(txt, w.cur.state.pos))) && (o.r.Out? ==> o.r.v == Null)
  {
  }

  /** A sequence of two parsers, the first of which ends at w1 if it succeeds. */
  lemma PairEval(g: Grammar, txt: string, k: nat, x: Parser, y: Parser, f: Fold, dxs: seq<Dtor>, bt: int, w: World)
    requires bt >= 1 && !x.Ref? && !y.Ref? && Eval(g, txt, k, And([x, y], f, dxs), bt, w).Some?
    ensures k > 1 && Eval(g, txt, k - 1, x, bt, w).Some?
    ensures var o := Eval(g, txt, k, And([x, y], f, dxs), bt, w).value;
            var o1 := Eval(g, txt, k - 1, x, bt, w).value;
            if o1.r.Er? then o.r.Er? && o.w.cur == w.cur
            else
              && Eval(g, txt, k - 2, y, bt, o1.w).Some?
              && var o2 := Eval(g, txt, k - 2, y, bt, o1.w).value;
                 if o2.r.Er? then o.r.Er? && o.w.cur == w.cur
                 else o == Outcome(Out(f([o1.r.v, o2.r.v])), o2.w)
  {
    hide LeafOutcome, AfterUnary, AfterRepeat, Destroy;
    var p := And([x, y], f, dxs);
    var s := EvalAnd(g, txt, k - 1, p.xs, bt, w, []);
    AfterAndCursor(p, bt, w, s.value);
    var o1 := Eval(g, txt, k - 1, x, bt, w).value;
    if o1.r.Out? {
      assert [] + [o1.r.v] == [o1.r.v];
      assert s == EvalAnd(g, txt, k - 2, p.xs, bt, o1.w, [o1.r.v]);
      var o2 := Eval(g, txt, k - 2, y, bt, o1.w).value;
      if o2.r.Out? { assert [o1.r.v] + [o2.r.v] == [o1.r.v, o2.r.v]; }
    }
  }

  lemma AnchoredAgrees(g: Grammar, txt: string, k: nat, f: (char, char) -> bool, e: string, bt: int, w: World)
    requires Ready(txt, bt, w) && Eval(g, txt, k, Anchored(f, e), bt, w).Some?
    ensures Agrees(txt, w, Here(w.cur.state.pos, f(w.cur.last, CharAt(txt, w.cur.state.pos))), Eval(g, txt, k, Anchored(f, e), bt, w).value)
  {
    InText(txt, w.cur);
    PairEval(g, txt, k, Expect(Anchor(f), e), Lift(Str("")), Second, [FREE], bt, w);
    AnchorAgrees(g, txt, k - 1, f, e, bt, w);
    assert txt[w.cur.state.pos..w.cur.state.pos] == "";
    hide AtText;
  }

  /** An alternative of two. */
  lemma EitherEval(g: Grammar, txt: string, k: nat, xs: seq<Parser>, es: seq<Err>, bt: int, w: World)
    requires |es| < |xs| && !xs[|es|].Ref? && EvalOr(g, txt, k, xs, bt, w, es).Some?
    ensures Eval(g, txt, k, xs[|es|], bt, w).Some?
    ensures var o := EvalOr(g, txt, k, xs, bt, w, es).value;
            var o1 := Eval(g, txt, k, xs[|es|], bt, w).value;
            if o1.r.Out? then o.r == o1.r && o.w.cur == o1.w.cur
            else if |es| + 1 == |xs| then o.r.Er? && o.w == o1.w
            else k > 0 && EvalOr(g, txt, k - 1, xs, bt, o1.w, es + [o1.r.e]) == Some(o)
  {
    hide LeafOutcome, AfterUnary, AfterRepeat, AfterAnd, ErrOr;
    var o1 := Eval(g, txt, k, xs[|es|], bt, w).value;
    if o1.r.Out? { BlameAllKeepsCursor(o1.w, es); }
  }

  function CharAtMatch(txt: string, w: World, cs: string): (m: Match)
    requires 0 <= w.cur.state.pos <= |txt|
    ensures m.To? ==> w.cur.state.pos <= m.pos <= |txt|
  {
    OneChar(txt, w.cur.state.pos, w.cur.state.pos < |txt| && txt[w.cur.state.pos] in cs)
  }

  lemma OneOfAgrees(g: Grammar, txt: string, k: nat, cs: string, e: string, bt: int, w: World)
    requires Ready(txt, bt, w) && Eval(g, txt, k, OneOfParser(cs, e), bt, w).Some?
    ensures Agrees(txt, w, CharAtMatch(txt, w, cs), Eval(g, txt, k, OneOfParser(cs, e), bt, w).value)
  {
    var x := Expect(OneOf(cs), "one of '" + cs + "'");
    assert Eval(g, txt, k - 1, x, bt, w).Some?;
    CharAgrees(g, txt, k - 1, OneOf(cs), "one of '" + cs + "'", bt, w);
    ExpectAgrees(g, txt, k, x, e, bt, w, CharAtMatch(txt, w, cs));
  }

  lemma UnderscoreAgrees(g: Grammar, txt: string, k: nat, bt: int, w: World)
    requires Ready(txt, bt, w) && Eval(g, txt, k, UNDERSCORE, bt, w).Some?
    ensures Agrees(txt, w, CharAtMatch(txt, w, "_"), Eval(g, txt, k, UNDERSCORE, bt, w).value)
  {
    var x := Expect(Single('_'), "'_'");
    assert Eval(g, txt, k - 1, x, bt, w).Some?;
    CharAgrees(g, txt, k - 1, Single('_'), "'_'", bt, w);
    ExpectAgrees(g, txt, k, x, "underscore", bt, w, CharAtMatch(txt, w, "_"));
  }

  lemma OrEval(g: Grammar, txt: string, k: nat, xs: seq<Parser>, bt: int, w: World)
    requires xs != [] && Eval(g, txt, k, Or(xs), bt, w).Some?
    ensures k > 0 && EvalOr(g, txt, k - 1, xs, bt, w, []) == Eval(g, txt, k, Or(xs), bt, w)
  {
  }

  lemma ExpectEval(g: Grammar, txt: string, k: nat, x: Parser, e: string, bt: int, w: World)
    requires !x.Ref? && Eval(g, txt, k, Expect(x, e), bt, w).Some?
    ensures k > 0 && Eval(g, txt, k - 1, x, bt, w).Some?
  {
  }

  const UNDERSCORE := Expect(Expect(Single('_'), "'_'"), "underscore")

  /** An alternative whose next parser is the match m. */
  lemma NextAgrees(g: Grammar, txt: string, k: nat, xs: seq<Parser>, es: seq<Err>, bt: int, w: World, m: Match)
    returns (w1: World, e: Err)
    requires Ready(txt, bt, w) && |es| < |xs| && !xs[|es|].Ref? && EvalOr(g, txt, k, xs, bt, w, es).Some?
    requires m.To? ==> w.cur.state.pos <= m.pos <= |txt|
    requires Eval(g, txt, k, xs[|es|], bt, w).Some? ==> Agrees(txt, w, m, Eval(g, txt, k, xs[|es|], bt, w).value)
    ensures var o := EvalOr(g, txt, k, xs, bt, w, es).value;
            if m.No? && |es| + 1 < |xs| then
              k > 0 && w1.cur == w.cur && Ready(txt, bt, w1) && EvalOr(g, txt, k - 1, xs, bt, w1, es + [e]) == Some(o)
            else Agrees(txt, w, m, o)
  {
    InText(txt, w.cur);
    hide Eval, EvalOr, AtText;
    EitherEval(g, txt, k, xs, es, bt, w);
    var o1 := Eval(g, txt, k, xs[|es|], bt, w).value;
    w1, e := o1.w, if o1.r.Er? then o1.r.e else UNKNOWN_ERROR;
  }

  lemma LastAgrees(g: Grammar, txt: string, k: nat, xs: seq<Parser>, es: seq<Err>, bt: int, w: World)
    requires Ready(txt, bt, w) && |xs| == 3 && xs[2] == UNDERSCORE && |es| == 2
    requires EvalOr(g, txt, k, xs, bt, w, es).Some?
    ensures Agrees(txt, w, CharAtMatch(txt, w, "_"), EvalOr(g, txt, k, xs, bt, w, es).value)
  {
    InText(txt, w.cur);
    hide Eval, EvalOr, AtText;
    if Eval(g, txt, k, xs[2], bt, w).Some? { UnderscoreAgrees(g, txt, k, bt, w); }
    var _, _ := NextAgrees(g, txt, k, xs, es, bt, w, CharAtMatch(txt, w, "_"));
  }

  lemma EitherSet(txt: string, w: World, a: string, b: string)
    requires 0 <= w.cur.state.pos <= |txt|
    ensures CharAtMatch(txt, w, a + b) == if CharAtMatch(txt, w, a).No? then CharAtMatch(txt, w, b) else CharAtMatch(txt, w, a)
  {
  }

  lemma TwoAgree(g: Grammar, txt: string, k: nat, xs: seq<Parser>, es: seq<Err>, b: string, bt: int, w: World)
    requires 0 <= w.cur.state.pos <= |txt|
    requires Ready(txt, bt, w) && |xs| == 3 && xs[1] == OneOfParser(b, "digit") && xs[2] == UNDERSCORE && |es| == 1
    requires EvalOr(g, txt, k, xs, bt, w, es).Some?
    ensures Agrees(txt, w, CharAtMatch(txt, w, b + "_"), EvalOr(g, txt, k, xs, bt, w, es).value)
  {
    hide Eval, EvalOr, AtText, Agrees, CharAtMatch, OneOfParser;
    EitherSet(txt, w, b, "_");
    if Eval(g, txt, k, xs[1], bt, w).Some? { OneOfAgrees(g, txt, k, b, "digit", bt, w); }
    var m := CharAtMatch(txt, w, b);
    var w1, e := NextAgrees(g, txt, k, xs, es, bt, w, m);
    if m.No? {
      SameStart(txt, w, w1, CharAtMatch(txt, w, "_"), EvalOr(g, txt, k, xs, bt, w, es).value);
      LastAgrees(g, txt, k - 1, xs, es + [e], bt, w1);
    }
  }

  lemma SameStart(txt: string, w: World, w1: World, m: Match, o: Outcome)
    requires w1.cur == w.cur && 0 <= w.cur.state.pos <= |txt| && (m.To? ==> w.cur.state.pos <= m.pos <= |txt|)
    ensures Agrees(txt, w1, m, o) == Agrees(txt, w, m, o)
    ensures forall cs :: CharAtMatch(txt, w1, cs) == CharAtMatch(txt, w, cs)
  {
  }

  /** An alternative of two sets of characters and the underscore. */
  lemma ThreeAgree(g: Grammar, txt: string, k: nat, a: string, b: string, bt: int, w: World)
    requires 0 <= w.cur.state.pos <= |txt|
    requires Ready(txt, bt, w)
    requires EvalOr(g, txt, k, [OneOfParser(a, "letter"), OneOfParser(b, "digit"), UNDERSCORE], bt, w, []).Some?
    ensures Agrees(txt, w, CharAtMatch(txt, w, a + b + "_"),
                   EvalOr(g, txt, k, [OneOfParser(a, "letter"), OneOfParser(b, "digit"), UNDERSCORE], bt, w, []).value)
  {
    hide Eval, EvalOr, AtText, Agrees, CharAtMatch, OneOfParser;
    EitherSet(txt, w, a, b + "_");
    assert a + b + "_" == a + (b + "_");
    var xs := [OneOfParser(a, "letter"), OneOfParser(b, "digit"), UNDERSCORE];
    if Eval(g, txt, k, xs[0], bt, w).Some? { OneOfAgrees(g, txt, k, a, "letter", bt, w); }
    var m := CharAtMatch(txt, w, a);
    var w1, e := NextAgrees(g, txt, k, xs, [], bt, w, m);
    if m.No? {
      SameStart(txt, w, w1, CharAtMatch(txt, w, b + "_"), EvalOr(g, txt, k, xs, bt, w, []).value);
      TwoAgree(g, txt, k - 1, xs, [] + [e], b, bt, w1);
    }
  }

  lemma WordAgrees(g: Grammar, txt: string, k: nat, bt: int, w: World)
    requires Ready(txt, bt, w) && Eval(g, txt, k, ClassParser(Word), bt, w).Some?
    ensures Agrees(txt, w, CharAtMatch(txt, w, WORD), Eval(g, txt, k, ClassParser(Word), bt, w).value)
  {
    InText(txt, w.cur);
    hide Eval, EvalOr, AtText, OneOfParser, CharAtMatch, Agrees;
    var x := ClassParser(Word).x;
    ExpectEval(g, txt, k, x, "alphanumeric", bt, w);
    OrEval(g, txt, k - 1, x.xs, bt, w);
    ThreeAgree(g, txt, k - 2, LETTERS, DIGITS, bt, w);
    ExpectAgrees(g, txt, k, x, "alphanumeric", bt, w, CharAtMatch(txt, w, WORD));
  }

  lemma ClassAgrees(g: Grammar, txt: string, k: nat, c: Class, bt: int, w: World)
    requires Ready(txt, bt, w) && Eval(g, txt, k, ClassParser(c), bt, w).Some?
    ensures var pos := w.cur.state.pos;
            Agrees(txt, w, OneChar(txt, pos, pos < |txt| && ClassHas(c, txt[pos])), Eval(g, txt, k, ClassParser(c), bt, w).value)
  {
    hide Eval, AtText, Agrees;
    InText(txt, w.cur);
    match c
    case Digit => OneOfAgrees(g, txt, k, DIGITS, "digit", bt, w);
    case Space => OneOfAgrees(g, txt, k, SPACES, "whitespace", bt, w);
    case Word => WordAgrees(g, txt, k, bt, w);
  }

  /** Matching all of rs is matching all but the last and then the last. */
  lemma {:induction false} MatchAllSnoc(rs: seq<Regex>, txt: string, pos: nat)
    requires rs != [] && pos <= |txt|
    ensures var m := MatchAll(rs[..|rs|-1], txt, pos);
            MatchAll(rs, txt, pos) == if m.To? then MatchAt(rs[|rs|-1], txt, m.pos) else m
    decreases |rs|
  {
    hide MatchAt;
    var m := MatchAt(rs[0], txt, pos);
    if |rs| == 1 {
      if m.To? { assert MatchAll(rs[1..], txt, m.pos) == m; }
    } else {
      assert rs[..|rs|-1][1..] == rs[1..][..|rs|-2];
      if m.To? { MatchAllSnoc(rs[1..], txt, m.pos); }
    }
  }

  lemma StrFoldSnoc(vs: seq<Val>, v: Val)
    ensures StrFold(vs + [v]) == Str(Text(StrFold(vs)) + Text(v))
  {
    assert (vs + [v])[..|vs|] == vs;
  }

  lemma StrFoldIsStr(vs: seq<Val>)
    ensures StrFold(vs).Str?
  {
  }

  lemma Joins(t: string, txt: string, a: nat, b: nat, c: nat)
    requires a <= b <= c <= |txt|
    ensures t + txt[a..b] + txt[b..c] == t + txt[a..c]
  {
    assert txt[a..b] + txt[b..c] == txt[a..c];
  }

  /** Whenever the compiled parser yields an outcome, it is the match of the expression. */
  lemma {:induction false} OutcomeIsMatch(g: Grammar, txt: string, k: nat, re: Regex, bt: int, w: World)
    requires Ready(txt, bt, w) && Eval(g, txt, k, Compile(re), bt, w).Some?
    ensures Agrees(txt, w, MatchAt(re, txt, w.cur.state.pos), Eval(g, txt, k, Compile(re), bt, w).value)
    decreases k, 4
  {
    hide LeafOutcome, AtText;
    InText(txt, w.cur);
    var p, pos := Compile(re), w.cur.state.pos;
    match re
    case Chr(c) => CharAgrees(g, txt, k, Single(c), "'" + [c] + "'", bt, w);
    case Dot => CharAgrees(g, txt, k, Any, "any character", bt, w);
    case OneIn(cs) => CharAgrees(g, txt, k, OneOf(cs), "one of '" + cs + "'", bt, w);
    case OneNotIn(cs) => CharAgrees(g, txt, k, NoneOf(cs), "one of '" + cs + "'", bt, w);
    case Begin => AnchorsHold(txt, w); AnchoredAgrees(g, txt, k, StartAnchor, "start of input", bt, w);
    case End => AnchorsHold(txt, w); AnchoredAgrees(g, txt, k, EndAnchor, "end of input", bt, w);
    case _ => OutcomeIsMatchRest(g, txt, k, re, bt, w);
  }

  /** The stop s of a repetition started at w with outputs vs is the greedy repetition gr: the new
      outputs, joined, are the text read. */
  ghost predicate StopAgrees(txt: string, w: World, vs: seq<Val>, gr: Repeated, s: Stop)
    requires 0 <= w.cur.state.pos <= |txt|
    requires gr.Ends? ==> w.cur.state.pos <= gr.end <= |txt|
  {
    && gr.Ends?
    && |s.vs| == |vs| + gr.times && AtText(txt, s.w.cur) && s.w.cur.state.pos == gr.end
    && StrFold(s.vs) == Str(Text(StrFold(vs)) + txt[w.cur.state.pos..gr.end])
    && (gr.times == 0 ==> s.w.cur == w.cur)
  }

  lemma StopAtOnce(txt: string, w: World, vs: seq<Val>, s: Stop)
    requires AtText(txt, w.cur) && s.vs == vs && s.w.cur == w.cur
    ensures StopAgrees(txt, w, vs, Ends(0, w.cur.state.pos), s)
  {
    InText(txt, w.cur);
    StrFoldIsStr(vs);
    assert txt[w.cur.state.pos..w.cur.state.pos] == "";
    hide AtText, StrFold;
  }

  lemma StopLater(txt: string, w: World, vs: seq<Val>, o: Outcome, q: nat, gr: Repeated, s: Stop)
    requires AtText(txt, w.cur) && w.cur.state.pos <= q <= |txt| && Agrees(txt, w, To(q), o)
    requires (gr.Ends? ==> q <= gr.end <= |txt|) && StopAgrees(txt, o.w, vs + [o.r.v], gr, s)
    ensures StopAgrees(txt, w, vs, Ends(gr.times + 1, gr.end), s)
  {
    hide AtText, StrFold;
    InText(txt, w.cur);
    StrFoldSnoc(vs, o.r.v);
    Joins(Text(StrFold(vs)), txt, w.cur.state.pos, q, gr.end);
  }

  lemma GreedyShape(r: Regex, txt: string, pos: nat)
    requires pos <= |txt|
    ensures var m := MatchAt(r, txt, pos);
            match m
            case No => Greedy(r, txt, pos) == Ends(0, pos)
            case Never => Greedy(r, txt, pos) == Forever
            case To(q) =>
              if q == pos || Greedy(r, txt, q).Forever? then Greedy(r, txt, pos) == Forever
              else Greedy(r, txt, pos) == Ends(Greedy(r, txt, q).times + 1, Greedy(r, txt, q).end)
  {
    hide MatchAt;
  }

  /** Whenever a repetition stops, it stops as the greedy repetition does. */
  lemma {:induction false} RepetitionIsGreedy(g: Grammar, txt: string, k: nat, r: Regex, bt: int, w: World,
          vs: seq<Val>)
    requires Ready(txt, bt, w) && EvalMany(g, txt, k, Compile(r), bt, w, vs).Some?
    ensures StopAgrees(txt, w, vs, Greedy(r, txt, w.cur.state.pos), EvalMany(g, txt, k, Compile(r), bt, w, vs).value)
    decreases k, 5
  {
    hide AtText, Eval, MatchAt, Compile, StopAgrees, Greedy;
    InText(txt, w.cur);
    GreedyShape(r, txt, w.cur.state.pos);
    OutcomeIsMatch(g, txt, k, r, bt, w);
    EvalPositive(g, txt, k, Compile(r), bt, w);
    var o := Eval(g, txt, k, Compile(r), bt, w).value;
    var s := EvalMany(g, txt, k, Compile(r), bt, w, vs).value;
    if o.r.Er? {
      StopAtOnce(txt, w, vs, s);
    } else {
      RepetitionIsGreedy(g, txt, k - 1, r, bt, o.w, vs + [o.r.v]);
      var m := MatchAt(r, txt, w.cur.state.pos);
      var gr := Greedy(r, txt, m.pos);
      StopEnds(txt, o.w, vs + [o.r.v], gr, s);
      if m.pos > w.cur.state.pos { StopLater(txt, w, vs, o, m.pos, gr, s); }
    }
  }

  lemma StopEnds(txt: string, w: World, vs: seq<Val>, gr: Repeated, s: Stop)
    requires 0 <= w.cur.state.pos <= |txt| && (gr.Ends? ==> w.cur.state.pos <= gr.end <= |txt|)
    requires StopAgrees(txt, w, vs, gr, s)
    ensures gr.Ends?
  {
  }

  lemma EvalPositive(g: Grammar, txt: string, k: nat, p: Parser, bt: int, w: World)
    requires !p.Ref? && Eval(g, txt, k, p, bt, w).Some?
    ensures k > 0
  {
  }

  lemma {:induction false} OutcomeIsMatchRest(g: Grammar, txt: string, k: nat, re: Regex, bt: int, w: World)
    requires Ready(txt, bt, w) && Eval(g, txt, k, Compile(re), bt, w).Some?
    requires re.Boundary? || re.InClass? || re.Alt? || re.Cat? || re.Star? || re.Plus? || re.Optional? || re.Rep?
    ensures Agrees(txt, w, MatchAt(re, txt, w.cur.state.pos), Eval(g, txt, k, Compile(re), bt, w).value)
    decreases k, 3
  {
    hide LeafOutcome, AtText, AfterUnary, AfterRepeat, AfterAnd, Greedy, EvalMany, ClassParser, BoundaryAnchor;
    InText(txt, w.cur);
    var p, pos := Compile(re), w.cur.state.pos;
    match re
    case Boundary(yes) =>
      AnchorsHold(txt, w);
      if yes { AnchoredAgrees(g, txt, k, BoundaryAnchor, "boundary", bt, w); }
      else { NotBoundaryAgrees(g, txt, k, bt, w); }
    case InClass(c, yes) => InClassAgrees(g, txt, k, c, yes, bt, w);
    case Alt(a, b) => AltAgrees(g, txt, k, a, b, bt, w);
    case Cat(rs) => CatAgrees(g, txt, k, rs, bt, w);
    case Optional(r) => OptionalAgrees(g, txt, k, r, bt, w);
    case _ => RepeatAgrees(g, txt, k, re, bt, w);
  }

  /** An anchor that must not hold. */
  lemma NotAnchorAgrees(g: Grammar, txt: string, k: nat, f: (char, char) -> bool, e: string, bt: int, w: World)
    requires Ready(txt, bt, w) && Eval(g, txt, k, Not(Expect(Anchor(f), e), FREE, Str("")), bt, w).Some?
    ensures 0 <= w.cur.state.pos <= |txt|
    ensures Agrees(txt, w, Here(w.cur.state.pos, !f(w.cur.last, CharAt(txt, w.cur.state.pos))),
                   Eval(g, txt, k, Not(Expect(Anchor(f), e), FREE, Str("")), bt, w).value)
  {
    InText(txt, w.cur);
    hide AtText, Eval, ErrOr, DestroySame;
    var p := Not(Expect(Anchor(f), e), FREE, Str(""));
    UnaryEval(g, txt, k, p, bt, w);
    AnchorAgrees(g, txt, k - 1, f, e, bt, w);
    AfterUnaryCursor(p, bt, w, Eval(g, txt, k - 1, p.x, bt, w).value);
    assert txt[w.cur.state.pos..w.cur.state.pos] == "";
  }

  lemma NotBoundaryAgrees(g: Grammar, txt: string, k: nat, bt: int, w: World)
    requires Ready(txt, bt, w) && Eval(g, txt, k, Compile(Boundary(false)), bt, w).Some?
    ensures 0 <= w.cur.state.pos <= |txt|
    ensures Agrees(txt, w, Here(w.cur.state.pos, !AtBoundary(txt, w.cur.state.pos)), Eval(g, txt, k, Compile(Boundary(false)), bt, w).value)
  {
    InText(txt, w.cur);
    AnchorsHold(txt, w);
    hide AtText, BoundaryAnchor, AtBoundary, Eval, Agrees;
    NotAnchorAgrees(g, txt, k, BoundaryAnchor, "boundary", bt, w);
  }

  lemma InClassShape(c: Class, yes: bool, txt: string, pos: nat)
    requires pos <= |txt|
    ensures Compile(InClass(c, yes)) == if yes then ClassParser(c) else Not(ClassParser(c), FREE, Str(""))
    ensures var m := OneChar(txt, pos, pos < |txt| && ClassHas(c, txt[pos]));
            MatchAt(InClass(c, yes), txt, pos) == if yes then m else Here(pos, m.No?)
  {
    hide ClassParser, ClassHas, Greedy, MatchAll, AtBoundary;
  }

  lemma InClassAgrees(g: Grammar, txt: string, k: nat, c: Class, yes: bool, bt: int, w: World)
    requires Ready(txt, bt, w) && Eval(g, txt, k, Compile(InClass(c, yes)), bt, w).Some?
    ensures 0 <= w.cur.state.pos <= |txt|
    ensures Agrees(txt, w, MatchAt(InClass(c, yes), txt, w.cur.state.pos), Eval(g, txt, k, Compile(InClass(c, yes)), bt, w).value)
  {
    InText(txt, w.cur);
    hide AtText, Eval, ClassParser, ClassHas, Compile, MatchAt, Agrees;
    var x, pos := ClassParser(c), w.cur.state.pos;
    InClassShape(c, yes, txt, pos);
    ClassIsNoRef(c);
    if yes {
      ClassAgrees(g, txt, k, c, bt, w);
    } else {
      UnaryEval(g, txt, k, Not(x, FREE, Str("")), bt, w);
      ClassAgrees(g, txt, k - 1, c, bt, w);
      NotAgrees(g, txt, k, x, bt, w, OneChar(txt, pos, pos < |txt| && ClassHas(c, txt[pos])));
    }
  }

  lemma ClassIsNoRef(c: Class)
    ensures !ClassParser(c).Ref?
  {
  }

  lemma AltShape(a: Regex, b: Regex, txt: string, pos: nat)
    requires pos <= |txt|
    ensures Compile(Alt(a, b)) == Or([Compile(a), Compile(b)])
    ensures MatchAt(Alt(a, b), txt, pos) == if MatchAt(a, txt, pos).No? then MatchAt(b, txt, pos) else MatchAt(a, txt, pos)
  {
    hide Greedy, MatchAll, CompileAll, ClassParser, AtBoundary, ClassHas;
  }

  lemma OptionalShape(a: Regex, txt: string, pos: nat)
    requires pos <= |txt|
    ensures Compile(Optional(a)) == Maybe(Compile(a), Str(""))
    ensures MatchAt(Optional(a), txt, pos) == if MatchAt(a, txt, pos).No? then To(pos) else MatchAt(a, txt, pos)
  {
    hide Greedy, MatchAll, CompileAll, ClassParser, AtBoundary, ClassHas;
  }

  lemma {:induction false} AltAgrees(g: Grammar, txt: string, k: nat, a: Regex, b: Regex, bt: int, w: World)
    requires Ready(txt, bt, w) && Eval(g, txt, k, Compile(Alt(a, b)), bt, w).Some?
    ensures 0 <= w.cur.state.pos <= |txt|
    ensures Agrees(txt, w, MatchAt(Alt(a, b), txt, w.cur.state.pos), Eval(g, txt, k, Compile(Alt(a, b)), bt, w).value)
    decreases k, 2
  {
    hide AtText, Eval, EvalOr, Compile, MatchAt;
    InText(txt, w.cur);
    var xs, pos := [Compile(a), Compile(b)], w.cur.state.pos;
    AltShape(a, b, txt, pos);
    OrEval(g, txt, k, xs, bt, w);
    if Eval(g, txt, k - 1, xs[0], bt, w).Some? { OutcomeIsMatch(g, txt, k - 1, a, bt, w); }
    var m := MatchAt(a, txt, pos);
    var w1, e := NextAgrees(g, txt, k - 1, xs, [], bt, w, m);
    if m.No? {
      if Eval(g, txt, k - 2, xs[1], bt, w1).Some? { OutcomeIsMatch(g, txt, k - 2, b, bt, w1); }
      var _, _ := NextAgrees(g, txt, k - 2, xs, [] + [e], bt, w1, MatchAt(b, txt, pos));
    }
  }

  lemma {:induction false} OptionalAgrees(g: Grammar, txt: string, k: nat, r: Regex, bt: int, w: World)
    requires Ready(txt, bt, w) && Eval(g, txt, k, Compile(Optional(r)), bt, w).Some?
    ensures 0 <= w.cur.state.pos <= |txt|
    ensures Agrees(txt, w, MatchAt(Optional(r), txt, w.cur.state.pos), Eval(g, txt, k, Compile(Optional(r)), bt, w).value)
    decreases k, 2
  {
    hide AtText, Eval, Compile, ErrOr, MatchAt;
    InText(txt, w.cur);
    OptionalShape(r, txt, w.cur.state.pos);
    UnaryEval(g, txt, k, Maybe(Compile(r), Str("")), bt, w);
    OutcomeIsMatch(g, txt, k - 1, r, bt, w);
    assert txt[w.cur.state.pos..w.cur.state.pos] == "";
  }

  lemma StrFoldOf(vs: seq<Val>)
    ensures StrFold(vs).Str?
    ensures |vs| == 2 ==> StrFold(vs) == Str(Text(vs[0]) + Text(vs[1]))
  {
    if |vs| == 2 {
      assert vs[..1] == [vs[0]];
      assert [vs[0]][..0] == [];
      assert "" + Text(vs[0]) == Text(vs[0]);
    }
  }

  lemma {:induction false} CatAgrees(g: Grammar, txt: string, k: nat, rs: seq<Regex>, bt: int, w: World)
    requires Ready(txt, bt, w) && Eval(g, txt, k, CompileAll(rs), bt, w).Some?
    ensures 0 <= w.cur.state.pos <= |txt|
    ensures Agrees(txt, w, MatchAll(rs, txt, w.cur.state.pos), Eval(g, txt, k, CompileAll(rs), bt, w).value)
    decreases k, 2
  {
    InText(txt, w.cur);
    var pos := w.cur.state.pos;
    if rs == [] {
      assert txt[pos..pos] == "";
      hide AtText;
    } else {
      CatAgreesMore(g, txt, k, rs, bt, w);
    }
  }

  lemma CatShape(rs: seq<Regex>)
    requires rs != []
    ensures CompileAll(rs) == And([CompileAll(rs[..|rs|-1]), Compile(rs[|rs|-1])], StrFold, [FREE])
  {
  }

  lemma {:induction false} CatAgreesMore(g: Grammar, txt: string, k: nat, rs: seq<Regex>, bt: int, w: World)
    requires Ready(txt, bt, w) && Eval(g, txt, k, CompileAll(rs), bt, w).Some? && rs != []
    ensures 0 <= w.cur.state.pos <= |txt|
    ensures Agrees(txt, w, MatchAll(rs, txt, w.cur.state.pos), Eval(g, txt, k, CompileAll(rs), bt, w).value)
    decreases k, 1
  {
    hide AtText, Eval, Compile, CompileAll, MatchAt, MatchAll, StrFold;
    InText(txt, w.cur);
    var init, last := rs[..|rs|-1], rs[|rs|-1];
    var x, y, pos := CompileAll(init), Compile(last), w.cur.state.pos;
    CatShape(rs);
    MatchAllSnoc(rs, txt, pos);
    PairEval(g, txt, k, x, y, StrFold, [FREE], bt, w);
    CatAgrees(g, txt, k - 1, init, bt, w);
    var o1 := Eval(g, txt, k - 1, x, bt, w).value;
    if o1.r.Out? {
      OutcomeIsMatch(g, txt, k - 2, last, bt, o1.w);
      var o2 := Eval(g, txt, k - 2, y, bt, o1.w).value;
      var m1 := MatchAll(init, txt, pos);
      var m2 := MatchAt(last, txt, m1.pos);
      if m2.To? {
        Joins("", txt, pos, m1.pos, m2.pos);
        StrFoldOf([o1.r.v, o2.r.v]);
      }
    }
  }

  lemma RepeatShape(re: Regex, txt: string, pos: nat)
    requires (re.Star? || re.Plus? || re.Rep?) && pos <= |txt|
    ensures Compile(re) == (if re.Star? then Many(Compile(re.r), StrFold)
                            else if re.Plus? then Many1(Compile(re.r), StrFold)
                            else Count(re.n, Compile(re.r), StrFold, FREE))
    ensures MatchAt(re, txt, pos) ==
            match Greedy(re.r, txt, pos)
            case Forever => Never
            case Ends(times, end) =>
              if (re.Plus? && times == 0) || (re.Rep? && times != re.n) then No else To(end)
  {
    hide Greedy;
  }

  lemma {:induction false} RepeatAgrees(g: Grammar, txt: string, k: nat, re: Regex, bt: int, w: World)
    requires Ready(txt, bt, w) && (re.Star? || re.Plus? || re.Rep?) && Eval(g, txt, k, Compile(re), bt, w).Some?
    ensures 0 <= w.cur.state.pos <= |txt|
    ensures Agrees(txt, w, MatchAt(re, txt, w.cur.state.pos), Eval(g, txt, k, Compile(re), bt, w).value)
    decreases k, 2
  {
    hide AtText, Greedy, ErrOr, ErrMany1, ErrCount, StrFold, DestroySame, Eval, EvalMany, Compile, MatchAt;
    InText(txt, w.cur);
    var p, pos := Compile(re), w.cur.state.pos;
    RepeatShape(re, txt, pos);
    RepeatEval(g, txt, k, p, bt, w);
    RepetitionIsGreedy(g, txt, k - 1, re.r, bt, w, []);
    var s := EvalMany(g, txt, k - 1, p.x, bt, w, []).value;
    AfterRepeatCursor(p, bt, w, s);
    assert StrFold([]) == Str("") by { EmptyFold(); }
    assert "" + txt[pos..s.w.cur.state.pos] == txt[pos..s.w.cur.state.pos];
  }

  lemma EmptyFold()
    ensures StrFold([]) == Str("")
  {
  }

  /* The compiled parser yields an outcome whenever the expression has a match or none. */

  function Max(a: nat, b: nat): nat { if a > b then a else b }

  lemma PairFrom(g: Grammar, txt: string, k1: nat, k2: nat, x: Parser, y: Parser, f: Fold, bt: int, w: World)
    requires !x.Ref? && !y.Ref? && Eval(g, txt, k1, x, bt, w).Some?
    requires var o := Eval(g, txt, k1, x, bt, w).value; o.r.Out? ==> Eval(g, txt, k2, y, bt, o.w).Some?
    ensures Eval(g, txt, Max(k1, k2) + 2, And([x, y], f, [FREE]), bt, w).Some?
  {
    hide LeafOutcome, AfterUnary, AfterRepeat, AfterAnd;
    var n, xs := Max(k1, k2), [x, y];
    var o := Eval(g, txt, k1, x, bt, w).value;
    EvalMore(g, txt, k1, n + 1, x, bt, w);
    if o.r.Out? {
      EvalMore(g, txt, k2, n, y, bt, o.w);
      assert EvalAnd(g, txt, n, xs, bt, o.w, [] + [o.r.v]).Some?;
    }
    assert EvalAnd(g, txt, n + 1, xs, bt, w, []).Some?;
  }

  lemma OrFrom(g: Grammar, txt: string, k1: nat, k2: nat, xs: seq<Parser>, es: seq<Err>, bt: int, w: World)
    requires |es| < |xs| && !xs[|es|].Ref? && Eval(g, txt, k1, xs[|es|], bt, w).Some?
    requires var o := Eval(g, txt, k1, xs[|es|], bt, w).value;
             o.r.Er? && |es| + 1 < |xs| ==> EvalOr(g, txt, k2, xs, bt, o.w, es + [o.r.e]).Some?
    ensures EvalOr(g, txt, Max(k1, k2) + 1, xs, bt, w, es).Some?
  {
    hide LeafOutcome, AfterUnary, AfterRepeat, AfterAnd, ErrOr, BlameAll;
    var n := Max(k1, k2);
    var o := Eval(g, txt, k1, xs[|es|], bt, w).value;
    EvalMore(g, txt, k1, n + 1, xs[|es|], bt, w);
    if o.r.Er? && |es| + 1 < |xs| { OrMore(g, txt, k2, n, xs, bt, o.w, es + [o.r.e]); }
  }

  lemma ManyFrom(g: Grammar, txt: string, k1: nat, k2: nat, x: Parser, vs: seq<Val>, bt: int, w: World)
    requires !x.Ref? && Eval(g, txt, k1, x, bt, w).Some?
    requires var o := Eval(g, txt, k1, x, bt, w).value; o.r.Out? ==> EvalMany(g, txt, k2, x, bt, o.w, vs + [o.r.v]).Some?
    ensures EvalMany(g, txt, Max(k1, k2) + 1, x, bt, w, vs).Some?
  {
    hide LeafOutcome, AfterUnary, AfterRepeat, AfterAnd;
    var n := Max(k1, k2);
    var o := Eval(g, txt, k1, x, bt, w).value;
    EvalMore(g, txt, k1, n + 1, x, bt, w);
    if o.r.Out? { ManyMore(g, txt, k2, n, x, bt, o.w, vs + [o.r.v]); }
  }

  lemma ExpectLeafEnds(g: Grammar, txt: string, x: Parser, e: string, bt: int, w: World)
    requires IsLeaf(x)
    ensures Eval(g, txt, 2, Expect(x, e), bt, w).Some?
  {
    hide LeafOutcome, AfterUnary;
    assert Eval(g, txt, 1, x, bt, w).Some?;
  }

  lemma OneOfEnds(g: Grammar, txt: string, cs: string, e: string, bt: int, w: World)
    ensures Eval(g, txt, 3, OneOfParser(cs, e), bt, w).Some?
  {
    hide Eval;
    ExpectLeafEnds(g, txt, OneOf(cs), "one of '" + cs + "'", bt, w);
    UnaryEval(g, txt, 3, OneOfParser(cs, e), bt, w);
  }

  lemma WordEnds(g: Grammar, txt: string, bt: int, w: World) returns (k: nat)
    ensures Eval(g, txt, k, ClassParser(Word), bt, w).Some?
  {
    hide Eval, EvalOr, OneOfParser;
    var p := ClassParser(Word);
    k := ThreeEnd(g, txt, LETTERS, DIGITS, bt, w);
    OrEnds(g, txt, k, p.x.xs, bt, w);
    UnaryEval(g, txt, k + 2, p, bt, w);
    k := k + 2;
  }

  lemma OrEnds(g: Grammar, txt: string, k: nat, xs: seq<Parser>, bt: int, w: World)
    requires xs != [] && EvalOr(g, txt, k, xs, bt, w, []).Some?
    ensures Eval(g, txt, k + 1, Or(xs), bt, w).Some?
  {
    hide EvalOr;
  }

  lemma ThreeEnd(g: Grammar, txt: string, a: string, b: string, bt: int, w: World) returns (k: nat)
    ensures EvalOr(g, txt, k, [OneOfParser(a, "letter"), OneOfParser(b, "digit"), UNDERSCORE], bt, w, []).Some?
  {
    hide Eval, EvalOr;
    var xs := [OneOfParser(a, "letter"), OneOfParser(b, "digit"), UNDERSCORE];
    OneOfEnds(g, txt, a, "letter", bt, w);
    var o1 := Eval(g, txt, 3, xs[0], bt, w).value;
    if o1.r.Er? {
      var es1 := [] + [o1.r.e];
      OneOfEnds(g, txt, b, "digit", bt, o1.w);
      var o2 := Eval(g, txt, 3, xs[1], bt, o1.w).value;
      if o2.r.Er? {
        ExpectLeafEnds(g, txt, Single('_'), "'_'", bt, o2.w);
        UnaryEval(g, txt, 3, UNDERSCORE, bt, o2.w);
        OrFrom(g, txt, 3, 3, xs, es1 + [o2.r.e], bt, o2.w);
      }
      OrFrom(g, txt, 3, 4, xs, es1, bt, o1.w);
    }
    OrFrom(g, txt, 3, 5, xs, [], bt, w);
    k := 6;
  }

  lemma ClassEnds(g: Grammar, txt: string, c: Class, bt: int, w: World) returns (k: nat)
    ensures Eval(g, txt, k, ClassParser(c), bt, w).Some?
  {
    hide Eval;
    match c
    case Digit => OneOfEnds(g, txt, DIGITS, "digit", bt, w); k := 3;
    case Space => OneOfEnds(g, txt, SPACES, "whitespace", bt, w); k := 3;
    case Word => k := WordEnds(g, txt, bt, w);
  }

  lemma AnchoredEnds(g: Grammar, txt: string, f: (char, char) -> bool, e: string, bt: int, w: World)
    ensures Eval(g, txt, 4, Anchored(f, e), bt, w).Some?
  {
    ExpectLeafEnds(g, txt, Anchor(f), e, bt, w);
    var o := Eval(g, txt, 2, Expect(Anchor(f), e), bt, w).value;
    assert Eval(g, txt, 1, Lift(Str("")), bt, o.w).Some?;
    hide Eval;
    PairFrom(g, txt, 2, 1, Expect(Anchor(f), e), Lift(Str("")), Second, bt, w);
  }

  /** The expressions without parts. */
  predicate Simple(re: Regex) {
    re.Chr? || re.Dot? || re.OneIn? || re.OneNotIn? || re.Begin? || re.End? || re.Boundary? || re.InClass?
  }

  lemma SimpleEnds(g: Grammar, txt: string, re: Regex, bt: int, w: World) returns (k: nat)
    requires Simple(re)
    ensures Eval(g, txt, k, Compile(re), bt, w).Some?
  {
    hide Eval, ClassParser, Anchored;
    var p := Compile(re);
    if re.Begin? {
      AnchoredEnds(g, txt, StartAnchor, "start of input", bt, w);
      k := 4;
    } else if re.End? {
      AnchoredEnds(g, txt, EndAnchor, "end of input", bt, w);
      k := 4;
    } else if re.Boundary? {
      AnchoredEnds(g, txt, BoundaryAnchor, "boundary", bt, w);
      k := 4;
      if !re.yes {
        ExpectLeafEnds(g, txt, Anchor(BoundaryAnchor), "boundary", bt, w);
        UnaryEval(g, txt, 3, p, bt, w);
        k := 3;
      }
    } else if re.InClass? {
      k := ClassEnds(g, txt, re.class_, bt, w);
      if !re.yes {
        ClassIsNoRef(re.class_);
        UnaryEval(g, txt, k + 1, p, bt, w);
        k := k + 1;
      }
    } else {
      ExpectLeafEnds(g, txt, p.x, p.expected, bt, w);
      k := 2;
    }
  }

  /** If the expression matches or fails, the compiled parser yields an outcome. */
  lemma {:induction false} MatchHasOutcome(g: Grammar, txt: string, re: Regex, bt: int, w: World) returns (k: nat)
    requires Ready(txt, bt, w) && w.cur.state.pos <= |txt| && MatchAt(re, txt, w.cur.state.pos) != Never
    ensures Eval(g, txt, k, Compile(re), bt, w).Some?
    decreases |txt| - w.cur.state.pos, re, 2
  {
    InText(txt, w.cur);
    hide Eval, EvalOr, EvalMany, Compile, MatchAt, AtText, Greedy, Agrees;
    var pos := w.cur.state.pos;
    if Simple(re) {
      k := SimpleEnds(g, txt, re, bt, w);
    } else if re.Alt? {
      k := AltHasOutcome(g, txt, re, bt, w);
    } else if re.Cat? {
      CatIsAll(re.rs, txt, pos);
      k := CatHasOutcome(g, txt, re.rs, bt, w);
    } else if re.Optional? {
      k := OptionalHasOutcome(g, txt, re.r, bt, w);
    } else {
      k := RepeatHasOutcome(g, txt, re, bt, w);
    }
  }

  lemma {:induction false} OptionalHasOutcome(g: Grammar, txt: string, r: Regex, bt: int, w: World) returns (k: nat)
    requires Ready(txt, bt, w) && w.cur.state.pos <= |txt| && MatchAt(Optional(r), txt, w.cur.state.pos) != Never
    ensures Eval(g, txt, k, Compile(Optional(r)), bt, w).Some?
    decreases |txt| - w.cur.state.pos, r, 3
  {
    InText(txt, w.cur);
    hide Eval, Compile, MatchAt, AtText;
    OptionalShape(r, txt, w.cur.state.pos);
    k := MatchHasOutcome(g, txt, r, bt, w);
    k := k + 1;
    UnaryEval(g, txt, k, Maybe(Compile(r), Str("")), bt, w);
  }

  lemma {:induction false} RepeatHasOutcome(g: Grammar, txt: string, re: Regex, bt: int, w: World) returns (k: nat)
    requires Ready(txt, bt, w) && w.cur.state.pos <= |txt| && MatchAt(re, txt, w.cur.state.pos) != Never
    requires re.Star? || re.Plus? || re.Rep?
    ensures Eval(g, txt, k, Compile(re), bt, w).Some?
    decreases |txt| - w.cur.state.pos, re, 1
  {
    InText(txt, w.cur);
    hide Eval, EvalMany, Compile, MatchAt, AtText, Greedy;
    RepeatShape(re, txt, w.cur.state.pos);
    k := RepetitionHasStop(g, txt, re.r, bt, w, []);
    k := k + 1;
    RepeatEval(g, txt, k, Compile(re), bt, w);
  }

  lemma {:induction false} AltHasOutcome(g: Grammar, txt: string, re: Regex, bt: int, w: World) returns (k: nat)
    requires Ready(txt, bt, w) && w.cur.state.pos <= |txt| && re.Alt? && MatchAt(re, txt, w.cur.state.pos) != Never
    ensures Eval(g, txt, k, Compile(re), bt, w).Some?
    decreases |txt| - w.cur.state.pos, re, 1
  {
    InText(txt, w.cur);
    hide Eval, EvalOr, EvalMany, Compile, MatchAt, AtText, Greedy, Agrees;
    AltShape(re.a, re.b, txt, w.cur.state.pos);
    var k1 := MatchHasOutcome(g, txt, re.a, bt, w);
    OutcomeIsMatch(g, txt, k1, re.a, bt, w);
    var o := Eval(g, txt, k1, Compile(re.a), bt, w).value;
    var k2 := 0;
    if o.r.Er? {
      ErrorIsNoMatch(txt, w, MatchAt(re.a, txt, w.cur.state.pos), o);
      k2 := MatchHasOutcome(g, txt, re.b, bt, o.w);
    }
    k := EitherFrom(g, txt, k1, k2, Compile(re.a), Compile(re.b), bt, w);
  }

  lemma ErrorIsNoMatch(txt: string, w: World, m: Match, o: Outcome)
    requires 0 <= w.cur.state.pos <= |txt| && (m.To? ==> w.cur.state.pos <= m.pos <= |txt|)
    requires Agrees(txt, w, m, o) && o.r.Er?
    ensures m.No? && o.w.cur == w.cur
  {
  }

  lemma EitherFrom(g: Grammar, txt: string, k1: nat, k2: nat, x: Parser, y: Parser, bt: int, w: World) returns (k: nat)
    requires !x.Ref? && !y.Ref? && Eval(g, txt, k1, x, bt, w).Some?
    requires var o := Eval(g, txt, k1, x, bt, w).value; o.r.Er? ==> Eval(g, txt, k2, y, bt, o.w).Some?
    ensures Eval(g, txt, k, Or([x, y]), bt, w).Some?
  {
    hide Eval, EvalOr, EvalMany;
    var xs, o := [x, y], Eval(g, txt, k1, x, bt, w).value;
    if o.r.Er? { OrFrom(g, txt, k2, 0, xs, [] + [o.r.e], bt, o.w); }
    OrFrom(g, txt, k1, k2 + 1, xs, [], bt, w);
    k := Max(k1, k2 + 1) + 1;
    OrEnds(g, txt, k, xs, bt, w);
    k := k + 1;
  }

  lemma CatIsAll(rs: seq<Regex>, txt: string, pos: nat)
    requires pos <= |txt|
    ensures Compile(Cat(rs)) == CompileAll(rs) && MatchAt(Cat(rs), txt, pos) == MatchAll(rs, txt, pos)
  {
    hide CompileAll, MatchAll;
  }

  lemma {:induction false} CatHasOutcome(g: Grammar, txt: string, rs: seq<Regex>, bt: int, w: World) returns (k: nat)
    requires Ready(txt, bt, w) && w.cur.state.pos <= |txt| && MatchAll(rs, txt, w.cur.state.pos) != Never
    ensures Eval(g, txt, k, CompileAll(rs), bt, w).Some?
    decreases |txt| - w.cur.state.pos, rs, 0
  {
    InText(txt, w.cur);
    var pos := w.cur.state.pos;
    if rs == [] {
      k := 1;
    } else {
      hide Eval, Compile, CompileAll, MatchAt, MatchAll, AtText;
      var init, last := rs[..|rs|-1], rs[|rs|-1];
      MatchAllSnoc(rs, txt, pos);
      var k1 := CatHasOutcome(g, txt, init, bt, w);
      CatAgrees(g, txt, k1, init, bt, w);
      var o := Eval(g, txt, k1, CompileAll(init), bt, w).value;
      var k2 := 0;
      if o.r.Out? { k2 := MatchHasOutcome(g, txt, last, bt, o.w); }
      CatShape(rs);
      PairFrom(g, txt, k1, k2, CompileAll(init), Compile(last), StrFold, bt, w);
      k := Max(k1, k2) + 2;
    }
  }

  lemma {:induction false} RepetitionHasStop(g: Grammar, txt: string, r: Regex, bt: int, w: World,
          vs: seq<Val>) returns (k: nat)
    requires Ready(txt, bt, w) && w.cur.state.pos <= |txt| && Greedy(r, txt, w.cur.state.pos).Ends?
    ensures EvalMany(g, txt, k, Compile(r), bt, w, vs).Some?
    decreases |txt| - w.cur.state.pos, r, 3
  {
    InText(txt, w.cur);
    hide Eval, EvalMany, Compile, MatchAt, AtText, Greedy;
    GreedyShape(r, txt, w.cur.state.pos);
    var k1 := MatchHasOutcome(g, txt, r, bt, w);
    OutcomeIsMatch(g, txt, k1, r, bt, w);
    var o := Eval(g, txt, k1, Compile(r), bt, w).value;
    var k2 := 0;
    if o.r.Out? { k2 := RepetitionHasStop(g, txt, r, bt, o.w, vs + [o.r.v]); }
    ManyFrom(g, txt, k1, k2, Compile(r), vs, bt, w);
    k := Max(k1, k2) + 1;
  }

  /** The compiled parser computes the greedy matching of the expression: it diverges exactly when
      the matching repeats nothing forever, and otherwise every recursion bound that suffices finds
      the match, with the text read as the output, or the failure, with nothing read. */
  lemma CompiledRegexMatches(g: Grammar, txt: string, re: Regex, bt: int, w: World)
    requires Ready(txt, bt, w)
    ensures 0 <= w.cur.state.pos <= |txt|
    ensures MatchAt(re, txt, w.cur.state.pos) == Never <==> forall k :: Eval(g, txt, k, Compile(re), bt, w) == None
    ensures forall k :: Eval(g, txt, k, Compile(re), bt, w).Some? ==>
              Agrees(txt, w, MatchAt(re, txt, w.cur.state.pos), Eval(g, txt, k, Compile(re), bt, w).value)
  {
    InText(txt, w.cur);
    hide Eval, Compile, MatchAt, AtText;
    forall k: nat | Eval(g, txt, k, Compile(re), bt, w).Some?
      ensures Agrees(txt, w, MatchAt(re, txt, w.cur.state.pos), Eval(g, txt, k, Compile(re), bt, w).value)
    {
      OutcomeIsMatch(g, txt, k, re, bt, w);
    }
    if MatchAt(re, txt, w.cur.state.pos) != Never {
      var k := MatchHasOutcome(g, txt, re, bt, w);
      assert Eval(g, txt, k, Compile(re), bt, w) != None;
    }
  }
}

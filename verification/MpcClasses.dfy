// The characters of the classes \d, \s and \w, and what regular expressions match in the usual sense.
module MpcClasses {
  import opened MpcTypes
  import opened MpcBigStep
  import opened MpcCursors
  import opened MpcRegex
  import opened MpcParses
  import L = MpcLaws

  /** Digits; the blank and codes 9 to 13; letters, digits and the underscore. */
  predicate Belongs(cl: Class, c: char) {
    match cl
    case Digit => '0' <= c <= '9'
    case Space => c == ' ' || 9 <= c as int <= 13
    case Word => 'a' <= c <= 'z' || 'A' <= c <= 'Z' || '0' <= c <= '9' || c == '_'
  }

  lemma DigitsAre(c: char)
    ensures c in DIGITS <==> '0' <= c <= '9'
  {
    if '0' <= c <= '9' {
      var i := c as int - '0' as int;
      assert DIGITS[i] == c;
    }
  }

  lemma SpacesAre(c: char)
    ensures c in SPACES <==> c == ' ' || 9 <= c as int <= 13
  {
  }

  lemma LettersAre(c: char)
    ensures c in LETTERS <==> 'a' <= c <= 'z' || 'A' <= c <= 'Z'
  {
    assert LETTERS == LOWER + UPPER;
    LowerAre(c);
    UpperAre(c);
  }

  const LOWER := "abcdefghijklmnopqrstuvwxyz"
  const UPPER := "ABCDEFGHIJKLMNOPQRSTUVWXYZ"

  lemma LowerAre(c: char)
    ensures c in LOWER <==> 'a' <= c <= 'z'
  {
    if 'a' <= c <= 'z' {
      var i := c as int - 'a' as int;
      assert LOWER[i] == c;
    }
  }

  lemma UpperAre(c: char)
    ensures c in UPPER <==> 'A' <= c <= 'Z'
  {
    if 'A' <= c <= 'Z' {
      var i := c as int - 'A' as int;
      assert UPPER[i] == c;
    }
  }

  lemma ClassIs(cl: Class, c: char)
    ensures ClassHas(cl, c) <==> Belongs(cl, c)
  {
    match cl
    case Digit => DigitsAre(c);
    case Space => SpacesAre(c);
    case Word =>
      hide LETTERS, DIGITS;
      LettersAre(c);
      DigitsAre(c);
      assert c in WORD <==> c in LETTERS || c in DIGITS || c == '_';
  }

  lemma ClassMatches(cl: Class, txt: string, pos: nat)
    requires pos <= |txt|
    ensures MatchAt(InClass(cl, true), txt, pos) == if pos < |txt| && Belongs(cl, txt[pos]) then To(pos + 1) else No
    ensures MatchAt(InClass(cl, false), txt, pos) == if pos < |txt| && Belongs(cl, txt[pos]) then No else To(pos)
  {
    hide ClassHas, Belongs;
    if pos < |txt| { ClassIs(cl, txt[pos]); }
  }

  /** A boundary is either end of the text, or where word characters begin or end. */
  lemma BoundaryMatches(yes: bool, txt: string, pos: nat)
    requires pos <= |txt|
    ensures MatchAt(Boundary(yes), txt, pos) ==
      if (pos == 0 || pos == |txt| || Belongs(Word, txt[pos-1]) != Belongs(Word, txt[pos])) == yes then To(pos) else No
  {
    hide WORD;
    if 0 < pos < |txt| {
      ClassIs(Word, txt[pos-1]);
      ClassIs(Word, txt[pos]);
    }
  }

  /** Parsing a text with a class alone reads its first character exactly if it belongs to the class. */
  method ParseClass(g: Grammar, cl: Class, text: string) returns (success: bool, r: Res)
    requires '\0' !in text
    ensures success <==> text != "" && Belongs(cl, text[0])
    ensures if success then r == Out(Str(text[..1])) else r.Er?
  {
    ClassMatches(cl, text, 0);
    hide MatchAt, Belongs;
    success, r := ParseRegex(g, InClass(cl, true), text);
  }

  // Membership in the language of an expression, in the usual sense

  /** The stretch of the text from i to j is one that the expression describes. */
  ghost predicate Fits(re: Regex, txt: string, i: nat, j: nat)
    requires i <= |txt| && j <= |txt|
    decreases re, 0
  {
    match re
    case Chr(c) => i < |txt| && j == i + 1 && txt[i] == c
    case Dot => i < |txt| && j == i + 1
    case OneIn(cs) => i < |txt| && j == i + 1 && txt[i] in cs
    case OneNotIn(cs) => i < |txt| && j == i + 1 && txt[i] !in cs
    case Begin => i == j == 0
    case End => i == j == |txt|
    case Boundary(yes) => i == j && (i == 0 || i == |txt| || Belongs(Word, txt[i-1]) != Belongs(Word, txt[i])) == yes
    case InClass(cl, yes) =>
      if yes then i < |txt| && j == i + 1 && Belongs(cl, txt[i]) else i == j && (i < |txt| ==> !Belongs(cl, txt[i]))
    case Alt(a, b) => Fits(a, txt, i, j) || Fits(b, txt, i, j)
    case Cat(rs) => FitsAll(rs, txt, i, j)
    case Optional(r) => i == j || Fits(r, txt, i, j)
    case Star(r) => exists n: nat :: FitsTimes(r, txt, i, j, n)
    case Plus(r) => exists n: nat :: n > 0 && FitsTimes(r, txt, i, j, n)
    case Rep(n, r) => n >= 0 && FitsTimes(r, txt, i, j, n)
  }

  ghost predicate FitsAll(rs: seq<Regex>, txt: string, i: nat, j: nat)
    requires i <= |txt| && j <= |txt|
    decreases rs, 0
  {
    if rs == [] then i == j
    else exists m: nat | m <= |txt| :: Fits(rs[0], txt, i, m) && FitsAll(rs[1..], txt, m, j)
  }

  /** n such stretches, one after the other. */
  ghost predicate FitsTimes(r: Regex, txt: string, i: nat, j: nat, n: nat)
    requires i <= |txt| && j <= |txt|
    decreases r, n + 1
  {
    if n == 0 then i == j
    else exists m: nat | m <= |txt| :: Fits(r, txt, i, m) && FitsTimes(r, txt, m, j, n - 1)
  }

  /** What the greedy matching finds is in the language of the expression. */
  lemma {:induction false} MatchFits(re: Regex, txt: string, i: nat)
    requires i <= |txt| && MatchAt(re, txt, i).To?
    ensures Fits(re, txt, i, MatchAt(re, txt, i).pos)
    decreases |txt| - i, re, 0
  {
    match re
    case Boundary(yes) => BoundaryMatches(yes, txt, i);
    case InClass(cl, yes) => ClassMatches(cl, txt, i);
    case Alt(a, b) => if MatchAt(a, txt, i).To? { MatchFits(a, txt, i); } else { MatchFits(b, txt, i); }
    case Cat(rs) => AllFit(rs, txt, i);
    case Optional(r) => if MatchAt(r, txt, i).To? { MatchFits(r, txt, i); }
    case Star(r) => GreedyFits(r, txt, i);
    case Plus(r) => GreedyFits(r, txt, i);
    case Rep(n, r) => GreedyFits(r, txt, i);
    case _ =>
  }

  lemma {:induction false} AllFit(rs: seq<Regex>, txt: string, i: nat)
    requires i <= |txt| && MatchAll(rs, txt, i).To?
    ensures FitsAll(rs, txt, i, MatchAll(rs, txt, i).pos)
    decreases |txt| - i, rs, 0
  {
    hide MatchAt, Fits;
    if rs != [] {
      MatchFits(rs[0], txt, i);
      AllFit(rs[1..], txt, MatchAt(rs[0], txt, i).pos);
    }
  }

  /** A repetition goes on until the expression no longer matches. */
  lemma {:induction false} GreedyFits(r: Regex, txt: string, i: nat)
    requires i <= |txt| && Greedy(r, txt, i).Ends?
    ensures var Ends(times, end) := Greedy(r, txt, i); FitsTimes(r, txt, i, end, times) && MatchAt(r, txt, end).No?
    decreases |txt| - i, r, 1
  {
    hide MatchAt, Fits;
    var m := MatchAt(r, txt, i);
    if m.To? {
      MatchFits(r, txt, i);
      GreedyFits(r, txt, m.pos);
    }
  }

  // Which of several matches is taken, and why there is none

  /** The first alternative that matches is taken, however far another one would go, and an option is taken where it can be. */
  lemma FirstChoice(a: Regex, b: Regex, txt: string, i: nat)
    requires i <= |txt| && MatchAt(a, txt, i).To?
    ensures MatchAt(Alt(a, b), txt, i) == MatchAt(Optional(a), txt, i) == MatchAt(a, txt, i)
    ensures MatchAt(Alt(b, a), txt, i) == if MatchAt(b, txt, i).No? then MatchAt(a, txt, i) else MatchAt(b, txt, i)
  {
  }

  predicate IsAtom(re: Regex) { !(re.Alt? || re.Cat? || re.Optional? || re.Star? || re.Plus? || re.Rep?) }

  /** The expressions before the one at m fit, and that one does not match behind them. */
  ghost predicate BreaksAt(rs: seq<Regex>, txt: string, i: nat, m: nat, j: nat)
    requires i <= |txt| && j <= |txt|
  {
    m < |rs| && FitsAll(rs[..m], txt, i, j) && MatchAt(rs[m], txt, j).No?
  }

  /** Why an expression does not match. */
  ghost predicate Misses(re: Regex, txt: string, i: nat)
    requires i <= |txt|
  {
    match re
    case Alt(a, b) => MatchAt(a, txt, i).No? && MatchAt(b, txt, i).No?
    case Cat(rs) => exists m: nat, j: nat | j <= |txt| :: BreaksAt(rs, txt, i, m, j)
    case Optional(_) => false
    case Star(_) => false
    case Plus(r) => MatchAt(r, txt, i).No?
    case Rep(n, r) => exists times: nat, j: nat | j <= |txt| :: times != n && FitsTimes(r, txt, i, j, times) && MatchAt(r, txt, j).No?
    case _ => forall j: nat | j <= |txt| :: !Fits(re, txt, i, j)
  }

  /** If there is no match, then no stretch fits an expression of one character or an anchor, neither alternative matches, an
      expression of a sequence does not match behind the ones before it, or a repetition goes on to another number than asked for. */
  lemma NoMatch(re: Regex, txt: string, i: nat)
    requires i <= |txt| && MatchAt(re, txt, i).No?
    ensures Misses(re, txt, i)
  {
    match re
    case Boundary(yes) => BoundaryMatches(yes, txt, i);
    case InClass(cl, yes) => ClassMatches(cl, txt, i);
    case Cat(rs) => var m, j := AllBreak(rs, txt, i);
    case Plus(r) => GreedyFits(r, txt, i);
    case Rep(n, r) => GreedyFits(r, txt, i);
    case _ =>
  }

  lemma {:induction false} AllBreak(rs: seq<Regex>, txt: string, i: nat) returns (m: nat, j: nat)
    requires i <= |txt| && MatchAll(rs, txt, i).No?
    ensures j <= |txt| && BreaksAt(rs, txt, i, m, j)
    decreases |rs|
  {
    hide MatchAt, Fits;
    m, j := 0, i;
    var first := MatchAt(rs[0], txt, i);
    if first.To? {
      MatchFits(rs[0], txt, i);
      m, j := AllBreak(rs[1..], txt, first.pos);
      assert rs[..m + 1][1..] == rs[1..][..m];
      m := m + 1;
    }
  }

  // What expressions say when they do not match

  /** The name by which an expression of one character is expected. */
  function ExpectedName(re: Regex): string
    requires re.Chr? || re.Dot? || re.OneIn? || re.OneNotIn? || (re.InClass? && re.yes)
  {
    match re
    case Chr(c) => "'" + [c] + "'"
    case Dot => "any character"
    case OneIn(cs) => "one of '" + cs + "'"
    case OneNotIn(cs) => "one of '" + cs + "'"
    case _ => if re.class_.Digit? then "digit" else if re.class_.Space? then "whitespace" else "alphanumeric"
  }

  lemma MismatchNames(g: Grammar, txt: string, k: nat, re: Regex, bt: int, w: World)
    requires re.Chr? || re.Dot? || re.OneIn? || re.OneNotIn? || (re.InClass? && re.yes)
    requires Ready(txt, bt, w) && Eval(g, txt, k, Compile(re), bt, w).Some? && Eval(g, txt, k, Compile(re), bt, w).value.r.Er?
    ensures L.IsNamed(Eval(g, txt, k, Compile(re), bt, w).value.r, w.cur.state, ExpectedName(re))
  {
    var p := Compile(re);
    assert p.Expect? && p.expected == ExpectedName(re);
    var i := L.ExpectLaw(g, txt, k, p.x, p.expected, bt, w);
    InText(txt, w.cur);
    OutcomeIsMatch(g, txt, k, re, bt, w);
    hide Eval, MatchAt, AtText;
  }
}

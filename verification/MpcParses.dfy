// Whole parses: what the parsing loop in place returns for compiled regular expressions and grammars.
module MpcParses {
  import opened MpcTypes
  import opened Options
  import opened MpcErrors
  import opened MpcInput
  import opened MpcCursors
  import opened MpcBigStep
  import opened MpcAdequacy
  import opened MpcEngine
  import opened MpcLaws
  import R = MpcRegex
  import G = MpcGrammar
  import T = MpcTrees

  function Begun(): World { World(START, UNKNOWN_ERROR, []) }

  /** The meaning of a compiled regular expression is its greedy match. */
  lemma RegexMeaning(g: Grammar, txt: string, re: R.Regex, bt: int, w: World)
    requires R.Ready(txt, bt, w)
    requires 0 <= w.cur.state.pos <= |txt| && R.MatchAt(re, txt, w.cur.state.pos) != R.Never
    ensures Terminates(g, txt, R.Compile(re), bt, w)
    ensures R.Agrees(txt, w, R.MatchAt(re, txt, w.cur.state.pos), Meaning(g, txt, R.Compile(re), bt, w))
  {
    hide Eval, R.Compile, R.MatchAt, AtText, Meaning;
    var k := R.MatchHasOutcome(g, txt, re, bt, w);
    R.OutcomeIsMatch(g, txt, k, re, bt, w);
    MeaningIs(g, txt, k, R.Compile(re), bt, w);
  }

  /** Parsing a text with a regular expression returns the text of the greedy match at its start, or an error if there is none. */
  method ParseRegex(g: Grammar, re: R.Regex, text: string) returns (success: bool, r: Res)
    requires '\0' !in text && R.MatchAt(re, text, 0) != R.Never
    ensures match R.MatchAt(re, text, 0)
            case To(q) => success && r == Out(Str(text[..q]))
            case _ => !success && r.Er?
  {
    RegexMeaning(g, text, re, 1, Begun());
    hide Eval, R.Compile, R.MatchAt, Meaning;
    success, r := Parse(g, text, R.Compile(re));
  }

  lemma TermMeaning(rules: map<string, G.Term>, txt: string, t: G.Term, bt: int, w: World)
    requires R.Ready(txt, bt, w) && Terminates(G.CompileRules(rules), txt, G.Compile(t), bt, w)
    ensures G.Built(txt, w, Meaning(G.CompileRules(rules), txt, G.Compile(t), bt, w))
  {
    hide Eval, G.Compile, G.CompileRules, AtText, Meaning;
    var g := G.CompileRules(rules);
    var k :| Eval(g, txt, k, G.Compile(t), bt, w).Some?;
    G.TermBuilds(rules, txt, k, t, bt, w);
    MeaningIs(g, txt, k, G.Compile(t), bt, w);
  }

  /** The tree of a rule: its name is in front of the tag, or in front of that of the only child of a root. */
  ghost predicate NamedTree(a: Ast, name: string) {
    || (name + "|" <= a.tag && |a.children| <= 1)
    || (a.tag == ">" && a.contents == "" && |a.children| == 1 && name + "|" <= a.children[0].tag && |a.children[0].children| > 1)
  }

  /** What is known of the tree v that a term builds at the start of a text. */
  ghost predicate TreeOf(t: G.Term, text: string, v: Val) {
    && (v.Tree? ==> G.Sited(text, v.ast, 0))
    && (t.Literal? ==> v == Tree(Ast("string", t.s, State(0, 0, 0), [])))
    && (t.Character? ==> v == Tree(Ast("char", [t.c], State(0, 0, 0), [])))
    && (t.Pattern? ==> v == Tree(Ast("regex", G.Leaves(v), State(0, 0, 0), [])))
    && (t.Rule? && v.Tree? ==> v.ast.state == State(0, 0, 0) && NamedTree(v.ast, t.name))
  }

  lemma TermTree(rules: map<string, G.Term>, text: string, t: G.Term, o: Outcome, k: nat)
    requires '\0' !in text && Eval(G.CompileRules(rules), text, k, G.Compile(t), 1, Begun()) == Some(o) && o.r.Out?
    requires G.Built(text, Begun(), o)
    ensures TreeOf(t, text, o.r.v)
  {
    hide Eval, G.Compile, G.CompileRules, AtText, G.Sited;
    assert AtText(text, START) by { StartAtText(text); }
    if T.ReadsToken(t) {
      T.TokenBuilt(rules, text, k, t, 1, Begun());
      TokenTree(rules, text, t, o, k);
    } else if t.Rule? {
      var j, i := T.RuleBuilt(rules, text, k, t.name, 1, Begun(), o);
    }
  }

  lemma StartAtText(text: string)
    ensures AtText(text, START)
  {
  }

  lemma TokenTree(rules: map<string, G.Term>, text: string, t: G.Term, o: Outcome, k: nat)
    requires T.ReadsToken(t) && o.r.Out? && T.IsToken(text, o.r.v, T.Kind(t), START, o.w.cur)
    requires '\0' !in text && Eval(G.CompileRules(rules), text, k, G.Compile(t), 1, Begun()) == Some(o)
    ensures t.Literal? ==> o.r.v.ast.contents == t.s
    ensures t.Character? ==> o.r.v.ast.contents == [t.c]
    ensures o.r.v.ast.contents == G.Leaves(o.r.v)
  {
    LeafLeaves(o.r.v.ast);
    assert AtText(text, START) by { StartAtText(text); }
    T.TokenText(rules, text, k, t, 1, Begun());
    hide Eval, G.Compile, G.CompileRules, AtText, G.Leaves;
  }

  lemma LeafLeaves(a: Ast)
    requires a.children == []
    ensures G.Leaves(Tree(a)) == a.contents
  {
    assert G.Yields([]) == "";
    assert G.Yield(a) == a.contents + G.Yields(a.children) == a.contents;
  }

  /** A parse with a grammar that succeeds returns a tree whose leaves, in order, are a prefix of the text, each a token at its place;
      tokens and rules say what they are. */
  method ParseTerm(rules: map<string, G.Term>, t: G.Term, text: string) returns (success: bool, r: Res)
    requires '\0' !in text && Terminates(G.CompileRules(rules), text, G.Compile(t), 1, Begun())
    ensures success == r.Out?
    ensures success ==> G.IsTree(r.v) && G.Leaves(r.v) <= text && TreeOf(t, text, r.v)
  {
    TermMeaning(rules, text, t, 1, Begun());
    ghost var o := Meaning(G.CompileRules(rules), text, G.Compile(t), 1, Begun());
    ghost var k :| Eval(G.CompileRules(rules), text, k, G.Compile(t), 1, Begun()) == Some(o);
    hide Eval, G.Compile, G.CompileRules, Meaning, G.IsTree, G.Leaves, G.Sited, TreeOf;
    if o.r.Out? { TermTree(rules, text, t, o, k); }
    success, r := Parse(G.CompileRules(rules), text, G.Compile(t));
  }

  /** A failing parse returns its error merged with those given up on the way. */
  lemma ReturnedMerges(o: Outcome)
    requires o.r.Er?
    ensures Returned(o).Er? && Merges([o.w.err, o.r.e], Returned(o).e)
    ensures Accounts(Returned(o).e, o.r.e) && Accounts(Returned(o).e, o.w.err)
  {
    MergedIsRight([o.w.err, o.r.e]);
    MergesAccounts([o.w.err, o.r.e], Returned(o).e, o.r.e);
    MergesAccounts([o.w.err, o.r.e], Returned(o).e, o.w.err);
    hide ErrOr, Merges, Accounts;
  }

  /** Parsing with a named parser: if it fails, the error returned lies where the parser ended or further; if there, and if it is no
      failure, the name is among what it expects. */
  method ParseNamed(g: Grammar, text: string, x: Parser, m: string) returns (success: bool, r: Res)
    requires Terminates(g, text, Expect(x, m), 1, Begun())
    ensures var end := Meaning(g, text, Expect(x, m), 1, Begun()).w;
      if success then r.Out?
      else
        && r.Er? && r.e.state.pos >= end.cur.state.pos
        && (r.e.state.pos == end.cur.state.pos && r.e.failure.None? ==> m in r.e.expected)
  {
    ghost var o := NamedMeaning(g, text, x, m);
    hide Terminates, Meaning, Returned, Merges;
    success, r := Parse(g, text, Expect(x, m));
    if !success { ReturnedMerges(o); }
  }

  lemma NamedMeaning(g: Grammar, text: string, x: Parser, m: string) returns (o: Outcome)
    requires Terminates(g, text, Expect(x, m), 1, Begun())
    ensures o == Meaning(g, text, Expect(x, m), 1, Begun()) && (o.r.Er? ==> IsNamed(o.r, o.w.cur.state, m))
  {
    o := Meaning(g, text, Expect(x, m), 1, Begun());
    hide Meaning;
    var k :| Eval(g, text, k, Expect(x, m), 1, Begun()) == Some(o);
    hide Eval;
    var i := ExpectLaw(g, text, k, x, m, 1, Begun());
  }

  /** Parsing "b" with the letter a: the error is at the start and expects the letter by its name. */
  method ParseLetter() returns (r: Res)
    ensures r == Er(Err(State(0, 0, 0), ["letter a"], None))
  {
    ghost var o := LetterFails();
    hide Terminates, Meaning, Returned, Eval, Merges;
    var success;
    success, r := Parse(map[], "b", Expect(Single('a'), "letter a"));
    ReturnedMerges(o);
    OnlyOne(r.e, o.r.e);
  }

  lemma LetterFails() returns (o: Outcome)
    ensures Terminates(map[], "b", Expect(Single('a'), "letter a"), 1, Begun())
    ensures o == Meaning(map[], "b", Expect(Single('a'), "letter a"), 1, Begun())
    ensures IsNamed(o.r, State(0, 0, 0), "letter a") && o.w.err == UNKNOWN_ERROR
  {
    var p := Expect(Single('a'), "letter a");
    assert Eval(map[], "b", 1, Single('a'), 1, Begun()).Some?;
    MeaningIs(map[], "b", 2, p, 1, Begun());
    o := Meaning(map[], "b", p, 1, Begun());
  }

  /** Merged with the error that a parse starts with, an error behind it stays as it is. */
  lemma OnlyOne(m: Err, e: Err)
    requires Merges([UNKNOWN_ERROR, e], m) && e.state.pos >= 0 && e.failure.None? && |e.expected| == 1
    ensures m == e
  {
    var xs := [UNKNOWN_ERROR, e];
    assert xs[1] == e && e in xs;
    assert forall x <- xs :: x == UNKNOWN_ERROR || x == e;
    assert e.expected[0] in e.expected;
    assert e.expected[0] in m.expected;
    forall i | 0 <= i < |m.expected| ensures m.expected[i] == e.expected[0] {
      assert m.expected[i] in m.expected;
    }
    if |m.expected| > 1 {
      DistinctAt(m.expected, 0, 1);
      assert false;
    }
    assert m.expected == e.expected;
  }

  lemma DistinctAt(xs: seq<string>, i: nat, j: nat)
    requires Distinct(xs) && i < j < |xs|
    ensures xs[i] != xs[j]
  {
  }
}

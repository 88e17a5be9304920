// The trees that grammar terms build: tokens with their kinds and places, rules with their names.
module MpcTrees {
  import opened MpcTypes
  import opened Options
  import opened MpcInput
  import opened MpcBigStep
  import opened MpcCursors
  import opened MpcGrammar
  import L = MpcLaws

  predicate ReadsToken(t: Term) { t.Literal? || t.Character? || t.Pattern? }

  /** The tag of the token that a term reads, if it reads one. */
  function Kind(t: Term): string
    requires ReadsToken(t)
  {
    if t.Literal? then "string" else if t.Character? then "char" else "regex"
  }

  /** The token of the text between two cursors, at the place of the first. */
  ghost predicate IsToken(txt: string, v: Val, kind: string, a: Cursor, b: Cursor) {
    && AtText(txt, a) && AtText(txt, b) && a.state.pos <= b.state.pos
    && v == Tree(Ast(kind, txt[a.state.pos..b.state.pos], a.state, []))
  }

  /** Literals, characters and patterns build tokens of kind string, char and regex, with the text read, where they stand. */
  lemma TokenBuilt(rules: map<string, Term>, txt: string, k: nat, t: Term, bt: int, w: World)
    requires ReadsToken(t) && R.Ready(txt, bt, w) && Eval(CompileRules(rules), txt, k, Compile(t), bt, w).Some?
    ensures var o := Eval(CompileRules(rules), txt, k, Compile(t), bt, w).value;
      o.r.Out? ==> IsToken(txt, o.r.v, Kind(t), w.cur, o.w.cur)
  {
    var g := CompileRules(rules);
    match t
    case Literal(s) =>
      var x := Expect(String(s), "\"" + s + "\"");
      if k >= 4 && Eval(g, txt, k - 4, x, bt, w).Some? { LiteralIsText(g, txt, k - 4, String(s), x.expected, bt, w); }
      TextBuilds(g, txt, k, x, "string", bt, w);
    case Character(c) =>
      var x := Expect(Single(c), "'" + [c] + "'");
      if k >= 4 && Eval(g, txt, k - 4, x, bt, w).Some? { LiteralIsText(g, txt, k - 4, Single(c), x.expected, bt, w); }
      TextBuilds(g, txt, k, x, "char", bt, w);
    case Pattern(re) =>
      if k >= 4 && Eval(g, txt, k - 4, R.Compile(re), bt, w).Some? { PatternIsText(g, txt, k - 4, re, bt, w); }
      TextBuilds(g, txt, k, R.Compile(re), "regex", bt, w);
  }

  lemma TextBuilds(g: Grammar, txt: string, k: nat, p: Parser, kind: string, bt: int, w: World)
    requires R.Ready(txt, bt, w) && !p.Ref? && Eval(g, txt, k, LeafParser(p, kind), bt, w).Some?
    requires k >= 4 && Eval(g, txt, k - 4, p, bt, w).Some? ==> IsText(txt, w, Eval(g, txt, k - 4, p, bt, w).value)
    ensures var o := Eval(g, txt, k, LeafParser(p, kind), bt, w).value; o.r.Out? ==> IsToken(txt, o.r.v, kind, w.cur, o.w.cur)
  {
    hide Eval, AtText;
    var a := Apply(p, StrAst);
    var b := ApplyTo(a, SetTag, Str(kind));
    WithStateEval(g, txt, k, b, bt, w);
    UnaryEval(g, txt, k - 2, b, bt, w);
    UnaryEval(g, txt, k - 3, a, bt, w);
  }

  /** A literal is what is read for it. */
  lemma TokenText(rules: map<string, Term>, txt: string, k: nat, t: Term, bt: int, w: World)
    requires ReadsToken(t) && R.Ready(txt, bt, w) && Eval(CompileRules(rules), txt, k, Compile(t), bt, w).Some?
    ensures var o := Eval(CompileRules(rules), txt, k, Compile(t), bt, w).value;
      o.r.Out? && o.r.v.Tree? ==> (t.Literal? ==> o.r.v.ast.contents == t.s) && (t.Character? ==> o.r.v.ast.contents == [t.c])
  {
    var g := CompileRules(rules);
    if t.Literal? {
      ExpectedText(g, txt, k, String(t.s), "\"" + t.s + "\"", "string", t.s, bt, w);
    } else if t.Character? {
      ExpectedText(g, txt, k, Single(t.c), "'" + [t.c] + "'", "char", [t.c], bt, w);
    }
    hide Eval;
  }

  lemma ExpectedText(g: Grammar, txt: string, k: nat, x: Parser, e: string, kind: string, s: string, bt: int, w: World)
    requires bt >= 1 && (x == String(s) || (x.Single? && s == [x.c])) && Eval(g, txt, k, LeafParser(Expect(x, e), kind), bt, w).Some?
    ensures var o := Eval(g, txt, k, LeafParser(Expect(x, e), kind), bt, w).value; o.r.Out? && o.r.v.Tree? ==> o.r.v.ast.contents == s
  {
    var b := ApplyTo(Apply(Expect(x, e), StrAst), SetTag, Str(kind));
    assert LeafParser(Expect(x, e), kind) == WithState(b) && !b.Ref?;
    hide *;
    WithStateEval(g, txt, k, b, bt, w);
    TaggedText(g, txt, k - 2, x, e, kind, s, bt, w);
    SameContents(Eval(g, txt, k - 2, b, bt, w).value.r, w.cur.state);
  }

  lemma SameContents(r: Res, s: State)
    ensures r.Out? ==> InState(r.v, s).Tree? == r.v.Tree? && (r.v.Tree? ==> InState(r.v, s).ast.contents == r.v.ast.contents)
  {
  }

  lemma TaggedText(g: Grammar, txt: string, k: nat, x: Parser, e: string, kind: string, s: string, bt: int, w: World)
    requires x == String(s) || (x.Single? && s == [x.c])
    requires Eval(g, txt, k, ApplyTo(Apply(Expect(x, e), StrAst), SetTag, Str(kind)), bt, w).Some?
    ensures var o := Eval(g, txt, k, ApplyTo(Apply(Expect(x, e), StrAst), SetTag, Str(kind)), bt, w).value;
      o.r.Out? && o.r.v.Tree? ==> o.r.v.ast.contents == s
  {
    hide Eval;
    var p := Expect(x, e);
    var a := Apply(p, StrAst);
    UnaryEval(g, txt, k, ApplyTo(a, SetTag, Str(kind)), bt, w);
    UnaryEval(g, txt, k - 1, a, bt, w);
    UnaryEval(g, txt, k - 2, p, bt, w);
    LeafText(g, txt, k - 3, x, s, bt, w);
  }

  lemma LeafText(g: Grammar, txt: string, k: nat, x: Parser, s: string, bt: int, w: World)
    requires x == String(s) || (x.Single? && s == [x.c])
    ensures Eval(g, txt, k, x, bt, w).Some? && Eval(g, txt, k, x, bt, w).value.r.Out? ==> Eval(g, txt, k, x, bt, w).value.r.v == Str(s)
  {
    hide Matched;
  }

  /** a with the name of a rule in front of its tag. */
  ghost predicate IsNamed(a: Ast, name: string, b: Ast) {
    b.tag == name + "|" + a.tag && b.contents == a.contents && b.children == a.children
  }

  /** a under a new root. */
  ghost predicate IsRoot(b: Ast, name: string, a: Ast) {
    b.tag == ">" && b.contents == "" && |b.children| == 1 && IsNamed(a, name, b.children[0]) && b.children[0].state == a.state
  }

  /** A rule puts its name in front of the tag of what its right-hand side built; with more than one child that goes under a new root.
      Either way the tree has the place where the rule began. */
  ghost predicate IsRule(v: Val, name: string, s: State, r: Val) {
    && (!v.Tree? ==> r == v)
    && (v.Tree? ==> r.Tree? && r.ast.state == s && if |v.ast.children| <= 1 then IsNamed(v.ast, name, r.ast) else IsRoot(r.ast, name, v.ast))
  }

  lemma NamedIsRule(v: Val, name: string, s: State)
    ensures IsRule(v, name, s, InState(AddRoot(AddTag(v, Str(name))), s))
  {
  }

  function Naming(name: string): Parser { Apply(ApplyTo(Ref(name), AddTag, Str(name)), AddRoot) }

  lemma RuleOuter(g: Grammar, txt: string, k: nat, name: string, bt: int, w: World, o: Outcome) returns (i: Outcome)
    requires bt >= 1 && Eval(g, txt, k, Compile(Rule(name)), bt, w) == Some(o) && o.r.Out?
    ensures k >= 2 && Eval(g, txt, k - 2, Naming(name), bt, w) == Some(i) && i.r.Out?
    ensures o == Outcome(Out(InState(i.r.v, w.cur.state)), i.w)
  {
    assert Compile(Rule(name)) == WithState(Naming(name)) && !Naming(name).Ref?;
    hide *;
    WithStateEval(g, txt, k, Naming(name), bt, w);
    i := Eval(g, txt, k - 2, Naming(name), bt, w).value;
  }

  lemma RuleInner(g: Grammar, txt: string, k: nat, name: string, bt: int, w: World, o: Outcome) returns (i: Outcome)
    requires Eval(g, txt, k, Naming(name), bt, w) == Some(o) && o.r.Out?
    ensures k >= 2 && Eval(g, txt, k - 2, Resolve(g, Ref(name)), bt, w) == Some(i)
    ensures i.r.Out? && i.w == o.w && o.r.v == AddRoot(AddTag(i.r.v, Str(name)))
  {
    hide Eval, AddRoot, AddTag;
    var a := ApplyTo(Ref(name), AddTag, Str(name));
    UnaryEval(g, txt, k, Naming(name), bt, w);
    ReferenceEval(g, txt, k - 1, a, bt, w);
    i := Eval(g, txt, k - 2, Resolve(g, Ref(name)), bt, w).value;
  }

  lemma RuleResolved(rules: map<string, Term>, txt: string, k: nat, name: string, bt: int, w: World, i: Outcome)
    requires Eval(CompileRules(rules), txt, k, Resolve(CompileRules(rules), Ref(name)), bt, w) == Some(i) && i.r.Out?
    ensures name in rules && Eval(CompileRules(rules), txt, k, Compile(rules[name]), bt, w) == Some(i)
  {
    hide Eval;
    if name !in rules { UndefinedFails(CompileRules(rules), txt, k, bt, w); }
  }

  lemma RuleBuilt(rules: map<string, Term>, txt: string, k: nat, name: string, bt: int, w: World, o: Outcome) returns (j: nat, i: Outcome)
    requires bt >= 1 && Eval(CompileRules(rules), txt, k, Compile(Rule(name)), bt, w) == Some(o) && o.r.Out?
    ensures name in rules && Eval(CompileRules(rules), txt, j, Compile(rules[name]), bt, w) == Some(i)
    ensures i.r.Out? && i.w == o.w && IsRule(i.r.v, name, w.cur.state, o.r.v)
  {
    hide *;
    var m := RuleOuter(CompileRules(rules), txt, k, name, bt, w, o);
    i := RuleInner(CompileRules(rules), txt, k - 2, name, bt, w, m);
    j := k - 4;
    RuleResolved(rules, txt, j, name, bt, w, i);
    NamedIsRule(i.r.v, name, w.cur.state);
  }

  /** Two trees are put under a new root, each that has children giving up its own node for them; nothing is left out, and a lone tree stays as it is. */
  lemma FoldLaw(a: Ast, b: Ast, v: Val)
    ensures var l, r := if a.children == [] then [a] else a.children, if b.children == [] then [b] else b.children;
      FoldAst([Tree(a), Tree(b)]) == Tree(Ast(">", "", l[0].state, l + r))
    ensures FoldAst([]) == Null && FoldAst([v]) == v && FoldAst([Null, v]) == v && FoldAst([v, Null]) == v
  {
    var vs := [Tree(a), Tree(b)];
    assert vs[..1] == [Tree(a)] && vs[..1][..0] == [];
    assert AllParts(vs) == AllParts(vs[..1]) + Parts(Tree(b));
    assert AllParts(vs[..1]) == [] + Parts(Tree(a));
  }

  /** Any number of leaves, if there is more than one, are put under a new root in order. */
  lemma FoldLeaves(vs: seq<Val>)
    requires |vs| > 1 && forall i :: 0 <= i < |vs| ==> vs[i].Tree? && vs[i].ast.children == []
    ensures var v := FoldAst(vs);
      v.Tree? && v.ast.tag == ">" && v.ast.contents == "" && v.ast.state == vs[0].ast.state
      && |v.ast.children| == |vs| && forall i :: 0 <= i < |vs| ==> v.ast.children[i] == vs[i].ast
  {
    LeavesAreParts(vs);
    hide AllParts;
  }

  lemma {:induction false} LeavesAreParts(vs: seq<Val>)
    requires forall i :: 0 <= i < |vs| ==> vs[i].Tree? && vs[i].ast.children == []
    ensures |AllParts(vs)| == |vs| && forall i :: 0 <= i < |vs| ==> AllParts(vs)[i] == vs[i].ast
  {
    if vs != [] { LeavesAreParts(vs[..|vs|-1]); }
  }

  /** The children from a to b are what a value adds below a new root: nothing, itself if it is a leaf, or its own children. */
  ghost predicate IsShare(v: Val, children: seq<Ast>, a: nat, b: nat) {
    && a <= b <= |children|
    && (!v.Tree? ==> a == b)
    && (v.Tree? ==> children[a..b] == if v.ast.children == [] then [v.ast] else v.ast.children)
  }

  /** The values have their shares of the children, one after the other, divided at the given places. */
  ghost predicate AreShares(vs: seq<Val>, children: seq<Ast>, at: seq<nat>) {
    && |at| == |vs| + 1 && at[0] == 0 && at[|vs|] == |children|
    && forall i | 0 <= i < |vs| :: IsShare(vs[i], children, at[i], at[i + 1])
  }

  /** Three or more values are put under a new root, each with its share of the children; the root has the place of the first child. */
  lemma FoldShares(vs: seq<Val>) returns (at: seq<nat>)
    requires |vs| > 2
    ensures var v := FoldAst(vs);
      && v.Tree? && v.ast.tag == ">" && v.ast.contents == "" && AreShares(vs, v.ast.children, at)
      && v.ast.state == if v.ast.children == [] then State(0, 0, 0) else v.ast.children[0].state
  {
    at := SharesOf(vs);
    hide AllParts;
  }

  lemma {:induction false} SharesOf(vs: seq<Val>) returns (at: seq<nat>)
    ensures AreShares(vs, AllParts(vs), at)
  {
    at := [0];
    if vs != [] {
      hide IsShare, Parts;
      var n := |vs| - 1;
      var few, all := AllParts(vs[..n]), AllParts(vs);
      var before := SharesOf(vs[..n]);
      at := before + [|all|];
      LastShare(few, vs[n]);
      forall i | 0 <= i < n ensures IsShare(vs[i], all, at[i], at[i + 1]) {
        assert vs[..n][i] == vs[i];
        StillShare(vs[i], few, Parts(vs[n]), before[i], before[i + 1]);
      }
    }
  }

  lemma LastShare(children: seq<Ast>, v: Val)
    ensures IsShare(v, children + Parts(v), |children|, |children + Parts(v)|)
  {
    assert (children + Parts(v))[|children|..] == Parts(v);
  }

  lemma StillShare(v: Val, children: seq<Ast>, more: seq<Ast>, a: nat, b: nat)
    requires IsShare(v, children, a, b)
    ensures IsShare(v, children + more, a, b)
  {
    assert (children + more)[a..b] == children[a..b];
  }

  predicate AreTokens(ts: seq<Term>) { forall i :: 0 <= i < |ts| ==> ReadsToken(ts[i]) }

  /** The tokens of ts, one after the other: alone, or under a root at the place of the first. */
  ghost predicate AreBuilt(txt: string, v: Val, ts: seq<Term>, cs: seq<Cursor>)
    requires AreTokens(ts)
  {
    && ts != [] && |cs| == |ts| + 1
    && (|ts| == 1 ==> IsToken(txt, v, Kind(ts[0]), cs[0], cs[1]))
    && (|ts| > 1 ==>
         && v.Tree? && v.ast.tag == ">" && v.ast.contents == "" && v.ast.state == cs[0].state && |v.ast.children| == |ts|
         && forall i :: 0 <= i < |ts| ==> IsToken(txt, Tree(v.ast.children[i]), Kind(ts[i]), cs[i], cs[i + 1]))
  }

  lemma TokenIsLeaf(txt: string, v: Val, kind: string, a: Cursor, b: Cursor)
    requires IsToken(txt, v, kind, a, b)
    ensures v.Tree? && v.ast.children == [] && v.ast.state == a.state
  {
  }

  lemma SnocBuilt(txt: string, v: Val, ts: seq<Term>, cs: seq<Cursor>, t: Term, u: Val, c: Cursor)
    requires AreTokens(ts) && ReadsToken(t) && AreBuilt(txt, v, ts, cs) && IsToken(txt, u, Kind(t), cs[|ts|], c)
    ensures AreTokens(ts + [t]) && AreBuilt(txt, FoldAst([v, u]), ts + [t], cs + [c])
  {
    hide FoldAst, IsToken, Kind;
    TokenIsLeaf(txt, u, Kind(t), cs[|ts|], c);
    if |ts| == 1 {
      TokenIsLeaf(txt, v, Kind(ts[0]), cs[0], cs[1]);
    } else {
      TokenIsLeaf(txt, Tree(v.ast.children[0]), Kind(ts[0]), cs[0], cs[1]);
    }
    FoldLaw(v.ast, u.ast, Null);
    var more, on, r := ts + [t], cs + [c], FoldAst([v, u]);
    assert r.ast.children == (if |ts| == 1 then [v.ast] else v.ast.children) + [u.ast];
    forall i | 0 <= i < |more| ensures IsToken(txt, Tree(r.ast.children[i]), Kind(more[i]), on[i], on[i + 1]) {
      if i < |ts| {
        assert more[i] == ts[i] && on[i] == cs[i] && on[i + 1] == cs[i + 1];
      }
    }
  }

  /** A sequence of tokens builds one flat tree of them. */
  lemma {:induction false} TokensBuilt(rules: map<string, Term>, txt: string, k: nat, ts: seq<Term>, bt: int, w: World) returns (cs: seq<Cursor>)
    requires ts != [] && AreTokens(ts) && R.Ready(txt, bt, w) && Eval(CompileRules(rules), txt, k, CompileAll(ts), bt, w).Some?
    requires Eval(CompileRules(rules), txt, k, CompileAll(ts), bt, w).value.r.Out?
    ensures var o := Eval(CompileRules(rules), txt, k, CompileAll(ts), bt, w).value;
      AreBuilt(txt, o.r.v, ts, cs) && cs[0] == w.cur && cs[|ts|] == o.w.cur
    decreases |ts|
  {
    hide Eval, AtText, CompileRules, Compile, CompileAll, FoldAst, AreBuilt, IsToken;
    var g, front, t := CompileRules(rules), ts[..|ts|-1], ts[|ts|-1];
    SequenceShape(ts);
    assert ReadsToken(t) && AreTokens(front);
    var x, y := CompileAll(front), Compile(t);
    R.PairEval(g, txt, k, x, y, FoldAst, [AST_DELETE], bt, w);
    var o1 := Eval(g, txt, k - 1, x, bt, w).value;
    if front == [] {
      FirstBuilt(rules, txt, k, ts, t, bt, w, o1);
      cs := [w.cur, Eval(g, txt, k, CompileAll(ts), bt, w).value.w.cur];
    } else {
      cs := TokensBuilt(rules, txt, k - 1, front, bt, w);
      BuiltEnds(txt, o1.r.v, front, cs);
      TokenBuilt(rules, txt, k - 2, t, bt, o1.w);
      var o2 := Eval(g, txt, k - 2, y, bt, o1.w).value;
      assert front + [t] == ts;
      SnocBuilt(txt, o1.r.v, front, cs, t, o2.r.v, o2.w.cur);
      cs := cs + [o2.w.cur];
    }
  }

  lemma BuiltEnds(txt: string, v: Val, ts: seq<Term>, cs: seq<Cursor>)
    requires AreTokens(ts) && AreBuilt(txt, v, ts, cs)
    ensures |cs| == |ts| + 1 && AtText(txt, cs[|ts|])
  {
    hide AtText, Kind;
    if |ts| > 1 { assert IsToken(txt, Tree(v.ast.children[|ts|-1]), Kind(ts[|ts|-1]), cs[|ts|-1], cs[|ts|]); }
  }

  lemma FirstBuilt(rules: map<string, Term>, txt: string, k: nat, ts: seq<Term>, t: Term, bt: int, w: World, o1: Outcome)
    requires ts == [t] && AreTokens(ts) && ReadsToken(t) && R.Ready(txt, bt, w) && k >= 2
    requires Eval(CompileRules(rules), txt, k - 1, CompileAll([]), bt, w) == Some(o1) && o1.r.Out?
    requires Eval(CompileRules(rules), txt, k - 2, Compile(t), bt, o1.w).Some? && Eval(CompileRules(rules), txt, k - 2, Compile(t), bt, o1.w).value.r.Out?
    ensures var o2 := Eval(CompileRules(rules), txt, k - 2, Compile(t), bt, o1.w).value;
      o1.w == w && AreBuilt(txt, FoldAst([o1.r.v, o2.r.v]), ts, [w.cur, o2.w.cur])
  {
    assert CompileAll([]) == Pass;
    assert o1 == Outcome(Out(Null), w);
    hide Eval, Compile, CompileRules, AtText;
    TokenBuilt(rules, txt, k - 2, t, bt, w);
  }

  // What tokens say when they are not there

  /** The parser behind a state fails with its own error. */
  lemma WithStateFails(g: Grammar, txt: string, k: nat, b: Parser, bt: int, w: World) returns (i: Outcome)
    requires Eval(g, txt, k, WithState(b), bt, w).Some? && Eval(g, txt, k, WithState(b), bt, w).value.r.Er?
    ensures L.Gives(g, txt, b, bt, w, i) && Eval(g, txt, k, WithState(b), bt, w).value.r == i.r
  {
    hide Eval;
    var vs, ws, last := L.AndLaw(g, txt, k, WithState(b), bt, w);
    i := last;
    var first := if |vs| == 0 then last else Outcome(Out(vs[0]), ws[1]);
    assert L.Gives(g, txt, StateOf, bt, w, first);
    var j :| Eval(g, txt, j, Resolve(g, StateOf), bt, w) == Some(first);
    L.BlindLaw(g, txt, j, StateOf, bt, w);
  }

  lemma NamedFails(g: Grammar, txt: string, x: Parser, e: string, kind: string, bt: int, w: World, i: Outcome) returns (j: Outcome)
    requires L.Gives(g, txt, ApplyTo(Apply(Expect(x, e), StrAst), SetTag, Str(kind)), bt, w, i) && i.r.Er?
    ensures L.Gives(g, txt, x, bt, w, j) && j.r.Er? && L.IsNamed(i.r, j.w.cur.state, e)
  {
    hide Eval;
    var p := Expect(x, e);
    var a := Apply(p, StrAst);
    var k1 :| Eval(g, txt, k1, ApplyTo(a, SetTag, Str(kind)), bt, w) == Some(i);
    var i1 := L.ApplyToLaw(g, txt, k1, a, SetTag, Str(kind), bt, w);
    var k2 :| Eval(g, txt, k2, a, bt, w) == Some(i1);
    var i2 := L.ApplyLaw(g, txt, k2, p, StrAst, bt, w);
    var k3 :| Eval(g, txt, k3, p, bt, w) == Some(i2);
    j := L.ExpectLaw(g, txt, k3, x, e, bt, w);
  }

  /** A literal or a character that is not there is expected, in quotes, where it should be. */
  lemma TokenExpected(rules: map<string, Term>, txt: string, k: nat, t: Term, bt: int, w: World)
    requires (t.Literal? || t.Character?) && R.Ready(txt, bt, w) && Eval(CompileRules(rules), txt, k, Compile(t), bt, w).Some?
    requires Eval(CompileRules(rules), txt, k, Compile(t), bt, w).value.r.Er?
    ensures L.IsNamed(Eval(CompileRules(rules), txt, k, Compile(t), bt, w).value.r, w.cur.state,
                      if t.Literal? then "\"" + t.s + "\"" else "'" + [t.c] + "'")
  {
    var g := CompileRules(rules);
    var x := if t.Literal? then String(t.s) else Single(t.c);
    var e := if t.Literal? then "\"" + t.s + "\"" else "'" + [t.c] + "'";
    var b := ApplyTo(Apply(Expect(x, e), StrAst), SetTag, Str(Kind(t)));
    assert Compile(t) == WithState(b);
    hide Eval, Compile, WithState, AtText, CompileRules;
    var i := WithStateFails(g, txt, k, b, bt, w);
    var j := NamedFails(g, txt, x, e, Kind(t), bt, w, i);
    LeafFailsInPlace(g, txt, x, bt, w, j);
  }

  lemma LeafFailsInPlace(g: Grammar, txt: string, x: Parser, bt: int, w: World, j: Outcome)
    requires (x.String? || x.Single?) && R.Ready(txt, bt, w) && L.Gives(g, txt, x, bt, w, j) && j.r.Er?
    ensures j.w.cur == w.cur
  {
    hide Matched, AdvanceBy, AtText;
  }
}

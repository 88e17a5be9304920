// Compiling grammars: the syntax tree that a whitespace sensitive grammar builds has exactly the
// text it read at its leaves.
module MpcGrammar {
  import opened MpcTypes
  import opened Options
  import opened MpcErrors
  import opened MpcInput
  import opened MpcBigStep
  import opened MpcCursors
  import opened MpcBacktracking
  import R = MpcRegex

  /** The right-hand sides of grammar rules. */
  datatype Term =
    | Literal(s: string)
    | Character(c: char)
    | Pattern(re: R.Regex)
    | Rule(name: string)
    | Sequence(ts: seq<Term>)
    | Choice(a: Term, b: Term)
    | Star(t: Term)
    | Plus(t: Term)
    | Optional(t: Term)
    | Forbid(t: Term)
    | Times(n: int, t: Term)

  /* Building trees. */

  function Leaf(contents: string): Ast { Ast("", contents, START_STATE, []) }

  function StrAst(v: Val): Val { Tree(Leaf(R.Text(v))) }

  function SetTag(v: Val, tag: Val): Val {
    if v.Tree? then Tree(v.ast.(tag := R.Text(tag))) else v
  }

  function AddTag(v: Val, tag: Val): Val {
    if v.Tree? then Tree(v.ast.(tag := R.Text(tag) + "|" + v.ast.tag)) else v
  }

  /** Puts a tree with more than one child under a new root. */
  function AddRoot(v: Val): Val {
    if v.Tree? && |v.ast.children| > 1 then Tree(Ast(">", "", START_STATE, [v.ast])) else v
  }

  /** Gives the second value the position in the first. */
  function StateAst(vs: seq<Val>): Val {
    if |vs| < 2 then Null
    else if vs[0].Position? && vs[1].Tree? then Tree(vs[1].ast.(state := vs[0].state))
    else vs[1]
  }

  /** The children a value contributes: its own if it has any, otherwise itself. */
  function Parts(v: Val): seq<Ast> {
    if !v.Tree? then [] else if v.ast.children != [] then v.ast.children else [v.ast]
  }

  function AllParts(vs: seq<Val>): seq<Ast> {
    if vs == [] then [] else AllParts(vs[..|vs|-1]) + Parts(vs[|vs|-1])
  }

  function FoldAst(vs: seq<Val>): Val {
    if vs == [] then Null
    else if |vs| == 1 then vs[0]
    else if |vs| == 2 && vs[1] == Null then vs[0]
    else if |vs| == 2 && vs[0] == Null then vs[1]
    else
      var children := AllParts(vs);
      Tree(Ast(">", "", if children == [] then START_STATE else children[0].state, children))
  }

  /** The fold as it runs: one loop over the values, one over the children of each. */
  method FoldAstInPlace(vs: seq<Val>) returns (v: Val)
    ensures v == FoldAst(vs)
  {
    var n := |vs|;
    if n == 0 { return Null; }
    if n == 1 { return vs[0]; }
    if n == 2 && vs[1] == Null { return vs[0]; }
    if n == 2 && vs[0] == Null { return vs[1]; }
    var children: seq<Ast> := [];
    for i := 0 to n
      invariant children == AllParts(vs[..i])
    {
      assert vs[..i+1][..i] == vs[..i];
      if vs[i].Tree? {
        var parts := vs[i].ast.children;
        if |parts| > 0 {
          for j := 0 to |parts|
            invariant children == AllParts(vs[..i]) + parts[..j]
          {
            children := children + [parts[j]];
          }
        } else {
          children := children + [vs[i].ast];
        }
      }
    }
    assert vs[..n] == vs;
    var r := Ast(">", "", START_STATE, children);
    if |children| > 0 { r := r.(state := children[0].state); }
    return Tree(r);
  }

  /* The parsers that terms are compiled to. */

  const AST_DELETE: Dtor := 1

  function WithState(p: Parser): Parser { And([StateOf, p], StateAst, [R.FREE]) }

  function LeafParser(p: Parser, tag: string): Parser {
    WithState(ApplyTo(Apply(p, StrAst), SetTag, Str(tag)))
  }

  function Compile(t: Term): (p: Parser)
    ensures !p.Ref?
  {
    match t
    case Literal(s) => LeafParser(Expect(String(s), "\"" + s + "\""), "string")
    case Character(c) => LeafParser(Expect(Single(c), "'" + [c] + "'"), "char")
    case Pattern(re) => LeafParser(R.Compile(re), "regex")
    case Rule(name) => WithState(Apply(ApplyTo(Ref(name), AddTag, Str(name)), AddRoot))
    case Sequence(ts) => CompileAll(ts)
    case Choice(a, b) => Or([Compile(a), Compile(b)])
    case Star(t) => Many(Compile(t), FoldAst)
    case Plus(t) => Many1(Compile(t), FoldAst)
    case Optional(t) => Maybe(Compile(t), Null)
    case Forbid(t) => Not(Compile(t), AST_DELETE, Null)
    case Times(n, t) => Count(n, Compile(t), FoldAst, AST_DELETE)
  }

  function CompileAll(ts: seq<Term>): (p: Parser)
    ensures !p.Ref?
  {
    if ts == [] then Pass
    else And([CompileAll(ts[..|ts|-1]), Compile(ts[|ts|-1])], FoldAst, [AST_DELETE])
  }

  function CompileRules(rules: map<string, Term>): Grammar {
    map name <- rules :: Compile(rules[name])
  }

  /* The text at the leaves. */

  function Yield(a: Ast): string { a.contents + Yields(a.children) }

  function Yields(as_: seq<Ast>): string {
    if as_ == [] then "" else Yields(as_[..|as_|-1]) + Yield(as_[|as_|-1])
  }

  /** Inner nodes have no contents of their own. */
  predicate Proper(a: Ast) {
    (a.children != [] ==> a.contents == "") && forall i :: 0 <= i < |a.children| ==> Proper(a.children[i])
  }

  function Leaves(v: Val): string { if v.Tree? then Yield(v.ast) else "" }

  function LeavesOf(vs: seq<Val>): string {
    if vs == [] then "" else LeavesOf(vs[..|vs|-1]) + Leaves(vs[|vs|-1])
  }

  predicate IsTree(v: Val) { v == Null || (v.Tree? && Proper(v.ast)) }

  predicate AreTrees(vs: seq<Val>) { forall i :: 0 <= i < |vs| ==> IsTree(vs[i]) }

  lemma {:induction false} YieldsJoin(a: seq<Ast>, b: seq<Ast>)
    ensures Yields(a + b) == Yields(a) + Yields(b)
    decreases |b|
  {
    if b == [] {
      assert a + b == a;
    } else {
      YieldsJoin(a, b[..|b|-1]);
      assert (a + b)[..|a + b|-1] == a + b[..|b|-1];
    }
  }

  lemma PartsYield(v: Val)
    requires IsTree(v)
    ensures Yields(Parts(v)) == Leaves(v) && forall i :: 0 <= i < |Parts(v)| ==> Proper(Parts(v)[i])
  {
    if v.Tree? && v.ast.children == [] {
      assert Yields([v.ast]) == Yields([v.ast][..0]) + Yield(v.ast);
    }
  }

  lemma {:induction false} AllPartsYield(vs: seq<Val>)
    requires AreTrees(vs)
    ensures Yields(AllParts(vs)) == LeavesOf(vs)
    ensures forall i :: 0 <= i < |AllParts(vs)| ==> Proper(AllParts(vs)[i])
  {
    if vs != [] {
      var init, last := vs[..|vs|-1], vs[|vs|-1];
      AllPartsYield(init);
      PartsYield(last);
      YieldsJoin(AllParts(init), Parts(last));
    }
  }

  lemma LeavesOfFew(vs: seq<Val>)
    ensures |vs| == 0 ==> LeavesOf(vs) == ""
    ensures |vs| == 1 ==> LeavesOf(vs) == Leaves(vs[0])
    ensures |vs| == 2 ==> LeavesOf(vs) == Leaves(vs[0]) + Leaves(vs[1])
  {
    if |vs| >= 1 {
      assert vs[..1][..0] == [];
      assert "" + Leaves(vs[0]) == Leaves(vs[0]);
    }
    if |vs| == 1 { assert vs[..1] == vs; }
  }

  lemma NewRoot(children: seq<Ast>, state: State)
    requires forall i :: 0 <= i < |children| ==> Proper(children[i])
    ensures var v := Tree(Ast(">", "", state, children)); IsTree(v) && Leaves(v) == Yields(children)
  {
    assert "" + Yields(children) == Yields(children);
  }

  /** Folding conserves the leaves. */
  lemma FoldKeepsLeaves(vs: seq<Val>)
    requires AreTrees(vs)
    ensures IsTree(FoldAst(vs)) && Leaves(FoldAst(vs)) == LeavesOf(vs)
  {
    hide LeavesOf, AllParts, Yields, Yield, Proper;
    LeavesOfFew(vs);
    if |vs| == 1 || (|vs| == 2 && (vs[0] == Null || vs[1] == Null)) {
      assert Leaves(Null) == "";
    } else if vs != [] {
      AllPartsYield(vs);
      NewRoot(AllParts(vs), FoldAst(vs).ast.state);
    }
  }

  lemma RootKeepsLeaves(v: Val)
    requires IsTree(v)
    ensures IsTree(AddRoot(v)) && Leaves(AddRoot(v)) == Leaves(v)
  {
    if v.Tree? && |v.ast.children| > 1 {
      assert [v.ast][..0] == [];
      assert Yields([v.ast]) == "" + Yield(v.ast);
      assert "" + Yields([v.ast]) == Yields([v.ast]);
    }
  }

  lemma TagKeepsLeaves(v: Val, tag: Val, vs: seq<Val>)
    requires IsTree(v)
    ensures IsTree(AddTag(v, tag)) && Leaves(AddTag(v, tag)) == Leaves(v)
    ensures IsTree(SetTag(v, tag)) && Leaves(SetTag(v, tag)) == Leaves(v)
    ensures |vs| == 2 && vs[1] == v ==> IsTree(StateAst(vs)) && Leaves(StateAst(vs)) == Leaves(v)
  {
  }

  lemma LeavesOfSnoc(vs: seq<Val>, v: Val)
    ensures LeavesOf(vs + [v]) == LeavesOf(vs) + Leaves(v)
    ensures AreTrees(vs) && IsTree(v) ==> AreTrees(vs + [v])
  {
    assert (vs + [v])[..|vs|] == vs;
  }

  /* The kinds and the places of the leaves. */

  predicate EndsIn(tag: string, kind: string) { |kind| <= |tag| && tag[|tag|-|kind|..] == kind }

  /** The tag of a token, perhaps behind the names of rules. */
  predicate IsTokenTag(tag: string) { EndsIn(tag, "string") || EndsIn(tag, "char") || EndsIn(tag, "regex") }

  /** Row and column of s are those of reading the text up to pos. */
  ghost predicate StandsAt(txt: string, s: State, pos: nat) {
    pos <= |txt| && s.pos == pos && AtText(txt, Cursor(s, if pos == 0 then '\0' else txt[pos-1]))
  }

  /** Every leaf below a is a token whose place is where its text stands, when the text of a stands at pos, or an empty ">" node. */
  ghost predicate Sited(txt: string, a: Ast, pos: nat) {
    if a.children == [] then (IsTokenTag(a.tag) && StandsAt(txt, a.state, pos)) || (EndsIn(a.tag, ">") && a.contents == "")
    else AllSited(txt, a.children, pos)
  }

  ghost predicate AllSited(txt: string, as_: seq<Ast>, pos: nat) {
    as_ == [] || (AllSited(txt, as_[..|as_|-1], pos) && Sited(txt, as_[|as_|-1], pos + |Yields(as_[..|as_|-1])|))
  }

  ghost predicate ValueSited(txt: string, v: Val, pos: nat) { v.Tree? ==> Sited(txt, v.ast, pos) }

  ghost predicate ValuesSited(txt: string, vs: seq<Val>, pos: nat) {
    vs == [] || (ValuesSited(txt, vs[..|vs|-1], pos) && ValueSited(txt, vs[|vs|-1], pos + |LeavesOf(vs[..|vs|-1])|))
  }

  lemma {:induction false} SitedJoin(txt: string, a: seq<Ast>, b: seq<Ast>, pos: nat)
    requires AllSited(txt, a, pos) && AllSited(txt, b, pos + |Yields(a)|)
    ensures AllSited(txt, a + b, pos)
    decreases |b|
  {
    hide Sited;
    if b == [] {
      assert a + b == a;
    } else {
      SitedJoin(txt, a, b[..|b|-1], pos);
      YieldsJoin(a, b[..|b|-1]);
      assert (a + b)[..|a + b|-1] == a + b[..|b|-1];
    }
  }

  lemma OneSited(txt: string, a: Ast, pos: nat)
    requires Sited(txt, a, pos)
    ensures AllSited(txt, [a], pos)
  {
    assert [a][..0] == [];
    assert |Yields([])| == 0;
    hide Sited;
  }

  lemma PartsSited(txt: string, v: Val, pos: nat)
    requires ValueSited(txt, v, pos)
    ensures AllSited(txt, Parts(v), pos)
  {
    if v.Tree? && v.ast.children == [] { OneSited(txt, v.ast, pos); }
  }

  lemma {:induction false} AllPartsSited(txt: string, vs: seq<Val>, pos: nat)
    requires AreTrees(vs) && ValuesSited(txt, vs, pos)
    ensures AllSited(txt, AllParts(vs), pos)
  {
    hide ValueSited, AllSited, Parts, LeavesOf, Yields, IsTree;
    if vs != [] {
      var init, last := vs[..|vs|-1], vs[|vs|-1];
      AllPartsSited(txt, init, pos);
      AllPartsYield(init);
      PartsSited(txt, last, pos + |LeavesOf(init)|);
      SitedJoin(txt, AllParts(init), Parts(last), pos);
    } else {
      NoneSited(txt, pos);
    }
  }

  lemma NoneSited(txt: string, pos: nat)
    ensures AllSited(txt, [], pos) && ValuesSited(txt, [], pos)
  {
  }

  lemma FewSited(txt: string, vs: seq<Val>, pos: nat)
    requires ValuesSited(txt, vs, pos)
    ensures |vs| == 1 ==> ValueSited(txt, vs[0], pos)
    ensures |vs| == 2 ==> ValueSited(txt, vs[0], pos) && ValueSited(txt, vs[1], pos + |Leaves(vs[0])|)
  {
    hide ValueSited, Leaves;
    if |vs| >= 1 {
      assert vs[..1][..0] == [];
      assert LeavesOf([]) == "";
      LeavesOfFew(vs[..1]);
    }
  }

  lemma SnocSited(txt: string, vs: seq<Val>, v: Val, pos: nat)
    requires ValuesSited(txt, vs, pos) && ValueSited(txt, v, pos + |LeavesOf(vs)|)
    ensures ValuesSited(txt, vs + [v], pos)
  {
    hide ValueSited, LeavesOf;
    assert (vs + [v])[..|vs|] == vs;
  }

  lemma PairSited(txt: string, a: Val, b: Val, pos: nat)
    requires ValueSited(txt, a, pos) && ValueSited(txt, b, pos + |Leaves(a)|)
    ensures ValuesSited(txt, [a, b], pos)
  {
    hide ValueSited, Leaves;
    assert [] + [a] == [a] && [a] + [b] == [a, b];
    assert LeavesOf([]) == "";
    LeavesOfFew([a]);
    SnocSited(txt, [], a, pos);
    SnocSited(txt, [a], b, pos);
  }

  /** Folding leaves every leaf at its place. */
  lemma FoldSited(txt: string, vs: seq<Val>, pos: nat)
    requires AreTrees(vs) && ValuesSited(txt, vs, pos)
    ensures ValueSited(txt, FoldAst(vs), pos)
  {
    FewSited(txt, vs, pos);
    if |vs| == 1 || (|vs| == 2 && (vs[0] == Null || vs[1] == Null)) {
      assert Leaves(Null) == "";
    } else if vs != [] {
      AllPartsSited(txt, vs, pos);
      assert EndsIn(">", ">");
    }
    hide AllParts, ValuesSited, IsTokenTag, EndsIn, StandsAt;
  }

  lemma RootSited(txt: string, v: Val, pos: nat)
    requires ValueSited(txt, v, pos)
    ensures ValueSited(txt, AddRoot(v), pos)
  {
    if v.Tree? { OneSited(txt, v.ast, pos); }
  }

  lemma LongerTag(front: string, tag: string, kind: string)
    requires EndsIn(tag, kind)
    ensures EndsIn(front + tag, kind)
  {
  }

  lemma TagSited(txt: string, v: Val, name: string, pos: nat)
    requires ValueSited(txt, v, pos)
    ensures ValueSited(txt, AddTag(v, Str(name)), pos)
  {
    if v.Tree? && v.ast.children == [] {
      forall kind | EndsIn(v.ast.tag, kind) ensures EndsIn(name + "|" + v.ast.tag, kind) {
        LongerTag(name + "|", v.ast.tag, kind);
      }
    }
    hide EndsIn, StandsAt, AllSited;
  }

  /** The value of a tree in the state s. */
  function InState(v: Val, s: State): Val { if v.Tree? then Tree(v.ast.(state := s)) else v }

  lemma InStateSited(txt: string, v: Val, s: State, pos: nat)
    requires ValueSited(txt, v, pos) && StandsAt(txt, s, pos)
    ensures ValueSited(txt, InState(v, s), pos)
  {
    hide IsTokenTag, EndsIn, StandsAt, AllSited;
  }

  lemma CursorStands(txt: string, c: Cursor)
    requires AtText(txt, c)
    ensures 0 <= c.state.pos <= |txt| && StandsAt(txt, c.state, c.state.pos)
  {
  }

  /* What a run builds. */

  /** If the outcome o of a run from w is an output, it is a tree with the text read at its leaves. */
  ghost predicate Holds(txt: string, w: World, o: Outcome) {
    o.r.Out? ==>
      && AtText(txt, w.cur) && AtText(txt, o.w.cur) && w.cur.state.pos <= o.w.cur.state.pos
      && IsTree(o.r.v) && Leaves(o.r.v) == Slice(txt, w.cur, o.w.cur)
  }

  /** And every leaf is a token, at its place in the text. */
  ghost predicate Built(txt: string, w: World, o: Outcome) {
    Holds(txt, w, o) && (o.r.Out? ==> 0 <= w.cur.state.pos && ValueSited(txt, o.r.v, w.cur.state.pos))
  }

  ghost function Slice(txt: string, a: Cursor, b: Cursor): string
    requires AtText(txt, a) && AtText(txt, b) && a.state.pos <= b.state.pos
  {
    txt[a.state.pos..b.state.pos]
  }

  lemma SliceLength(txt: string, a: Cursor, b: Cursor)
    requires AtText(txt, a) && AtText(txt, b) && a.state.pos <= b.state.pos
    ensures |Slice(txt, a, b)| == b.state.pos - a.state.pos
  {
  }

  lemma SliceJoin(txt: string, a: Cursor, b: Cursor, c: Cursor, s: string)
    requires AtText(txt, a) && AtText(txt, b) && AtText(txt, c) && a.state.pos <= b.state.pos <= c.state.pos
    ensures s + Slice(txt, a, b) + Slice(txt, b, c) == s + Slice(txt, a, c)
    ensures Slice(txt, a, a) == ""
  {
    assert txt[a.state.pos..b.state.pos] + txt[b.state.pos..c.state.pos] == txt[a.state.pos..c.state.pos];
  }

  lemma BuiltLikewise(txt: string, w: World, w': World, o: Outcome, o': Outcome)
    requires w'.cur == w.cur && Built(txt, w', o')
    requires if o'.r.Out? then o.r == o'.r && o.w.cur == o'.w.cur else o.r.Er?
    ensures Built(txt, w, o)
  {
  }

  lemma FailureBuilds(txt: string, w: World, o: Outcome)
    requires o.r.Er?
    ensures Built(txt, w, o)
  {
  }

  /** Reading nothing builds no tree. */
  lemma NothingBuilds(txt: string, w: World, o: Outcome)
    requires AtText(txt, w.cur) && o.r == Out(Null) && o.w.cur == w.cur
    ensures Built(txt, w, o)
  {
    SliceJoin(txt, w.cur, w.cur, w.cur, "");
    InText(txt, w.cur);
    hide AtText, Slice;
  }

  lemma {:induction false} CompiledRestores(t: Term)
    ensures Restoring(Compile(t), {})
    decreases t
  {
    match t
    case Pattern(re) =>
    case Choice(a, b) => CompiledRestores(a); CompiledRestores(b);
    case Plus(t) => CompiledRestores(t);
    case Sequence(ts) =>
    case _ =>
  }

  lemma CompiledRulesRestore(rules: map<string, Term>)
    ensures RestoringRules(CompileRules(rules), {})
  {
    forall name | name in rules ensures Restoring(Compile(rules[name]), {}) {
      CompiledRestores(rules[name]);
    }
  }

  /** A term that fails reads nothing. */
  lemma FailsInPlace(rules: map<string, Term>, txt: string, k: nat, t: Term, bt: int, w: World)
    requires bt >= 1 && Eval(CompileRules(rules), txt, k, Compile(t), bt, w).Some?
    requires Eval(CompileRules(rules), txt, k, Compile(t), bt, w).value.r.Er?
    ensures Eval(CompileRules(rules), txt, k, Compile(t), bt, w).value.w.cur == w.cur
  {
    hide Eval, Compile, CompileRules;
    CompiledRulesRestore(rules);
    CompiledRestores(t);
    FailureRestores(CompileRules(rules), txt, k, Compile(t), bt, w, {});
  }

  lemma WithStateBuilt(g: Grammar, txt: string, k: nat, p: Parser, bt: int, w: World)
    requires R.Ready(txt, bt, w) && !p.Ref? && Eval(g, txt, k, WithState(p), bt, w).Some?
    requires k >= 2 && Eval(g, txt, k - 2, p, bt, w).Some? ==>
      var o := Eval(g, txt, k - 2, p, bt, w).value;
      Holds(txt, w, o) && (o.r.Out? ==> 0 <= w.cur.state.pos && ValueSited(txt, InState(o.r.v, w.cur.state), w.cur.state.pos))
    ensures Built(txt, w, Eval(g, txt, k, WithState(p), bt, w).value)
  {
    WithStateEval(g, txt, k, p, bt, w);
    hide Eval, AtText, Leaves, IsTree, ValueSited, WithState;
    var o := Eval(g, txt, k - 2, p, bt, w).value;
    if o.r.Out? { TagKeepsLeaves(o.r.v, Null, [Position(w.cur.state), o.r.v]); }
  }

  /** The parser in front gives the place where it was to the tree behind. */
  lemma WithStateEval(g: Grammar, txt: string, k: nat, p: Parser, bt: int, w: World)
    requires bt >= 1 && !p.Ref? && Eval(g, txt, k, WithState(p), bt, w).Some?
    ensures k >= 2 && Eval(g, txt, k - 2, p, bt, w).Some?
    ensures var o, i := Eval(g, txt, k, WithState(p), bt, w).value, Eval(g, txt, k - 2, p, bt, w).value;
      if i.r.Out? then o == Outcome(Out(InState(i.r.v, w.cur.state)), i.w) else o.r.Er?
  {
    R.PairEval(g, txt, k, StateOf, p, StateAst, [R.FREE], bt, w);
    assert Eval(g, txt, k - 1, StateOf, bt, w) == Some(Outcome(Out(Position(w.cur.state)), w));
    hide Eval;
  }

  /** If o is an output it is the text read. */
  ghost predicate IsText(txt: string, w: World, o: Outcome) {
    o.r.Out? ==>
      && AtText(txt, w.cur) && AtText(txt, o.w.cur) && w.cur.state.pos <= o.w.cur.state.pos
      && o.r.v == Str(Slice(txt, w.cur, o.w.cur))
  }

  lemma LeafIsTree(txt: string, s: string, tag: string, state: State, pos: nat)
    requires IsTokenTag(tag) && StandsAt(txt, state, pos)
    ensures var v := SetTag(StrAst(Str(s)), Str(tag)); IsTree(v) && Leaves(v) == s && ValueSited(txt, InState(v, state), pos)
  {
    var a := Ast(tag, s, START_STATE, []);
    assert SetTag(StrAst(Str(s)), Str(tag)) == Tree(a);
    assert Yield(a) == s + "" == s;
    hide StandsAt, IsTokenTag;
  }

  lemma LeafBuilt(g: Grammar, txt: string, k: nat, p: Parser, tag: string, bt: int, w: World)
    requires R.Ready(txt, bt, w) && !p.Ref? && Eval(g, txt, k, LeafParser(p, tag), bt, w).Some? && IsTokenTag(tag)
    requires k >= 4 && Eval(g, txt, k - 4, p, bt, w).Some? ==> IsText(txt, w, Eval(g, txt, k - 4, p, bt, w).value)
    ensures Built(txt, w, Eval(g, txt, k, LeafParser(p, tag), bt, w).value)
  {
    CursorStands(txt, w.cur);
    hide Eval, AtText, Leaves, IsTree, StrAst, SetTag, ValueSited, StandsAt, IsTokenTag, InState;
    var a := Apply(p, StrAst);
    var b := ApplyTo(a, SetTag, Str(tag));
    if k >= 2 && Eval(g, txt, k - 2, b, bt, w).Some? {
      UnaryEval(g, txt, k - 2, b, bt, w);
      UnaryEval(g, txt, k - 3, a, bt, w);
      var o := Eval(g, txt, k - 4, p, bt, w).value;
      if o.r.Out? { LeafIsTree(txt, o.r.v.s, tag, w.cur.state, w.cur.state.pos); }
    }
    WithStateBuilt(g, txt, k, b, bt, w);
  }

  lemma LiteralIsText(g: Grammar, txt: string, k: nat, x: Parser, e: string, bt: int, w: World)
    requires R.Ready(txt, bt, w) && (x.String? || x.Single?) && Eval(g, txt, k, Expect(x, e), bt, w).Some?
    ensures IsText(txt, w, Eval(g, txt, k, Expect(x, e), bt, w).value)
  {
    if x.String? {
      LiteralAtText(txt, x.str, w.cur);
      assert x.str[..|x.str|] == x.str;
    } else {
      R.CharAgrees(g, txt, k, x, e, bt, w);
    }
    hide AtText;
  }

  lemma PatternIsText(g: Grammar, txt: string, k: nat, re: R.Regex, bt: int, w: World)
    requires R.Ready(txt, bt, w) && Eval(g, txt, k, R.Compile(re), bt, w).Some?
    ensures IsText(txt, w, Eval(g, txt, k, R.Compile(re), bt, w).value)
  {
    InText(txt, w.cur);
    hide Eval, AtText, R.Compile, R.MatchAt;
    R.OutcomeIsMatch(g, txt, k, re, bt, w);
  }

  lemma SequenceShape(ts: seq<Term>)
    requires ts != []
    ensures CompileAll(ts) == And([CompileAll(ts[..|ts|-1]), Compile(ts[|ts|-1])], FoldAst, [AST_DELETE])
  {
  }

  /** Two trees in sequence fold to a tree of the text of both. */
  lemma PairBuilds(txt: string, w: World, o1: Outcome, o2: Outcome)
    requires o1.r.Out? && o2.r.Out? && Built(txt, w, o1) && Built(txt, o1.w, o2)
    ensures Built(txt, w, Outcome(Out(FoldAst([o1.r.v, o2.r.v])), o2.w))
  {
    InText(txt, w.cur);
    SliceLength(txt, w.cur, o1.w.cur);
    hide AtText, Leaves, IsTree, FoldAst, Slice, ValueSited, ValuesSited;
    PairSited(txt, o1.r.v, o2.r.v, w.cur.state.pos);
    FoldSited(txt, [o1.r.v, o2.r.v], w.cur.state.pos);
    FoldKeepsLeaves([o1.r.v, o2.r.v]);
    LeavesOfFew([o1.r.v, o2.r.v]);
    SliceJoin(txt, w.cur, o1.w.cur, o2.w.cur, "");
    assert "" + Slice(txt, w.cur, o1.w.cur) == Slice(txt, w.cur, o1.w.cur);
    assert "" + Slice(txt, w.cur, o2.w.cur) == Slice(txt, w.cur, o2.w.cur);
  }

  lemma {:induction false} SequenceBuilds(rules: map<string, Term>, txt: string, k: nat, ts: seq<Term>,
          bt: int, w: World)
    requires R.Ready(txt, bt, w) && Eval(CompileRules(rules), txt, k, CompileAll(ts), bt, w).Some?
    ensures Built(txt, w, Eval(CompileRules(rules), txt, k, CompileAll(ts), bt, w).value)
    decreases k, 1
  {
    if ts == [] {
      NothingBuilds(txt, w, Eval(CompileRules(rules), txt, k, Pass, bt, w).value);
      hide AtText, CompileRules, Built;
    } else {
      LongerSequenceBuilds(rules, txt, k, ts, bt, w);
    }
  }

  lemma {:induction false} LongerSequenceBuilds(rules: map<string, Term>, txt: string, k: nat, ts: seq<Term>,
          bt: int, w: World)
    requires R.Ready(txt, bt, w) && Eval(CompileRules(rules), txt, k, CompileAll(ts), bt, w).Some? && ts != []
    ensures Built(txt, w, Eval(CompileRules(rules), txt, k, CompileAll(ts), bt, w).value)
    decreases k, 0
  {
    hide Eval, AtText, CompileRules, Built, Compile, CompileAll, FoldAst;
    var g := CompileRules(rules);
    SequenceShape(ts);
    var x, y := CompileAll(ts[..|ts|-1]), Compile(ts[|ts|-1]);
    var o := Eval(g, txt, k, CompileAll(ts), bt, w).value;
    R.PairEval(g, txt, k, x, y, FoldAst, [AST_DELETE], bt, w);
    SequenceBuilds(rules, txt, k - 1, ts[..|ts|-1], bt, w);
    var o1 := Eval(g, txt, k - 1, x, bt, w).value;
    if o.r.Er? {
      FailureBuilds(txt, w, o);
    } else {
      BuiltAtText(txt, w, o1);
      TermBuilds(rules, txt, k - 2, ts[|ts|-1], bt, o1.w);
      PairBuilds(txt, w, o1, Eval(g, txt, k - 2, y, bt, o1.w).value);
    }
  }

  lemma BuiltAtText(txt: string, w: World, o: Outcome)
    requires Built(txt, w, o) && o.r.Out?
    ensures AtText(txt, o.w.cur)
  {
  }

  /** The outputs of a repetition hold, in order, the text read. */
  lemma {:induction false} RepetitionBuilds(rules: map<string, Term>, txt: string, k: nat, t: Term, bt: int,
          w: World, vs: seq<Val>, start: nat)
    requires R.Ready(txt, bt, w) && AreTrees(vs) && EvalMany(CompileRules(rules), txt, k, Compile(t), bt, w, vs).Some?
    requires ValuesSited(txt, vs, start) && start + |LeavesOf(vs)| == w.cur.state.pos
    ensures var s := EvalMany(CompileRules(rules), txt, k, Compile(t), bt, w, vs).value;
            && AtText(txt, s.w.cur) && w.cur.state.pos <= s.w.cur.state.pos
            && AreTrees(s.vs) && LeavesOf(s.vs) == LeavesOf(vs) + Slice(txt, w.cur, s.w.cur) && ValuesSited(txt, s.vs, start)
    decreases k, 3
  {
    hide Eval, AtText, Leaves, IsTree, CompileRules, Slice, Compile, AreTrees, LeavesOf, ValueSited, ValuesSited;
    var g := CompileRules(rules);
    TermBuilds(rules, txt, k, t, bt, w);
    var o := Eval(g, txt, k, Compile(t), bt, w).value;
    R.EvalPositive(g, txt, k, Compile(t), bt, w);
    if o.r.Er? {
      FailsInPlace(rules, txt, k, t, bt, w);
      SliceJoin(txt, w.cur, w.cur, w.cur, "");
      assert LeavesOf(vs) + "" == LeavesOf(vs);
    } else {
      LeavesOfSnoc(vs, o.r.v);
      SliceLength(txt, w.cur, o.w.cur);
      SnocSited(txt, vs, o.r.v, start);
      RepetitionBuilds(rules, txt, k - 1, t, bt, o.w, vs + [o.r.v], start);
      var s := EvalMany(g, txt, k, Compile(t), bt, w, vs).value;
      SliceJoin(txt, w.cur, o.w.cur, s.w.cur, LeavesOf(vs));
    }
  }

  lemma {:induction false} ChoiceBuilds(rules: map<string, Term>, txt: string, k: nat, a: Term, b: Term,
          bt: int, w: World)
    requires R.Ready(txt, bt, w) && Eval(CompileRules(rules), txt, k, Compile(Choice(a, b)), bt, w).Some?
    ensures Built(txt, w, Eval(CompileRules(rules), txt, k, Compile(Choice(a, b)), bt, w).value)
    decreases k, 0
  {
    var xs := [Compile(a), Compile(b)];
    assert Compile(Choice(a, b)) == Or(xs);
    hide Eval, EvalOr, AtText, Built, CompileRules, Compile;
    R.OrEval(CompileRules(rules), txt, k, xs, bt, w);
    FirstChoiceBuilds(rules, txt, k - 1, a, b, bt, w);
  }

  lemma {:induction false} FirstChoiceBuilds(rules: map<string, Term>, txt: string, k: nat, a: Term, b: Term,
          bt: int, w: World)
    requires R.Ready(txt, bt, w) && EvalOr(CompileRules(rules), txt, k, [Compile(a), Compile(b)], bt, w, []).Some?
    ensures Built(txt, w, EvalOr(CompileRules(rules), txt, k, [Compile(a), Compile(b)], bt, w, []).value)
    decreases k, 3
  {
    hide Eval, EvalOr, AtText, Built, CompileRules, Compile;
    var g, xs := CompileRules(rules), [Compile(a), Compile(b)];
    R.EitherEval(g, txt, k, xs, [], bt, w);
    TermBuilds(rules, txt, k, a, bt, w);
    var o, o1 := EvalOr(g, txt, k, xs, bt, w, []).value, Eval(g, txt, k, xs[0], bt, w).value;
    if o1.r.Er? {
      FailsInPlace(rules, txt, k, a, bt, w);
      SecondChoiceBuilds(rules, txt, k - 1, xs, b, bt, o1.w, [] + [o1.r.e]);
      BuiltLikewise(txt, w, o1.w, o, o);
    } else {
      BuiltLikewise(txt, w, w, o, o1);
    }
  }

  lemma {:induction false} SecondChoiceBuilds(rules: map<string, Term>, txt: string, k: nat, xs: seq<Parser>,
          b: Term, bt: int, w: World, es: seq<Err>)
    requires R.Ready(txt, bt, w) && |xs| == 2 && xs[1] == Compile(b) && |es| == 1
    requires EvalOr(CompileRules(rules), txt, k, xs, bt, w, es).Some?
    ensures Built(txt, w, EvalOr(CompileRules(rules), txt, k, xs, bt, w, es).value)
    decreases k, 3
  {
    hide Eval, EvalOr, AtText, Built, CompileRules, Compile;
    var g := CompileRules(rules);
    R.EitherEval(g, txt, k, xs, es, bt, w);
    TermBuilds(rules, txt, k, b, bt, w);
    BuiltLikewise(txt, w, w, EvalOr(g, txt, k, xs, bt, w, es).value, Eval(g, txt, k, xs[1], bt, w).value);
  }

  lemma ReferenceEval(g: Grammar, txt: string, k: nat, p: Parser, bt: int, w: World)
    requires p.ApplyTo? && Eval(g, txt, k, p, bt, w).Some?
    ensures k > 0 && Eval(g, txt, k - 1, Resolve(g, p.x), bt, w).Some?
    ensures Eval(g, txt, k, p, bt, w).value == AfterUnary(p, bt, w, Eval(g, txt, k - 1, Resolve(g, p.x), bt, w).value)
  {
    hide AfterUnary, Resolve;
  }

  lemma {:induction false} RuleBuilds(rules: map<string, Term>, txt: string, k: nat, name: string, bt: int, w: World)
    requires R.Ready(txt, bt, w) && Eval(CompileRules(rules), txt, k, Compile(Rule(name)), bt, w).Some?
    ensures Built(txt, w, Eval(CompileRules(rules), txt, k, Compile(Rule(name)), bt, w).value)
    decreases k, 0
  {
    var g := CompileRules(rules);
    var a := ApplyTo(Ref(name), AddTag, Str(name));
    var b := Apply(a, AddRoot);
    assert Compile(Rule(name)) == WithState(b);
    if k >= 2 && Eval(g, txt, k - 2, b, bt, w).Some? {
      NamedBuilds(rules, txt, k - 2, name, bt, w);
      CursorStands(txt, w.cur);
      var o := Eval(g, txt, k - 2, b, bt, w).value;
      BuiltInState(txt, w, o);
    }
    hide *;
    WithStateBuilt(g, txt, k, b, bt, w);
  }

  lemma BuiltInState(txt: string, w: World, o: Outcome)
    requires AtText(txt, w.cur) && Built(txt, w, o)
    ensures Holds(txt, w, o) && (o.r.Out? ==> 0 <= w.cur.state.pos && ValueSited(txt, InState(o.r.v, w.cur.state), w.cur.state.pos))
  {
    CursorStands(txt, w.cur);
    hide AtText, ValueSited, StandsAt, Holds;
    if o.r.Out? { InStateSited(txt, o.r.v, w.cur.state, w.cur.state.pos); }
  }

  lemma {:induction false} NamedBuilds(rules: map<string, Term>, txt: string, k: nat, name: string, bt: int, w: World)
    requires R.Ready(txt, bt, w)
    requires Eval(CompileRules(rules), txt, k, Apply(ApplyTo(Ref(name), AddTag, Str(name)), AddRoot), bt, w).Some?
    ensures Built(txt, w, Eval(CompileRules(rules), txt, k, Apply(ApplyTo(Ref(name), AddTag, Str(name)), AddRoot), bt, w).value)
    decreases k, 1
  {
    hide AtText, Leaves, IsTree, Slice, Compile, AddTag, AddRoot, Eval, ValueSited;
    var g := CompileRules(rules);
    var a := ApplyTo(Ref(name), AddTag, Str(name));
    UnaryEval(g, txt, k, Apply(a, AddRoot), bt, w);
    ReferenceEval(g, txt, k - 1, a, bt, w);
    var q := Resolve(g, Ref(name));
    var o := Eval(g, txt, k - 2, q, bt, w).value;
    if name in rules {
      TermBuilds(rules, txt, k - 2, rules[name], bt, w);
      if o.r.Out? {
        TagKeepsLeaves(o.r.v, Str(name), []);
        RootKeepsLeaves(AddTag(o.r.v, Str(name)));
        TagSited(txt, o.r.v, name, w.cur.state.pos);
        RootSited(txt, AddTag(o.r.v, Str(name)), w.cur.state.pos);
      }
    } else {
      UndefinedFails(g, txt, k - 2, bt, w);
    }
  }

  lemma UndefinedFails(g: Grammar, txt: string, k: nat, bt: int, w: World)
    requires Eval(g, txt, k, Undefined, bt, w).Some?
    ensures Eval(g, txt, k, Undefined, bt, w).value.r.Er?
  {
  }

  /** A term that succeeds builds a tree whose leaves, read in order, are the text it read. */
  lemma {:induction false} TermBuilds(rules: map<string, Term>, txt: string, k: nat, t: Term, bt: int, w: World)
    requires R.Ready(txt, bt, w) && Eval(CompileRules(rules), txt, k, Compile(t), bt, w).Some?
    ensures Built(txt, w, Eval(CompileRules(rules), txt, k, Compile(t), bt, w).value)
    decreases k, 2
  {
    hide Eval, AtText, Leaves, IsTree, CompileRules, Slice, R.Compile;
    var g, p := CompileRules(rules), Compile(t);
    match t
    case Literal(s) =>
      var x := Expect(String(s), "\"" + s + "\"");
      if k >= 4 && Eval(g, txt, k - 4, x, bt, w).Some? { LiteralIsText(g, txt, k - 4, String(s), x.expected, bt, w); }
      LeafBuilt(g, txt, k, x, "string", bt, w);
    case Character(c) =>
      var x := Expect(Single(c), "'" + [c] + "'");
      if k >= 4 && Eval(g, txt, k - 4, x, bt, w).Some? { LiteralIsText(g, txt, k - 4, Single(c), x.expected, bt, w); }
      LeafBuilt(g, txt, k, x, "char", bt, w);
    case Pattern(re) =>
      if k >= 4 && Eval(g, txt, k - 4, R.Compile(re), bt, w).Some? { PatternIsText(g, txt, k - 4, re, bt, w); }
      LeafBuilt(g, txt, k, R.Compile(re), "regex", bt, w);
    case Rule(name) => RuleBuilds(rules, txt, k, name, bt, w);
    case Sequence(ts) => SequenceBuilds(rules, txt, k, ts, bt, w);
    case Choice(a, b) => ChoiceBuilds(rules, txt, k, a, b, bt, w);
    case Optional(x) => OptionalBuilds(rules, txt, k, x, bt, w);
    case Forbid(x) => ForbidBuilds(rules, txt, k, x, bt, w);
    case _ => RepeatBuilds(rules, txt, k, t, bt, w);
  }

  /** What a term in brackets leaves behind is built, or nothing. */
  lemma OptionBuilt(txt: string, p: Parser, bt: int, w: World, i: Outcome)
    requires AtText(txt, w.cur) && (p.Maybe? || p.Not?) && p.lf == Null
    requires (p.Maybe? ==> Built(txt, w, i)) && (i.r.Er? ==> i.w.cur == w.cur)
    ensures Built(txt, w, AfterUnary(p, bt, w, i))
  {
    hide AtText, Built, ErrOr, DestroySame;
    var o := AfterUnary(p, bt, w, i);
    if i.r.Er? {
      NothingBuilds(txt, w, o);
    } else if p.Not? {
      FailureBuilds(txt, w, o);
    }
  }

  lemma {:induction false} OptionalBuilds(rules: map<string, Term>, txt: string, k: nat, t: Term, bt: int, w: World)
    requires R.Ready(txt, bt, w) && Eval(CompileRules(rules), txt, k, Compile(Optional(t)), bt, w).Some?
    ensures Built(txt, w, Eval(CompileRules(rules), txt, k, Compile(Optional(t)), bt, w).value)
    decreases k, 0
  {
    var g, p := CompileRules(rules), Maybe(Compile(t), Null);
    assert Compile(Optional(t)) == p && IsUnary(p) && Resolve(g, p.x) == p.x && Inner(p, bt) == bt && AtText(txt, w.cur);
    hide *;
    UnaryEval(g, txt, k, p, bt, w);
    TermBuilds(rules, txt, k - 1, t, bt, w);
    var i := Eval(g, txt, k - 1, Compile(t), bt, w).value;
    if i.r.Er? { FailsInPlace(rules, txt, k - 1, t, bt, w); }
    OptionBuilt(txt, p, bt, w, i);
  }

  lemma {:induction false} ForbidBuilds(rules: map<string, Term>, txt: string, k: nat, t: Term, bt: int, w: World)
    requires R.Ready(txt, bt, w) && Eval(CompileRules(rules), txt, k, Compile(Forbid(t)), bt, w).Some?
    ensures Built(txt, w, Eval(CompileRules(rules), txt, k, Compile(Forbid(t)), bt, w).value)
    decreases k, 0
  {
    var g, p := CompileRules(rules), Not(Compile(t), AST_DELETE, Null);
    assert Compile(Forbid(t)) == p && IsUnary(p) && Resolve(g, p.x) == p.x && Inner(p, bt) == bt && AtText(txt, w.cur);
    hide *;
    UnaryEval(g, txt, k, p, bt, w);
    var i := Eval(g, txt, k - 1, Compile(t), bt, w).value;
    if i.r.Er? { FailsInPlace(rules, txt, k - 1, t, bt, w); }
    OptionBuilt(txt, p, bt, w, i);
  }

  lemma NothingYet(txt: string, pos: nat)
    ensures AreTrees([]) && LeavesOf([]) == "" && ValuesSited(txt, [], pos)
  {
  }

  /** What a repetition leaves behind is the fold of its outputs. */
  lemma RepeatBuilt(txt: string, p: Parser, bt: int, w: World, s: Stop)
    requires IsRepeat(p) && p.fold == FoldAst && AtText(txt, w.cur) && AtText(txt, s.w.cur) && w.cur.state.pos <= s.w.cur.state.pos
    requires AreTrees(s.vs) && LeavesOf(s.vs) == Slice(txt, w.cur, s.w.cur) && 0 <= w.cur.state.pos && ValuesSited(txt, s.vs, w.cur.state.pos)
    ensures Built(txt, w, AfterRepeat(p, bt, w, s))
  {
    hide AtText, Slice, ErrOr, ErrMany1, ErrCount, FoldAst, DestroySame, LeavesOf, Leaves, IsTree, ValueSited, ValuesSited, AreTrees;
    AfterRepeatCursor(p, bt, w, s);
    FoldSited(txt, s.vs, w.cur.state.pos);
    FoldKeepsLeaves(s.vs);
  }

  lemma {:induction false} RepeatBuilds(rules: map<string, Term>, txt: string, k: nat, t: Term, bt: int, w: World)
    requires R.Ready(txt, bt, w) && (t.Star? || t.Plus? || t.Times?)
    requires Eval(CompileRules(rules), txt, k, Compile(t), bt, w).Some?
    ensures Built(txt, w, Eval(CompileRules(rules), txt, k, Compile(t), bt, w).value)
    decreases k, 0
  {
    var g, p := CompileRules(rules), Compile(t);
    assert IsRepeat(p) && p.x == Compile(t.t) && p.fold == FoldAst;
    InText(txt, w.cur);
    hide Eval, EvalMany, AtText, CompileRules, Slice, Compile, AfterRepeat, Built, LeavesOf, ValuesSited, AreTrees;
    RepeatEval(g, txt, k, p, bt, w);
    NothingYet(txt, w.cur.state.pos);
    RepetitionBuilds(rules, txt, k - 1, t.t, bt, w, [], w.cur.state.pos);
    var s := EvalMany(g, txt, k - 1, p.x, bt, w, []).value;
    assert "" + Slice(txt, w.cur, s.w.cur) == Slice(txt, w.cur, s.w.cur);
    RepeatBuilt(txt, p, bt, w, s);
  }
}

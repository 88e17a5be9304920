// Left recursion: a parser that cannot end without running itself, first or behind parsers that always succeed, never comes to an end.
module MpcLeftRecursion {
  import opened MpcTypes
  import opened MpcInput
  import opened MpcBigStep
  import opened MpcTermination
  import G = MpcGrammar

  /** A parser that succeeds whenever it comes to an end. */
  predicate NeverFails(p: Parser) {
    match p
    case Pass | StateOf | Lift(_) | Maybe(_, _) | Many(_, _) => true
    case String(s) => s == ""
    case Expect(x, _) => NeverFails(x)
    case Apply(x, _) => NeverFails(x)
    case ApplyTo(x, _, _) => NeverFails(x)
    case Predict(x) => NeverFails(x)
    case Or(xs) => xs == [] || exists i :: 0 <= i < |xs| && NeverFails(xs[i])
    case And(xs, _, _) => AllNeverFail(xs)
    case _ => false
  }

  predicate AllNeverFail(xs: seq<Parser>) {
    forall i :: 0 <= i < |xs| ==> NeverFails(xs[i])
  }

  lemma {:induction false} NeverFailsSucceeds(g: Grammar, txt: string, k: nat, p: Parser, bt: int, w: World)
    requires NeverFails(p) && Eval(g, txt, k, p, bt, w).Some?
    ensures k > 0 && Eval(g, txt, k, p, bt, w).value.r.Out?
    decreases p, if p.Or? || p.And? then |p.xs| + 1 else 0
  {
    if IsUnary(p) {
      hide Eval, BlameAll;
      UnaryEval(g, txt, k, p, bt, w);
      if !p.Maybe? { NeverFailsSucceeds(g, txt, k - 1, p.x, Inner(p, bt), w); }
    } else if p.And? && p.xs != [] {
      AndSucceeds(g, txt, k - 1, p, bt, w, []);
    } else if p.Or? && p.xs != [] {
      OrSucceeds(g, txt, k - 1, p, bt, w, []);
    }
  }

  lemma {:induction false} AndSucceeds(g: Grammar, txt: string, k: nat, p: Parser, bt: int, w: World, vs: seq<Val>)
    requires p.And? && |vs| < |p.xs| && AllNeverFail(p.xs) && EvalAnd(g, txt, k, p.xs, bt, w, vs).Some?
    ensures EvalAnd(g, txt, k, p.xs, bt, w, vs).value.Done?
    decreases p, |p.xs| - |vs|
  {
    hide Eval;
    var x := p.xs[|vs|];
    NeverFailsSucceeds(g, txt, k, x, bt, w);
    var o := Eval(g, txt, k, x, bt, w).value;
    if |vs| + 1 < |p.xs| { AndSucceeds(g, txt, k - 1, p, bt, o.w, vs + [o.r.v]); }
  }

  lemma {:induction false} OrSucceeds(g: Grammar, txt: string, k: nat, p: Parser, bt: int, w: World, es: seq<Err>)
    requires p.Or? && |es| < |p.xs| && (exists i :: |es| <= i < |p.xs| && NeverFails(p.xs[i]))
    requires EvalOr(g, txt, k, p.xs, bt, w, es).Some?
    ensures EvalOr(g, txt, k, p.xs, bt, w, es).value.r.Out?
    decreases p, |p.xs| - |es|
  {
    hide Eval, BlameAll;
    var x := p.xs[|es|];
    if NeverFails(x) {
      NeverFailsSucceeds(g, txt, k, x, bt, w);
    } else {
      var o := Eval(g, txt, k, Resolve(g, x), bt, w).value;
      SomeBound(g, txt, k, Resolve(g, x), bt, w);
      if o.r.Er? { OrSucceeds(g, txt, k - 1, p, bt, o.w, es + [o.r.e]); }
    }
  }

  /** Whenever p ends, q has been run: it is what p runs first, or what it runs behind parsers that do not fail. */
  ghost predicate Next(g: Grammar, p: Parser, q: Parser) {
    if IsUnary(p) || IsRepeat(p) then q == Resolve(g, p.x)
    else if p.Or? then p.xs != [] && q == Resolve(g, p.xs[0])
    else if p.And? then exists i :: 0 <= i < |p.xs| && q == Resolve(g, p.xs[i]) && AllNeverFail(p.xs[..i])
    else false
  }

  /** p cannot end without running q, n calls down. */
  ghost predicate Starts(g: Grammar, p: Parser, q: Parser, n: nat)
    decreases n
  {
    if n == 0 then p == q else exists x :: Next(g, p, x) && Starts(g, x, q, n - 1)
  }

  lemma {:induction false} AndRuns(g: Grammar, txt: string, k: nat, xs: seq<Parser>, bt: int, w: World, vs: seq<Val>, i: nat)
    returns (k': nat, w': World)
    requires |vs| <= i < |xs| && AllNeverFail(xs[..i]) && EvalAnd(g, txt, k, xs, bt, w, vs).Some?
    ensures k' <= k && Eval(g, txt, k', Resolve(g, xs[i]), bt, w').Some?
    decreases i - |vs|
  {
    hide Eval, NeverFails;
    if |vs| == i {
      k', w' := k, w;
    } else {
      var x := xs[|vs|];
      assert xs[..i][|vs|] == x && NeverFails(x);
      NeverFailsIsNoRef(x);
      NeverFailsSucceeds(g, txt, k, x, bt, w);
      var o := Eval(g, txt, k, x, bt, w).value;
      k', w' := AndRuns(g, txt, k - 1, xs, bt, o.w, vs + [o.r.v], i);
    }
  }

  lemma NeverFailsIsNoRef(p: Parser)
    requires NeverFails(p)
    ensures !p.Ref?
  {
  }

  /** If p yields an outcome, so does the parser it cannot do without, with a smaller recursion bound. */
  lemma NextRuns(g: Grammar, txt: string, k: nat, p: Parser, bt: int, w: World, q: Parser) returns (k': nat, bt': int, w': World)
    requires !p.Ref? && Next(g, p, q) && Eval(g, txt, k, p, bt, w).Some?
    ensures !q.Ref? && k' < k && Eval(g, txt, k', q, bt', w').Some?
  {
    hide LeafOutcome, AfterUnary, AfterRepeat, AfterAnd, BlameAll;
    k', bt', w' := k - 1, if IsUnary(p) then Inner(p, bt) else bt, w;
    if p.And? {
      var i :| 0 <= i < |p.xs| && q == Resolve(g, p.xs[i]) && AllNeverFail(p.xs[..i]);
      k', w' := AndRuns(g, txt, k - 1, p.xs, bt, w, [], i);
    }
  }

  lemma {:induction false} StartsRuns(g: Grammar, txt: string, k: nat, p: Parser, bt: int, w: World, q: Parser, n: nat)
    returns (k': nat, bt': int, w': World)
    requires !p.Ref? && Starts(g, p, q, n) && Eval(g, txt, k, p, bt, w).Some?
    ensures !q.Ref? && k' <= k && (n > 0 ==> k' < k) && Eval(g, txt, k', q, bt', w').Some?
    decreases n
  {
    hide Eval, Next;
    k', bt', w' := k, bt, w;
    if n > 0 {
      var x :| Next(g, p, x) && Starts(g, x, q, n - 1);
      k', bt', w' := NextRuns(g, txt, k, p, bt, w, x);
      k', bt', w' := StartsRuns(g, txt, k', x, bt', w', q, n - 1);
    }
  }

  /** A parser that starts with itself, directly or through others, yields nothing, whatever the input and the recursion bound. */
  lemma {:induction false} LeftRecursionDiverges(g: Grammar, txt: string, k: nat, p: Parser, bt: int, w: World, n: nat)
    requires !p.Ref? && n > 0 && Starts(g, p, p, n)
    ensures Eval(g, txt, k, p, bt, w).None?
    decreases k
  {
    hide Eval, Starts;
    if Eval(g, txt, k, p, bt, w).Some? {
      var k', bt', w' := StartsRuns(g, txt, k, p, bt, w, p, n);
      LeftRecursionDiverges(g, txt, k', p, bt', w', n);
    }
  }

  lemma {:induction false} StartsThen(g: Grammar, p: Parser, q: Parser, r: Parser, m: nat, n: nat)
    requires Starts(g, p, q, m) && Starts(g, q, r, n)
    ensures Starts(g, p, r, m + n)
    decreases m
  {
    hide Next;
    if m > 0 {
      var x :| Next(g, p, x) && Starts(g, x, q, m - 1);
      StartsThen(g, x, q, r, m - 1, n);
    }
  }

  lemma StartsOnce(g: Grammar, p: Parser, q: Parser)
    requires Next(g, p, q)
    ensures Starts(g, p, q, 1)
  {
    hide Next;
    assert Starts(g, q, q, 0);
  }

  // Grammars

  /** The right-hand side t always fits, perhaps nothing at all. */
  predicate Skippable(t: G.Term) {
    match t
    case Star(_) | Optional(_) => true
    case Choice(a, b) => Skippable(a) || Skippable(b)
    case Sequence(ts) => AllSkippable(ts)
    case _ => false
  }

  predicate AllSkippable(ts: seq<G.Term>) {
    forall i :: 0 <= i < |ts| ==> Skippable(ts[i])
  }

  lemma {:induction false} SkippableNeverFails(t: G.Term)
    requires Skippable(t)
    ensures NeverFails(G.Compile(t))
    decreases t, if t.Sequence? then |t.ts| + 1 else 0
  {
    match t
    case Choice(a, b) =>
      var p := G.Compile(t);
      if Skippable(a) {
        SkippableNeverFails(a);
        assert NeverFails(p.xs[0]);
      } else {
        SkippableNeverFails(b);
        assert NeverFails(p.xs[1]);
      }
    case Sequence(ts) =>
      assert ts[..|ts|] == ts;
      AllSkippableNeverFail(t, |ts|);
      assert G.Compile(t) == G.CompileAll(ts);
    case _ =>
  }

  lemma {:induction false} AllSkippableNeverFail(t: G.Term, i: nat)
    requires t.Sequence? && i <= |t.ts| && AllSkippable(t.ts[..i])
    ensures NeverFails(G.CompileAll(t.ts[..i]))
    decreases t, i
  {
    if i > 0 {
      var front, back := t.ts[..i][..i-1], t.ts[..i][i-1];
      assert front == t.ts[..i-1] && back == t.ts[i-1];
      assert forall j :: 0 <= j < i - 1 ==> front[j] == t.ts[..i][j];
      AllSkippableNeverFail(t, i - 1);
      SkippableNeverFails(back);
      assert G.CompileAll(t.ts[..i]).xs == [G.CompileAll(front), G.Compile(back)];
    }
  }

  /** The right-hand side t has the rule name on its left, perhaps behind parts that always fit. */
  predicate OnTheLeft(t: G.Term, name: string) {
    match t
    case Rule(n) => n == name
    case Sequence(ts) => exists i :: 0 <= i < |ts| && AllSkippable(ts[..i]) && OnTheLeft(ts[i], name)
    case Choice(a, _) => OnTheLeft(a, name)
    case Star(t) => OnTheLeft(t, name)
    case Plus(t) => OnTheLeft(t, name)
    case Optional(t) => OnTheLeft(t, name)
    case Forbid(t) => OnTheLeft(t, name)
    case Times(_, t) => OnTheLeft(t, name)
    case _ => false
  }

  lemma PairStarts(g: Grammar, p: Parser)
    requires p.And? && |p.xs| == 2
    ensures Starts(g, p, Resolve(g, p.xs[0]), 1)
    ensures NeverFails(p.xs[0]) ==> Starts(g, p, Resolve(g, p.xs[1]), 1)
  {
    hide Starts;
    assert AllNeverFail(p.xs[..0]);
    assert Next(g, p, Resolve(g, p.xs[0]));
    StartsOnce(g, p, Resolve(g, p.xs[0]));
    if NeverFails(p.xs[0]) {
      assert AllNeverFail(p.xs[..1]);
      assert Next(g, p, Resolve(g, p.xs[1]));
      StartsOnce(g, p, Resolve(g, p.xs[1]));
    }
  }

  lemma RuleStarts(rules: map<string, G.Term>, name: string)
    requires name in rules
    ensures Starts(G.CompileRules(rules), G.Compile(G.Rule(name)), G.Compile(rules[name]), 3)
  {
    hide Starts, NeverFails, G.CompileRules;
    var g, x := G.CompileRules(rules), G.Compile(rules[name]);
    var r := ApplyTo(Ref(name), G.AddTag, Str(name));
    var p, q := Apply(r, G.AddRoot), G.Compile(G.Rule(name));
    assert Starts(g, q, p, 1) by { StateFirst(g, p); }
    assert Resolve(g, Ref(name)) == x by { RuleCompiled(rules, name); }
    assert Next(g, p, r) && Next(g, r, x);
    hide Next;
    StartsOnce(g, p, r);
    StartsOnce(g, r, x);
    StartsThen(g, p, r, x, 1, 1);
    StartsThen(g, q, p, x, 1, 2);
  }

  lemma StateFirst(g: Grammar, p: Parser)
    requires !p.Ref?
    ensures Starts(g, G.WithState(p), p, 1)
  {
    PairStarts(g, G.WithState(p));
    hide Starts;
  }

  lemma RuleCompiled(rules: map<string, G.Term>, name: string)
    requires name in rules
    ensures Resolve(G.CompileRules(rules), Ref(name)) == G.Compile(rules[name])
  {
  }

  lemma {:induction false} SequenceStarts(rules: map<string, G.Term>, ts: seq<G.Term>, i: nat) returns (n: nat)
    requires i < |ts| && AllSkippable(ts[..i])
    ensures n > 0 && Starts(G.CompileRules(rules), G.Compile(G.Sequence(ts)), G.Compile(ts[i]), n)
    decreases |ts|
  {
    hide Starts, G.CompileRules, NeverFails, Skippable;
    var g, p, front, back := G.CompileRules(rules), G.CompileAll(ts), ts[..|ts|-1], ts[|ts|-1];
    assert p.And? && p.xs == [G.CompileAll(front), G.Compile(back)];
    PairStarts(g, p);
    n := 1;
    if i < |front| {
      assert front[..i] == ts[..i];
      var m := SequenceStarts(rules, front, i);
      assert G.Compile(G.Sequence(front)) == G.CompileAll(front);
      StartsThen(g, p, G.CompileAll(front), G.Compile(ts[i]), 1, m);
      n := m + 1;
    } else {
      AllSkippableNeverFail(G.Sequence(ts), i);
    }
  }

  lemma PartStarts(g: Grammar, t: G.Term, x: G.Term)
    requires match t
             case Choice(a, _) => x == a
             case Star(_) | Plus(_) | Optional(_) | Forbid(_) | Times(_, _) => x == t.t
             case _ => false
    ensures Starts(g, G.Compile(t), G.Compile(x), 1)
  {
    hide Starts;
    assert Next(g, G.Compile(t), G.Compile(x));
    StartsOnce(g, G.Compile(t), G.Compile(x));
  }

  /** The parser compiled from a right-hand side starts with the rule on its left. */
  lemma {:induction false} TermStarts(rules: map<string, G.Term>, t: G.Term, name: string) returns (n: nat)
    requires name in rules && OnTheLeft(t, name)
    ensures n > 0 && Starts(G.CompileRules(rules), G.Compile(t), G.Compile(rules[name]), n)
    decreases t
  {
    hide Starts, G.Compile, G.CompileRules;
    var g, p, q := G.CompileRules(rules), G.Compile(t), G.Compile(rules[name]);
    if t.Rule? {
      RuleStarts(rules, name);
      n := 3;
    } else if t.Sequence? {
      var i :| 0 <= i < |t.ts| && AllSkippable(t.ts[..i]) && OnTheLeft(t.ts[i], name);
      var m := SequenceStarts(rules, t.ts, i);
      n := TermStarts(rules, t.ts[i], name);
      StartsThen(g, p, G.Compile(t.ts[i]), q, m, n);
      n := m + n;
    } else {
      var x := if t.Choice? then t.a else t.t;
      n := TermStarts(rules, x, name);
      PartStarts(g, t, x);
      StartsThen(g, p, G.Compile(x), q, 1, n);
      n := n + 1;
    }
  }

  /** Each rule of the chain has the next one on its left. */
  predicate LeftChain(rules: map<string, G.Term>, names: seq<string>) {
    && (forall i :: 0 <= i < |names| ==> names[i] in rules)
    && forall i :: 0 < i < |names| ==> OnTheLeft(rules[names[i-1]], names[i])
  }

  lemma {:induction false} ChainStarts(rules: map<string, G.Term>, names: seq<string>) returns (n: nat)
    requires LeftChain(rules, names) && |names| > 1
    ensures n > 0 && Starts(G.CompileRules(rules), G.Compile(rules[names[0]]), G.Compile(rules[names[|names|-1]]), n)
    decreases |names|
  {
    hide Starts, G.Compile, G.CompileRules;
    var g, rest := G.CompileRules(rules), names[1..];
    n := TermStarts(rules, rules[names[0]], names[1]);
    if |names| > 2 {
      var m := ChainStarts(rules, rest);
      StartsThen(g, G.Compile(rules[names[0]]), G.Compile(rules[rest[0]]), G.Compile(rules[rest[|rest|-1]]), n, m);
      n := n + m;
    }
  }

  /** A rule that directly or indirectly refers to itself on the left-hand side never yields an outcome, on any input. */
  lemma LeftRecursiveRuleDiverges(rules: map<string, G.Term>, names: seq<string>, txt: string, k: nat, bt: int, w: World)
    requires LeftChain(rules, names) && |names| > 1 && names[0] == names[|names|-1]
    ensures Eval(G.CompileRules(rules), txt, k, G.Compile(rules[names[0]]), bt, w).None?
  {
    hide Starts, Eval, G.CompileRules;
    var n := ChainStarts(rules, names);
    LeftRecursionDiverges(G.CompileRules(rules), txt, k, G.Compile(rules[names[0]]), bt, w, n);
  }

  /** expr : <expr> '+' (<expr> | <int> | <string>) ; */
  const EXAMPLE: map<string, G.Term> :=
    map["expr" := G.Sequence([G.Rule("expr"), G.Character('+'),
                              G.Choice(G.Rule("expr"), G.Choice(G.Rule("int"), G.Rule("string")))])]

  lemma ExampleDiverges(txt: string, k: nat, bt: int, w: World)
    ensures Eval(G.CompileRules(EXAMPLE), txt, k, G.Compile(EXAMPLE["expr"]), bt, w).None?
  {
    hide Eval;
    var t := EXAMPLE["expr"];
    assert AllSkippable(t.ts[..0]) && OnTheLeft(t.ts[0], "expr");
    assert LeftChain(EXAMPLE, ["expr", "expr"]);
    LeftRecursiveRuleDiverges(EXAMPLE, ["expr", "expr"], txt, k, bt, w);
  }

  /** expr : <ws>* <expr> ; */
  const BLANKS_FIRST: map<string, G.Term> :=
    map["expr" := G.Sequence([G.Star(G.Rule("ws")), G.Rule("expr")])]

  lemma BlanksFirstDiverges(txt: string, k: nat, bt: int, w: World)
    ensures Eval(G.CompileRules(BLANKS_FIRST), txt, k, G.Compile(BLANKS_FIRST["expr"]), bt, w).None?
  {
    hide Eval;
    var t := BLANKS_FIRST["expr"];
    assert AllSkippable(t.ts[..1]) && OnTheLeft(t.ts[1], "expr");
    assert LeftChain(BLANKS_FIRST, ["expr", "expr"]);
    LeftRecursiveRuleDiverges(BLANKS_FIRST, ["expr", "expr"], txt, k, bt, w);
  }
}

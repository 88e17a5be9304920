// Backtracking: which parsers give back what they read when they fail, and when disabling
// backtracking changes nothing.
module MpcBacktracking {
  import opened MpcTypes
  import opened Options
  import opened MpcErrors
  import opened MpcInput
  import opened MpcBigStep
  import opened MpcCursors

  /** Whether p, when it fails, has read nothing in the first place, so that it need not give anything back. */
  predicate Careful(p: Parser) {
    match p
    case String(s) => |s| <= 1
    case Expect(x, _) => Careful(x)
    case Apply(x, _) => Careful(x)
    case ApplyTo(x, _, _) => Careful(x)
    case Predict(x) => Careful(x)
    case Maybe(_, _) => true
    case Many(_, _) => true
    case Many1(x, _) => Careful(x)
    case Or(xs) => forall i :: 0 <= i < |xs| ==> Careful(xs[i])
    case And(xs, _, _) => xs == [] || (|xs| == 1 && Careful(xs[0]))
    case _ => IsLeaf(p)
  }

  /** A careful parser that fails leaves the input where it found it, in predictive mode too. */
  lemma {:induction false} CarefulStays(g: Grammar, txt: string, k: nat, p: Parser, bt: int, w: World)
    requires Careful(p) && Eval(g, txt, k, p, bt, w).Some? && Eval(g, txt, k, p, bt, w).value.r.Er?
    ensures Eval(g, txt, k, p, bt, w).value.w.cur == w.cur
    decreases k, 0
  {
    hide LeafOutcome, ErrOr, ErrMany1, ErrCount, Destroy, DestroySame;
    if IsLeaf(p) {
      CarefulLeaf(txt, p, bt, w);
    } else if IsUnary(p) {
      AfterUnaryCursor(p, bt, w, Eval(g, txt, k - 1, Resolve(g, p.x), Inner(p, bt), w).value);
      if !p.Maybe? { CarefulStays(g, txt, k - 1, p.x, Inner(p, bt), w); }
    } else if p.Many1? {
      AfterRepeatCursor(p, bt, w, EvalMany(g, txt, k - 1, p.x, bt, w, []).value);
      var o := Eval(g, txt, k - 1, p.x, bt, w).value;
      if o.r.Out? {
        assert [] + [o.r.v] == [o.r.v];
        ManyGrows(g, txt, k - 2, p.x, bt, o.w, [o.r.v]);
      } else {
        CarefulStays(g, txt, k - 1, p.x, bt, w);
      }
    } else if p.Or? && p.xs != [] {
      OrStays(g, txt, k - 1, p.xs, bt, w, []);
    } else if p.And? && p.xs != [] {
      AfterAndCursor(p, bt, w, EvalAnd(g, txt, k - 1, p.xs, bt, w, []).value);
      CarefulStays(g, txt, k - 1, p.xs[0], bt, w);
    }
  }

  lemma CarefulLeaf(txt: string, p: Parser, bt: int, w: World)
    requires IsLeaf(p) && Careful(p) && LeafOutcome(txt, p, bt, w).r.Er?
    ensures LeafOutcome(txt, p, bt, w).w.cur == w.cur
  {
  }

  lemma {:induction false} OrStays(g: Grammar, txt: string, k: nat, xs: seq<Parser>, bt: int, w: World, es: seq<Err>)
    requires (forall i :: 0 <= i < |xs| ==> Careful(xs[i])) && |es| < |xs|
    requires EvalOr(g, txt, k, xs, bt, w, es).Some? && EvalOr(g, txt, k, xs, bt, w, es).value.r.Er?
    ensures EvalOr(g, txt, k, xs, bt, w, es).value.w.cur == w.cur
    decreases k, 1
  {
    hide ErrOr, BlameAll, LeafOutcome, AfterUnary, AfterRepeat, AfterAnd;
    var o := Eval(g, txt, k, Resolve(g, xs[|es|]), bt, w).value;
    assert Resolve(g, xs[|es|]) == xs[|es|];
    CarefulStays(g, txt, k, xs[|es|], bt, w);
    if |es| + 1 < |xs| { OrStays(g, txt, k - 1, xs, bt, o.w, es + [o.r.e]); }
  }

  /** Whether p gives back what it read when it fails, given that the rules not in risky do. */
  predicate Restoring(p: Parser, risky: set<string>) {
    match p
    case Expect(x, _) => Restoring(x, risky)
    case Apply(x, _) => Restoring(x, risky)
    case ApplyTo(x, _, _) => Restoring(x, risky)
    case Predict(x) => Careful(x)
    case Many1(x, _) => Restoring(x, risky)
    case Or(xs) => forall i :: 0 <= i < |xs| ==> Restoring(xs[i], risky)
    case Ref(name) => name !in risky
    case _ => true
  }

  ghost predicate RestoringRules(g: Grammar, risky: set<string>) {
    forall name :: name in g && name !in risky ==> Restoring(g[name], risky)
  }

  lemma RestoringResolved(g: Grammar, p: Parser, risky: set<string>)
    requires RestoringRules(g, risky) && Restoring(p, risky)
    ensures Restoring(Resolve(g, p), risky)
  {
  }

  lemma FailingLeaf(txt: string, p: Parser, bt: int, w: World)
    requires IsLeaf(p) && bt >= 1 && LeafOutcome(txt, p, bt, w).r.Er?
    ensures LeafOutcome(txt, p, bt, w).w.cur == w.cur
  {
  }

  /** A parser that fails while backtracking is enabled leaves the input where it found it. */
  lemma {:induction false} FailureRestores(g: Grammar, txt: string, k: nat, p: Parser, bt: int, w: World,
          risky: set<string>)
    requires RestoringRules(g, risky) && Restoring(p, risky) && !p.Ref? && bt >= 1
    requires Eval(g, txt, k, p, bt, w).Some? && Eval(g, txt, k, p, bt, w).value.r.Er?
    ensures Eval(g, txt, k, p, bt, w).value.w.cur == w.cur
    decreases k, 0
  {
    hide LeafOutcome, ErrOr, ErrMany1, ErrCount, Destroy, DestroySame;
    if IsLeaf(p) {
      FailingLeaf(txt, p, bt, w);
    } else if IsUnary(p) {
      var o := Eval(g, txt, k - 1, Resolve(g, p.x), Inner(p, bt), w).value;
      AfterUnaryCursor(p, bt, w, o);
      if p.Predict? {
        CarefulStays(g, txt, k - 1, p.x, bt - 1, w);
      } else if p.Expect? || p.Apply? || p.ApplyTo? {
        RestoringResolved(g, p.x, risky);
        FailureRestores(g, txt, k - 1, Resolve(g, p.x), bt, w, risky);
      }
    } else if IsRepeat(p) {
      AfterRepeatCursor(p, bt, w, EvalMany(g, txt, k - 1, p.x, bt, w, []).value);
      if p.Many1? {
        RestoringResolved(g, p.x, risky);
        var o := Eval(g, txt, k - 1, Resolve(g, p.x), bt, w).value;
        if o.r.Out? {
          assert [] + [o.r.v] == [o.r.v];
          ManyGrows(g, txt, k - 2, p.x, bt, o.w, [o.r.v]);
        } else { FailureRestores(g, txt, k - 1, Resolve(g, p.x), bt, w, risky); }
      }
    } else if p.Or? {
      if p.xs != [] { OrRestores(g, txt, k - 1, p.xs, bt, w, [], risky); }
    } else if p.xs != [] {
      AfterAndCursor(p, bt, w, EvalAnd(g, txt, k - 1, p.xs, bt, w, []).value);
    }
  }

  /** A repetition keeps the outputs it has. */
  lemma {:induction false} ManyGrows(g: Grammar, txt: string, k: nat, x: Parser, bt: int, w: World, vs: seq<Val>)
    requires EvalMany(g, txt, k, x, bt, w, vs).Some?
    ensures vs <= EvalMany(g, txt, k, x, bt, w, vs).value.vs
    decreases k
  {
    var o := Eval(g, txt, k, Resolve(g, x), bt, w).value;
    if o.r.Out? { ManyGrows(g, txt, k - 1, x, bt, o.w, vs + [o.r.v]); }
    hide Eval;
  }

  lemma {:induction false} OrRestores(g: Grammar, txt: string, k: nat, xs: seq<Parser>, bt: int, w: World,
          es: seq<Err>, risky: set<string>)
    requires RestoringRules(g, risky) && (forall i :: 0 <= i < |xs| ==> Restoring(xs[i], risky)) && bt >= 1
    requires |es| < |xs| && EvalOr(g, txt, k, xs, bt, w, es).Some? && EvalOr(g, txt, k, xs, bt, w, es).value.r.Er?
    ensures EvalOr(g, txt, k, xs, bt, w, es).value.w.cur == w.cur
    decreases k, 1
  {
    hide ErrOr, BlameAll, LeafOutcome, AfterUnary, AfterRepeat, AfterAnd;
    RestoringResolved(g, xs[|es|], risky);
    var o := Eval(g, txt, k, Resolve(g, xs[|es|]), bt, w).value;
    FailureRestores(g, txt, k, Resolve(g, xs[|es|]), bt, w, risky);
    if |es| + 1 < |xs| { OrRestores(g, txt, k - 1, xs, bt, o.w, es + [o.r.e], risky); }
  }

  /** The example of a predictive parser: 'a' followed by 'b'. */
  const AB := [Single('a'), Single('b')]
  const EXAMPLE := Predict(And(AB, vs => Null, [0]))
  const BEGIN := World(START, UNKNOWN_ERROR, [])
  const READ_A := World(Cursor(State(1, 0, 1), 'a'), UNKNOWN_ERROR, [])

  lemma ExampleLeaves()
    ensures Eval(map[], "ac", 2, Single('a'), 0, BEGIN) == Some(Outcome(Out(Str("a")), READ_A))
    ensures Eval(map[], "ac", 1, Single('b'), 0, READ_A) == Some(Outcome(Er(ErrFail(READ_A.cur.state, "Incorrect Input")), READ_A))
  {
  }

  lemma ExampleSequence()
    ensures EvalAnd(map[], "ac", 2, AB, 0, BEGIN, []) == Some(Broken([Str("a")], ErrFail(READ_A.cur.state, "Incorrect Input"), READ_A))
  {
    ExampleLeaves();
    hide Eval, ErrOr;
    assert [] + [Str("a")] == [Str("a")];
    assert EvalAnd(map[], "ac", 1, AB, 0, READ_A, [Str("a")])
        == Some(Broken([Str("a")], ErrFail(READ_A.cur.state, "Incorrect Input"), READ_A));
  }

  /** Without the exclusion of predictive parsers the property fails: the predictive form of 'a'
      followed by 'b' fails on "ac" one character further on. */
  lemma PredictiveFailureConsumes()
    ensures var o := Eval(map[], "ac", 4, EXAMPLE, 1, BEGIN);
            o.Some? && o.value.r.Er? && o.value.w.cur.state.pos == 1
  {
    ExampleSequence();
    hide EvalAnd, Destroy, ErrOr;
    AfterAndCursor(EXAMPLE.x, 0, BEGIN, EvalAnd(map[], "ac", 2, AB, 0, BEGIN, []).value);
  }
}

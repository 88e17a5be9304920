// Termination: grammars without left recursion, whose repeated parsers always read something, can
// be run on every input.
module MpcTermination {
  import opened MpcTypes
  import opened MpcErrors
  import opened MpcInput
  import opened MpcBigStep
  import opened MpcCursors
  import opened MpcAdequacy

  /** A larger recursion bound finds the same outcome. */
  lemma {:induction false} EvalMore(g: Grammar, txt: string, k: nat, k': nat, p: Parser, bt: int, w: World)
    requires !p.Ref? && k <= k' && Eval(g, txt, k, p, bt, w).Some?
    ensures Eval(g, txt, k', p, bt, w) == Eval(g, txt, k, p, bt, w)
    decreases k, 0
  {
    hide LeafOutcome, AfterUnary, AfterRepeat, AfterAnd;
    if IsLeaf(p) {
    } else if IsUnary(p) {
      EvalMore(g, txt, k - 1, k' - 1, Resolve(g, p.x), Inner(p, bt), w);
    } else if IsRepeat(p) {
      ManyMore(g, txt, k - 1, k' - 1, p.x, bt, w, []);
    } else if p.xs != [] {
      if p.Or? { OrMore(g, txt, k - 1, k' - 1, p.xs, bt, w, []); }
      else { AndMore(g, txt, k - 1, k' - 1, p.xs, bt, w, []); }
    }
  }

  lemma SomeBound(g: Grammar, txt: string, k: nat, p: Parser, bt: int, w: World)
    requires !p.Ref? && Eval(g, txt, k, p, bt, w).Some?
    ensures k > 0
  {
    hide LeafOutcome, AfterUnary, AfterRepeat, AfterAnd;
  }

  lemma {:induction false} ManyMore(g: Grammar, txt: string, k: nat, k': nat, x: Parser, bt: int, w: World,
          vs: seq<Val>)
    requires k <= k' && EvalMany(g, txt, k, x, bt, w, vs).Some?
    ensures EvalMany(g, txt, k', x, bt, w, vs) == EvalMany(g, txt, k, x, bt, w, vs)
    decreases k, 1
  {
    EvalMore(g, txt, k, k', Resolve(g, x), bt, w);
    var o := Eval(g, txt, k, Resolve(g, x), bt, w).value;
    if o.r.Out? { ManyMore(g, txt, k - 1, k' - 1, x, bt, o.w, vs + [o.r.v]); }
  }

  lemma {:induction false} OrMore(g: Grammar, txt: string, k: nat, k': nat, xs: seq<Parser>, bt: int, w: World,
          es: seq<Err>)
    requires k <= k' && |es| < |xs| && EvalOr(g, txt, k, xs, bt, w, es).Some?
    ensures EvalOr(g, txt, k', xs, bt, w, es) == EvalOr(g, txt, k, xs, bt, w, es)
    decreases k, 1
  {
    hide ErrOr, BlameAll;
    EvalMore(g, txt, k, k', Resolve(g, xs[|es|]), bt, w);
    var o := Eval(g, txt, k, Resolve(g, xs[|es|]), bt, w).value;
    if o.r.Er? && |es| + 1 < |xs| { OrMore(g, txt, k - 1, k' - 1, xs, bt, o.w, es + [o.r.e]); }
  }

  lemma {:induction false} AndMore(g: Grammar, txt: string, k: nat, k': nat, xs: seq<Parser>, bt: int,
          w: World, vs: seq<Val>)
    requires k <= k' && |vs| < |xs| && EvalAnd(g, txt, k, xs, bt, w, vs).Some?
    ensures EvalAnd(g, txt, k', xs, bt, w, vs) == EvalAnd(g, txt, k, xs, bt, w, vs)
    decreases k, 1
  {
    EvalMore(g, txt, k, k', Resolve(g, xs[|vs|]), bt, w);
    var o := Eval(g, txt, k, Resolve(g, xs[|vs|]), bt, w).value;
    if o.r.Out? && |vs| + 1 < |xs| { AndMore(g, txt, k - 1, k' - 1, xs, bt, o.w, vs + [o.r.v]); }
  }

  /** Whether p may succeed without reading anything, given that only the rules in empty may. */
  predicate MayBeEmpty(p: Parser, empty: set<string>) {
    if IsCharParser(p) || p.Undefined? || p.Fail? then false
    else
      match p
      case String(s) => s == ""
      case Expect(x, _) => MayBeEmpty(x, empty)
      case Apply(x, _) => MayBeEmpty(x, empty)
      case ApplyTo(x, _, _) => MayBeEmpty(x, empty)
      case Predict(x) => MayBeEmpty(x, empty)
      case Many1(x, _) => MayBeEmpty(x, empty)
      case Count(n, x, _, _) => n <= 0 || MayBeEmpty(x, empty)
      case Or(xs) => xs == [] || exists i :: 0 <= i < |xs| && MayBeEmpty(xs[i], empty)
      case And(xs, _, _) => forall i :: 0 <= i < |xs| ==> MayBeEmpty(xs[i], empty)
      case Ref(name) => name in empty
      case _ => true
  }

  ghost predicate EmptyRules(g: Grammar, empty: set<string>) {
    forall name :: name in g && MayBeEmpty(g[name], empty) ==> name in empty
  }

  /** What the termination argument needs to know about the rules: which may read nothing, and a
      rank for each that falls along references in leftmost position. Ranks stay below limit. */
  datatype Ranking = Ranking(empty: set<string>, rank: map<string, nat>, limit: nat)

  /** p refers in leftmost position only to rules of rank below r, and repeats no parser that may
      read nothing. */
  predicate WellFormed(g: Grammar, p: Parser, k: Ranking, r: nat)
    decreases p, 0
  {
    match p
    case Expect(x, _) => WellFormed(g, x, k, r)
    case Apply(x, _) => WellFormed(g, x, k, r)
    case ApplyTo(x, _, _) => WellFormed(g, x, k, r)
    case Predict(x) => WellFormed(g, x, k, r)
    case Not(x, _, _) => WellFormed(g, x, k, r)
    case Maybe(x, _) => WellFormed(g, x, k, r)
    case Many(x, _) => !MayBeEmpty(x, k.empty) && WellFormed(g, x, k, r)
    case Many1(x, _) => !MayBeEmpty(x, k.empty) && WellFormed(g, x, k, r)
    case Count(_, x, _, _) => !MayBeEmpty(x, k.empty) && WellFormed(g, x, k, r)
    case Or(xs) => forall i :: 0 <= i < |xs| ==> WellFormed(g, xs[i], k, r)
    case And(xs, _, _) => forall i :: 0 <= i < |xs| ==> WellFormed(g, xs[i], k, LeftBound(xs, i, k, r))
    case Ref(name) => name in g ==> name in k.rank && k.rank[name] < r
    case _ => true
  }

  /** The rank bound for the parser at i: only behind a parser that reads something any rule is
      allowed. */
  function LeftBound(xs: seq<Parser>, i: nat, k: Ranking, r: nat): nat
    requires i <= |xs|
  {
    if forall j :: 0 <= j < i ==> MayBeEmpty(xs[j], k.empty) then r else k.limit
  }

  ghost predicate WellFormedGrammar(g: Grammar, k: Ranking) {
    && EmptyRules(g, k.empty)
    && forall name :: name in g ==>
         name in k.rank && k.rank[name] < k.limit && WellFormed(g, g[name], k, k.rank[name])
  }

  function Pos(w: World): int { w.cur.state.pos }

  lemma ManyForward(g: Grammar, txt: string, k: nat, x: Parser, bt: int, w: World, vs: seq<Val>)
    requires AtText(txt, w.cur) && EvalMany(g, txt, k, x, bt, w, vs).Some?
    ensures var s := EvalMany(g, txt, k, x, bt, w, vs).value; AtText(txt, s.w.cur) && Pos(w) <= Pos(s.w)
  {
    ForwardIsRespected(txt);
    ManyRespects(g, txt, k, x, bt, w, vs, Forward(txt));
    hide AtText, EvalMany;
  }

  lemma AndForward(g: Grammar, txt: string, k: nat, xs: seq<Parser>, bt: int, w: World, vs: seq<Val>)
    requires AtText(txt, w.cur) && |vs| < |xs| && EvalAnd(g, txt, k, xs, bt, w, vs).Some?
    ensures var s := EvalAnd(g, txt, k, xs, bt, w, vs).value; AtText(txt, s.w.cur) && Pos(w) <= Pos(s.w)
  {
    ForwardIsRespected(txt);
    AndRespects(g, txt, k, xs, bt, w, vs, Forward(txt));
    hide AtText, EvalAnd;
  }

  lemma LeafReads(txt: string, p: Parser, bt: int, w: World, empty: set<string>)
    requires IsLeaf(p) && AtText(txt, w.cur) && !MayBeEmpty(p, empty) && LeafOutcome(txt, p, bt, w).r.Out?
    ensures Pos(w) < Pos(LeafOutcome(txt, p, bt, w).w)
  {
    if p.String? {
      LiteralAtText(txt, p.str, w.cur);
      hide AtText, Matched, AdvanceBy;
    }
  }

  /** A parser that cannot succeed without reading reads something when it succeeds. */
  lemma {:induction false} SuccessReads(g: Grammar, txt: string, k: nat, p: Parser, bt: int, w: World,
          empty: set<string>)
    requires EmptyRules(g, empty) && !p.Ref? && AtText(txt, w.cur) && !MayBeEmpty(p, empty)
    requires Eval(g, txt, k, p, bt, w).Some? && Eval(g, txt, k, p, bt, w).value.r.Out?
    ensures Pos(w) < Pos(Eval(g, txt, k, p, bt, w).value.w)
    decreases k, 0
  {
    hide LeafOutcome, AtText, ErrOr, ErrMany1, ErrCount;
    if IsLeaf(p) {
      LeafReads(txt, p, bt, w, empty);
    } else if IsUnary(p) {
      assert !MayBeEmpty(Resolve(g, p.x), empty);
      SuccessReads(g, txt, k - 1, Resolve(g, p.x), Inner(p, bt), w, empty);
      AfterUnaryCursor(p, bt, w, Eval(g, txt, k - 1, Resolve(g, p.x), Inner(p, bt), w).value);
    } else if IsRepeat(p) {
      ManyReads(g, txt, k - 1, p.x, bt, w, [], empty);
      AfterRepeatCursor(p, bt, w, EvalMany(g, txt, k - 1, p.x, bt, w, []).value);
    } else if p.Or? {
      OrReads(g, txt, k - 1, p.xs, bt, w, [], empty);
    } else {
      AndReads(g, txt, k - 1, p.xs, bt, w, [], empty);
      AfterAndCursor(p, bt, w, EvalAnd(g, txt, k - 1, p.xs, bt, w, []).value);
    }
  }

  lemma {:induction false} ManyReads(g: Grammar, txt: string, k: nat, x: Parser, bt: int, w: World,
          vs: seq<Val>, empty: set<string>)
    requires EmptyRules(g, empty) && AtText(txt, w.cur) && !MayBeEmpty(x, empty)
    requires EvalMany(g, txt, k, x, bt, w, vs).Some?
    ensures var s := EvalMany(g, txt, k, x, bt, w, vs).value; |s.vs| != |vs| ==> Pos(w) < Pos(s.w)
    decreases k, 1
  {
    hide AtText;
    var o := Eval(g, txt, k, Resolve(g, x), bt, w).value;
    if o.r.Out? {
      assert !MayBeEmpty(Resolve(g, x), empty);
      SuccessReads(g, txt, k, Resolve(g, x), bt, w, empty);
      CursorTracksText(g, txt, k, Resolve(g, x), bt, w);
      ManyForward(g, txt, k - 1, x, bt, o.w, vs + [o.r.v]);
    }
  }

  lemma {:induction false} OrReads(g: Grammar, txt: string, k: nat, xs: seq<Parser>, bt: int, w: World,
          es: seq<Err>, empty: set<string>)
    requires EmptyRules(g, empty) && AtText(txt, w.cur) && (forall i :: 0 <= i < |xs| ==> !MayBeEmpty(xs[i], empty))
    requires |es| < |xs| && EvalOr(g, txt, k, xs, bt, w, es).Some? && EvalOr(g, txt, k, xs, bt, w, es).value.r.Out?
    ensures Pos(w) < Pos(EvalOr(g, txt, k, xs, bt, w, es).value.w)
    decreases k, 1
  {
    hide AtText, ErrOr;
    var x := Resolve(g, xs[|es|]);
    var o := Eval(g, txt, k, x, bt, w).value;
    assert !MayBeEmpty(x, empty);
    CursorTracksText(g, txt, k, x, bt, w);
    if o.r.Out? {
      SuccessReads(g, txt, k, x, bt, w, empty);
      BlameAllKeepsCursor(o.w, es);
    } else {
      OrReads(g, txt, k - 1, xs, bt, o.w, es + [o.r.e], empty);
    }
  }

  lemma {:induction false} AndReads(g: Grammar, txt: string, k: nat, xs: seq<Parser>, bt: int, w: World,
          vs: seq<Val>, empty: set<string>)
    requires EmptyRules(g, empty) && AtText(txt, w.cur)
    requires |vs| < |xs| && exists i :: |vs| <= i < |xs| && !MayBeEmpty(xs[i], empty)
    requires EvalAnd(g, txt, k, xs, bt, w, vs).Some? && EvalAnd(g, txt, k, xs, bt, w, vs).value.Done?
    ensures Pos(w) < Pos(EvalAnd(g, txt, k, xs, bt, w, vs).value.w)
    decreases k, 1
  {
    hide AtText;
    var x := Resolve(g, xs[|vs|]);
    var o := Eval(g, txt, k, x, bt, w).value;
    CursorTracksText(g, txt, k, x, bt, w);
    if !MayBeEmpty(xs[|vs|], empty) {
      assert !MayBeEmpty(x, empty);
      SuccessReads(g, txt, k, x, bt, w, empty);
      if |vs| + 1 < |xs| { AndForward(g, txt, k - 1, xs, bt, o.w, vs + [o.r.v]); }
    } else {
      AndReads(g, txt, k - 1, xs, bt, o.w, vs + [o.r.v], empty);
    }
  }

  function Left(txt: string, w: World): int { |txt| - Pos(w) }

  function Length(p: Parser): nat { if p.Or? || p.And? then |p.xs| else 0 }

  /** A well-formed parser of a well-formed grammar yields an outcome on every input: some
      recursion bound suffices. The measure is what is left of the input, then the rank bound, then
      the parser. */
  lemma {:induction false} Suffices(g: Grammar, txt: string, p: Parser, bt: int, w: World, ranks: Ranking,
          r: nat) returns (k: nat)
    requires WellFormedGrammar(g, ranks) && WellFormed(g, p, ranks, r) && AtText(txt, w.cur)
    ensures Eval(g, txt, k, Resolve(g, p), bt, w).Some?
    decreases Left(txt, w), r, p, Length(p) + 1
  {
    hide AtText, Eval, EvalMany, EvalOr, EvalAnd, MayBeEmpty, EmptyRules, LeftBound;
    InText(txt, w.cur);
    if p.Ref? {
      if p.name in g {
        k := Suffices(g, txt, g[p.name], bt, w, ranks, ranks.rank[p.name]);
      } else {
        k := 1;
        EvalAtOnce(g, txt, k, Undefined, bt, w);
      }
    } else if IsUnary(p) {
      k := Suffices(g, txt, p.x, Inner(p, bt), w, ranks, r);
      k := k + 1;
      UnaryEval(g, txt, k, p, bt, w);
    } else if IsRepeat(p) {
      k := SufficesMany(g, txt, p, bt, w, [], ranks, r);
      k := k + 1;
      RepeatEval(g, txt, k, p, bt, w);
    } else if IsLeaf(p) || p.xs == [] {
      k := 1;
      EvalAtOnce(g, txt, k, p, bt, w);
    } else if p.Or? {
      k := SufficesOr(g, txt, p, bt, w, w, [], ranks, r);
      k := k + 1;
      ListEval(g, txt, k, p, bt, w);
    } else {
      k := SufficesAnd(g, txt, p, bt, w, w, [], ranks, r);
      k := k + 1;
      ListEval(g, txt, k, p, bt, w);
    }
  }

  lemma {:induction false} SufficesMany(g: Grammar, txt: string, p: Parser, bt: int, w: World, vs: seq<Val>,
          ranks: Ranking, r: nat)
    returns (k: nat)
    requires WellFormedGrammar(g, ranks) && IsRepeat(p) && WellFormed(g, p, ranks, r) && AtText(txt, w.cur)
    ensures EvalMany(g, txt, k, p.x, bt, w, vs).Some?
    decreases Left(txt, w), r, p, 0
  {
    hide AtText, Eval;
    InText(txt, w.cur);
    var x := Resolve(g, p.x);
    k := Suffices(g, txt, p.x, bt, w, ranks, r);
    var o := Eval(g, txt, k, x, bt, w).value;
    if o.r.Out? {
      CursorTracksText(g, txt, k, x, bt, w);
      SuccessReads(g, txt, k, x, bt, w, ranks.empty);
      InText(txt, o.w.cur);
      var k' := SufficesMany(g, txt, p, bt, o.w, vs + [o.r.v], ranks, r);
      var top := if k > k' then k else k';
      EvalMore(g, txt, k, top + 1, x, bt, w);
      ManyMore(g, txt, k', top, p.x, bt, o.w, vs + [o.r.v]);
      k := top + 1;
    }
  }

  lemma {:induction false} SufficesOr(g: Grammar, txt: string, p: Parser, bt: int, w0: World, w: World,
          es: seq<Err>, ranks: Ranking, r: nat)
    returns (k: nat)
    requires WellFormedGrammar(g, ranks) && p.Or? && WellFormed(g, p, ranks, r)
    requires AtText(txt, w.cur) && Pos(w0) <= Pos(w) && |es| < |p.xs|
    ensures EvalOr(g, txt, k, p.xs, bt, w, es).Some?
    decreases Left(txt, w0), r, p, |p.xs| - |es|
  {
    hide AtText, Eval, ErrOr, BlameAll;
    InText(txt, w.cur);
    var x := Resolve(g, p.xs[|es|]);
    k := Suffices(g, txt, p.xs[|es|], bt, w, ranks, r);
    var o := Eval(g, txt, k, x, bt, w).value;
    if o.r.Er? && |es| + 1 < |p.xs| {
      CursorTracksText(g, txt, k, x, bt, w);
      var k' := SufficesOr(g, txt, p, bt, w0, o.w, es + [o.r.e], ranks, r);
      var top := if k > k' then k else k';
      EvalMore(g, txt, k, top + 1, x, bt, w);
      OrMore(g, txt, k', top, p.xs, bt, o.w, es + [o.r.e]);
      k := top + 1;
    }
  }

  lemma {:induction false} SufficesAnd(g: Grammar, txt: string, p: Parser, bt: int, w0: World, w: World,
          vs: seq<Val>, ranks: Ranking, r: nat)
    returns (k: nat)
    requires WellFormedGrammar(g, ranks) && p.And? && WellFormed(g, p, ranks, r)
    requires AtText(txt, w.cur) && Pos(w0) <= Pos(w) && |vs| < |p.xs|
    requires (exists j :: 0 <= j < |vs| && !MayBeEmpty(p.xs[j], ranks.empty)) ==> Pos(w0) < Pos(w)
    ensures EvalAnd(g, txt, k, p.xs, bt, w, vs).Some?
    decreases Left(txt, w0), r, p, |p.xs| - |vs|
  {
    hide AtText, Eval;
    InText(txt, w.cur);
    var x := Resolve(g, p.xs[|vs|]);
    k := Suffices(g, txt, p.xs[|vs|], bt, w, ranks, LeftBound(p.xs, |vs|, ranks, r));
    var o := Eval(g, txt, k, x, bt, w).value;
    if o.r.Out? && |vs| + 1 < |p.xs| {
      CursorTracksText(g, txt, k, x, bt, w);
      if !MayBeEmpty(p.xs[|vs|], ranks.empty) { SuccessReads(g, txt, k, x, bt, w, ranks.empty); }
      var k' := SufficesAnd(g, txt, p, bt, w0, o.w, vs + [o.r.v], ranks, r);
      k := AndFrom(g, txt, k, k', p.xs, bt, w, vs);
    }
  }

  lemma AndFrom(g: Grammar, txt: string, k: nat, k': nat, xs: seq<Parser>, bt: int, w: World,
          vs: seq<Val>) returns (top: nat)
    requires |vs| + 1 < |xs| && Eval(g, txt, k, Resolve(g, xs[|vs|]), bt, w).Some?
    requires var o := Eval(g, txt, k, Resolve(g, xs[|vs|]), bt, w).value;
             o.r.Out? && EvalAnd(g, txt, k', xs, bt, o.w, vs + [o.r.v]).Some?
    ensures EvalAnd(g, txt, top, xs, bt, w, vs).Some?
  {
    hide Eval;
    var o := Eval(g, txt, k, Resolve(g, xs[|vs|]), bt, w).value;
    top := (if k > k' then k else k') + 1;
    EvalMore(g, txt, k, top, Resolve(g, xs[|vs|]), bt, w);
    AndMore(g, txt, k', top - 1, xs, bt, o.w, vs + [o.r.v]);
  }

  /** Every well-formed parser terminates on every input, from every position and in every mode. */
  lemma WellFormedTerminates(g: Grammar, txt: string, p: Parser, bt: int, w: World, ranks: Ranking)
    requires WellFormedGrammar(g, ranks) && WellFormed(g, p, ranks, ranks.limit) && AtText(txt, w.cur)
    ensures Terminates(g, txt, Resolve(g, p), bt, w)
  {
    var k := Suffices(g, txt, p, bt, w, ranks, ranks.limit);
  }
}

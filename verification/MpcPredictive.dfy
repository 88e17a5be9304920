// Predictive parsing: when a run never has anything to undo, disabling backtracking changes nothing.
module MpcPredictive {
  import opened MpcTypes
  import opened MpcErrors
  import opened MpcInput
  import opened MpcBigStep
  import opened MpcCursors

  /** Whether a rewind to mark would change nothing. */
  predicate NothingToUndo(bt: int, mark: Cursor, cur: Cursor) { bt < 1 || cur == mark }

  /** Whether every rewind in a run of p finds the input already at its mark. */
  predicate Clean(g: Grammar, txt: string, k: nat, p: Parser, bt: int, w: World)
    requires !p.Ref?
    decreases k, 0
  {
    if k == 0 then true
    else if IsLeaf(p) then
      p.String? ==>
        var n := Matched(txt, p.str, w.cur.state.pos);
        n < |p.str| ==> NothingToUndo(bt, w.cur, AdvanceBy(p.str[..n], w.cur))
    else if IsUnary(p) then
      var o := Eval(g, txt, k - 1, Resolve(g, p.x), Inner(p, bt), w);
      && Clean(g, txt, k - 1, Resolve(g, p.x), Inner(p, bt), w)
      && (p.Not? && o.Some? && o.value.r.Out? ==> NothingToUndo(bt, w.cur, o.value.w.cur))
    else if IsRepeat(p) then
      var s := EvalMany(g, txt, k - 1, p.x, bt, w, []);
      && CleanMany(g, txt, k - 1, p.x, bt, w, [])
      && (p.Count? && s.Some? && |s.value.vs| != p.n ==> NothingToUndo(bt, w.cur, s.value.w.cur))
    else if p.xs == [] then true
    else if p.Or? then CleanOr(g, txt, k - 1, p.xs, bt, w, [])
    else
      var s := EvalAnd(g, txt, k - 1, p.xs, bt, w, []);
      && CleanAnd(g, txt, k - 1, p.xs, bt, w, [])
      && (s.Some? && s.value.Broken? ==> NothingToUndo(bt, w.cur, s.value.w.cur))
  }

  predicate CleanMany(g: Grammar, txt: string, k: nat, x: Parser, bt: int, w: World, vs: seq<Val>)
    decreases k, 1
  {
    var o := Eval(g, txt, k, Resolve(g, x), bt, w);
    && Clean(g, txt, k, Resolve(g, x), bt, w)
    && (o.Some? && o.value.r.Out? ==> CleanMany(g, txt, k - 1, x, bt, o.value.w, vs + [o.value.r.v]))
  }

  predicate CleanOr(g: Grammar, txt: string, k: nat, xs: seq<Parser>, bt: int, w: World, es: seq<Err>)
    requires |es| < |xs|
    decreases k, 1
  {
    var o := Eval(g, txt, k, Resolve(g, xs[|es|]), bt, w);
    && Clean(g, txt, k, Resolve(g, xs[|es|]), bt, w)
    && (o.Some? && o.value.r.Er? && |es| + 1 < |xs| ==> CleanOr(g, txt, k - 1, xs, bt, o.value.w, es + [o.value.r.e]))
  }

  predicate CleanAnd(g: Grammar, txt: string, k: nat, xs: seq<Parser>, bt: int, w: World, vs: seq<Val>)
    requires |vs| < |xs|
    decreases k, 1
  {
    var o := Eval(g, txt, k, Resolve(g, xs[|vs|]), bt, w);
    && Clean(g, txt, k, Resolve(g, xs[|vs|]), bt, w)
    && (o.Some? && o.value.r.Out? && |vs| + 1 < |xs| ==> CleanAnd(g, txt, k - 1, xs, bt, o.value.w, vs + [o.value.r.v]))
  }

  lemma SameAfterUnary(p: Parser, bt: int, bt': int, w: World, o: Outcome)
    requires IsUnary(p) && bt' <= bt && (p.Not? && o.r.Out? ==> NothingToUndo(bt, w.cur, o.w.cur))
    ensures AfterUnary(p, bt, w, o) == AfterUnary(p, bt', w, o)
  {
    hide ErrOr, DestroySame;
    if p.Not? && o.r.Out? { assert Rewound(bt, w, o.w) == Rewound(bt', w, o.w); }
  }

  lemma SameAfterRepeat(p: Parser, bt: int, bt': int, w: World, s: Stop)
    requires IsRepeat(p) && bt' <= bt && (p.Count? && |s.vs| != p.n ==> NothingToUndo(bt, w.cur, s.w.cur))
    ensures AfterRepeat(p, bt, w, s) == AfterRepeat(p, bt', w, s)
  {
    if p.Count? && |s.vs| != p.n { DestroySameKeeps(s.w, s.vs, p.dx); }
    hide ErrOr, ErrMany1, ErrCount, DestroySame;
  }

  lemma SameAfterAnd(p: Parser, bt: int, bt': int, w: World, s: Seq)
    requires p.And? && bt' <= bt && (s.Broken? ==> NothingToUndo(bt, w.cur, s.w.cur))
    ensures AfterAnd(p, bt, w, s) == AfterAnd(p, bt', w, s)
  {
    hide Destroy;
  }

  lemma SameLeaf(txt: string, p: Parser, bt: int, bt': int, w: World)
    requires IsLeaf(p) && bt' <= bt
    requires p.String? ==>
               var n := Matched(txt, p.str, w.cur.state.pos);
               n < |p.str| ==> NothingToUndo(bt, w.cur, AdvanceBy(p.str[..n], w.cur))
    ensures LeafOutcome(txt, p, bt, w) == LeafOutcome(txt, p, bt', w)
  {
    hide Matched, AdvanceBy, Accepts;
  }

  /** A clean run gives the same result, error and input position with less backtracking. */
  lemma {:induction false} LessBacktracking(g: Grammar, txt: string, k: nat, p: Parser, bt: int, bt': int, w: World)
    requires !p.Ref? && bt' <= bt && Clean(g, txt, k, p, bt, w)
    ensures Eval(g, txt, k, p, bt, w) == Eval(g, txt, k, p, bt', w)
    decreases k, 0
  {
    hide LeafOutcome, AfterUnary, AfterRepeat, AfterAnd, NothingToUndo;
    if k > 0 {
      if IsLeaf(p) {
        SameLeaf(txt, p, bt, bt', w);
      } else if IsUnary(p) {
        var x := Resolve(g, p.x);
        LessBacktracking(g, txt, k - 1, x, Inner(p, bt), Inner(p, bt'), w);
        var o := Eval(g, txt, k - 1, x, Inner(p, bt), w);
        if o.Some? { SameAfterUnary(p, bt, bt', w, o.value); }
      } else if IsRepeat(p) {
        LessInMany(g, txt, k - 1, p.x, bt, bt', w, []);
        var s := EvalMany(g, txt, k - 1, p.x, bt, w, []);
        if s.Some? { SameAfterRepeat(p, bt, bt', w, s.value); }
      } else if p.xs == [] {
      } else if p.Or? {
        LessInOr(g, txt, k - 1, p.xs, bt, bt', w, []);
      } else {
        LessInAnd(g, txt, k - 1, p.xs, bt, bt', w, []);
        var s := EvalAnd(g, txt, k - 1, p.xs, bt, w, []);
        if s.Some? { SameAfterAnd(p, bt, bt', w, s.value); }
      }
    }
  }

  lemma {:induction false} LessInMany(g: Grammar, txt: string, k: nat, x: Parser, bt: int, bt': int, w: World,
          vs: seq<Val>)
    requires bt' <= bt && CleanMany(g, txt, k, x, bt, w, vs)
    ensures EvalMany(g, txt, k, x, bt, w, vs) == EvalMany(g, txt, k, x, bt', w, vs)
    decreases k, 1
  {
    LessBacktracking(g, txt, k, Resolve(g, x), bt, bt', w);
    var o := Eval(g, txt, k, Resolve(g, x), bt, w);
    if o.Some? && o.value.r.Out? { LessInMany(g, txt, k - 1, x, bt, bt', o.value.w, vs + [o.value.r.v]); }
  }

  lemma {:induction false} LessInOr(g: Grammar, txt: string, k: nat, xs: seq<Parser>, bt: int, bt': int,
          w: World, es: seq<Err>)
    requires bt' <= bt && |es| < |xs| && CleanOr(g, txt, k, xs, bt, w, es)
    ensures EvalOr(g, txt, k, xs, bt, w, es) == EvalOr(g, txt, k, xs, bt', w, es)
    decreases k, 1
  {
    hide ErrOr, BlameAll;
    LessBacktracking(g, txt, k, Resolve(g, xs[|es|]), bt, bt', w);
    var o := Eval(g, txt, k, Resolve(g, xs[|es|]), bt, w);
    if o.Some? && o.value.r.Er? && |es| + 1 < |xs| { LessInOr(g, txt, k - 1, xs, bt, bt', o.value.w, es + [o.value.r.e]); }
  }

  lemma {:induction false} LessInAnd(g: Grammar, txt: string, k: nat, xs: seq<Parser>, bt: int, bt': int,
          w: World, vs: seq<Val>)
    requires bt' <= bt && |vs| < |xs| && CleanAnd(g, txt, k, xs, bt, w, vs)
    ensures EvalAnd(g, txt, k, xs, bt, w, vs) == EvalAnd(g, txt, k, xs, bt', w, vs)
    decreases k, 1
  {
    LessBacktracking(g, txt, k, Resolve(g, xs[|vs|]), bt, bt', w);
    var o := Eval(g, txt, k, Resolve(g, xs[|vs|]), bt, w);
    if o.Some? && o.value.r.Out? && |vs| + 1 < |xs| { LessInAnd(g, txt, k - 1, xs, bt, bt', o.value.w, vs + [o.value.r.v]); }
  }

  /** A parser whose run has nothing to undo means the same under mpc_predictive. */
  lemma PredictiveIsSound(g: Grammar, txt: string, k: nat, p: Parser, bt: int, w: World)
    requires Clean(g, txt, k, Resolve(g, p), bt, w)
    ensures Eval(g, txt, k + 1, Predict(p), bt, w) == Eval(g, txt, k, Resolve(g, p), bt, w)
  {
    LessBacktracking(g, txt, k, Resolve(g, p), bt, bt - 1, w);
  }
}

// When repetitions end: exactly if the repeated parser never succeeds without moving on, and always comes to an end itself.
module MpcRepetition {
  import opened MpcTypes
  import opened Options
  import opened MpcErrors
  import opened MpcInput
  import opened MpcBigStep
  import opened MpcCursors
  import opened MpcAdequacy
  import opened MpcTermination

  /** Same result, same place; the merged error and the destructor calls may differ. */
  predicate Alike(a: Outcome, b: Outcome) { a.r == b.r && a.w.cur == b.w.cur }

  /** What a parser yields, and where it ends, depends on the place where it starts only. */
  lemma {:induction false} PlaceDecides(g: Grammar, txt: string, k: nat, p: Parser, bt: int, w: World, w': World)
    requires !p.Ref? && w'.cur == w.cur && Eval(g, txt, k, p, bt, w).Some?
    ensures Eval(g, txt, k, p, bt, w').Some? && Alike(Eval(g, txt, k, p, bt, w).value, Eval(g, txt, k, p, bt, w').value)
    decreases k, 0
  {
    hide ErrOr, ErrMany1, ErrCount;
    if IsLeaf(p) {
    } else if IsUnary(p) {
      hide LeafOutcome;
      var x := Resolve(g, p.x);
      PlaceDecides(g, txt, k - 1, x, Inner(p, bt), w, w');
      AfterUnaryCursor(p, bt, w, Eval(g, txt, k - 1, x, Inner(p, bt), w).value);
      AfterUnaryCursor(p, bt, w', Eval(g, txt, k - 1, x, Inner(p, bt), w').value);
    } else if IsRepeat(p) {
      hide LeafOutcome;
      ManyDecides(g, txt, k - 1, p.x, bt, w, w', []);
      AfterRepeatCursor(p, bt, w, EvalMany(g, txt, k - 1, p.x, bt, w, []).value);
      AfterRepeatCursor(p, bt, w', EvalMany(g, txt, k - 1, p.x, bt, w', []).value);
    } else if p.xs != [] {
      hide LeafOutcome;
      if p.Or? {
        OrDecides(g, txt, k - 1, p.xs, bt, w, w', []);
      } else {
        AndDecides(g, txt, k - 1, p.xs, bt, w, w', []);
        AfterAndCursor(p, bt, w, EvalAnd(g, txt, k - 1, p.xs, bt, w, []).value);
        AfterAndCursor(p, bt, w', EvalAnd(g, txt, k - 1, p.xs, bt, w', []).value);
      }
    }
  }

  lemma {:induction false} ManyDecides(g: Grammar, txt: string, k: nat, x: Parser, bt: int, w: World, w': World, vs: seq<Val>)
    requires w'.cur == w.cur && EvalMany(g, txt, k, x, bt, w, vs).Some?
    ensures EvalMany(g, txt, k, x, bt, w', vs).Some?
    ensures var s, s' := EvalMany(g, txt, k, x, bt, w, vs).value, EvalMany(g, txt, k, x, bt, w', vs).value;
      s'.vs == s.vs && s'.e == s.e && s'.w.cur == s.w.cur
    decreases k, 1
  {
    PlaceDecides(g, txt, k, Resolve(g, x), bt, w, w');
    var o, o' := Eval(g, txt, k, Resolve(g, x), bt, w).value, Eval(g, txt, k, Resolve(g, x), bt, w').value;
    if o.r.Out? { ManyDecides(g, txt, k - 1, x, bt, o.w, o'.w, vs + [o.r.v]); }
  }

  lemma {:induction false} OrDecides(g: Grammar, txt: string, k: nat, xs: seq<Parser>, bt: int, w: World, w': World, es: seq<Err>)
    requires w'.cur == w.cur && |es| < |xs| && EvalOr(g, txt, k, xs, bt, w, es).Some?
    ensures EvalOr(g, txt, k, xs, bt, w', es).Some?
    ensures Alike(EvalOr(g, txt, k, xs, bt, w, es).value, EvalOr(g, txt, k, xs, bt, w', es).value)
    decreases k, 1
  {
    hide ErrOr, BlameAll;
    var x := Resolve(g, xs[|es|]);
    PlaceDecides(g, txt, k, x, bt, w, w');
    var o, o' := Eval(g, txt, k, x, bt, w).value, Eval(g, txt, k, x, bt, w').value;
    if o.r.Out? {
      BlameAllKeepsCursor(o.w, es);
      BlameAllKeepsCursor(o'.w, es);
    } else if |es| + 1 < |xs| {
      OrDecides(g, txt, k - 1, xs, bt, o.w, o'.w, es + [o.r.e]);
    }
  }

  lemma {:induction false} AndDecides(g: Grammar, txt: string, k: nat, xs: seq<Parser>, bt: int, w: World, w': World, vs: seq<Val>)
    requires w'.cur == w.cur && |vs| < |xs| && EvalAnd(g, txt, k, xs, bt, w, vs).Some?
    ensures EvalAnd(g, txt, k, xs, bt, w', vs).Some?
    ensures var s, s' := EvalAnd(g, txt, k, xs, bt, w, vs).value, EvalAnd(g, txt, k, xs, bt, w', vs).value;
      s'.vs == s.vs && s'.w.cur == s.w.cur && s'.Done? == s.Done? && (s.Broken? ==> s'.e == s.e)
    decreases k, 1
  {
    var x := Resolve(g, xs[|vs|]);
    PlaceDecides(g, txt, k, x, bt, w, w');
    var o, o' := Eval(g, txt, k, x, bt, w).value, Eval(g, txt, k, x, bt, w').value;
    if o.r.Out? && |vs| + 1 < |xs| { AndDecides(g, txt, k - 1, xs, bt, o.w, o'.w, vs + [o.r.v]); }
  }

  /** From w, after n successes of x, the next run of x does not end, or succeeds where it started. */
  ghost predicate StuckAfter(g: Grammar, txt: string, x: Parser, bt: int, w: World, n: nat)
    requires !x.Ref?
    decreases n
  {
    if !Terminates(g, txt, x, bt, w) then n == 0
    else
      var o := Meaning(g, txt, x, bt, w);
      o.r.Out? && if n == 0 then o.w.cur == w.cur else StuckAfter(g, txt, x, bt, o.w, n - 1)
  }

  ghost predicate Stuck(g: Grammar, txt: string, x: Parser, bt: int, w: World)
    requires !x.Ref?
  {
    exists n: nat :: StuckAfter(g, txt, x, bt, w, n)
  }

  /** Repeating a parser that has succeeded where it started never ends. */
  lemma {:induction false} InPlaceAgain(g: Grammar, txt: string, j: nat, k: nat, x: Parser, bt: int, w: World, w': World, vs: seq<Val>)
    requires Eval(g, txt, j, Resolve(g, x), bt, w).Some? && w'.cur == w.cur
    requires var o := Eval(g, txt, j, Resolve(g, x), bt, w).value; o.r.Out? && o.w.cur == w.cur
    ensures EvalMany(g, txt, k, x, bt, w', vs).None?
    decreases k
  {
    hide Eval;
    if EvalMany(g, txt, k, x, bt, w', vs).Some? {
      var y := Resolve(g, x);
      PlaceDecides(g, txt, j, y, bt, w, w');
      MeaningIsUnique(g, txt, j, k, y, bt, w');
      var o := Eval(g, txt, k, y, bt, w').value;
      SomeBound(g, txt, k, y, bt, w');
      InPlaceAgain(g, txt, j, k - 1, x, bt, w, o.w, vs + [o.r.v]);
    }
  }

  /** A parser that once succeeds without moving on must not be repeated: the repetition never ends. */
  lemma EmptyRepetitionDiverges(g: Grammar, txt: string, j: nat, p: Parser, bt: int, w: World)
    requires IsRepeat(p) && Eval(g, txt, j, Resolve(g, p.x), bt, w).Some?
    requires var o := Eval(g, txt, j, Resolve(g, p.x), bt, w).value; o.r.Out? && o.w.cur == w.cur
    ensures Diverges(g, txt, p, bt, w)
  {
    forall k: nat ensures Eval(g, txt, k, p, bt, w).None? {
      if k > 0 { InPlaceAgain(g, txt, j, k - 1, p.x, bt, w, w, []); }
      RepeatEval(g, txt, k, p, bt, w);
    }
  }

  lemma {:induction false} StuckDiverges(g: Grammar, txt: string, k: nat, x: Parser, bt: int, w: World, vs: seq<Val>, n: nat)
    requires StuckAfter(g, txt, Resolve(g, x), bt, w, n)
    ensures EvalMany(g, txt, k, x, bt, w, vs).None?
    decreases n
  {
    hide Eval, Meaning;
    var y := Resolve(g, x);
    if EvalMany(g, txt, k, x, bt, w, vs).Some? {
      assert Eval(g, txt, k, y, bt, w).Some?;
      SomeBound(g, txt, k, y, bt, w);
      MeaningIs(g, txt, k, y, bt, w);
      var o := Meaning(g, txt, y, bt, w);
      if n == 0 {
        InPlaceAgain(g, txt, k, k, x, bt, w, w, vs);
      } else {
        StuckDiverges(g, txt, k - 1, x, bt, o.w, vs + [o.r.v], n - 1);
      }
    }
  }

  lemma {:induction false} UnstuckEnds(g: Grammar, txt: string, x: Parser, bt: int, w: World, vs: seq<Val>) returns (k: nat)
    requires AtText(txt, w.cur) && forall n: nat :: !StuckAfter(g, txt, Resolve(g, x), bt, w, n)
    ensures EvalMany(g, txt, k, x, bt, w, vs).Some?
    decreases Left(txt, w)
  {
    hide Eval, Meaning, AtText;
    InText(txt, w.cur);
    var y := Resolve(g, x);
    assert !StuckAfter(g, txt, y, bt, w, 0);
    var o := Meaning(g, txt, y, bt, w);
    k :| Eval(g, txt, k, y, bt, w) == Some(o);
    SomeBound(g, txt, k, y, bt, w);
    if o.r.Out? {
      CursorTracksText(g, txt, k, y, bt, w);
      InText(txt, o.w.cur);
      MovedOn(txt, w.cur, o.w.cur);
      forall n: nat ensures !StuckAfter(g, txt, y, bt, o.w, n) {
        assert !StuckAfter(g, txt, y, bt, w, n + 1);
      }
      var k' := UnstuckEnds(g, txt, x, bt, o.w, vs + [o.r.v]);
      var top := if k > k' then k else k';
      EvalMore(g, txt, k, top + 1, y, bt, w);
      ManyMore(g, txt, k', top, x, bt, o.w, vs + [o.r.v]);
      k := top + 1;
    }
  }

  lemma MovedOn(txt: string, a: Cursor, b: Cursor)
    requires AtText(txt, a) && AtText(txt, b) && a != b
    ensures a.state.pos != b.state.pos
  {
  }

  /** A repetition fails to end if and only if, after some number of successes, the repeated parser does not end or succeeds where it started. */
  lemma RepetitionDiverges(g: Grammar, txt: string, p: Parser, bt: int, w: World)
    requires IsRepeat(p) && AtText(txt, w.cur)
    ensures Diverges(g, txt, p, bt, w) <==> Stuck(g, txt, Resolve(g, p.x), bt, w)
  {
    hide Eval, AtText, Meaning, Terminates;
    if Stuck(g, txt, Resolve(g, p.x), bt, w) {
      var n: nat :| StuckAfter(g, txt, Resolve(g, p.x), bt, w, n);
      forall k: nat ensures Eval(g, txt, k, p, bt, w) == None {
        RepeatEval(g, txt, k, p, bt, w);
        if k > 0 { StuckDiverges(g, txt, k - 1, p.x, bt, w, [], n); }
      }
    } else {
      var k := UnstuckEnds(g, txt, p.x, bt, w, []);
      RepeatEval(g, txt, k + 1, p, bt, w);
    }
  }

  /** (c?)* never ends, whatever the text: once the characters c are read, its body succeeds where it started. */
  lemma {:induction false} OptionalStarDiverges(g: Grammar, txt: string, c: char, v: Val, fold: Fold, bt: int, w: World)
    requires AtText(txt, w.cur)
    ensures Diverges(g, txt, Many(Maybe(Single(c), v), fold), bt, w)
  {
    hide StuckAfter, Diverges, Eval, AtText;
    var p := Many(Maybe(Single(c), v), fold);
    var n := OptionalStuck(g, txt, c, v, bt, w);
    assert Resolve(g, p.x) == p.x && IsRepeat(p);
    RepetitionDiverges(g, txt, p, bt, w);
  }

  lemma {:induction false} OptionalStuck(g: Grammar, txt: string, c: char, v: Val, bt: int, w: World) returns (n: nat)
    requires AtText(txt, w.cur)
    ensures StuckAfter(g, txt, Maybe(Single(c), v), bt, w, n)
    decreases Left(txt, w)
  {
    var x := Maybe(Single(c), v);
    InText(txt, w.cur);
    OptionalOnce(g, txt, c, v, bt, w);
    hide Eval, Meaning, AtText;
    MeaningIs(g, txt, 2, x, bt, w);
    var o := Meaning(g, txt, x, bt, w);
    n := 0;
    if o.w.cur != w.cur {
      CursorTracksText(g, txt, 2, x, bt, w);
      InText(txt, o.w.cur);
      MovedOn(txt, w.cur, o.w.cur);
      n := OptionalStuck(g, txt, c, v, bt, o.w);
      n := n + 1;
    }
  }

  lemma OptionalOnce(g: Grammar, txt: string, c: char, v: Val, bt: int, w: World)
    ensures var o := Eval(g, txt, 2, Maybe(Single(c), v), bt, w); o.Some? && o.value.r.Out?
  {
    hide ErrOr;
    assert Eval(g, txt, 1, Single(c), bt, w).Some?;
  }
}

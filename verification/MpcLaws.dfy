// What each kind of parser yields, told on the outcomes of the parsers it runs: results, errors, destructor calls and the input.
module MpcLaws {
  import opened MpcTypes
  import opened Options
  import opened MpcErrors
  import opened MpcInput
  import opened MpcBigStep
  import opened MpcCursors
  import opened MpcTermination

  /** The parser a pointer leads to yields o from w. */
  ghost predicate Gives(g: Grammar, txt: string, x: Parser, bt: int, w: World, o: Outcome) {
    exists k :: Eval(g, txt, k, Resolve(g, x), bt, w) == Some(o)
  }

  /** An error that expects one thing, at the place s. */
  ghost predicate IsNamed(r: Res, s: State, expected: string) {
    r.Er? && r.e.state == s && r.e.expected == [expected] && r.e.failure.None?
  }

  /** An error that reports a failure, at the place s. */
  ghost predicate IsFailure(r: Res, s: State, failure: string) {
    r.Er? && r.e.state == s && r.e.expected == [] && r.e.failure == Some(failure)
  }

  /** w' is w but for the error e, which has been given up and is merged into the error of the parse. */
  ghost predicate GivesUp(w: World, e: Err, w': World) {
    w'.cur == w.cur && w'.log == w.log && Merges([w.err, e], w'.err)
  }

  lemma BlameGivesUp(w: World, e: Err)
    ensures GivesUp(w, e, Blame(w, e))
  {
    MergedIsRight([w.err, e]);
    hide ErrOr, Merges;
  }

  /** A parse starts with a failure before the text. */
  lemma FirstError()
    ensures IsFailure(Er(UNKNOWN_ERROR), State(-1, -1, -1), "Unknown Error")
  {
  }

  // Parsers that run one other parser

  lemma Inside(g: Grammar, txt: string, k: nat, p: Parser, bt: int, w: World) returns (o: Outcome)
    requires IsUnary(p) && Eval(g, txt, k, p, bt, w).Some?
    ensures Gives(g, txt, p.x, Inner(p, bt), w, o) && Eval(g, txt, k, p, bt, w).value == AfterUnary(p, bt, w, o)
  {
    hide Eval, AfterUnary;
    UnaryEval(g, txt, k, p, bt, w);
    o := Eval(g, txt, k - 1, Resolve(g, p.x), Inner(p, bt), w).value;
  }

  /** EXPECT replaces the error by the named one, where the input is then. */
  lemma ExpectLaw(g: Grammar, txt: string, k: nat, x: Parser, m: string, bt: int, w: World) returns (i: Outcome)
    requires Eval(g, txt, k, Expect(x, m), bt, w).Some?
    ensures Gives(g, txt, x, bt, w, i)
    ensures var o := Eval(g, txt, k, Expect(x, m), bt, w).value;
      o.w == i.w && if i.r.Out? then o.r == i.r else IsNamed(o.r, i.w.cur.state, m)
  {
    i := Inside(g, txt, k, Expect(x, m), bt, w);
    hide Eval, Gives;
  }

  /** APPLY and APPLY_TO apply the function to an output and hand an error on. */
  lemma ApplyLaw(g: Grammar, txt: string, k: nat, x: Parser, f: Val -> Val, bt: int, w: World) returns (i: Outcome)
    requires Eval(g, txt, k, Apply(x, f), bt, w).Some?
    ensures Gives(g, txt, x, bt, w, i)
    ensures Eval(g, txt, k, Apply(x, f), bt, w).value == if i.r.Out? then i.(r := Out(f(i.r.v))) else i
  {
    i := Inside(g, txt, k, Apply(x, f), bt, w);
    hide Eval, Gives;
  }

  lemma ApplyToLaw(g: Grammar, txt: string, k: nat, x: Parser, f: (Val, Val) -> Val, d: Val, bt: int, w: World) returns (i: Outcome)
    requires Eval(g, txt, k, ApplyTo(x, f, d), bt, w).Some?
    ensures Gives(g, txt, x, bt, w, i)
    ensures Eval(g, txt, k, ApplyTo(x, f, d), bt, w).value == if i.r.Out? then i.(r := Out(f(i.r.v, d))) else i
  {
    i := Inside(g, txt, k, ApplyTo(x, f, d), bt, w);
    hide Eval, Gives;
  }

  /** PREDICT runs its parser with backtracking disabled once more. */
  lemma PredictLaw(g: Grammar, txt: string, k: nat, x: Parser, bt: int, w: World)
    requires Eval(g, txt, k, Predict(x), bt, w).Some?
    ensures Gives(g, txt, x, bt - 1, w, Eval(g, txt, k, Predict(x), bt, w).value)
  {
    var i := Inside(g, txt, k, Predict(x), bt, w);
    hide Eval, Gives;
  }

  /** NOT fails where its parser succeeds, giving back what was read and destroying the output; where that fails it succeeds. */
  lemma NotLaw(g: Grammar, txt: string, k: nat, x: Parser, dx: Dtor, v: Val, bt: int, w: World) returns (i: Outcome)
    requires Eval(g, txt, k, Not(x, dx, v), bt, w).Some?
    ensures Gives(g, txt, x, bt, w, i)
    ensures var o := Eval(g, txt, k, Not(x, dx, v), bt, w).value;
      if i.r.Out? then
        && IsNamed(o.r, o.w.cur.state, "opposite") && o.w.cur == (if bt >= 1 then w.cur else i.w.cur)
        && o.w.err == i.w.err && o.w.log == i.w.log + [Destroyed(dx, i.r.v)]
      else o.r == Out(v) && GivesUp(i.w, i.r.e, o.w)
  {
    i := Inside(g, txt, k, Not(x, dx, v), bt, w);
    hide Eval, Gives, ErrOr, Merges;
    if i.r.Out? {
      DestroySameOne(Rewound(bt, w, i.w), i.r.v, dx);
    } else {
      BlameGivesUp(i.w, i.r.e);
    }
  }

  /** MAYBE hands an output on, and gives up an error for its own value. */
  lemma MaybeLaw(g: Grammar, txt: string, k: nat, x: Parser, v: Val, bt: int, w: World) returns (i: Outcome)
    requires Eval(g, txt, k, Maybe(x, v), bt, w).Some?
    ensures Gives(g, txt, x, bt, w, i)
    ensures var o := Eval(g, txt, k, Maybe(x, v), bt, w).value;
      if i.r.Out? then o == i else o.r == Out(v) && GivesUp(i.w, i.r.e, o.w)
  {
    i := Inside(g, txt, k, Maybe(x, v), bt, w);
    hide Eval, Gives, ErrOr, Merges;
    if i.r.Er? { BlameGivesUp(i.w, i.r.e); }
  }

  // Repetitions

  /** x has succeeded |vs| times, one after the other: from each world to the next, with these outputs. */
  ghost predicate Chain(g: Grammar, txt: string, x: Parser, bt: int, vs: seq<Val>, ws: seq<World>) {
    |ws| == |vs| + 1 && forall i | 0 <= i < |vs| :: Gives(g, txt, x, bt, ws[i], Outcome(Out(vs[i]), ws[i + 1]))
  }

  lemma {:induction false} ManyChain(g: Grammar, txt: string, k: nat, x: Parser, bt: int, w: World, before: seq<Val>)
    returns (vs: seq<Val>, ws: seq<World>)
    requires EvalMany(g, txt, k, x, bt, w, before).Some?
    ensures var s := EvalMany(g, txt, k, x, bt, w, before).value;
      && s.vs == before + vs && Chain(g, txt, x, bt, vs, ws) && ws[0] == w
      && Gives(g, txt, x, bt, ws[|vs|], Outcome(Er(s.e), s.w))
    decreases k
  {
    hide Eval;
    var o := Eval(g, txt, k, Resolve(g, x), bt, w).value;
    if o.r.Er? {
      vs, ws := [], [w];
    } else {
      SomeBound(g, txt, k, Resolve(g, x), bt, w);
      var vs', ws' := ManyChain(g, txt, k - 1, x, bt, o.w, before + [o.r.v]);
      vs, ws := [o.r.v] + vs', [w] + ws';
      assert before + vs == (before + [o.r.v]) + vs';
      assert o == Outcome(Out(o.r.v), o.w);
      forall i | 0 <= i < |vs| ensures Gives(g, txt, x, bt, ws[i], Outcome(Out(vs[i]), ws[i + 1])) {
        if i > 0 { assert Gives(g, txt, x, bt, ws'[i - 1], Outcome(Out(vs'[i - 1]), ws'[i])); }
      }
    }
  }

  /** The list of what an error expects, as the errors of repetitions tell it. */
  function Listed(xs: seq<string>): string {
    if |xs| < 2 then Commas(xs) else Commas(xs[..|xs|-1]) + " or " + xs[|xs|-1]
  }

  lemma ListedIs(xs: seq<string>)
    ensures Joined(xs) == Listed(xs)
  {
    if |xs| > 1 { JoinedList(xs); }
  }

  /** e but for what it expects, which is one string. */
  ghost predicate IsListOf(r: Res, e: Err, prefix: string) {
    r.Er? && r.e.state == e.state && r.e.failure == e.failure && r.e.expected == [prefix + Listed(e.expected)]
  }

  /** The destructor calls since log are one for each output, the newest first. */
  ghost predicate DestroysAll(log: seq<Destroyed>, vs: seq<Val>, dxs: seq<Dtor>, log': seq<Destroyed>) {
    && |log'| == |log| + |vs| && log <= log' && |dxs| == |vs|
    && forall i | 0 <= i < |vs| :: log'[|log| + |vs| - 1 - i] == Destroyed(dxs[i], vs[i])
  }

  lemma {:induction false} DestroySameAll(w: World, vs: seq<Val>, dx: Dtor)
    ensures var w' := DestroySame(w, vs, dx); DestroysAll(w.log, vs, seq(|vs|, _ => dx), w'.log) && w'.cur == w.cur && w'.err == w.err
    decreases |vs|
  {
    if vs != [] {
      var n := |vs| - 1;
      var w1 := w.(log := w.log + [Destroyed(dx, vs[n])]);
      DestroySameAll(w1, vs[..n], dx);
      var log' := DestroySame(w, vs, dx).log;
      assert log'[|w.log|] == w1.log[|w.log|];
      assert w.log == w1.log[..|w.log|] == log'[..|w1.log|][..|w.log|] == log'[..|w.log|];
    }
  }

  lemma {:induction false} DestroyAll(w: World, vs: seq<Val>, dxs: seq<Dtor>)
    ensures var w' := Destroy(w, vs, dxs);
      DestroysAll(w.log, vs, seq(|vs|, i => if 0 <= i < |dxs| then dxs[i] else 0), w'.log) && w'.cur == w.cur && w'.err == w.err
    decreases |vs|
  {
    if vs != [] {
      var n := |vs| - 1;
      var w1 := w.(log := w.log + [Destroyed(DtorAt(dxs, n), vs[n])]);
      DestroyAll(w1, vs[..n], dxs);
      var log' := Destroy(w, vs, dxs).log;
      assert log'[|w.log|] == w1.log[|w.log|];
      assert w.log == w1.log[..|w.log|] == log'[..|w1.log|][..|w.log|] == log'[..|w.log|];
    }
  }

  lemma Repeated(g: Grammar, txt: string, k: nat, p: Parser, bt: int, w: World)
    returns (vs: seq<Val>, ws: seq<World>, e: Err, last: World)
    requires IsRepeat(p) && Eval(g, txt, k, p, bt, w).Some?
    ensures Chain(g, txt, p.x, bt, vs, ws) && ws[0] == w && Gives(g, txt, p.x, bt, ws[|vs|], Outcome(Er(e), last))
    ensures Eval(g, txt, k, p, bt, w).value == AfterRepeat(p, bt, w, Stop(vs, e, last))
  {
    hide Eval, EvalMany, AfterRepeat, Chain, Gives;
    RepeatEval(g, txt, k, p, bt, w);
    vs, ws := ManyChain(g, txt, k - 1, p.x, bt, w, []);
    var s := EvalMany(g, txt, k - 1, p.x, bt, w, []).value;
    assert [] + vs == vs;
    e, last := s.e, s.w;
    assert s == Stop(vs, e, last);
  }

  /** MANY runs its parser until it fails, folds the outputs in order and gives up the last error. */
  lemma ManyLaw(g: Grammar, txt: string, k: nat, x: Parser, f: Fold, bt: int, w: World)
    returns (vs: seq<Val>, ws: seq<World>, e: Err, last: World)
    requires Eval(g, txt, k, Many(x, f), bt, w).Some?
    ensures Chain(g, txt, x, bt, vs, ws) && ws[0] == w && Gives(g, txt, x, bt, ws[|vs|], Outcome(Er(e), last))
    ensures var o := Eval(g, txt, k, Many(x, f), bt, w).value; o.r == Out(f(vs)) && GivesUp(last, e, o.w)
  {
    vs, ws, e, last := Repeated(g, txt, k, Many(x, f), bt, w);
    hide Eval, Gives, Chain, ErrOr, Merges;
    BlameGivesUp(last, e);
  }

  /** MANY1 fails if there was no output, with the list of what was expected. */
  lemma Many1Law(g: Grammar, txt: string, k: nat, x: Parser, f: Fold, bt: int, w: World)
    returns (vs: seq<Val>, ws: seq<World>, e: Err, last: World)
    requires Eval(g, txt, k, Many1(x, f), bt, w).Some?
    ensures Chain(g, txt, x, bt, vs, ws) && ws[0] == w && Gives(g, txt, x, bt, ws[|vs|], Outcome(Er(e), last))
    ensures var o := Eval(g, txt, k, Many1(x, f), bt, w).value;
      if vs == [] then IsListOf(o.r, e, "one or more of ") && o.w == last else o.r == Out(f(vs)) && GivesUp(last, e, o.w)
  {
    vs, ws, e, last := Repeated(g, txt, k, Many1(x, f), bt, w);
    hide Eval, Gives, Chain, ErrOr, Merges, Joined, Listed;
    BlameGivesUp(last, e);
    ListedIs(e.expected);
  }

  /** The decimal digits of n, a minus sign in front if it is negative. */
  predicate IsDecimal(s: string, n: int) {
    && (n < 0 ==> |s| > 1 && s[0] == '-' && Number(s[1..]) == -n && s[1] != '0')
    && (n >= 0 ==> Number(s) == n && s != "" && (s[0] == '0' ==> n == 0) && forall c <- s :: '0' <= c <= '9')
  }

  lemma CountPrefix(e: Err, n: int) returns (number: string)
    ensures IsDecimal(number, n) && ErrCount(e, n) == ErrRepeat(e, number + " of ")
  {
    hide Decimal, Number;
    if n >= 0 {
      DecimalNumber(n);
      number := Decimal(n);
    } else {
      DecimalNumber(-n);
      number := "-" + Decimal(-n);
      assert number[1..] == Decimal(-n);
    }
  }

  /** COUNT runs its parser until it fails. With any other number of outputs it destroys them, gives back what was read and fails. */
  lemma CountLaw(g: Grammar, txt: string, k: nat, n: int, x: Parser, f: Fold, dx: Dtor, bt: int, w: World)
    returns (vs: seq<Val>, ws: seq<World>, e: Err, last: World, number: string)
    requires Eval(g, txt, k, Count(n, x, f, dx), bt, w).Some?
    ensures Chain(g, txt, x, bt, vs, ws) && ws[0] == w && Gives(g, txt, x, bt, ws[|vs|], Outcome(Er(e), last))
    ensures IsDecimal(number, n)
    ensures var o := Eval(g, txt, k, Count(n, x, f, dx), bt, w).value;
      if |vs| == n then o.r == Out(f(vs)) && GivesUp(last, e, o.w)
      else
        && IsListOf(o.r, e, number + " of ") && o.w.cur == (if bt >= 1 then w.cur else last.cur) && o.w.err == last.err
        && DestroysAll(last.log, vs, seq(|vs|, _ => dx), o.w.log)
  {
    vs, ws, e, last := Repeated(g, txt, k, Count(n, x, f, dx), bt, w);
    hide Eval, Gives, Chain, ErrOr, ErrCount, Merges, Joined, Listed, IsDecimal, DestroysAll, DestroySame;
    number := CountPrefix(e, n);
    BlameGivesUp(last, e);
    ListedIs(e.expected);
    DestroySameAll(last, vs, dx);
  }

  // Alternatives and sequences

  /** The first |es| parsers have failed, one after the other: from each world to the next, with these errors. */
  ghost predicate Fails(g: Grammar, txt: string, xs: seq<Parser>, bt: int, es: seq<Err>, ws: seq<World>) {
    |es| <= |xs| && |ws| == |es| + 1 && forall i | 0 <= i < |es| :: Gives(g, txt, xs[i], bt, ws[i], Outcome(Er(es[i]), ws[i + 1]))
  }

  /** The first |vs| parsers have succeeded. */
  ghost predicate Succeeds(g: Grammar, txt: string, xs: seq<Parser>, bt: int, vs: seq<Val>, ws: seq<World>) {
    |vs| <= |xs| && |ws| == |vs| + 1 && forall i | 0 <= i < |vs| :: Gives(g, txt, xs[i], bt, ws[i], Outcome(Out(vs[i]), ws[i + 1]))
  }

  function NewestFirst(es: seq<Err>): seq<Err> { seq(|es|, i requires 0 <= i < |es| => es[|es| - 1 - i]) }

  lemma NewestFirstSplit(w: World, es: seq<Err>)
    requires es != []
    ensures var n := |es| - 1; [w.err] + NewestFirst(es) == [w.err, es[n]] + NewestFirst(es[..n])
  {
    var n := |es| - 1;
    assert NewestFirst(es) == [es[n]] + NewestFirst(es[..n]);
  }

  lemma {:induction false} BlameAllMerges(w: World, es: seq<Err>)
    ensures var w' := BlameAll(w, es);
      w'.cur == w.cur && w'.log == w.log && (es != [] ==> Merges([w.err] + NewestFirst(es), w'.err))
    decreases |es|
  {
    if es != [] {
      var n := |es| - 1;
      var m := Blame(w, es[n]);
      BlameGivesUp(w, es[n]);
      BlameAllMerges(m, es[..n]);
      NewestFirstSplit(w, es);
      hide Merges, ErrOr, NewestFirst;
      if n > 0 {
        MergesFlatten([w.err, es[n]], m.err, NewestFirst(es[..n]), BlameAll(w, es).err);
      } else {
        NoneNewest();
        assert [w.err, es[n]] + [] == [w.err, es[n]];
      }
    }
  }

  lemma NoneNewest()
    ensures NewestFirst([]) == []
  {
  }

  lemma {:induction false} OrChain(g: Grammar, txt: string, k: nat, xs: seq<Parser>, bt: int, w: World, before: seq<Err>, ws: seq<World>)
    returns (es: seq<Err>, us: seq<World>, last: Outcome)
    requires |before| < |xs| && EvalOr(g, txt, k, xs, bt, w, before).Some?
    requires Fails(g, txt, xs, bt, before, ws) && ws[|before|] == w
    ensures Fails(g, txt, xs, bt, es, us) && us[0] == ws[0]
    ensures var o := EvalOr(g, txt, k, xs, bt, w, before).value;
      if |es| < |xs| then
        Gives(g, txt, xs[|es|], bt, us[|es|], last) && last.r.Out? && o == Outcome(last.r, BlameAll(last.w, es))
      else o == Outcome(Er(ErrOr(es)), us[|es|])
    decreases k
  {
    hide Eval, ErrOr, BlameAll;
    var n := |before|;
    var x := Resolve(g, xs[n]);
    var o := Eval(g, txt, k, x, bt, w).value;
    SomeBound(g, txt, k, x, bt, w);
    last := o;
    if o.r.Out? {
      es, us := before, ws;
    } else {
      var more, on := before + [o.r.e], ws + [o.w];
      assert o == Outcome(Er(o.r.e), o.w);
      assert Gives(g, txt, xs[n], bt, w, o);
      forall i | 0 <= i < |more| ensures Gives(g, txt, xs[i], bt, on[i], Outcome(Er(more[i]), on[i + 1])) {
        if i < n { assert Gives(g, txt, xs[i], bt, ws[i], Outcome(Er(before[i]), ws[i + 1])); }
      }
      if n + 1 == |xs| {
        es, us := more, on;
      } else {
        es, us, last := OrChain(g, txt, k - 1, xs, bt, o.w, more, on);
      }
    }
  }

  /** OR hands on the first output and gives up the errors before it, the newest first; if all fail, their errors merged are the error. */
  lemma OrLaw(g: Grammar, txt: string, k: nat, xs: seq<Parser>, bt: int, w: World) returns (es: seq<Err>, ws: seq<World>, last: Outcome)
    requires xs != [] && Eval(g, txt, k, Or(xs), bt, w).Some?
    ensures Fails(g, txt, xs, bt, es, ws) && ws[0] == w
    ensures var o := Eval(g, txt, k, Or(xs), bt, w).value;
      if |es| < |xs| then
        && Gives(g, txt, xs[|es|], bt, ws[|es|], last) && last.r.Out? && o.r == last.r && o.w.cur == last.w.cur && o.w.log == last.w.log
        && if es == [] then o.w.err == last.w.err else Merges([last.w.err] + NewestFirst(es), o.w.err)
      else o.r.Er? && Merges(es, o.r.e) && o.w == ws[|es|]
  {
    hide Eval, EvalOr, Gives, Merges, ErrOr, BlameAll, NewestFirst;
    ListEval(g, txt, k, Or(xs), bt, w);
    SomeBound(g, txt, k, Or(xs), bt, w);
    es, ws, last := OrChain(g, txt, k - 1, xs, bt, w, [], [w]);
    BlameAllMerges(last.w, es);
    MergedIsRight(es);
    if es == [] { NoBlame(last.w); }
  }

  lemma NoBlame(w: World)
    ensures BlameAll(w, []) == w
  {
  }

  lemma {:induction false} AndChain(g: Grammar, txt: string, k: nat, xs: seq<Parser>, bt: int, w: World, before: seq<Val>, ws: seq<World>)
    returns (vs: seq<Val>, us: seq<World>, last: Outcome)
    requires |before| < |xs| && EvalAnd(g, txt, k, xs, bt, w, before).Some?
    requires Succeeds(g, txt, xs, bt, before, ws) && ws[|before|] == w
    ensures Succeeds(g, txt, xs, bt, vs, us) && us[0] == ws[0]
    ensures var s := EvalAnd(g, txt, k, xs, bt, w, before).value;
      if |vs| < |xs| then Gives(g, txt, xs[|vs|], bt, us[|vs|], last) && last.r.Er? && s == Broken(vs, last.r.e, last.w)
      else s == Done(vs, us[|vs|])
    decreases k
  {
    hide Eval;
    var n := |before|;
    var x := Resolve(g, xs[n]);
    var o := Eval(g, txt, k, x, bt, w).value;
    SomeBound(g, txt, k, x, bt, w);
    last := o;
    if o.r.Er? {
      vs, us := before, ws;
    } else {
      var more, on := before + [o.r.v], ws + [o.w];
      assert o == Outcome(Out(o.r.v), o.w);
      assert Gives(g, txt, xs[n], bt, w, o);
      forall i | 0 <= i < |more| ensures Gives(g, txt, xs[i], bt, on[i], Outcome(Out(more[i]), on[i + 1])) {
        if i < n { assert Gives(g, txt, xs[i], bt, ws[i], Outcome(Out(before[i]), ws[i + 1])); }
      }
      if n + 1 == |xs| {
        vs, us := more, on;
      } else {
        vs, us, last := AndChain(g, txt, k - 1, xs, bt, o.w, more, on);
      }
    }
  }

  /** AND folds the outputs of all its parsers; if one fails, what was read is given back, the outputs before it are destroyed, each by
      its own destructor, and its error is the error. */
  lemma AndLaw(g: Grammar, txt: string, k: nat, p: Parser, bt: int, w: World) returns (vs: seq<Val>, ws: seq<World>, last: Outcome)
    requires p.And? && p.xs != [] && Eval(g, txt, k, p, bt, w).Some?
    ensures Succeeds(g, txt, p.xs, bt, vs, ws) && ws[0] == w
    ensures var o := Eval(g, txt, k, p, bt, w).value;
      if |vs| == |p.xs| then o.r == Out(p.fold(vs)) && o.w == ws[|vs|]
      else
        && Gives(g, txt, p.xs[|vs|], bt, ws[|vs|], last) && last.r.Er? && o.r == last.r
        && o.w.cur == (if bt >= 1 then w.cur else last.w.cur) && o.w.err == last.w.err
        && DestroysAll(last.w.log, vs, seq(|vs|, i => if 0 <= i < |p.dxs| then p.dxs[i] else 0), o.w.log)
  {
    hide Eval, EvalAnd, Gives, Destroy, DestroysAll;
    AndIs(g, txt, k, p, bt, w);
    SomeBound(g, txt, k, p, bt, w);
    vs, ws, last := AndChain(g, txt, k - 1, p.xs, bt, w, [], [w]);
    DestroyAll(Rewound(bt, w, last.w), vs, p.dxs);
  }

  lemma AndIs(g: Grammar, txt: string, k: nat, p: Parser, bt: int, w: World)
    requires p.And? && p.xs != [] && Eval(g, txt, k, p, bt, w).Some?
    ensures k > 0 && EvalAnd(g, txt, k - 1, p.xs, bt, w, []).Some?
    ensures Eval(g, txt, k, p, bt, w).value == AfterAnd(p, bt, w, EvalAnd(g, txt, k - 1, p.xs, bt, w, []).value)
  {
    hide LeafOutcome, AfterUnary, AfterRepeat, AfterAnd, EvalAnd;
  }

  /** No alternatives yield NULL, no parts the fold of nothing. */
  lemma EmptyLaw(g: Grammar, txt: string, k: nat, p: Parser, bt: int, w: World)
    requires (p.Or? || p.And?) && p.xs == [] && Eval(g, txt, k, p, bt, w).Some?
    ensures Eval(g, txt, k, p, bt, w).value == Outcome(Out(if p.Or? then Null else p.fold([])), w)
  {
    hide LeafOutcome, AfterUnary, AfterRepeat, AfterAnd, EvalAnd;
  }

  // Parsers that run no other parser

  lemma LeafIs(g: Grammar, txt: string, k: nat, p: Parser, bt: int, w: World)
    requires IsLeaf(p) && Eval(g, txt, k, p, bt, w).Some?
    ensures Eval(g, txt, k, p, bt, w).value == LeafOutcome(txt, p, bt, w)
  {
    hide LeafOutcome;
  }

  /** The parsers that do not look at the input. */
  lemma BlindLaw(g: Grammar, txt: string, k: nat, p: Parser, bt: int, w: World)
    requires (p.Undefined? || p.Pass? || p.Fail? || p.Lift? || p.StateOf?) && Eval(g, txt, k, p, bt, w).Some?
    ensures var o := Eval(g, txt, k, p, bt, w).value;
      && o.w == w
      && (p.Undefined? ==> IsFailure(o.r, w.cur.state, "Parser Undefined!"))
      && (p.Fail? ==> IsFailure(o.r, w.cur.state, p.m))
      && (p.Pass? ==> o.r == Out(Null)) && (p.Lift? ==> o.r == Out(p.lv)) && (p.StateOf? ==> o.r == Out(Position(w.cur.state)))
  {
    LeafIs(g, txt, k, p, bt, w);
    hide Eval;
  }

  /** The character at the position, NUL behind the text. */
  function Ahead(txt: string, pos: int): char
    requires 0 <= pos
  {
    if pos < |txt| then txt[pos] else '\0'
  }

  /** An anchor looks at the characters around the position. */
  lemma AnchorLaw(g: Grammar, txt: string, k: nat, f: (char, char) -> bool, bt: int, w: World)
    requires AtText(txt, w.cur) && Eval(g, txt, k, Anchor(f), bt, w).Some?
    ensures 0 <= w.cur.state.pos <= |txt|
    ensures var o, pos := Eval(g, txt, k, Anchor(f), bt, w).value, w.cur.state.pos;
      && o.w == w
      && if f(if pos == 0 then '\0' else txt[pos - 1], Ahead(txt, pos)) then o.r == Out(Null) else IsNamed(o.r, w.cur.state, "anchor")
  {
    LeafIs(g, txt, k, Anchor(f), bt, w);
    hide Eval;
  }

  /** What the one-character parsers accept; a range includes both its ends. */
  predicate Takes(p: Parser, c: char) {
    || p.Any?
    || (p.Single? && c == p.c)
    || (p.Range? && (c == p.lo == p.hi || (p.lo < p.hi && (c == p.lo || c == p.hi || p.lo < c < p.hi))))
    || (p.OneOf? && exists i | 0 <= i < |p.cs| :: p.cs[i] == c)
    || (p.NoneOf? && forall i | 0 <= i < |p.cs| :: p.cs[i] != c)
    || (p.Satisfy? && p.cond(c))
  }

  /** A one-character parser reads exactly one character, if there is one that it accepts. */
  lemma CharacterLaw(g: Grammar, txt: string, k: nat, p: Parser, bt: int, w: World)
    requires IsCharParser(p) && AtText(txt, w.cur) && Eval(g, txt, k, p, bt, w).Some?
    ensures 0 <= w.cur.state.pos <= |txt|
    ensures var o, pos := Eval(g, txt, k, p, bt, w).value, w.cur.state.pos;
      && o.w.err == w.err && o.w.log == w.log
      && if pos < |txt| && Takes(p, txt[pos]) then o.r == Out(Str([txt[pos]])) && AtText(txt, o.w.cur) && o.w.cur.state.pos == pos + 1
         else IsFailure(o.r, w.cur.state, "Incorrect Input") && o.w.cur == w.cur
  {
    LeafIs(g, txt, k, p, bt, w);
    InText(txt, w.cur);
    var pos := w.cur.state.pos;
    if pos < |txt| {
      TakesIsAccepts(p, txt[pos]);
      AdvanceAtText(txt, w.cur);
    }
    hide Eval, AtText, Takes, Accepts;
  }

  lemma TakesIsAccepts(p: Parser, c: char)
    requires IsCharParser(p)
    ensures Takes(p, c) <==> Accepts(p, c)
  {
  }

  /** A literal is read if it stands there; otherwise, without backtracking, as far as it does. */
  lemma LiteralLaw(g: Grammar, txt: string, k: nat, str: string, bt: int, w: World) returns (n: nat)
    requires AtText(txt, w.cur) && Eval(g, txt, k, String(str), bt, w).Some?
    ensures var pos := w.cur.state.pos;
      && 0 <= pos <= pos + n <= |txt| && n <= |str| && txt[pos..pos + n] == str[..n] && (n < |str| && pos + n < |txt| ==> txt[pos + n] != str[n])
    ensures var o, pos := Eval(g, txt, k, String(str), bt, w).value, w.cur.state.pos;
      && o.w.err == w.err && o.w.log == w.log && AtText(txt, o.w.cur)
      && o.w.cur.state.pos == (if n < |str| && bt >= 1 then pos else pos + n)
      && if n == |str| then o.r == Out(Str(str)) else IsFailure(o.r, o.w.cur.state, "Incorrect Input")
  {
    LeafIs(g, txt, k, String(str), bt, w);
    LiteralAtText(txt, str, w.cur);
    n := Matched(txt, str, w.cur.state.pos);
    InText(txt, w.cur);
    MatchedStops(txt, str, w.cur.state.pos);
    hide Eval, AtText, Matched, AdvanceBy;
  }

  lemma {:induction false} MatchedStops(txt: string, str: string, pos: nat)
    requires pos <= |txt|
    ensures var n := Matched(txt, str, pos); n < |str| && pos + n < |txt| ==> txt[pos + n] != str[n]
    decreases |str|
  {
    if str != [] && pos < |txt| && txt[pos] == str[0] { MatchedStops(txt, str[1..], pos + 1); }
  }

  // Errors are never forgotten

  lemma AccountsThrough(a: Err, b: Err, c: Err)
    requires Accounts(b, a) && Accounts(c, b)
    ensures Accounts(c, a)
  {
  }

  lemma AccountsItself(e: Err)
    ensures Accounts(e, e)
  {
  }

  lemma BlameAccounts(w: World, e: Err)
    ensures Accounts(Blame(w, e).err, w.err) && Accounts(Blame(w, e).err, e)
  {
    BlameGivesUp(w, e);
    MergesAccounts([w.err, e], Blame(w, e).err, w.err);
    MergesAccounts([w.err, e], Blame(w, e).err, e);
    hide ErrOr, Merges, Accounts;
  }

  lemma {:induction false} BlameAllAccounts(w: World, es: seq<Err>)
    ensures Accounts(BlameAll(w, es).err, w.err)
    decreases |es|
  {
    hide ErrOr, Accounts, Merges;
    AccountsItself(w.err);
    if es != [] {
      var n := |es| - 1;
      BlameAccounts(w, es[n]);
      BlameAllAccounts(Blame(w, es[n]), es[..n]);
      AccountsThrough(w.err, Blame(w, es[n]).err, BlameAll(w, es).err);
    }
  }

  /** Whatever a parser does, the merged error still accounts for what it accounted for before. */
  lemma {:induction false} ErrorsKept(g: Grammar, txt: string, k: nat, p: Parser, bt: int, w: World)
    requires !p.Ref? && Eval(g, txt, k, p, bt, w).Some?
    ensures Accounts(Eval(g, txt, k, p, bt, w).value.w.err, w.err)
    decreases k, 0
  {
    hide Accounts, ErrOr, Merges, Destroy, DestroySame, Eval;
    AccountsItself(w.err);
    SomeBound(g, txt, k, p, bt, w);
    var o := Eval(g, txt, k, p, bt, w).value;
    if IsLeaf(p) {
      LeafIs(g, txt, k, p, bt, w);
    } else if IsUnary(p) {
      UnaryEval(g, txt, k, p, bt, w);
      var i := Eval(g, txt, k - 1, Resolve(g, p.x), Inner(p, bt), w).value;
      ErrorsKept(g, txt, k - 1, Resolve(g, p.x), Inner(p, bt), w);
      UnaryKeeps(p, bt, w, i);
      AccountsThrough(w.err, i.w.err, o.w.err);
    } else if IsRepeat(p) {
      RepeatEval(g, txt, k, p, bt, w);
      var s := EvalMany(g, txt, k - 1, p.x, bt, w, []).value;
      ManyKept(g, txt, k - 1, p.x, bt, w, []);
      RepeatKeeps(p, bt, w, s);
      AccountsThrough(w.err, s.w.err, o.w.err);
    } else if p.xs == [] {
      EmptyLaw(g, txt, k, p, bt, w);
    } else if p.Or? {
      ListEval(g, txt, k, p, bt, w);
      OrKept(g, txt, k - 1, p.xs, bt, w, []);
    } else {
      AndIs(g, txt, k, p, bt, w);
      AndKept(g, txt, k - 1, p.xs, bt, w, []);
      var s := EvalAnd(g, txt, k - 1, p.xs, bt, w, []).value;
      if s.Broken? { DestroyKeeps(Rewound(bt, w, s.w), s.vs, p.dxs); }
    }
  }

  lemma UnaryKeeps(p: Parser, bt: int, w: World, i: Outcome)
    requires IsUnary(p)
    ensures Accounts(AfterUnary(p, bt, w, i).w.err, i.w.err)
  {
    hide Accounts, ErrOr, Merges, DestroySame;
    AccountsItself(i.w.err);
    if i.r.Er? { BlameAccounts(i.w, i.r.e); }
    if p.Not? && i.r.Out? { DestroySameKeeps(Rewound(bt, w, i.w), [i.r.v], p.dx); }
  }

  lemma RepeatKeeps(p: Parser, bt: int, w: World, s: Stop)
    requires IsRepeat(p)
    ensures Accounts(AfterRepeat(p, bt, w, s).w.err, s.w.err)
  {
    hide Accounts, ErrOr, Merges, DestroySame, ErrMany1, ErrCount;
    AccountsItself(s.w.err);
    BlameAccounts(s.w, s.e);
    if p.Count? { DestroySameKeeps(s.w, s.vs, p.dx); }
  }

  lemma {:induction false} ManyKept(g: Grammar, txt: string, k: nat, x: Parser, bt: int, w: World, vs: seq<Val>)
    requires EvalMany(g, txt, k, x, bt, w, vs).Some?
    ensures Accounts(EvalMany(g, txt, k, x, bt, w, vs).value.w.err, w.err)
    decreases k, 1
  {
    hide Accounts, Eval;
    var y := Resolve(g, x);
    ErrorsKept(g, txt, k, y, bt, w);
    SomeBound(g, txt, k, y, bt, w);
    var o := Eval(g, txt, k, y, bt, w).value;
    if o.r.Out? {
      ManyKept(g, txt, k - 1, x, bt, o.w, vs + [o.r.v]);
      AccountsThrough(w.err, o.w.err, EvalMany(g, txt, k, x, bt, w, vs).value.w.err);
    }
  }

  lemma {:induction false} OrKept(g: Grammar, txt: string, k: nat, xs: seq<Parser>, bt: int, w: World, es: seq<Err>)
    requires |es| < |xs| && EvalOr(g, txt, k, xs, bt, w, es).Some?
    ensures Accounts(EvalOr(g, txt, k, xs, bt, w, es).value.w.err, w.err)
    decreases k, 1
  {
    hide Accounts, Eval, BlameAll, ErrOr;
    var y := Resolve(g, xs[|es|]);
    ErrorsKept(g, txt, k, y, bt, w);
    SomeBound(g, txt, k, y, bt, w);
    var o, end := Eval(g, txt, k, y, bt, w).value, EvalOr(g, txt, k, xs, bt, w, es).value;
    if o.r.Out? {
      BlameAllAccounts(o.w, es);
    } else if |es| + 1 < |xs| {
      OrKept(g, txt, k - 1, xs, bt, o.w, es + [o.r.e]);
    } else {
      AccountsItself(o.w.err);
    }
    AccountsThrough(w.err, o.w.err, end.w.err);
  }

  lemma {:induction false} AndKept(g: Grammar, txt: string, k: nat, xs: seq<Parser>, bt: int, w: World, vs: seq<Val>)
    requires |vs| < |xs| && EvalAnd(g, txt, k, xs, bt, w, vs).Some?
    ensures Accounts(EvalAnd(g, txt, k, xs, bt, w, vs).value.w.err, w.err)
    decreases k, 1
  {
    hide Accounts, Eval;
    var y := Resolve(g, xs[|vs|]);
    ErrorsKept(g, txt, k, y, bt, w);
    SomeBound(g, txt, k, y, bt, w);
    var o := Eval(g, txt, k, y, bt, w).value;
    if o.r.Out? && |vs| + 1 < |xs| {
      AndKept(g, txt, k - 1, xs, bt, o.w, vs + [o.r.v]);
      AccountsThrough(w.err, o.w.err, EvalAnd(g, txt, k, xs, bt, w, vs).value.w.err);
    }
  }
}

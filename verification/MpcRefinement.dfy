// The machine refines the recursive meaning: a parser on top of the stack is finished with an
// outcome, everything below it unchanged, exactly when the recursive meaning yields that outcome.
module MpcRefinement {
  import opened MpcTypes
  import opened Options
  import opened MpcErrors
  import opened MpcInput
  import opened MpcBigStep
  import opened MpcMachine
  import opened MpcRuns

  /** What the machine does about parser p, started on top of m: it reaches the outcome o with m
      otherwise unchanged, or (without outcome) it stays above m for k turns. */
  ghost predicate Follows(step: Stepper, k: nat, n: nat, top: Machine, m: Machine, o: Option<Outcome>)
    requires m.Machine?
  {
    match o
    case Some(o) => Reaches(step, |m.frames|, n, top, Finish(m.(w := o.w), o.r))
    case None => Stays(step, |m.frames|, k, top)
  }

  function Push(m: Machine, p: Parser, st: nat): Machine
    requires m.Machine?
  {
    m.(frames := m.frames + [Frame(p, st)])
  }

  lemma StepPush(g: Grammar, txt: string, m: Machine, p: Parser, st: nat)
    requires m.Machine?
    ensures Push(m, p, st).frames[..|m.frames|] == m.frames
    ensures Step(g, txt, Push(m, p, st)) == StepTop(g, txt, m, p, st)
  {
    assert Push(m, p, st).frames[..|m.frames|] == m.frames;
    assert Push(m, p, st).(frames := m.frames) == m;
  }

  lemma StepPushUnary(g: Grammar, txt: string, step: Stepper, m: Machine, p: Parser, st: nat)
    requires Steps(g, txt, step) && m.Machine? && IsUnary(p)
    ensures step(Push(m, p, st)) == StepUnary(g, m, p, st)
  {
    StepPush(g, txt, m, p, st);
  }

  lemma StepPushRepeat(g: Grammar, txt: string, step: Stepper, m: Machine, p: Parser, st: nat)
    requires Steps(g, txt, step) && m.Machine? && IsRepeat(p)
    ensures step(Push(m, p, st)) == StepRepeat(g, m, p, st)
  {
    StepPush(g, txt, m, p, st);
  }

  lemma StepPushOr(g: Grammar, txt: string, step: Stepper, m: Machine, p: Parser, st: nat)
    requires Steps(g, txt, step) && m.Machine? && p.Or?
    ensures step(Push(m, p, st)) == StepOr(g, m, p, st)
  {
    StepPush(g, txt, m, p, st);
  }

  lemma StepPushAnd(g: Grammar, txt: string, step: Stepper, m: Machine, p: Parser, st: nat)
    requires Steps(g, txt, step) && m.Machine? && p.And?
    ensures step(Push(m, p, st)) == StepAnd(g, m, p, st)
  {
    StepPush(g, txt, m, p, st);
  }

  lemma ContinuePush(g: Grammar, m: Machine, p: Parser, st: nat, x: Parser)
    requires m.Machine?
    ensures Continue(g, m, p, st, x) == Push(Push(m, p, st), Resolve(g, x), 0)
  {
    assert m.frames + [Frame(p, st), Frame(Resolve(g, x), 0)] == m.frames + [Frame(p, st)] + [Frame(Resolve(g, x), 0)];
  }

  function Outs(vs: seq<Val>): (rs: seq<Res>)
    ensures |rs| == |vs|
  {
    seq(|vs|, i requires 0 <= i < |vs| => Out(vs[i]))
  }

  function Ers(es: seq<Err>): (rs: seq<Res>)
    ensures |rs| == |es|
  {
    seq(|es|, i requires 0 <= i < |es| => Er(es[i]))
  }

  lemma {:induction false} OutputsOfOuts(vs: seq<Val>)
    ensures Outputs(Outs(vs)) == Some(vs)
  {
    if vs != [] {
      var i := |vs| - 1;
      assert Outs(vs)[..i] == Outs(vs[..i]);
      OutputsOfOuts(vs[..i]);
      assert vs[..i] + [vs[i]] == vs;
    }
  }

  lemma {:induction false} ErrorsOfErs(es: seq<Err>)
    ensures Errors(Ers(es)) == Some(es)
  {
    if es != [] {
      var i := |es| - 1;
      assert Ers(es)[..i] == Ers(es[..i]);
      ErrorsOfErs(es[..i]);
      assert es[..i] + [es[i]] == es;
    }
  }

  lemma TopOutputsOf(rs: seq<Res>, vs: seq<Val>)
    ensures TopOutputs(rs + Outs(vs), |vs|) == Some(vs)
    ensures (rs + Outs(vs))[..|rs + Outs(vs)| - |vs|] == rs
  {
    OutputsOfOuts(vs);
    assert (rs + Outs(vs))[|rs + Outs(vs)| - |vs|..] == Outs(vs);
  }

  lemma TopErrorsOf(rs: seq<Res>, es: seq<Err>)
    ensures TopErrors(rs + Ers(es), |es|) == Some(es)
    ensures (rs + Ers(es))[..|rs + Ers(es)| - |es|] == rs
  {
    ErrorsOfErs(es);
    assert (rs + Ers(es))[|rs + Ers(es)| - |es|..] == Ers(es);
  }

  /** A repetition p with outputs vs whose body is about to run again. */
  function BodyAgain(g: Grammar, p: Parser, m: Machine, vs: seq<Val>): Machine
    requires m.Machine? && IsRepeat(p)
  {
    Push(Push(m.(results := m.results + Outs(vs)), p, |vs| + 1), Resolve(g, p.x), 0)
  }

  /** A repetition p whose body has just failed. */
  function BodyFailed(p: Parser, m: Machine, s: Stop): Machine
    requires m.Machine? && IsRepeat(p)
  {
    Push(m.(results := m.results + Outs(s.vs) + [Er(s.e)], w := s.w), p, |s.vs| + 1)
  }

  /** The machine under the first parser that p runs. */
  function Entered(m: Machine, p: Parser): (m': Machine)
    requires m.Machine?
    ensures m'.Machine? && m'.frames == m.frames && m'.results == m.results && m'.w == m.w && m'.bt == Inner(p, m.bt)
  {
    if p.Predict? then m.(bt := m.bt - 1)
    else if p.Not? || p.Count? || p.And? then Mark(m)
    else m
  }

  function With(m: Machine, rs: seq<Res>, w: World): Machine
    requires m.Machine?
  {
    m.(results := rs, w := w)
  }

  function Deliver(m: Machine, o: Outcome): Machine
    requires m.Machine?
  {
    m.(results := m.results + [o.r], w := o.w)
  }

  lemma UnaryStarts(g: Grammar, txt: string, step: Stepper, p: Parser, m: Machine)
    requires Steps(g, txt, step) && m.Machine? && IsUnary(p)
    ensures step(Push(m, p, 0)) == Push(Push(Entered(m, p), p, 1), Resolve(g, p.x), 0)
  {
    StepPushUnary(g, txt, step, m, p, 0);
    ContinuePush(g, Entered(m, p), p, 1, p.x);
  }

  lemma ListStarts(g: Grammar, txt: string, step: Stepper, p: Parser, m: Machine)
    requires Steps(g, txt, step) && m.Machine? && (p.Or? || p.And?) && p.xs != []
    ensures step(Push(m, p, 0)) == Push(Push(Entered(m, p), p, 1), Resolve(g, p.xs[0]), 0)
  {
    if p.Or? { StepPushOr(g, txt, step, m, p, 0); } else { StepPushAnd(g, txt, step, m, p, 0); }
    ContinuePush(g, Entered(m, p), p, 1, p.xs[0]);
  }

  lemma EmptyStarts(g: Grammar, txt: string, step: Stepper, p: Parser, m: Machine)
    requires Steps(g, txt, step) && m.Machine? && (p.Or? || p.And?) && p.xs == []
    ensures step(Push(m, p, 0)) == Finish(m, Out(if p.Or? then Null else p.fold([])))
  {
    if p.Or? { StepPushOr(g, txt, step, m, p, 0); } else { StepPushAnd(g, txt, step, m, p, 0); }
  }

  lemma RepeatStarts(g: Grammar, txt: string, step: Stepper, p: Parser, m: Machine)
    requires Steps(g, txt, step) && m.Machine? && IsRepeat(p)
    ensures step(Push(m, p, 0)) == BodyAgain(g, p, Entered(m, p), [])
  {
    StepPushRepeat(g, txt, step, m, p, 0);
    ContinuePush(g, Entered(m, p), p, 1, p.x);
    assert m.results + Outs([]) == m.results;
  }

  lemma UnmarkMark(m: Machine, rs: seq<Res>, w: World)
    requires m.Machine?
    ensures Mark(m).Machine?
    ensures var m' := Mark(m).(results := rs, w := w);
            && Unmark(m') == m.(results := rs, w := w)
            && Rewind(m') == m.(results := rs, w := w.(cur := Back(m.bt, m.w.cur, w.cur)))
  {
    if m.bt >= 1 { assert (m.marks + [m.w.cur])[..|m.marks|] == m.marks; }
  }

  lemma UnaryResumes(g: Grammar, txt: string, step: Stepper, p: Parser, m: Machine, o: Outcome)
    requires Steps(g, txt, step) && m.Machine? && IsUnary(p)
    ensures var o' := AfterUnary(p, m.bt, m.w, o);
            step(Push(Deliver(Entered(m, p), o), p, 1)) == Finish(m.(w := o'.w), o'.r)
  {
    hide ErrOr, DestroySame;
    var m1 := Deliver(Entered(m, p), o);
    StepPushUnary(g, txt, step, m1, p, 1);
    assert m1.results[..|m1.results|-1] == m.results;
    if p.Not? {
      UnmarkMark(m, m.results, if o.r.Er? then Blame(o.w, o.r.e) else o.w);
    }
  }

  /** One turn down, a run above, one turn up. */
  lemma DownUp(step: Stepper, h: nat, n: nat, top: Machine, x: Machine, y: Machine, z: Machine)
    requires Above(h, top) && step(top) == x && Reaches(step, h + 1, n, x, y)
    requires Above(h, y) && step(y) == z
    ensures Reaches(step, h, n + 2, top, z)
  {
    ReachesLower(step, h + 1, h, n, x, y);
    assert Reaches(step, h, 1, y, z);
    ReachesThen(step, h, n, 1, x, y, z);
  }

  lemma BodyResumes(g: Grammar, txt: string, step: Stepper, p: Parser, m: Machine, vs: seq<Val>, o: Outcome)
    requires Steps(g, txt, step) && m.Machine? && IsRepeat(p)
    ensures var y := Push(Deliver(m.(results := m.results + Outs(vs)), o), p, |vs| + 1);
            if o.r.Out? then step(y) == BodyAgain(g, p, m.(w := o.w), vs + [o.r.v])
            else y == BodyFailed(p, m, Stop(vs, o.r.e, o.w))
  {
    hide DestroySame, Blame, ErrCount, ErrMany1, TopOutputs;
    var m1 := Deliver(m.(results := m.results + Outs(vs)), o);
    StepPushRepeat(g, txt, step, m1, p, |vs| + 1);
    if o.r.Out? {
      assert m.results + Outs(vs) + [o.r] == m.results + Outs(vs + [o.r.v]);
      ContinuePush(g, m1, p, |vs| + 2, p.x);
    }
  }

  /** Repetitions: the body is about to run again. */
  lemma {:induction false} SimMany(g: Grammar, txt: string, step: Stepper, k: nat, p: Parser, m: Machine, vs: seq<Val>)
    returns (n: nat)
    requires Steps(g, txt, step) && m.Machine? && IsRepeat(p)
    ensures match EvalMany(g, txt, k, p.x, m.bt, m.w, vs)
            case None => Stays(step, |m.frames|, k, BodyAgain(g, p, m, vs))
            case Some(s) => Reaches(step, |m.frames|, n, BodyAgain(g, p, m, vs), BodyFailed(p, m, s))
    decreases k, 2
  {
    var h, top, under := |m.frames|, BodyAgain(g, p, m, vs), m.(results := m.results + Outs(vs));
    n := Sim(g, txt, step, k, Resolve(g, p.x), Push(under, p, |vs| + 1));
    match Eval(g, txt, k, Resolve(g, p.x), m.bt, m.w) {
      case None => StaysLess(step, h + 1, h, k, k, top);
      case Some(o) =>
        var y := Push(Deliver(under, o), p, |vs| + 1);
        BodyResumes(g, txt, step, p, m, vs, o);
        ReachesLower(step, h + 1, h, n, top, y);
        if o.r.Out? {
          var m' := m.(w := o.w);
          var n' := SimMany(g, txt, step, k - 1, p, m', vs + [o.r.v]);
          match EvalMany(g, txt, k - 1, p.x, m.bt, o.w, vs + [o.r.v]) {
            case None =>
              assert Stays(step, h, k, y);
              StaysAfter(step, h, n, k, top, y);
              StaysLess(step, h, h, n + k, k, top);
            case Some(s) =>
              assert Reaches(step, h, n' + 1, y, BodyFailed(p, m, s));
              ReachesThen(step, h, n, n' + 1, top, y, BodyFailed(p, m, s));
              n := n + n' + 1;
          }
        }
    }
  }

  /** The main simulation: p, started on top of m, is followed to the outcome its meaning gives. */
  lemma {:induction false} Sim(g: Grammar, txt: string, step: Stepper, k: nat, p: Parser, m: Machine) returns (n: nat)
    requires Steps(g, txt, step) && m.Machine? && !p.Ref?
    ensures Follows(step, k, n, Push(m, p, 0), m, Eval(g, txt, k, p, m.bt, m.w))
    decreases k, 1
  {
    n := 0;
    if k > 0 {
      if IsLeaf(p) || ((p.Or? || p.And?) && p.xs == []) {
        StepPush(g, txt, m, p, 0);
        n := 1;
      } else if IsUnary(p) {
        n := SimUnary(g, txt, step, k, p, m);
      } else if IsRepeat(p) {
        n := SimRepeat(g, txt, step, k, p, m);
      } else if p.Or? {
        n := SimOr(g, txt, step, k, p, m);
      } else {
        n := SimAnd(g, txt, step, k, p, m);
      }
    }
  }

  lemma {:induction false} SimUnary(g: Grammar, txt: string, step: Stepper, k: nat, p: Parser,
          m: Machine) returns (n: nat)
    requires Steps(g, txt, step) && m.Machine? && IsUnary(p) && k > 0
    ensures Follows(step, k, n, Push(m, p, 0), m, Eval(g, txt, k, p, m.bt, m.w))
    decreases k, 0
  {
    hide Eval, AfterUnary, LeafOutcome;
    var top, h := Push(m, p, 0), |m.frames|;
    var m1 := Entered(m, p);
    UnaryEval(g, txt, k, p, m.bt, m.w);
    UnaryStarts(g, txt, step, p, m);
    n := Sim(g, txt, step, k - 1, Resolve(g, p.x), Push(m1, p, 1));
    match Eval(g, txt, k - 1, Resolve(g, p.x), m1.bt, m.w) {
      case None =>
        StaysLess(step, h + 1, h, k - 1, k - 1, step(top));
      case Some(o) =>
        UnaryResumes(g, txt, step, p, m, o);
        var y := Push(Deliver(m1, o), p, 1);
        DownUp(step, h, n, top, step(top), y, step(y));
        n := n + 2;
    }
  }

  lemma RepeatResumes(g: Grammar, txt: string, step: Stepper, p: Parser, m: Machine, s: Stop)
    requires Steps(g, txt, step) && m.Machine? && IsRepeat(p)
    ensures var o := AfterRepeat(p, m.bt, m.w, s);
            step(BodyFailed(p, Entered(m, p), s)) == Finish(m.(w := o.w), o.r)
  {
    var rs := m.results + Outs(s.vs);
    var m1 := With(Entered(m, p), rs + [Er(s.e)], s.w);
    StepPushRepeat(g, txt, step, m1, p, |s.vs| + 1);
    assert m1.results[..|m1.results|-1] == rs;
    TopOutputsOf(m.results, s.vs);
    if p.Count? {
      if |s.vs| != p.n { UnmarkMark(m, m.results, DestroySame(s.w, s.vs, p.dx)); }
      else { UnmarkMark(m, rs, Blame(s.w, s.e)); }
    }
  }

  lemma {:induction false} SimRepeat(g: Grammar, txt: string, step: Stepper, k: nat, p: Parser,
          m: Machine) returns (n: nat)
    requires Steps(g, txt, step) && m.Machine? && IsRepeat(p) && k > 0
    ensures Follows(step, k, n, Push(m, p, 0), m, Eval(g, txt, k, p, m.bt, m.w))
    decreases k, 0
  {
    var top, h, m1 := Push(m, p, 0), |m.frames|, Entered(m, p);
    RepeatStarts(g, txt, step, p, m);
    assert step(top) == BodyAgain(g, p, m1, []);
    n := SimMany(g, txt, step, k - 1, p, m1, []);
    match EvalMany(g, txt, k - 1, p.x, m.bt, m.w, []) {
      case None =>
      case Some(s) =>
        RepeatResumes(g, txt, step, p, m, s);
        var y := BodyFailed(p, m1, s);
        assert Reaches(step, h, 1, y, step(y));
        ReachesThen(step, h, n, 1, step(top), y, step(y));
        n := n + 2;
    }
  }

  lemma {:induction false} SimOr(g: Grammar, txt: string, step: Stepper, k: nat, p: Parser, m: Machine) returns (n: nat)
    requires Steps(g, txt, step) && m.Machine? && p.Or? && p.xs != [] && k > 0
    ensures Follows(step, k, n, Push(m, p, 0), m, Eval(g, txt, k, p, m.bt, m.w))
    decreases k, 0
  {
    ListStarts(g, txt, step, p, m);
    assert m.results + Ers([]) == m.results;
    n := SimAlternatives(g, txt, step, k - 1, p, m, []);
    n := n + 1;
  }

  /** Alternatives: errors es are on the stack and the next alternative is about to run. */
  function NextAlternative(g: Grammar, p: Parser, m: Machine, es: seq<Err>): Machine
    requires m.Machine? && p.Or? && |es| < |p.xs|
  {
    Push(Push(m.(results := m.results + Ers(es)), p, |es| + 1), Resolve(g, p.xs[|es|]), 0)
  }

  lemma AlternativeSucceeds(g: Grammar, txt: string, step: Stepper, p: Parser, m: Machine, es: seq<Err>, o: Outcome)
    requires Steps(g, txt, step) && m.Machine? && p.Or? && |es| < |p.xs| && o.r.Out?
    ensures step(Push(Deliver(m.(results := m.results + Ers(es)), o), p, |es| + 1)) == Finish(m.(w := BlameAll(o.w, es)), o.r)
  {
    var m1 := Deliver(m.(results := m.results + Ers(es)), o);
    StepPushOr(g, txt, step, m1, p, |es| + 1);
    assert m1.results[..|m1.results|-1] == m.results + Ers(es);
    TopErrorsOf(m.results, es);
  }

  lemma AlternativeFails(g: Grammar, txt: string, step: Stepper, p: Parser, m: Machine, es: seq<Err>, o: Outcome)
    requires Steps(g, txt, step) && m.Machine? && p.Or? && |es| < |p.xs| && o.r.Er?
    ensures var y := Push(Deliver(m.(results := m.results + Ers(es)), o), p, |es| + 1);
            if |es| + 1 == |p.xs| then step(y) == Finish(m.(w := o.w), Er(ErrOr(es + [o.r.e])))
            else step(y) == NextAlternative(g, p, m.(w := o.w), es + [o.r.e])
  {
    var m1 := Deliver(m.(results := m.results + Ers(es)), o);
    StepPushOr(g, txt, step, m1, p, |es| + 1);
    assert m1.results == m.results + Ers(es + [o.r.e]);
    if |es| + 1 == |p.xs| { TopErrorsOf(m.results, es + [o.r.e]); }
    else { ContinuePush(g, m1, p, |es| + 2, p.xs[|es| + 1]); }
  }

  lemma {:induction false} SimAlternatives(g: Grammar, txt: string, step: Stepper, k: nat, p: Parser,
          m: Machine, es: seq<Err>)
    returns (n: nat)
    requires Steps(g, txt, step) && m.Machine? && p.Or? && |es| < |p.xs|
    ensures Follows(step, k, n, NextAlternative(g, p, m, es), m, EvalOr(g, txt, k, p.xs, m.bt, m.w, es))
    decreases k, 2
  {
    var h, top, under := |m.frames|, NextAlternative(g, p, m, es), m.(results := m.results + Ers(es));
    n := Sim(g, txt, step, k, Resolve(g, p.xs[|es|]), Push(under, p, |es| + 1));
    match Eval(g, txt, k, Resolve(g, p.xs[|es|]), m.bt, m.w) {
      case None => StaysLess(step, h + 1, h, k, k, top);
      case Some(o) =>
        var y := Push(Deliver(under, o), p, |es| + 1);
        if o.r.Out? { AlternativeSucceeds(g, txt, step, p, m, es, o); } else { AlternativeFails(g, txt, step, p, m, es, o); }
        ReachesLower(step, h + 1, h, n, top, y);
        if o.r.Out? || |es| + 1 == |p.xs| {
          assert Reaches(step, h, 1, y, step(y));
          ReachesThen(step, h, n, 1, top, y, step(y));
          n := n + 1;
        } else {
          var m', es' := m.(w := o.w), es + [o.r.e];
          var n' := SimAlternatives(g, txt, step, k - 1, p, m', es');
          match EvalOr(g, txt, k - 1, p.xs, m.bt, o.w, es') {
            case None =>
              assert Stays(step, h, k, y);
              StaysAfter(step, h, n, k, top, y);
              StaysLess(step, h, h, n + k, k, top);
            case Some(o') =>
              assert Reaches(step, h, n' + 1, y, Finish(m.(w := o'.w), o'.r));
              ReachesThen(step, h, n, n' + 1, top, y, Finish(m.(w := o'.w), o'.r));
              n := n + n' + 1;
          }
        }
    }
  }

  lemma {:induction false} SimAnd(g: Grammar, txt: string, step: Stepper, k: nat, p: Parser,
          m: Machine) returns (n: nat)
    requires Steps(g, txt, step) && m.Machine? && p.And? && p.xs != [] && k > 0
    ensures Follows(step, k, n, Push(m, p, 0), m, Eval(g, txt, k, p, m.bt, m.w))
    decreases k, 0
  {
    ListStarts(g, txt, step, p, m);
    assert m.results + Outs([]) == m.results;
    n := SimSequence(g, txt, step, k - 1, p, m, m.w, []);
    n := n + 1;
  }

  /** Sequences: the sequence was entered on top of m; vs are the outputs so far and the next
      parser is about to run at w. */
  function NextInSequence(g: Grammar, p: Parser, m: Machine, w: World, vs: seq<Val>): Machine
    requires m.Machine? && p.And? && |vs| < |p.xs|
  {
    Push(Push(With(Entered(m, p), m.results + Outs(vs), w), p, |vs| + 1), Resolve(g, p.xs[|vs|]), 0)
  }

  /** The frame of a sequence after the part that follows vs has given o. */
  function Resumed(p: Parser, m: Machine, w: World, vs: seq<Val>, o: Outcome): Machine
    requires m.Machine? && p.And?
  {
    Push(Deliver(With(Entered(m, p), m.results + Outs(vs), w), o), p, |vs| + 1)
  }

  lemma SequenceBreaks(g: Grammar, txt: string, step: Stepper, p: Parser, m: Machine, w: World, vs: seq<Val>,
          o: Outcome)
    requires Steps(g, txt, step) && m.Machine? && p.And? && |vs| < |p.xs| && o.r.Er?
    ensures var o' := AfterAnd(p, m.bt, m.w, Broken(vs, o.r.e, o.w)); step(Resumed(p, m, w, vs, o)) == Finish(m.(w := o'.w), o'.r)
  {
    hide Destroy, Blame, BlameAll;
    var m1 := Deliver(With(Entered(m, p), m.results + Outs(vs), w), o);
    StepPushAnd(g, txt, step, m1, p, |vs| + 1);
    assert m1.results[..|m1.results|-1] == m.results + Outs(vs);
    UnmarkMark(m, m1.results, o.w);
    TopOutputsOf(m.results, vs);
  }

  lemma SequenceGoesOn(g: Grammar, txt: string, step: Stepper, p: Parser, m: Machine, w: World, vs: seq<Val>,
          o: Outcome)
    requires Steps(g, txt, step) && m.Machine? && p.And? && |vs| < |p.xs| && o.r.Out?
    ensures if |vs| + 1 == |p.xs| then
              var o' := AfterAnd(p, m.bt, m.w, Done(vs + [o.r.v], o.w)); step(Resumed(p, m, w, vs, o)) == Finish(m.(w := o'.w), o'.r)
            else step(Resumed(p, m, w, vs, o)) == NextInSequence(g, p, m, o.w, vs + [o.r.v])
  {
    hide Destroy, Blame, BlameAll;
    var m1 := Deliver(With(Entered(m, p), m.results + Outs(vs), w), o);
    StepPushAnd(g, txt, step, m1, p, |vs| + 1);
    assert m1.results == m.results + Outs(vs + [o.r.v]);
    if |vs| + 1 == |p.xs| {
      UnmarkMark(m, m1.results, o.w);
      TopOutputsOf(m.results, vs + [o.r.v]);
    } else { ContinuePush(g, m1, p, |vs| + 2, p.xs[|vs| + 1]); }
  }

  lemma {:induction false} SimSequence(g: Grammar, txt: string, step: Stepper, k: nat, p: Parser, m: Machine,
          w: World, vs: seq<Val>)
    returns (n: nat)
    requires Steps(g, txt, step) && m.Machine? && p.And? && |vs| < |p.xs|
    ensures var s := EvalAnd(g, txt, k, p.xs, m.bt, w, vs);
            Follows(step, k, n, NextInSequence(g, p, m, w, vs), m,
                    if s.None? then None else Some(AfterAnd(p, m.bt, m.w, s.value)))
    decreases k, 2
  {
    var h, top := |m.frames|, NextInSequence(g, p, m, w, vs);
    var under := With(Entered(m, p), m.results + Outs(vs), w);
    n := Sim(g, txt, step, k, Resolve(g, p.xs[|vs|]), Push(under, p, |vs| + 1));
    match Eval(g, txt, k, Resolve(g, p.xs[|vs|]), m.bt, w) {
      case None => StaysLess(step, h + 1, h, k, k, top);
      case Some(o) =>
        var y := Push(Deliver(under, o), p, |vs| + 1);
        if o.r.Er? { SequenceBreaks(g, txt, step, p, m, w, vs, o); } else { SequenceGoesOn(g, txt, step, p, m, w, vs, o); }
        ReachesLower(step, h + 1, h, n, top, y);
        if o.r.Er? || |vs| + 1 == |p.xs| {
          assert Reaches(step, h, 1, y, step(y));
          ReachesThen(step, h, n, 1, top, y, step(y));
          n := n + 1;
        } else {
          var vs' := vs + [o.r.v];
          var n' := SimSequence(g, txt, step, k - 1, p, m, o.w, vs');
          match EvalAnd(g, txt, k - 1, p.xs, m.bt, o.w, vs') {
            case None =>
              assert Stays(step, h, k, y);
              StaysAfter(step, h, n, k, top, y);
              StaysLess(step, h, h, n + k, k, top);
            case Some(s) =>
              var o' := AfterAnd(p, m.bt, m.w, s);
              assert Reaches(step, h, n' + 1, y, Finish(m.(w := o'.w), o'.r));
              ReachesThen(step, h, n, n' + 1, top, y, Finish(m.(w := o'.w), o'.r));
              n := n + n' + 1;
          }
        }
    }
  }
}

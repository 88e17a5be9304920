// The stack discipline of the parsing loop: what the result stack and the mark stack hold for each
// parser on the parser stack. Every turn keeps it, so no stack is ever popped too far and no
// output is ever read as an error.
module MpcDiscipline {
  import opened MpcTypes
  import opened Options
  import opened MpcErrors
  import opened MpcInput
  import opened MpcBigStep
  import opened MpcMachine
  import opened MpcRuns
  import opened MpcRefinement

  /** How many earlier results a parser keeps on the result stack. */
  function Held(f: Frame): nat {
    if f.st > 0 && (IsRepeat(f.p) || f.p.Or? || f.p.And?) then f.st - 1 else 0
  }

  /** An alternative keeps the errors of its failed parsers, the others keep outputs. */
  predicate Holds(f: Frame, rs: seq<Res>) {
    forall i :: 0 <= i < |rs| ==> if f.p.Or? then rs[i].Er? else rs[i].Out?
  }

  predicate FrameOk(f: Frame) {
    if IsUnary(f.p) then f.st <= 1
    else if f.p.Or? || f.p.And? then f.st <= |f.p.xs|
    else IsRepeat(f.p) || (IsLeaf(f.p) && f.st == 0)
  }

  predicate HoldsMark(p: Parser) { p.Not? || p.Count? || p.And? }

  /** All parsers wait for the parser above them, and the stacks hold exactly what they keep. */
  predicate Waiting(frames: seq<Frame>, rs: seq<Res>, marks: seq<Cursor>, bt: int)
    decreases |frames|
  {
    if frames == [] then rs == [] && marks == [] && bt == 1
    else
      var below, f := frames[..|frames|-1], frames[|frames|-1];
      && FrameOk(f) && f.st > 0
      && Held(f) <= |rs| && Holds(f, rs[|rs|-Held(f)..])
      && var rs' := rs[..|rs|-Held(f)];
         if HoldsMark(f.p) && bt >= 1 then marks != [] && Waiting(below, rs', marks[..|marks|-1], bt)
         else Waiting(below, rs', marks, if f.p.Predict? then bt + 1 else bt)
  }

  /** The discipline at the head of the loop: the top parser is about to start, or is resumed with
      one new result; when no parser is left there is exactly one result and no mark. */
  predicate Disciplined(m: Machine) {
    && m.Machine?
    && if m.frames == [] then |m.results| == 1 && m.marks == [] && m.bt == 1
       else
         var f := m.frames[|m.frames|-1];
         FrameOk(f) &&
         if f.st == 0 then Waiting(m.frames[..|m.frames|-1], m.results, m.marks, m.bt)
         else m.results != [] && Waiting(m.frames, m.results[..|m.results|-1], m.marks, m.bt)
  }

  predicate Below(m: Machine) { m.Machine? && Waiting(m.frames, m.results, m.marks, m.bt) }

  lemma FinishKeeps(m: Machine, r: Res)
    requires Below(m)
    ensures Disciplined(Finish(m, r))
  {
    assert (m.results + [r])[..|m.results|] == m.results;
  }

  lemma ContinueKeeps(g: Grammar, m: Machine, p: Parser, st: nat, x: Parser)
    requires m.Machine? && Below(m.(frames := m.frames + [Frame(p, st)]))
    ensures Disciplined(Continue(g, m, p, st, x))
  {
    var m' := Continue(g, m, p, st, x);
    assert m'.frames[..|m'.frames|-1] == m.frames + [Frame(p, st)];
  }

  /** A parser that keeps vs results and has become resumable waits. */
  lemma WaitingPush(m: Machine, p: Parser, st: nat, rs: seq<Res>, marks: seq<Cursor>, bt: int)
    requires Below(m)
    requires FrameOk(Frame(p, st)) && st > 0 && Held(Frame(p, st)) == |rs| && Holds(Frame(p, st), rs)
    requires bt == Inner(p, m.bt)
    requires if HoldsMark(p) && bt >= 1 then |marks| == |m.marks| + 1 && marks[..|m.marks|] == m.marks else marks == m.marks
    ensures Waiting(m.frames + [Frame(p, st)], m.results + rs, marks, bt)
  {
    var frames := m.frames + [Frame(p, st)];
    assert frames[..|frames|-1] == m.frames;
    assert (m.results + rs)[..|m.results + rs| - |rs|] == m.results;
    assert (m.results + rs)[|m.results + rs| - |rs|..] == rs;
  }

  /** Entering p and putting x above it. */
  lemma EnterKeeps(g: Grammar, m: Machine, p: Parser, x: Parser)
    requires Below(m) && FrameOk(Frame(p, 1)) && Held(Frame(p, 1)) == 0
    ensures Disciplined(Push(Push(Entered(m, p), p, 1), Resolve(g, x), 0))
  {
    var m1 := Entered(m, p);
    WaitingPush(m, p, 1, [], m1.marks, m1.bt);
    assert m.results + [] == m.results;
    ContinuePush(g, m1, p, 1, x);
    ContinueKeeps(g, m1, p, 1, x);
  }

  lemma StartKeeps(g: Grammar, txt: string, step: Stepper, m: Machine, p: Parser)
    requires Steps(g, txt, step) && Below(m) && !IsLeaf(p) && !p.Ref?
    ensures Disciplined(step(Push(m, p, 0)))
  {
    hide Waiting, Disciplined, Finish, Steps, Resolve;
    if (p.Or? || p.And?) && p.xs == [] {
      EmptyStarts(g, txt, step, p, m);
      FinishKeeps(m, if p.Or? then Out(Null) else Out(p.fold([])));
    } else if p.Or? || p.And? {
      ListStarts(g, txt, step, p, m);
      EnterKeeps(g, m, p, p.xs[0]);
    } else if IsUnary(p) {
      UnaryStarts(g, txt, step, p, m);
      EnterKeeps(g, m, p, p.x);
    } else {
      RepeatStarts(g, txt, step, p, m);
      assert Entered(m, p).results + [] == Entered(m, p).results;
      EnterKeeps(g, m, p, p.x);
    }
  }

  lemma {:induction false} AllOutputs(rs: seq<Res>)
    requires forall i :: 0 <= i < |rs| ==> rs[i].Out?
    ensures Outputs(rs).Some?
  {
    if rs != [] { AllOutputs(rs[..|rs|-1]); }
  }

  lemma {:induction false} AllErrors(rs: seq<Res>)
    requires forall i :: 0 <= i < |rs| ==> rs[i].Er?
    ensures Errors(rs).Some?
  {
    if rs != [] { AllErrors(rs[..|rs|-1]); }
  }

  lemma TopOutputsExist(m: Machine, p: Parser, st: nat) returns (rs: seq<Res>, vs: seq<Val>)
    requires m.Machine? && 0 < st <= |m.results|
    requires !p.Or? && Holds(Frame(p, st), m.results[|m.results|-st..|m.results|-1])
    ensures rs == m.results[..|m.results|-1] && TopOutputs(rs, st - 1) == Some(vs)
    ensures rs[..|rs|-(st-1)] == m.results[..|m.results|-st]
  {
    rs := m.results[..|m.results|-1];
    assert rs[|rs|-(st-1)..] == m.results[|m.results|-st..|m.results|-1];
    AllOutputs(rs[|rs|-(st-1)..]);
    vs := TopOutputs(rs, st - 1).value;
  }

  lemma TopErrorsExist(m: Machine, p: Parser, st: nat) returns (rs: seq<Res>, es: seq<Err>)
    requires m.Machine? && 0 < st <= |m.results|
    requires p.Or? && Holds(Frame(p, st), m.results[|m.results|-st..|m.results|-1])
    ensures rs == m.results[..|m.results|-1] && TopErrors(rs, st - 1) == Some(es)
    ensures rs[..|rs|-(st-1)] == m.results[..|m.results|-st]
  {
    rs := m.results[..|m.results|-1];
    assert rs[|rs|-(st-1)..] == m.results[|m.results|-st..|m.results|-1];
    AllErrors(rs[|rs|-(st-1)..]);
    es := TopErrors(rs, st - 1).value;
  }

  /** p is resumed at state st above m's frames, with a new result on top. */
  predicate Resumed(m: Machine, p: Parser, st: nat) {
    && m.Machine? && st > 0 && m.results != []
    && Waiting(m.frames + [Frame(p, st)], m.results[..|m.results|-1], m.marks, m.bt)
  }

  /** What is below a resumed parser once its mark and its results are gone. */
  lemma ResumedBelow(m: Machine, p: Parser, st: nat)
    requires Resumed(m, p, st)
    ensures FrameOk(Frame(p, st))
    ensures Held(Frame(p, st)) < |m.results|
    ensures Holds(Frame(p, st), m.results[|m.results|-1-Held(Frame(p, st))..|m.results|-1])
    ensures HoldsMark(p) && m.bt >= 1 ==> m.marks != []
    ensures Waiting(m.frames, m.results[..|m.results|-1-Held(Frame(p, st))],
                    if HoldsMark(p) && m.bt >= 1 then m.marks[..|m.marks|-1] else m.marks,
                    if p.Predict? then m.bt + 1 else m.bt)
  {
    var frames, f := m.frames + [Frame(p, st)], Frame(p, st);
    assert frames[..|frames|-1] == m.frames;
    var rs, n := m.results[..|m.results|-1], Held(f);
    assert rs[..|rs|-n] == m.results[..|m.results|-1-n];
    assert rs[|rs|-n..] == m.results[|m.results|-1-n..|m.results|-1];
  }

  /** A resumed unary parser either finishes above what is below it, or just drops off. */
  lemma UnaryResult(g: Grammar, m: Machine, p: Parser) returns (m': Machine, r: Res)
    requires m.Machine? && IsUnary(p) && m.results != []
    requires p.Not? && m.bt >= 1 ==> m.marks != []
    ensures m'.Machine? && StepUnary(g, m, p, 1) == Finish(m', r)
    ensures m'.frames == m.frames && m'.results == m.results[..|m.results|-1]
    ensures m'.marks == if p.Not? && m.bt >= 1 then m.marks[..|m.marks|-1] else m.marks
    ensures m'.bt == if p.Predict? then m.bt + 1 else m.bt
  {
    var m1 := m.(results := m.results[..|m.results|-1]);
    assert m1.results + [m.results[|m.results|-1]] == m.results;
    var s := StepUnary(g, m, p, 1);
    m' := s.(results := m1.results);
    r := s.results[|s.results|-1];
  }

  lemma UnaryKeeps(g: Grammar, m: Machine, p: Parser)
    requires Resumed(m, p, 1) && IsUnary(p)
    ensures Disciplined(StepUnary(g, m, p, 1))
  {
    ResumedBelow(m, p, 1);
    var m', r := UnaryResult(g, m, p);
    FinishKeeps(m', r);
  }

  /** The results p keeps together with the newest one are all of one kind. */
  lemma NewestToo(m: Machine, p: Parser, st: nat)
    requires m.Machine? && 0 < st <= |m.results| && Held(Frame(p, st)) == st - 1
    requires Holds(Frame(p, st), m.results[|m.results|-st..|m.results|-1])
    requires m.results[|m.results|-1].Er? <==> p.Or?
    ensures Holds(Frame(p, st), m.results[|m.results|-st..])
  {
    var n := |m.results|;
    forall i | n - st <= i < n - 1 ensures m.results[n-st..n-1][i-(n-st)] == m.results[i] {}
    assert m.results[n-st..] == m.results[n-st..n-1] + [m.results[n-1]];
  }

  /** Resuming p once more keeps what it keeps and the newest result. */
  lemma ResumeAgainWaits(m: Machine, p: Parser, st: nat, below: Machine)
    requires m.Machine? && 0 < st <= |m.results| && (IsRepeat(p) || p.Or? || p.And?)
    requires Below(below) && below.frames == m.frames && below.results == m.results[..|m.results|-st]
    requires below.bt == m.bt
    requires if HoldsMark(p) && m.bt >= 1 then m.marks != [] && below.marks == m.marks[..|m.marks|-1] else below.marks == m.marks
    requires Holds(Frame(p, st), m.results[|m.results|-st..|m.results|-1])
    requires m.results[|m.results|-1].Er? <==> p.Or?
    requires FrameOk(Frame(p, st + 1))
    ensures Waiting(m.frames + [Frame(p, st + 1)], m.results, m.marks, m.bt)
  {
    NewestToo(m, p, st);
    var newer := m.results[|m.results|-st..];
    WaitingPush(below, p, st + 1, newer, m.marks, m.bt);
    assert below.results + newer == m.results;
  }

  lemma ResumeAgainKeeps(g: Grammar, m: Machine, p: Parser, st: nat, x: Parser)
    requires Resumed(m, p, st) && (IsRepeat(p) || p.Or? || p.And?)
    requires m.results[|m.results|-1].Er? <==> p.Or?
    requires FrameOk(Frame(p, st + 1))
    ensures Disciplined(Continue(g, m, p, st + 1, x))
  {
    hide Waiting, Disciplined, Holds, Continue;
    ResumedBelow(m, p, st);
    var marks := if HoldsMark(p) && m.bt >= 1 then m.marks[..|m.marks|-1] else m.marks;
    ResumeAgainWaits(m, p, st, Machine(m.frames, m.results[..|m.results|-st], marks, m.bt, m.w));
    ContinueKeeps(g, m, p, st + 1, x);
  }

  /** p ends: it leaves the frames below, what is below its results, and its mark is gone. */
  ghost predicate EndsAs(m: Machine, p: Parser, n: nat, end: Machine, r: Res, next: Machine)
    requires m.Machine? && n <= |m.results|
  {
    && end.Machine? && next == Finish(end, r)
    && end.frames == m.frames && end.bt == m.bt
    && end.results == m.results[..|m.results|-n]
    && (HoldsMark(p) && m.bt >= 1 ==> m.marks != [])
    && end.marks == if HoldsMark(p) && m.bt >= 1 then m.marks[..|m.marks|-1] else m.marks
  }

  lemma EndsKeeps(m: Machine, p: Parser, st: nat, end: Machine, r: Res, next: Machine)
    requires Resumed(m, p, st) && (IsRepeat(p) || p.Or? || p.And?)
    requires st <= |m.results| && EndsAs(m, p, st, end, r, next)
    ensures Disciplined(next)
  {
    ResumedBelow(m, p, st);
    FinishKeeps(end, r);
  }

  lemma FoldEnds(m: Machine, n: nat, f: Fold) returns (r: Res)
    requires m.Machine? && n <= |m.results|
    requires forall i :: |m.results| - n <= i < |m.results| ==> m.results[i].Out?
    ensures FoldTop(m, n, f) == Finish(m.(results := m.results[..|m.results|-n]), r)
  {
    AllOutputs(m.results[|m.results|-n..]);
    r := Out(f(TopOutputs(m.results, n).value));
  }

  lemma ManyEnds(g: Grammar, m: Machine, p: Parser, st: nat) returns (end: Machine, r: Res)
    requires m.Machine? && (p.Many? || (p.Many1? && st > 1)) && 0 < st <= |m.results|
    requires m.results[|m.results|-1].Er? && Holds(Frame(p, st), m.results[|m.results|-st..|m.results|-1])
    ensures EndsAs(m, p, st, end, r, StepRepeat(g, m, p, st))
  {
    hide Blame, TopOutputs;
    var n := |m.results|;
    var rs, e := m.results[..n-1], m.results[n-1].e;
    assert rs[..|rs|-(st-1)] == m.results[..n-st];
    assert rs[|rs|-(st-1)..] == m.results[n-st..n-1];
    var m1 := m.(results := rs, w := Blame(m.w, e));
    r := FoldEnds(m1, st - 1, p.fold);
    end := m1.(results := m.results[..n-st]);
  }

  lemma Many1Fails(g: Grammar, m: Machine, p: Parser) returns (end: Machine, r: Res)
    requires m.Machine? && p.Many1? && m.results != [] && m.results[|m.results|-1].Er?
    ensures EndsAs(m, p, 1, end, r, StepRepeat(g, m, p, 1))
  {
    hide ErrMany1, Blame, TopOutputs;
    var n := |m.results|;
    r := Er(ErrMany1(m.results[n-1].e));
    end := m.(results := m.results[..n-1]);
  }

  lemma CountSucceeds(g: Grammar, m: Machine, p: Parser, st: nat) returns (end: Machine, r: Res)
    requires m.Machine? && p.Count? && 0 < st == p.n + 1 <= |m.results|
    requires m.results[|m.results|-1].Er? && Holds(Frame(p, st), m.results[|m.results|-st..|m.results|-1])
    requires m.bt >= 1 ==> m.marks != []
    ensures EndsAs(m, p, st, end, r, StepRepeat(g, m, p, st))
  {
    hide ErrCount, ErrMany1, Blame, TopOutputs, FoldTop, DropSame;
    var n := |m.results|;
    var rs := m.results[..n-1];
    assert rs[..|rs|-(st-1)] == m.results[..n-st];
    assert rs[|rs|-(st-1)..] == m.results[n-st..n-1];
    var m1 := Unmark(m.(results := rs, w := Blame(m.w, m.results[n-1].e)));
    r := FoldEnds(m1, st - 1, p.fold);
    end := m1.(results := m.results[..n-st]);
  }

  lemma CountFails(g: Grammar, m: Machine, p: Parser, st: nat) returns (end: Machine, r: Res)
    requires m.Machine? && p.Count? && 0 < st <= |m.results| && st != p.n + 1
    requires m.results[|m.results|-1].Er? && Holds(Frame(p, st), m.results[|m.results|-st..|m.results|-1])
    requires m.bt >= 1 ==> m.marks != []
    ensures EndsAs(m, p, st, end, r, StepRepeat(g, m, p, st))
  {
    hide ErrCount, DestroySame;
    var rs, vs := TopOutputsExist(m, p, st);
    r := Er(ErrCount(m.results[|m.results|-1].e, p.n));
    var m2 := DropSame(m.(results := rs), st - 1, p.dx);
    assert m2 == m.(results := m.results[..|m.results|-st], w := DestroySame(m.w, vs, p.dx));
    end := Rewind(m2);
  }

  lemma RepeatGoesOn(g: Grammar, m: Machine, p: Parser, st: nat)
    requires Resumed(m, p, st) && IsRepeat(p) && m.results[|m.results|-1].Out?
    ensures StepRepeat(g, m, p, st) == Continue(g, m, p, st + 1, p.x)
  {
    hide Waiting, Holds, Continue, TopOutputs, DropSame;
  }

  lemma RepeatKeeps(g: Grammar, m: Machine, p: Parser, st: nat)
    requires Resumed(m, p, st) && IsRepeat(p)
    ensures Disciplined(StepRepeat(g, m, p, st))
  {
    hide StepRepeat, Disciplined, Waiting, EndsAs, Holds, Continue;
    ResumedBelow(m, p, st);
    if m.results[|m.results|-1].Out? {
      ResumeAgainKeeps(g, m, p, st, p.x);
      RepeatGoesOn(g, m, p, st);
    } else {
      var end, r;
      if p.Many1? && st == 1 { end, r := Many1Fails(g, m, p); }
      else if !p.Count? { end, r := ManyEnds(g, m, p, st); }
      else if st == p.n + 1 { end, r := CountSucceeds(g, m, p, st); }
      else { end, r := CountFails(g, m, p, st); }
      EndsKeeps(m, p, st, end, r, StepRepeat(g, m, p, st));
    }
  }

  lemma OrSucceeds(g: Grammar, m: Machine, p: Parser, st: nat) returns (end: Machine, r: Res)
    requires m.Machine? && p.Or? && 0 < st <= |m.results| && st <= |p.xs|
    requires m.results[|m.results|-1].Out? && Holds(Frame(p, st), m.results[|m.results|-st..|m.results|-1])
    ensures EndsAs(m, p, st, end, r, StepOr(g, m, p, st))
  {
    var rs, es := TopErrorsExist(m, p, st);
    r := m.results[|m.results|-1];
    end := m.(results := m.results[..|m.results|-st], w := BlameAll(m.w, es));
  }

  lemma OrFails(g: Grammar, m: Machine, p: Parser) returns (end: Machine, r: Res)
    requires m.Machine? && p.Or? && 0 < |p.xs| <= |m.results|
    requires m.results[|m.results|-1].Er? && Holds(Frame(p, |p.xs|), m.results[|m.results|-|p.xs|..|m.results|-1])
    ensures EndsAs(m, p, |p.xs|, end, r, StepOr(g, m, p, |p.xs|))
  {
    NewestToo(m, p, |p.xs|);
    AllErrors(m.results[|m.results|-|p.xs|..]);
    var es := TopErrors(m.results, |p.xs|).value;
    r := Er(ErrOr(es));
    end := m.(results := m.results[..|m.results|-|p.xs|]);
  }

  lemma OrKeeps(g: Grammar, m: Machine, p: Parser, st: nat)
    requires Resumed(m, p, st) && p.Or?
    ensures Disciplined(StepOr(g, m, p, st))
  {
    ResumedBelow(m, p, st);
    if m.results[|m.results|-1].Er? && st < |p.xs| {
      ResumeAgainKeeps(g, m, p, st, p.xs[st]);
    } else {
      var end, r;
      if m.results[|m.results|-1].Out? { end, r := OrSucceeds(g, m, p, st); } else { end, r := OrFails(g, m, p); }
      EndsKeeps(m, p, st, end, r, StepOr(g, m, p, st));
    }
  }

  lemma AndFails(g: Grammar, m: Machine, p: Parser, st: nat) returns (end: Machine, r: Res)
    requires m.Machine? && p.And? && 0 < st <= |m.results| && st <= |p.xs|
    requires m.results[|m.results|-1].Er? && Holds(Frame(p, st), m.results[|m.results|-st..|m.results|-1])
    requires m.bt >= 1 ==> m.marks != []
    ensures EndsAs(m, p, st, end, r, StepAnd(g, m, p, st))
  {
    hide Destroy;
    var rs, vs := TopOutputsExist(m, p, st);
    r := m.results[|m.results|-1];
    var m1 := Rewind(m);
    assert m1.Machine? && m1.results == m.results;
    end := Drop(m1.(results := rs), st - 1, p.dxs);
  }

  lemma AndSucceeds(g: Grammar, m: Machine, p: Parser) returns (end: Machine, r: Res)
    requires m.Machine? && p.And? && 0 < |p.xs| <= |m.results|
    requires m.results[|m.results|-1].Out? && Holds(Frame(p, |p.xs|), m.results[|m.results|-|p.xs|..|m.results|-1])
    requires m.bt >= 1 ==> m.marks != []
    ensures EndsAs(m, p, |p.xs|, end, r, StepAnd(g, m, p, |p.xs|))
  {
    NewestToo(m, p, |p.xs|);
    r := FoldEnds(Unmark(m), |p.xs|, p.fold);
    end := Unmark(m).(results := m.results[..|m.results|-|p.xs|]);
  }

  lemma AndKeeps(g: Grammar, m: Machine, p: Parser, st: nat)
    requires Resumed(m, p, st) && p.And?
    ensures Disciplined(StepAnd(g, m, p, st))
  {
    ResumedBelow(m, p, st);
    if m.results[|m.results|-1].Out? && st < |p.xs| {
      ResumeAgainKeeps(g, m, p, st, p.xs[st]);
    } else {
      var end, r;
      if m.results[|m.results|-1].Er? { end, r := AndFails(g, m, p, st); } else { end, r := AndSucceeds(g, m, p); }
      EndsKeeps(m, p, st, end, r, StepAnd(g, m, p, st));
    }
  }

  lemma StepKeepsUnary(g: Grammar, txt: string, step: Stepper, m: Machine, p: Parser)
    requires Steps(g, txt, step) && Resumed(m, p, 1) && IsUnary(p)
    ensures Disciplined(step(Push(m, p, 1)))
  {
    StepPushUnary(g, txt, step, m, p, 1);
    UnaryKeeps(g, m, p);
  }

  lemma StepKeepsRepeat(g: Grammar, txt: string, step: Stepper, m: Machine, p: Parser, st: nat)
    requires Steps(g, txt, step) && Resumed(m, p, st) && IsRepeat(p)
    ensures Disciplined(step(Push(m, p, st)))
  {
    StepPushRepeat(g, txt, step, m, p, st);
    RepeatKeeps(g, m, p, st);
  }

  lemma StepKeepsLeaf(g: Grammar, txt: string, step: Stepper, m: Machine, p: Parser)
    requires Steps(g, txt, step) && Below(m) && IsLeaf(p)
    ensures Disciplined(step(Push(m, p, 0)))
  {
    StepPush(g, txt, m, p, 0);
    var o := LeafOutcome(txt, p, m.bt, m.w);
    FinishKeeps(m.(w := o.w), o.r);
  }

  /** Every turn of the loop keeps the discipline. */
  lemma StepKeepsDiscipline(g: Grammar, txt: string, step: Stepper, m: Machine)
    requires Steps(g, txt, step) && Disciplined(m) && m.frames != []
    ensures Disciplined(step(m))
  {
    var below, f := m.frames[..|m.frames|-1], m.frames[|m.frames|-1];
    var m0 := m.(frames := below);
    assert below + [f] == m.frames;
    assert Push(m0, f.p, f.st) == m;
    if f.st == 0 {
      if IsLeaf(f.p) {
        StepKeepsLeaf(g, txt, step, m0, f.p);
      } else {
        StartKeeps(g, txt, step, m0, f.p);
      }
    } else {
      if IsUnary(f.p) {
        StepKeepsUnary(g, txt, step, m0, f.p);
      } else if IsRepeat(f.p) {
        StepKeepsRepeat(g, txt, step, m0, f.p, f.st);
      } else if f.p.Or? {
        StepPushOr(g, txt, step, m0, f.p, f.st);
        OrKeeps(g, m0, f.p, f.st);
      } else {
        StepPushAnd(g, txt, step, m0, f.p, f.st);
        AndKeeps(g, m0, f.p, f.st);
      }
    }
  }

  lemma InitialIsDisciplined(p: Parser, w: World)
    requires !p.Ref?
    ensures Disciplined(Initial(p, w))
  {
    assert Initial(p, w).frames[..0] == [];
  }

  /** Every state the loop reaches from a disciplined one is disciplined: it never underflows a
      stack, never confuses an output with an error, and ends with exactly one result, no mark and
      the backtracking counter at one. */
  lemma {:induction false} ReachableIsDisciplined(g: Grammar, txt: string, step: Stepper, n: nat, m: Machine)
    requires Steps(g, txt, step) && Disciplined(m)
    ensures Disciplined(After(step, n, m))
    decreases n
  {
    if n > 0 && m.frames != [] {
      StepKeepsDiscipline(g, txt, step, m);
      ReachableIsDisciplined(g, txt, step, n - 1, step(m));
    }
  }

  /** No state of a parse, from its start on, misuses a stack. */
  lemma ParseIsDisciplined(g: Grammar, txt: string, step: Stepper, n: nat, p: Parser, w: World)
    requires Steps(g, txt, step) && !p.Ref?
    ensures Disciplined(After(step, n, Initial(p, w)))
  {
    InitialIsDisciplined(p, w);
    ReachableIsDisciplined(g, txt, step, n, Initial(p, w));
  }
}

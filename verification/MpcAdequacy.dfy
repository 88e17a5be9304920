// What the simulation says about whole runs of the parsing loop.
module MpcAdequacy {
  import opened MpcTypes
  import opened Options
  import opened MpcInput
  import opened MpcBigStep
  import opened MpcMachine
  import opened MpcRuns
  import opened MpcRefinement

  /** The loop of the machine as a function. */
  function Loop(g: Grammar, txt: string): Stepper { m => Step(g, txt, m) }

  lemma LoopSteps(g: Grammar, txt: string)
    ensures Steps(g, txt, Loop(g, txt))
  {
  }

  /** Whether p, started on top of m, is finished at some turn with outcome o, for the first time
      down to m's parsers, with everything else in m as it was. */
  ghost predicate Finishes(step: Stepper, p: Parser, m: Machine, o: Outcome)
    requires m.Machine?
  {
    exists n :: Reaches(step, |m.frames|, n, Push(m, p, 0), Finish(m.(w := o.w), o.r))
  }

  /** Whether the recursive meaning of p yields o. */
  ghost predicate Yields(g: Grammar, txt: string, p: Parser, bt: int, w: World, o: Outcome)
    requires !p.Ref?
  {
    exists k :: Eval(g, txt, k, p, bt, w) == Some(o)
  }

  /** Whether the recursive meaning of p yields nothing. */
  ghost predicate Diverges(g: Grammar, txt: string, p: Parser, bt: int, w: World)
    requires !p.Ref?
  {
    forall k :: Eval(g, txt, k, p, bt, w) == None
  }

  lemma {:induction false} FirstDescentIsUnique(step: Stepper, h: nat, a: nat, b: nat, m: Machine, m1: Machine,
          m2: Machine)
    requires Reaches(step, h, a, m, m1) && Reaches(step, h, b, m, m2)
    requires !Above(h, m1) && !Above(h, m2)
    ensures a == b && m1 == m2
  {
    if a > 0 && b > 0 { FirstDescentIsUnique(step, h, a - 1, b - 1, step(m), m1, m2); }
  }

  lemma {:induction false} StaysAbove(step: Stepper, h: nat, a: nat, m: Machine, m1: Machine)
    requires Reaches(step, h, a, m, m1) && Stays(step, h, a + 1, m)
    ensures Above(h, m1)
  {
    if a > 0 { StaysAbove(step, h, a - 1, step(m), m1); }
  }

  /** The machine finishes p with an outcome exactly when the recursive meaning yields it. */
  lemma MachineRefinesMeaning(g: Grammar, txt: string, step: Stepper, p: Parser, m: Machine, o: Outcome)
    requires Steps(g, txt, step) && m.Machine? && !p.Ref?
    ensures Finishes(step, p, m, o) <==> Yields(g, txt, p, m.bt, m.w, o)
  {
    var top, end := Push(m, p, 0), Finish(m.(w := o.w), o.r);
    if Yields(g, txt, p, m.bt, m.w, o) {
      var k :| Eval(g, txt, k, p, m.bt, m.w) == Some(o);
      var n := Sim(g, txt, step, k, p, m);
    }
    if Finishes(step, p, m, o) {
      var n: nat :| Reaches(step, |m.frames|, n, top, end);
      var n' := Sim(g, txt, step, n + 1, p, m);
      match Eval(g, txt, n + 1, p, m.bt, m.w) {
        case None => StaysAbove(step, |m.frames|, n, top, end);
        case Some(o') =>
          var end' := Finish(m.(w := o'.w), o'.r);
          FirstDescentIsUnique(step, |m.frames|, n, n', top, end, end');
          assert end.results[|m.results|] == o.r && end'.results[|m.results|] == o'.r;
      }
    }
  }

  /** The meaning of a parser is unique. */
  lemma MeaningIsUnique(g: Grammar, txt: string, k: nat, k': nat, p: Parser, bt: int, w: World)
    requires !p.Ref?
    requires Eval(g, txt, k, p, bt, w).Some? && Eval(g, txt, k', p, bt, w).Some?
    ensures Eval(g, txt, k, p, bt, w) == Eval(g, txt, k', p, bt, w)
  {
    var m := Machine([], [], [], bt, w);
    LoopSteps(g, txt);
    var n := Sim(g, txt, Loop(g, txt), k, p, m);
    var n' := Sim(g, txt, Loop(g, txt), k', p, m);
    var o, o' := Eval(g, txt, k, p, bt, w).value, Eval(g, txt, k', p, bt, w).value;
    var end, end' := Finish(m.(w := o.w), o.r), Finish(m.(w := o'.w), o'.r);
    FirstDescentIsUnique(Loop(g, txt), 0, n, n', Push(m, p, 0), end, end');
    assert end.results[0] == o.r && end'.results[0] == o'.r;
  }

  /** Whether the loop never gets down to h parsers. */
  ghost predicate NeverDescends(step: Stepper, h: nat, m: Machine) {
    forall n :: Stays(step, h, n, m)
  }

  /** The loop never finishes p exactly when the recursive meaning yields nothing. */
  lemma MachineDivergesWithMeaning(g: Grammar, txt: string, step: Stepper, p: Parser, m: Machine)
    requires Steps(g, txt, step) && m.Machine? && !p.Ref?
    ensures NeverDescends(step, |m.frames|, Push(m, p, 0)) <==> Diverges(g, txt, p, m.bt, m.w)
  {
    var h, top := |m.frames|, Push(m, p, 0);
    if Diverges(g, txt, p, m.bt, m.w) {
      forall n: nat ensures Stays(step, h, n, top) {
        var n' := Sim(g, txt, step, n, p, m);
      }
    } else {
      var k: nat :| Eval(g, txt, k, p, m.bt, m.w) != None;
      var n := Sim(g, txt, step, k, p, m);
      if NeverDescends(step, h, top) {
        var o := Eval(g, txt, k, p, m.bt, m.w).value;
        assert Stays(step, h, n + 1, top);
        StaysAbove(step, h, n, top, Finish(m.(w := o.w), o.r));
        assert false;
      }
    }
  }

  ghost predicate Terminates(g: Grammar, txt: string, p: Parser, bt: int, w: World)
    requires !p.Ref?
  {
    exists k :: Eval(g, txt, k, p, bt, w).Some?
  }

  /** The outcome a terminating parser yields. */
  ghost function Meaning(g: Grammar, txt: string, p: Parser, bt: int, w: World): (o: Outcome)
    requires !p.Ref? && Terminates(g, txt, p, bt, w)
    ensures Yields(g, txt, p, bt, w, o)
  {
    var k :| Eval(g, txt, k, p, bt, w).Some?;
    Eval(g, txt, k, p, bt, w).value
  }

  /** Whatever outcome is found with some recursion bound is the meaning. */
  lemma MeaningIs(g: Grammar, txt: string, k: nat, p: Parser, bt: int, w: World)
    requires !p.Ref? && Eval(g, txt, k, p, bt, w).Some?
    ensures Terminates(g, txt, p, bt, w) && Eval(g, txt, k, p, bt, w) == Some(Meaning(g, txt, p, bt, w))
  {
    var o := Meaning(g, txt, p, bt, w);
    var k' :| Eval(g, txt, k', p, bt, w) == Some(o);
    MeaningIsUnique(g, txt, k, k', p, bt, w);
  }

  /** A terminating parse ends, with its outcome as the only result. */
  lemma RunEnds(g: Grammar, txt: string, p: Parser, w: World) returns (n: nat)
    requires !p.Ref? && Terminates(g, txt, p, 1, w)
    ensures var o := Meaning(g, txt, p, 1, w);
            Reaches(Loop(g, txt), 0, n, Initial(p, w), Machine([], [o.r], [], 1, o.w))
  {
    LoopSteps(g, txt);
    var o, m := Meaning(g, txt, p, 1, w), Machine([], [], [], 1, w);
    MachineRefinesMeaning(g, txt, Loop(g, txt), p, m, o);
    assert Push(m, p, 0) == Initial(p, w);
    assert Finish(m.(w := o.w), o.r) == Machine([], [o.r], [], 1, o.w);
    n :| Reaches(Loop(g, txt), |m.frames|, n, Push(m, p, 0), Finish(m.(w := o.w), o.r));
  }
}

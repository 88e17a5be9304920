// Positions while a parse is running: at the head of every turn the cursor, and every cursor that a
// rewind may go back to, are those of the text read so far.
module MpcTracking {
  import opened MpcTypes
  import opened MpcInput
  import opened MpcBigStep
  import opened MpcMachine
  import opened MpcRuns
  import opened MpcCursors

  ghost predicate Tracks(txt: string, m: Machine) {
    m.Machine? ==> AtText(txt, m.w.cur) && forall c <- m.marks :: AtText(txt, c)
  }

  lemma MarkTracks(txt: string, m: Machine)
    requires m.Machine? && Tracks(txt, m)
    ensures Tracks(txt, Mark(m))
  {
    hide AtText;
  }

  /** Going back goes back to a mark. */
  lemma RewindTracks(txt: string, m: Machine)
    requires m.Machine? && Tracks(txt, m)
    ensures Tracks(txt, Unmark(m)) && Tracks(txt, Rewind(m))
  {
    hide AtText;
    if m.marks != [] { assert m.marks[|m.marks|-1] in m.marks; }
  }

  lemma FoldTracks(txt: string, m: Machine, n: nat, f: Fold)
    requires Tracks(txt, m)
    ensures Tracks(txt, FoldTop(m, n, f))
  {
    hide AtText, TopOutputs;
  }

  lemma DropTracks(txt: string, m: Machine, n: nat, dx: Dtor, dxs: seq<Dtor>)
    requires m.Machine? && Tracks(txt, m)
    ensures Tracks(txt, DropSame(m, n, dx)) && Tracks(txt, Drop(m, n, dxs))
  {
    hide AtText, TopOutputs, Destroy, DestroySame;
    var vs := TopOutputs(m.results, n);
    if vs.Some? {
      DestroySameKeeps(m.w, vs.value, dx);
      DestroyKeeps(m.w, vs.value, dxs);
    }
  }

  lemma UnaryTracks(g: Grammar, txt: string, m: Machine, p: Parser, st: nat)
    requires m.Machine? && IsUnary(p) && Tracks(txt, m)
    ensures Tracks(txt, StepUnary(g, m, p, st))
  {
    hide AtText, Unmark, Rewind, Blame, DestroySame, Resolve;
    MarkTracks(txt, m);
    if st > 0 && m.results != [] {
      var r := m.results[|m.results|-1];
      var m1 := m.(results := m.results[..|m.results|-1]);
      RewindTracks(txt, m1);
      if r.Er? {
        BlameTracks(txt, m1, r.e);
      } else if p.Not? && Rewind(m1).Machine? {
        DestroySameKeeps(Rewind(m1).w, [r.v], p.dx);
      }
    }
  }

  lemma BlameTracks(txt: string, m: Machine, e: Err)
    requires m.Machine? && Tracks(txt, m)
    ensures var b := m.(w := Blame(m.w, e)); Tracks(txt, b) && Tracks(txt, Unmark(b))
  {
    hide AtText, Unmark;
    RewindTracks(txt, m.(w := Blame(m.w, e)));
  }

  lemma RepeatTracks(g: Grammar, txt: string, m: Machine, p: Parser, st: nat)
    requires m.Machine? && IsRepeat(p) && Tracks(txt, m)
    ensures Tracks(txt, StepRepeat(g, m, p, st))
  {
    hide AtText, Unmark, Rewind, Blame, FoldTop, DropSame, Resolve;
    MarkTracks(txt, m);
    if st > 0 && m.results != [] && m.results[|m.results|-1].Er? {
      var e := m.results[|m.results|-1].e;
      var m1 := m.(results := m.results[..|m.results|-1]);
      var b := m1.(w := Blame(m.w, e));
      BlameTracks(txt, m1, e);
      FoldTracks(txt, b, st - 1, p.fold);
      FoldTracks(txt, Unmark(b), st - 1, p.fold);
      if p.Count? {
        DropTracks(txt, m1, st - 1, p.dx, []);
        var m2 := DropSame(m1, st - 1, p.dx);
        if m2.Machine? { RewindTracks(txt, m2); }
      }
    }
  }

  lemma OrTracks(g: Grammar, txt: string, m: Machine, p: Parser, st: nat)
    requires m.Machine? && p.Or? && Tracks(txt, m)
    ensures Tracks(txt, StepOr(g, m, p, st))
  {
    hide AtText, TopErrors, BlameAll, Resolve;
    if m.results != [] && st > 0 {
      var es := TopErrors(m.results[..|m.results|-1], st - 1);
      if es.Some? { BlameAllKeepsCursor(m.w, es.value); }
    }
  }

  lemma AndTracks(g: Grammar, txt: string, m: Machine, p: Parser, st: nat)
    requires m.Machine? && p.And? && Tracks(txt, m)
    ensures Tracks(txt, StepAnd(g, m, p, st))
  {
    hide AtText, Unmark, FoldTop, Drop, Resolve;
    MarkTracks(txt, m);
    RewindTracks(txt, m);
    FoldTracks(txt, Unmark(m), |p.xs|, p.fold);
    if st > 0 && m.results != [] && Rewind(m).Machine? {
      var m1 := Rewind(m);
      if m1.results != [] { DropTracks(txt, m1.(results := m1.results[..|m1.results|-1]), st - 1, 0, p.dxs); }
    }
  }

  /** Every turn of the loop keeps it. */
  lemma StepTracks(g: Grammar, txt: string, step: Stepper, m: Machine)
    requires Steps(g, txt, step) && Tracks(txt, m)
    ensures Tracks(txt, step(m))
  {
    hide AtText, LeafOutcome, StepUnary, StepRepeat, StepOr, StepAnd;
    if m.Machine? && m.frames != [] {
      var top, m0 := m.frames[|m.frames|-1], m.(frames := m.frames[..|m.frames|-1]);
      var p := top.p;
      assert step(m) == Step(g, txt, m) == StepTop(g, txt, m0, p, top.st);
      if IsLeaf(p) { LeafIsForward(txt, p, m.bt, m.w); }
      else if IsUnary(p) { UnaryTracks(g, txt, m0, p, top.st); }
      else if IsRepeat(p) { RepeatTracks(g, txt, m0, p, top.st); }
      else if p.Or? { OrTracks(g, txt, m0, p, top.st); }
      else if p.And? { AndTracks(g, txt, m0, p, top.st); }
    } else {
      assert step(m) == Step(g, txt, m);
    }
  }

  /** However many turns it has taken, and whether it ever ends or not, row, column and last character
      are those of the text before the position, at the cursor and at every mark. */
  lemma {:induction false} EveryStateTracks(g: Grammar, txt: string, step: Stepper, n: nat, m: Machine)
    requires Steps(g, txt, step) && Tracks(txt, m)
    ensures Tracks(txt, After(step, n, m))
    decreases n
  {
    if n > 0 && m.Machine? && m.frames != [] {
      StepTracks(g, txt, step, m);
      EveryStateTracks(g, txt, step, n - 1, step(m));
    }
  }

  /** So it is in every parse from the start of a string. */
  lemma ParseTracks(g: Grammar, txt: string, step: Stepper, n: nat, p: Parser, e: Err)
    requires Steps(g, txt, step)
    ensures Tracks(txt, After(step, n, Initial(p, World(START, e, []))))
  {
    assert txt[..0] == [];
    EveryStateTracks(g, txt, step, n, Initial(p, World(START, e, [])));
  }
}

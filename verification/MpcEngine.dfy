// The parsing loop, in place on an input and a stack. Each part of a turn is proved to be the turn
// of the abstract machine.
module MpcEngine {
  import opened MpcTypes
  import opened Options
  import opened MpcErrors
  import opened MpcInput
  import opened MpcBigStep
  import opened MpcMachine
  import opened MpcRefinement
  import opened MpcStacks
  import opened MpcRuns
  import opened MpcDiscipline
  import opened MpcAdequacy

  ghost predicate Ready(i: Input, stk: Stack)
    reads i, stk, stk.Repr
  {
    i.Valid() && stk.Valid() && i !in stk.Repr
  }

  ghost function WorldOf(i: Input, stk: Stack): World
    reads i, stk
  {
    World(i.Here(), stk.err, stk.log)
  }

  /** The abstract machine that an input and a stack represent. */
  ghost function Abs(i: Input, stk: Stack): (m: Machine)
    reads i, stk, stk.Repr
    requires Ready(i, stk)
    ensures m.Machine?
  {
    Machine(stk.Frames(), stk.Results(), i.Marks(), i.backtrack, WorldOf(i, stk))
  }

  /** The abstract machine without its top parser. */
  ghost function Lower(i: Input, stk: Stack): (m: Machine)
    reads i, stk, stk.Repr
    requires Ready(i, stk) && stk.Frames() != []
    ensures m.Machine?
  {
    var m := Abs(i, stk);
    m.(frames := m.frames[..|m.frames|-1])
  }

  /** The top parser is p at state st, and m is everything else. */
  ghost predicate At(i: Input, stk: Stack, p: Parser, st: nat, m: Machine)
    reads i, stk, stk.Repr
  {
    && Ready(i, stk) && stk.Frames() != [] && stk.Frames()[|stk.Frames()|-1] == Frame(p, st)
    && Lower(i, stk) == m
  }

  lemma AtState(i: Input, stk: Stack, p: Parser, st: nat, m: Machine)
    requires m.Machine? && At(i, stk, p, st, m)
    ensures i.state == m.w.cur.state
  {
  }

  lemma BlameAllStep(w: World, es: seq<Err>, k: nat)
    requires k <= |es|
    ensures BlameAll(w, es[..k]) == if k == 0 then w else BlameAll(Blame(w, es[k-1]), es[..k-1])
  {
    if k > 0 { assert es[..k][..k-1] == es[..k-1]; }
  }

  lemma DestroySameStep(w: World, vs: seq<Val>, dx: Dtor, k: nat)
    requires k <= |vs|
    ensures DestroySame(w, vs[..k], dx)
         == if k == 0 then w else DestroySame(w.(log := w.log + [Destroyed(dx, vs[k-1])]), vs[..k-1], dx)
  {
    if k > 0 { assert vs[..k][..k-1] == vs[..k-1]; }
  }

  lemma DestroyStep(w: World, vs: seq<Val>, dxs: seq<Dtor>, k: nat)
    requires k <= |vs|
    ensures Destroy(w, vs[..k], dxs)
         == if k == 0 then w else Destroy(w.(log := w.log + [Destroyed(DtorAt(dxs, k - 1), vs[k-1])]), vs[..k-1], dxs)
  {
    if k > 0 { assert vs[..k][..k-1] == vs[..k-1]; }
  }

  /** The steps a turn is made of. Each does to the input and the stack what the machine does. */

  method Resume(g: Grammar, i: Input, stk: Stack, st': nat, x: Parser, ghost p: Parser, ghost st: nat, ghost m: Machine)
    requires m.Machine? && At(i, stk, p, st, m)
    modifies stk.Repr
    ensures Ready(i, stk) && fresh(stk.Repr - old(stk.Repr))
    ensures Abs(i, stk) == Continue(g, m, p, st', x)
  {
    stk.SetState(st');
    stk.PushParser(Resolve(g, x));
  }

  method End(i: Input, stk: Stack, r: Res, ghost p: Parser, ghost st: nat, ghost m: Machine)
    requires m.Machine? && At(i, stk, p, st, m)
    modifies stk.Repr
    ensures Ready(i, stk) && fresh(stk.Repr - old(stk.Repr))
    ensures Abs(i, stk) == Finish(m, r)
  {
    var _, _ := stk.PopParser();
    stk.PushResult(r);
  }

  method Pop(i: Input, stk: Stack, ghost p: Parser, ghost st: nat, ghost m: Machine) returns (r: Res, success: int)
    requires m.Machine? && At(i, stk, p, st, m) && m.results != []
    modifies stk.Repr
    ensures fresh(stk.Repr - old(stk.Repr))
    ensures At(i, stk, p, st, m.(results := m.results[..|m.results|-1]))
    ensures r == m.results[|m.results|-1] && success == if r.Out? then 1 else 0
  {
    r, success := stk.PopResult();
  }

  method MarkInput(i: Input, stk: Stack, ghost p: Parser, ghost st: nat, ghost m: Machine)
    requires m.Machine? && At(i, stk, p, st, m)
    modifies i
    ensures stk.Repr == old(stk.Repr)
    ensures At(i, stk, p, st, Mark(m))
  {
    i.Mark();
  }

  method UnmarkInput(i: Input, stk: Stack, ghost p: Parser, ghost st: nat, ghost m: Machine)
    requires m.Machine? && At(i, stk, p, st, m) && Unmark(m).Machine?
    modifies i
    ensures stk.Repr == old(stk.Repr)
    ensures At(i, stk, p, st, Unmark(m))
  {
    i.Unmark();
  }

  method RewindInput(i: Input, stk: Stack, ghost p: Parser, ghost st: nat, ghost m: Machine)
    requires m.Machine? && At(i, stk, p, st, m) && Rewind(m).Machine?
    modifies i
    ensures stk.Repr == old(stk.Repr)
    ensures At(i, stk, p, st, Rewind(m))
  {
    i.Rewind();
  }

  /** Merges an error into the error of the parse. */
  method MergeError(i: Input, stk: Stack, e: Err, ghost p: Parser, ghost st: nat, ghost m: Machine)
    requires m.Machine? && At(i, stk, p, st, m)
    modifies stk.Repr
    ensures fresh(stk.Repr - old(stk.Repr))
    ensures At(i, stk, p, st, m.(w := Blame(m.w, e)))
  {
    var err := MergeErrors([stk.err, e]);
    stk.SetErr(err);
  }

  method DestroyValue(i: Input, stk: Stack, v: Val, dx: Dtor, ghost p: Parser, ghost st: nat, ghost m: Machine)
    requires m.Machine? && At(i, stk, p, st, m)
    modifies stk.Repr
    ensures fresh(stk.Repr - old(stk.Repr))
    ensures At(i, stk, p, st, m.(w := m.w.(log := m.w.log + [Destroyed(dx, v)])))
  {
    stk.AddLog(Destroyed(dx, v));
  }

  /** Pops the newest of the outputs vs above rs. */
  method PopOutput(i: Input, stk: Stack, ghost p: Parser, ghost st: nat, ghost m: Machine, ghost rs: seq<Res>,
          ghost vs: seq<Val>)
    returns (v: Val)
    requires m.Machine? && At(i, stk, p, st, m) && vs != [] && m.results == rs + Outs(vs)
    modifies stk.Repr
    ensures fresh(stk.Repr - old(stk.Repr))
    ensures v == vs[|vs|-1] && At(i, stk, p, st, m.(results := rs + Outs(vs[..|vs|-1])))
  {
    hide At;
    assert m.results[..|m.results|-1] == rs + Outs(vs[..|vs|-1]);
    var r, _ := Pop(i, stk, p, st, m);
    v := r.v;
  }

  method PopError(i: Input, stk: Stack, ghost p: Parser, ghost st: nat, ghost m: Machine, ghost rs: seq<Res>,
          ghost es: seq<Err>)
    returns (e: Err)
    requires m.Machine? && At(i, stk, p, st, m) && es != [] && m.results == rs + Ers(es)
    modifies stk.Repr
    ensures fresh(stk.Repr - old(stk.Repr))
    ensures e == es[|es|-1] && At(i, stk, p, st, m.(results := rs + Ers(es[..|es|-1])))
  {
    hide At;
    assert m.results[..|m.results|-1] == rs + Ers(es[..|es|-1]);
    var r, _ := Pop(i, stk, p, st, m);
    e := r.e;
  }

  /** Pops the top n errors and merges them, the newest first. */
  method PopErrors(i: Input, stk: Stack, n: nat, ghost p: Parser, ghost st: nat, ghost m: Machine,
          ghost rs: seq<Res>, ghost es: seq<Err>)
    requires m.Machine? && At(i, stk, p, st, m) && |es| == n && m.results == rs + Ers(es)
    modifies stk.Repr
    ensures fresh(stk.Repr - old(stk.Repr))
    ensures At(i, stk, p, st, m.(results := rs, w := BlameAll(m.w, es)))
  {
    hide At, Ready, Abs, Blame, BlameAll, Ers;
    ghost var w := m.w;
    var k := n;
    assert es[..n] == es;
    while k > 0
      invariant 0 <= k <= n && fresh(stk.Repr - old(stk.Repr))
      invariant At(i, stk, p, st, m.(results := rs + Ers(es[..k]), w := w))
      invariant BlameAll(w, es[..k]) == BlameAll(m.w, es)
    {
      BlameAllStep(w, es, k);
      ghost var m' := m.(results := rs + Ers(es[..k]), w := w);
      assert es[..k][..k-1] == es[..k-1];
      var e := PopError(i, stk, p, st, m', rs, es[..k]);
      MergeError(i, stk, e, p, st, m'.(results := rs + Ers(es[..k-1])));
      w := Blame(w, e);
      k := k - 1;
    }
    BlameAllStep(w, es, k);
    assert rs + Ers([]) == rs;
  }

  /** Pops the top n outputs and destroys them, the newest first, each with its own destructor. */
  method PopOutputs(i: Input, stk: Stack, n: nat, dxs: seq<Dtor>, ghost p: Parser, ghost st: nat,
          ghost m: Machine, ghost rs: seq<Res>, ghost vs: seq<Val>)
    requires m.Machine? && At(i, stk, p, st, m) && |vs| == n && m.results == rs + Outs(vs)
    modifies stk.Repr
    ensures fresh(stk.Repr - old(stk.Repr))
    ensures At(i, stk, p, st, m.(results := rs, w := Destroy(m.w, vs, dxs)))
  {
    hide At, Ready, Abs, Destroy, Outs;
    ghost var w := m.w;
    var k := n;
    assert vs[..n] == vs;
    while k > 0
      invariant 0 <= k <= n && fresh(stk.Repr - old(stk.Repr))
      invariant At(i, stk, p, st, m.(results := rs + Outs(vs[..k]), w := w))
      invariant Destroy(w, vs[..k], dxs) == Destroy(m.w, vs, dxs)
    {
      DestroyStep(w, vs, dxs, k);
      ghost var m' := m.(results := rs + Outs(vs[..k]), w := w);
      assert vs[..k][..k-1] == vs[..k-1];
      var v := PopOutput(i, stk, p, st, m', rs, vs[..k]);
      DestroyValue(i, stk, v, DtorAt(dxs, k - 1), p, st, m'.(results := rs + Outs(vs[..k-1])));
      w := w.(log := w.log + [Destroyed(DtorAt(dxs, k - 1), v)]);
      k := k - 1;
    }
    DestroyStep(w, vs, dxs, k);
    assert rs + Outs([]) == rs;
  }

  /** Pops the top n outputs and destroys them, the newest first, all with one destructor. */
  method PopOutputsSingle(i: Input, stk: Stack, n: nat, dx: Dtor, ghost p: Parser, ghost st: nat,
          ghost m: Machine, ghost rs: seq<Res>, ghost vs: seq<Val>)
    requires m.Machine? && At(i, stk, p, st, m) && |vs| == n && m.results == rs + Outs(vs)
    modifies stk.Repr
    ensures fresh(stk.Repr - old(stk.Repr))
    ensures At(i, stk, p, st, m.(results := rs, w := DestroySame(m.w, vs, dx)))
  {
    hide At, Ready, Abs, DestroySame, Outs;
    ghost var w := m.w;
    var k := n;
    assert vs[..n] == vs;
    while k > 0
      invariant 0 <= k <= n && fresh(stk.Repr - old(stk.Repr))
      invariant At(i, stk, p, st, m.(results := rs + Outs(vs[..k]), w := w))
      invariant DestroySame(w, vs[..k], dx) == DestroySame(m.w, vs, dx)
    {
      DestroySameStep(w, vs, dx, k);
      ghost var m' := m.(results := rs + Outs(vs[..k]), w := w);
      assert vs[..k][..k-1] == vs[..k-1];
      var v := PopOutput(i, stk, p, st, m', rs, vs[..k]);
      DestroyValue(i, stk, v, dx, p, st, m'.(results := rs + Outs(vs[..k-1])));
      w := w.(log := w.log + [Destroyed(dx, v)]);
      k := k - 1;
    }
    DestroySameStep(w, vs, dx, k);
    assert rs + Outs([]) == rs;
  }

  /** Pops the top n outputs and folds them, the oldest first. */
  method MergeOutputs(i: Input, stk: Stack, n: nat, f: Fold, ghost p: Parser, ghost st: nat, ghost m: Machine,
          ghost rs: seq<Res>, ghost vs: seq<Val>) returns (o: Val)
    requires m.Machine? && At(i, stk, p, st, m) && |vs| == n && m.results == rs + Outs(vs)
    modifies stk.Repr
    ensures fresh(stk.Repr - old(stk.Repr))
    ensures At(i, stk, p, st, m.(results := rs))
    ensures o == f(vs)
  {
    hide At, Ready, Abs, Blame;
    ghost var w := m.w;
    var args: seq<Val> := [];
    var k := n;
    assert vs[..n] == vs;
    while k > 0
      invariant 0 <= k <= n && fresh(stk.Repr - old(stk.Repr))
      invariant At(i, stk, p, st, m.(results := rs + Outs(vs[..k]), w := w))
      invariant w == m.w && args == vs[k..]
    {
      ghost var m' := m.(results := rs + Outs(vs[..k]), w := w);
      assert vs[..k][..k-1] == vs[..k-1];
      var v := PopOutput(i, stk, p, st, m', rs, vs[..k]);
      args := [v] + args;
      k := k - 1;
    }
    assert rs + Outs([]) == rs;
    o := f(args);
  }

  method LeafResult(i: Input, p: Parser, ghost w: World) returns (r: Res)
    requires i.Valid() && IsLeaf(p) && w.cur == i.Here()
    modifies i
    ensures i.Valid() && i.Marks() == old(i.Marks()) && i.backtrack == old(i.backtrack)
    ensures LeafOutcome(i.text, p, i.backtrack, w) == Outcome(r, w.(cur := i.Here()))
  {
    if IsCharParser(p) {
      var ok, c := i.Character(p);
      return if ok then Out(Str([c])) else Er(ErrFail(i.state, "Incorrect Input"));
    }
    match p
    case Undefined => return Er(ErrFail(i.state, "Parser Undefined!"));
    case Pass => return Out(Null);
    case Fail(m) => return Er(ErrFail(i.state, m));
    case Lift(v) => return Out(v);
    case StateOf => return Out(Position(i.state));
    case Anchor(f) =>
      var c := i.Peekc();
      return if f(i.last, c) then Out(Null) else Er(ErrNew(i.state, "anchor"));
    case String(str) =>
      var ok := i.Literal(str);
      return if ok then Out(Str(str)) else Er(ErrFail(i.state, "Incorrect Input"));
  }

  method TurnLeaf(i: Input, stk: Stack, p: Parser, ghost m: Machine)
    requires m.Machine? && At(i, stk, p, 0, m) && IsLeaf(p)
    modifies i, stk.Repr
    ensures Ready(i, stk) && fresh(stk.Repr - old(stk.Repr))
    ensures var o := LeafOutcome(i.text, p, m.bt, m.w); Abs(i, stk) == Finish(m.(w := o.w), o.r)
  {
    var r := LeafResult(i, p, m.w);
    End(i, stk, r, p, 0, m.(w := m.w.(cur := i.Here())));
  }

  method StartUnary(g: Grammar, i: Input, stk: Stack, p: Parser, ghost m: Machine)
    requires m.Machine? && At(i, stk, p, 0, m) && IsUnary(p)
    modifies i, stk.Repr
    ensures Ready(i, stk) && fresh(stk.Repr - old(stk.Repr))
    ensures Abs(i, stk) == StepUnary(g, m, p, 0)
  {
    if p.Predict? {
      i.BacktrackDisable();
      Resume(g, i, stk, 1, p.x, p, 0, m.(bt := m.bt - 1));
    } else if p.Not? {
      MarkInput(i, stk, p, 0, m);
      Resume(g, i, stk, 1, p.x, p, 0, Mark(m));
    } else {
      Resume(g, i, stk, 1, p.x, p, 0, m);
    }
  }

  method EndPredict(i: Input, stk: Stack, p: Parser, ghost m: Machine)
    requires m.Machine? && At(i, stk, p, 1, m) && p.Predict?
    modifies i, stk.Repr
    ensures Ready(i, stk) && fresh(stk.Repr - old(stk.Repr))
    ensures Abs(i, stk) == m.(bt := m.bt + 1)
  {
    i.BacktrackEnable();
    var _, _ := stk.PopParser();
  }

  method EndNot(g: Grammar, i: Input, stk: Stack, p: Parser, ghost m: Machine)
    requires m.Machine? && At(i, stk, p, 1, m) && p.Not? && StepUnary(g, m, p, 1).Machine?
    modifies i, stk.Repr
    ensures Ready(i, stk) && fresh(stk.Repr - old(stk.Repr))
    ensures Abs(i, stk) == StepUnary(g, m, p, 1)
  {
    hide At, Ready, Abs, Blame;
    var r, success := Pop(i, stk, p, 1, m);
    ghost var m1 := m.(results := m.results[..|m.results|-1]);
    if success == 1 {
      RewindInput(i, stk, p, 1, m1);
      m1 := Rewind(m1);
      DestroyValue(i, stk, r.v, p.dx, p, 1, m1);
      DestroySameOne(m1.w, r.v, p.dx);
      AtState(i, stk, p, 1, m1.(w := DestroySame(m1.w, [r.v], p.dx)));
      End(i, stk, Er(ErrNew(i.state, "opposite")), p, 1, m1.(w := DestroySame(m1.w, [r.v], p.dx)));
    } else {
      MergeError(i, stk, r.e, p, 1, m1);
      m1 := m1.(w := Blame(m1.w, r.e));
      UnmarkInput(i, stk, p, 1, m1);
      End(i, stk, Out(p.lf), p, 1, Unmark(m1));
    }
  }

  method EndUnary(g: Grammar, i: Input, stk: Stack, p: Parser, ghost m: Machine)
    requires m.Machine? && At(i, stk, p, 1, m) && IsUnary(p) && !p.Not? && !p.Predict? && StepUnary(g, m, p, 1).Machine?
    modifies stk.Repr
    ensures Ready(i, stk) && fresh(stk.Repr - old(stk.Repr))
    ensures Abs(i, stk) == StepUnary(g, m, p, 1)
  {
    hide At, Ready, Abs, Blame;
    var r, success := Pop(i, stk, p, 1, m);
    ghost var m1 := m.(results := m.results[..|m.results|-1]);
    if success == 1 {
      if p.Apply? { r := Out(p.f(r.v)); }
      if p.ApplyTo? { r := Out(p.f2(r.v, p.d)); }
    } else if p.Expect? {
      AtState(i, stk, p, 1, m1);
      r := Er(ErrNew(i.state, p.expected));
    } else if p.Maybe? {
      MergeError(i, stk, r.e, p, 1, m1);
      m1 := m1.(w := Blame(m1.w, r.e));
      r := Out(p.lf);
    }
    End(i, stk, r, p, 1, m1);
  }

  method TurnUnary(g: Grammar, i: Input, stk: Stack, p: Parser, st: nat, ghost m: Machine)
    requires m.Machine? && At(i, stk, p, st, m) && IsUnary(p) && st <= 1 && StepUnary(g, m, p, st).Machine?
    modifies i, stk.Repr
    ensures Ready(i, stk) && fresh(stk.Repr - old(stk.Repr))
    ensures Abs(i, stk) == StepUnary(g, m, p, st)
  {
    if st == 0 { StartUnary(g, i, stk, p, m); }
    else if p.Predict? { EndPredict(i, stk, p, m); }
    else if p.Not? { EndNot(g, i, stk, p, m); }
    else { EndUnary(g, i, stk, p, m); }
  }

  lemma {:induction false} OutputsAreOuts(rs: seq<Res>)
    requires Outputs(rs).Some?
    ensures rs == Outs(Outputs(rs).value)
  {
    if rs != [] {
      OutputsAreOuts(rs[..|rs|-1]);
      assert rs == rs[..|rs|-1] + [rs[|rs|-1]];
    }
  }

  lemma {:induction false} ErrorsAreErs(rs: seq<Res>)
    requires Errors(rs).Some?
    ensures rs == Ers(Errors(rs).value)
  {
    if rs != [] {
      ErrorsAreErs(rs[..|rs|-1]);
      assert rs == rs[..|rs|-1] + [rs[|rs|-1]];
    }
  }

  lemma TopOutputsAre(rs: seq<Res>, n: nat) returns (below: seq<Res>, vs: seq<Val>)
    requires TopOutputs(rs, n).Some?
    ensures n <= |rs| && below == rs[..|rs|-n] && TopOutputs(rs, n) == Some(vs) && |vs| == n && rs == below + Outs(vs)
  {
    below, vs := rs[..|rs|-n], TopOutputs(rs, n).value;
    OutputsAreOuts(rs[|rs|-n..]);
    assert rs == below + rs[|rs|-n..];
  }

  lemma TopErrorsAre(rs: seq<Res>, n: nat) returns (below: seq<Res>, es: seq<Err>)
    requires TopErrors(rs, n).Some?
    ensures n <= |rs| && below == rs[..|rs|-n] && TopErrors(rs, n) == Some(es) && |es| == n && rs == below + Ers(es)
  {
    below, es := rs[..|rs|-n], TopErrors(rs, n).value;
    ErrorsAreErs(rs[|rs|-n..]);
    assert rs == below + rs[|rs|-n..];
  }

  /** Ends the top parser with the fold of the top n outputs. */
  method EndFolding(i: Input, stk: Stack, n: nat, f: Fold, ghost p: Parser, ghost st: nat, ghost m: Machine)
    requires m.Machine? && At(i, stk, p, st, m) && FoldTop(m, n, f).Machine?
    modifies stk.Repr
    ensures Ready(i, stk) && fresh(stk.Repr - old(stk.Repr))
    ensures Abs(i, stk) == FoldTop(m, n, f)
  {
    hide At, Ready, Abs, TopOutputs;
    ghost var rs, vs := TopOutputsAre(m.results, n);
    var v := MergeOutputs(i, stk, n, f, p, st, m, rs, vs);
    End(i, stk, Out(v), p, st, m.(results := rs));
  }

  method PeekTop(i: Input, stk: Stack, ghost p: Parser, ghost st: nat, ghost m: Machine) returns (r: Res, success: int)
    requires m.Machine? && At(i, stk, p, st, m) && m.results != []
    ensures r == m.results[|m.results|-1] && success == if r.Out? then 1 else 0
    ensures At(i, stk, p, st, m)
  {
    r, success := stk.PeekResult();
  }

  method StartRepeat(g: Grammar, i: Input, stk: Stack, p: Parser, ghost m: Machine)
    requires m.Machine? && At(i, stk, p, 0, m) && IsRepeat(p)
    modifies i, stk.Repr
    ensures Ready(i, stk) && fresh(stk.Repr - old(stk.Repr))
    ensures Abs(i, stk) == StepRepeat(g, m, p, 0)
  {
    hide At, Ready, Abs;
    if p.Count? {
      MarkInput(i, stk, p, 0, m);
      Resume(g, i, stk, 1, p.x, p, 0, Mark(m));
    } else {
      Resume(g, i, stk, 1, p.x, p, 0, m);
    }
  }

  method EndMany(g: Grammar, i: Input, stk: Stack, p: Parser, st: nat, ghost m: Machine)
    requires m.Machine? && At(i, stk, p, st, m) && (p.Many? || p.Many1?) && st > 0
    requires m.results != [] && m.results[|m.results|-1].Er? && StepRepeat(g, m, p, st).Machine?
    modifies i, stk.Repr
    ensures Ready(i, stk) && fresh(stk.Repr - old(stk.Repr))
    ensures Abs(i, stk) == StepRepeat(g, m, p, st)
  {
    hide At, Ready, Abs, FoldTop, Blame;
    var r, _ := Pop(i, stk, p, st, m);
    ghost var m1 := m.(results := m.results[..|m.results|-1]);
    if p.Many1? && st == 1 {
      End(i, stk, Er(ErrMany1(r.e)), p, st, m1);
    } else {
      MergeError(i, stk, r.e, p, st, m1);
      EndFolding(i, stk, st - 1, p.fold, p, st, m1.(w := Blame(m.w, r.e)));
    }
  }

  method EndCountShort(g: Grammar, i: Input, stk: Stack, p: Parser, st: nat, ghost m: Machine)
    requires m.Machine? && At(i, stk, p, st, m) && p.Count? && st > 0 && st != p.n + 1
    requires m.results != [] && m.results[|m.results|-1].Er? && StepRepeat(g, m, p, st).Machine?
    modifies i, stk.Repr
    ensures Ready(i, stk) && fresh(stk.Repr - old(stk.Repr))
    ensures Abs(i, stk) == StepRepeat(g, m, p, st)
  {
    hide At, Ready, Abs, FoldTop, Blame, TopOutputs, DestroySame, ErrCount;
    var r, _ := Pop(i, stk, p, st, m);
    ghost var m1 := m.(results := m.results[..|m.results|-1]);
    ghost var rs, vs := TopOutputsAre(m1.results, st - 1);
    PopOutputsSingle(i, stk, st - 1, p.dx, p, st, m1, rs, vs);
    ghost var m2 := DropSame(m1, st - 1, p.dx);
    RewindInput(i, stk, p, st, m2);
    End(i, stk, Er(ErrCount(r.e, p.n)), p, st, Rewind(m2));
  }

  method EndCount(g: Grammar, i: Input, stk: Stack, p: Parser, st: nat, ghost m: Machine)
    requires m.Machine? && At(i, stk, p, st, m) && p.Count? && st > 0
    requires m.results != [] && m.results[|m.results|-1].Er? && StepRepeat(g, m, p, st).Machine?
    modifies i, stk.Repr
    ensures Ready(i, stk) && fresh(stk.Repr - old(stk.Repr))
    ensures Abs(i, stk) == StepRepeat(g, m, p, st)
  {
    hide At, Ready, Abs, TopOutputs, Blame, DestroySame;
    if st != p.n + 1 {
      EndCountShort(g, i, stk, p, st, m);
    } else {
      var r, _ := Pop(i, stk, p, st, m);
      ghost var m1 := m.(results := m.results[..|m.results|-1]);
      MergeError(i, stk, r.e, p, st, m1);
      ghost var m2 := m1.(w := Blame(m.w, r.e));
      UnmarkInput(i, stk, p, st, m2);
      EndFolding(i, stk, st - 1, p.fold, p, st, Unmark(m2));
    }
  }

  method TurnRepeat(g: Grammar, i: Input, stk: Stack, p: Parser, st: nat, ghost m: Machine)
    requires m.Machine? && At(i, stk, p, st, m) && IsRepeat(p) && StepRepeat(g, m, p, st).Machine?
    modifies i, stk.Repr
    ensures Ready(i, stk) && fresh(stk.Repr - old(stk.Repr))
    ensures Abs(i, stk) == StepRepeat(g, m, p, st)
  {
    hide At, Ready, Abs, FoldTop, DropSame;
    if st == 0 {
      StartRepeat(g, i, stk, p, m);
    } else {
      var r, success := PeekTop(i, stk, p, st, m);
      if success == 1 { Resume(g, i, stk, st + 1, p.x, p, st, m); }
      else if p.Count? { EndCount(g, i, stk, p, st, m); }
      else { EndMany(g, i, stk, p, st, m); }
    }
  }

  method EndOr(g: Grammar, i: Input, stk: Stack, p: Parser, st: nat, ghost m: Machine)
    requires m.Machine? && At(i, stk, p, st, m) && p.Or? && 0 < st <= |p.xs|
    requires m.results != [] && m.results[|m.results|-1].Out? && StepOr(g, m, p, st).Machine?
    modifies i, stk.Repr
    ensures Ready(i, stk) && fresh(stk.Repr - old(stk.Repr))
    ensures Abs(i, stk) == StepOr(g, m, p, st)
  {
    hide At, Ready, Abs, TopErrors, BlameAll, ErrOr, Ers;
    var r, _ := Pop(i, stk, p, st, m);
    ghost var m1 := m.(results := m.results[..|m.results|-1]);
    ghost var rs, es := TopErrorsAre(m1.results, st - 1);
    PopErrors(i, stk, st - 1, p, st, m1, rs, es);
    End(i, stk, r, p, st, m1.(results := rs, w := BlameAll(m.w, es)));
  }

  method EndOrFailed(g: Grammar, i: Input, stk: Stack, p: Parser, ghost m: Machine)
    requires m.Machine? && p.Or? && p.xs != [] && At(i, stk, p, |p.xs|, m)
    requires m.results != [] && m.results[|m.results|-1].Er? && StepOr(g, m, p, |p.xs|).Machine?
    modifies i, stk.Repr
    ensures Ready(i, stk) && fresh(stk.Repr - old(stk.Repr))
    ensures Abs(i, stk) == StepOr(g, m, p, |p.xs|)
  {
    hide At, Ready, Abs, TopErrors, BlameAll, ErrOr, Ers;
    ghost var rs, es := TopErrorsAre(m.results, |p.xs|);
    var e := CombineErrors(i, stk, |p.xs|, p, |p.xs|, m, rs, es);
    End(i, stk, Er(e), p, |p.xs|, m.(results := rs));
  }

  method TurnOr(g: Grammar, i: Input, stk: Stack, p: Parser, st: nat, ghost m: Machine)
    requires m.Machine? && At(i, stk, p, st, m) && p.Or? && StepOr(g, m, p, st).Machine?
    modifies i, stk.Repr
    ensures Ready(i, stk) && fresh(stk.Repr - old(stk.Repr))
    ensures Abs(i, stk) == StepOr(g, m, p, st)
  {
    hide At, Ready, Abs, TopErrors, BlameAll, ErrOr;
    if |p.xs| == 0 { End(i, stk, Out(Null), p, st, m); return; }
    if st == 0 { Resume(g, i, stk, 1, p.xs[0], p, st, m); return; }
    var r, success := PeekTop(i, stk, p, st, m);
    if success == 1 { EndOr(g, i, stk, p, st, m); }
    else if st < |p.xs| { Resume(g, i, stk, st + 1, p.xs[st], p, st, m); }
    else { EndOrFailed(g, i, stk, p, m); }
  }

  /** Pops the top n errors and merges them into one, the oldest first. */
  method CombineErrors(i: Input, stk: Stack, n: nat, ghost p: Parser, ghost st: nat, ghost m: Machine,
          ghost rs: seq<Res>, ghost es: seq<Err>)
    returns (e: Err)
    requires m.Machine? && At(i, stk, p, st, m) && |es| == n && m.results == rs + Ers(es)
    modifies stk.Repr
    ensures fresh(stk.Repr - old(stk.Repr))
    ensures e == ErrOr(es) && At(i, stk, p, st, m.(results := rs))
  {
    hide At, Ready, Abs, ErrOr, Ers;
    var errs: seq<Err> := [];
    var k := n;
    assert es[..n] == es;
    while k > 0
      invariant 0 <= k <= n && fresh(stk.Repr - old(stk.Repr))
      invariant At(i, stk, p, st, m.(results := rs + Ers(es[..k])))
      invariant errs == es[k..]
    {
      assert es[..k][..k-1] == es[..k-1];
      var e := PopError(i, stk, p, st, m.(results := rs + Ers(es[..k])), rs, es[..k]);
      errs := [e] + errs;
      k := k - 1;
    }
    assert rs + Ers([]) == rs;
    e := MergeErrors(errs);
  }

  method EndAndFailed(g: Grammar, i: Input, stk: Stack, p: Parser, st: nat, ghost m: Machine)
    requires m.Machine? && At(i, stk, p, st, m) && p.And? && 0 < st <= |p.xs|
    requires m.results != [] && m.results[|m.results|-1].Er? && StepAnd(g, m, p, st).Machine?
    modifies i, stk.Repr
    ensures Ready(i, stk) && fresh(stk.Repr - old(stk.Repr))
    ensures Abs(i, stk) == StepAnd(g, m, p, st)
  {
    hide At, Ready, Abs, FoldTop, TopOutputs, Destroy, Outs;
    RewindInput(i, stk, p, st, m);
    ghost var m1 := Rewind(m);
    var r, _ := Pop(i, stk, p, st, m1);
    ghost var m2 := m1.(results := m1.results[..|m1.results|-1]);
    ghost var rs, vs := TopOutputsAre(m2.results, st - 1);
    PopOutputs(i, stk, st - 1, p.dxs, p, st, m2, rs, vs);
    End(i, stk, r, p, st, Drop(m2, st - 1, p.dxs));
  }

  method EndAnd(g: Grammar, i: Input, stk: Stack, p: Parser, ghost m: Machine)
    requires m.Machine? && p.And? && p.xs != [] && At(i, stk, p, |p.xs|, m)
    requires m.results != [] && m.results[|m.results|-1].Out? && StepAnd(g, m, p, |p.xs|).Machine?
    modifies i, stk.Repr
    ensures Ready(i, stk) && fresh(stk.Repr - old(stk.Repr))
    ensures Abs(i, stk) == StepAnd(g, m, p, |p.xs|)
  {
    hide At, Ready, Abs, TopOutputs;
    UnmarkInput(i, stk, p, |p.xs|, m);
    EndFolding(i, stk, |p.xs|, p.fold, p, |p.xs|, Unmark(m));
  }

  method TurnAnd(g: Grammar, i: Input, stk: Stack, p: Parser, st: nat, ghost m: Machine)
    requires m.Machine? && At(i, stk, p, st, m) && p.And? && StepAnd(g, m, p, st).Machine?
    modifies i, stk.Repr
    ensures Ready(i, stk) && fresh(stk.Repr - old(stk.Repr))
    ensures Abs(i, stk) == StepAnd(g, m, p, st)
  {
    hide At, Ready, Abs, FoldTop, Drop;
    if |p.xs| == 0 { End(i, stk, Out(p.fold([])), p, st, m); return; }
    if st == 0 {
      MarkInput(i, stk, p, st, m);
      Resume(g, i, stk, 1, p.xs[0], p, st, Mark(m));
      return;
    }
    var r, success := PeekTop(i, stk, p, st, m);
    if success == 0 { EndAndFailed(g, i, stk, p, st, m); }
    else if st < |p.xs| { Resume(g, i, stk, st + 1, p.xs[st], p, st, m); }
    else { EndAnd(g, i, stk, p, m); }
  }

  /** One turn of the loop. */
  method Turn(g: Grammar, i: Input, stk: Stack)
    requires Ready(i, stk) && stk.Frames() != [] && Disciplined(Abs(i, stk))
    modifies i, stk.Repr
    ensures Ready(i, stk) && fresh(stk.Repr - old(stk.Repr))
    ensures Abs(i, stk) == Step(g, i.text, old(Abs(i, stk)))
  {
    hide LeafOutcome, StepUnary, StepRepeat, StepOr, StepAnd, Waiting;
    ghost var a, m := Abs(i, stk), Lower(i, stk);
    var p, st := stk.PeekParser();
    StepDiffersFromWrong(g, i.text, a);
    assert Step(g, i.text, a) == StepTop(g, i.text, m, p, st);
    if IsUnary(p) { TurnUnary(g, i, stk, p, st, m); }
    else if IsRepeat(p) { TurnRepeat(g, i, stk, p, st, m); }
    else if p.Or? { TurnOr(g, i, stk, p, st, m); }
    else if p.And? { TurnAnd(g, i, stk, p, st, m); }
    else { TurnLeaf(i, stk, p, m); }
  }

  lemma StepDiffersFromWrong(g: Grammar, txt: string, a: Machine)
    requires Disciplined(a) && a.frames != []
    ensures Step(g, txt, a).Machine?
  {
    hide *;
    LoopSteps(g, txt);
    StepKeepsDiscipline(g, txt, Loop(g, txt), a);
  }

  /** What a parse that ended with outcome o returns: its output, or its error merged into the
      error of the whole parse. */
  function Returned(o: Outcome): Res {
    if o.r.Out? then o.r else Er(ErrOr([o.w.err, o.r.e]))
  }

  lemma OneTurnLess(g: Grammar, txt: string, n: nat, m: Machine, end: Machine)
    requires Reaches(Loop(g, txt), 0, n, m, end) && m.Machine? && m.frames != [] && end.Machine? && end.frames == []
    ensures n > 0 && Reaches(Loop(g, txt), 0, n - 1, Step(g, txt, m), end)
  {
    hide Step;
  }

  /** Runs a parser on an input until no parser is left. For a parser whose meaning is defined at
      the input the loop terminates; it returns exactly that meaning, leaves the input where it
      ends, and calls the destructors of that meaning in its order. */
  method ParseInput(g: Grammar, i: Input, init: Parser) returns (success: bool, r: Res, log: seq<Destroyed>)
    requires i.Valid() && i.Marks() == [] && i.backtrack == 1
    requires Terminates(g, i.text, Resolve(g, init), 1, World(i.Here(), UNKNOWN_ERROR, []))
    modifies i
    ensures i.Valid() && i.Marks() == [] && i.backtrack == 1
    ensures var o := old(Meaning(g, i.text, Resolve(g, init), 1, World(i.Here(), UNKNOWN_ERROR, [])));
            success == o.r.Out? && r == Returned(o) && log == o.w.log && i.Here() == o.w.cur
  {
    hide Step, Disciplined, Eval;
    var p := Resolve(g, init);
    ghost var w := World(i.Here(), UNKNOWN_ERROR, []);
    ghost var o := Meaning(g, i.text, p, 1, w);
    ghost var end := Machine([], [o.r], [], 1, o.w);
    ghost var turns := RunEnds(g, i.text, p, w);
    var stk := new Stack();
    stk.PushParser(p);
    assert Abs(i, stk) == Initial(p, w);
    InitialIsDisciplined(p, w);
    while stk.parsers.num > 0
      invariant Ready(i, stk) && fresh(stk.Repr) && Disciplined(Abs(i, stk))
      invariant Reaches(Loop(g, i.text), 0, turns, Abs(i, stk), end)
      decreases turns
    {
      OneTurnLess(g, i.text, turns, Abs(i, stk), end);
      KeepsDiscipline(g, i.text, Abs(i, stk));
      Turn(g, i, stk);
      turns := turns - 1;
    }
    success, r := Conclude(i, stk, o);
    log := stk.log;
  }

  /** The output, or the error merged into the error of the whole parse. */
  method Conclude(i: Input, stk: Stack, ghost o: Outcome) returns (success: bool, r: Res)
    requires Ready(i, stk) && Abs(i, stk) == Machine([], [o.r], [], 1, o.w)
    ensures success == o.r.Out? && r == Returned(o)
    ensures i.Marks() == [] && i.backtrack == 1 && i.Here() == o.w.cur && stk.log == o.w.log
  {
    var last, ret := stk.PeekResult();
    if ret == 1 {
      return true, last;
    }
    var err := MergeErrors([stk.err, last.e]);
    return false, Er(err);
  }

  lemma KeepsDiscipline(g: Grammar, txt: string, a: Machine)
    requires Disciplined(a) && a.Machine? && a.frames != []
    ensures Disciplined(Step(g, txt, a))
  {
    LoopSteps(g, txt);
    StepKeepsDiscipline(g, txt, Loop(g, txt), a);
    hide Disciplined;
  }

  /** Parses a string from its start. */
  method Parse(g: Grammar, text: string, p: Parser) returns (success: bool, r: Res)
    requires Terminates(g, text, Resolve(g, p), 1, World(START, UNKNOWN_ERROR, []))
    ensures var o := Meaning(g, text, Resolve(g, p), 1, World(START, UNKNOWN_ERROR, []));
            success == o.r.Out? && r == Returned(o)
  {
    var i := new Input(text);
    var log;
    success, r, log := ParseInput(g, i, p);
  }
}

// The parsing loop as an abstract machine: a stack of parsers with their states, a stack of
// results, a stack of input marks, and the backtracking counter.
module MpcMachine {
  import opened MpcTypes
  import opened Options
  import opened MpcErrors
  import opened MpcInput
  import opened MpcBigStep

  /** A parser on the stack and how often it has been resumed. */
  datatype Frame = Frame(p: Parser, st: nat)

  /** Wrong is where the machine would underflow a stack or read an output as an error. */
  datatype Machine =
    | Machine(frames: seq<Frame>, results: seq<Res>, marks: seq<Cursor>, bt: int, w: World)
    | Wrong

  /** The start of a parse. */
  function Initial(p: Parser, w: World): Machine { Machine([Frame(p, 0)], [], [], 1, w) }

  function Mark(m: Machine): Machine
    requires m.Machine?
  {
    if m.bt < 1 then m else m.(marks := m.marks + [m.w.cur])
  }

  function Unmark(m: Machine): Machine
    requires m.Machine?
  {
    if m.bt < 1 then m
    else if m.marks == [] then Wrong
    else m.(marks := m.marks[..|m.marks|-1])
  }

  function Rewind(m: Machine): Machine
    requires m.Machine?
  {
    if m.bt < 1 then m
    else if m.marks == [] then Wrong
    else m.(marks := m.marks[..|m.marks|-1], w := m.w.(cur := m.marks[|m.marks|-1]))
  }

  /** The outputs on top of the result stack, oldest first; None if they are not all outputs. */
  function Outputs(rs: seq<Res>): (vs: Option<seq<Val>>)
    ensures vs.Some? ==> |vs.value| == |rs|
  {
    if rs == [] then Some([])
    else
      var vs := Outputs(rs[..|rs|-1]);
      if vs.Some? && rs[|rs|-1].Out? then Some(vs.value + [rs[|rs|-1].v]) else None
  }

  function Errors(rs: seq<Res>): (es: Option<seq<Err>>)
    ensures es.Some? ==> |es.value| == |rs|
  {
    if rs == [] then Some([])
    else
      var es := Errors(rs[..|rs|-1]);
      if es.Some? && rs[|rs|-1].Er? then Some(es.value + [rs[|rs|-1].e]) else None
  }

  /** The top n outputs, or None on underflow or a wrong tag. */
  function TopOutputs(rs: seq<Res>, n: nat): Option<seq<Val>> {
    if n > |rs| then None else Outputs(rs[|rs|-n..])
  }

  function TopErrors(rs: seq<Res>, n: nat): Option<seq<Err>> {
    if n > |rs| then None else Errors(rs[|rs|-n..])
  }

  /** Leaves the top parser at state st and starts x above it. m holds the frames below. */
  function Continue(g: Grammar, m: Machine, p: Parser, st: nat, x: Parser): Machine
    requires m.Machine?
  {
    m.(frames := m.frames + [Frame(p, st), Frame(Resolve(g, x), 0)])
  }

  /** Finishes the top parser with result r. */
  function Finish(m: Machine, r: Res): Machine {
    if m.Wrong? then Wrong else m.(results := m.results + [r])
  }

  /** Finishes the top parser, folding the top n outputs. */
  function FoldTop(m: Machine, n: nat, f: Fold): Machine {
    if m.Wrong? then Wrong
    else
      match TopOutputs(m.results, n)
      case None => Wrong
      case Some(vs) => Finish(m.(results := m.results[..|m.results|-n]), Out(f(vs)))
  }

  /** Destroys the top n outputs, all with one destructor. */
  function DropSame(m: Machine, n: nat, dx: Dtor): Machine
    requires m.Machine?
  {
    match TopOutputs(m.results, n)
    case None => Wrong
    case Some(vs) => m.(results := m.results[..|m.results|-n], w := DestroySame(m.w, vs, dx))
  }

  /** Destroys the top n outputs, each with its own destructor. */
  function Drop(m: Machine, n: nat, dxs: seq<Dtor>): Machine
    requires m.Machine?
  {
    match TopOutputs(m.results, n)
    case None => Wrong
    case Some(vs) => m.(results := m.results[..|m.results|-n], w := Destroy(m.w, vs, dxs))
  }

  /** One turn of the loop for the top parser p at state st; m holds the frames below it. */
  function StepTop(g: Grammar, txt: string, m: Machine, p: Parser, st: nat): Machine
    requires m.Machine?
  {
    if IsLeaf(p) then
      var o := LeafOutcome(txt, p, m.bt, m.w);
      Finish(m.(w := o.w), o.r)
    else if IsUnary(p) then StepUnary(g, m, p, st)
    else if IsRepeat(p) then StepRepeat(g, m, p, st)
    else if p.Or? then StepOr(g, m, p, st)
    else if p.And? then StepAnd(g, m, p, st)
    else Wrong
  }

  function StepUnary(g: Grammar, m: Machine, p: Parser, st: nat): Machine
    requires m.Machine? && IsUnary(p)
  {
    if st == 0 then
      if p.Predict? then Continue(g, m.(bt := m.bt - 1), p, 1, p.x)
      else Continue(g, if p.Not? then Mark(m) else m, p, 1, p.x)
    else if m.results == [] then Wrong
    else
      var r := m.results[|m.results|-1];
      var m1 := m.(results := m.results[..|m.results|-1]);
      match p
      case Expect(_, e) =>
        if r.Out? then Finish(m1, r) else Finish(m1, Er(ErrNew(m.w.cur.state, e)))
      case Apply(_, f) =>
        if r.Out? then Finish(m1, Out(f(r.v))) else Finish(m1, r)
      case ApplyTo(_, f, d) =>
        if r.Out? then Finish(m1, Out(f(r.v, d))) else Finish(m1, r)
      case Predict(_) => m.(bt := m.bt + 1)
      case Not(_, dx, v) =>
        if r.Out? then
          var m2 := Rewind(m1);
          if m2.Wrong? then Wrong
          else Finish(m2.(w := DestroySame(m2.w, [r.v], dx)), Er(ErrNew(m2.w.cur.state, "opposite")))
        else Finish(Unmark(m1.(w := Blame(m.w, r.e))), Out(v))
      case Maybe(_, v) =>
        if r.Out? then Finish(m1, r) else Finish(m1.(w := Blame(m.w, r.e)), Out(v))
  }

  function StepRepeat(g: Grammar, m: Machine, p: Parser, st: nat): Machine
    requires m.Machine? && IsRepeat(p)
  {
    if st == 0 then Continue(g, if p.Count? then Mark(m) else m, p, 1, p.x)
    else if m.results == [] then Wrong
    else
      var r := m.results[|m.results|-1];
      var m1 := m.(results := m.results[..|m.results|-1]);
      if r.Out? then Continue(g, m, p, st + 1, p.x)
      else
        match p
        case Many(_, f) => FoldTop(m1.(w := Blame(m.w, r.e)), st - 1, f)
        case Many1(_, f) =>
          if st == 1 then Finish(m1, Er(ErrMany1(r.e)))
          else FoldTop(m1.(w := Blame(m.w, r.e)), st - 1, f)
        case Count(n, _, f, dx) =>
          if st != n + 1 then
            var m2 := DropSame(m1, st - 1, dx);
            if m2.Wrong? then Wrong else Finish(Rewind(m2), Er(ErrCount(r.e, n)))
          else FoldTop(Unmark(m1.(w := Blame(m.w, r.e))), st - 1, f)
  }

  function StepOr(g: Grammar, m: Machine, p: Parser, st: nat): Machine
    requires m.Machine? && p.Or?
  {
    var n := |p.xs|;
    if n == 0 then Finish(m, Out(Null))
    else if st == 0 then Continue(g, m, p, 1, p.xs[0])
    else if m.results == [] || st > n then Wrong
    else
      var r := m.results[|m.results|-1];
      var m1 := m.(results := m.results[..|m.results|-1]);
      if r.Out? then
        match TopErrors(m1.results, st - 1)
        case None => Wrong
        case Some(es) => Finish(m1.(results := m1.results[..|m1.results|-(st - 1)], w := BlameAll(m.w, es)), r)
      else if st < n then Continue(g, m, p, st + 1, p.xs[st])
      else
        match TopErrors(m.results, n)
        case None => Wrong
        case Some(es) => Finish(m.(results := m.results[..|m.results|-n]), Er(ErrOr(es)))
  }

  function StepAnd(g: Grammar, m: Machine, p: Parser, st: nat): Machine
    requires m.Machine? && p.And?
  {
    var n := |p.xs|;
    if n == 0 then Finish(m, Out(p.fold([])))
    else if st == 0 then Continue(g, Mark(m), p, 1, p.xs[0])
    else if m.results == [] || st > n then Wrong
    else
      var r := m.results[|m.results|-1];
      if r.Er? then
        var m1 := Rewind(m);
        if m1.Wrong? then Wrong
        else Finish(Drop(m1.(results := m1.results[..|m1.results|-1]), st - 1, p.dxs), r)
      else if st < n then Continue(g, m, p, st + 1, p.xs[st])
      else FoldTop(Unmark(m), n, p.fold)
  }

  /** One turn of the loop; the machine has halted when no parser is left. */
  function Step(g: Grammar, txt: string, m: Machine): Machine {
    if m.Wrong? || m.frames == [] then m
    else
      var top := m.frames[|m.frames|-1];
      StepTop(g, txt, m.(frames := m.frames[..|m.frames|-1]), top.p, top.st)
  }

  function Run(g: Grammar, txt: string, n: nat, m: Machine): Machine
    decreases n
  {
    if n == 0 then m else Run(g, txt, n - 1, Step(g, txt, m))
  }
}

// The recursive meaning of a parser: what running it on an input yields.
module MpcBigStep {
  import opened MpcTypes
  import opened Options
  import opened MpcErrors
  import opened MpcInput

  /** Where a repetition stopped: the outputs so far, the error of the last attempt. */
  datatype Stop = Stop(vs: seq<Val>, e: Err, w: World)

  /** How far a sequence came: all outputs, or the outputs before the first error. */
  datatype Seq = Done(vs: seq<Val>, w: World) | Broken(vs: seq<Val>, e: Err, w: World)

  /** Merges an abandoned error into the error of the parse. */
  function Blame(w: World, e: Err): World { w.(err := ErrOr([w.err, e])) }

  /** Merges the errors of a list, the newest first. */
  function BlameAll(w: World, es: seq<Err>): World
    decreases |es|
  {
    if es == [] then w else BlameAll(Blame(w, es[|es|-1]), es[..|es|-1])
  }

  function DtorAt(dxs: seq<Dtor>, i: nat): Dtor { if i < |dxs| then dxs[i] else 0 }

  /** Destroys outputs, the newest first, each with its own destructor. */
  function Destroy(w: World, vs: seq<Val>, dxs: seq<Dtor>): World
    decreases |vs|
  {
    if vs == [] then w
    else
      var i := |vs| - 1;
      Destroy(w.(log := w.log + [Destroyed(DtorAt(dxs, i), vs[i])]), vs[..i], dxs)
  }

  /** Destroys outputs, the newest first, all with one destructor. */
  function DestroySame(w: World, vs: seq<Val>, dx: Dtor): World
    decreases |vs|
  {
    if vs == [] then w
    else DestroySame(w.(log := w.log + [Destroyed(dx, vs[|vs|-1])]), vs[..|vs|-1], dx)
  }

  lemma DestroySameOne(w: World, v: Val, dx: Dtor)
    ensures DestroySame(w, [v], dx) == w.(log := w.log + [Destroyed(dx, v)])
  {
    var w' := w.(log := w.log + [Destroyed(dx, v)]);
    assert DestroySame(w', [v][..0], dx) == w';
  }

  function Rewound(bt: int, mark: World, w: World): World { w.(cur := Back(bt, mark.cur, w.cur)) }

  /** Parsers that run one other parser, once. */
  predicate IsUnary(p: Parser) {
    p.Expect? || p.Apply? || p.ApplyTo? || p.Predict? || p.Not? || p.Maybe?
  }

  /** Parsers that run one other parser until it fails. */
  predicate IsRepeat(p: Parser) { p.Many? || p.Many1? || p.Count? }

  /** The outcome of a unary parser, started at w, from the outcome of the parser it runs. */
  function AfterUnary(p: Parser, bt: int, w: World, o: Outcome): Outcome
    requires IsUnary(p)
  {
    var Outcome(r, w1) := o;
    match p
    case Expect(_, m) => if r.Out? then o else Outcome(Er(ErrNew(w1.cur.state, m)), w1)
    case Apply(_, f) => if r.Out? then Outcome(Out(f(r.v)), w1) else o
    case ApplyTo(_, f, d) => if r.Out? then Outcome(Out(f(r.v, d)), w1) else o
    case Predict(_) => o
    case Not(_, dx, v) =>
      if r.Out? then
        var w2 := Rewound(bt, w, w1);
        Outcome(Er(ErrNew(w2.cur.state, "opposite")), DestroySame(w2, [r.v], dx))
      else Outcome(Out(v), Blame(w1, r.e))
    case Maybe(_, v) => if r.Out? then o else Outcome(Out(v), Blame(w1, r.e))
  }

  /** The outcome of a repeating parser, started at w, from where the repetition stopped. */
  function AfterRepeat(p: Parser, bt: int, w: World, s: Stop): Outcome
    requires IsRepeat(p)
  {
    var Stop(vs, e, w1) := s;
    match p
    case Many(_, f) => Outcome(Out(f(vs)), Blame(w1, e))
    case Many1(_, f) =>
      if vs == [] then Outcome(Er(ErrMany1(e)), w1) else Outcome(Out(f(vs)), Blame(w1, e))
    case Count(n, _, f, dx) =>
      if |vs| != n then Outcome(Er(ErrCount(e, n)), Rewound(bt, w, DestroySame(w1, vs, dx)))
      else Outcome(Out(f(vs)), Blame(w1, e))
  }

  /** The outcome of a sequence, started at w, from how far it came. */
  function AfterAnd(p: Parser, bt: int, w: World, s: Seq): Outcome
    requires p.And?
  {
    match s
    case Done(vs, w1) => Outcome(Out(p.fold(vs)), w1)
    case Broken(vs, e, w1) => Outcome(Er(e), Destroy(Rewound(bt, w, w1), vs, p.dxs))
  }

  function Inner(p: Parser, bt: int): int { if p.Predict? then bt - 1 else bt }

  /** The outcome of parser p, or None when k levels of recursion do not suffice to find it.
      Backtracking is enabled when bt is positive. */
  function Eval(g: Grammar, txt: string, k: nat, p: Parser, bt: int, w: World): Option<Outcome>
    requires !p.Ref?
    decreases k, 0
  {
    if k == 0 then None
    else if IsLeaf(p) then Some(LeafOutcome(txt, p, bt, w))
    else if IsUnary(p) then
      var o := Eval(g, txt, k - 1, Resolve(g, p.x), Inner(p, bt), w);
      if o.None? then None else Some(AfterUnary(p, bt, w, o.value))
    else if IsRepeat(p) then
      var s := EvalMany(g, txt, k - 1, p.x, bt, w, []);
      if s.None? then None else Some(AfterRepeat(p, bt, w, s.value))
    else if p.Or? then
      if p.xs == [] then Some(Outcome(Out(Null), w)) else EvalOr(g, txt, k - 1, p.xs, bt, w, [])
    else if p.xs == [] then Some(Outcome(Out(p.fold([])), w))
    else
      var s := EvalAnd(g, txt, k - 1, p.xs, bt, w, []);
      if s.None? then None else Some(AfterAnd(p, bt, w, s.value))
  }

  /** Runs x until it fails; vs are the outputs so far. */
  function EvalMany(g: Grammar, txt: string, k: nat, x: Parser, bt: int, w: World, vs: seq<Val>): Option<Stop>
    decreases k, 1
  {
    match Eval(g, txt, k, Resolve(g, x), bt, w)
    case None => None
    case Some(Outcome(Out(v), w1)) => EvalMany(g, txt, k - 1, x, bt, w1, vs + [v])
    case Some(Outcome(Er(e), w1)) => Some(Stop(vs, e, w1))
  }

  /** Runs the alternatives in turn until one succeeds; es are the errors so far. */
  function EvalOr(g: Grammar, txt: string, k: nat, xs: seq<Parser>, bt: int, w: World, es: seq<Err>): Option<Outcome>
    requires |es| < |xs|
    decreases k, 1
  {
    match Eval(g, txt, k, Resolve(g, xs[|es|]), bt, w)
    case None => None
    case Some(Outcome(Out(v), w1)) => Some(Outcome(Out(v), BlameAll(w1, es)))
    case Some(Outcome(Er(e), w1)) =>
        if |es| + 1 == |xs| then Some(Outcome(Er(ErrOr(es + [e])), w1))
        else EvalOr(g, txt, k - 1, xs, bt, w1, es + [e])
  }

  /** Runs the parsers in turn until one fails; vs are the outputs so far. */
  function EvalAnd(g: Grammar, txt: string, k: nat, xs: seq<Parser>, bt: int, w: World, vs: seq<Val>): Option<Seq>
    requires |vs| < |xs|
    decreases k, 1
  {
    match Eval(g, txt, k, Resolve(g, xs[|vs|]), bt, w)
    case None => None
    case Some(Outcome(Er(e), w1)) => Some(Broken(vs, e, w1))
    case Some(Outcome(Out(v), w1)) =>
        if |vs| + 1 == |xs| then Some(Done(vs + [v], w1))
        else EvalAnd(g, txt, k - 1, xs, bt, w1, vs + [v])
  }

  lemma UnaryEval(g: Grammar, txt: string, k: nat, p: Parser, bt: int, w: World)
    requires IsUnary(p)
    ensures Eval(g, txt, k, p, bt, w).Some? <==> k > 0 && Eval(g, txt, k - 1, Resolve(g, p.x), Inner(p, bt), w).Some?
    ensures Eval(g, txt, k, p, bt, w).Some? ==>
      Eval(g, txt, k, p, bt, w).value == AfterUnary(p, bt, w, Eval(g, txt, k - 1, Resolve(g, p.x), Inner(p, bt), w).value)
  {
    hide LeafOutcome, AfterUnary, AfterRepeat, AfterAnd;
  }

  lemma RepeatEval(g: Grammar, txt: string, k: nat, p: Parser, bt: int, w: World)
    requires IsRepeat(p)
    ensures Eval(g, txt, k, p, bt, w).Some? <==> k > 0 && EvalMany(g, txt, k - 1, p.x, bt, w, []).Some?
    ensures Eval(g, txt, k, p, bt, w).Some? ==>
      Eval(g, txt, k, p, bt, w).value == AfterRepeat(p, bt, w, EvalMany(g, txt, k - 1, p.x, bt, w, []).value)
  {
    hide LeafOutcome, AfterUnary, AfterRepeat, AfterAnd, EvalMany;
  }

  lemma ListEval(g: Grammar, txt: string, k: nat, p: Parser, bt: int, w: World)
    requires (p.Or? || p.And?) && p.xs != []
    ensures p.Or? && k > 0 ==> Eval(g, txt, k, p, bt, w) == EvalOr(g, txt, k - 1, p.xs, bt, w, [])
    ensures p.And? ==> (Eval(g, txt, k, p, bt, w).Some? <==> k > 0 && EvalAnd(g, txt, k - 1, p.xs, bt, w, []).Some?)
  {
    hide LeafOutcome, AfterUnary, AfterRepeat, AfterAnd, EvalOr, EvalAnd;
  }

  /** Leaf parsers and empty lists run no other parser. */
  lemma EvalAtOnce(g: Grammar, txt: string, k: nat, p: Parser, bt: int, w: World)
    requires k > 0 && (IsLeaf(p) || ((p.Or? || p.And?) && p.xs == []))
    ensures Eval(g, txt, k, p, bt, w).Some?
  {
    hide LeafOutcome, AfterUnary, AfterRepeat, AfterAnd;
  }
}

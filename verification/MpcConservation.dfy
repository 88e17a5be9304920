// Conservation of outputs: every output that a parse makes, numbered as it is made, is folded, applied, destroyed or returned,
// once and only once.
module MpcConservation {
  import opened MpcTypes
  import opened MpcErrors
  import opened MpcInput
  import opened MpcBigStep
  import opened MpcMachine
  import opened MpcRuns
  import opened MpcDiscipline
  import opened MpcAdequacy
  import opened Sequences

  /** The three ways a parse uses outputs up. */
  datatype Use = Folded(vs: seq<Val>) | Applied(v: Val) | Discarded(d: Destroyed)

  /** What a turn makes and uses up. */
  datatype Account = Account(made: seq<Val>, uses: seq<Use>)

  const NOTHING := Account([], [])

  function Given(u: Use): seq<Val> {
    match u
    case Folded(vs) => vs
    case Applied(v) => [v]
    case Discarded(d) => [d.v]
  }

  /** The outputs used up, from the last use to the first: as they lay on the stack, where the newest is on top. */
  function Consumed(uses: seq<Use>): seq<Val> {
    if uses == [] then [] else Consumed(uses[1..]) + Given(uses[0])
  }

  /** The destructor calls among the uses. */
  function Calls(uses: seq<Use>): seq<Destroyed> {
    if uses == [] then [] else (if uses[0].Discarded? then [uses[0].d] else []) + Calls(uses[1..])
  }

  /** Destructor calls for outputs, the newest first. */
  function Discards(vs: seq<Val>, dxs: seq<Dtor>): seq<Use> {
    if vs == [] then []
    else
      var i := |vs| - 1;
      [Discarded(Destroyed(DtorAt(dxs, i), vs[i]))] + Discards(vs[..i], dxs)
  }

  function DiscardsSame(vs: seq<Val>, dx: Dtor): seq<Use> {
    if vs == [] then []
    else [Discarded(Destroyed(dx, vs[|vs|-1]))] + DiscardsSame(vs[..|vs|-1], dx)
  }

  function One(r: Res): seq<Val> {
    if r.Out? then [r.v] else []
  }

  /** The outputs among results. */
  function OutputsOf(rs: seq<Res>): seq<Val> {
    if rs == [] then []
    else OutputsOf(rs[..|rs|-1]) + One(rs[|rs|-1])
  }

  function Taken(rs: seq<Res>, n: nat): seq<Val> {
    var vs := TopOutputs(rs, n);
    if vs.Some? then vs.value else []
  }

  /** A fold of the top n outputs makes one output of them. */
  function FoldAccount(rs: seq<Res>, n: nat, f: Fold): Account {
    Account([f(Taken(rs, n))], [Folded(Taken(rs, n))])
  }

  function UnaryAccount(p: Parser, r: Res): Account
    requires IsUnary(p)
  {
    match p
    case Expect(_, _) => NOTHING
    case Apply(_, f) => if r.Out? then Account([f(r.v)], [Applied(r.v)]) else NOTHING
    case ApplyTo(_, f, d) => if r.Out? then Account([f(r.v, d)], [Applied(r.v)]) else NOTHING
    case Predict(_) => NOTHING
    case Not(_, dx, v) => if r.Out? then Account([], [Discarded(Destroyed(dx, r.v))]) else Account([v], [])
    case Maybe(_, v) => if r.Out? then NOTHING else Account([v], [])
  }

  /** A repetition whose body has failed; rs are the results below the error. */
  function RepeatAccount(p: Parser, st: nat, rs: seq<Res>): Account
    requires IsRepeat(p) && st > 0
  {
    if p.Many1? && st == 1 then NOTHING
    else if p.Count? && st != p.n + 1 then Account([], DiscardsSame(Taken(rs, st - 1), p.dx))
    else FoldAccount(rs, st - 1, p.fold)
  }

  function AndAccount(p: Parser, st: nat, rs: seq<Res>): Account
    requires p.And? && st > 0 && rs != []
  {
    if rs[|rs|-1].Er? then Account([], Discards(Taken(rs[..|rs|-1], st - 1), p.dxs))
    else if st < |p.xs| then NOTHING
    else FoldAccount(rs, |p.xs|, p.fold)
  }

  /** What one turn makes and uses up, for the top parser p at state st. */
  function TurnAccount(txt: string, m: Machine, p: Parser, st: nat): Account
    requires m.Machine?
  {
    if IsLeaf(p) then
      Account(One(LeafOutcome(txt, p, m.bt, m.w).r), [])
    else if p.Or? && p.xs == [] then Account([Null], [])
    else if p.And? && p.xs == [] then Account([p.fold([])], [Folded([])])
    else if st == 0 || m.results == [] then NOTHING
    else
      var r := m.results[|m.results|-1];
      if IsUnary(p) then UnaryAccount(p, r)
      else if IsRepeat(p) then if r.Out? then NOTHING else RepeatAccount(p, st, m.results[..|m.results|-1])
      else if p.And? then AndAccount(p, st, m.results)
      else NOTHING
  }

  lemma {:induction false} OutputsJoin(a: seq<Res>, b: seq<Res>)
    ensures OutputsOf(a + b) == OutputsOf(a) + OutputsOf(b)
    decreases |b|
  {
    if b == [] {
      assert a + b == a;
    } else {
      OutputsJoin(a, b[..|b|-1]);
      assert (a + b)[..|a + b|-1] == a + b[..|b|-1];
    }
  }

  lemma {:induction false} OutputsAll(rs: seq<Res>)
    ensures Outputs(rs).Some? ==> OutputsOf(rs) == Outputs(rs).value
    ensures Errors(rs).Some? ==> OutputsOf(rs) == []
  {
    if rs != [] { OutputsAll(rs[..|rs|-1]); }
  }

  lemma OutputsTop(rs: seq<Res>, n: nat)
    requires n <= |rs|
    ensures TopOutputs(rs, n).Some? ==> OutputsOf(rs) == OutputsOf(rs[..|rs|-n]) + TopOutputs(rs, n).value
    ensures TopErrors(rs, n).Some? ==> OutputsOf(rs) == OutputsOf(rs[..|rs|-n])
  {
    assert rs == rs[..|rs|-n] + rs[|rs|-n..];
    OutputsJoin(rs[..|rs|-n], rs[|rs|-n..]);
    OutputsAll(rs[|rs|-n..]);
  }

  lemma OutputsLast(rs: seq<Res>, r: Res)
    ensures OutputsOf(rs + [r]) == OutputsOf(rs) + One(r)
  {
    assert (rs + [r])[..|rs|] == rs;
  }

  lemma {:induction false} ConsumedJoin(a: seq<Use>, b: seq<Use>)
    ensures Consumed(a + b) == Consumed(b) + Consumed(a)
    decreases |a|
  {
    if a == [] {
      assert a + b == b;
    } else {
      ConsumedJoin(a[1..], b);
      assert (a + b)[1..] == a[1..] + b;
      Associate(Consumed(b), Consumed(a[1..]), Given(a[0]));
    }
  }

  lemma {:induction false} CallsJoin(a: seq<Use>, b: seq<Use>)
    ensures Calls(a + b) == Calls(a) + Calls(b)
    decreases |a|
  {
    if a == [] {
      assert a + b == b;
    } else {
      CallsJoin(a[1..], b);
      assert (a + b)[1..] == a[1..] + b;
      Associate(if a[0].Discarded? then [a[0].d] else [], Calls(a[1..]), Calls(b));
    }
  }

  /** Destroying outputs calls a destructor on each of them. */
  lemma {:induction false} DestroyCalls(w: World, vs: seq<Val>, dxs: seq<Dtor>)
    ensures Destroy(w, vs, dxs).log == w.log + Calls(Discards(vs, dxs))
    ensures Consumed(Discards(vs, dxs)) == vs
    decreases |vs|
  {
    if vs != [] {
      var i := |vs| - 1;
      var d := Destroyed(DtorAt(dxs, i), vs[i]);
      DestroyCalls(w.(log := w.log + [d]), vs[..i], dxs);
      assert vs == vs[..i] + [vs[i]];
      assert Discards(vs, dxs)[1..] == Discards(vs[..i], dxs);
    }
  }

  lemma {:induction false} DestroySameCalls(w: World, vs: seq<Val>, dx: Dtor)
    ensures DestroySame(w, vs, dx).log == w.log + Calls(DiscardsSame(vs, dx))
    ensures Consumed(DiscardsSame(vs, dx)) == vs
    decreases |vs|
  {
    if vs != [] {
      var i := |vs| - 1;
      DestroySameCalls(w.(log := w.log + [Destroyed(dx, vs[i])]), vs[..i], dx);
      assert vs == vs[..i] + [vs[i]];
      assert DiscardsSame(vs, dx)[1..] == DiscardsSame(vs[..i], dx);
    }
  }

  lemma {:induction false} BlameAllCallsNothing(w: World, es: seq<Err>)
    ensures BlameAll(w, es).log == w.log
    decreases |es|
  {
    if es != [] { BlameAllCallsNothing(Blame(w, es[|es|-1]), es[..|es|-1]); }
  }

  /** Between m and next exactly the outputs that a uses come off the stack, from the top, and what a makes goes on it. */
  ghost predicate Balanced(m: Machine, next: Machine, a: Account)
    requires m.Machine? && next.Machine?
  {
    var before, used := OutputsOf(m.results), Consumed(a.uses);
    && |a.made| <= 1 && |used| <= |before| && before[|before|-|used|..] == used
    && OutputsOf(next.results) == before[..|before|-|used|] + a.made
    && next.w.log == m.w.log + Calls(a.uses)
  }

  /** A turn that takes vs off the stack and puts r on it. */
  lemma LandBalances(m: Machine, next: Machine, rs: seq<Res>, vs: seq<Val>, r: Res, a: Account)
    requires m.Machine? && next.Machine? && OutputsOf(m.results) == OutputsOf(rs) + vs && next.results == rs + [r]
    requires Consumed(a.uses) == vs && One(r) == a.made && next.w.log == m.w.log + Calls(a.uses)
    ensures Balanced(m, next, a)
  {
    hide OutputsOf, Consumed, Calls;
    OutputsLast(rs, r);
  }

  /** The top n outputs are folded. */
  lemma FoldBalances(m: Machine, n: nat, f: Fold)
    requires m.Machine? && FoldTop(m, n, f).Machine?
    ensures Balanced(m, FoldTop(m, n, f), FoldAccount(m.results, n, f))
  {
    var vs := TopOutputs(m.results, n).value;
    OutputsTop(m.results, n);
    OneUse(Folded(vs));
    hide OutputsOf, Consumed, Calls, Balanced;
    LandBalances(m, FoldTop(m, n, f), m.results[..|m.results|-n], vs, Out(f(vs)), FoldAccount(m.results, n, f));
  }

  lemma FoldIsRight(m: Machine, n: nat, f: Fold)
    requires FoldTop(m, n, f).Machine?
    ensures m.Machine?
  {
  }

  lemma NoUse()
    ensures Consumed([]) == [] && Calls([]) == []
  {
  }

  lemma OneUse(u: Use)
    ensures Consumed([u]) == Given(u) && Calls([u]) == if u.Discarded? then [u.d] else []
  {
    assert [u][1..] == [];
  }

  /** A turn that only moves control. */
  lemma NothingBalances(m: Machine, next: Machine)
    requires m.Machine? && next.Machine? && OutputsOf(next.results) == OutputsOf(m.results) && next.w.log == m.w.log
    ensures Balanced(m, next, NOTHING)
  {
  }

  lemma StartBalances(g: Grammar, m: Machine, p: Parser)
    requires m.Machine? && ((p.Or? && p.xs != []) || (p.And? && p.xs != []) || IsUnary(p) || IsRepeat(p))
    ensures IsUnary(p) ==> Balanced(m, StepUnary(g, m, p, 0), NOTHING)
    ensures IsRepeat(p) ==> Balanced(m, StepRepeat(g, m, p, 0), NOTHING)
    ensures p.Or? ==> Balanced(m, StepOr(g, m, p, 0), NOTHING)
    ensures p.And? ==> Balanced(m, StepAnd(g, m, p, 0), NOTHING)
  {
  }

  /** A unary parser turns result r into r'. */
  predicate TurnsInto(p: Parser, r: Res, r': Res) {
    match p
    case Expect(_, _) => if r.Out? then r' == r else r'.Er?
    case Apply(_, f) => r' == if r.Out? then Out(f(r.v)) else r
    case ApplyTo(_, f, d) => r' == if r.Out? then Out(f(r.v, d)) else r
    case Not(_, _, v) => if r.Out? then r'.Er? else r' == Out(v)
    case Maybe(_, v) => r' == if r.Out? then r else Out(v)
    case _ => false
  }

  /** The newest result r is replaced by r', which p turns it into. */
  ghost predicate Replaces(p: Parser, m: Machine, next: Machine, r: Res, r': Res) {
    && m.Machine? && next.Machine? && m.results != [] && r == m.results[|m.results|-1]
    && next.results == m.results[..|m.results|-1] + [r']
    && next.w.log == m.w.log + (if p.Not? && r.Out? then [Destroyed(p.dx, r.v)] else [])
    && TurnsInto(p, r, r')
  }

  lemma UnaryEven(p: Parser, r: Res, r': Res)
    requires TurnsInto(p, r, r') && IsUnary(p)
    ensures var a := UnaryAccount(p, r); if a == NOTHING then One(r') == One(r) else One(r') == a.made && Consumed(a.uses) == One(r)
  {
    hide Consumed, Calls;
    UsesOfUnary(p, r);
  }

  lemma UnaryReplaces(g: Grammar, m: Machine, p: Parser, next: Machine) returns (r': Res)
    requires m.Machine? && IsUnary(p) && !p.Predict? && m.results != [] && next == StepUnary(g, m, p, 1) && next.Machine?
    ensures Replaces(p, m, next, m.results[|m.results|-1], r')
  {
    hide ErrOr;
    var r := m.results[|m.results|-1];
    r' := next.results[|m.results|-1];
    if p.Not? && r.Out? { DestroySameOne(Rewind(m.(results := m.results[..|m.results|-1])).w, r.v, p.dx); }
  }

  lemma ReplacesBalances(p: Parser, m: Machine, next: Machine, r: Res, r': Res)
    requires IsUnary(p) && Replaces(p, m, next, r, r')
    ensures Balanced(m, next, UnaryAccount(p, r))
  {
    var rs, a := m.results[..|m.results|-1], UnaryAccount(p, r);
    assert rs + [r] == m.results;
    OutputsLast(rs, r);
    UsesOfUnary(p, r);
    UnaryEven(p, r, r');
    hide OutputsOf, Consumed, Calls, Balanced, One, TurnsInto, UnaryAccount;
    if a == NOTHING {
      OutputsLast(rs, r');
      NothingBalances(m, next);
    } else {
      LandBalances(m, next, rs, One(r), r', a);
    }
  }

  lemma UnaryBalances(g: Grammar, m: Machine, p: Parser, next: Machine)
    requires m.Machine? && IsUnary(p) && m.results != [] && next == StepUnary(g, m, p, 1) && next.Machine?
    ensures Balanced(m, next, UnaryAccount(p, m.results[|m.results|-1]))
  {
    if p.Predict? {
      NothingBalances(m, next);
    } else {
      hide StepUnary, Replaces, Balanced;
      var r' := UnaryReplaces(g, m, p, next);
      ReplacesBalances(p, m, next, m.results[|m.results|-1], r');
    }
  }

  lemma UsesOfUnary(p: Parser, r: Res)
    requires IsUnary(p)
    ensures var a := UnaryAccount(p, r);
      if a.uses == [] then Consumed(a.uses) == [] && Calls(a.uses) == []
      else |a.uses| == 1 && Consumed(a.uses) == Given(a.uses[0]) && Calls(a.uses) == if p.Not? then [a.uses[0].d] else []
  {
    if UnaryAccount(p, r).uses != [] { OneUse(UnaryAccount(p, r).uses[0]); }
  }

  /** p's mark is given up; results and destructor calls are as before. */
  lemma MarksAside(m: Machine)
    requires m.Machine?
    ensures Unmark(m).Machine? ==> Unmark(m).results == m.results && Unmark(m).w.log == m.w.log
    ensures Rewind(m).Machine? ==> Rewind(m).results == m.results && Rewind(m).w.log == m.w.log
  {
  }

  lemma DropSameBalances(m: Machine, n: nat, dx: Dtor, e: Err)
    requires m.Machine? && DropSame(m, n, dx).Machine?
    ensures Balanced(m, Finish(DropSame(m, n, dx), Er(e)), Account([], DiscardsSame(Taken(m.results, n), dx)))
  {
    var vs := Taken(m.results, n);
    OutputsTop(m.results, n);
    DestroySameCalls(m.w, vs, dx);
    hide OutputsOf, Consumed, Calls, Balanced, DiscardsSame;
    LandBalances(m, Finish(DropSame(m, n, dx), Er(e)), m.results[..|m.results|-n], vs, Er(e), Account([], DiscardsSame(vs, dx)));
  }

  lemma DropBalances(m: Machine, n: nat, dxs: seq<Dtor>, e: Err)
    requires m.Machine? && Drop(m, n, dxs).Machine?
    ensures Balanced(m, Finish(Drop(m, n, dxs), Er(e)), Account([], Discards(Taken(m.results, n), dxs)))
  {
    var vs := Taken(m.results, n);
    OutputsTop(m.results, n);
    DestroyCalls(m.w, vs, dxs);
    hide OutputsOf, Consumed, Calls, Balanced, Discards;
    LandBalances(m, Finish(Drop(m, n, dxs), Er(e)), m.results[..|m.results|-n], vs, Er(e), Account([], Discards(vs, dxs)));
  }

  /** What is balanced does not depend on the error below which the turn starts. */
  lemma ErrorAside(m: Machine, m1: Machine, next: Machine, a: Account)
    requires m.Machine? && m1.Machine? && next.Machine? && m.results != [] && m.results[|m.results|-1].Er?
    requires m1.results == m.results[..|m.results|-1] && m1.w.log == m.w.log && Balanced(m1, next, a)
    ensures Balanced(m, next, a)
  {
    assert m1.results + [m.results[|m.results|-1]] == m.results;
    OutputsLast(m1.results, m.results[|m.results|-1]);
    hide OutputsOf, Consumed, Calls;
  }

  lemma RepeatBalances(g: Grammar, m: Machine, p: Parser, st: nat)
    requires m.Machine? && IsRepeat(p) && st > 0 && m.results != [] && m.results[|m.results|-1].Er?
    requires StepRepeat(g, m, p, st).Machine?
    ensures Balanced(m, StepRepeat(g, m, p, st), RepeatAccount(p, st, m.results[..|m.results|-1]))
  {
    hide ErrMany1, ErrCount, FoldTop, DropSame, Balanced, Unmark, Rewind, FoldAccount, ErrOr;
    var e, m1 := m.results[|m.results|-1].e, m.(results := m.results[..|m.results|-1]);
    var b := m1.(w := Blame(m.w, e));
    var next, a := StepRepeat(g, m, p, st), RepeatAccount(p, st, m1.results);
    MarksAside(b);
    if p.Many1? && st == 1 {
      OutputsLast(m1.results, Er(ErrMany1(e)));
      NothingBalances(m1, next);
      ErrorAside(m, m1, next, a);
    } else if p.Count? && st != p.n + 1 {
      var m2 := DropSame(m1, st - 1, p.dx);
      DropSameBalances(m1, st - 1, p.dx, ErrCount(e, p.n));
      MarksAside(m2);
      SameBalance(m1, Finish(m2, Er(ErrCount(e, p.n))), next, a);
      ErrorAside(m, m1, next, a);
    } else if p.Count? {
      FoldIsRight(Unmark(b), st - 1, p.fold);
      FoldBalances(Unmark(b), st - 1, p.fold);
      ErrorAside(m, Unmark(b), next, a);
    } else {
      FoldBalances(b, st - 1, p.fold);
      ErrorAside(m, b, next, a);
    }
  }

  lemma SameBalance(m: Machine, next: Machine, next': Machine, a: Account)
    requires m.Machine? && next.Machine? && next'.Machine?
    requires Balanced(m, next, a) && next'.results == next.results && next'.w.log == next.w.log
    ensures Balanced(m, next', a)
  {
    hide OutputsOf, Consumed, Calls;
  }

  lemma OrBalances(g: Grammar, m: Machine, p: Parser, st: nat)
    requires m.Machine? && p.Or? && p.xs != [] && st > 0 && m.results != [] && StepOr(g, m, p, st).Machine?
    ensures Balanced(m, StepOr(g, m, p, st), NOTHING)
  {
    hide ErrOr, BlameAll, TopErrors, OutputsOf, Balanced, One;
    var n := |m.results|;
    var r, rs, next := m.results[n-1], m.results[..n-1], StepOr(g, m, p, st);
    if r.Out? {
      ErrorsFit(rs, st - 1);
      OutputsTop(rs, st - 1);
      assert rs + [r] == m.results;
      OutputsLast(rs, r);
      OutputsLast(rs[..|rs|-(st-1)], r);
      BlameAllCallsNothing(m.w, TopErrors(rs, st - 1).value);
      NothingBalances(m, next);
    } else if st < |p.xs| {
      NothingBalances(m, next);
    } else {
      ErrorsFit(m.results, st);
      OutputsTop(m.results, st);
      AllErrorsBalance(m, next, st, ErrOr(TopErrors(m.results, st).value));
    }
  }

  lemma AllErrorsBalance(m: Machine, next: Machine, n: nat, e: Err)
    requires m.Machine? && next.Machine? && n <= |m.results| && OutputsOf(m.results) == OutputsOf(m.results[..|m.results|-n])
    requires next.results == m.results[..|m.results|-n] + [Er(e)] && next.w.log == m.w.log
    ensures Balanced(m, next, NOTHING)
  {
    hide OutputsOf;
    LandBalances(m, next, m.results[..|m.results|-n], [], Er(e), NOTHING);
  }

  lemma ErrorsFit(rs: seq<Res>, n: nat)
    requires TopErrors(rs, n).Some?
    ensures n <= |rs|
  {
  }

  lemma AndBalances(g: Grammar, m: Machine, p: Parser, st: nat)
    requires m.Machine? && p.And? && p.xs != [] && st > 0 && m.results != [] && StepAnd(g, m, p, st).Machine?
    ensures Balanced(m, StepAnd(g, m, p, st), AndAccount(p, st, m.results))
  {
    hide FoldTop, Drop, Balanced, Unmark, Rewind, FoldAccount;
    var r := m.results[|m.results|-1];
    var next, a := StepAnd(g, m, p, st), AndAccount(p, st, m.results);
    MarksAside(m);
    if r.Er? {
      var m1 := Rewind(m);
      var m2 := m1.(results := m1.results[..|m1.results|-1]);
      DropBalances(m2, st - 1, p.dxs, r.e);
      ErrorAside(m, m2, next, a);
    } else if st < |p.xs| {
      NothingBalances(m, next);
    } else {
      FoldIsRight(Unmark(m), |p.xs|, p.fold);
      FoldBalances(Unmark(m), |p.xs|, p.fold);
      SameStart(m, Unmark(m), next, a);
    }
  }

  lemma SameStart(m: Machine, m': Machine, next: Machine, a: Account)
    requires m.Machine? && m'.Machine? && next.Machine?
    requires Balanced(m', next, a) && m'.results == m.results && m'.w.log == m.w.log
    ensures Balanced(m, next, a)
  {
    hide OutputsOf, Consumed, Calls;
  }

  lemma LeafCallsNothing(txt: string, p: Parser, bt: int, w: World)
    requires IsLeaf(p)
    ensures LeafOutcome(txt, p, bt, w).w.log == w.log
  {
  }

  lemma LeafBalances(txt: string, m: Machine, p: Parser)
    requires m.Machine? && IsLeaf(p)
    ensures var o := LeafOutcome(txt, p, m.bt, m.w);
            Balanced(m, Finish(m.(w := o.w), o.r), Account(One(o.r), []))
  {
    var o := LeafOutcome(txt, p, m.bt, m.w);
    LeafCallsNothing(txt, p, m.bt, m.w);
    hide OutputsOf, Balanced, LeafOutcome;
    LandBalances(m, Finish(m.(w := o.w), o.r), m.results, [], o.r, Account(One(o.r), []));
  }

  lemma EmptyOrBalances(g: Grammar, m: Machine, p: Parser, st: nat)
    requires m.Machine? && p.Or? && p.xs == []
    ensures Balanced(m, StepOr(g, m, p, st), Account([Null], []))
  {
    NoUse();
    hide OutputsOf, Consumed, Calls, Balanced;
    LandBalances(m, Finish(m, Out(Null)), m.results, [], Out(Null), Account([Null], []));
  }

  lemma EmptyAndBalances(g: Grammar, m: Machine, p: Parser, st: nat)
    requires m.Machine? && p.And? && p.xs == []
    ensures Balanced(m, StepAnd(g, m, p, st), Account([p.fold([])], [Folded([])]))
  {
    var v := p.fold([]);
    OneUse(Folded([]));
    hide OutputsOf, Consumed, Calls, Balanced;
    LandBalances(m, Finish(m, Out(v)), m.results, [], Out(v), Account([v], [Folded([])]));
  }

  /** One turn of the top parser p at state st; m holds the frames below it. */
  lemma TopBalances(g: Grammar, txt: string, m: Machine, p: Parser, st: nat, next: Machine)
    requires m.Machine? && next == StepTop(g, txt, m, p, st) && next.Machine? && FrameOk(Frame(p, st)) && !p.Ref?
    requires st > 0 ==> m.results != []
    ensures Balanced(m, next, TurnAccount(txt, m, p, st))
  {
    hide Balanced, StepUnary, StepRepeat, StepOr, StepAnd, LeafOutcome, UnaryAccount, RepeatAccount, AndAccount;
    if IsLeaf(p) {
      LeafBalances(txt, m, p);
    } else if (p.Or? || p.And?) && p.xs == [] {
      if p.Or? { EmptyOrBalances(g, m, p, st); } else { EmptyAndBalances(g, m, p, st); }
    } else if st == 0 {
      StartBalances(g, m, p);
    } else if IsUnary(p) {
      UnaryBalances(g, m, p, next);
    } else if IsRepeat(p) {
      if m.results[|m.results|-1].Er? { RepeatBalances(g, m, p, st); } else { BodyBalances(g, m, p, st); }
    } else if p.Or? {
      OrBalances(g, m, p, st);
    } else {
      AndBalances(g, m, p, st);
    }
  }

  lemma BodyBalances(g: Grammar, m: Machine, p: Parser, st: nat)
    requires m.Machine? && IsRepeat(p) && st > 0 && m.results != [] && m.results[|m.results|-1].Out?
    ensures Balanced(m, StepRepeat(g, m, p, st), NOTHING)
  {
    hide FoldTop, DropSame;
    NothingBalances(m, StepRepeat(g, m, p, st));
  }

  /** Every turn of the loop balances: what lies on the stack afterwards and what was used up is what lay there before and what
      was made. */
  lemma TurnBalances(g: Grammar, txt: string, step: Stepper, m: Machine)
    requires Steps(g, txt, step) && Disciplined(m) && m.frames != []
    ensures step(m).Machine?
    ensures var f := m.frames[|m.frames|-1]; Balanced(m, step(m), TurnAccount(txt, m, f.p, f.st))
  {
    hide Balanced, StepTop, TurnAccount, Waiting, LeafOutcome;
    StepKeepsDiscipline(g, txt, step, m);
    var f, m0 := m.frames[|m.frames|-1], m.(frames := m.frames[..|m.frames|-1]);
    assert step(m) == Step(g, txt, m) == StepTop(g, txt, m0, f.p, f.st);
    TopBalances(g, txt, m0, f.p, f.st, step(m));
    BelowTop(txt, m, m0, f, step(m));
  }

  /** The parsers below do not matter to what a turn makes and uses. */
  lemma BelowTop(txt: string, m: Machine, m0: Machine, f: Frame, next: Machine)
    requires m.Machine? && m0.Machine? && next.Machine?
    requires m0.results == m.results && m0.bt == m.bt && m0.w == m.w
    ensures TurnAccount(txt, m, f.p, f.st) == TurnAccount(txt, m0, f.p, f.st)
    ensures var a := TurnAccount(txt, m, f.p, f.st); Balanced(m0, next, a) ==> Balanced(m, next, a)
  {
    hide LeafOutcome, UnaryAccount, RepeatAccount, AndAccount, Balanced;
    if Balanced(m0, next, TurnAccount(txt, m, f.p, f.st)) { SameStart(m, m0, next, TurnAccount(txt, m, f.p, f.st)); }
  }

  lemma DisciplinedRuns(m: Machine)
    requires Disciplined(m)
    ensures m.Machine? && (m.frames == [] ==> |m.results| == 1)
  {
  }

  // Numbering

  /** The outputs made, in the order in which they are made, and the uses; the numbers of the outputs used, in the order of Consumed,
      and of those that lie on the stack. */
  datatype Book = Book(made: seq<Val>, uses: seq<Use>, used: seq<nat>, stack: seq<nat>)

  const EMPTY_BOOK := Book([], [], [], [])

  /** A turn takes the numbers of the outputs it uses off the top; an output it makes gets the next number. */
  function Entered(b: Book, a: Account): Book {
    var k := if |Consumed(a.uses)| <= |b.stack| then |b.stack| - |Consumed(a.uses)| else 0;
    Book(b.made + a.made, b.uses + a.uses, b.stack[k..] + b.used, b.stack[..k] + if a.made == [] then [] else [|b.made|])
  }

  /** The book after n turns. */
  function Booked(txt: string, step: Stepper, n: nat, m: Machine, b: Book): Book
    decreases n
  {
    if n == 0 || m.Wrong? || m.frames == [] then b
    else
      var f := m.frames[|m.frames|-1];
      Booked(txt, step, n - 1, step(m), Entered(b, TurnAccount(txt, m, f.p, f.st)))
  }

  /** The outputs with these numbers. */
  function Named(made: seq<Val>, ns: seq<nat>): seq<Val> {
    seq(|ns|, i requires 0 <= i < |ns| => if ns[i] < |made| then made[ns[i]] else Null)
  }

  /** Each number below n is among ns exactly once, and no other is. */
  ghost predicate EachOnce(ns: seq<nat>, n: nat) {
    forall x: nat :: multiset(ns)[x] == if x < n then 1 else 0
  }

  /** Every output made either has been used, once and where the book says, or lies on the stack, where the book says. */
  ghost predicate Kept(m: Machine, b: Book)
    requires m.Machine?
  {
    && OutputsOf(m.results) == Named(b.made, b.stack)
    && Consumed(b.uses) == Named(b.made, b.used)
    && EachOnce(b.used + b.stack, |b.made|)
  }

  lemma NamedMore(made: seq<Val>, more: seq<Val>, ns: seq<nat>)
    requires forall i :: 0 <= i < |ns| ==> ns[i] < |made|
    ensures Named(made + more, ns) == Named(made, ns)
  {
  }

  lemma NamedJoin(made: seq<Val>, a: seq<nat>, b: seq<nat>)
    ensures Named(made, a + b) == Named(made, a) + Named(made, b)
  {
  }

  lemma NamedParts(made: seq<Val>, ns: seq<nat>, k: nat)
    requires k <= |ns|
    ensures Named(made, ns)[..k] == Named(made, ns[..k]) && Named(made, ns)[k..] == Named(made, ns[k..])
  {
  }

  lemma OnceIsBelow(ns: seq<nat>, n: nat, i: nat)
    requires EachOnce(ns, n) && i < |ns|
    ensures ns[i] < n
  {
    assert multiset(ns)[ns[i]] > 0;
  }

  /** Moving numbers from the stack to the used ones, and putting the next number on it, keeps each number once. */
  lemma OnceEntered(used: seq<nat>, stack: seq<nat>, k: nat, n: nat)
    requires EachOnce(used + stack, n) && k <= |stack|
    ensures EachOnce((stack[k..] + used) + stack[..k], n)
    ensures EachOnce((stack[k..] + used) + (stack[..k] + [n]), n + 1)
  {
    assert stack == stack[..k] + stack[k..];
    assert multiset(stack) == multiset(stack[..k]) + multiset(stack[k..]);
    var a, b := (stack[k..] + used) + stack[..k], (stack[k..] + used) + (stack[..k] + [n]);
    assert multiset(a) == multiset(used + stack);
    assert b == a + [n];
  }

  lemma BelowAll(b: Book, ns: seq<nat>)
    requires EachOnce(b.used + b.stack, |b.made|) && (ns == b.used || ns == b.stack)
    ensures forall i :: 0 <= i < |ns| ==> ns[i] < |b.made|
  {
    hide EachOnce;
    forall i | 0 <= i < |ns| ensures ns[i] < |b.made| {
      var j := if ns == b.used then i else |b.used| + i;
      assert (b.used + b.stack)[j] == ns[i];
      OnceIsBelow(b.used + b.stack, |b.made|, j);
    }
  }

  /** A balanced turn keeps the book right. */
  lemma EnteredIsKept(m: Machine, next: Machine, a: Account, b: Book)
    requires m.Machine? && next.Machine? && Balanced(m, next, a) && Kept(m, b)
    ensures Kept(next, Entered(b, a))
  {
    hide OutputsOf, Consumed, Calls, EachOnce, Named;
    var used, n := Consumed(a.uses), |b.made|;
    assert |Named(b.made, b.stack)| == |b.stack| by { NamedSize(b.made, b.stack); }
    var k := |b.stack| - |used|;
    BelowAll(b, b.used);
    BelowAll(b, b.stack);
    NamedMore(b.made, a.made, b.stack);
    NamedMore(b.made, a.made, b.used);
    NamedParts(b.made + a.made, b.stack, k);
    NamedJoin(b.made + a.made, b.stack[k..], b.used);
    ConsumedJoin(b.uses, a.uses);
    OnceEntered(b.used, b.stack, k, n);
    var c := Entered(b, a);
    if a.made == [] {
      assert c.made == b.made && c.stack == b.stack[..k];
    } else {
      NamedJoin(b.made + a.made, b.stack[..k], [n]);
      assert Named(b.made + a.made, [n]) == a.made by { NamedLast(b.made, a.made); }
    }
  }

  lemma NamedSize(made: seq<Val>, ns: seq<nat>)
    ensures |Named(made, ns)| == |ns|
  {
  }

  lemma NamedLast(made: seq<Val>, more: seq<Val>)
    requires |more| == 1
    ensures Named(made + more, [|made|]) == more
  {
  }

  /** Over any number of turns every output made is used once, or lies on the stack. */
  lemma {:induction false} RunConserves(g: Grammar, txt: string, step: Stepper, n: nat, m: Machine, b: Book)
    requires Steps(g, txt, step) && Disciplined(m) && m.Machine? && Kept(m, b)
    ensures var next, c := After(step, n, m), Booked(txt, step, n, m, b);
      next.Machine? && Kept(next, c) && b.uses <= c.uses && next.w.log == m.w.log + Calls(c.uses[|b.uses|..])
    decreases n
  {
    hide Disciplined, Balanced, TurnAccount, Kept, Calls, Entered;
    if n > 0 && m.frames != [] {
      var f := m.frames[|m.frames|-1];
      var a := TurnAccount(txt, m, f.p, f.st);
      var c := Entered(b, a);
      StepKeepsDiscipline(g, txt, step, m);
      TurnBalances(g, txt, step, m);
      assert c.uses == b.uses + a.uses by { UsesEntered(b, a); }
      EnteredIsKept(m, step(m), a, b);
      RunConserves(g, txt, step, n - 1, step(m), c);
      var end := Booked(txt, step, n, m, b);
      assert end.uses[|b.uses|..] == a.uses + end.uses[|c.uses|..];
      CallsJoin(a.uses, end.uses[|c.uses|..]);
      assert step(m).w.log == m.w.log + Calls(a.uses) by { BalancedLog(m, step(m), a); }
      Associate(m.w.log, Calls(a.uses), Calls(end.uses[|c.uses|..]));
    } else {
      assert b.uses[|b.uses|..] == [];
      NoUse();
    }
  }

  lemma UsesEntered(b: Book, a: Account)
    ensures Entered(b, a).uses == b.uses + a.uses
  {
  }

  lemma BalancedLog(m: Machine, next: Machine, a: Account)
    requires m.Machine? && next.Machine? && Balanced(m, next, a)
    ensures next.w.log == m.w.log + Calls(a.uses)
  {
  }

  /** From the start of a parse to any later turn, every output made has been used up, once, or still lies on the stack, and the
      destructors called are those of the uses; when the parse has ended, what lies there is the output it returns, if it returns one. */
  lemma ParseConserves(g: Grammar, txt: string, step: Stepper, n: nat, p: Parser, w: World)
    requires Steps(g, txt, step) && !p.Ref?
    ensures var m, b := After(step, n, Initial(p, w)), Booked(txt, step, n, Initial(p, w), EMPTY_BOOK);
      && m.Machine? && Kept(m, b) && m.w.log == w.log + Calls(b.uses)
      && (m.frames == [] ==> |m.results| == 1 && Named(b.made, b.stack) == One(m.results[0]))
  {
    hide After, Booked, Steps, Calls, Disciplined, EachOnce;
    var start, m := Initial(p, w), After(step, n, Initial(p, w));
    InitialIsDisciplined(p, w);
    assert Kept(start, EMPTY_BOOK) by { NothingKept(start); }
    RunConserves(g, txt, step, n, start, EMPTY_BOOK);
    var b := Booked(txt, step, n, start, EMPTY_BOOK);
    assert b.uses[0..] == b.uses;
    ParseIsDisciplined(g, txt, step, n, p, w);
    DisciplinedRuns(m);
    if m.frames == [] {
      OutputsLast([], m.results[0]);
      assert m.results == [] + [m.results[0]];
      assert OutputsOf([]) == [];
    }
  }

  lemma NothingKept(m: Machine)
    requires m.Machine? && m.results == []
    ensures Kept(m, EMPTY_BOOK)
  {
  }

  /** In particular: of everything a terminating parse makes, all is used up, once, but the output it returns; and its log is exactly the
      destructor calls among the uses. */
  lemma MeaningConserves(g: Grammar, txt: string, p: Parser, w: World) returns (n: nat)
    requires !p.Ref? && Terminates(g, txt, p, 1, w)
    ensures var o, b := Meaning(g, txt, p, 1, w), Booked(txt, Loop(g, txt), n, Initial(p, w), EMPTY_BOOK);
      && After(Loop(g, txt), n, Initial(p, w)) == Machine([], [o.r], [], 1, o.w)
      && Named(b.made, b.stack) == One(o.r) && Consumed(b.uses) == Named(b.made, b.used)
      && EachOnce(b.used + b.stack, |b.made|) && o.w.log == w.log + Calls(b.uses)
  {
    hide Booked, Consumed, Calls, After, OutputsOf, Loop, EachOnce, Named;
    var o := Meaning(g, txt, p, 1, w);
    n := RunEnds(g, txt, p, w);
    ReachesIsAfter(Loop(g, txt), n, Initial(p, w), Machine([], [o.r], [], 1, o.w));
    LoopSteps(g, txt);
    ParseConserves(g, txt, Loop(g, txt), n, p, w);
  }
}

// Building and merging parse errors.
module MpcErrors {
  import opened MpcTypes
  import opened Options

  function ErrNew(s: State, expected: string): Err { Err(s, [expected], None) }

  function ErrFail(s: State, failure: string): Err { Err(s, [], Some(failure)) }

  const UNKNOWN_ERROR := ErrFail(INVALID_STATE, "Unknown Error")

  /** The first of the furthest positions, never before the invalid one. */
  function Furthest(xs: seq<Err>): State {
    if xs == [] then INVALID_STATE
    else
      var s := Furthest(xs[..|xs|-1]);
      var t := xs[|xs|-1].state;
      if t.pos > s.pos then t else s
  }

  /** Adds the strings of ys that are not yet there, in order. */
  function Extend(xs: seq<string>, ys: seq<string>): seq<string>
    decreases |ys|
  {
    if ys == [] then xs
    else Extend(if ys[0] in xs then xs else xs + [ys[0]], ys[1..])
  }

  /** Collects what the errors at the furthest position expected, up to the first of them that is
      a failure. */
  function Collect(xs: seq<Err>, e: Err): Err {
    if xs == [] then e
    else if xs[0].state.pos < e.state.pos then Collect(xs[1..], e)
    else if xs[0].failure.Some? then e.(failure := xs[0].failure)
    else Collect(xs[1..], e.(expected := Extend(e.expected, xs[0].expected)))
  }

  function ErrOr(xs: seq<Err>): Err {
    Collect(xs, Err(Furthest(xs), [], None))
  }

  /** Joins the expected strings as the repeat errors do: commas, then "or". */
  function Joined(xs: seq<string>): string {
    if |xs| == 0 then ""
    else if |xs| == 1 then xs[0]
    else if |xs| == 2 then xs[0] + " or " + xs[1]
    else xs[0] + ", " + Joined(xs[1..])
  }

  function ErrRepeat(e: Err, prefix: string): Err {
    Err(e.state, [prefix + Joined(e.expected)], e.failure)
  }

  function Decimal(n: nat): string {
    (if n < 10 then "" else Decimal(n / 10)) + ["0123456789"[n % 10]]
  }

  function ErrMany1(e: Err): Err { ErrRepeat(e, "one or more of ") }

  function ErrCount(e: Err, n: int): Err {
    ErrRepeat(e, (if n < 0 then "-" + Decimal(-n) else Decimal(n)) + " of ")
  }

  /** Adds to an error what another one expected, without repetition. */
  method AddExpected(xs: seq<string>, ys: seq<string>) returns (zs: seq<string>)
    ensures zs == Extend(xs, ys)
  {
    zs := xs;
    assert ys[0..] == ys;
    for j := 0 to |ys|
      invariant Extend(zs, ys[j..]) == Extend(xs, ys)
    {
      assert ys[j..][1..] == ys[j+1..];
      if ys[j] !in zs { zs := zs + [ys[j]]; }
    }
  }

  /** Merges errors: two passes, the first finding the furthest position. */
  method MergeErrors(xs: seq<Err>) returns (e: Err)
    ensures e == ErrOr(xs)
  {
    e := Err(INVALID_STATE, [], None);
    for i := 0 to |xs|
      invariant e == Err(Furthest(xs[..i]), [], None)
    {
      assert xs[..i+1][..i] == xs[..i];
      if xs[i].state.pos > e.state.pos { e := e.(state := xs[i].state); }
    }
    assert xs[..|xs|] == xs;
    var i := 0;
    while i < |xs|
      invariant 0 <= i <= |xs| && Collect(xs[i..], e) == ErrOr(xs)
    {
      assert xs[i..][1..] == xs[i+1..];
      if xs[i].state.pos >= e.state.pos {
        if xs[i].failure.Some? {
          return e.(failure := xs[i].failure);
        }
        var expected := AddExpected(e.expected, xs[i].expected);
        e := e.(expected := expected);
      }
      i := i + 1;
    }
  }

  /** No error is further than the merged one, whose position is that of one of them. */
  lemma {:induction false} FurthestIsFurthest(xs: seq<Err>)
    ensures forall i :: 0 <= i < |xs| ==> xs[i].state.pos <= Furthest(xs).pos
    ensures Furthest(xs) == INVALID_STATE || exists i :: 0 <= i < |xs| && xs[i].state == Furthest(xs)
  {
    if xs != [] {
      FurthestIsFurthest(xs[..|xs|-1]);
      forall i | 0 <= i < |xs| ensures xs[i].state.pos <= Furthest(xs).pos {
        if i < |xs| - 1 { assert xs[..|xs|-1][i] == xs[i]; }
      }
      if Furthest(xs) != INVALID_STATE && xs[|xs|-1].state != Furthest(xs) {
        var i :| 0 <= i < |xs| - 1 && xs[..|xs|-1][i].state == Furthest(xs);
        assert xs[i].state == Furthest(xs);
      }
    }
  }

  predicate Distinct(xs: seq<string>) {
    forall i, j :: 0 <= i < j < |xs| ==> xs[i] != xs[j]
  }

  lemma {:induction false} ExtendAdds(xs: seq<string>, ys: seq<string>)
    requires Distinct(xs)
    ensures Distinct(Extend(xs, ys)) && forall s :: s in Extend(xs, ys) <==> s in xs || s in ys
    decreases |ys|
  {
    if ys != [] { ExtendAdds(if ys[0] in xs then xs else xs + [ys[0]], ys[1..]); }
  }

  /** Whether one of the errors at position pos or behind it expects s. */
  ghost predicate Expected(xs: seq<Err>, pos: int, s: string) {
    exists x <- xs :: x.state.pos >= pos && s in x.expected
  }

  lemma {:induction false} CollectAll(xs: seq<Err>, e: Err)
    requires Distinct(e.expected) && forall x <- xs :: x.state.pos >= e.state.pos ==> x.failure.None?
    ensures var m := Collect(xs, e);
      && m.failure == e.failure && Distinct(m.expected)
      && forall s :: s in m.expected <==> s in e.expected || Expected(xs, e.state.pos, s)
  {
    if xs != [] {
      var x, next := xs[0], e.(expected := Extend(e.expected, xs[0].expected));
      assert xs == [x] + xs[1..];
      ExtendAdds(e.expected, x.expected);
      CollectAll(xs[1..], if x.state.pos < e.state.pos then e else next);
      forall s ensures Expected(xs, e.state.pos, s) <==>
        (x.state.pos >= e.state.pos && s in x.expected) || Expected(xs[1..], e.state.pos, s)
      {
        assert x in xs;
      }
    }
  }

  /** Unless a failure is among the furthest errors, the merged error expects exactly what they expect, each once. */
  lemma MergedExpects(xs: seq<Err>)
    requires forall x <- xs :: x.state.pos >= Furthest(xs).pos ==> x.failure.None?
    ensures var m := ErrOr(xs);
      && m.state == Furthest(xs) && m.failure.None? && Distinct(m.expected)
      && forall s :: s in m.expected <==> Expected(xs, Furthest(xs).pos, s)
  {
    CollectAll(xs, Err(Furthest(xs), [], None));
    CollectState(xs, Err(Furthest(xs), [], None));
  }

  lemma {:induction false} CollectState(xs: seq<Err>, e: Err)
    ensures Collect(xs, e).state == e.state
  {
    if xs != [] {
      CollectState(xs[1..], e);
      CollectState(xs[1..], e.(expected := Extend(e.expected, xs[0].expected)));
    }
  }

  /** The error at i is the first of xs at the place pos, and those before it lie nearer. */
  ghost predicate Leads(xs: seq<Err>, i: nat, pos: int)
    requires i < |xs|
  {
    xs[i].state.pos == pos && forall j | 0 <= j < i :: xs[j].state.pos < pos
  }

  ghost predicate LeadsFailures(xs: seq<Err>, i: nat, pos: int)
    requires i < |xs|
  {
    xs[i].state.pos == pos && xs[i].failure.Some? && forall j | 0 <= j < i :: xs[j].state.pos < pos || xs[j].failure.None?
  }

  /** e is the errors xs merged: it lies at the furthest of them (but never before the invalid place), and has the first failure of those
      there or, if there is none, expects exactly what they expect, each once, beginning with what the first of them expects. */
  ghost predicate Merges(xs: seq<Err>, e: Err) {
    && (forall x <- xs :: x.state.pos <= e.state.pos)
    && (e.state == State(-1, -1, -1) || exists x <- xs :: x.state == e.state)
    && Distinct(e.expected)
    && (e.failure.Some? ==> exists i | 0 <= i < |xs| :: LeadsFailures(xs, i, e.state.pos) && e.failure == xs[i].failure)
    && (e.failure.None? ==> forall x <- xs :: x.state.pos == e.state.pos ==> x.failure.None?)
    && (e.failure.None? ==> forall s :: s in e.expected <==> exists x <- xs :: x.state.pos == e.state.pos && s in x.expected)
    && (e.failure.None? && e.state.pos >= 0 ==> forall i | 0 <= i < |xs| && Leads(xs, i, e.state.pos) && Distinct(xs[i].expected) :: xs[i].expected <= e.expected)
  }

  lemma {:induction false} ExtendGrows(xs: seq<string>, ys: seq<string>)
    ensures xs <= Extend(xs, ys)
    decreases |ys|
  {
    if ys != [] { ExtendGrows(if ys[0] in xs then xs else xs + [ys[0]], ys[1..]); }
  }

  lemma {:induction false} ExtendAll(xs: seq<string>, ys: seq<string>)
    requires Distinct(xs + ys)
    ensures Extend(xs, ys) == xs + ys
    decreases |ys|
  {
    if ys != [] {
      assert (xs + ys)[|xs|] == ys[0];
      assert forall i | 0 <= i < |xs| :: (xs + ys)[i] == xs[i];
      assert (xs + [ys[0]]) + ys[1..] == xs + ys;
      ExtendAll(xs + [ys[0]], ys[1..]);
    } else {
      assert xs + ys == xs;
    }
  }

  lemma {:induction false} CollectGrows(xs: seq<Err>, e: Err)
    ensures e.expected <= Collect(xs, e).expected
  {
    if xs != [] {
      ExtendGrows(e.expected, xs[0].expected);
      CollectGrows(xs[1..], if xs[0].state.pos < e.state.pos then e else e.(expected := Extend(e.expected, xs[0].expected)));
    }
  }

  lemma {:induction false} CollectFirst(xs: seq<Err>, e: Err, i: nat)
    requires e.expected == [] && e.failure.None? && i < |xs| && Leads(xs, i, e.state.pos) && Distinct(xs[i].expected) && xs[i].failure.None?
    ensures xs[i].expected <= Collect(xs, e).expected
    decreases |xs|
  {
    if i == 0 {
      assert [] + xs[0].expected == xs[0].expected;
      ExtendAll([], xs[0].expected);
      CollectGrows(xs[1..], e.(expected := xs[0].expected));
    } else {
      assert xs[0].state.pos < e.state.pos;
      assert forall j | 0 <= j < i - 1 :: xs[1..][j] == xs[j + 1];
      CollectFirst(xs[1..], e, i - 1);
    }
  }

  lemma {:induction false} CollectFailure(xs: seq<Err>, e: Err, i: nat)
    requires Distinct(e.expected) && e.failure.None? && (forall x <- xs :: x.state.pos <= e.state.pos)
    requires i < |xs| && LeadsFailures(xs, i, e.state.pos)
    ensures var m := Collect(xs, e); Distinct(m.expected) && m.failure == xs[i].failure
    decreases |xs|
  {
    var x, next := xs[0], e.(expected := Extend(e.expected, xs[0].expected));
    if i > 0 {
      FailuresBehind(xs, i, e.state.pos);
      hide LeadsFailures;
      ExtendAdds(e.expected, x.expected);
      hide Distinct;
      CollectFailure(xs[1..], if x.state.pos < e.state.pos then e else next, i - 1);
    }
  }

  lemma FailuresBehind(xs: seq<Err>, i: nat, pos: int)
    requires 0 < i < |xs| && LeadsFailures(xs, i, pos)
    ensures LeadsFailures(xs[1..], i - 1, pos) && (xs[0].state.pos < pos || xs[0].failure.None?)
  {
    assert forall j | 0 <= j < i - 1 :: xs[1..][j] == xs[j + 1];
  }

  lemma {:induction false} FirstFailure(xs: seq<Err>, pos: int) returns (i: nat)
    requires exists x <- xs :: x.state.pos == pos && x.failure.Some?
    requires forall x <- xs :: x.state.pos <= pos
    ensures i < |xs| && LeadsFailures(xs, i, pos)
    decreases |xs|
  {
    i := 0;
    if xs[0].state.pos < pos || xs[0].failure.None? {
      assert xs == [xs[0]] + xs[1..];
      var j := FirstFailure(xs[1..], pos);
      i := j + 1;
      assert forall k | 0 < k < i :: xs[k] == xs[1..][k - 1];
    }
  }

  lemma MergedIsRight(xs: seq<Err>)
    ensures Merges(xs, ErrOr(xs))
  {
    var s, e := Furthest(xs), ErrOr(xs);
    FurthestIsFurthest(xs);
    CollectState(xs, Err(s, [], None));
    hide Collect, Furthest, LeadsFailures, Leads;
    if exists x <- xs :: x.state.pos == s.pos && x.failure.Some? {
      var i := FirstFailure(xs, s.pos);
      CollectFailure(xs, Err(s, [], None), i);
      FailureIsThere(xs, i, s.pos);
    } else {
      MergedExpects(xs);
      forall t ensures t in e.expected <==> exists x <- xs :: x.state.pos == s.pos && t in x.expected {
        assert t in e.expected <==> Expected(xs, s.pos, t);
      }
      forall i | 0 <= i < |xs| && Leads(xs, i, s.pos) && Distinct(xs[i].expected) ensures xs[i].expected <= e.expected {
        LeaderIsThere(xs, i, s.pos);
        CollectFirst(xs, Err(s, [], None), i);
      }
    }
  }

  lemma FailureIsThere(xs: seq<Err>, i: nat, pos: int)
    requires i < |xs| && LeadsFailures(xs, i, pos)
    ensures xs[i].state.pos == pos && xs[i].failure.Some?
  {
  }

  lemma LeaderIsThere(xs: seq<Err>, i: nat, pos: int)
    requires i < |xs| && Leads(xs, i, pos)
    ensures xs[i].state.pos == pos && xs[i] in xs
  {
  }

  /** Merging a merged error with others is merging all of them. */
  lemma MergesFlatten(xs: seq<Err>, m: Err, ys: seq<Err>, e: Err)
    requires Merges(xs, m) && Merges([m] + ys, e)
    ensures Merges(xs + ys, e)
  {
    var zs, rs := xs + ys, [m] + ys;
    assert m in rs && (forall y <- ys :: y in rs) && (forall r <- rs :: r == m || r in ys) && forall z <- zs :: z in xs || z in ys;
    if e.failure.Some? {
      FailureFlattens(xs, m, ys, e);
    } else {
      forall s ensures s in e.expected <==> exists z <- zs :: z.state.pos == e.state.pos && s in z.expected {
        if s in e.expected {
          var r :| r in rs && r.state.pos == e.state.pos && s in r.expected;
          if r == m {
            var x :| x in xs && x.state.pos == m.state.pos && s in x.expected;
            assert x in zs;
          } else {
            assert r in zs;
          }
        }
      }
      forall i | e.state.pos >= 0 && 0 <= i < |zs| && Leads(zs, i, e.state.pos) && Distinct(zs[i].expected) ensures zs[i].expected <= e.expected {
        FirstFlattens(xs, m, ys, e, i);
      }
    }
  }

  lemma FailureFlattens(xs: seq<Err>, m: Err, ys: seq<Err>, e: Err)
    requires Merges(xs, m) && Merges([m] + ys, e) && e.failure.Some?
    ensures exists i | 0 <= i < |xs + ys| :: LeadsFailures(xs + ys, i, e.state.pos) && e.failure == (xs + ys)[i].failure
  {
    var zs, rs := xs + ys, [m] + ys;
    assert m in rs;
    var i :| 0 <= i < |rs| && LeadsFailures(rs, i, e.state.pos) && e.failure == rs[i].failure;
    if i == 0 {
      var j :| 0 <= j < |xs| && LeadsFailures(xs, j, m.state.pos) && m.failure == xs[j].failure;
      assert zs[j] == xs[j] && forall k | 0 <= k < j :: zs[k] == xs[k];
      assert LeadsFailures(zs, j, e.state.pos);
    } else {
      var j := |xs| + i - 1;
      assert zs[j] == rs[i] && rs[0] == m;
      forall k | 0 <= k < j ensures zs[k].state.pos < e.state.pos || zs[k].failure.None? {
        if k < |xs| {
          assert zs[k] in xs;
        } else {
          assert zs[k] == rs[k - |xs| + 1];
        }
      }
      assert LeadsFailures(zs, j, e.state.pos);
    }
  }

  lemma FirstFlattens(xs: seq<Err>, m: Err, ys: seq<Err>, e: Err, i: nat)
    requires Merges(xs, m) && Merges([m] + ys, e) && e.failure.None? && e.state.pos >= 0
    requires i < |xs + ys| && Leads(xs + ys, i, e.state.pos) && Distinct((xs + ys)[i].expected)
    ensures (xs + ys)[i].expected <= e.expected
  {
    var zs, rs := xs + ys, [m] + ys;
    assert m in rs && rs[0] == m;
    if i < |xs| {
      assert xs[i] in xs && zs[i] == xs[i] && forall k | 0 <= k < i :: zs[k] == xs[k];
      assert Leads(xs, i, m.state.pos) && Leads(rs, 0, e.state.pos);
    } else {
      var j := i - |xs| + 1;
      assert rs[j] == zs[i];
      forall x <- xs ensures x.state.pos < e.state.pos {
        var k :| 0 <= k < |xs| && xs[k] == x;
        assert zs[k] == x;
      }
      assert forall k | 0 < k < j :: rs[k] == zs[k + |xs| - 1];
      assert Leads(rs, j, e.state.pos);
    }
  }

  /** Nothing that e says is lost in m: m lies further, or at the same place it is a failure if e is, and expects what e expects
      unless it is one. */
  ghost predicate Accounts(m: Err, e: Err) {
    && m.state.pos >= e.state.pos
    && (m.state.pos == e.state.pos ==> (e.failure.Some? ==> m.failure.Some?) && (m.failure.None? ==> forall s <- e.expected :: s in m.expected))
  }

  lemma MergesAccounts(xs: seq<Err>, m: Err, e: Err)
    requires Merges(xs, m) && e in xs
    ensures Accounts(m, e)
  {
  }

  /** The strings one after the other, with commas between them. */
  function Commas(xs: seq<string>): string {
    if |xs| == 0 then "" else if |xs| == 1 then xs[0] else Commas(xs[..|xs|-1]) + ", " + xs[|xs|-1]
  }

  /** The list of an error: commas between the strings, "or" before the last. */
  lemma {:induction false} JoinedList(xs: seq<string>)
    requires |xs| > 1
    ensures Joined(xs) == Commas(xs[..|xs|-1]) + " or " + xs[|xs|-1]
  {
    var n := |xs| - 1;
    if n == 1 {
      assert xs[..1] == [xs[0]];
    } else {
      JoinedList(xs[1..]);
      assert xs[1..][..n-1] == xs[..n][1..];
      CommasFront(xs[..n]);
      assert xs[0] + ", " + (Commas(xs[..n][1..]) + " or " + xs[n]) == xs[0] + ", " + Commas(xs[..n][1..]) + " or " + xs[n];
    }
  }

  lemma {:induction false} CommasFront(xs: seq<string>)
    requires |xs| > 1
    ensures Commas(xs) == xs[0] + ", " + Commas(xs[1..])
  {
    var n := |xs| - 1;
    if n == 1 {
      assert xs[..1] == [xs[0]] && xs[1..] == [xs[1]];
    } else {
      CommasFront(xs[..n]);
      assert xs[..n][1..] == xs[1..][..n-1];
      assert (xs[0] + ", " + Commas(xs[1..][..n-1])) + ", " + xs[n] == xs[0] + ", " + (Commas(xs[1..][..n-1]) + ", " + xs[n]);
    }
  }

  /** The number that digits stand for. */
  function Number(s: string): int {
    if s == "" then 0 else 10 * Number(s[..|s|-1]) + (s[|s|-1] as int - '0' as int)
  }

  lemma {:induction false} DecimalNumber(n: nat)
    ensures var s := Decimal(n); Number(s) == n && s != "" && (s[0] == '0' ==> n == 0) && forall c <- s :: '0' <= c <= '9'
  {
    var d := ["0123456789"[n % 10]];
    assert d[0] as int - '0' as int == n % 10;
    if n >= 10 {
      DecimalNumber(n / 10);
      assert (Decimal(n / 10) + d)[..|Decimal(n / 10)|] == Decimal(n / 10);
    } else {
      assert ("" + d)[..0] == "";
    }
  }
}

// The growing and shrinking stacks of the parsing loop, in place over arrays.
module MpcStacks {
  import opened Arithmetic
  import opened MpcTypes
  import opened MpcErrors
  import opened MpcMachine

  /** The capacity after growing: ceil((slots + 1) * 1.5). */
  function Grown(slots: nat): nat { (3 * (slots + 1) + 1) / 2 }

  /** Whether slots > (num + 1) ^ 1.5, the condition for shrinking. */
  predicate Roomy(num: nat, slots: nat) { slots * slots > (num + 1) * (num + 1) * (num + 1) }

  /** The capacity after shrinking: floor((slots - 1) * 2 / 3). */
  function Shrunk(slots: nat): nat
    requires slots > 0
  {
    2 * (slots - 1) / 3
  }

  /** The new capacities are 3/2 of one slot more, rounded up, and 2/3 of one slot less, rounded down. */
  lemma Capacities(slots: nat)
    ensures 2 * Grown(slots) >= 3 * (slots + 1) > 2 * (Grown(slots) - 1)
    ensures slots > 0 ==> 3 * Shrunk(slots) <= 2 * (slots - 1) < 3 * (Shrunk(slots) + 1)
  {
  }

  lemma CubeExceedsSquare(n: nat)
    ensures (3 * n + 1) * (3 * n + 1) <= 4 * ((n + 1) * (n + 1) * (n + 1))
  {
    var q := n * n;
    assert (3 * n + 1) * (3 * n + 1) == 9 * q + 6 * n + 1;
    assert (n + 1) * (n + 1) == q + 2 * n + 1;
    assert (q + 2 * n + 1) * (n + 1) == q * n + 3 * q + 3 * n + 1;
    assert q * n >= 0;
  }

  /** Shrinking never cuts into the live part. */
  lemma ShrunkHolds(num: nat, slots: nat)
    requires Roomy(num, slots)
    ensures slots > 0 && num <= Shrunk(slots) < slots
  {
    assert (num + 1) * (num + 1) * (num + 1) >= 0;
    if slots > 0 && Shrunk(slots) < num {
      assert 2 * slots <= 3 * num + 1;
      SquareGrows(2 * slots, 3 * num + 1);
      assert (2 * slots) * (2 * slots) == 4 * (slots * slots);
      CubeExceedsSquare(num);
    }
  }

  /** Two parallel arrays used as one stack, with the library's growth policy. */
  class PairStack<A(0), B(0)> {
    var num: nat
    var firsts: array<A>
    var seconds: array<B>

    ghost predicate Valid()
      reads this
    {
      num <= firsts.Length == seconds.Length && firsts as object != seconds as object
    }

    ghost function Repr(): set<object>
      reads this
    {
      {this, firsts, seconds}
    }

    /** The live part, the top last. */
    ghost function Contents(): (s: seq<(A, B)>)
      reads this, firsts, seconds
      requires Valid()
      ensures |s| == num
    {
      seq(num, i requires 0 <= i < num && num <= firsts.Length == seconds.Length reads this, firsts, seconds => (firsts[i], seconds[i]))
    }

    constructor ()
      ensures Valid() && Contents() == [] && fresh(Repr())
    {
      num := 0;
      firsts := new A[0];
      seconds := new B[0];
    }

    /** Moves the live part to arrays with the given number of slots. */
    method Reallocate(live: nat, slots: nat)
      requires Valid() && live <= firsts.Length && live <= slots
      modifies this`firsts, this`seconds
      ensures fresh(firsts) && fresh(seconds) && firsts as object != seconds as object
      ensures firsts.Length == seconds.Length == slots
      ensures firsts[..live] == old(firsts[..live]) && seconds[..live] == old(seconds[..live])
    {
      var fs, ss := new A[slots], new B[slots];
      var fs0, ss0 := firsts, seconds;
      for i := 0 to live
        invariant fs[..i] == fs0[..i] && ss[..i] == ss0[..i]
        invariant unchanged(fs0) && unchanged(ss0)
      {
        fs[i], ss[i] := fs0[i], ss0[i];
      }
      firsts, seconds := fs, ss;
    }

    method Push(a: A, b: B)
      requires Valid()
      modifies Repr()
      ensures Valid() && fresh(Repr() - old(Repr()))
      ensures Contents() == old(Contents()) + [(a, b)]
    {
      if num + 1 > firsts.Length {
        Reallocate(num, Grown(firsts.Length));
      }
      num := num + 1;
      firsts[num-1], seconds[num-1] := a, b;
    }

    method Pop() returns (a: A, b: B)
      requires Valid() && num > 0
      modifies Repr()
      ensures Valid() && fresh(Repr() - old(Repr()))
      ensures old(Contents()) == Contents() + [(a, b)]
    {
      a, b := firsts[num-1], seconds[num-1];
      num := num - 1;
      if Roomy(num, firsts.Length) {
        ShrunkHolds(num, firsts.Length);
        Reallocate(num, Shrunk(firsts.Length));
      }
    }

    method Peek() returns (a: A, b: B)
      requires Valid() && num > 0
      ensures (a, b) == Contents()[num-1]
    {
      a, b := firsts[num-1], seconds[num-1];
    }

    method SetSecond(b: B)
      requires Valid() && num > 0
      modifies Repr()
      ensures Valid() && Repr() == old(Repr())
      ensures num == old(num) && Contents() == old(Contents())[num-1 := (old(Contents())[num-1].0, b)]
    {
      seconds[num-1] := b;
    }
  }

  function FramesOf(s: seq<(Parser, nat)>): (frames: seq<Frame>)
    ensures |frames| == |s|
  {
    seq(|s|, i requires 0 <= i < |s| => Frame(s[i].0, s[i].1))
  }

  function ResultsOf(s: seq<(Res, int)>): (rs: seq<Res>)
    ensures |rs| == |s|
  {
    seq(|s|, i requires 0 <= i < |s| => s[i].0)
  }

  /** The return flags say which results are outputs. */
  predicate Tagged(s: seq<(Res, int)>) {
    forall i :: 0 <= i < |s| ==> (s[i].1 == 1 <==> s[i].0.Out?) && (s[i].1 == 0 <==> s[i].0.Er?)
  }

  /** The parser stack and the result stack of one parse, with the error merged so far and the
      record of destructor calls. */
  class Stack {
    const parsers: PairStack<Parser, nat>
    const results: PairStack<Res, int>
    var err: Err
    var log: seq<Destroyed>

    ghost var Repr: set<object>

    ghost predicate Valid()
      reads this, Repr
    {
      && this in Repr && parsers in Repr && results in Repr
      && parsers.Repr() <= Repr && results.Repr() <= Repr
      && parsers.Valid() && results.Valid()
      && parsers.Repr() !! results.Repr()
      && this !in parsers.Repr() && this !in results.Repr()
      && Tagged(results.Contents())
    }

    ghost function Frames(): seq<Frame>
      reads this, Repr
      requires Valid()
    {
      FramesOf(parsers.Contents())
    }

    ghost function Results(): seq<Res>
      reads this, Repr
      requires Valid()
    {
      ResultsOf(results.Contents())
    }

    constructor ()
      ensures Valid() && fresh(Repr)
      ensures Frames() == [] && Results() == [] && err == UNKNOWN_ERROR && log == []
    {
      parsers := new PairStack();
      results := new PairStack();
      err := UNKNOWN_ERROR;
      log := [];
      new;
      Repr := {this} + parsers.Repr() + results.Repr();
    }

    method SetErr(e: Err)
      requires Valid()
      modifies Repr
      ensures Valid() && Repr == old(Repr)
      ensures err == e && log == old(log) && Frames() == old(Frames()) && Results() == old(Results())
    {
      err := e;
    }

    method AddLog(d: Destroyed)
      requires Valid()
      modifies Repr
      ensures Valid() && Repr == old(Repr)
      ensures err == old(err) && log == old(log) + [d] && Frames() == old(Frames()) && Results() == old(Results())
    {
      log := log + [d];
    }

    method PushParser(p: Parser)
      requires Valid()
      modifies Repr
      ensures Valid() && fresh(Repr - old(Repr))
      ensures err == old(err) && log == old(log)
      ensures Frames() == old(Frames()) + [Frame(p, 0)]
      ensures Results() == old(Results())
    {
      parsers.Push(p, 0);
      Repr := Repr + parsers.Repr();
    }

    method PopParser() returns (p: Parser, st: nat)
      requires Valid() && Frames() != []
      modifies Repr
      ensures Valid() && fresh(Repr - old(Repr))
      ensures err == old(err) && log == old(log)
      ensures Frames() == old(Frames())[..|old(Frames())|-1] && Frame(p, st) == old(Frames())[|old(Frames())|-1]
      ensures Results() == old(Results())
    {
      ghost var s := parsers.Contents();
      p, st := parsers.Pop();
      assert s[|s|-1] == (p, st);
      assert forall i :: 0 <= i < |s| - 1 ==> parsers.Contents()[i] == s[i];
      Repr := Repr + parsers.Repr();
    }

    method PeekParser() returns (p: Parser, st: nat)
      requires Valid() && Frames() != []
      ensures Frame(p, st) == Frames()[|Frames()|-1]
    {
      p, st := parsers.Peek();
    }

    method SetState(st: nat)
      requires Valid() && Frames() != []
      modifies Repr
      ensures Valid() && fresh(Repr - old(Repr))
      ensures err == old(err) && log == old(log)
      ensures Frames() == old(Frames())[..|old(Frames())|-1] + [Frame(old(Frames())[|old(Frames())|-1].p, st)]
      ensures Results() == old(Results())
    {
      parsers.SetSecond(st);
      Repr := Repr + parsers.Repr();
    }

    method PushResult(r: Res)
      requires Valid()
      modifies Repr
      ensures Valid() && fresh(Repr - old(Repr))
      ensures err == old(err) && log == old(log)
      ensures Results() == old(Results()) + [r]
      ensures Frames() == old(Frames())
    {
      results.Push(r, if r.Out? then 1 else 0);
      Repr := Repr + results.Repr();
    }

    method PopResult() returns (r: Res, ret: int)
      requires Valid() && Results() != []
      modifies Repr
      ensures Valid() && fresh(Repr - old(Repr))
      ensures err == old(err) && log == old(log)
      ensures Results() == old(Results())[..|old(Results())|-1] && r == old(Results())[|old(Results())|-1]
      ensures ret == if r.Out? then 1 else 0
      ensures Frames() == old(Frames())
    {
      ghost var s := results.Contents();
      r, ret := results.Pop();
      assert s[|s|-1] == (r, ret);
      assert forall i :: 0 <= i < |s| - 1 ==> results.Contents()[i] == s[i];
      Repr := Repr + results.Repr();
    }

    method PeekResult() returns (r: Res, ret: int)
      requires Valid() && Results() != []
      ensures r == Results()[|Results()|-1]
      ensures ret == if r.Out? then 1 else 0
    {
      r, ret := results.Peek();
    }
  }
}

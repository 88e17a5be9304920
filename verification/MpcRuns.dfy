// Runs of a stepping function over machines, with a floor under the parser stack.
module MpcRuns {
  import opened MpcTypes
  import opened MpcMachine

  type Stepper = Machine -> Machine

  /** step is the loop of the parsing machine. (The trigger keeps the definition of a turn out of
      sight until a turn is mentioned.) */
  ghost predicate Steps(g: Grammar, txt: string, step: Stepper) {
    forall m {:trigger Step(g, txt, m)} :: step(m) == Step(g, txt, m)
  }

  /** The state of the loop after n turns, or when it has ended before. */
  function After(step: Stepper, n: nat, m: Machine): Machine {
    if n == 0 || m.Wrong? || m.frames == [] then m else After(step, n - 1, step(m))
  }

  ghost predicate Above(h: nat, m: Machine) { m.Machine? && |m.frames| > h }

  /** Whether n turns lead from m to m', with more than h parsers on the stack on the way. */
  ghost predicate Reaches(step: Stepper, h: nat, n: nat, m: Machine, m': Machine) {
    if n == 0 then m == m' else Above(h, m) && Reaches(step, h, n - 1, step(m), m')
  }

  /** Whether more than h parsers are on the stack before each of the first n turns. */
  ghost predicate Stays(step: Stepper, h: nat, n: nat, m: Machine) {
    n == 0 || (Above(h, m) && Stays(step, h, n - 1, step(m)))
  }

  lemma {:induction false} ReachesThen(step: Stepper, h: nat, a: nat, b: nat, m: Machine, m1: Machine, m2: Machine)
    requires Reaches(step, h, a, m, m1) && Reaches(step, h, b, m1, m2)
    ensures Reaches(step, h, a + b, m, m2)
  {
    if a > 0 { ReachesThen(step, h, a - 1, b, step(m), m1, m2); }
  }

  lemma {:induction false} StaysAfter(step: Stepper, h: nat, a: nat, b: nat, m: Machine, m1: Machine)
    requires Reaches(step, h, a, m, m1) && Stays(step, h, b, m1)
    ensures Stays(step, h, a + b, m)
  {
    if a > 0 { StaysAfter(step, h, a - 1, b, step(m), m1); }
  }

  lemma {:induction false} StaysLess(step: Stepper, h: nat, h': nat, n: nat, n': nat, m: Machine)
    requires h' <= h && n' <= n && Stays(step, h, n, m)
    ensures Stays(step, h', n', m)
  {
    if n' > 0 { StaysLess(step, h, h', n - 1, n' - 1, step(m)); }
  }

  lemma {:induction false} ReachesLower(step: Stepper, h: nat, h': nat, n: nat, m: Machine, m': Machine)
    requires h' <= h && Reaches(step, h, n, m, m')
    ensures Reaches(step, h', n, m, m')
  {
    if n > 0 { ReachesLower(step, h, h', n - 1, step(m), m'); }
  }

  lemma {:induction false} ReachesIsAfter(step: Stepper, n: nat, m: Machine, m': Machine)
    requires Reaches(step, 0, n, m, m')
    ensures After(step, n, m) == m'
  {
    if n > 0 { ReachesIsAfter(step, n - 1, step(m), m'); }
  }
}

/** Finite runs of a step relation, and the two induction principles the protocols use. */
module Runs {

  /** Step `i` leads from state `i` to state `i + 1`. */
  datatype Run<S, A> = Run(states: seq<S>, steps: seq<A>)

  ghost predicate IsRun<S(!new), A(!new)>(next: (S, A, S) -> bool, r: Run<S, A>) {
    && |r.states| == |r.steps| + 1
    && forall i :: 0 <= i < |r.steps| ==> next(r.states[i], r.steps[i], r.states[i + 1])
  }

  function Final<S, A>(r: Run<S, A>): S
    requires |r.states| == |r.steps| + 1
  {
    r.states[|r.steps|]
  }

  ghost predicate Inductive<S(!new), A(!new)>(next: (S, A, S) -> bool, inv: S -> bool) {
    forall s, a, s' :: inv(s) && next(s, a, s') ==> inv(s')
  }

  /** What holds at first and is kept by every step holds throughout. */
  lemma {:induction false} Invariance<S(!new), A(!new)>(next: (S, A, S) -> bool, inv: S -> bool, r: Run<S, A>, n: nat)
    requires IsRun(next, r) && Inductive(next, inv) && inv(r.states[0]) && n <= |r.steps|
    ensures inv(r.states[n])
  {
    if n > 0 {
      Invariance(next, inv, r, n - 1);
      assert next(r.states[n - 1], r.steps[n - 1], r.states[n - 1 + 1]);
    }
  }

  /** How many of the first `n` steps are counted. */
  function Count<A>(counted: A -> bool, steps: seq<A>, n: nat): nat
    requires n <= |steps|
  {
    if n == 0 then 0 else Count(counted, steps, n - 1) + if counted(steps[n - 1]) then 1 else 0
  }

  ghost predicate Ranks<S(!new), A(!new)>(next: (S, A, S) -> bool, counted: A -> bool, rank: S -> nat) {
    forall s, a, s' :: next(s, a, s') ==> rank(s') + (if counted(a) then 1 else 0) <= rank(s)
  }

  /** A rank that no step raises and every counted step lowers bounds the counted steps. */
  lemma {:induction false} Ranking<S(!new), A(!new)>(
    next: (S, A, S) -> bool, counted: A -> bool, rank: S -> nat, r: Run<S, A>, n: nat)
    requires IsRun(next, r) && Ranks(next, counted, rank) && n <= |r.steps|
    ensures Count(counted, r.steps, n) + rank(r.states[n]) <= rank(r.states[0])
  {
    if n > 0 {
      Ranking(next, counted, rank, r, n - 1);
      assert next(r.states[n - 1], r.steps[n - 1], r.states[n - 1 + 1]);
    }
  }

  lemma Strengthen<S(!new), A(!new)>(
    next: (S, A, S) -> bool, inv: S -> bool, next': (S, A, S) -> bool, r: Run<S, A>)
    requires IsRun(next, r) && Inductive(next, inv) && inv(r.states[0])
    requires forall s, a, s' :: inv(s) && next(s, a, s') ==> next'(s, a, s')
    ensures IsRun(next', r)
  {
    forall i | 0 <= i < |r.steps| ensures next'(r.states[i], r.steps[i], r.states[i + 1]) {
      Invariance(next, inv, r, i);
      assert next(r.states[i], r.steps[i], r.states[i + 1]);
    }
  }

  function Longer<S, A>(r: Run<S, A>, step: A, s: S): Run<S, A> {
    Run(r.states + [s], r.steps + [step])
  }

  lemma LongerIsRun<S(!new), A(!new)>(next: (S, A, S) -> bool, r: Run<S, A>, step: A, s: S)
    requires IsRun(next, r) && next(Final(r), step, s)
    ensures IsRun(next, Longer(r, step, s)) && Final(Longer(r, step, s)) == s
  {
    var r' := Longer(r, step, s);
    forall i | 0 <= i < |r'.steps| ensures next(r'.states[i], r'.steps[i], r'.states[i + 1]) {
      if i < |r.steps| { assert next(r.states[i], r.steps[i], r.states[i + 1]); }
    }
  }
}

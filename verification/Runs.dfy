/** Runs of a machine: from a first state, one step after another. */
module Runs {

  function Run<S, A>(next: (S, A) -> S, s: S, steps: seq<A>): S {
    if steps == [] then s else next(Run(next, s, steps[..|steps| - 1]), steps[|steps| - 1])
  }

  lemma {:induction false} Join<S, A>(next: (S, A) -> S, s: S, a: seq<A>, b: seq<A>)
    ensures Run(next, s, a + b) == Run(next, Run(next, s, a), b)
  {
    if b == [] {
      assert a + b == a;
    } else {
      assert (a + b)[..|a + b| - 1] == a + b[..|b| - 1];
      Join(next, s, a, b[..|b| - 1]);
    }
  }
}

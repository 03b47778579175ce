/** Runs of a state machine, and when an invariant holds after every step of one. */
module Runs {

  function RunOf<S, E>(s: S, events: seq<E>, step: (S, E) -> S): S {
    if events == [] then s else step(RunOf(s, events[..|events| - 1], step), events[|events| - 1])
  }

  /** A step keeps the invariant exactly when it is harmless. */
  ghost predicate KeepsExactly<S(!new), E(!new)>(step: (S, E) -> S, inv: S -> bool, harmless: (S, E) -> bool) {
    forall s, e :: inv(s) ==> (inv(step(s, e)) <==> harmless(s, e))
  }

  /** The invariant holds before the run and after every step of it. */
  ghost predicate Always<S, E>(s: S, events: seq<E>, step: (S, E) -> S, inv: S -> bool) {
    forall n :: 0 <= n <= |events| ==> inv(RunOf(s, events[..n], step))
  }

  ghost predicate AlwaysHarmless<S, E>(s: S, events: seq<E>, step: (S, E) -> S, harmless: (S, E) -> bool) {
    forall n :: 0 <= n < |events| ==> harmless(RunOf(s, events[..n], step), events[n])
  }

  lemma RunNext<S, E>(s: S, events: seq<E>, n: nat, step: (S, E) -> S)
    requires n < |events|
    ensures RunOf(s, events[..n + 1], step) == step(RunOf(s, events[..n], step), events[n])
  {
    assert events[..n + 1][..n] == events[..n];
  }

  lemma {:induction false} HarmlessPrefix<S(!new), E(!new)>(s: S, events: seq<E>, n: nat, step: (S, E) -> S,
                                                          inv: S -> bool, harmless: (S, E) -> bool)
    requires KeepsExactly(step, inv, harmless) && inv(s) && n <= |events|
    requires AlwaysHarmless(s, events, step, harmless)
    ensures inv(RunOf(s, events[..n], step))
  {
    if n > 0 {
      HarmlessPrefix(s, events, n - 1, step, inv, harmless);
      RunNext(s, events, n - 1, step);
    }
  }

  /** The invariant holds throughout a run exactly when every step of it is harmless. */
  lemma InvariantExactly<S(!new), E(!new)>(s: S, events: seq<E>, step: (S, E) -> S, inv: S -> bool, harmless: (S, E) -> bool)
    requires KeepsExactly(step, inv, harmless) && inv(s)
    ensures Always(s, events, step, inv) <==> AlwaysHarmless(s, events, step, harmless)
  {
    if Always(s, events, step, inv) {
      forall n | 0 <= n < |events|
        ensures harmless(RunOf(s, events[..n], step), events[n])
      {
        RunNext(s, events, n, step);
        assert inv(RunOf(s, events[..n + 1], step));
      }
    }
    if AlwaysHarmless(s, events, step, harmless) {
      forall n | 0 <= n <= |events|
        ensures inv(RunOf(s, events[..n], step))
      {
        HarmlessPrefix(s, events, n, step, inv, harmless);
      }
    }
  }
}

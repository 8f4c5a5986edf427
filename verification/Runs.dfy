/** Runs of a state machine: a step function that answers the next state or that the event cannot happen. */
module Runs {
  import opened Wrappers

  /** The state after the events, if each can happen in turn. */
  ghost function Run<S, E>(step: (S, E) -> Option<S>, s: S, es: seq<E>): Option<S>
    decreases |es|
  {
    if es == [] then Some(s)
    else
      var next := step(s, es[0]);
      if next.None? then None else Run(step, next.value, es[1..])
  }

  /** A run with one more event. */
  lemma {:induction false} RunAppend<S, E>(step: (S, E) -> Option<S>, s: S, es: seq<E>, e: E)
    requires Run(step, s, es).Some?
    ensures Run(step, s, es + [e]) == step(Run(step, s, es).value, e)
    decreases |es|
  {
    if es == [] {
      assert [e][1..] == [];
    } else {
      RunAppend(step, step(s, es[0]).value, es[1..], e);
      assert (es + [e])[1..] == es[1..] + [e];
    }
  }

  /** What every step keeps, every run keeps. */
  lemma {:induction false} RunKeeps<S(!new), E(!new)>(step: (S, E) -> Option<S>, inv: S -> bool, s: S, es: seq<E>)
    requires inv(s) && Run(step, s, es).Some?
    requires forall s: S, e: E :: inv(s) && step(s, e).Some? ==> inv(step(s, e).value)
    ensures inv(Run(step, s, es).value)
    decreases |es|
  {
    if es != [] { RunKeeps(step, inv, step(s, es[0]).value, es[1..]); }
  }

  /** A run from `s0` to `s`, extended by an event that can happen. */
  lemma Extend<S, E>(step: (S, E) -> Option<S>, s0: S, es: seq<E>, s: S, e: E) returns (es': seq<E>)
    requires Run(step, s0, es) == Some(s) && step(s, e).Some?
    ensures Run(step, s0, es') == step(s, e)
  {
    RunAppend(step, s0, es, e);
    es' := es + [e];
  }
}

/** Replaying a stream of events through a reducer, and the two facts every
    snapshot-style hook relies on: replay splits at any point, and a part of
    the state that each event either overwrites or leaves alone ends up
    holding the value of the last event that overwrote it. */
module Replay {
  import opened Wrappers

  /** The state after delivering `es` in order, starting from `s`. */
  function Run<S, E>(reduce: (S, E) -> S, s: S, es: seq<E>): S
    decreases |es|
  {
    if es == [] then s else reduce(Run(reduce, s, es[..|es| - 1]), es[|es| - 1])
  }

  /** Replaying `a` then `b` is replaying `a + b`. */
  lemma {:induction false} RunAppend<S, E>(reduce: (S, E) -> S, s: S, a: seq<E>, b: seq<E>)
    ensures Run(reduce, s, a + b) == Run(reduce, Run(reduce, s, a), b)
    decreases |b|
  {
    if b == [] {
      assert a + b == a;
    } else {
      assert (a + b)[..|a + b| - 1] == a + b[..|b| - 1];
      RunAppend(reduce, s, a, b[..|b| - 1]);
    }
  }

  /** Last write wins. `view` is a part of the state; every event either
      overwrites it with `pick(e).value` or leaves it alone. After a replay,
      the view holds the value of the last overwriting event, or its initial
      value when no event overwrote it. */
  lemma {:induction false} LastPickWins<S, E, V>(
    reduce: (S, E) -> S, view: S -> V, pick: E -> Option<V>, s: S, es: seq<E>)
    requires forall t: S, e: E :: view(reduce(t, e)) == if pick(e).Some? then pick(e).value else view(t)
    ensures (forall i | 0 <= i < |es| :: pick(es[i]).None?) ==> view(Run(reduce, s, es)) == view(s)
    ensures forall i | 0 <= i < |es| && pick(es[i]).Some? && (forall j | i < j < |es| :: pick(es[j]).None?) ::
              view(Run(reduce, s, es)) == pick(es[i]).value
    decreases |es|
  {
    if es != [] {
      var n := |es| - 1;
      var init := es[..n];
      LastPickWins(reduce, view, pick, s, init);
      assert forall i | 0 <= i < n :: init[i] == es[i];
      assert Run(reduce, s, es) == reduce(Run(reduce, s, init), es[n]);
    }
  }
}

/** Runs of a step relation: any sequence of states joined by enabled events. */
module Runs {
  ghost predicate IsRun<S(!new), E(!new)>(initial: S, moves: (S, E, S) -> bool, states: seq<S>, events: seq<E>) {
    && |states| == |events| + 1
    && states[0] == initial
    && (forall i :: 0 <= i < |events| ==> moves(states[i], events[i], states[i + 1]))
  }

  ghost predicate Inductive<S(!new), E(!new)>(initial: S, moves: (S, E, S) -> bool, inv: S -> bool) {
    inv(initial) && forall s, e, t :: inv(s) && moves(s, e, t) ==> inv(t)
  }

  /** A relation that every step from an invariant state respects, and that composes. */
  ghost predicate Lasting<S(!new), E(!new)>(moves: (S, E, S) -> bool, inv: S -> bool, keeps: (S, S) -> bool) {
    && (forall s :: keeps(s, s))
    && (forall s, t, u :: keeps(s, t) && keeps(t, u) ==> keeps(s, u))
    && (forall s, e, t :: inv(s) && moves(s, e, t) ==> keeps(s, t))
  }

  /** An inductive invariant holds in every state of every run. */
  lemma {:induction false} Always<S(!new), E(!new)>(initial: S, moves: (S, E, S) -> bool, inv: S -> bool,
                                                     states: seq<S>, events: seq<E>, i: nat)
    requires IsRun(initial, moves, states, events) && Inductive(initial, moves, inv) && i < |states|
    ensures inv(states[i])
  {
    if i > 0 {
      Always(initial, moves, inv, states, events, i - 1);
      assert moves(states[i - 1], events[i - 1], states[i - 1 + 1]);
    }
  }

  /** A lasting relation joins any two states of a run, the later one second. */
  lemma {:induction false} Between<S(!new), E(!new)>(initial: S, moves: (S, E, S) -> bool, inv: S -> bool, keeps: (S, S) -> bool,
                                                      states: seq<S>, events: seq<E>, i: nat, j: nat)
    requires IsRun(initial, moves, states, events) && i <= j < |states|
    requires Inductive(initial, moves, inv) && Lasting(moves, inv, keeps)
    ensures keeps(states[i], states[j])
    decreases j
  {
    if i < j {
      Between(initial, moves, inv, keeps, states, events, i, j - 1);
      Always(initial, moves, inv, states, events, j - 1);
      assert moves(states[j - 1], events[j - 1], states[j - 1 + 1]);
      assert keeps(states[j - 1], states[j]);
    }
  }

  lemma Moved<S(!new), E(!new)>(initial: S, moves: (S, E, S) -> bool, states: seq<S>, events: seq<E>, i: nat)
    requires IsRun(initial, moves, states, events) && i < |events|
    ensures moves(states[i], events[i], states[i + 1])
  {
  }
}

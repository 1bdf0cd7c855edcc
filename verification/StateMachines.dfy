/** Runs of a state machine given by its initial states and its steps. */
module StateMachines {

  ghost predicate IsRun<S(!new), A(!new)>(init: S -> bool, step: (S, A, S) -> bool, states: seq<S>, actions: seq<A>) {
    && |states| == |actions| + 1
    && init(states[0])
    && (forall k {:trigger actions[k]} | 0 <= k < |actions| :: step(states[k], actions[k], states[k + 1]))
  }

  ghost predicate Preserves<S(!new), A(!new)>(inv: S -> bool, step: (S, A, S) -> bool) {
    forall s, a, s' :: inv(s) && step(s, a, s') ==> inv(s')
  }

  /** What every step keeps and one state of a run has, all later states have. */
  lemma {:induction false} HoldsFrom<S(!new), A(!new)>(init: S -> bool, step: (S, A, S) -> bool, inv: S -> bool,
                                                       states: seq<S>, actions: seq<A>, j: nat, k: nat)
    requires IsRun(init, step, states, actions) && Preserves(inv, step)
    requires j <= k < |states| && inv(states[j])
    ensures inv(states[k])
    decreases k - j
  {
    if j < k {
      HoldsFrom(init, step, inv, states, actions, j, k - 1);
      assert step(states[k - 1], actions[k - 1], states[k]);
    }
  }

  /** An inductive invariant holds in every state of every run. */
  lemma Invariant<S(!new), A(!new)>(init: S -> bool, step: (S, A, S) -> bool, inv: S -> bool,
                                    states: seq<S>, actions: seq<A>, k: nat)
    requires IsRun(init, step, states, actions) && Preserves(inv, step)
    requires forall s | init(s) :: inv(s)
    requires k < |states|
    ensures inv(states[k])
  {
    HoldsFrom(init, step, inv, states, actions, 0, k);
  }

  ghost predicate Decreases<S(!new), A(!new)>(inv: S -> bool, step: (S, A, S) -> bool, measure: S -> nat) {
    forall s, a, s' :: inv(s) && step(s, a, s') ==> measure(s') < measure(s)
  }

  /** With a measure that every step lowers, a run is no longer than its first state's measure. */
  lemma {:induction false} RunIsBounded<S(!new), A(!new)>(init: S -> bool, step: (S, A, S) -> bool, inv: S -> bool,
                                                          measure: S -> nat,
                                                          states: seq<S>, actions: seq<A>, k: nat)
    requires IsRun(init, step, states, actions) && Preserves(inv, step) && Decreases(inv, step, measure)
    requires forall s | init(s) :: inv(s)
    requires k < |states|
    ensures k + measure(states[k]) <= measure(states[0])
  {
    if k > 0 {
      RunIsBounded(init, step, inv, measure, states, actions, k - 1);
      Invariant(init, step, inv, states, actions, k - 1);
      assert step(states[k - 1], actions[k - 1], states[k]);
    }
  }

  /** How many of the actions from j to k count. */
  ghost function CountActions<A(!new)>(actions: seq<A>, counts: A -> bool, j: nat, k: nat): nat
    requires k <= |actions|
  {
    if k <= j then 0 else CountActions(actions, counts, j, k - 1) + if counts(actions[k - 1]) then 1 else 0
  }

  /** Every step taken where inv holds lowers the measure by one if it counts, and keeps it otherwise. */
  ghost predicate CountsDown<S(!new), A(!new)>(inv: S -> bool, step: (S, A, S) -> bool, counts: A -> bool,
                                               measure: S -> nat) {
    forall s, a, s' :: inv(s) && step(s, a, s') ==> measure(s) == measure(s') + if counts(a) then 1 else 0
  }

  /** Then the measure says how many counting steps are still to come. */
  lemma {:induction false} CountedSteps<S(!new), A(!new)>(init: S -> bool, step: (S, A, S) -> bool, inv: S -> bool,
                                                          counts: A -> bool, measure: S -> nat,
                                                          states: seq<S>, actions: seq<A>, j: nat, k: nat)
    requires IsRun(init, step, states, actions) && Preserves(inv, step) && CountsDown(inv, step, counts, measure)
    requires j <= k < |states| && inv(states[j])
    ensures CountActions(actions, counts, j, k) + measure(states[k]) == measure(states[j])
    decreases k - j
  {
    if j < k {
      CountedSteps(init, step, inv, counts, measure, states, actions, j, k - 1);
      HoldsFrom(init, step, inv, states, actions, j, k - 1);
      assert step(states[k - 1], actions[k - 1], states[k]);
    }
  }

  // ---- reachable states ----

  ghost predicate Reaches<S(!new), A(!new)>(init: S -> bool, step: (S, A, S) -> bool, s: S) {
    exists states, actions :: IsRun(init, step, states, actions) && states[|actions|] == s
  }

  lemma ReachInit<S(!new), A(!new)>(init: S -> bool, step: (S, A, S) -> bool, s: S)
    requires init(s)
    ensures Reaches(init, step, s)
  {
    var states, actions: seq<A> := [s], [];
    assert IsRun(init, step, states, actions) && states[|actions|] == s;
  }

  lemma ReachStep<S(!new), A(!new)>(init: S -> bool, step: (S, A, S) -> bool, s: S, a: A, s': S)
    requires Reaches(init, step, s) && step(s, a, s')
    ensures Reaches(init, step, s')
  {
    var states, actions :| IsRun(init, step, states, actions) && states[|actions|] == s;
    var more, moreActions := states + [s'], actions + [a];
    forall k {:trigger moreActions[k]} | 0 <= k < |moreActions| ensures step(more[k], moreActions[k], more[k + 1]) {
      assert k < |actions| ==> step(states[k], actions[k], states[k + 1]);
    }
    assert IsRun(init, step, more, moreActions) && more[|moreActions|] == s';
  }

  /** What the initial states have and every step keeps, every reachable state has. */
  lemma HoldsWhenReached<S(!new), A(!new)>(init: S -> bool, step: (S, A, S) -> bool, inv: S -> bool, s: S)
    requires Reaches(init, step, s) && Preserves(inv, step) && forall t | init(t) :: inv(t)
    ensures inv(s)
  {
    var states, actions :| IsRun(init, step, states, actions) && states[|actions|] == s;
    Invariant(init, step, inv, states, actions, |actions|);
  }
}

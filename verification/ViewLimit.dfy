/** The view limit of files and short URLs: each request reads the row, compares, and later
    increments the counter in one atomic statement. At most K requests for one row are in flight. */
module ViewLimit {
  import opened Arithmetic
  import opened Wrappers
  import StateMachines

  /** Loaded remembers the view count the request read. counts says whether serving it counts as a
      view, which its Range header decides. */
  datatype Request = Free | Loaded(views: int, counts: bool) | Admitted(counts: bool)

  /** The row's view counter, while the row exists, and the K request slots. */
  datatype State = State(views: Option<int>, slots: seq<Request>)

  /** A request may leave at any point: refused for another reason, or failing before it counts. */
  datatype Action = Arrive(k: nat, counts: bool) | Leave(k: nat) | Decide(k: nat) | Finish(k: nat)

  datatype Limits = Limits(maxViews: Option<int>, deleteOnMaxViews: bool)

  predicate AtLimit(lim: Limits, views: int) {
    lim.maxViews.Some? && views >= lim.maxViews.value
  }

  ghost predicate Init(K: nat, start: int, s: State) {
    s.views == Some(start) && |s.slots| == K && forall k | 0 <= k < K :: s.slots[k] == Free
  }

  ghost predicate Step(lim: Limits, s: State, a: Action, s': State) {
    a.k < |s.slots| &&
    match a
    case Arrive(k, counts) =>
      s.slots[k].Free? && s' == if s.views.Some? then s.(slots := s.slots[k := Loaded(s.views.value, counts)]) else s
    case Leave(k) =>
      !s.slots[k].Free? && s' == s.(slots := s.slots[k := Free])
    case Decide(k) =>
      && s.slots[k].Loaded?
      && s' == if AtLimit(lim, s.slots[k].views)
               then State(if lim.deleteOnMaxViews then None else s.views, s.slots[k := Free])
               else s.(slots := s.slots[k := Admitted(s.slots[k].counts)])
    case Finish(k) =>
      && s.slots[k].Admitted?
      && s' == State(if s.slots[k].counts && s.views.Some? then Some(s.views.value + 1) else s.views,
                     s.slots[k := Free])
  }

  /** Requests that may still increment the counter. */
  predicate MayCount(lim: Limits, r: Request) {
    (r.Loaded? && r.counts && !AtLimit(lim, r.views)) || (r.Admitted? && r.counts)
  }

  function Pending(lim: Limits, slots: seq<Request>): nat {
    if slots == [] then 0 else Pending(lim, slots[..|slots| - 1]) + if MayCount(lim, slots[|slots| - 1]) then 1 else 0
  }

  lemma {:induction false} PendingUpdate(lim: Limits, slots: seq<Request>, k: nat, r: Request)
    requires k < |slots|
    ensures Pending(lim, slots[k := r]) + One(MayCount(lim, slots[k])) == Pending(lim, slots) + One(MayCount(lim, r))
  {
    if k == |slots| - 1 {
      assert slots[k := r][..k] == slots[..k];
    } else {
      PendingUpdate(lim, slots[..|slots| - 1], k, r);
      assert slots[k := r][..|slots| - 1] == slots[..|slots| - 1][k := r];
    }
  }

  lemma {:induction false} PendingBound(lim: Limits, slots: seq<Request>)
    ensures Pending(lim, slots) <= |slots|
  {
    if slots != [] {
      PendingBound(lim, slots[..|slots| - 1]);
    }
  }

  /** A free slot pends nothing. */
  lemma PendingBelow(lim: Limits, slots: seq<Request>, k: nat)
    requires k < |slots| && slots[k].Free?
    ensures Pending(lim, slots) <= |slots| - 1
  {
    var counting := Admitted(true);
    PendingUpdate(lim, slots, k, counting);
    PendingBound(lim, slots[k := counting]);
  }

  lemma {:induction false} PendingNone(lim: Limits, slots: seq<Request>)
    requires forall k | 0 <= k < |slots| :: slots[k] == Free
    ensures Pending(lim, slots) == 0
  {
    if slots != [] {
      PendingNone(lim, slots[..|slots| - 1]);
    }
  }

  /** Counted views and views still to be counted stay within the limit plus K - 1. */
  ghost predicate WithinLimit(lim: Limits, K: nat, s: State) {
    && |s.slots| == K
    && (lim.maxViews.Some? && s.views.Some? ==> s.views.value + Pending(lim, s.slots) <= lim.maxViews.value + K - 1)
  }

  lemma StepKeepsLimit(lim: Limits, K: nat, s: State, a: Action, s': State)
    requires WithinLimit(lim, K, s) && Step(lim, s, a, s')
    ensures WithinLimit(lim, K, s')
  {
    PendingUpdate(lim, s.slots, a.k, s'.slots[a.k]);
    if a.Arrive? {
      PendingBelow(lim, s.slots, a.k);
    }
  }

  ghost function Starts(K: nat, start: int): State -> bool {
    s => Init(K, start, s)
  }

  ghost function Steps(lim: Limits): (State, Action, State) -> bool {
    (s, a, s') => Step(lim, s, a, s')
  }

  ghost predicate IsRun(lim: Limits, K: nat, start: int, states: seq<State>, actions: seq<Action>) {
    StateMachines.IsRun(Starts(K, start), Steps(lim), states, actions)
  }

  /** From a counter at or below the limit, with at most K requests in flight, the counter never
      passes the limit by more than K - 1. One request at a time never passes it. */
  lemma LimitHolds(maxViews: int, deletes: bool, K: nat, start: int, states: seq<State>, actions: seq<Action>, k: nat)
    requires K > 0 && start <= maxViews
    requires IsRun(Limits(Some(maxViews), deletes), K, start, states, actions) && k < |states|
    ensures states[k].views.Some? ==> states[k].views.value <= maxViews + K - 1
  {
    var lim := Limits(Some(maxViews), deletes);
    forall s | Init(K, start, s) ensures WithinLimit(lim, K, s) {
      PendingNone(lim, s.slots);
    }
    forall s, a, s' | WithinLimit(lim, K, s) && Steps(lim)(s, a, s') ensures WithinLimit(lim, K, s') {
      StepKeepsLimit(lim, K, s, a, s');
    }
    StateMachines.Invariant(Starts(K, start), Steps(lim), s => WithinLimit(lim, K, s), states, actions, k);
    assert WithinLimit(lim, K, states[k]);
  }

  // ---- a row is deleted only at its limit ----

  /** What requests have read is no more than what the row has now. */
  ghost predicate ReadsOld(s: State) {
    s.views.Some? ==> forall k | 0 <= k < |s.slots| && s.slots[k].Loaded? :: s.slots[k].views <= s.views.value
  }

  lemma DeletedOnlyAtLimit(lim: Limits, K: nat, start: int, states: seq<State>, actions: seq<Action>, k: nat)
    requires IsRun(lim, K, start, states, actions) && k < |actions|
    requires states[k].views.Some? && states[k + 1].views == None
    ensures lim.deleteOnMaxViews && AtLimit(lim, states[k].views.value)
  {
    forall s, a, s' | ReadsOld(s) && Steps(lim)(s, a, s') ensures ReadsOld(s') {
    }
    StateMachines.Invariant(Starts(K, start), Steps(lim), s => ReadsOld(s), states, actions, k);
    assert Steps(lim)(states[k], actions[k], states[k + 1]);
  }

  // ---- the bound is reached ----

  ghost predicate Reachable(lim: Limits, K: nat, start: int, s: State) {
    StateMachines.Reaches(Starts(K, start), Steps(lim), s)
  }

  /** The first i slots hold a, the others b. */
  function Mixed(K: nat, i: nat, a: Request, b: Request): (s: seq<Request>)
    ensures |s| == K && forall k | 0 <= k < K :: s[k] == if k < i then a else b
  {
    if K == 0 then [] else Mixed(K - 1, i, a, b) + [if K - 1 < i then a else b]
  }

  lemma {:induction false} AllArrive(lim: Limits, K: nat, start: int, i: nat)
    requires i <= K
    ensures Reachable(lim, K, start, State(Some(start), Mixed(K, i, Loaded(start, true), Free)))
  {
    if i == 0 {
      StateMachines.ReachInit(Starts(K, start), Steps(lim), State(Some(start), Mixed(K, 0, Loaded(start, true), Free)));
    } else {
      AllArrive(lim, K, start, i - 1);
      StateMachines.ReachStep(Starts(K, start), Steps(lim),
                              State(Some(start), Mixed(K, i - 1, Loaded(start, true), Free)),
                              Arrive(i - 1, true), State(Some(start), Mixed(K, i, Loaded(start, true), Free)));
    }
  }

  lemma {:induction false} AllAdmitted(lim: Limits, K: nat, start: int, i: nat)
    requires i <= K && !AtLimit(lim, start)
    ensures Reachable(lim, K, start, State(Some(start), Mixed(K, i, Admitted(true), Loaded(start, true))))
  {
    if i == 0 {
      AllArrive(lim, K, start, K);
    } else {
      AllAdmitted(lim, K, start, i - 1);
      StateMachines.ReachStep(Starts(K, start), Steps(lim),
                              State(Some(start), Mixed(K, i - 1, Admitted(true), Loaded(start, true))),
                              Decide(i - 1), State(Some(start), Mixed(K, i, Admitted(true), Loaded(start, true))));
    }
  }

  lemma {:induction false} AllCounted(lim: Limits, K: nat, start: int, i: nat)
    requires i <= K && !AtLimit(lim, start)
    ensures Reachable(lim, K, start, State(Some(start + i), Mixed(K, i, Free, Admitted(true))))
  {
    if i == 0 {
      AllAdmitted(lim, K, start, K);
    } else {
      AllCounted(lim, K, start, i - 1);
      StateMachines.ReachStep(Starts(K, start), Steps(lim),
                              State(Some(start + i - 1), Mixed(K, i - 1, Free, Admitted(true))),
                              Finish(i - 1), State(Some(start + i), Mixed(K, i, Free, Admitted(true))));
    }
  }

  /** K requests that all read the last view below the limit do reach the bound. */
  lemma BoundIsReached(maxViews: int, deletes: bool, K: nat)
    ensures exists s :: Reachable(Limits(Some(maxViews), deletes), K, maxViews - 1, s)
                        && s.views == Some(maxViews + K - 1)
  {
    AllCounted(Limits(Some(maxViews), deletes), K, maxViews - 1, K);
  }

  // ---- what becomes of a request at the limit ----

  ghost predicate Gone(s: State) {
    s.views == None
  }

  /** In every run a decision on a counter at or above the limit turns the request away, and with
      deleteOnMaxViews no later state has the row again; below the limit the request is served and
      the row stays. */
  lemma DecisionsTakeEffect(maxViews: int, deletes: bool, K: nat, start: int, states: seq<State>, actions: seq<Action>,
                            j: nat, k: nat)
    requires IsRun(Limits(Some(maxViews), deletes), K, start, states, actions) && j < k < |states|
    requires actions[j].Decide? && actions[j].k < |states[j].slots| && states[j].slots[actions[j].k].Loaded?
    ensures |states[j + 1].slots| == |states[j].slots|
    ensures var slot, slot' := states[j].slots[actions[j].k], states[j + 1].slots[actions[j].k];
            if slot.views >= maxViews then slot' == Free && (deletes ==> states[k].views == None)
            else slot' == Admitted(slot.counts) && states[j + 1].views == states[j].views
  {
    var lim := Limits(Some(maxViews), deletes);
    assert Steps(lim)(states[j], actions[j], states[j + 1]);
    if Gone(states[j + 1]) {
      forall s, a, s' | Gone(s) && Steps(lim)(s, a, s') ensures Gone(s') {
      }
      StateMachines.HoldsFrom(Starts(K, start), Steps(lim), s => Gone(s), states, actions, j + 1, k);
      assert Gone(states[k]);
    }
  }
}

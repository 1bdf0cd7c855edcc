/** Generating thumbnails with a bounded number of goroutines: a channel used as a semaphore, a
    wait group, and a counter behind a mutex, in every interleaving. */
module ThumbnailRun {
  import opened Arithmetic
  import opened Sequences
  import opened Wrappers
  import StateMachines

  /** Where the goroutine of one target is. ok says whether a thumbnail was made. */
  datatype Phase =
    | Pending
    | Spawned
    | Generating
    | WantsLock
    | Locked
    | Read(value: nat)
    | Written
    | Leaving(ok: bool)
    | Signalling(ok: bool)
    | Gone(ok: bool)

  /** Where the loop over the targets is; i targets have a goroutine already. */
  datatype Main =
    | Check(i: nat)
    | Select(i: nat)
    | Adding(i: nat)
    | Starting(i: nat)
    | Waiting(i: nat)
    | Returned(i: nat, result: nat)

  /** begun records the calls of the generator in order. */
  datatype State = State(cancelled: bool, main: Main, workers: seq<Phase>, sem: nat, wg: nat, mu: Option<nat>,
                         generated: nat, begun: seq<nat>)

  datatype Action = Cancel | Proceed | GiveUp | Work(k: nat, ok: bool)

  function Threads(configured: int): nat {
    if configured < 1 then 1 else configured
  }

  ghost predicate Init(n: nat, s: State) {
    && |s.workers| == n && (forall k | 0 <= k < n :: s.workers[k] == Pending)
    && s.main == Check(0) && s.sem == 0 && s.wg == 0 && s.mu == None && s.generated == 0 && s.begun == []
  }

  /** The loop's next step. */
  ghost predicate MainStep(n: nat, threads: nat, s: State, s': State) {
    match s.main
    case Check(i) => s' == s.(main := if i >= n || s.cancelled then Waiting(i) else Select(i))
    case Select(i) => s.sem < threads && s' == s.(sem := s.sem + 1, main := Adding(i))
    case Adding(i) => s' == s.(wg := s.wg + 1, main := Starting(i))
    case Starting(i) => i < |s.workers| && s' == s.(workers := s.workers[i := Spawned], main := Check(i + 1))
    case Waiting(i) => s.wg == 0 && s' == s.(main := Returned(i, s.generated))
    case Returned(_, _) => false
  }

  /** What the goroutine of target k does next; ok is the outcome of its generator. */
  ghost predicate WorkerStep(s: State, k: nat, ok: bool, s': State)
    requires k < |s.workers|
  {
    match s.workers[k]
    case Pending => false
    case Spawned => s' == s.(workers := s.workers[k := Generating], begun := s.begun + [k])
    case Generating => s' == s.(workers := s.workers[k := if ok then WantsLock else Leaving(false)])
    case WantsLock => s.mu == None && s' == s.(workers := s.workers[k := Locked], mu := Some(k))
    case Locked => s' == s.(workers := s.workers[k := Read(s.generated)])
    case Read(v) => s' == s.(workers := s.workers[k := Written], generated := v + 1)
    case Written => s' == s.(workers := s.workers[k := Leaving(true)], mu := None)
    case Leaving(r) => s.sem > 0 && s' == s.(workers := s.workers[k := Signalling(r)], sem := s.sem - 1)
    case Signalling(r) => s.wg > 0 && s' == s.(workers := s.workers[k := Gone(r)], wg := s.wg - 1)
    case Gone(_) => false
  }

  ghost predicate Step(n: nat, threads: nat, s: State, a: Action, s': State) {
    match a
    case Cancel => !s.cancelled && s' == s.(cancelled := true)
    case Proceed => MainStep(n, threads, s, s')
    case GiveUp => s.main.Select? && s.cancelled && s' == s.(main := Waiting(s.main.i))
    case Work(k, ok) => k < |s.workers| && WorkerStep(s, k, ok, s')
  }

  // ---- counting goroutines ----

  function Count(ws: seq<Phase>, p: Phase -> bool): nat {
    if ws == [] then 0 else Count(ws[..|ws| - 1], p) + One(p(ws[|ws| - 1]))
  }

  predicate HoldsSlot(w: Phase) {
    !w.Pending? && !w.Signalling? && !w.Gone?
  }

  predicate InGroup(w: Phase) {
    !w.Pending? && !w.Gone?
  }

  predicate Counted(w: Phase) {
    w.Written? || ((w.Leaving? || w.Signalling? || w.Gone?) && w.ok)
  }

  predicate InLock(w: Phase) {
    w.Locked? || w.Read? || w.Written?
  }

  predicate HasBegun(w: Phase) {
    !w.Pending? && !w.Spawned?
  }

  lemma {:induction false} CountUpdate(ws: seq<Phase>, p: Phase -> bool, k: nat, w: Phase)
    requires k < |ws|
    ensures Count(ws[k := w], p) + One(p(ws[k])) == Count(ws, p) + One(p(w))
  {
    if k == |ws| - 1 {
      assert ws[k := w][..k] == ws[..k];
    } else {
      CountUpdate(ws[..|ws| - 1], p, k, w);
      assert ws[k := w][..|ws| - 1] == ws[..|ws| - 1][k := w];
    }
  }

  lemma {:induction false} CountNone(ws: seq<Phase>, p: Phase -> bool)
    requires forall k | 0 <= k < |ws| :: !p(ws[k])
    ensures Count(ws, p) == 0
  {
    if ws != [] {
      CountNone(ws[..|ws| - 1], p);
    }
  }

  lemma {:induction false} CountSome(ws: seq<Phase>, p: Phase -> bool, k: nat)
    requires k < |ws| && p(ws[k])
    ensures Count(ws, p) > 0
  {
    if k < |ws| - 1 {
      CountSome(ws[..|ws| - 1], p, k);
    }
  }

  lemma {:induction false} CountLess(ws: seq<Phase>, p: Phase -> bool, q: Phase -> bool)
    requires forall w :: p(w) ==> q(w)
    ensures Count(ws, p) <= Count(ws, q)
  {
    if ws != [] {
      CountLess(ws[..|ws| - 1], p, q);
    }
  }

  // ---- what every step keeps ----

  function Slots(m: Main): nat {
    One(m.Adding? || m.Starting?)
  }

  /** The first i targets have goroutines, the others have none. */
  ghost predicate HandedOut(n: nat, s: State) {
    && |s.workers| == n && s.main.i <= n && (s.main.Select? || s.main.Adding? || s.main.Starting? ==> s.main.i < n)
    && forall k | 0 <= k < n :: s.workers[k].Pending? <==> k >= s.main.i
  }

  ghost predicate SlotsCounted(threads: nat, s: State) {
    s.sem == Count(s.workers, HoldsSlot) + Slots(s.main) && s.sem <= threads
  }

  ghost predicate GroupCounted(s: State) {
    s.wg == Count(s.workers, InGroup) + One(s.main.Starting?)
  }

  /** The mutex belongs to the one goroutine between Lock and Unlock, whose read is current. */
  ghost predicate Exclusive(s: State) {
    && (s.mu.Some? ==> s.mu.value < |s.workers|)
    && (forall k | 0 <= k < |s.workers| :: InLock(s.workers[k]) <==> s.mu == Some(k))
    && (forall k | 0 <= k < |s.workers| && s.workers[k].Read? :: s.workers[k].value == s.generated)
  }

  ghost predicate ResultsCounted(s: State) {
    s.generated == Count(s.workers, Counted)
  }

  ghost predicate BegunOnce(s: State) {
    && NoDuplicates(s.begun)
    && (forall k | k in s.begun :: k < |s.workers|)
    && (forall k | 0 <= k < |s.workers| :: k in s.begun <==> HasBegun(s.workers[k]))
  }

  ghost predicate EndState(n: nat, s: State) {
    && (s.main.Waiting? || s.main.Returned? ==> s.main.i == n || s.cancelled)
    && (s.main.Returned? ==> s.wg == 0 && s.main.result == s.generated)
  }

  ghost predicate Inv(n: nat, threads: nat, s: State) {
    && HandedOut(n, s) && SlotsCounted(threads, s) && GroupCounted(s) && Exclusive(s)
    && ResultsCounted(s) && BegunOnce(s) && EndState(n, s)
  }

  lemma InitHasInv(n: nat, threads: nat, s: State)
    requires Init(n, s)
    ensures Inv(n, threads, s)
  {
    CountNone(s.workers, HoldsSlot);
    CountNone(s.workers, InGroup);
    CountNone(s.workers, Counted);
  }

  lemma MainKeepsInv(n: nat, threads: nat, s: State, s': State)
    requires Inv(n, threads, s) && MainStep(n, threads, s, s')
    ensures Inv(n, threads, s')
  {
    if s.main.Starting? {
      CountUpdate(s.workers, HoldsSlot, s.main.i, Spawned);
      CountUpdate(s.workers, InGroup, s.main.i, Spawned);
      CountUpdate(s.workers, Counted, s.main.i, Spawned);
    }
  }

  lemma WorkerKeepsCounts(n: nat, threads: nat, s: State, k: nat, ok: bool, s': State)
    requires HandedOut(n, s) && SlotsCounted(threads, s) && GroupCounted(s) && k < n && WorkerStep(s, k, ok, s')
    ensures HandedOut(n, s') && SlotsCounted(threads, s') && GroupCounted(s')
  {
    CountUpdate(s.workers, HoldsSlot, k, s'.workers[k]);
    CountUpdate(s.workers, InGroup, k, s'.workers[k]);
  }

  lemma WorkerKeepsLock(s: State, k: nat, ok: bool, s': State)
    requires Exclusive(s) && k < |s.workers| && WorkerStep(s, k, ok, s')
    ensures Exclusive(s')
  {
  }

  lemma WorkerKeepsResults(s: State, k: nat, ok: bool, s': State)
    requires Exclusive(s) && ResultsCounted(s) && k < |s.workers| && WorkerStep(s, k, ok, s')
    ensures ResultsCounted(s')
  {
    CountUpdate(s.workers, Counted, k, s'.workers[k]);
  }

  lemma WorkerKeepsBegun(s: State, k: nat, ok: bool, s': State)
    requires BegunOnce(s) && k < |s.workers| && WorkerStep(s, k, ok, s')
    ensures BegunOnce(s')
  {
  }

  /** The main loop cannot have returned while a goroutine still moves. */
  lemma WorkerKeepsEnd(n: nat, s: State, k: nat, ok: bool, s': State)
    requires EndState(n, s) && GroupCounted(s) && k < |s.workers| && WorkerStep(s, k, ok, s')
    ensures EndState(n, s')
  {
    CountSome(s.workers, InGroup, k);
  }

  lemma StepKeepsInv(n: nat, threads: nat, s: State, a: Action, s': State)
    requires Inv(n, threads, s) && Step(n, threads, s, a, s')
    ensures Inv(n, threads, s')
  {
    match a
    case Cancel =>
    case Proceed => MainKeepsInv(n, threads, s, s');
    case GiveUp =>
    case Work(k, ok) =>
      WorkerKeepsCounts(n, threads, s, k, ok, s');
      WorkerKeepsLock(s, k, ok, s');
      WorkerKeepsResults(s, k, ok, s');
      WorkerKeepsBegun(s, k, ok, s');
      WorkerKeepsEnd(n, s, k, ok, s');
  }

  // ---- every step makes progress ----

  function Left(w: Phase): nat {
    match w
    case Pending => 9
    case Spawned => 8
    case Generating => 7
    case WantsLock => 6
    case Locked => 5
    case Read(_) => 4
    case Written => 3
    case Leaving(_) => 2
    case Signalling(_) => 1
    case Gone(_) => 0
  }

  function WorkLeft(ws: seq<Phase>): nat {
    if ws == [] then 0 else WorkLeft(ws[..|ws| - 1]) + Left(ws[|ws| - 1])
  }

  lemma {:induction false} WorkUpdate(ws: seq<Phase>, k: nat, w: Phase)
    requires k < |ws|
    ensures WorkLeft(ws[k := w]) + Left(ws[k]) == WorkLeft(ws) + Left(w)
  {
    if k == |ws| - 1 {
      assert ws[k := w][..k] == ws[..k];
    } else {
      WorkUpdate(ws[..|ws| - 1], k, w);
      assert ws[k := w][..|ws| - 1] == ws[..|ws| - 1][k := w];
    }
  }

  lemma {:induction false} WorkAtStart(ws: seq<Phase>)
    requires forall k | 0 <= k < |ws| :: ws[k] == Pending
    ensures WorkLeft(ws) == 9 * |ws|
  {
    if ws != [] {
      WorkAtStart(ws[..|ws| - 1]);
    }
  }

  function MainLeft(n: nat, m: Main): nat {
    var rest := if m.i <= n then n - m.i else 0;
    match m
    case Check(_) => 4 * rest + 3
    case Select(_) => 4 * rest + 2
    case Adding(_) => 4 * rest + 1
    case Starting(_) => 4 * rest
    case Waiting(_) => 1
    case Returned(_, _) => 0
  }

  function Measure(n: nat, s: State): nat {
    MainLeft(n, s.main) + WorkLeft(s.workers) + One(!s.cancelled)
  }

  lemma MainDecreases(n: nat, threads: nat, s: State, s': State)
    requires HandedOut(n, s) && MainStep(n, threads, s, s')
    ensures Measure(n, s') < Measure(n, s)
  {
    if s.main.Starting? {
      WorkUpdate(s.workers, s.main.i, Spawned);
    }
  }

  lemma WorkerDecreases(n: nat, s: State, k: nat, ok: bool, s': State)
    requires k < |s.workers| && WorkerStep(s, k, ok, s')
    ensures Measure(n, s') < Measure(n, s)
  {
    WorkUpdate(s.workers, k, s'.workers[k]);
    assert Left(s'.workers[k]) < Left(s.workers[k]);
  }

  lemma StepDecreases(n: nat, threads: nat, s: State, a: Action, s': State)
    requires HandedOut(n, s) && Step(n, threads, s, a, s')
    ensures Measure(n, s') < Measure(n, s)
  {
    match a
    case Cancel =>
    case Proceed => MainDecreases(n, threads, s, s');
    case GiveUp =>
    case Work(k, ok) => WorkerDecreases(n, s, k, ok, s');
  }

  // ---- nothing ever blocks for good ----

  predicate Active(w: Phase) {
    !w.Pending? && !w.Gone?
  }

  ghost predicate CanMove(n: nat, threads: nat, s: State) {
    exists a, s' :: a != Cancel && Step(n, threads, s, a, s')
  }

  /** Some goroutine can go on. */
  ghost predicate WorkerMoves(n: nat, threads: nat, s: State) {
    exists k, ok, s' :: Step(n, threads, s, Work(k, ok), s')
  }

  lemma ActiveMoves(n: nat, threads: nat, s: State, k: nat)
    requires Inv(n, threads, s) && k < n && Active(s.workers[k])
    ensures WorkerMoves(n, threads, s)
  {
    CountSome(s.workers, InGroup, k);
    var ws := s.workers;
    match ws[k]
    case Spawned => assert Step(n, threads, s, Work(k, true),
                                s.(workers := ws[k := Generating], begun := s.begun + [k]));
    case Generating => assert Step(n, threads, s, Work(k, false), s.(workers := ws[k := Leaving(false)]));
    case WantsLock =>
      if s.mu == None {
        assert Step(n, threads, s, Work(k, true), s.(workers := ws[k := Locked], mu := Some(k)));
      } else {
        HolderMoves(n, threads, s, s.mu.value);
      }
    case Leaving(r) =>
      CountSome(ws, HoldsSlot, k);
      assert Step(n, threads, s, Work(k, true), s.(workers := ws[k := Signalling(r)], sem := s.sem - 1));
    case Signalling(r) => assert Step(n, threads, s, Work(k, true), s.(workers := ws[k := Gone(r)], wg := s.wg - 1));
    case _ => HolderMoves(n, threads, s, k);
  }

  /** Whoever holds the mutex can go on. */
  lemma HolderMoves(n: nat, threads: nat, s: State, k: nat)
    requires k < |s.workers| && InLock(s.workers[k])
    ensures WorkerMoves(n, threads, s)
  {
    var ws := s.workers;
    match ws[k]
    case Locked => assert Step(n, threads, s, Work(k, true), s.(workers := ws[k := Read(s.generated)]));
    case Read(v) => assert Step(n, threads, s, Work(k, true), s.(workers := ws[k := Written], generated := v + 1));
    case Written => assert Step(n, threads, s, Work(k, true), s.(workers := ws[k := Leaving(true)], mu := None));
  }

  /** With no goroutine under way the loop itself can go on. */
  lemma MainMoves(n: nat, threads: nat, s: State)
    requires Inv(n, threads, s) && threads > 0 && !s.main.Returned?
    requires forall k | 0 <= k < n :: !Active(s.workers[k])
    ensures CanMove(n, threads, s)
  {
    CountNone(s.workers, HoldsSlot);
    CountNone(s.workers, InGroup);
    var i := s.main.i;
    match s.main
    case Check(_) => assert Step(n, threads, s, Proceed,
                                 s.(main := if i >= n || s.cancelled then Waiting(i) else Select(i)));
    case Select(_) => assert Step(n, threads, s, Proceed, s.(sem := s.sem + 1, main := Adding(i)));
    case Adding(_) => assert Step(n, threads, s, Proceed, s.(wg := s.wg + 1, main := Starting(i)));
    case Starting(_) => assert Step(n, threads, s, Proceed,
                                    s.(workers := s.workers[i := Spawned], main := Check(i + 1)));
    case Waiting(_) => assert Step(n, threads, s, Proceed, s.(main := Returned(i, s.generated)));
  }

  lemma NeverStuck(n: nat, threads: nat, s: State)
    requires Inv(n, threads, s) && threads > 0 && !s.main.Returned?
    ensures CanMove(n, threads, s)
  {
    if k :| 0 <= k < n && Active(s.workers[k]) {
      ActiveMoves(n, threads, s, k);
    } else {
      MainMoves(n, threads, s);
    }
  }

  // ---- every run ----

  ghost function Starts(n: nat): State -> bool {
    s => Init(n, s)
  }

  ghost function Steps(n: nat, configured: int): (State, Action, State) -> bool {
    (s, a, s') => Step(n, Threads(configured), s, a, s')
  }

  ghost predicate IsRun(n: nat, configured: int, states: seq<State>, actions: seq<Action>) {
    StateMachines.IsRun(Starts(n), Steps(n, configured), states, actions)
  }

  lemma InvPreserved(n: nat, configured: int)
    ensures StateMachines.Preserves(s => Inv(n, Threads(configured), s), Steps(n, configured))
  {
    forall s, a, s' | Inv(n, Threads(configured), s) && Steps(n, configured)(s, a, s')
      ensures Inv(n, Threads(configured), s')
    {
      StepKeepsInv(n, Threads(configured), s, a, s');
    }
  }

  lemma RunKeepsInv(n: nat, configured: int, states: seq<State>, actions: seq<Action>, k: nat)
    requires IsRun(n, configured, states, actions) && k < |states|
    ensures Inv(n, Threads(configured), states[k])
  {
    InvPreserved(n, configured);
    forall s | Init(n, s) ensures Inv(n, Threads(configured), s) {
      InitHasInv(n, Threads(configured), s);
    }
    StateMachines.Invariant(Starts(n), Steps(n, configured), s => Inv(n, Threads(configured), s), states, actions, k);
  }

  predicate IsGenerating(w: Phase) {
    w.Generating?
  }

  /** At every moment of every run at most max(1, configured) generators run, and no target has been
      handed to the generator twice. */
  lemma Bounded(n: nat, configured: int, states: seq<State>, actions: seq<Action>, k: nat)
    requires IsRun(n, configured, states, actions) && k < |states|
    ensures Count(states[k].workers, IsGenerating) <= if configured < 1 then 1 else configured
    ensures NoDuplicates(states[k].begun) && forall t | t in states[k].begun :: t < n
  {
    RunKeepsInv(n, configured, states, actions, k);
    CountLess(states[k].workers, IsGenerating, HoldsSlot);
  }

  lemma {:induction false} CountSame(ws: seq<Phase>, p: Phase -> bool, q: Phase -> bool)
    requires forall k | 0 <= k < |ws| :: p(ws[k]) == q(ws[k])
    ensures Count(ws, p) == Count(ws, q)
  {
    if ws != [] {
      CountSame(ws[..|ws| - 1], p, q);
    }
  }

  lemma NoneInGroup(s: State)
    requires GroupCounted(s) && s.wg == 0
    ensures forall k | 0 <= k < |s.workers| :: !InGroup(s.workers[k])
  {
    forall k | 0 <= k < |s.workers| ensures !InGroup(s.workers[k]) {
      if InGroup(s.workers[k]) {
        CountSome(s.workers, InGroup, k);
      }
    }
  }

  /** Action a is a generator finishing with a thumbnail. */
  ghost predicate MakesThumbnail(s: State, a: Action) {
    a.Work? && a.ok && a.k < |s.workers| && s.workers[a.k] == Generating
  }

  /** The steps before the k-th in which a thumbnail was made. */
  ghost function Made(states: seq<State>, actions: seq<Action>, k: nat): set<nat>
    requires k <= |actions| < |states|
  {
    set j: nat | j < k && MakesThumbnail(states[j], actions[j])
  }

  predicate HasThumbnail(w: Phase) {
    w.WantsLock? || InLock(w) || Counted(w)
  }

  lemma WorkerMakes(s: State, k: nat, ok: bool, s': State)
    requires k < |s.workers| && WorkerStep(s, k, ok, s')
    ensures k < |s'.workers| && s'.workers == s.workers[k := s'.workers[k]]
    ensures HasThumbnail(s'.workers[k]) <==> HasThumbnail(s.workers[k]) || MakesThumbnail(s, Work(k, ok))
    ensures !(HasThumbnail(s.workers[k]) && MakesThumbnail(s, Work(k, ok)))
  {
  }

  lemma StepMakes(n: nat, threads: nat, s: State, a: Action, s': State)
    requires HandedOut(n, s) && Step(n, threads, s, a, s')
    ensures Count(s'.workers, HasThumbnail) == Count(s.workers, HasThumbnail) + One(MakesThumbnail(s, a))
  {
    if a.Work? {
      WorkerMakes(s, a.k, a.ok, s');
      CountUpdate(s.workers, HasThumbnail, a.k, s'.workers[a.k]);
    } else if s.main.Starting? {
      CountUpdate(s.workers, HasThumbnail, s.main.i, Spawned);
    }
  }

  lemma MadeNext(states: seq<State>, actions: seq<Action>, k: nat)
    requires 0 < k <= |actions| < |states|
    ensures |Made(states, actions, k)|
            == |Made(states, actions, k - 1)| + One(MakesThumbnail(states[k - 1], actions[k - 1]))
  {
    var before, last := Made(states, actions, k - 1), k - 1;
    assert Made(states, actions, k) == before + if MakesThumbnail(states[last], actions[last]) then {last} else {};
  }

  lemma {:induction false} MadeAreCounted(n: nat, configured: int, states: seq<State>, actions: seq<Action>, k: nat)
    requires IsRun(n, configured, states, actions) && k < |states|
    ensures Count(states[k].workers, HasThumbnail) == |Made(states, actions, k)|
  {
    if k == 0 {
      CountNone(states[0].workers, HasThumbnail);
      assert Made(states, actions, 0) == {};
    } else {
      MadeAreCounted(n, configured, states, actions, k - 1);
      RunKeepsInv(n, configured, states, actions, k - 1);
      assert Steps(n, configured)(states[k - 1], actions[k - 1], states[k]);
      StepMakes(n, Threads(configured), states[k - 1], actions[k - 1], states[k]);
      MadeNext(states, actions, k);
    }
  }

  /** When the call returns no generator runs any more, the result is the number of steps in which a
      generator finished with a thumbnail, and without cancellation every target has been handed to
      the generator; with it, a prefix of them. */
  lemma ReturnsTheCount(n: nat, configured: int, states: seq<State>, actions: seq<Action>, k: nat)
    requires IsRun(n, configured, states, actions) && k < |states| && states[k].main.Returned?
    ensures var s := states[k];
            && |s.workers| == n && (forall t | 0 <= t < n :: s.workers[t].Gone? || s.workers[t].Pending?)
            && s.main.result == |Made(states, actions, k)|
            && s.main.i <= n && (forall t: nat :: t in s.begun <==> t < s.main.i)
            && (!s.cancelled ==> s.main.i == n)
  {
    RunKeepsInv(n, configured, states, actions, k);
    MadeAreCounted(n, configured, states, actions, k);
    var s := states[k];
    NoneInGroup(s);
    CountSame(s.workers, Counted, HasThumbnail);
    forall t: nat ensures t in s.begun <==> t < s.main.i {
      assert t < n ==> (s.workers[t].Pending? <==> t >= s.main.i);
    }
  }

  /** No run is longer than 13 steps a target and 4 more, and one that has not returned can go on:
      so the call always returns. */
  lemma AlwaysReturns(n: nat, configured: int, states: seq<State>, actions: seq<Action>)
    requires IsRun(n, configured, states, actions)
    ensures |actions| <= 13 * n + 4
    ensures !states[|actions|].main.Returned? ==> CanMove(n, Threads(configured), states[|actions|])
  {
    var threads := Threads(configured);
    InvPreserved(n, configured);
    forall s | Init(n, s) ensures Inv(n, threads, s) {
      InitHasInv(n, threads, s);
    }
    forall s, a, s' | Inv(n, threads, s) && Steps(n, configured)(s, a, s') ensures Measure(n, s') < Measure(n, s) {
      StepDecreases(n, threads, s, a, s');
    }
    StateMachines.RunIsBounded(Starts(n), Steps(n, configured), s => Inv(n, threads, s), s => Measure(n, s), states,
                               actions, |actions|);
    WorkAtStart(states[0].workers);
    RunKeepsInv(n, configured, states, actions, |actions|);
    if !states[|actions|].main.Returned? {
      NeverStuck(n, threads, states[|actions|]);
    }
  }

  // ---- cancellation ----

  /** At most the target the loop was about to hand out when the context was cancelled. */
  ghost predicate CancelledAt(i: nat, s: State) {
    && s.cancelled && s.main.i <= i + 1
    && (s.main.i == i + 1 ==> s.main.Check? || s.main.Waiting? || s.main.Returned?)
  }

  lemma CancelStays(i: nat, n: nat, configured: int)
    ensures StateMachines.Preserves(s => CancelledAt(i, s), Steps(n, configured))
  {
  }

  /** After a cancellation at most one more target gets a goroutine. */
  lemma AtMostOneMore(n: nat, configured: int, states: seq<State>, actions: seq<Action>, j: nat, k: nat)
    requires IsRun(n, configured, states, actions) && j <= k < |states| && states[j].cancelled
    ensures states[k].main.i <= states[j].main.i + 1
  {
    var i := states[j].main.i;
    CancelStays(i, n, configured);
    StateMachines.HoldsFrom(Starts(n), Steps(n, configured), s => CancelledAt(i, s), states, actions, j, k);
    assert CancelledAt(i, states[k]);
  }

  /** The loop has not committed itself to a target. */
  predicate Uncommitted(m: Main) {
    m.Check? || m.Waiting? || m.Returned?
  }

  ghost function From(s: State): State -> bool {
    t => t == s
  }

  /** A run can lead on from s to t. */
  ghost predicate Continues(n: nat, configured: int, s: State, t: State) {
    StateMachines.Reaches(From(s), Steps(n, configured), t)
  }

  /** The context is cancelled, i targets have goroutines, and the loop is not about to add one. */
  ghost predicate Stopped(i: nat, s: State) {
    s.cancelled && s.main.i == i && Uncommitted(s.main)
  }

  lemma StoppedForGood(n: nat, configured: int, s: State, t: State)
    requires s.cancelled && Uncommitted(s.main) && Continues(n, configured, s, t)
    ensures t.main.i == s.main.i
  {
    var i := s.main.i;
    assert StateMachines.Preserves(u => Stopped(i, u), Steps(n, configured));
    StateMachines.HoldsWhenReached(From(s), Steps(n, configured), u => Stopped(i, u), t);
  }

  /** From s a run can lead on to a state with one goroutine more. */
  ghost predicate HandsOut(n: nat, configured: int, s0: State, i: nat) {
    exists t :: Continues(n, configured, s0, t) && t.main.i == i + 1
  }

  lemma SlotTaken(s: State)
    requires s.sem == Count(s.workers, HoldsSlot) > 0
    ensures exists k :: 0 <= k < |s.workers| && HoldsSlot(s.workers[k])
  {
    if forall k | 0 <= k < |s.workers| :: !HoldsSlot(s.workers[k]) {
      CountNone(s.workers, HoldsSlot);
    }
  }

  /** A committed loop can get its target a goroutine: when all slots are taken, the goroutines
      holding them go on until one is free. */
  lemma {:induction false} CommittedCanHandOut(n: nat, configured: int, s0: State, s: State)
    requires Inv(n, Threads(configured), s) && !Uncommitted(s.main) && Continues(n, configured, s0, s)
    ensures HandsOut(n, configured, s0, s.main.i)
    decreases Measure(n, s)
  {
    var threads := Threads(configured);
    if s.main.Select? && s.sem == threads {
      SlotTaken(s);
      var k :| 0 <= k < n && HoldsSlot(s.workers[k]);
      ActiveMoves(n, threads, s, k);
      var j, ok, next :| Step(n, threads, s, Work(j, ok), next);
      GoOn(n, configured, s0, s, Work(j, ok), next);
      CommittedCanHandOut(n, configured, s0, next);
    } else {
      var i := s.main.i;
      var next := if s.main.Select? then s.(sem := s.sem + 1, main := Adding(i))
                  else if s.main.Adding? then s.(wg := s.wg + 1, main := Starting(i))
                  else s.(workers := s.workers[i := Spawned], main := Check(i + 1));
      GoOn(n, configured, s0, s, Proceed, next);
      if !s.main.Starting? {
        CommittedCanHandOut(n, configured, s0, next);
      }
    }
  }

  lemma GoOn(n: nat, configured: int, s0: State, s: State, a: Action, next: State)
    requires Inv(n, Threads(configured), s) && Step(n, Threads(configured), s, a, next)
             && Continues(n, configured, s0, s)
    ensures Inv(n, Threads(configured), next) && Continues(n, configured, s0, next) && Measure(n, next) < Measure(n, s)
  {
    StepKeepsInv(n, Threads(configured), s, a, next);
    StepDecreases(n, Threads(configured), s, a, next);
    assert Steps(n, configured)(s, a, next);
    StateMachines.ReachStep(From(s0), Steps(n, configured), s, a, next);
  }

  /** In a cancelled state of a run, no continuation gets a further target a goroutine if and only if
      the loop is not on its way from the check of the context to the go statement. */
  lemma StopsIffUncommitted(n: nat, configured: int, states: seq<State>, actions: seq<Action>, k: nat)
    requires IsRun(n, configured, states, actions) && k < |states| && states[k].cancelled
    ensures (forall t | Continues(n, configured, states[k], t) :: t.main.i == states[k].main.i)
            <==> Uncommitted(states[k].main)
  {
    var s := states[k];
    if Uncommitted(s.main) {
      forall t | Continues(n, configured, s, t) ensures t.main.i == s.main.i {
        StoppedForGood(n, configured, s, t);
      }
    } else {
      RunKeepsInv(n, configured, states, actions, k);
      StateMachines.ReachInit(From(s), Steps(n, configured), s);
      CommittedCanHandOut(n, configured, s, s);
    }
  }

  /** And that one can happen: a free slot and a cancelled context are both ready in the select. */
  lemma OneMoreCanHappen()
    ensures exists states: seq<State>, actions: seq<Action> ::
              && IsRun(1, 1, states, actions) && |actions| == 5
              && states[2].cancelled && states[2].main == Select(0)
              && states[5].main == Check(1) && states[5].workers == [Spawned]
  {
    var s0 := State(false, Check(0), [Pending], 0, 0, None, 0, []);
    var s1 := s0.(main := Select(0));
    var s2 := s1.(cancelled := true);
    var s3 := s2.(sem := 1, main := Adding(0));
    var s4 := s3.(wg := 1, main := Starting(0));
    var s5 := s4.(workers := [Spawned], main := Check(1));
    var states, actions := [s0, s1, s2, s3, s4, s5], [Proceed, Cancel, Proceed, Proceed, Proceed];
    assert IsRun(1, 1, states, actions);
  }
}

/** Every interleaving of many chunked uploads over one temp directory. */
module ChunkProtocol {
  import opened Bytes
  import opened Sequences
  import opened ChunkNames
  import opened ChunkAssembly
  import opened ChunkUpload
  import StateMachines

  /** Where one upload's last-chunk request stands. */
  datatype Phase =
    | Receiving
    | Assembling(order: seq<ChunkRef>, next: nat, out: bytes)
    | Done(content: bytes)
    | Failed

  /** One upload's view: its phase, and which chunk numbers have been written at least once. */
  datatype Progress = Progress(phase: Phase, sent: set<nat>)

  datatype State = State(dir: map<string, bytes>, progress: map<string, Progress>)

  /** The atomic file-system steps a request of one upload takes: a chunk request (first try or
      retry), the last-chunk request listing and sorting, appending and removing one chunk, and
      finishing. */
  datatype Op = Put(chunk: nat) | List(order: seq<ChunkRef>) | Append | Close

  /** A step of some upload, or anybody touching files that are no chunks. */
  datatype Action = Own(id: string, op: Op) | Foreign(dir: map<string, bytes>)

  /** The uploads under way, keyed by their identifiers. */
  type Plan = plan: map<string, Upload> | ValidPlan(plan) witness map[]

  ghost predicate ValidPlan(plan: map<string, Upload>) {
    forall id | id in plan :: plan[id].id == id && plan[id].Valid()
  }

  ghost predicate Init(plan: Plan, s: State) {
    && s.progress.Keys == plan.Keys
    && (forall id | id in plan :: s.progress[id] == Progress(Receiving, {}))
    && (forall id, n | id in plan && n in s.dir :: !(Prefix(id) <= n))
  }

  /** What op of upload u does to the directory and to u's progress. */
  ghost predicate Local(u: Upload, op: Op, dir: map<string, bytes>, p: Progress, dir': map<string, bytes>, p': Progress)
    requires u.Valid()
  {
    match op
    case Put(i) =>
      && p.phase.Receiving? && i < u.Count()
      && dir' == dir[u.Name(i) := u.Slice(i)] && p' == p.(sent := p.sent + {i})
    case List(order) =>
      && p.phase.Receiving? && IsOrder(u.id, dir, order)
      && dir' == dir && p' == p.(phase := if order == [] then Failed else Assembling(order, 0, []))
    case Append =>
      && p.phase.Assembling? && p.phase.next < |p.phase.order|
      && var path := p.phase.order[p.phase.next].path;
      && (path in dir ==>
            && dir' == dir - {path}
            && p' == p.(phase := p.phase.(next := p.phase.next + 1, out := p.phase.out + dir[path])))
      && (path !in dir ==> dir' == dir && p' == p.(phase := Failed))
    case Close =>
      && p.phase.Assembling? && p.phase.next == |p.phase.order|
      && dir' == dir && p' == p.(phase := Done(p.phase.out))
  }

  ghost predicate Step(plan: Plan, s: State, a: Action, s': State) {
    && s.progress.Keys == s'.progress.Keys == plan.Keys
    && match a
       case Own(id, op) =>
         && id in plan
         && Local(plan[id], op, s.dir, s.progress[id], s'.dir, s'.progress[id])
         && s'.progress == s.progress[id := s'.progress[id]]
       case Foreign(dir) =>
         SameChunks(s.dir, dir) && s' == s.(dir := dir)
  }

  /** Two directories that differ only in files that are no chunk files. */
  ghost predicate SameChunks(dir: map<string, bytes>, dir': map<string, bytes>) {
    && (forall n | n in dir && PARTIAL <= n :: n in dir' && dir'[n] == dir[n])
    && (forall n | n in dir' && PARTIAL <= n :: n in dir)
  }

  ghost function Whole(u: Upload, sent: set<nat>): seq<nat>
    requires u.Valid()
  {
    Received(sent, u.Count())
  }

  /** What one upload's files and output are in each phase. */
  ghost predicate Tracks(u: Upload, dir: map<string, bytes>, p: Progress)
    requires u.Valid()
  {
    match p.phase
    case Receiving => Holds(u, p.sent, dir)
    case Assembling(order, next, out) =>
      && order == RefsOf(u, Whole(u, p.sent)) && next <= |order|
      && out == Joined(u, Whole(u, p.sent)[..next])
      && Holds(u, Elements(Whole(u, p.sent)[next..]), dir)
    case Done(content) => content == Joined(u, Whole(u, p.sent)) && Holds(u, {}, dir)
    case Failed => p.sent == {} && Holds(u, {}, dir)
  }

  ghost predicate Inv(plan: Plan, s: State) {
    && s.progress.Keys == plan.Keys
    && (forall id | id in plan :: Tracks(plan[id], s.dir, s.progress[id]))
  }

  // ---- a step keeps the progress of the upload it belongs to ----

  lemma ListKeeps(u: Upload, dir: map<string, bytes>, sent: set<nat>, order: seq<ChunkRef>)
    requires u.Valid() && Holds(u, sent, dir) && IsOrder(u.id, dir, order)
    ensures Tracks(u, dir, Progress(if order == [] then Failed else Assembling(order, 0, []), sent))
  {
    OrderIsReceived(u, sent, dir, order);
    var whole := Whole(u, sent);
    ReceivedAscends(sent, u.Count());
    forall i | i in sent ensures i in whole {
      ReceivedContains(sent, u.Count(), i);
    }
    assert whole[0..] == whole;
    assert Elements(whole) == sent;
  }

  lemma NextChunk(sent: set<nat>, k: nat, next: nat)
    requires next < |Received(sent, k)|
    ensures var whole := Received(sent, k);
            && whole[next] in Elements(whole[next..])
            && Elements(whole[next + 1..]) == Elements(whole[next..]) - {whole[next]}
  {
    var whole := Received(sent, k);
    ReceivedAscends(sent, k);
    assert whole[next..] == [whole[next]] + whole[next + 1..];
  }

  lemma JoinNext(u: Upload, s: seq<nat>, next: nat)
    requires u.Valid() && Indices(u, s) && next < |s|
    ensures Joined(u, s[..next + 1]) == Joined(u, s[..next]) + u.Slice(s[next])
  {
    assert s[..next + 1][..next] == s[..next];
  }

  lemma AppendKeeps(u: Upload, dir: map<string, bytes>, p: Progress)
    requires u.Valid() && p.phase.Assembling? && p.phase.next < |p.phase.order| && Tracks(u, dir, p)
    ensures var path := p.phase.order[p.phase.next].path;
            && path in dir && Prefix(u.id) <= path
            && Tracks(u, dir - {path}, p.(phase := p.phase.(next := p.phase.next + 1, out := p.phase.out + dir[path])))
  {
    var i := Whole(u, p.sent)[p.phase.next];
    NextChunk(p.sent, u.Count(), p.phase.next);
    JoinNext(u, Whole(u, p.sent), p.phase.next);
    DecodeName(u, i);
    RemoveOne(u, Elements(Whole(u, p.sent)[p.phase.next..]), dir, i);
  }

  lemma RemoveOne(u: Upload, sent: set<nat>, dir: map<string, bytes>, i: nat)
    requires u.Valid() && Holds(u, sent, dir) && i in sent
    ensures i < u.Count() && Holds(u, sent - {i}, dir - {u.Name(i)})
  {
    forall j: nat | j in sent && j != i ensures u.Name(j) != u.Name(i) {
      if u.Name(j) == u.Name(i) {
        NameInjective(u, i, j);
      }
    }
  }

  lemma PutKeeps(u: Upload, dir: map<string, bytes>, sent: set<nat>, i: nat)
    requires u.Valid() && Holds(u, sent, dir) && i < u.Count()
    ensures Holds(u, sent + {i}, dir[u.Name(i) := u.Slice(i)])
  {
    forall j: nat | j in sent && j < u.Count() && u.Name(j) == u.Name(i) ensures j == i {
      NameInjective(u, i, j);
    }
  }

  lemma CloseKeeps(u: Upload, dir: map<string, bytes>, p: Progress)
    requires u.Valid() && p.phase.Assembling? && p.phase.next == |p.phase.order| && Tracks(u, dir, p)
    ensures Tracks(u, dir, p.(phase := Done(p.phase.out)))
  {
    var whole := Whole(u, p.sent);
    assert whole[..|whole|] == whole;
    assert Elements(whole[|whole|..]) == {};
  }

  ghost predicate ChangesOnly(id: string, dir: map<string, bytes>, dir': map<string, bytes>) {
    forall n | n in dir || n in dir' :: Prefix(id) <= n || (n in dir && n in dir' && dir[n] == dir'[n])
  }

  /** A step keeps its own upload's progress and touches only files with its prefix. */
  lemma LocalKeeps(u: Upload, op: Op, dir: map<string, bytes>, p: Progress, dir': map<string, bytes>, p': Progress)
    requires u.Valid() && Tracks(u, dir, p) && Local(u, op, dir, p, dir', p')
    ensures Tracks(u, dir', p') && ChangesOnly(u.id, dir, dir')
    ensures !p.phase.Receiving? ==> !p'.phase.Receiving? && p'.sent == p.sent
  {
    match op
    case Put(i) =>
      PutKeeps(u, dir, p.sent, i);
      DecodeName(u, i);
    case List(order) => ListKeeps(u, dir, p.sent, order);
    case Append => AppendKeeps(u, dir, p);
    case Close => CloseKeeps(u, dir, p);
  }

  // ---- and leaves every other upload's files alone ----

  /** Two directories keep the same files for identifier id. */
  ghost predicate SameFor(id: string, dir: map<string, bytes>, dir': map<string, bytes>) {
    && (forall n | n in dir && Prefix(id) <= n :: n in dir' && dir'[n] == dir[n])
    && (forall n | n in dir' && Prefix(id) <= n :: n in dir)
  }

  lemma HoldsFrame(u: Upload, sent: set<nat>, dir: map<string, bytes>, dir': map<string, bytes>)
    requires u.Valid() && SameFor(u.id, dir, dir') && Holds(u, sent, dir)
    ensures Holds(u, sent, dir')
  {
    forall i | i in sent ensures i < u.Count() && u.Name(i) in dir' && dir'[u.Name(i)] == u.Slice(i) {
      DecodeName(u, i);
    }
  }

  lemma TracksFrame(u: Upload, dir: map<string, bytes>, dir': map<string, bytes>, p: Progress)
    requires u.Valid() && SameFor(u.id, dir, dir') && Tracks(u, dir, p)
    ensures Tracks(u, dir', p)
  {
    match p.phase
    case Receiving => HoldsFrame(u, p.sent, dir, dir');
    case Assembling(order, next, out) => HoldsFrame(u, Elements(Whole(u, p.sent)[next..]), dir, dir');
    case Done(content) => HoldsFrame(u, {}, dir, dir');
    case Failed => HoldsFrame(u, {}, dir, dir');
  }

  /** Identifiers without the separator never share a file name. */
  lemma PrefixesApart(id: string, id': string, n: string)
    requires IsIdentifier(id) && IsIdentifier(id') && Prefix(id) <= n && Prefix(id') <= n
    ensures id == id'
  {
    var x := n[|Prefix(id)|..];
    var y := n[|Prefix(id')|..];
    assert n == Prefix(id) + x == Prefix(id') + y;
    assert n[|PARTIAL|..] == id + "_" + x;
    assert n[|PARTIAL|..] == id' + "_" + y;
    SameFirstField(id, id', x, y);
  }

  lemma OthersFiles(id: string, id': string, dir: map<string, bytes>, dir': map<string, bytes>)
    requires IsIdentifier(id) && IsIdentifier(id') && id != id'
    requires ChangesOnly(id', dir, dir')
    ensures SameFor(id, dir, dir')
  {
    forall n | (n in dir || n in dir') && Prefix(id) <= n ensures !(Prefix(id') <= n) {
      if Prefix(id') <= n {
        PrefixesApart(id, id', n);
      }
    }
  }

  lemma ForeignSame(id: string, dir: map<string, bytes>, dir': map<string, bytes>)
    requires SameChunks(dir, dir')
    ensures SameFor(id, dir, dir')
  {
  }

  predicate IsOwn(a: Action, id: string) {
    a.Own? && a.id == id
  }

  /** One step seen from one upload: its own step moves its progress, any other step leaves all
      its files and its progress exactly as they were. */
  lemma StepSeenBy(plan: Plan, s: State, a: Action, s': State, id: string)
    requires Inv(plan, s) && Step(plan, s, a, s') && id in plan
    ensures Tracks(plan[id], s'.dir, s'.progress[id])
    ensures !IsOwn(a, id) ==> SameFor(id, s.dir, s'.dir) && s'.progress[id] == s.progress[id]
    ensures !s.progress[id].phase.Receiving? ==>
              !s'.progress[id].phase.Receiving? && s'.progress[id].sent == s.progress[id].sent
  {
    if a.Foreign? {
      ForeignSame(id, s.dir, s'.dir);
      TracksFrame(plan[id], s.dir, s'.dir, s.progress[id]);
    } else {
      LocalKeeps(plan[a.id], a.op, s.dir, s.progress[a.id], s'.dir, s'.progress[a.id]);
      if a.id != id {
        OthersFiles(id, a.id, s.dir, s'.dir);
        TracksFrame(plan[id], s.dir, s'.dir, s.progress[id]);
      }
    }
  }

  lemma StepKeepsInv(plan: Plan, s: State, a: Action, s': State)
    requires Inv(plan, s) && Step(plan, s, a, s')
    ensures Inv(plan, s')
  {
    forall id | id in plan ensures Tracks(plan[id], s'.dir, s'.progress[id]) {
      StepSeenBy(plan, s, a, s', id);
    }
  }

  // ---- whole runs ----

  ghost function Starts(plan: Plan): State -> bool {
    s => Init(plan, s)
  }

  ghost function Steps(plan: Plan): (State, Action, State) -> bool {
    (s, a, s') => Step(plan, s, a, s')
  }

  ghost predicate IsRun(plan: Plan, states: seq<State>, actions: seq<Action>) {
    StateMachines.IsRun(Starts(plan), Steps(plan), states, actions)
  }

  lemma InvPreserved(plan: Plan)
    ensures StateMachines.Preserves(s => Inv(plan, s), Steps(plan))
  {
    forall s, a, s' | Inv(plan, s) && Steps(plan)(s, a, s') ensures Inv(plan, s') {
      StepKeepsInv(plan, s, a, s');
    }
  }

  /** The progress invariant holds in every state of every run. */
  lemma RunKeepsInv(plan: Plan, states: seq<State>, actions: seq<Action>, k: nat)
    requires IsRun(plan, states, actions) && k < |states|
    ensures Inv(plan, states[k])
  {
    InvPreserved(plan);
    StateMachines.Invariant(Starts(plan), Steps(plan), s => Inv(plan, s), states, actions, k);
  }

  lemma StepAt(plan: Plan, states: seq<State>, actions: seq<Action>, k: nat)
    requires IsRun(plan, states, actions) && k < |actions|
    ensures Inv(plan, states[k]) && Inv(plan, states[k + 1]) && Step(plan, states[k], actions[k], states[k + 1])
  {
    RunKeepsInv(plan, states, actions, k);
    RunKeepsInv(plan, states, actions, k + 1);
    assert Steps(plan)(states[k], actions[k], states[k + 1]);
  }

  /** In every run: a finished assembly leaves none of its upload's chunk files behind, and its
      result is the client's file exactly when every chunk carrying bytes had arrived; it can
      only fail when nothing at all had arrived. */
  lemma AssemblyCorrect(plan: Plan, states: seq<State>, actions: seq<Action>, k: nat, id: string)
    requires IsRun(plan, states, actions) && k < |states| && id in plan
    ensures id in states[k].progress
    ensures var p := states[k].progress[id];
            && (p.phase.Done? ==> (p.phase.content == plan[id].content <==> Complete(plan[id], p.sent)))
            && (p.phase.Done? || p.phase.Failed? ==> forall n | n in states[k].dir :: !(Prefix(id) <= n))
            && (p.phase.Failed? ==> p.sent == {})
  {
    RunKeepsInv(plan, states, actions, k);
    var s := states[k];
    assert Tracks(plan[id], s.dir, s.progress[id]);
    JoinedIsContent(plan[id], s.progress[id].sent);
  }

  /** No step of a run that is not upload id's own touches its files or its progress. */
  lemma OthersUntouched(plan: Plan, states: seq<State>, actions: seq<Action>, k: nat, id: string)
    requires IsRun(plan, states, actions) && k < |actions| && id in plan && !IsOwn(actions[k], id)
    ensures id in states[k].progress && id in states[k + 1].progress
    ensures SameFor(id, states[k].dir, states[k + 1].dir)
    ensures states[k + 1].progress[id] == states[k].progress[id]
  {
    StepAt(plan, states, actions, k);
    StepSeenBy(plan, states[k], actions[k], states[k + 1], id);
  }

  /** Inv, and upload id stopped receiving when exactly the chunks in sent had arrived. */
  ghost predicate Listed(plan: Plan, id: string, sent: set<nat>, s: State) {
    Inv(plan, s) && id in plan && !s.progress[id].phase.Receiving? && s.progress[id].sent == sent
  }

  lemma ListedPreserved(plan: Plan, id: string, sent: set<nat>)
    ensures StateMachines.Preserves(s => Listed(plan, id, sent, s), Steps(plan))
  {
    forall s, a, s' | Listed(plan, id, sent, s) && Steps(plan)(s, a, s') ensures Listed(plan, id, sent, s') {
      StepKeepsInv(plan, s, a, s');
      StepSeenBy(plan, s, a, s', id);
    }
  }

  lemma StaysListed(plan: Plan, states: seq<State>, actions: seq<Action>, j: nat, k: nat, id: string, sent: set<nat>)
    requires IsRun(plan, states, actions) && j <= k < |states| && Listed(plan, id, sent, states[j])
    ensures Listed(plan, id, sent, states[k])
  {
    ListedPreserved(plan, id, sent);
    StateMachines.HoldsFrom(Starts(plan), Steps(plan), s => Listed(plan, id, sent, s), states, actions, j, k);
  }

  /** The protocol's promise: when the last-chunk request lists the directory after every chunk
      has arrived, then whatever the arrival order, the retries and the other uploads' steps in
      between, the assembly cannot fail and its result is the original file. */
  lemma LastChunkLast(plan: Plan, states: seq<State>, actions: seq<Action>, j: nat, k: nat, id: string)
    requires IsRun(plan, states, actions) && j < k < |states| && id in plan
    requires IsOwn(actions[j], id) && actions[j].op.List?
    requires id in states[j].progress
    requires forall i: nat | i < plan[id].Count() :: i in states[j].progress[id].sent
    ensures id in states[k].progress && !states[k].progress[id].phase.Failed?
    ensures states[k].progress[id].phase.Done? ==> states[k].progress[id].phase.content == plan[id].content
  {
    var sent := states[j].progress[id].sent;
    StepAt(plan, states, actions, j);
    assert Listed(plan, id, sent, states[j + 1]);
    StaysListed(plan, states, actions, j + 1, k, id, sent);
    AssemblyCorrect(plan, states, actions, k, id);
    assert 0 in sent;
  }

  // ---- a listed upload finishes ----

  /** The steps an upload has left between listing and being done. */
  ghost function OwnLeft(p: Progress): nat {
    if p.phase.Assembling? && p.phase.next <= |p.phase.order| then |p.phase.order| - p.phase.next + 1 else 0
  }

  ghost function OwnSteps(actions: seq<Action>, id: string, j: nat, k: nat): nat
    requires k <= |actions|
  {
    StateMachines.CountActions(actions, a => IsOwn(a, id), j, k)
  }

  ghost predicate CanGoOn(plan: Plan, s: State, id: string) {
    exists op, s' :: Step(plan, s, Own(id, op), s')
  }

  /** The next own step of an upload that is assembling. */
  ghost function NextOp(p: Progress): Op
    requires p.phase.Assembling?
  {
    if p.phase.next == |p.phase.order| then Close else Append
  }

  ghost function Next(s: State, id: string): State
    requires id in s.progress && s.progress[id].phase.Assembling?
    requires var p := s.progress[id].phase;
             p.next <= |p.order| && (p.next < |p.order| ==> p.order[p.next].path in s.dir)
  {
    var p := s.progress[id];
    if p.phase.next == |p.phase.order| then s.(progress := s.progress[id := p.(phase := Done(p.phase.out))])
    else
      var path := p.phase.order[p.phase.next].path;
      var phase := p.phase.(next := p.phase.next + 1, out := p.phase.out + s.dir[path]);
      State(s.dir - {path}, s.progress[id := p.(phase := phase)])
  }

  /** An upload that is assembling is never stuck, whatever the others do. */
  lemma NeverStuck(plan: Plan, s: State, id: string)
    requires Inv(plan, s) && id in plan && s.progress[id].phase.Assembling?
    ensures CanGoOn(plan, s, id)
  {
    var p := s.progress[id];
    assert Tracks(plan[id], s.dir, p);
    if p.phase.next < |p.phase.order| {
      AppendKeeps(plan[id], s.dir, p);
    }
    assert Step(plan, s, Own(id, NextOp(p)), Next(s, id));
  }

  /** Each own step brings the end one step closer, and no other step moves it. */
  lemma StepLeavesLess(plan: Plan, s: State, a: Action, s': State, id: string)
    requires Inv(plan, s) && Step(plan, s, a, s') && id in plan && !s.progress[id].phase.Receiving?
    ensures OwnLeft(s.progress[id]) == OwnLeft(s'.progress[id]) + if IsOwn(a, id) then 1 else 0
    ensures !s.progress[id].phase.Failed? ==> !s'.progress[id].phase.Failed?
  {
    StepSeenBy(plan, s, a, s', id);
    if IsOwn(a, id) && a.op.Append? {
      AppendKeeps(plan[id], s.dir, s.progress[id]);
    }
  }

  /** Inv, and upload id has listed some chunks. */
  ghost function Finishing(plan: Plan, id: string): State -> bool {
    s => Inv(plan, s) && id in plan && (s.progress[id].phase.Assembling? || s.progress[id].phase.Done?)
  }

  lemma FinishingPreserved(plan: Plan, id: string)
    ensures StateMachines.Preserves(Finishing(plan, id), Steps(plan))
    ensures StateMachines.CountsDown(Finishing(plan, id), Steps(plan), a => IsOwn(a, id), s => LeftIn(id, s))
  {
    forall s, a, s' | Finishing(plan, id)(s) && Steps(plan)(s, a, s')
      ensures Finishing(plan, id)(s') && LeftIn(id, s) == LeftIn(id, s') + if IsOwn(a, id) then 1 else 0
    {
      StepKeepsInv(plan, s, a, s');
      StepSeenBy(plan, s, a, s', id);
      StepLeavesLess(plan, s, a, s', id);
    }
  }

  ghost function LeftIn(id: string, s: State): nat {
    if id in s.progress then OwnLeft(s.progress[id]) else 0
  }

  lemma FromListing(plan: Plan, states: seq<State>, actions: seq<Action>, j: nat, k: nat, id: string)
    requires IsRun(plan, states, actions) && j <= k < |states| && Finishing(plan, id)(states[j])
    ensures Finishing(plan, id)(states[k])
    ensures OwnSteps(actions, id, j, k) + LeftIn(id, states[k]) == LeftIn(id, states[j])
  {
    FinishingPreserved(plan, id);
    StateMachines.CountedSteps(Starts(plan), Steps(plan), Finishing(plan, id), a => IsOwn(a, id),
                               s => LeftIn(id, s), states, actions, j, k);
    StateMachines.HoldsFrom(Starts(plan), Steps(plan), Finishing(plan, id), states, actions, j, k);
  }

  lemma {:induction false} ReceivedCount(sent: set<nat>, k: nat)
    ensures |Received(sent, k)| <= k
  {
    if k > 0 {
      ReceivedCount(sent, k - 1);
    }
  }

  /** Upload id was to take left own steps and has taken own of them: it is done exactly when these
      are all, and can take one until then. */
  ghost predicate OnSchedule(plan: Plan, id: string, left: nat, own: nat, s: State) {
    && id in s.progress && own + OwnLeft(s.progress[id]) == left
    && (s.progress[id].phase.Done? <==> own == left)
    && (!s.progress[id].phase.Done? ==> CanGoOn(plan, s, id))
  }

  lemma FinishingGoesOn(plan: Plan, id: string, left: nat, own: nat, s: State)
    requires Finishing(plan, id)(s) && own + LeftIn(id, s) == left
    ensures OnSchedule(plan, id, left, own, s)
  {
    assert Tracks(plan[id], s.dir, s.progress[id]);
    if s.progress[id].phase.Assembling? {
      NeverStuck(plan, s, id);
    }
  }

  lemma AtMostAllChunks(plan: Plan, id: string, s: State)
    requires Finishing(plan, id)(s)
    ensures LeftIn(id, s) <= plan[id].Count() + 1
  {
    assert Tracks(plan[id], s.dir, s.progress[id]);
    ReceivedCount(s.progress[id].sent, plan[id].Count());
  }

  /** From any state in which it is assembling, an upload needs exactly one own step for each chunk
      it has not yet appended and one more, at most Count() + 1 in all, and is never stuck before:
      then it is done. */
  lemma AssemblyFinishes(plan: Plan, states: seq<State>, actions: seq<Action>, j: nat, k: nat, id: string)
    requires IsRun(plan, states, actions) && j <= k < |states| && id in plan
    requires id in states[j].progress && states[j].progress[id].phase.Assembling?
    ensures var left := OwnLeft(states[j].progress[id]);
            1 <= left <= plan[id].Count() + 1 && OnSchedule(plan, id, left, OwnSteps(actions, id, j, k), states[k])
  {
    RunKeepsInv(plan, states, actions, j);
    assert Tracks(plan[id], states[j].dir, states[j].progress[id]);
    AtMostAllChunks(plan, id, states[j]);
    FromListing(plan, states, actions, j, k, id);
    FinishingGoesOn(plan, id, LeftIn(id, states[j]), OwnSteps(actions, id, j, k), states[k]);
  }

  // ---- the sequential handler ----

  /** dir has the numbered chunks, under their names and with their bytes. */
  ghost predicate Stores(u: Upload, s: seq<nat>, dir: map<string, bytes>)
    requires u.Valid() && Indices(u, s)
  {
    forall k | 0 <= k < |s| :: u.Name(s[k]) in dir && dir[u.Name(s[k])] == u.Slice(s[k])
  }

  lemma {:induction false} JoinRefs(u: Upload, s: seq<nat>, dir: map<string, bytes>)
    requires u.Valid() && Indices(u, s) && Stores(u, s, dir)
    ensures forall r | r in RefsOf(u, s) :: r.path in dir
    ensures JoinFiles(RefsOf(u, s), dir) == Joined(u, s)
  {
    if s != [] {
      var before := s[..|s| - 1];
      JoinRefs(u, before, dir);
      assert RefsOf(u, s)[..|s| - 1] == RefsOf(u, before);
    }
  }

  lemma JoinOrder(u: Upload, sent: set<nat>, dir: map<string, bytes>)
    requires u.Valid() && Holds(u, sent, dir)
    ensures forall r | r in RefsOf(u, Whole(u, sent)) :: r.path in dir
    ensures JoinFiles(RefsOf(u, Whole(u, sent)), dir) == Joined(u, Whole(u, sent))
  {
    ReceivedAscends(sent, u.Count());
    JoinRefs(u, Whole(u, sent), dir);
  }

  lemma RemovesAll(u: Upload, sent: set<nat>, dir: map<string, bytes>)
    requires u.Valid() && Holds(u, sent, dir)
    ensures Holds(u, {}, dir - Paths(RefsOf(u, Whole(u, sent))))
    ensures Whole(u, sent) == [] <==> sent == {}
  {
    var whole := Whole(u, sent);
    var refs := RefsOf(u, whole);
    forall i | i in sent ensures whole != [] && u.Name(i) in Paths(refs) {
      ReceivedContains(sent, u.Count(), i);
      var k :| 0 <= k < |whole| && whole[k] == i;
      assert refs[k] in refs;
    }
    if whole != [] {
      ReceivedAscends(sent, u.Count());
      assert whole[0] in sent;
    }
  }

  /** The sequential handler computes what the interleaved protocol computes: over a directory
      holding the chunks in sent, assembling yields the original file exactly when they are
      complete, removes them all, and finds nothing only when nothing had arrived. */
  lemma SequentialAssembly(u: Upload, sent: set<nat>, dir: map<string, bytes>, order: seq<ChunkRef>)
    requires u.Valid() && Holds(u, sent, dir) && IsOrder(u.id, dir, order)
    ensures forall r | r in order :: r.path in dir
    ensures JoinFiles(order, dir) == u.content <==> Complete(u, sent)
    ensures Holds(u, {}, dir - Paths(order))
    ensures order == [] <==> sent == {}
  {
    OrderIsReceived(u, sent, dir, order);
    JoinOrder(u, sent, dir);
    JoinedIsContent(u, sent);
    RemovesAll(u, sent, dir);
  }
}

/** The pool of thumbnail workers: spawned on demand, shut down by a timer once no batch is
    outstanding. */
module ThumbnailPool {
  import opened Arithmetic
  import opened Sequences
  import opened Wrappers
  import StateMachines

  // ---- distributing ids over workers ----

  /** The ids without the empty one, each at its first occurrence. */
  function Unique(ids: seq<string>): seq<string> {
    if ids == [] then []
    else
      var front, last := Unique(ids[..|ids| - 1]), ids[|ids| - 1];
      if last == "" || last in front then front else front + [last]
  }

  lemma {:induction false} UniqueIs(ids: seq<string>)
    ensures NoDuplicates(Unique(ids)) && forall x :: x in Unique(ids) <==> x in ids && x != ""
  {
    if ids != [] {
      UniqueIs(ids[..|ids| - 1]);
      assert ids == ids[..|ids| - 1] + [ids[|ids| - 1]];
    }
  }

  /** The ids keep the order of their first occurrences. */
  lemma {:induction false} UniqueInOrder(ids: seq<string>, i: nat, j: nat)
    requires i < j < |Unique(ids)|
    ensures exists a :: 0 <= a < |ids| && ids[a] == Unique(ids)[i] && Unique(ids)[j] !in ids[..a + 1]
  {
    var front := ids[..|ids| - 1];
    UniqueIs(front);
    if j < |Unique(front)| {
      UniqueInOrder(front, i, j);
      var a :| 0 <= a < |front| && front[a] == Unique(front)[i] && Unique(front)[j] !in front[..a + 1];
      assert ids[..a + 1] == front[..a + 1] && ids[a] == Unique(ids)[i];
    } else {
      assert Unique(ids)[i] in front;
      var a :| 0 <= a < |front| && front[a] == Unique(ids)[i];
      NotInPrefix(front, a + 1, Unique(ids)[j]);
      assert ids[..a + 1] == front[..a + 1] && ids[a] == Unique(ids)[i];
    }
  }

  lemma NotInPrefix(s: seq<string>, n: nat, x: string)
    requires n <= |s| && (x == "" || x !in s || x !in Unique(s)) && x != ""
    ensures x !in s[..n]
  {
    UniqueIs(s);
  }

  lemma DivModStep(k: nat, w: nat)
    requires w > 0
    ensures (k + 1) / w == k / w + if k % w == w - 1 then 1 else 0
    ensures (k + 1) % w == if k % w == w - 1 then 0 else k % w + 1
  {
    var q, r := k / w, k % w;
    assert k == q * w + r;
    if r == w - 1 {
      assert k + 1 == (q + 1) * w;
      QuotientIs(k + 1, w, q + 1, 0);
    } else {
      QuotientIs(k + 1, w, q, r + 1);
    }
  }

  function BatchSize(k: nat, w: nat, i: nat): nat
    requires w > 0
  {
    k / w + if i < k % w then 1 else 0
  }

  /** The first k ids dealt out: id number j is number j / w of batch j % w. */
  ghost predicate Dealt(unique: seq<string>, k: nat, batches: seq<seq<string>>)
    requires k <= |unique| && batches != []
  {
    && (forall i | 0 <= i < |batches| :: |batches[i]| == BatchSize(k, |batches|, i))
    && (forall j | 0 <= j < k :: IsAt(batches, j, unique[j]))
  }

  ghost predicate IsAt(batches: seq<seq<string>>, j: nat, id: string)
    requires batches != []
  {
    j / |batches| < |batches[j % |batches|]| && batches[j % |batches|][j / |batches|] == id
  }

  lemma DealNext(unique: seq<string>, k: nat, batches: seq<seq<string>>)
    requires k < |unique| && batches != [] && Dealt(unique, k, batches)
    ensures Dealt(unique, k + 1, batches[k % |batches| := batches[k % |batches|] + [unique[k]]])
  {
    var w, r := |batches|, k % |batches|;
    var next := batches[r := batches[r] + [unique[k]]];
    DivModStep(k, w);
    forall j | 0 <= j < k + 1 ensures IsAt(next, j, unique[j]) {
      assert j < k ==> IsAt(batches, j, unique[j]);
    }
  }

  /** Deals the ids to the workers in turn. */
  method SplitBatches(unique: seq<string>, workers: nat) returns (batches: seq<seq<string>>)
    requires workers > 0
    ensures |batches| == workers && Dealt(unique, |unique|, batches)
  {
    batches := Repeat([], workers);
    for index := 0 to |unique|
      invariant |batches| == workers && Dealt(unique, index, batches)
    {
      DealNext(unique, index, batches);
      batches := batches[index % workers := batches[index % workers] + [unique[index]]];
    }
  }

  /** Every id is in one batch, the batches hold nothing else, and their sizes differ by one at
      most; the batches that hold something come first. */
  lemma DealtEvenly(unique: seq<string>, batches: seq<seq<string>>)
    requires batches != [] && Dealt(unique, |unique|, batches)
    ensures forall i, j | 0 <= i < |batches| && 0 <= j < |batches| :: |batches[i]| <= |batches[j]| + 1
    ensures forall i | 0 <= i < |batches| :: batches[i] != [] <==> i < |unique|
    ensures forall id :: id in unique <==> InSome(batches, id)
  {
    var n, w := |unique|, |batches|;
    SmallQuotient(n, w);
    forall id ensures id in unique <==> InSome(batches, id) {
      if id in unique {
        DealtSomewhere(unique, batches, id);
      }
      if InSome(batches, id) {
        DealtBack(unique, batches, id);
      }
    }
  }

  lemma SmallQuotient(n: nat, w: nat)
    requires w > 0
    ensures n < w ==> n / w == 0 && n % w == n
    ensures n >= w ==> n / w >= 1
  {
    assert n == (n / w) * w + n % w;
  }

  ghost predicate InSome(batches: seq<seq<string>>, id: string) {
    exists i, q :: 0 <= i < |batches| && 0 <= q < |batches[i]| && batches[i][q] == id
  }

  lemma DealtSomewhere(unique: seq<string>, batches: seq<seq<string>>, id: string)
    requires batches != [] && Dealt(unique, |unique|, batches) && id in unique
    ensures InSome(batches, id)
  {
    var j :| 0 <= j < |unique| && unique[j] == id;
    assert IsAt(batches, j, id);
    IsAtIsIn(batches, j, id);
  }

  lemma IsAtIsIn(batches: seq<seq<string>>, j: nat, id: string)
    requires batches != [] && IsAt(batches, j, id)
    ensures InSome(batches, id)
  {
    var i, q := j % |batches|, j / |batches|;
    assert batches[i][q] == id;
  }

  /** Place q of batch i belongs to id number q * w + i. */
  lemma PlaceIsNumber(n: nat, w: nat, i: nat, q: nat)
    requires i < w && q < BatchSize(n, w, i)
    ensures 0 <= q * w + i < n && (q * w + i) / w == q && (q * w + i) % w == i
  {
    var d := n / w - q;
    assert n == (n / w) * w + n % w;
    assert d * w == (n / w) * w - q * w;
    Multiple(d, w);
    Multiple(q, w);
    QuotientIs(q * w + i, w, q, i);
  }

  lemma DealtBack(unique: seq<string>, batches: seq<seq<string>>, id: string)
    requires batches != [] && Dealt(unique, |unique|, batches) && InSome(batches, id)
    ensures id in unique
  {
    var i, q :| 0 <= i < |batches| && 0 <= q < |batches[i]| && batches[i][q] == id;
    PlaceIsNumber(|unique|, |batches|, i, q);
    assert IsAt(batches, q * |batches| + i, unique[q * |batches| + i]);
  }

  // ---- the pool and its events ----

  /** Workers are numbered as they are spawned. outstanding[w] counts the batches posted to worker w
      that it has neither reported nor died on; dead workers report nothing any more. armed are the
      timers the event loop will fire. */
  datatype Pool = Pool(workers: seq<nat>, busy: nat, idleTimer: Option<nat>,
                       outstanding: seq<nat>, dead: set<nat>, armed: set<nat>, nextTimer: nat)

  const EMPTY := Pool([], 0, None, [], {}, {}, 0)

  function Sum(s: seq<nat>): nat {
    if s == [] then 0 else Sum(s[..|s| - 1]) + s[|s| - 1]
  }

  lemma {:induction false} SumUpdate(s: seq<nat>, i: nat, x: nat)
    requires i < |s|
    ensures Sum(s[i := x]) + s[i] == Sum(s) + x
  {
    if i == |s| - 1 {
      assert s[i := x][..i] == s[..i];
    } else {
      SumUpdate(s[..|s| - 1], i, x);
      assert s[i := x][..|s| - 1] == s[..|s| - 1][i := x];
    }
  }

  lemma {:induction false} SumZero(s: seq<nat>, i: nat)
    requires Sum(s) == 0 && i < |s|
    ensures s[i] == 0
  {
    if i < |s| - 1 {
      SumZero(s[..|s| - 1], i);
    }
  }

  lemma {:induction false} SumZeros(s: seq<nat>, n: nat)
    ensures Sum(s + Repeat(0, n)) == Sum(s)
  {
    if n == 0 {
      assert s + Repeat(0, 0) == s;
    } else {
      SumZeros(s, n - 1);
      assert (s + Repeat(0, n))[..|s| + n - 1] == s + Repeat(0, n - 1);
    }
  }

  function Numbers(first: nat, n: nat): (s: seq<nat>)
    ensures |s| == n && NoDuplicates(s) && forall x | x in s :: first <= x < first + n
  {
    seq(n, i requires 0 <= i < n => first + i)
  }

  function Without(s: seq<nat>, w: nat): (r: seq<nat>)
    ensures forall x :: x in r <==> x in s && x != w
    ensures NoDuplicates(s) ==> NoDuplicates(r)
  {
    if s == [] then []
    else
      var rest, last := Without(s[..|s| - 1], w), s[|s| - 1];
      assert NoDuplicates(s) ==> NoDuplicates(s[..|s| - 1]) && last !in s[..|s| - 1];
      assert s == s[..|s| - 1] + [last];
      if last == w then rest else rest + [last]
  }

  function ClearIdleTimer(p: Pool): Pool {
    if p.idleTimer.Some? then p.(armed := p.armed - {p.idleTimer.value}, idleTimer := None) else p
  }

  function ScheduleShutdown(p: Pool): Pool {
    var q := ClearIdleTimer(p);
    q.(idleTimer := Some(q.nextTimer), armed := q.armed + {q.nextTimer}, nextTimer := q.nextTimer + 1)
  }

  function OnBatchDone(p: Pool): Pool {
    var q := p.(busy := if p.busy > 0 then p.busy - 1 else 0);
    if q.busy == 0 then ScheduleShutdown(q) else q
  }

  function EnsureSpawned(p: Pool, numThreads: int): Pool {
    if p.workers != [] then p
    else
      var count := if numThreads > 1 then numThreads else 1;
      p.(workers := Numbers(|p.outstanding|, count), outstanding := p.outstanding + Repeat(0, count))
  }

  /** The workers of the pool are different, and spawned. */
  predicate Listed(p: Pool) {
    NoDuplicates(p.workers) && forall w | w in p.workers :: w < |p.outstanding|
  }

  function Post(p: Pool, w: nat): Pool
    requires w < |p.outstanding|
  {
    p.(busy := p.busy + 1, outstanding := p.outstanding[w := p.outstanding[w] + 1])
  }

  /** One batch each for the first n workers. */
  function PostFirst(p: Pool, n: nat): (q: Pool)
    requires Listed(p) && n <= |p.workers|
    ensures q == p.(busy := p.busy + n, outstanding := q.outstanding) && |q.outstanding| == |p.outstanding|
  {
    if n == 0 then p else
      assert p.workers[n - 1] in p.workers;
      Post(PostFirst(p, n - 1), p.workers[n - 1])
  }

  /** Dispatching n ids. */
  function Dispatch(p: Pool, numThreads: int, n: nat): Pool
    requires Listed(p)
  {
    if n == 0 then p
    else
      var q := EnsureSpawned(ClearIdleTimer(p), numThreads);
      PostFirst(q, if n < |q.workers| then n else |q.workers|)
  }

  function Shutdown(p: Pool): Pool {
    var q := ClearIdleTimer(p);
    if q.workers == [] then q else q.(workers := [], busy := 0)
  }

  datatype Event = Dispatched(ids: seq<string>) | Done(w: nat) | Error(w: nat) | Exit(w: nat) | Fire(timer: nat)

  function Apply(p: Pool, numThreads: int, e: Event): Pool
    requires Listed(p) && MayHappen(p, e)
  {
    match e
    case Dispatched(ids) => Dispatch(p, numThreads, |Unique(ids)|)
    case Done(w) => OnBatchDone(p.(outstanding := p.outstanding[w := p.outstanding[w] - 1]))
    case Error(w) => OnBatchDone(p.(outstanding := p.outstanding[w := 0], dead := p.dead + {w}))
    case Exit(w) => p.(workers := Without(p.workers, w), dead := p.dead + {w})
    case Fire(t) => Shutdown(p.(armed := p.armed - {t}))
  }

  predicate MayHappen(p: Pool, e: Event) {
    match e
    case Dispatched(_) => true
    case Done(w) => w < |p.outstanding| && w !in p.dead && p.outstanding[w] > 0
    case Error(w) => w < |p.outstanding| && w !in p.dead
    case Exit(w) => true
    case Fire(t) => t in p.armed
  }

  ghost predicate Step(numThreads: int, p: Pool, e: Event, p': Pool) {
    Listed(p) && MayHappen(p, e) && p' == Apply(p, numThreads, e)
  }

  /** The first n workers with their batches. */
  ghost function Posts(workers: seq<nat>, batches: seq<seq<string>>, n: int): seq<(nat, seq<string>)> {
    if 0 <= n <= |workers| && n <= |batches|
    then seq(n, i requires 0 <= i < n => (workers[i], batches[i]))
    else []
  }

  /** Worker i has one batch more if batch i holds something, and no other worker has. */
  ghost predicate PostedTo(workers: seq<nat>, batches: seq<seq<string>>, before: seq<nat>, after: seq<nat>) {
    && |after| >= |before|
    && forall w | 0 <= w < |after| ::
         after[w] == (if w < |before| then before[w] else 0) + One(GetsBatch(workers, batches, w))
  }

  ghost predicate GetsBatch(workers: seq<nat>, batches: seq<seq<string>>, w: nat) {
    exists i :: 0 <= i < |workers| && i < |batches| && workers[i] == w && batches[i] != []
  }

  lemma {:induction false} PostFirstEach(p: Pool, n: nat, w: nat)
    requires Listed(p) && n <= |p.workers| && w < |p.outstanding|
    ensures PostFirst(p, n).outstanding[w] == p.outstanding[w] + One(w in p.workers[..n])
  {
    if n > 0 {
      PostFirstEach(p, n - 1, w);
      assert p.workers[..n] == p.workers[..n - 1] + [p.workers[n - 1]];
      assert p.workers[n - 1] !in p.workers[..n - 1];
    }
  }

  /** From pool p to pool q exactly the nonempty batches have been posted, each to the worker in its
      place. An empty pool has been filled with new workers first. */
  ghost predicate Delivered(p: Pool, q: Pool, numThreads: int, batches: seq<seq<string>>,
                            posts: seq<(nat, seq<string>)>) {
    && |batches| == |q.workers|
    && (p.workers != [] ==> q.workers == p.workers)
    && (p.workers == [] ==> |q.workers| == (if numThreads > 1 then numThreads else 1))
    && (p.workers == [] ==> forall w | w in q.workers :: |p.outstanding| <= w < |q.outstanding|)
    && posts == Posts(q.workers, batches, |posts|)
    && (forall i | 0 <= i < |batches| :: batches[i] != [] <==> i < |posts|)
    && PostedTo(q.workers, batches, p.outstanding, q.outstanding)
  }

  lemma PostNext(p: Pool, batches: seq<seq<string>>, i: nat)
    requires Listed(p) && i < |p.workers| == |batches|
    ensures p.workers[i] < |p.outstanding|
    ensures PostFirst(p, i + 1) == Post(PostFirst(p, i), p.workers[i])
    ensures Posts(p.workers, batches, i + 1) == Posts(p.workers, batches, i) + [(p.workers[i], batches[i])]
  {
    assert p.workers[i] in p.workers;
  }

  lemma DeliveredIs(p: Pool, spawned: Pool, numThreads: int, n: nat, batches: seq<seq<string>>)
    requires Listed(p) && spawned == EnsureSpawned(ClearIdleTimer(p), numThreads)
    requires n <= |spawned.workers| == |batches|
    requires forall i | 0 <= i < |batches| :: batches[i] != [] <==> i < n
    ensures Delivered(p, PostFirst(spawned, n), numThreads, batches, Posts(spawned.workers, batches, n))
  {
    PostedToIs(spawned, n, batches, p.outstanding);
  }

  lemma PostedToIs(p: Pool, n: nat, batches: seq<seq<string>>, before: seq<nat>)
    requires Listed(p) && n <= |p.workers| == |batches|
    requires forall i | 0 <= i < |batches| :: batches[i] != [] <==> i < n
    requires |before| <= |p.outstanding|
    requires forall w | 0 <= w < |p.outstanding| :: p.outstanding[w] == if w < |before| then before[w] else 0
    ensures PostedTo(p.workers, batches, before, PostFirst(p, n).outstanding)
  {
    forall w | 0 <= w < |p.outstanding|
      ensures PostFirst(p, n).outstanding[w]
              == (if w < |before| then before[w] else 0) + One(GetsBatch(p.workers, batches, w))
    {
      PostFirstEach(p, n, w);
      if w in p.workers[..n] {
        var i :| 0 <= i < n && p.workers[i] == w;
      }
    }
  }

  // ---- the class ----

  class ThumbnailPool {
    const numThreads: int
    var workers: seq<nat>
    var busy: nat
    var idleTimer: Option<nat>
    // the workers and timers themselves
    var outstanding: seq<nat>
    var dead: set<nat>
    var armed: set<nat>
    var nextTimer: nat
    /** The batches posted so far, with the workers they were posted to. */
    ghost var posts: seq<(nat, seq<string>)>

    function State(): Pool
      reads this
    {
      Pool(workers, busy, idleTimer, outstanding, dead, armed, nextTimer)
    }

    constructor (numThreads: int)
      ensures this.numThreads == numThreads && State() == EMPTY && posts == []
    {
      this.numThreads := numThreads;
      workers, busy, idleTimer, outstanding, dead, armed, nextTimer := [], 0, None, [], {}, {}, 0;
      posts := [];
    }

    method ClearTimer()
      modifies this`idleTimer, this`armed
      ensures State() == ClearIdleTimer(old(State()))
    {
      if idleTimer.Some? {
        armed := armed - {idleTimer.value};
        idleTimer := None;
      }
    }

    method Schedule()
      modifies this`idleTimer, this`armed, this`nextTimer
      ensures State() == ScheduleShutdown(old(State()))
    {
      ClearTimer();
      idleTimer, armed, nextTimer := Some(nextTimer), armed + {nextTimer}, nextTimer + 1;
    }

    method BatchDone()
      modifies this`busy, this`idleTimer, this`armed, this`nextTimer
      ensures State() == OnBatchDone(old(State()))
    {
      busy := if busy > 0 then busy - 1 else 0;
      if busy == 0 {
        Schedule();
      }
    }

    method Spawn()
      modifies this`workers, this`outstanding
      ensures State() == EnsureSpawned(old(State()), numThreads)
    {
      if workers != [] {
        return;
      }
      var count := if numThreads > 1 then numThreads else 1;
      ghost var first, before := |outstanding|, outstanding;
      for i := 0 to count
        invariant workers == Numbers(first, i) && outstanding == before + Repeat(0, i)
        invariant State() == old(State()).(workers := workers, outstanding := outstanding)
      {
        assert Numbers(first, i + 1) == Numbers(first, i) + [first + i];
        workers := workers + [|outstanding|];
        outstanding := outstanding + [0];
      }
    }

    method PostMessage(w: nat, data: seq<string>)
      requires w < |outstanding|
      modifies this`outstanding, this`posts
      ensures outstanding == old(outstanding)[w := old(outstanding)[w] + 1] && posts == old(posts) + [(w, data)]
    {
      outstanding := outstanding[w := outstanding[w] + 1];
      posts := posts + [(w, data)];
    }

    /** Posts its batch to every worker that has one. */
    method PostAll(batches: seq<seq<string>>, ghost n: nat)
      requires Listed(State()) && |batches| == |workers|
      requires forall i | 0 <= i < |batches| :: batches[i] != [] <==> i < n
      modifies this`busy, this`outstanding, this`posts
      ensures State() == PostFirst(old(State()), if n < |batches| then n else |batches|)
      ensures posts == old(posts) + Posts(workers, batches, if n < |batches| then n else |batches|)
    {
      ghost var before, m := State(), 0;
      for i := 0 to |batches|
        invariant m == if n < i then n else i
        invariant State() == PostFirst(before, m)
        invariant posts == old(posts) + Posts(workers, batches, m)
      {
        if batches[i] != [] {
          PostNext(before, batches, m);
          busy := busy + 1;
          PostMessage(workers[i], batches[i]);
          m := m + 1;
        }
      }
    }

    /** Deals the ids to the workers and posts worker i its batch i, if it has one. */
    method DispatchIds(fileIds: seq<string>) returns (batches: seq<seq<string>>)
      requires Listed(State())
      modifies this
      ensures State() == Dispatch(old(State()), numThreads, |Unique(fileIds)|)
      ensures old(posts) <= posts
      ensures Unique(fileIds) == [] ==> batches == [] && posts == old(posts)
      ensures Unique(fileIds) != [] ==>
                && busy > 0 && |batches| == |workers| > 0 && Dealt(Unique(fileIds), |Unique(fileIds)|, batches)
                && Delivered(old(State()), State(), numThreads, batches, posts[|old(posts)|..])
    {
      var unique := Unique(fileIds);
      if unique == [] {
        return [];
      }
      ClearTimer();
      Spawn();
      batches := SplitBatches(unique, |workers|);
      DealtEvenly(unique, batches);
      ghost var spawned, n := State(), if |unique| < |batches| then |unique| else |batches|;
      PostAll(batches, |unique|);
      assert posts[|old(posts)|..] == Posts(workers, batches, n);
      DeliveredIs(old(State()), spawned, numThreads, n, batches);
      // the source now tests busy == 0 again, which cannot be
      assert busy > 0;
    }

    method OnDone(w: nat)
      requires Listed(State()) && MayHappen(State(), Done(w))
      modifies this`busy, this`idleTimer, this`outstanding, this`dead, this`armed, this`nextTimer
      ensures State() == Apply(old(State()), numThreads, Done(w))
    {
      outstanding := outstanding[w := outstanding[w] - 1];
      BatchDone();
    }

    method OnError(w: nat)
      requires Listed(State()) && MayHappen(State(), Error(w))
      modifies this`busy, this`idleTimer, this`outstanding, this`dead, this`armed, this`nextTimer
      ensures State() == Apply(old(State()), numThreads, Error(w))
    {
      outstanding, dead := outstanding[w := 0], dead + {w};
      BatchDone();
    }

    method OnExit(w: nat)
      requires Listed(State())
      modifies this`workers, this`dead
      ensures State() == Apply(old(State()), numThreads, Exit(w))
    {
      workers, dead := Without(workers, w), dead + {w};
    }

    method OnTimer(t: nat)
      requires Listed(State()) && MayHappen(State(), Fire(t))
      modifies this`workers, this`busy, this`idleTimer, this`armed
      ensures State() == Apply(old(State()), numThreads, Fire(t))
    {
      armed := armed - {t};
      ClearTimer();
      if workers == [] {
        return;
      }
      workers, busy := [], 0;
    }
  }

  // ---- what holds in every run ----

  /** The only armed timer is the current one; it is pending whenever a pool with workers is idle,
      and never while batches are counted as outstanding. */
  ghost predicate TimerRight(p: Pool) {
    && Listed(p)
    && p.armed == (if p.idleTimer.Some? then {p.idleTimer.value} else {})
    && (p.idleTimer.Some? ==> p.busy == 0 && p.idleTimer.value < p.nextTimer)
    && (p.workers != [] && p.busy == 0 ==> p.idleTimer.Some?)
  }

  lemma TimerStaysRight(numThreads: int, p: Pool, e: Event, p': Pool)
    requires TimerRight(p) && Step(numThreads, p, e, p')
    ensures TimerRight(p')
  {
  }

  /** busy is the number of outstanding batches. */
  ghost predicate BusyRight(p: Pool) {
    p.busy == Sum(p.outstanding)
  }

  lemma {:induction false} PostFirstSum(p: Pool, n: nat)
    requires Listed(p) && n <= |p.workers|
    ensures Sum(PostFirst(p, n).outstanding) == Sum(p.outstanding) + n
  {
    if n > 0 {
      PostFirstSum(p, n - 1);
      var q := PostFirst(p, n - 1);
      assert p.workers[n - 1] in p.workers;
      SumUpdate(q.outstanding, p.workers[n - 1], q.outstanding[p.workers[n - 1]] + 1);
    }
  }

  lemma DispatchKeepsBusy(p: Pool, numThreads: int, n: nat)
    requires Listed(p) && BusyRight(p)
    ensures BusyRight(Dispatch(p, numThreads, n))
  {
    if n > 0 {
      var q := EnsureSpawned(ClearIdleTimer(p), numThreads);
      SumZeros(p.outstanding, if numThreads > 1 then numThreads else 1);
      PostFirstSum(q, if n < |q.workers| then n else |q.workers|);
    }
  }

  /** An error event keeps the count right exactly when the worker had one batch outstanding, or
      nobody had any. */
  lemma ErrorKeepsBusyIff(numThreads: int, p: Pool, w: nat)
    requires Listed(p) && BusyRight(p) && MayHappen(p, Error(w))
    ensures BusyRight(Apply(p, numThreads, Error(w))) <==> p.outstanding[w] == 1 || p.busy == 0
  {
    SumUpdate(p.outstanding, w, 0);
    if p.busy == 0 {
      SumZero(p.outstanding, w);
    }
  }

  /** Errors happen only in workers with exactly one batch, or while the whole pool is idle. */
  predicate CleanEvent(p: Pool, e: Event) {
    e.Error? && e.w < |p.outstanding| ==> p.outstanding[e.w] == 1 || p.busy == 0
  }

  lemma FireFindsNoWork(p: Pool, t: nat)
    requires TimerRight(p) && BusyRight(p) && t in p.armed
    ensures forall w | 0 <= w < |p.outstanding| :: p.outstanding[w] == 0
  {
    forall w | 0 <= w < |p.outstanding| ensures p.outstanding[w] == 0 {
      SumZero(p.outstanding, w);
    }
  }

  lemma StepKeepsBusy(numThreads: int, p: Pool, e: Event, p': Pool)
    requires TimerRight(p) && BusyRight(p) && Step(numThreads, p, e, p') && CleanEvent(p, e)
    ensures BusyRight(p')
  {
    match e
    case Dispatched(ids) => DispatchKeepsBusy(p, numThreads, |Unique(ids)|);
    case Done(w) => SumUpdate(p.outstanding, w, p.outstanding[w] - 1);
    case Error(w) => ErrorKeepsBusyIff(numThreads, p, w);
    case _ =>
  }

  ghost function Starts(): Pool -> bool {
    p => p == EMPTY
  }

  ghost function Steps(numThreads: int): (Pool, Event, Pool) -> bool {
    (p, e, p') => Step(numThreads, p, e, p')
  }

  ghost function CleanSteps(numThreads: int): (Pool, Event, Pool) -> bool {
    (p, e, p') => Step(numThreads, p, e, p') && CleanEvent(p, e)
  }

  /** Whatever happens, an idle pool with workers has its one timer pending, and no timer is pending
      while batches are counted. */
  lemma TimerAlwaysRight(numThreads: int, states: seq<Pool>, events: seq<Event>, k: nat)
    requires StateMachines.IsRun(Starts(), Steps(numThreads), states, events) && k < |states|
    ensures TimerRight(states[k])
  {
    forall p, e, p' | TimerRight(p) && Steps(numThreads)(p, e, p') ensures TimerRight(p') {
      TimerStaysRight(numThreads, p, e, p');
    }
    StateMachines.Invariant(Starts(), Steps(numThreads), p => TimerRight(p), states, events, k);
  }

  lemma CleanPreserves(numThreads: int)
    ensures StateMachines.Preserves(p => TimerRight(p) && BusyRight(p), CleanSteps(numThreads))
  {
    forall p, e, p' | TimerRight(p) && BusyRight(p) && CleanSteps(numThreads)(p, e, p')
      ensures TimerRight(p') && BusyRight(p')
    {
      TimerStaysRight(numThreads, p, e, p');
      StepKeepsBusy(numThreads, p, e, p');
    }
  }

  /** With clean errors only, busy is always the number of outstanding batches, so the timer never
      shuts down a worker that has work. */
  lemma IdleShutdownIsSafe(numThreads: int, states: seq<Pool>, events: seq<Event>, k: nat)
    requires StateMachines.IsRun(Starts(), CleanSteps(numThreads), states, events) && k < |states|
    ensures TimerRight(states[k]) && BusyRight(states[k])
    ensures k < |events| && events[k].Fire? ==>
              forall w | 0 <= w < |states[k].outstanding| :: states[k].outstanding[w] == 0
  {
    CleanPreserves(numThreads);
    StateMachines.Invariant(Starts(), CleanSteps(numThreads), p => TimerRight(p) && BusyRight(p), states, events, k);
    if k < |events| && events[k].Fire? {
      assert CleanSteps(numThreads)(states[k], events[k], states[k + 1]);
      FireFindsNoWork(states[k], events[k].timer);
    }
  }

  /** Without that condition it does: of two workers the first gets the only batch, an error in the
      second arms the timer, and the timer drops the first while it works. */
  lemma IdleErrorKillsWork()
    ensures exists p1, p2, p3 ::
              && Step(2, EMPTY, Dispatched(["a"]), p1) && Step(2, p1, Error(1), p2) && Step(2, p2, Fire(0), p3)
              && p2.workers == [0, 1] && p3.workers == [] && p3.outstanding == [1, 0]
  {
    assert Unique(["a"]) == ["a"];
    var spawned := Pool([0, 1], 0, None, [0, 0], {}, {}, 0);
    assert Numbers(0, 2) == [0, 1] && Repeat(0, 2) == [0, 0];
    assert EnsureSpawned(EMPTY, 2) == spawned;
    var p1 := Pool([0, 1], 1, None, [1, 0], {}, {}, 0);
    assert PostFirst(spawned, 1) == Post(PostFirst(spawned, 0), 0) == p1;
    var p2 := Pool([0, 1], 0, Some(0), [1, 0], {1}, {0}, 1);
    var p3 := Pool([], 0, None, [1, 0], {1}, {}, 1);
    assert Step(2, EMPTY, Dispatched(["a"]), p1);
    assert Step(2, p1, Error(1), p2);
    assert Step(2, p2, Fire(0), p3);
  }

  /** Worker w is dead and still has a batch outstanding. */
  ghost predicate Lost(w: nat, p: Pool) {
    TimerRight(p) && BusyRight(p) && w < |p.outstanding| && w in p.dead && p.outstanding[w] > 0
  }

  lemma {:induction false} PostFirstOnlyAdds(p: Pool, n: nat, w: nat)
    requires Listed(p) && n <= |p.workers| && w < |p.outstanding|
    ensures PostFirst(p, n).outstanding[w] >= p.outstanding[w]
  {
    if n > 0 {
      PostFirstOnlyAdds(p, n - 1, w);
    }
  }

  lemma LostStays(numThreads: int, w: nat)
    ensures StateMachines.Preserves(p => Lost(w, p), CleanSteps(numThreads))
  {
    forall p, e, p' | Lost(w, p) && CleanSteps(numThreads)(p, e, p') ensures Lost(w, p') {
      TimerStaysRight(numThreads, p, e, p');
      StepKeepsBusy(numThreads, p, e, p');
      if e.Dispatched? {
        var q := EnsureSpawned(ClearIdleTimer(p), numThreads);
        var n := |Unique(e.ids)|;
        PostFirstOnlyAdds(q, if n < |q.workers| then n else |q.workers|, w);
      }
    }
  }

  /** A batch posted to a worker that died, or whose worker exited before reporting it, keeps the
      pool up for good: the idle timer never runs again. */
  lemma LostBatchKeepsPoolUp(numThreads: int, states: seq<Pool>, events: seq<Event>, j: nat, k: nat, w: nat)
    requires StateMachines.IsRun(Starts(), CleanSteps(numThreads), states, events) && j <= k < |states|
    requires w < |states[j].outstanding| && w in states[j].dead && states[j].outstanding[w] > 0
    ensures states[k].busy > 0 && states[k].idleTimer == None
  {
    IdleShutdownIsSafe(numThreads, states, events, j);
    LostStays(numThreads, w);
    StateMachines.HoldsFrom(Starts(), CleanSteps(numThreads), p => Lost(w, p), states, events, j, k);
    assert Lost(w, states[k]);
    if Sum(states[k].outstanding) == 0 {
      SumZero(states[k].outstanding, w);
    }
  }

  /** Worker w has been spawned and is not in the pool any more. */
  ghost predicate Out(w: nat, p: Pool) {
    w < |p.outstanding| && w !in p.workers
  }

  lemma OutStays(numThreads: int, w: nat)
    ensures StateMachines.Preserves(p => Out(w, p), Steps(numThreads))
  {
    forall p, e, p' | Out(w, p) && Steps(numThreads)(p, e, p') ensures Out(w, p') {
    }
  }

  /** An exit takes its worker and no other out of the pool, for good: it gets no further batch. */
  lemma ExitedStaysOut(numThreads: int, states: seq<Pool>, events: seq<Event>, j: nat, k: nat, w: nat)
    requires StateMachines.IsRun(Starts(), Steps(numThreads), states, events) && j < k < |states|
    requires events[j] == Exit(w) && w < |states[j].outstanding|
    ensures forall x :: x in states[j + 1].workers <==> x in states[j].workers && x != w
    ensures states[j + 1].busy == states[j].busy && states[j + 1].outstanding == states[j].outstanding
    ensures w !in states[k].workers
  {
    assert Steps(numThreads)(states[j], events[j], states[j + 1]);
    OutStays(numThreads, w);
    StateMachines.HoldsFrom(Starts(), Steps(numThreads), p => Out(w, p), states, events, j + 1, k);
    assert Out(w, states[k]);
  }
}

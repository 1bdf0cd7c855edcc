/** The rate limiter's map of token buckets: pruning idle keys never changes a decision, exactly
    when an idle bucket refills within the idle time. Times are whole nanoseconds. */
module RateLimit {
  import opened Arithmetic
  import opened Sequences

  const SECOND: nat := 1_000_000_000
  const MAX_ENTRIES: nat := 50000
  const IDLE_TTL: nat := 600 * SECOND
  const PRUNE_INTERVAL: nat := 300 * SECOND

  /** A token bucket in units small enough to keep everything whole: an event costs cost, burst
      events fit in a full bucket, and refill units come back every nanosecond. An unlimited
      bucket lets everything pass. */
  datatype Limit = Unlimited | Limited(burst: nat, cap: nat, refill: nat, cost: nat) {
    predicate Valid() {
      Limited? ==> burst > 0 && refill > 0 && cost > 0 && cap == burst * cost
    }

    /** An empty bucket is full again after any idle time that gets its key evicted. */
    predicate RefillsWhenIdle() {
      Limited? ==> cap <= refill * (IDLE_TTL + 1)
    }
  }

  /** Max events per window with the whole allowance as burst; without a window, Max a second. */
  function RlRate(maxEvents: int, windowSeconds: int): (l: Limit)
    ensures l.Valid()
  {
    var max: nat := if maxEvents <= 0 then 1 else maxEvents;
    if windowSeconds > 0 then
      var interval := windowSeconds * SECOND / max;
      if interval == 0 then Unlimited else Limited(max, max * interval, 1, interval)
    else
      Limited(max, max * SECOND, max, SECOND)
  }

  /** A configured window of at most the idle time meets the condition, whatever Max is; so does
      the default without a window. */
  lemma ShortWindowRefills(maxEvents: int, windowSeconds: int)
    requires windowSeconds <= 600
    ensures RlRate(maxEvents, windowSeconds).RefillsWhenIdle()
  {
    var max: nat := if maxEvents <= 0 then 1 else maxEvents;
    if windowSeconds > 0 {
    } else {
      TimesMonotone(max, SECOND, IDLE_TTL + 1);
    }
  }

  lemma TimesMonotone(a: nat, x: nat, y: nat)
    requires x <= y
    ensures a * x <= a * y
  {
  }

  // ---- one bucket ----

  /** credit was what the bucket held at time last. */
  datatype Bucket = Bucket(credit: nat, last: nat)

  function CreditAt(l: Limit, b: Bucket, now: nat): nat
    requires l.Limited?
  {
    var elapsed := if now > b.last then now - b.last else 0;
    var credit := b.credit + l.refill * elapsed;
    if credit > l.cap then l.cap else credit
  }

  function FullBucket(l: Limit, now: nat): Bucket {
    Bucket(if l.Limited? then l.cap else 0, now)
  }

  /** limiter.Allow: advance the clock, and spend one event's cost if there is enough. */
  function Take(l: Limit, b: Bucket, now: nat): (Bucket, bool) {
    if l.Unlimited? then (Bucket(0, now), true)
    else
      var credit := CreditAt(l, b, now);
      if credit >= l.cost then (Bucket(credit - l.cost, now), true) else (Bucket(credit, now), false)
  }

  // ---- the store ----

  type Entries = map<string, Bucket>

  /** The limiter map and when it was last pruned. A bucket's last is its key's last use. */
  datatype Store = Store(entries: Entries, lastPrune: nat)

  ghost function Evicted(entries: Entries, now: nat): Entries {
    map k | k in entries && now - entries[k].last <= IDLE_TTL :: entries[k]
  }

  /** Pruning is due when the map is over its cap or the interval has passed. */
  predicate PruneDue(s: Store, now: nat) {
    |s.entries| > MAX_ENTRIES || now - s.lastPrune >= PRUNE_INTERVAL
  }

  /** The eviction left too many keys, so the map is thrown away. */
  ghost predicate Resets(s: Store, now: nat) {
    PruneDue(s, now) && |Evicted(s.entries, now)| > MAX_ENTRIES
  }

  ghost function Pruned(s: Store, now: nat): Store {
    if !PruneDue(s, now) then s
    else Store(if Resets(s, now) then map[] else Evicted(s.entries, now), now)
  }

  /** One request on a map of buckets; an unknown key starts with a full one. */
  function Hit(l: Limit, entries: Entries, key: string, now: nat): (Entries, bool) {
    var b := if key in entries then entries[key] else FullBucket(l, now);
    var (b', ok) := Take(l, b, now);
    (entries[key := b'], ok)
  }

  ghost function Allowed(l: Limit, s: Store, key: string, now: nat): (Store, bool) {
    var p := Pruned(s, now);
    var (entries, ok) := Hit(l, p.entries, key, now);
    (p.(entries := entries), ok)
  }

  class RlStore {
    var entries: map<string, Bucket>
    var lastPrune: nat
    const limit: Limit

    constructor (limit: Limit, now: nat)
      ensures this.limit == limit && State() == Store(map[], now)
    {
      this.limit := limit;
      entries := map[];
      lastPrune := now;
    }

    function State(): Store
      reads this
    {
      Store(entries, lastPrune)
    }

    method MaybePruneLocked(now: nat)
      modifies this
      ensures State() == Pruned(old(State()), now)
    {
      var overCap := |entries| > MAX_ENTRIES;
      if !overCap && now - lastPrune < PRUNE_INTERVAL {
        return;
      }
      lastPrune := now;
      ghost var before := entries;
      var left := entries.Keys;
      while left != {}
        invariant left <= before.Keys && lastPrune == now
        invariant entries == map k | k in before && (k in left || now - before[k].last <= IDLE_TTL) :: before[k]
        decreases |left|
      {
        var k :| k in left;
        left := left - {k};
        if now - entries[k].last > IDLE_TTL {
          entries := entries - {k};
        }
      }
      assert entries == Evicted(before, now);
      if |entries| > MAX_ENTRIES {
        entries := map[];
      }
    }

    /** Records a hit for key and reports whether it is within the limit. */
    method Allow(key: string, now: nat) returns (ok: bool)
      modifies this
      ensures (State(), ok) == Allowed(limit, old(State()), key, now)
    {
      MaybePruneLocked(now);
      var b := if key in entries then entries[key] else FullBucket(limit, now);
      var taken := Take(limit, b, now);
      entries := entries[key := taken.0];
      ok := taken.1;
    }
  }

  // ---- traces of requests ----

  datatype Request = Request(key: string, time: nat)

  /** The requests come in the order of the clock, none before the store was made. */
  ghost predicate Ordered(trace: seq<Request>, start: nat) {
    && (forall i | 0 <= i < |trace| :: start <= trace[i].time)
    && (forall i, j | 0 <= i < j < |trace| :: trace[i].time <= trace[j].time)
  }

  ghost function Front(trace: seq<Request>): seq<Request>
    requires trace != []
  {
    trace[..|trace| - 1]
  }

  /** The store made at time start, after a trace of requests. */
  ghost function StoreAfter(l: Limit, start: nat, trace: seq<Request>): Store {
    if trace == [] then Store(map[], start)
    else Allowed(l, StoreAfter(l, start, Front(trace)), Last(trace).key, Last(trace).time).0
  }

  /** A map that never forgets a key, after the same trace. */
  ghost function PlainAfter(l: Limit, trace: seq<Request>): Entries {
    if trace == [] then map[] else Hit(l, PlainAfter(l, Front(trace)), Last(trace).key, Last(trace).time).0
  }

  /** The decision each of them takes on the trace's last request. */
  ghost predicate Decides(l: Limit, start: nat, trace: seq<Request>)
    requires trace != []
  {
    Allowed(l, StoreAfter(l, start, Front(trace)), Last(trace).key, Last(trace).time).1
  }

  ghost predicate PlainDecides(l: Limit, trace: seq<Request>)
    requires trace != []
  {
    Hit(l, PlainAfter(l, Front(trace)), Last(trace).key, Last(trace).time).1
  }

  ghost predicate NeverResets(l: Limit, start: nat, trace: seq<Request>) {
    trace == [] ||
    (NeverResets(l, start, Front(trace)) && !Resets(StoreAfter(l, start, Front(trace)), Last(trace).time))
  }

  // ---- pruning is invisible when idle buckets refill ----

  /** At time now the pruned map is the plain map without some keys idle beyond the limit. */
  ghost predicate Simulates(pruned: Entries, plain: Entries, now: nat) {
    && (forall k | k in pruned :: k in plain && plain[k] == pruned[k])
    && (forall k | k in plain && k !in pruned :: now - plain[k].last > IDLE_TTL)
  }

  lemma IdleBucketIsFull(l: Limit, b: Bucket, now: nat)
    requires l.Valid() && l.RefillsWhenIdle() && now - b.last > IDLE_TTL
    ensures Take(l, b, now) == Take(l, FullBucket(l, now), now)
  {
    if l.Limited? {
      TimesMonotone(l.refill, IDLE_TTL + 1, now - b.last);
      assert CreditAt(l, b, now) == l.cap == CreditAt(l, FullBucket(l, now), now);
    }
  }

  lemma StepSimulates(l: Limit, s: Store, plain: Entries, key: string, before: nat, now: nat)
    requires l.Valid() && l.RefillsWhenIdle()
    requires before <= now && Simulates(s.entries, plain, before) && !Resets(s, now)
    ensures Allowed(l, s, key, now).1 == Hit(l, plain, key, now).1
    ensures Simulates(Allowed(l, s, key, now).0.entries, Hit(l, plain, key, now).0, now)
  {
    var pruned := Pruned(s, now).entries;
    assert Simulates(pruned, plain, now);
    if key in plain && key !in pruned {
      IdleBucketIsFull(l, plain[key], now);
    }
  }

  lemma {:induction false} TraceSimulates(l: Limit, start: nat, trace: seq<Request>)
    requires l.Valid() && l.RefillsWhenIdle() && Ordered(trace, start) && NeverResets(l, start, trace)
    ensures Simulates(StoreAfter(l, start, trace).entries, PlainAfter(l, trace),
                      if trace == [] then start else Last(trace).time)
    ensures trace != [] ==> (Decides(l, start, trace) <==> PlainDecides(l, trace))
  {
    if trace != [] {
      var front := Front(trace);
      TraceSimulates(l, start, front);
      var before := if front == [] then start else Last(front).time;
      StepSimulates(l, StoreAfter(l, start, front), PlainAfter(l, front), Last(trace).key, before, Last(trace).time);
    }
  }

  // ---- and visible otherwise ----

  const KEY := "k"

  /** base followed by n more requests of the key at time t. */
  ghost function More(base: seq<Request>, t: nat, n: nat): (trace: seq<Request>)
    ensures |trace| == |base| + n
  {
    if n == 0 then base else More(base, t, n - 1) + [Request(KEY, t)]
  }

  lemma {:induction false} MoreOrdered(base: seq<Request>, t: nat, n: nat)
    requires Ordered(base, 0) && forall i | 0 <= i < |base| :: base[i].time <= t
    ensures Ordered(More(base, t, n), 0)
    ensures forall i | 0 <= i < |More(base, t, n)| :: More(base, t, n)[i].time <= t
  {
    if n > 0 {
      MoreOrdered(base, t, n - 1);
    }
  }

  /** What n events cost together. */
  ghost function Costs(l: Limit, n: nat): nat
    requires l.Limited?
  {
    if n == 0 then 0 else Costs(l, n - 1) + l.cost
  }

  lemma {:induction false} CostsIsProduct(l: Limit, n: nat)
    requires l.Limited?
    ensures Costs(l, n) == n * l.cost
  {
    if n > 0 {
      CostsIsProduct(l, n - 1);
    }
  }

  lemma CostsFit(l: Limit, n: nat)
    requires l.Valid() && l.Limited?
    ensures n < l.burst ==> Costs(l, n + 1) <= l.cap
    ensures Costs(l, l.burst) == l.cap
  {
    CostsIsProduct(l, n + 1);
    CostsIsProduct(l, l.burst);
    if n < l.burst {
      TimesMonotone(l.cost, n + 1, l.burst);
    }
  }

  /** After trace the plain map knows only the key, last used at t, with this credit. */
  ghost predicate PlainStands(l: Limit, trace: seq<Request>, t: nat, credit: nat) {
    PlainAfter(l, trace) == map[KEY := Bucket(credit, t)]
  }

  /** The same for the pruned store, which was last pruned at t and never reset. */
  ghost predicate PrunedStands(l: Limit, trace: seq<Request>, t: nat, credit: nat) {
    StoreAfter(l, 0, trace) == Store(map[KEY := Bucket(credit, t)], t) && NeverResets(l, 0, trace)
  }

  /** n more of them, as long as the credit lasts. */
  lemma {:induction false} MorePlain(l: Limit, trace: seq<Request>, t: nat, credit: nat, n: nat)
    requires l.Limited? && PlainStands(l, trace, t, credit) && Costs(l, n) <= credit <= l.cap
    ensures PlainStands(l, More(trace, t, n), t, credit - Costs(l, n))
  {
    if n > 0 {
      MorePlain(l, trace, t, credit, n - 1);
    }
  }

  lemma OneMorePruned(l: Limit, trace: seq<Request>, t: nat, credit: nat)
    requires l.Limited? && PrunedStands(l, trace, t, credit) && l.cost <= credit <= l.cap
    ensures PrunedStands(l, trace + [Request(KEY, t)], t, credit - l.cost)
  {
    var longer := trace + [Request(KEY, t)];
    assert Front(longer) == trace && Last(longer) == Request(KEY, t);
    assert Pruned(StoreAfter(l, 0, trace), t) == StoreAfter(l, 0, trace);
  }

  lemma {:induction false} MorePruned(l: Limit, trace: seq<Request>, t: nat, credit: nat, n: nat)
    requires l.Limited? && PrunedStands(l, trace, t, credit) && Costs(l, n) <= credit <= l.cap
    ensures PrunedStands(l, More(trace, t, n), t, credit - Costs(l, n))
  {
    if n > 0 {
      MorePruned(l, trace, t, credit, n - 1);
      OneMorePruned(l, More(trace, t, n - 1), t, credit - Costs(l, n - 1));
    }
  }

  lemma FirstHit(l: Limit)
    requires l.Valid() && l.Limited?
    ensures l.cost <= l.cap
    ensures PlainStands(l, [Request(KEY, 0)], 0, l.cap - l.cost)
            && PrunedStands(l, [Request(KEY, 0)], 0, l.cap - l.cost)
  {
    var trace := [Request(KEY, 0)];
    assert trace == [] + [Request(KEY, 0)];
    CostsFit(l, 0);
  }

  /** A first burst at time 0 that spends the whole allowance. */
  ghost function Burst(l: Limit): seq<Request>
    requires l.Valid() && l.Limited?
  {
    More([Request(KEY, 0)], 0, l.burst - 1)
  }

  lemma BurstSpendsAll(l: Limit)
    requires l.Valid() && l.Limited?
    ensures PlainStands(l, Burst(l), 0, 0) && PrunedStands(l, Burst(l), 0, 0)
  {
    FirstHit(l);
    CostsFit(l, l.burst - 1);
    MorePlain(l, [Request(KEY, 0)], 0, l.cap - l.cost, l.burst - 1);
    MorePruned(l, [Request(KEY, 0)], 0, l.cap - l.cost, l.burst - 1);
  }

  /** The first request once the key has become evictable: the pruned store starts the key
      afresh, the other map has only what came back since. */
  lemma PrunedAfterPause(l: Limit, trace: seq<Request>)
    requires l.Limited? && l.cost <= l.cap && PrunedStands(l, trace, 0, 0)
    ensures PrunedStands(l, trace + [Request(KEY, IDLE_TTL + 1)], IDLE_TTL + 1, l.cap - l.cost)
    ensures Decides(l, 0, trace + [Request(KEY, IDLE_TTL + 1)])
  {
  }

  /** How many events an amount of credit smaller than a full bucket pays for. */
  lemma Affordable(l: Limit, credit: nat)
    requires l.Valid() && l.Limited? && credit < l.cap
    ensures exists m: nat :: Costs(l, m) <= credit < Costs(l, m) + l.cost && m < l.burst
  {
    var m := credit / l.cost;
    CostsIsProduct(l, m);
    assert credit == m * l.cost + credit % l.cost;
    if m >= l.burst {
      TimesMonotone(l.cost, l.burst, m);
    }
  }

  ghost function Paused(l: Limit): seq<Request>
    requires l.Valid() && l.Limited?
  {
    Burst(l) + [Request(KEY, IDLE_TTL + 1)]
  }

  lemma PausedOrdered(l: Limit, m: nat)
    requires l.Valid() && l.Limited?
    ensures Ordered(More(Paused(l), IDLE_TTL + 1, m), 0)
  {
    MoreOrdered([Request(KEY, 0)], 0, l.burst - 1);
    MoreOrdered(Paused(l), IDLE_TTL + 1, m);
  }

  /** After a burst and a pause the pruned store lets a whole second burst pass. */
  lemma PrunedAllowsAll(l: Limit, m: nat)
    requires l.Valid() && l.Limited? && m < l.burst
    ensures NeverResets(l, 0, More(Paused(l), IDLE_TTL + 1, m))
    ensures Decides(l, 0, More(Paused(l), IDLE_TTL + 1, m))
  {
    var T := IDLE_TTL + 1;
    BurstSpendsAll(l);
    CostsFit(l, 0);
    PrunedAfterPause(l, Burst(l));
    if m > 0 {
      CostsFit(l, m);
      MorePruned(l, Paused(l), T, l.cap - l.cost, m - 1);
    }
  }

  /** The other map runs out on the request its refill no longer pays for. */
  lemma PlainRunsOut(l: Limit, m: nat, refilled: nat)
    requires l.Valid() && l.Limited? && refilled == l.refill * (IDLE_TTL + 1) <= l.cap
    requires Costs(l, m) <= refilled < Costs(l, m) + l.cost
    ensures !PlainDecides(l, More(Paused(l), IDLE_TTL + 1, m))
  {
    BurstSpendsAll(l);
    if m > 0 {
      MorePlain(l, Paused(l), IDLE_TTL + 1, refilled - l.cost, m - 1);
    }
  }

  /** A limit whose idle buckets do not refill: on this trace the pruned store lets a request
      pass that the other map refuses. */
  lemma SlowRefillShows(l: Limit)
    requires l.Valid() && !l.RefillsWhenIdle()
    ensures exists trace ::
              && trace != [] && Ordered(trace, 0) && NeverResets(l, 0, trace)
              && Decides(l, 0, trace) && !PlainDecides(l, trace)
  {
    var refilled := l.refill * (IDLE_TTL + 1);
    Affordable(l, refilled);
    var m: nat :| Costs(l, m) <= refilled < Costs(l, m) + l.cost && m < l.burst;
    PausedOrdered(l, m);
    PrunedAllowsAll(l, m);
    PlainRunsOut(l, m, refilled);
    var trace := More(Paused(l), IDLE_TTL + 1, m);
    assert trace != [] && Decides(l, 0, trace) && !PlainDecides(l, trace);
  }

  /** Pruning changes no decision on any trace that escapes the hard reset. */
  ghost predicate PruningIsInvisible(l: Limit) {
    forall trace | trace != [] && Ordered(trace, 0) && NeverResets(l, 0, trace) ::
      Decides(l, 0, trace) <==> PlainDecides(l, trace)
  }

  /** Pruning changes no decision on any trace that escapes the hard reset, exactly when an
      empty bucket refills within the idle time. */
  lemma PruningInvisible(l: Limit)
    requires l.Valid()
    ensures l.RefillsWhenIdle() <==> PruningIsInvisible(l)
  {
    if l.RefillsWhenIdle() {
      forall trace | trace != [] && Ordered(trace, 0) && NeverResets(l, 0, trace)
        ensures Decides(l, 0, trace) <==> PlainDecides(l, trace)
      {
        TraceSimulates(l, 0, trace);
      }
    } else {
      SlowRefillShows(l);
    }
  }

  /** The limits the server builds: no window, or one of at most ten minutes, hides the pruning,
      whatever Max is. The configuration sets no window today, so this is every running server. */
  lemma ShortWindowInvisible(maxEvents: int, windowSeconds: int)
    requires windowSeconds <= 600
    ensures PruningIsInvisible(RlRate(maxEvents, windowSeconds))
  {
    ShortWindowRefills(maxEvents, windowSeconds);
    PruningInvisible(RlRate(maxEvents, windowSeconds));
  }

  /** One event in 601 seconds would show it: a client that comes back a nanosecond after its key
      has become evictable is let through, though its bucket is still short of a full event. */
  lemma LongWindowShows()
    ensures var l, trace := RlRate(1, 601), [Request(KEY, 0), Request(KEY, IDLE_TTL + 1)];
            && Ordered(trace, 0) && NeverResets(l, 0, trace) && Decides(l, 0, trace) && !PlainDecides(l, trace)
            && !PruningIsInvisible(l)
  {
    var l := RlRate(1, 601);
    assert Paused(l) == [Request(KEY, 0), Request(KEY, IDLE_TTL + 1)];
    PrunedAllowsAll(l, 0);
    PlainRunsOut(l, 0, IDLE_TTL + 1);
  }

  // ---- the size of the map ----

  /** In every run the map holds at most one key more than its cap. */
  lemma {:induction false} SizeBounded(l: Limit, start: nat, trace: seq<Request>)
    ensures |StoreAfter(l, start, trace).entries| <= MAX_ENTRIES + 1
  {
    if trace != [] {
      SizeBounded(l, start, Front(trace));
      var s := StoreAfter(l, start, Front(trace));
      var p := Pruned(s, Last(trace).time);
      assert |p.entries| <= MAX_ENTRIES;
      assert StoreAfter(l, start, trace).entries.Keys == p.entries.Keys + {Last(trace).key};
      assert |p.entries.Keys| == |p.entries|;
    }
  }

  // ---- how many events pass ----

  /** n requests in a row at time now all pass. */
  ghost predicate AllPass(l: Limit, b: Bucket, now: nat, n: nat)
    decreases n
  {
    n == 0 || (Take(l, b, now).1 && AllPass(l, Take(l, b, now).0, now, n - 1))
  }

  lemma {:induction false} AllPassIff(l: Limit, b: Bucket, now: nat, n: nat)
    requires l.Valid() && l.Limited?
    ensures AllPass(l, b, now, n) <==> n * l.cost <= CreditAt(l, b, now)
    decreases n
  {
    if n > 0 {
      var credit := CreditAt(l, b, now);
      assert n * l.cost == (n - 1) * l.cost + l.cost;
      TimesMonotone(l.cost, 1, n);
      if credit >= l.cost {
        AllPassIff(l, Take(l, b, now).0, now, n - 1);
      }
    }
  }

  lemma {:induction false} UnlimitedPasses(b: Bucket, now: nat, n: nat)
    ensures AllPass(Unlimited, b, now, n)
    decreases n
  {
    if n > 0 {
      UnlimitedPasses(Take(Unlimited, b, now).0, now, n - 1);
    }
  }

  lemma TimesCancel(m: int, n: int, c: int)
    requires c > 0
    ensures m * c <= n * c <==> m <= n
  {
    var d := n - m;
    assert d * c == n * c - m * c;
    if d < 0 {
      assert -d * c >= c;
    }
  }

  /** A full bucket holds n events, and so does an empty one after elapsed nanoseconds. */
  ghost predicate Paced(l: Limit, t: nat, elapsed: nat, n: nat, atOnce: bool, after: bool) {
    (AllPass(l, FullBucket(l, t), t, n) <==> atOnce) && (AllPass(l, Bucket(0, t), t + elapsed, n) <==> after)
  }

  lemma PacedIs(l: Limit, t: nat, elapsed: nat, n: nat)
    requires l.Valid() && l.Limited?
    ensures Paced(l, t, elapsed, n, n <= l.burst, n <= l.burst && n * l.cost <= l.refill * elapsed)
  {
    AllPassIff(l, FullBucket(l, t), t, n);
    AllPassIff(l, Bucket(0, t), t + elapsed, n);
    TimesCancel(n, l.burst, l.cost);
  }

  /** Without a window: Max events at once, and after that Max a second, evenly. With one: Max events
      at once, and after that one for each Max-th part of the window. */
  lemma RatePasses(maxEvents: int, windowSeconds: int, t: nat, elapsed: nat, n: nat)
    ensures var max := if maxEvents < 1 then 1 else maxEvents;
            var l := RlRate(maxEvents, windowSeconds);
            if windowSeconds <= 0 then
              Paced(l, t, elapsed, n, n <= max, n <= max && n * 1_000_000_000 <= max * elapsed)
            else if windowSeconds * 1_000_000_000 < max then Paced(l, t, elapsed, n, true, true)
            else Paced(l, t, elapsed, n, n <= max, n <= max && n * (windowSeconds * 1_000_000_000 / max) <= elapsed)
  {
    var max := if maxEvents < 1 then 1 else maxEvents;
    var l := RlRate(maxEvents, windowSeconds);
    if windowSeconds > 0 && windowSeconds * SECOND < max {
      assert windowSeconds * SECOND / max == 0;
      UnlimitedPasses(FullBucket(l, t), t, n);
      UnlimitedPasses(Bucket(0, t), t + elapsed, n);
    } else {
      if windowSeconds > 0 {
        QuotientAtLeast(windowSeconds * SECOND, max, 1);
      }
      PacedIs(l, t, elapsed, n);
    }
  }

  // ---- one request ----

  /** What a request does to the map: pruning is due above 50000 keys or 300 seconds after the last
      one, and takes the keys unused for more than 600 seconds, or all if 50000 would be exceeded. Of
      the remaining keys only the one asked for is touched, and a key that is not there starts with a
      full bucket. */
  lemma RequestIs(l: Limit, s: Store, key: string, now: nat, k: string)
    ensures var (after, ok) := Allowed(l, s, key, now);
            var due := |s.entries| > 50000 || now - s.lastPrune >= 300_000_000_000;
            var recent := map x | x in s.entries && now - s.entries[x].last <= 600_000_000_000 :: s.entries[x];
            var kept := if !due then s.entries else if |recent| > 50000 then map[] else recent;
            && after.lastPrune == (if due then now else s.lastPrune)
            && (k != key ==> (k in after.entries <==> k in kept) && (k in kept ==> after.entries[k] == kept[k]))
            && key in after.entries && after.entries[key].last == now
            && (ok <==> AllPass(l, if key in kept then kept[key] else FullBucket(l, now), now, 1))
  {
    assert Evicted(s.entries, now)
        == map x | x in s.entries && now - s.entries[x].last <= 600_000_000_000 :: s.entries[x];
  }
}

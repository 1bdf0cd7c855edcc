/** A map whose entries expire: each entry has a timer that removes it, and reads ignore entries
    past their time. Timers may fire late, never early. */
module TimedCache {
  import opened Wrappers

  datatype Entry<V> = Entry(value: V, expiresAt: int, timeout: nat)

  datatype Timer<K> = Timer(key: K, due: int)

  /** The entries, and the timers the event loop will run. */
  datatype Cache<K, V> = Cache(entries: map<K, Entry<V>>, armed: map<nat, Timer<K>>, nextTimer: nat)

  const MAX_DELAY := 0x7FFF_FFFF

  /** The delay setTimeout uses: what it cannot represent becomes one millisecond. */
  function Delay(ttl: int): int {
    if 1 <= ttl <= MAX_DELAY then ttl else 1
  }

  function Disarm<K, V>(c: Cache<K, V>, key: K): Cache<K, V> {
    if key in c.entries then c.(armed := c.armed - {c.entries[key].timeout}) else c
  }

  function Set<K, V>(c: Cache<K, V>, key: K, value: V, ttl: int, now: int): Cache<K, V> {
    var d := Disarm(c, key);
    d.(entries := d.entries[key := Entry(value, now + ttl, d.nextTimer)],
       armed := d.armed[d.nextTimer := Timer(key, now + Delay(ttl))],
       nextTimer := d.nextTimer + 1)
  }

  function Delete<K, V>(c: Cache<K, V>, key: K): Cache<K, V> {
    var d := Disarm(c, key);
    d.(entries := d.entries - {key})
  }

  function Get<K, V>(c: Cache<K, V>, key: K, now: int): (Option<V>, Cache<K, V>) {
    if key !in c.entries then (None, c)
    else if c.entries[key].expiresAt <= now then (None, Delete(c, key))
    else (Some(c.entries[key].value), c)
  }

  /** The timer's callback deletes whatever the cache has under its key. */
  function Fire<K, V>(c: Cache<K, V>, t: nat): Cache<K, V>
    requires t in c.armed
  {
    c.(entries := c.entries - {c.armed[t].key}, armed := c.armed - {t})
  }

  class TimedCache<K(==), V> {
    var cache: map<K, Entry<V>>
    var ttl: int
    // the event loop
    var armed: map<nat, Timer<K>>
    var nextTimer: nat

    function State(): Cache<K, V>
      reads this
    {
      Cache(cache, armed, nextTimer)
    }

    constructor (ttl: int)
      ensures State() == Cache(map[], map[], 0) && this.ttl == ttl
    {
      this.ttl := ttl;
      cache, armed, nextTimer := map[], map[], 0;
    }

    method SetFor(key: K, value: V, ttl: int, now: int)
      modifies this
      ensures State() == Set(old(State()), key, value, ttl, now) && this.ttl == old(this.ttl)
    {
      var expiresAt := now + ttl;
      if key in cache {
        armed := armed - {cache[key].timeout};
      }
      var timeout := nextTimer;
      armed, nextTimer := armed[timeout := Timer(key, now + Delay(ttl))], nextTimer + 1;
      cache := cache[key := Entry(value, expiresAt, timeout)];
    }

    /** Without a time to live of its own, an entry gets the cache's. */
    method SetDefault(key: K, value: V, now: int)
      modifies this
      ensures State() == Set(old(State()), key, value, old(ttl), now) && ttl == old(ttl)
    {
      SetFor(key, value, ttl, now);
    }

    method GetAt(key: K, now: int) returns (value: Option<V>)
      modifies this
      ensures (value, State()) == Get(old(State()), key, now) && ttl == old(ttl)
    {
      if key !in cache {
        return None;
      }
      var entry := cache[key];
      if entry.expiresAt <= now {
        var gone := Remove(key);
        return None;
      }
      return Some(entry.value);
    }

    method HasAt(key: K, now: int) returns (present: bool)
      modifies this
      ensures State() == Get(old(State()), key, now).1 && present == Get(old(State()), key, now).0.Some?
    {
      var value := GetAt(key, now);
      return value.Some?;
    }

    method Remove(key: K) returns (existed: bool)
      modifies this
      ensures State() == Delete(old(State()), key) && existed == (key in old(cache)) && ttl == old(ttl)
    {
      if key in cache {
        armed := armed - {cache[key].timeout};
      }
      existed := key in cache;
      cache := cache - {key};
    }

    method TimerFires(t: nat)
      requires t in armed
      modifies this
      ensures State() == Fire(old(State()), t) && ttl == old(ttl)
    {
      cache := cache - {armed[t].key};
      armed := armed - {t};
    }
  }

  // ---- one live timer per entry ----

  ghost predicate EntryTimed<K, V>(c: Cache<K, V>, key: K)
    requires key in c.entries
  {
    var e := c.entries[key];
    e.timeout in c.armed && c.armed[e.timeout].key == key && e.expiresAt <= c.armed[e.timeout].due
  }

  ghost predicate TimerOwned<K, V>(c: Cache<K, V>, t: nat)
    requires t in c.armed
  {
    t < c.nextTimer && c.armed[t].key in c.entries && c.entries[c.armed[t].key].timeout == t
  }

  /** Every entry has exactly one armed timer, due no earlier than it expires, and every armed timer
      belongs to the current entry of its key. */
  ghost predicate Valid<K(!new), V>(c: Cache<K, V>) {
    && (forall key | key in c.entries :: EntryTimed(c, key))
    && (forall t | t in c.armed :: TimerOwned(c, t))
  }

  lemma SetKeepsValid<K(!new), V>(c: Cache<K, V>, key: K, value: V, ttl: int, now: int)
    requires Valid(c) && ttl <= MAX_DELAY
    ensures Valid(Set(c, key, value, ttl, now))
  {
    var d := Set(c, key, value, ttl, now);
    forall k | k in d.entries ensures EntryTimed(d, k) {
      if k != key {
        assert EntryTimed(c, k);
        if key in c.entries {
          assert EntryTimed(c, key);
        }
        assert TimerOwned(c, c.entries[k].timeout);
      }
    }
    forall t | t in d.armed ensures TimerOwned(d, t) {
      if t != c.nextTimer {
        assert TimerOwned(c, t);
      }
    }
  }

  lemma DeleteKeepsValid<K(!new), V>(c: Cache<K, V>, key: K)
    requires Valid(c)
    ensures Valid(Delete(c, key))
  {
    var d := Delete(c, key);
    forall k | k in d.entries ensures EntryTimed(d, k) {
      assert EntryTimed(c, k);
      if key in c.entries {
        assert EntryTimed(c, key);
      }
    }
    forall t | t in d.armed ensures TimerOwned(d, t) {
      assert TimerOwned(c, t);
    }
  }

  /** A timer only ever removes the entry it was made for. */
  lemma FireIsDelete<K(!new), V>(c: Cache<K, V>, t: nat)
    requires Valid(c) && t in c.armed
    ensures Fire(c, t) == Delete(c, c.armed[t].key)
    ensures c.armed[t].key in c.entries && c.entries[c.armed[t].key].expiresAt <= c.armed[t].due
  {
    assert TimerOwned(c, t);
    assert EntryTimed(c, c.armed[t].key);
  }

  // ---- the reference: a map without timers ----

  datatype Record<V> = Record(value: V, expiresAt: int)

  function RefGet<K, V>(ref: map<K, Record<V>>, key: K, now: int): Option<V> {
    if key in ref && now < ref[key].expiresAt then Some(ref[key].value) else None
  }

  datatype Request<K, V> = SetReq(key: K, value: V, ttl: int) | GetReq(key: K) | DeleteReq(key: K) | FireReq(timer: nat)

  datatype Event<K, V> = Event(at: int, request: Request<K, V>)

  /** The reference ignores timers. */
  function RefStep<K, V>(ref: map<K, Record<V>>, e: Event<K, V>): map<K, Record<V>> {
    match e.request
    case SetReq(key, value, ttl) => ref[key := Record(value, e.at + ttl)]
    case GetReq(_) => ref
    case DeleteReq(key) => ref - {key}
    case FireReq(_) => ref
  }

  function Step<K, V>(c: Cache<K, V>, e: Event<K, V>): Cache<K, V> {
    match e.request
    case SetReq(key, value, ttl) => Set(c, key, value, ttl, e.at)
    case GetReq(key) => Get(c, key, e.at).1
    case DeleteReq(key) => Delete(c, key)
    case FireReq(t) => if t in c.armed then Fire(c, t) else c
  }

  function Answer<K, V>(c: Cache<K, V>, e: Event<K, V>): Option<V> {
    if e.request.GetReq? then Get(c, e.request.key, e.at).0 else None
  }

  function RefAnswer<K, V>(ref: map<K, Record<V>>, e: Event<K, V>): Option<V> {
    if e.request.GetReq? then RefGet(ref, e.request.key, e.at) else None
  }

  /** Stored entries are the reference's; what only the reference has is past its time. */
  ghost predicate Agrees<K(!new), V>(c: Cache<K, V>, ref: map<K, Record<V>>, now: int) {
    && (forall k | k in c.entries :: k in ref && ref[k] == Record(c.entries[k].value, c.entries[k].expiresAt))
    && (forall k | k in ref && k !in c.entries :: ref[k].expiresAt <= now)
  }

  /** Time does not go back, no timer fires early, and no time to live is too long for a timer. */
  ghost predicate Proper<K, V>(c: Cache<K, V>, e: Event<K, V>, now: int) {
    && now <= e.at
    && (e.request.SetReq? ==> e.request.ttl <= MAX_DELAY)
    && (e.request.FireReq? && e.request.timer in c.armed ==> c.armed[e.request.timer].due <= e.at)
  }

  lemma StepAgrees<K(!new), V>(c: Cache<K, V>, ref: map<K, Record<V>>, e: Event<K, V>, now: int)
    requires Valid(c) && Agrees(c, ref, now) && Proper(c, e, now)
    ensures Valid(Step(c, e)) && Agrees(Step(c, e), RefStep(ref, e), e.at)
    ensures Answer(c, e) == RefAnswer(ref, e)
  {
    match e.request
    case SetReq(key, value, ttl) => SetKeepsValid(c, key, value, ttl, e.at);
    case GetReq(key) => DeleteKeepsValid(c, key);
    case DeleteReq(key) => DeleteKeepsValid(c, key);
    case FireReq(t) =>
      if t in c.armed {
        FireIsDelete(c, t);
        DeleteKeepsValid(c, c.armed[t].key);
      }
  }

  function Answers<K, V>(c: Cache<K, V>, events: seq<Event<K, V>>): seq<Option<V>>
    decreases |events|
  {
    if events == [] then [] else [Answer(c, events[0])] + Answers(Step(c, events[0]), events[1..])
  }

  function RefAnswers<K, V>(ref: map<K, Record<V>>, events: seq<Event<K, V>>): seq<Option<V>>
    decreases |events|
  {
    if events == [] then [] else [RefAnswer(ref, events[0])] + RefAnswers(RefStep(ref, events[0]), events[1..])
  }

  ghost predicate ProperTrace<K, V>(c: Cache<K, V>, events: seq<Event<K, V>>, now: int)
    decreases |events|
  {
    events == [] || (Proper(c, events[0], now) && ProperTrace(Step(c, events[0]), events[1..], events[0].at))
  }

  lemma {:induction false} TraceAgreesFrom<K(!new), V>(c: Cache<K, V>, ref: map<K, Record<V>>,
                                                          events: seq<Event<K, V>>, now: int)
    requires Valid(c) && Agrees(c, ref, now) && ProperTrace(c, events, now)
    ensures Answers(c, events) == RefAnswers(ref, events)
    decreases |events|
  {
    if events != [] {
      StepAgrees(c, ref, events[0], now);
      TraceAgreesFrom(Step(c, events[0]), RefStep(ref, events[0]), events[1..], events[0].at);
    }
  }

  /** Wherever the due timers fire in the trace, every read gives what the timer-free map gives. */
  lemma TraceAgrees<K(!new), V>(events: seq<Event<K, V>>, start: int)
    requires ProperTrace(Cache(map[], map[], 0), events, start)
    ensures Answers(Cache(map[], map[], 0), events) == RefAnswers(map[], events)
  {
    TraceAgreesFrom(Cache(map[], map[], 0), map[], events, start);
  }

  /** A time to live beyond the timer's range always breaks this: the timer may fire a millisecond
      later, and the entry is gone long before it expires. */
  lemma LongTtlForgets<K(!new), V>(key: K, value: V, ttl: int, now: int)
    requires ttl > MAX_DELAY
    ensures var c := Set(Cache(map[], map[], 0), key, value, ttl, now);
            && 0 in c.armed && c.armed[0].due == now + 1
            && Get(Fire(c, 0), key, now + 1).0 == None
            && RefGet(RefStep(map[], Event(now, SetReq(key, value, ttl))), key, now + 1) == Some(value)
  {
  }
}

/**
 The Redis limiters: one counter per key that expires a fixed time after its first increment.
 INCR and the EXPIRE that follows the first one are taken as a single step.
 */
module RedisRateLimiter {
  import opened Basics
  import opened SlidingWindow

  /** A key's counter. Redis drops it once the clock reaches `expiresAt`. */
  datatype Counter = Counter(count: nat, expiresAt: Time)

  /** The counter left behind by a series of increments, in order. */
  function CounterAfter(hits: seq<Time>, width: int): Option<Counter> {
    if hits == [] then None
    else
      var now := hits[|hits| - 1];
      match CounterAfter(hits[..|hits| - 1], width)
      case Some(c) => Some(if now < c.expiresAt then Counter(c.count + 1, c.expiresAt) else Counter(1, now + width))
      case None => Some(Counter(1, now + width))
  }

  /** The increments that stayed within the limit, those of earlier lifetimes apart from the current one's. */
  datatype Split = Split(earlier: seq<Time>, current: seq<Time>)

  function Allowed(hits: seq<Time>, width: int, limit: int): Split {
    if hits == [] then Split([], [])
    else
      var now := hits[|hits| - 1];
      var before := Allowed(hits[..|hits| - 1], width, limit);
      var c := CounterAfter(hits, width).value;
      var base := if c.count == 1 then Split(before.earlier + before.current, []) else before;
      if c.count <= limit then Split(base.earlier, base.current + [now]) else base
  }

  function AllowedHits(hits: seq<Time>, width: int, limit: int): seq<Time> {
    Allowed(hits, width, limit).earlier + Allowed(hits, width, limit).current
  }

  ghost predicate Ordered(hits: seq<Time>) {
    forall i, j :: 0 <= i <= j < |hits| ==> hits[i] <= hits[j]
  }

  /** One lifetime: it holds at most the limit, the first of them at its very start. */
  lemma {:induction false} LifetimeBound(hits: seq<Time>, width: int, limit: int)
    requires hits != [] && Ordered(hits)
    ensures var c, a := CounterAfter(hits, width).value, Allowed(hits, width, limit);
            && c.count >= 1
            && |a.current| == Min(c.count, Max(limit, 0))
            && (limit >= 1 ==> a.current[0] == c.expiresAt - width)
            && (forall i :: 0 <= i < |a.current| ==> c.expiresAt - width <= a.current[i])
            && (forall i :: 0 <= i < |a.earlier| ==> a.earlier[i] <= c.expiresAt - width)
            && c.expiresAt - width <= hits[|hits| - 1]
            && AtMost(a.current, hits[|hits| - 1])
  {
    var init := hits[..|hits| - 1];
    if init != [] {
      LifetimeBound(init, width, limit);
      assert init[|init| - 1] <= hits[|hits| - 1];
    }
  }

  lemma {:induction false} AfterConcat(a: seq<Time>, b: seq<Time>, cutoff: Time)
    ensures After(a + b, cutoff) == After(a, cutoff) + After(b, cutoff)
  {
    if b == [] {
      assert a + b == a;
    } else {
      var init, last := b[..|b| - 1], b[|b| - 1];
      AfterConcat(a, init, cutoff);
      AfterOneMore(a + b, a + init, last, cutoff);
      AfterOneMore(b, init, last, cutoff);
    }
  }

  lemma AfterOneMore(log: seq<Time>, init: seq<Time>, last: Time, cutoff: Time)
    requires |log| == |init| + 1 && log[..|init|] == init && log[|init|] == last
    ensures After(log, cutoff) == After(init, cutoff) + if last > cutoff then [last] else []
  {
  }

  /** Dropping a first entry that the cutoff excludes anyway. */
  lemma AfterFirst(log: seq<Time>, cutoff: Time)
    requires log != [] && log[0] <= cutoff
    ensures |After(log, cutoff)| <= |log| - 1
  {
    assert log == [log[0]] + log[1..];
    AfterConcat([log[0]], log[1..], cutoff);
    AfterShrinks(log[1..], cutoff, cutoff);
  }

  /** Only the lifetime just before the current one can reach into a window that touches the current one. */
  lemma {:induction false} EarlierLifetimes(hits: seq<Time>, width: int, limit: int, cutoff: Time)
    requires hits != [] && Ordered(hits)
    requires cutoff >= CounterAfter(hits, width).value.expiresAt - 2 * width
    ensures |After(Allowed(hits, width, limit).earlier, cutoff)| <= Max(limit - 1, 0)
  {
    var init := hits[..|hits| - 1];
    if init != [] {
      var c, before := CounterAfter(init, width).value, Allowed(init, width, limit);
      LifetimeBound(init, width, limit);
      if hits[|hits| - 1] < c.expiresAt {
        EarlierLifetimes(init, width, limit, cutoff);
      } else {
        AfterConcat(before.earlier, before.current, cutoff);
        AfterEmpty(before.earlier, cutoff);
        if before.current != [] {
          AfterFirst(before.current, cutoff);
        }
      }
    }
  }

  lemma WindowOverTheLatest(hits: seq<Time>, width: int, limit: int, end: Time)
    requires hits != [] && Ordered(hits) && hits[|hits| - 1] <= end
    ensures |Within(AllowedHits(hits, width, limit), width, end)| <= Max(2 * limit - 1, 0)
  {
    var a, c := Allowed(hits, width, limit), CounterAfter(hits, width).value;
    LifetimeBound(hits, width, limit);
    EarlierLifetimes(hits, width, limit, end - width);
    AfterConcat(a.earlier, a.current, end - width);
    AfterShrinks(a.current, end - width, end - width);
    WithinIsAfter(a.earlier + a.current, width, end);
  }

  lemma WindowBeforeTheLatest(hits: seq<Time>, width: int, limit: int, end: Time)
    requires hits != [] && Ordered(hits) && end < hits[|hits| - 1]
    ensures Within(AllowedHits(hits, width, limit), width, end) == Within(AllowedHits(hits[..|hits| - 1], width, limit), width, end)
  {
    var before, last := AllowedHits(hits[..|hits| - 1], width, limit), hits[|hits| - 1];
    if AllowedHits(hits, width, limit) != before {
      assert AllowedHits(hits, width, limit) == before + [last];
      WithinAppend(before, last, width, end);
    }
  }

  /**
   The fixed window's promise: no interval (end - width, end] holds more than one hit short of
   twice the limit, however the hits fall.
   */
  lemma {:induction false} FixedWindowBound(hits: seq<Time>, width: int, limit: int, end: Time)
    requires Ordered(hits)
    ensures |Within(AllowedHits(hits, width, limit), width, end)| <= Max(2 * limit - 1, 0)
  {
    if hits != [] {
      if hits[|hits| - 1] <= end {
        WindowOverTheLatest(hits, width, limit, end);
      } else {
        FixedWindowBound(hits[..|hits| - 1], width, limit, end);
        WindowBeforeTheLatest(hits, width, limit, end);
      }
    }
  }

  /** Within one lifetime the bound is the limit itself. */
  lemma OneLifetimeBound(hits: seq<Time>, width: int, limit: int)
    requires Ordered(hits)
    ensures |Allowed(hits, width, limit).current| <= Max(limit, 0)
  {
    if hits != [] {
      LifetimeBound(hits, width, limit);
    }
  }

  // ----- the bound is reached -----

  function Repeat(at: Time, n: nat): (r: seq<Time>)
    ensures |r| == n
  {
    if n == 0 then [] else Repeat(at, n - 1) + [at]
  }

  /** One hit at the start of a lifetime, the rest at its last moment, then a full lifetime at once. */
  function Burst(width: int, limit: nat): seq<Time>
    requires limit >= 1
  {
    [0] + Repeat(width - 1, limit - 1) + Repeat(width, limit)
  }

  lemma NextHit(hits: seq<Time>, now: Time, width: int, limit: int)
    requires hits != []
    ensures var c, a := CounterAfter(hits, width).value, Allowed(hits, width, limit);
            var next := if now < c.expiresAt then Counter(c.count + 1, c.expiresAt) else Counter(1, now + width);
            var base := if next.count == 1 then Split(a.earlier + a.current, []) else a;
            && CounterAfter(hits + [now], width) == Some(next)
            && Allowed(hits + [now], width, limit)
            == if next.count <= limit then Split(base.earlier, base.current + [now]) else base
  {
    assert (hits + [now])[..|hits|] == hits;
  }

  /** A hit inside the lifetime that still has room is allowed and stays in the current lifetime. */
  lemma HitWithRoom(hits: seq<Time>, now: Time, after: seq<Time>, width: int, limit: int,
                    count: nat, expiresAt: Time, earlier: seq<Time>, current: seq<Time>)
    requires hits != [] && after == hits + [now] && CounterAfter(hits, width) == Some(Counter(count, expiresAt))
    requires Allowed(hits, width, limit) == Split(earlier, current)
    requires now < expiresAt && 1 <= count < limit
    ensures CounterAfter(after, width) == Some(Counter(count + 1, expiresAt))
    ensures Allowed(after, width, limit) == Split(earlier, current + [now])
  {
    NextHit(hits, now, width, limit);
  }

  lemma {:induction false} BurstFirstHalf(width: int, limit: nat, n: nat, hits: seq<Time>)
    requires width >= 2 && n < limit && hits == [0] + Repeat(width - 1, n)
    ensures CounterAfter(hits, width) == Some(Counter(n + 1, width))
    ensures Allowed(hits, width, limit) == Split([], hits)
  {
    if n == 0 {
      assert hits == [0] && [0][..0] == [];
    } else {
      var before := [0] + Repeat(width - 1, n - 1);
      BurstFirstHalf(width, limit, n - 1, before);
      assert hits == before + [width - 1];
      HitWithRoom(before, width - 1, hits, width, limit, n, width, [], before);
    }
  }

  lemma BurstTurnsOver(first: seq<Time>, width: int, limit: nat)
    requires first != [] && width >= 1 && 1 <= limit
    requires CounterAfter(first, width).value.expiresAt == width
    requires Allowed(first, width, limit) == Split([], first)
    ensures CounterAfter(first + [width], width) == Some(Counter(1, 2 * width))
    ensures Allowed(first + [width], width, limit) == Split(first, [width])
  {
    NextHit(first, width, width, limit);
    assert [] + first == first && [] + [width] == [width];
  }

  lemma {:induction false} BurstSecondHalf(first: seq<Time>, width: int, limit: nat, n: nat, hits: seq<Time>)
    requires first != [] && width >= 1 && 1 <= n <= limit && hits == first + Repeat(width, n)
    requires CounterAfter(first, width).value.expiresAt == width
    requires Allowed(first, width, limit) == Split([], first)
    ensures CounterAfter(hits, width) == Some(Counter(n, 2 * width))
    ensures Allowed(hits, width, limit) == Split(first, Repeat(width, n))
  {
    if n == 1 {
      BurstTurnsOver(first, width, limit);
      assert Repeat(width, 1) == [width];
    } else {
      var before := first + Repeat(width, n - 1);
      BurstSecondHalf(first, width, limit, n - 1, before);
      assert hits == before + [width];
      HitWithRoom(before, width, hits, width, limit, n - 1, 2 * width, first, Repeat(width, n - 1));
    }
  }

  lemma {:induction false} RepeatWithin(at: Time, n: nat, width: int, end: Time)
    requires end - width < at <= end
    ensures Within(Repeat(at, n), width, end) == Repeat(at, n)
  {
    if n > 0 {
      RepeatWithin(at, n - 1, width, end);
      WithinAppend(Repeat(at, n - 1), at, width, end);
    }
  }

  lemma BurstIsAllowed(width: int, limit: nat)
    requires width >= 2 && limit >= 1
    ensures AllowedHits(Burst(width, limit), width, limit) == Burst(width, limit)
  {
    var first := [0] + Repeat(width - 1, limit - 1);
    BurstFirstHalf(width, limit, limit - 1, first);
    BurstSecondHalf(first, width, limit, limit, Burst(width, limit));
  }

  lemma WithinThree(a: seq<Time>, b: seq<Time>, c: seq<Time>, width: int, end: Time)
    ensures |Within(a + b + c, width, end)| == |Within(a, width, end)| + |Within(b, width, end)| + |Within(c, width, end)|
  {
    WithinSplit(a + b, c, width, end);
    WithinSplit(a, b, width, end);
  }

  /** The three parts of a burst: one hit outside the window that ends with it, all others inside. */
  lemma BurstParts(width: int, limit: nat) returns (one: seq<Time>, early: seq<Time>, late: seq<Time>)
    requires width >= 2 && limit >= 1
    ensures Burst(width, limit) == one + early + late
    ensures |Within(one, width, width)| == 0
    ensures |Within(early, width, width)| == limit - 1 && |Within(late, width, width)| == limit
  {
    one, early, late := [0], Repeat(width - 1, limit - 1), Repeat(width, limit);
    RepeatWithin(width - 1, limit - 1, width, width);
    RepeatWithin(width, limit, width, width);
  }

  lemma BurstFitsOneWindow(width: int, limit: nat)
    requires width >= 2 && limit >= 1
    ensures |Within(Burst(width, limit), width, width)| == 2 * limit - 1
  {
    var one, early, late := BurstParts(width, limit);
    WithinThree(one, early, late, width, width);
  }

  /** The bound cannot be lowered. */
  lemma FixedWindowBoundIsReached(width: int, limit: nat)
    requires width >= 2 && limit >= 1
    ensures |Within(AllowedHits(Burst(width, limit), width, limit), width, width)| == 2 * limit - 1
  {
    BurstIsAllowed(width, limit);
    BurstFitsOneWindow(width, limit);
  }

  // ----- the classes -----

  function HitsOn(hits: map<string, seq<Time>>, key: string): seq<Time> {
    if key in hits then hits[key] else []
  }

  function CounterOn(counters: map<string, Counter>, key: string): Option<Counter> {
    if key in counters then Some(counters[key]) else None
  }

  /** Every counter is the one its increments leave behind. */
  ghost predicate Counted(counters: map<string, Counter>, hits: map<string, seq<Time>>, clock: Time, width: int) {
    forall k {:trigger HitsOn(hits, k)} :: CountedKey(CounterOn(counters, k), HitsOn(hits, k), clock, width)
  }

  ghost predicate CountedKey(counter: Option<Counter>, hits: seq<Time>, clock: Time, width: int) {
    Ordered(hits) && AtMost(hits, clock) && counter == CounterAfter(hits, width)
  }

  lemma OrderedAppend(hits: seq<Time>, clock: Time, now: Time)
    requires Ordered(hits) && AtMost(hits, clock) && clock <= now
    ensures Ordered(hits + [now]) && AtMost(hits + [now], now)
  {
  }

  lemma IncrementIsCounted(counters: map<string, Counter>, hits: map<string, seq<Time>>, clock: Time, width: int,
                           key: string, now: Time, counter: Counter)
    requires Counted(counters, hits, clock, width) && clock <= now
    requires Some(counter) == CounterAfter(HitsOn(hits, key) + [now], width)
    ensures Counted(counters[key := counter], hits[key := HitsOn(hits, key) + [now]], now, width)
  {
    var counters', hits' := counters[key := counter], hits[key := HitsOn(hits, key) + [now]];
    forall k
      ensures CountedKey(CounterOn(counters', k), HitsOn(hits', k), now, width)
    {
      var before := HitsOn(hits, k);
      assert CountedKey(CounterOn(counters, k), before, clock, width);
      if k == key {
        OrderedAppend(before, clock, now);
      } else {
        assert CounterOn(counters', k) == CounterOn(counters, k) && HitsOn(hits', k) == before;
      }
    }
  }

  lemma DeletionIsCounted(counters: map<string, Counter>, hits: map<string, seq<Time>>, clock: Time, width: int, key: string)
    requires Counted(counters, hits, clock, width)
    ensures Counted(counters - {key}, hits - {key}, clock, width)
  {
    forall k
      ensures CountedKey(CounterOn(counters - {key}, k), HitsOn(hits - {key}, k), clock, width)
    {
      assert CountedKey(CounterOn(counters, k), HitsOn(hits, k), clock, width);
    }
  }

  /** The counters Redis holds for one limiter. */
  class CounterStore {
    const windowSeconds: int
    var counters: map<string, Counter>
    // Every increment since the key was last deleted.
    ghost var hits: map<string, seq<Time>>
    ghost var clock: Time

    function Width(): int {
      Seconds(windowSeconds)
    }

    ghost predicate Valid()
      reads this
    {
      Counted(counters, hits, clock, Width())
    }

    constructor (windowSeconds: int, now: Time)
      ensures Valid() && hits == map[] && clock == now && this.windowSeconds == windowSeconds
    {
      this.windowSeconds := windowSeconds;
      counters, hits, clock := map[], map[], now;
    }

    /** INCR, and EXPIRE when the count comes back as one. */
    method Increment(key: string, now: Time) returns (count: nat)
      requires Valid() && clock <= now
      modifies this
      ensures Valid() && clock == now
      ensures hits == old(hits)[key := HitsOn(old(hits), key) + [now]]
      ensures CounterAfter(HitsOn(hits, key), Width()).Some?
      ensures count == CounterAfter(HitsOn(hits, key), Width()).value.count
    {
      ghost var before := HitsOn(hits, key);
      assert CountedKey(CounterOn(counters, key), before, clock, Width());
      assert (before + [now])[..|before|] == before;
      var next := if key in counters && now < counters[key].expiresAt
                  then counters[key].(count := counters[key].count + 1)
                  else Counter(1, now + Width());
      IncrementIsCounted(counters, hits, clock, Width(), key, now, next);
      counters, hits, clock := counters[key := next], hits[key := before + [now]], now;
      count := next.count;
    }

    /** GET: the count of a live counter. */
    method Count(key: string, now: Time) returns (count: Option<nat>)
      requires Valid() && clock <= now
      ensures count == match CounterAfter(HitsOn(hits, key), Width())
                       case Some(c) => if now < c.expiresAt then Some(c.count) else None
                       case None => None
    {
      assert CountedKey(CounterOn(counters, key), HitsOn(hits, key), clock, Width());
      count := if key in counters && now < counters[key].expiresAt then Some(counters[key].count) else None;
    }

    /** TTL: the rest of a live counter's lifetime in whole seconds; a negative number for a missing one. */
    method Ttl(key: string, now: Time, rounded: int -> int) returns (ttl: int)
      requires Valid() && clock <= now
      ensures ttl == match CounterAfter(HitsOn(hits, key), Width())
                     case Some(c) => if now < c.expiresAt then rounded(c.expiresAt - now) else -2
                     case None => -2
    {
      assert CountedKey(CounterOn(counters, key), HitsOn(hits, key), clock, Width());
      ttl := if key in counters && now < counters[key].expiresAt then rounded(counters[key].expiresAt - now) else -2;
    }

    method Delete(key: string)
      requires Valid()
      modifies this
      ensures Valid() && clock == old(clock)
      ensures hits == old(hits) - {key}
    {
      DeletionIsCounted(counters, hits, clock, Width(), key);
      counters, hits := counters - {key}, hits - {key};
    }
  }

  /** Whole seconds, never more than half a second off. */
  ghost predicate Rounds(rounded: int -> int) {
    forall d :: AboutEqual(Seconds(rounded(d)), d)
  }

  predicate AboutEqual(a: int, b: int) {
    -Seconds(1) <= 2 * (a - b) <= Seconds(1)
  }

  /**
   `RedisRateLimiter.check`: the hit joins the allowed ones exactly when it is allowed. The reset
   time is the end of the key's lifetime to within half a second and the time the check took,
   unless less than about half a second of it is left: then it is a whole window away.
   */
  method CheckLimit(store: CounterStore, limit: int, key: string, now: Time, hitAt: Time, ttlAt: Time, rounded: int -> int)
    returns (allowed: bool, remaining: int, resetAt: Time)
    requires store.Valid() && store.clock <= hitAt <= ttlAt && Rounds(rounded)
    modifies store
    ensures store.Valid() && store.clock == hitAt
    ensures store.hits == old(store.hits)[key := HitsOn(old(store.hits), key) + [hitAt]]
    ensures AllowedHits(HitsOn(store.hits, key), store.Width(), limit)
         == AllowedHits(HitsOn(old(store.hits), key), store.Width(), limit) + (if allowed then [hitAt] else [])
    ensures remaining == if allowed then limit - CounterAfter(HitsOn(store.hits, key), store.Width()).value.count else 0
    ensures var end := CounterAfter(HitsOn(store.hits, key), store.Width()).value.expiresAt;
            if ttlAt < end && rounded(end - ttlAt) > 0 then AboutEqual(resetAt + (ttlAt - now), end) && resetAt > now
            else end - ttlAt <= Seconds(1) / 2 && resetAt == now + store.Width()
  {
    ghost var before := HitsOn(store.hits, key);
    var count := store.Increment(key, hitAt);
    assert (before + [hitAt])[..|before|] == before;
    ghost var end := CounterAfter(HitsOn(store.hits, key), store.Width()).value.expiresAt;
    assert AboutEqual(Seconds(rounded(end - ttlAt)), end - ttlAt);
    var ttl := store.Ttl(key, ttlAt, rounded);
    resetAt := now + Seconds(if ttl > 0 then ttl else store.windowSeconds);
    allowed := count <= limit;
    remaining := if allowed then limit - count else 0;
  }

  /** `RedisLoginAttemptLimiter.record_failed_login`. */
  method RecordFailure(store: CounterStore, maxAttempts: int, key: string, now: Time) returns (locked: bool)
    requires store.Valid() && store.clock <= now
    modifies store
    ensures store.Valid() && store.clock == now
    ensures store.hits == old(store.hits)[key := HitsOn(old(store.hits), key) + [now]]
    ensures locked == (CounterAfter(HitsOn(store.hits, key), store.Width()).value.count >= maxAttempts)
    ensures store.Width() > 0 ==> locked == LockedAt(HitsOn(store.hits, key), store.Width(), maxAttempts, now)
  {
    var count := store.Increment(key, now);
    locked := count >= maxAttempts;
    if store.Width() > 0 {
      assert CountedKey(CounterOn(store.counters, key), HitsOn(store.hits, key), now, store.Width());
      CountsItsLifetime(HitsOn(store.hits, key), store.Width());
    }
  }

  /** `RedisLoginAttemptLimiter.is_locked`: a missing key is not locked, whatever the maximum. */
  method IsLocked(store: CounterStore, maxAttempts: int, key: string, now: Time) returns (locked: bool)
    requires store.Valid() && store.clock <= now
    ensures locked == LockedAt(HitsOn(store.hits, key), store.Width(), maxAttempts, now)
  {
    var count := store.Count(key, now);
    locked := count.Some? && count.value >= maxAttempts;
  }

  predicate LockedAt(hits: seq<Time>, width: int, maxAttempts: int, now: Time) {
    match CounterAfter(hits, width)
    case Some(c) => now < c.expiresAt && c.count >= maxAttempts
    case None => false
  }

  /** The counter of a lifetime in progress: how many hits there were since it began, with one of them. */
  lemma {:induction false} CountsItsLifetime(hits: seq<Time>, width: int)
    requires hits != [] && Ordered(hits) && width > 0
    ensures var c := CounterAfter(hits, width).value;
            && c.expiresAt - width in hits
            && c.count == |After(hits, c.expiresAt - width - 1)|
            && c.expiresAt - width <= hits[|hits| - 1] < c.expiresAt
  {
    var n := |hits| - 1;
    var init := hits[..n];
    assert hits == init + [hits[n]];
    if init != [] {
      CountsItsLifetime(init, width);
      var c := CounterAfter(init, width).value;
      if hits[n] >= c.expiresAt {
        assert AtMost(init, hits[n] - 1);
        AfterEmpty(init, hits[n] - 1);
      }
    }
  }

  /**
   Locked exactly when enough failures fell into the lifetime in progress: since the moment it
   began, which is that of a failure and less than a window ago.
   */
  lemma LockedByEnoughFailures(hits: seq<Time>, width: int, maxAttempts: int, now: Time)
    requires Ordered(hits) && width > 0
    ensures hits == [] ==> !LockedAt(hits, width, maxAttempts, now)
    ensures hits != [] ==>
      var start := CounterAfter(hits, width).value.expiresAt - width;
      LockedAt(hits, width, maxAttempts, now) <==> now < start + width && |After(hits, start - 1)| >= maxAttempts
  {
    if hits != [] {
      CountsItsLifetime(hits, width);
    }
  }

  /**
   A lock that sets in ends exactly one window after the first failure of its lifetime, and
   failures recorded meanwhile do not move that moment.
   */
  lemma LockEndsWithItsLifetime(hits: seq<Time>, more: seq<Time>, width: int, maxAttempts: int, now: Time, later: Time)
    requires LockedAt(hits, width, maxAttempts, now) && now <= later
    requires forall i :: 0 <= i < |more| ==> now <= more[i] <= later && more[i] < CounterAfter(hits, width).value.expiresAt
    ensures LockedAt(hits + more, width, maxAttempts, later) <==> later < CounterAfter(hits, width).value.expiresAt
  {
    MoreHits(hits, more, width);
  }

  lemma {:induction false} MoreHits(hits: seq<Time>, more: seq<Time>, width: int)
    requires CounterAfter(hits, width).Some?
    requires forall i :: 0 <= i < |more| ==> more[i] < CounterAfter(hits, width).value.expiresAt
    ensures var c := CounterAfter(hits, width).value;
            CounterAfter(hits + more, width) == Some(Counter(c.count + |more|, c.expiresAt))
  {
    if more == [] {
      assert hits + more == hits;
    } else {
      MoreHits(hits, more[..|more| - 1], width);
      assert (hits + more)[..|hits + more| - 1] == hits + more[..|more| - 1];
    }
  }
}

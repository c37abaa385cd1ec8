/** The in-memory limiters: dictionaries of timestamp lists, pruned in place. */
module RateLimiter {
  import opened Basics
  import opened SlidingWindow

  /** Python's order on lists of datetimes. */
  predicate ListLeq(a: seq<Time>, b: seq<Time>) {
    a == [] || (b != [] && (a[0] < b[0] || (a[0] == b[0] && ListLeq(a[1..], b[1..]))))
  }

  lemma {:induction false} ListLeqTotal(a: seq<Time>, b: seq<Time>)
    ensures ListLeq(a, b) || ListLeq(b, a)
  {
    if a != [] && b != [] {
      ListLeqTotal(a[1..], b[1..]);
    }
  }

  lemma {:induction false} ListLeqTransitive(a: seq<Time>, b: seq<Time>, c: seq<Time>)
    requires ListLeq(a, b) && ListLeq(b, c)
    ensures ListLeq(a, c)
  {
    if a != [] && a[0] == b[0] == c[0] {
      ListLeqTransitive(a[1..], b[1..], c[1..]);
    }
  }

  /** The lists agree up to here, and there the first one ends or has the smaller entry. */
  ghost predicate DecidedAt(a: seq<Time>, b: seq<Time>, n: nat) {
    n <= |a| && n <= |b| && a[..n] == b[..n] && (n == |a| || (n < |b| && a[n] < b[n]))
  }

  lemma FirstsAgree(a: seq<Time>, b: seq<Time>, n: nat)
    requires DecidedAt(a, b, n)
    ensures n > 0 ==> a[0] == b[0]
  {
    if n > 0 {
      assert a[0] == a[..n][0] && b[0] == b[..n][0];
    }
  }

  /** The order is the lexicographic one. */
  lemma {:induction false} ListLeqIsLexicographic(a: seq<Time>, b: seq<Time>)
    ensures ListLeq(a, b) <==> exists n :: DecidedAt(a, b, n)
  {
    if a == [] {
      assert DecidedAt(a, b, 0);
    } else if b != [] && a[0] == b[0] {
      ListLeqIsLexicographic(a[1..], b[1..]);
      if n: nat :| DecidedAt(a[1..], b[1..], n) {
        assert a[..n + 1] == [a[0]] + a[1..][..n] && b[..n + 1] == [b[0]] + b[1..][..n];
        assert DecidedAt(a, b, n + 1);
      }
      if n: nat :| DecidedAt(a, b, n) {
        assert n > 0;
        assert a[1..][..n - 1] == a[..n][1..] && b[1..][..n - 1] == b[..n][1..];
        assert DecidedAt(a[1..], b[1..], n - 1);
      }
    } else if b != [] {
      assert a[0] < b[0] ==> DecidedAt(a, b, 0);
      if n: nat :| DecidedAt(a, b, n) {
        FirstsAgree(a, b, n);
      }
    } else {
      assert forall n: nat :: !DecidedAt(a, b, n);
    }
  }

  /** What goes for lack of room is the key whose first remembered request is the older one. */
  lemma EvictsTheOldest(entries: map<string, seq<Time>>, kept: map<string, seq<Time>>, evicted: set<string>,
                        cutoff: Time, maxKeys: int, gone: string, stays: string)
    requires Swept(entries, kept, evicted, cutoff, maxKeys) && gone in evicted && stays in kept
    ensures entries[gone] != [] && entries[stays] != [] && entries[gone][0] <= entries[stays][0]
  {
  }

  /** Holds nothing, or nothing recent enough to matter. */
  predicate Stale(entry: seq<Time>, cutoff: Time) {
    forall i :: 0 <= i < |entry| ==> entry[i] < cutoff
  }

  /** A key whose list sorts first. */
  method FirstInOrder(entries: map<string, seq<Time>>) returns (first: string)
    requires |entries| > 0
    ensures first in entries
    ensures forall k :: k in entries ==> ListLeq(entries[first], entries[k])
  {
    var rest := entries.Keys;
    first :| first in rest;
    rest := rest - {first};
    ListLeqTotal(entries[first], entries[first]);
    while rest != {}
      invariant first in entries && rest <= entries.Keys
      invariant forall k :: k in entries && k !in rest ==> ListLeq(entries[first], entries[k])
      decreases |rest|
    {
      var k :| k in rest;
      ListLeqTotal(entries[first], entries[k]);
      if !ListLeq(entries[first], entries[k]) {
        forall other | other in entries && other !in rest
          ensures ListLeq(entries[k], entries[other])
        {
          ListLeqTransitive(entries[k], entries[first], entries[other]);
        }
        first := k;
        ListLeqTotal(entries[k], entries[k]);
      }
      rest := rest - {k};
    }
  }

  function Fresh(entries: map<string, seq<Time>>, cutoff: Time): map<string, seq<Time>> {
    map k | k in entries && !Stale(entries[k], cutoff) :: entries[k]
  }

  /** A split of the entries into kept and evicted, in which everything evicted sorts before everything kept. */
  ghost predicate OldestFirst(entries: map<string, seq<Time>>, kept: map<string, seq<Time>>, evicted: set<string>) {
    && kept.Keys !! evicted && kept.Keys + evicted == entries.Keys
    && (forall k :: k in kept ==> kept[k] == entries[k])
    && (forall gone, stays :: gone in evicted && stays in kept ==> ListLeq(entries[gone], entries[stays]))
  }

  lemma EvictingKeepsOrder(entries: map<string, seq<Time>>, kept: map<string, seq<Time>>, evicted: set<string>, first: string)
    requires OldestFirst(entries, kept, evicted)
    requires first in kept && forall k :: k in kept ==> ListLeq(kept[first], kept[k])
    ensures OldestFirst(entries, kept - {first}, evicted + {first})
    ensures |kept - {first}| == |kept| - 1
  {
    var rest := kept - {first};
    assert rest.Keys == kept.Keys - {first};
  }

  predicate SeenSince(entry: seq<Time>, cutoff: Time) {
    exists i :: 0 <= i < |entry| && entry[i] >= cutoff
  }

  /** What a cleanup leaves: the fresh keys, less exactly as many of the oldest as exceed the limit. */
  ghost predicate Swept(entries: map<string, seq<Time>>, kept: map<string, seq<Time>>, evicted: set<string>,
                        cutoff: Time, maxKeys: int) {
    && kept.Keys !! evicted && kept.Keys <= entries.Keys && evicted <= entries.Keys
    && (forall k :: k in entries ==> ((k in kept || k in evicted) <==> SeenSince(entries[k], cutoff)))
    && (forall k :: k in kept ==> kept[k] == entries[k])
    && (forall gone, stays :: gone in evicted && stays in kept ==> ListLeq(entries[gone], entries[stays]))
    && |kept| <= Max(maxKeys, 0) && (evicted != {} ==> |kept| == Max(maxKeys, 0))
  }

  method EvictFirst(ghost entries: map<string, seq<Time>>, kept: map<string, seq<Time>>, evicted: set<string>)
    returns (kept': map<string, seq<Time>>, evicted': set<string>)
    requires OldestFirst(entries, kept, evicted) && |kept| > 0
    ensures OldestFirst(entries, kept', evicted') && |kept'| == |kept| - 1
  {
    var first := FirstInOrder(kept);
    EvictingKeepsOrder(entries, kept, evicted, first);
    kept', evicted' := kept - {first}, evicted + {first};
  }

  lemma NothingEvictedYet(entries: map<string, seq<Time>>)
    ensures OldestFirst(entries, entries, {})
  {
  }

  lemma OldestFirstIsSwept(entries: map<string, seq<Time>>, kept: map<string, seq<Time>>, evicted: set<string>,
                           cutoff: Time, maxKeys: int)
    requires OldestFirst(Fresh(entries, cutoff), kept, evicted)
    requires |kept| <= Max(maxKeys, 0) && (evicted != {} ==> |kept| == Max(maxKeys, 0))
    ensures Swept(entries, kept, evicted, cutoff, maxKeys)
  {
    var live := Fresh(entries, cutoff);
    assert forall k :: k in live <==> k in kept.Keys + evicted;
  }

  ghost function LiveKeys(entries: map<string, seq<Time>>, cutoff: Time): set<string> {
    set k | k in entries && SeenSince(entries[k], cutoff)
  }

  /** More live keys than fit. */
  ghost predicate Crowded(entries: map<string, seq<Time>>, cutoff: Time, maxKeys: int) {
    |LiveKeys(entries, cutoff)| > Max(maxKeys, 0)
  }

  /** Live keys are evicted exactly when more of them are left than the capacity allows. */
  lemma EvictionIsForced(entries: map<string, seq<Time>>, kept: map<string, seq<Time>>, evicted: set<string>,
                         cutoff: Time, maxKeys: int)
    requires Swept(entries, kept, evicted, cutoff, maxKeys)
    ensures evicted != {} <==> Crowded(entries, cutoff, maxKeys)
  {
    assert LiveKeys(entries, cutoff) == kept.Keys + evicted;
  }

  /**
   The periodic cleanup. Stale keys go, and if more than `maxKeys` are left the ones whose lists
   sort first go too, exactly as many as it takes.
   */
  method Sweep(entries: map<string, seq<Time>>, cutoff: Time, maxKeys: int)
    returns (kept: map<string, seq<Time>>, evicted: set<string>)
    ensures Swept(entries, kept, evicted, cutoff, maxKeys)
    ensures evicted != {} <==> Crowded(entries, cutoff, maxKeys)
  {
    kept, evicted := EvictDown(Fresh(entries, cutoff), maxKeys);
    OldestFirstIsSwept(entries, kept, evicted, cutoff, maxKeys);
    EvictionIsForced(entries, kept, evicted, cutoff, maxKeys);
  }

  method EvictDown(live: map<string, seq<Time>>, maxKeys: int) returns (kept: map<string, seq<Time>>, evicted: set<string>)
    ensures OldestFirst(live, kept, evicted)
    ensures |kept| <= Max(maxKeys, 0) && (evicted != {} ==> |kept| == Max(maxKeys, 0))
  {
    kept, evicted := live, {};
    NothingEvictedYet(live);
    while |kept| > maxKeys && |kept| > 0
      invariant OldestFirst(live, kept, evicted)
      invariant evicted == {} || |kept| >= Max(maxKeys, 0)
      decreases |kept|
    {
      kept, evicted := EvictFirst(live, kept, evicted);
    }
  }

  /** `setdefault(key, [])`. */
  function Entry(entries: map<string, seq<Time>>, key: string): seq<Time> {
    if key in entries then entries[key] else []
  }

  /** A pruned list and a log that agree on every cutoff a later check can use. */
  ghost predicate Agree(entry: seq<Time>, log: seq<Time>, cutoff: Time) {
    forall c :: c >= cutoff ==> After(entry, c) == After(log, c)
  }

  lemma PruneAgrees(entry: seq<Time>, log: seq<Time>, cutoff: Time, now: Time)
    requires Agree(entry, log, cutoff) && cutoff <= now
    ensures Agree(After(entry, now), log, now)
    ensures After(entry, now) == After(log, now)
  {
    forall c | c >= now
      ensures After(After(entry, now), c) == After(log, c)
    {
      AfterAfter(entry, now, c);
    }
  }

  lemma AppendAgrees(entry: seq<Time>, log: seq<Time>, at: Time, cutoff: Time)
    requires Agree(entry, log, cutoff)
    ensures Agree(entry + [at], log + [at], cutoff)
  {
    forall c | c >= cutoff
      ensures After(entry + [at], c) == After(log + [at], c)
    {
      AfterAppend(entry, at, c);
      AfterAppend(log, at, c);
    }
  }

  lemma StaleAgrees(entry: seq<Time>, log: seq<Time>, cutoff: Time, from: Time)
    requires Agree(entry, log, cutoff) && cutoff <= from
    requires AtMost(entry, from)
    ensures Agree([], log, from)
  {
    forall c | c >= from
      ensures After([], c) == After(log, c)
    {
      AfterEmpty(entry, c);
    }
  }

  lemma PrunedAtMost(log: seq<Time>, cutoff: Time, now: Time)
    requires AtMost(log, now)
    ensures AtMost(After(log, cutoff), now)
  {
    forall i | 0 <= i < |After(log, cutoff)|
      ensures After(log, cutoff)[i] <= now
    {
      AfterMembers(log, cutoff, After(log, cutoff)[i]);
    }
  }

  lemma {:induction false} PruneThenAppend(entry: seq<Time>, log: seq<Time>, now: Time, cutoff: Time)
    requires AtMost(entry, now) && Agree(entry, log, cutoff)
    ensures AtMost(After(entry, cutoff), now) && After(entry, cutoff) == After(log, cutoff)
    ensures Agree(After(entry, cutoff), log, cutoff)
    ensures Agree(After(entry, cutoff) + [now], log + [now], cutoff)
  {
    PruneAgrees(entry, log, cutoff, cutoff);
    PrunedAtMost(entry, cutoff, now);
    AppendAgrees(After(entry, cutoff), log, now, cutoff);
  }

  lemma {:induction false} AppendThenPrune(entry: seq<Time>, log: seq<Time>, now: Time, cutoff: Time)
    requires AtMost(entry, now) && Agree(entry, log, cutoff)
    ensures AtMost(After(entry + [now], cutoff), now)
    ensures After(entry + [now], cutoff) == After(log + [now], cutoff)
    ensures Agree(After(entry + [now], cutoff), log + [now], cutoff)
  {
    AppendAgrees(entry, log, now, cutoff);
    PruneAgrees(entry + [now], log + [now], cutoff, cutoff);
    PrunedAtMost(entry + [now], cutoff, now);
  }

  /** Every stored list agrees with the log of its key. */
  ghost predicate Mirrors(entries: map<string, seq<Time>>, hist: seq<Event>, cutoff: Time) {
    forall k {:trigger Entry(entries, k)} :: Agree(Entry(entries, k), LogOf(hist, k), cutoff)
  }

  ghost predicate NoEntryLater(entries: map<string, seq<Time>>, now: Time) {
    forall k {:trigger Entry(entries, k)} :: AtMost(Entry(entries, k), now)
  }

  /** Cleanup changes no decision: what it drops as stale was dead, what it evicts is forgotten. */
  lemma SweepMirrors(entries: map<string, seq<Time>>, kept: map<string, seq<Time>>, evicted: set<string>,
                     hist: seq<Event>, width: int, now: Time, earlier: Time, maxKeys: int)
    requires Mirrors(entries, hist, earlier - width) && earlier <= now
    requires NoEntryLater(entries, now)
    requires Swept(entries, kept, evicted, now - 2 * width, maxKeys)
    ensures Mirrors(kept, hist + [Forgotten(evicted)], now - width)
  {
    var after := hist + [Forgotten(evicted)];
    assert after[..|after| - 1] == hist;
    forall k
      ensures Agree(Entry(kept, k), LogOf(after, k), now - width)
    {
      assert Agree(Entry(entries, k), LogOf(hist, k), earlier - width);
      if k !in kept && k !in evicted && k in entries {
        assert Stale(entries[k], now - 2 * width);
        StaleAgrees(entries[k], LogOf(hist, k), earlier - width, now - width);
      }
    }
  }

  /** The stored lists agree with the history as far as any later look can see. */
  ghost predicate Kept(entries: map<string, seq<Time>>, hist: seq<Event>, clock: Time, width: int) {
    && NoneLater(hist, clock)
    && NoEntryLater(entries, clock)
    && Mirrors(entries, hist, clock - width)
  }

  lemma LaterIsKept(entries: map<string, seq<Time>>, hist: seq<Event>, clock: Time, width: int, now: Time)
    requires Kept(entries, hist, clock, width) && clock <= now
    ensures Kept(entries, hist, now, width)
  {
    forall k
      ensures AtMost(Entry(entries, k), now) && Agree(Entry(entries, k), LogOf(hist, k), now - width)
    {
      assert AtMost(Entry(entries, k), clock) && Agree(Entry(entries, k), LogOf(hist, k), clock - width);
    }
  }

  lemma CleanupIsKept(entries: map<string, seq<Time>>, kept: map<string, seq<Time>>, evicted: set<string>,
                      hist: seq<Event>, clock: Time, width: int, now: Time, maxKeys: int)
    requires Kept(entries, hist, clock, width) && clock <= now
    requires Swept(entries, kept, evicted, now - 2 * width, maxKeys)
    ensures Kept(kept, hist + [Forgotten(evicted)], now, width)
  {
    SweepMirrors(entries, kept, evicted, hist, width, now, clock, maxKeys);
    forall k
      ensures AtMost(Entry(kept, k), now)
    {
      assert AtMost(Entry(entries, k), clock);
    }
  }

  lemma ForgettingIsKept(entries: map<string, seq<Time>>, hist: seq<Event>, clock: Time, width: int, key: string)
    requires Kept(entries, hist, clock, width)
    ensures Kept(entries - {key}, hist + [Forgotten({key})], clock, width)
  {
    var after, rest := hist + [Forgotten({key})], entries - {key};
    assert after[..|after| - 1] == hist;
    forall k
      ensures AtMost(Entry(rest, k), clock) && Agree(Entry(rest, k), LogOf(after, k), clock - width)
    {
      assert AtMost(Entry(entries, k), clock) && Agree(Entry(entries, k), LogOf(hist, k), clock - width);
    }
  }

  /** Replacing one key's list, and perhaps logging or refusing that key, leaves the others alone. */
  lemma StoringIsKept(entries: map<string, seq<Time>>, hist: seq<Event>, clock: Time, width: int,
                      key: string, entry: seq<Time>, hist': seq<Event>)
    requires Kept(entries, hist, clock, width)
    requires hist' == hist || hist' == hist + [Logged(key, clock)] || hist' == hist + [Refused(key, clock)]
    requires AtMost(entry, clock) && Agree(entry, LogOf(hist', key), clock - width)
    ensures Kept(entries[key := entry], hist', clock, width)
  {
    assert hist' != hist ==> hist'[..|hist'| - 1] == hist;
    var entries' := entries[key := entry];
    forall k
      ensures AtMost(Entry(entries', k), clock) && Agree(Entry(entries', k), LogOf(hist', k), clock - width)
    {
      assert AtMost(Entry(entries, k), clock) && Agree(Entry(entries, k), LogOf(hist, k), clock - width);
    }
  }

  /** Forgetting never turns an honest history into a dishonest one. */
  lemma ForgettingIsFaithful(hist: seq<Event>, keys: set<string>, capacity: int, width: int)
    requires Faithful(hist, capacity, width)
    ensures Faithful(hist + [Forgotten(keys)], capacity, width)
  {
    assert (hist + [Forgotten(keys)])[..|hist|] == hist;
  }

  lemma DecidingIsFaithful(hist: seq<Event>, key: string, now: Time, capacity: int, width: int)
    requires Faithful(hist, capacity, width) && NoneLater(hist, now)
    ensures HasRoom(LogOf(hist, key), capacity, width, now) ==> Faithful(hist + [Logged(key, now)], capacity, width)
    ensures !HasRoom(LogOf(hist, key), capacity, width, now) ==> Faithful(hist + [Refused(key, now)], capacity, width)
  {
    assert (hist + [Logged(key, now)])[..|hist|] == hist;
    assert (hist + [Refused(key, now)])[..|hist|] == hist;
  }

  /** Pruning a key's list and then logging or refusing, as the room left demands. */
  lemma DecisionIsKept(entries: map<string, seq<Time>>, hist: seq<Event>, clock: Time, width: int,
                       key: string, live: seq<Time>)
    requires Kept(entries, hist, clock, width)
    requires live == After(Entry(entries, key), clock - width)
    ensures live == After(LogOf(hist, key), clock - width)
    ensures Kept(entries[key := live], hist, clock, width)
    ensures Kept(entries[key := live + [clock]], hist + [Logged(key, clock)], clock, width)
    ensures Kept(entries[key := live], hist + [Refused(key, clock)], clock, width)
  {
    var log, entry := LogOf(hist, key), Entry(entries, key);
    var logged, refused := hist + [Logged(key, clock)], hist + [Refused(key, clock)];
    assert AtMost(entry, clock) && Agree(entry, log, clock - width);
    PruneThenAppend(entry, log, clock, clock - width);
    assert logged[..|hist|] == hist && refused[..|hist|] == hist;
    StoringIsKept(entries, hist, clock, width, key, live, hist);
    StoringIsKept(entries, hist, clock, width, key, live + [clock], logged);
    StoringIsKept(entries, hist, clock, width, key, live, refused);
  }

  lemma LoggingAppends(hist: seq<Event>, key: string, at: Time)
    ensures LogOf(hist + [Logged(key, at)], key) == LogOf(hist, key) + [at]
    ensures (hist + [Logged(key, at)])[..|hist|] == hist
  {
    assert (hist + [Logged(key, at)])[..|hist|] == hist;
  }

  /** Appending first and pruning afterwards, as a failed login does. */
  lemma RecordIsKept(entries: map<string, seq<Time>>, hist: seq<Event>, clock: Time, width: int,
                     key: string, live: seq<Time>, hist': seq<Event>)
    requires Kept(entries, hist, clock, width)
    requires live == After(Entry(entries, key) + [clock], clock - width) && hist' == hist + [Logged(key, clock)]
    ensures live == After(LogOf(hist', key), clock - width)
    ensures Kept(entries[key := live], hist', clock, width)
  {
    LoggingAppends(hist, key, clock);
    assert AtMost(Entry(entries, key), clock) && Agree(Entry(entries, key), LogOf(hist, key), clock - width);
    AppendThenPrune(Entry(entries, key), LogOf(hist, key), clock, clock - width);
    StoringIsKept(entries, hist, clock, width, key, live, hist + [Logged(key, clock)]);
  }

  /** At most one cleanup happened between the two histories. */
  ghost predicate Cleaned(before: seq<Event>, after: seq<Event>) {
    after == before || (|after| == |before| + 1 && after[..|before|] == before && after[|before|].Forgotten?)
  }

  /** The lists stand for the history, and the history is that of an unbounded log. */
  ghost predicate Sound(entries: map<string, seq<Time>>, hist: seq<Event>, clock: Time, capacity: int, width: int) {
    Faithful(hist, capacity, width) && Kept(entries, hist, clock, width)
  }

  lemma CleanupIsSound(entries: map<string, seq<Time>>, kept: map<string, seq<Time>>, evicted: set<string>,
                       hist: seq<Event>, clock: Time, capacity: int, width: int, now: Time, maxKeys: int)
    requires Sound(entries, hist, clock, capacity, width) && clock <= now
    requires Swept(entries, kept, evicted, now - 2 * width, maxKeys)
    ensures Sound(kept, hist + [Forgotten(evicted)], now, capacity, width)
  {
    CleanupIsKept(entries, kept, evicted, hist, clock, width, now, maxKeys);
    ForgettingIsFaithful(hist, evicted, capacity, width);
  }

  /** A cleanup of lists that stand for a history. */
  method SoundSweep(entries: map<string, seq<Time>>, ghost hist: seq<Event>, ghost clock: Time, ghost capacity: int,
                    width: int, now: Time, maxKeys: int, ghost resets: set<string>)
    returns (kept: map<string, seq<Time>>, ghost evicted: set<string>)
    requires Sound(entries, hist, clock, capacity, width) && clock <= now
    ensures Sound(kept, hist + [Forgotten(evicted)], now, capacity, width)
    ensures Swept(entries, kept, evicted, now - 2 * width, maxKeys)
    ensures !Crowded(entries, now - 2 * width, maxKeys) && ForgetsOnly(hist, resets) ==> ForgetsOnly(hist + [Forgotten(evicted)], resets)
  {
    kept, evicted := Sweep(entries, now - 2 * width, maxKeys);
    CleanupIsSound(entries, kept, evicted, hist, clock, capacity, width, now, maxKeys);
    ForgettingNothing(hist, resets);
  }

  lemma ForgettingNothing(hist: seq<Event>, keys: set<string>)
    ensures ForgetsOnly(hist, keys) ==> ForgetsOnly(hist + [Forgotten({})], keys)
  {
  }

  /** Nothing outside the given keys was ever forgotten. */
  ghost predicate ForgetsOnly(hist: seq<Event>, keys: set<string>) {
    forall i :: 0 <= i < |hist| && hist[i].Forgotten? ==> hist[i].keys <= keys
  }

  datatype CheckResult =
    | Decision(allowed: bool, remaining: int, resetAt: Time)
    | MinOfEmptyList

  /** A decision that an unbounded log would have made, with the figures that go with it. */
  ghost predicate Honest(r: CheckResult, log: seq<Time>, capacity: int, width: int, now: Time)
    requires r.Decision?
  {
    var live := After(log, now - width);
    && r.allowed == HasRoom(log, capacity, width, now)
    && (r.allowed ==> r.remaining == capacity - |live| && r.resetAt == now + width)
    && (!r.allowed ==> r.remaining == 0 && live != [] && r.resetAt == Earliest(live) + width)
  }

  class InMemoryRateLimiter {
    const maxRequests: int
    const windowSeconds: int
    const cleanupIntervalSeconds: int
    const maxKeys: int
    var buckets: map<string, seq<Time>>
    var lastCleanup: Time
    // What an unbounded log would hold, and the latest clock reading.
    ghost var hist: seq<Event>
    ghost var clock: Time
    // Whether a cleanup ever found more live keys than fit, and the keys ever reset.
    ghost var crowded: bool
    ghost var resets: set<string>

    function Width(): int {
      Seconds(windowSeconds)
    }

    predicate Due(now: Time)
      reads this
    {
      now - lastCleanup >= Seconds(cleanupIntervalSeconds)
    }

    ghost predicate Valid()
      reads this
    {
      Sound(buckets, hist, clock, maxRequests, Width()) && (!crowded ==> ForgetsOnly(hist, resets))
    }

    /**
     The limiter's promise over its whole life. As long as no cleanup has found more live keys than
     fit, no window of any key that was never reset holds more than the limit.
     */
    lemma UncrowdedWindowBound(key: string, end: Time)
      requires Valid() && !crowded && key !in resets
      ensures |Within(AllLogged(hist, key), Width(), end)| <= Max(maxRequests, 0)
    {
      WindowBound(hist, maxRequests, Width(), key, 0, |hist|, end);
      assert hist[0..|hist|] == hist;
    }

    constructor (maxRequests: int, windowSeconds: int, cleanupIntervalSeconds: int, maxKeys: int, now: Time)
      ensures Valid() && hist == [] && clock == lastCleanup == now && !crowded && resets == {}
      ensures this.maxRequests == maxRequests && this.windowSeconds == windowSeconds
      ensures this.cleanupIntervalSeconds == cleanupIntervalSeconds && this.maxKeys == maxKeys
    {
      this.maxRequests := maxRequests;
      this.windowSeconds := windowSeconds;
      this.cleanupIntervalSeconds := cleanupIntervalSeconds;
      this.maxKeys := maxKeys;
      buckets := map[];
      lastCleanup := now;
      hist := [];
      clock := now;
      crowded, resets := false, {};
    }

    /** Does nothing before the interval is up; afterwards, forgets only what it evicts. */
    method MaybeCleanup(now: Time) returns (ghost evicted: set<string>)
      requires Valid() && clock <= now
      modifies this
      ensures Valid() && clock == now
      ensures now - old(lastCleanup) < Seconds(cleanupIntervalSeconds)
          ==> buckets == old(buckets) && lastCleanup == old(lastCleanup) && hist == old(hist)
      ensures now - old(lastCleanup) >= Seconds(cleanupIntervalSeconds)
          ==> lastCleanup == now && hist == old(hist) + [Forgotten(evicted)]
      ensures now - old(lastCleanup) >= Seconds(cleanupIntervalSeconds)
          ==> Swept(old(buckets), buckets, evicted, now - 2 * Width(), maxKeys)
      ensures now - old(lastCleanup) >= Seconds(cleanupIntervalSeconds)
          ==> (evicted != {} <==> Crowded(old(buckets), now - 2 * Width(), maxKeys))
      ensures resets == old(resets)
      ensures crowded == (old(crowded) || (old(Due(now)) && Crowded(old(buckets), now - 2 * Width(), maxKeys)))
    {
      if now - lastCleanup < Seconds(cleanupIntervalSeconds) {
        LaterIsKept(buckets, hist, clock, Width(), now);
        clock, evicted := now, {};
      } else {
        evicted := Cleanup(now);
        EvictionIsForced(old(buckets), buckets, evicted, now - 2 * Width(), maxKeys);
      }
    }

    method Cleanup(now: Time) returns (ghost evicted: set<string>)
      requires Valid() && clock <= now
      modifies this
      ensures Valid() && clock == lastCleanup == now
      ensures hist == old(hist) + [Forgotten(evicted)]
      ensures Swept(old(buckets), buckets, evicted, now - 2 * Width(), maxKeys)
      ensures resets == old(resets) && crowded == (old(crowded) || Crowded(old(buckets), now - 2 * Width(), maxKeys))
    {
      var kept;
      ghost var full := Crowded(buckets, now - 2 * Width(), maxKeys);
      kept, evicted := SoundSweep(buckets, hist, clock, maxRequests, Width(), now, maxKeys, resets);
      hist, clock, lastCleanup := hist + [Forgotten(evicted)], now, now;
      buckets := kept;
      crowded := crowded || full;
    }

    /**
     The clock is read once by the cleanup and once by the check. The decision is the unbounded
     log's; with a limit below one the bucket is always empty and `min` raises.
     */
    method Check(key: string, cleanupNow: Time, now: Time) returns (r: CheckResult, ghost prior: seq<Event>)
      requires Valid() && clock <= cleanupNow <= now
      modifies this
      ensures Valid() && clock == now
      ensures Cleaned(old(hist), prior)
      ensures cleanupNow - old(lastCleanup) < Seconds(cleanupIntervalSeconds) ==> prior == old(hist) && lastCleanup == old(lastCleanup)
      ensures resets == old(resets)
      ensures crowded == (old(crowded) || (old(Due(cleanupNow)) && Crowded(old(buckets), cleanupNow - 2 * Width(), maxKeys)))
      ensures r.MinOfEmptyList? <==> maxRequests < 1
      ensures r.MinOfEmptyList? ==> hist == prior
      ensures r.Decision? ==> Honest(r, LogOf(prior, key), maxRequests, Width(), now)
      ensures r.Decision? ==> hist == prior + [if r.allowed then Logged(key, now) else Refused(key, now)]
    {
      ghost var _ := MaybeCleanup(cleanupNow);
      prior := hist;
      LaterIsKept(buckets, hist, clock, Width(), now);
      clock := now;
      r := Decide(key, now);
    }

    /** The part of a check that follows the cleanup. */
    method Decide(key: string, now: Time) returns (r: CheckResult)
      requires Valid() && clock == now
      modifies this
      ensures Valid() && clock == now && lastCleanup == old(lastCleanup)
      ensures crowded == old(crowded) && resets == old(resets)
      ensures r.MinOfEmptyList? <==> maxRequests < 1
      ensures r.MinOfEmptyList? ==> hist == old(hist)
      ensures r.Decision? ==> Honest(r, LogOf(old(hist), key), maxRequests, Width(), now)
      ensures r.Decision? ==> hist == old(hist) + [if r.allowed then Logged(key, now) else Refused(key, now)]
    {
      var bucket := After(Entry(buckets, key), now - Width());
      DecisionIsKept(buckets, hist, now, Width(), key, bucket);
      DecidingIsFaithful(hist, key, now, maxRequests, Width());
      buckets := buckets[key := bucket];
      var remaining := maxRequests - |bucket|;
      if |bucket| >= maxRequests {
        if maxRequests < 1 { NoCapacityNoLog(hist, maxRequests, Width(), key); }
        if bucket == [] {
          r := MinOfEmptyList;
        } else {
          r := Decision(false, 0, Earliest(bucket) + Width());
          hist := hist + [Refused(key, now)];
        }
      } else {
        assert buckets[key := bucket + [now]] == old(buckets)[key := bucket + [now]];
        buckets := buckets[key := bucket + [now]];
        hist := hist + [Logged(key, now)];
        r := Decision(true, remaining, now + Width());
      }
    }

    method Reset(key: string)
      requires Valid()
      modifies this
      ensures Valid() && clock == old(clock) && lastCleanup == old(lastCleanup)
      ensures hist == old(hist) + [Forgotten({key})]
      ensures buckets == old(buckets) - {key}
      ensures crowded == old(crowded) && resets == old(resets) + {key}
    {
      ForgettingIsKept(buckets, hist, clock, Width(), key);
      ForgettingIsFaithful(hist, {key}, maxRequests, Width());
      buckets := buckets - {key};
      hist, resets := hist + [Forgotten({key})], resets + {key};
    }
  }

  /**
   What eviction costs. A limiter of one request an hour and room for one key: a second key comes,
   the cleanup evicts one of the two, and that key gets a second request within the minute.
   */
  method EvictionBreaksTheWindow() returns (limiter: InMemoryRateLimiter, key: string)
    ensures fresh(limiter) && limiter.Valid() && limiter.maxRequests == 1 && limiter.Width() == Seconds(3600)
    ensures |Within(AllLogged(limiter.hist, key), Seconds(3600), Seconds(60))| == 2
  {
    limiter := TwoKeys();
    ghost var evicted;
    key, evicted := ThirdRequest(limiter);
    TwoLogged(evicted, key);
  }

  method TwoKeys() returns (limiter: InMemoryRateLimiter)
    ensures fresh(limiter) && limiter.Valid() && limiter.clock == Seconds(1) && limiter.lastCleanup == 0
    ensures limiter.maxRequests == 1 && limiter.windowSeconds == 3600 && limiter.cleanupIntervalSeconds == 60 && limiter.maxKeys == 1
    ensures limiter.hist == [Logged("a", 0), Logged("b", Seconds(1))]
  {
    limiter := new InMemoryRateLimiter(1, 3600, 60, 1, 0);
    var first, before := limiter.Check("a", 0, 0);
    assert first.allowed && limiter.hist == [Logged("a", 0)];
    var second, between := limiter.Check("b", 0, Seconds(1));
    assert between[..0] == [] && LogOf(between, "b") == [];
  }

  method ThirdRequest(limiter: InMemoryRateLimiter) returns (key: string, ghost evicted: set<string>)
    requires limiter.Valid() && limiter.clock == Seconds(1) && limiter.lastCleanup == 0
    requires limiter.maxRequests == 1 && limiter.windowSeconds == 3600 && limiter.cleanupIntervalSeconds == 60 && limiter.maxKeys == 1
    modifies limiter
    ensures limiter.Valid() && (key == "a" || key == "b")
    ensures limiter.hist == old(limiter.hist) + [Forgotten(evicted), Logged(key, Seconds(60))]
  {
    evicted := limiter.MaybeCleanup(Seconds(60));
    key := if "a" in limiter.buckets then "b" else "a";
    if "a" in limiter.buckets {
      OneKeyLeft(limiter.buckets, "a", "b");
    }
    NoEntryMeansRoom(limiter.buckets, limiter.hist, limiter.clock, limiter.Width(), key);
    AllowedAgain(limiter, key);
  }

  method AllowedAgain(limiter: InMemoryRateLimiter, key: string)
    requires limiter.Valid() && limiter.clock == limiter.lastCleanup == Seconds(60)
    requires limiter.maxRequests == 1 && limiter.cleanupIntervalSeconds == 60
    requires After(LogOf(limiter.hist, key), Seconds(60) - limiter.Width()) == []
    modifies limiter
    ensures limiter.Valid() && limiter.hist == old(limiter.hist) + [Logged(key, Seconds(60))]
  {
    var third, before := limiter.Check(key, Seconds(60), Seconds(60));
    assert before == old(limiter.hist) && third.allowed;
  }

  lemma OneKeyLeft(entries: map<string, seq<Time>>, a: string, b: string)
    requires |entries| <= 1 && a != b && a in entries
    ensures b !in entries
  {
    assert |{a, b}| == 2;
    assert b in entries ==> {a, b} <= entries.Keys;
    SmallerSet({a, b}, entries.Keys);
  }

  lemma SmallerSet(a: set<string>, b: set<string>)
    ensures a <= b ==> |a| <= |b|
  {
    assert a <= b ==> b == a + (b - a);
  }

  /** A key without a stored list has nothing in its window. */
  lemma NoEntryMeansRoom(entries: map<string, seq<Time>>, hist: seq<Event>, clock: Time, width: int, key: string)
    requires Kept(entries, hist, clock, width) && key !in entries
    ensures After(LogOf(hist, key), clock - width) == []
  {
    assert Agree(Entry(entries, key), LogOf(hist, key), clock - width);
  }

  lemma LoggedAfter(hist: seq<Event>, e: Event, key: string)
    ensures AllLogged(hist + [e], key) == AllLogged(hist, key) + if e.Logged? && e.key == key then [e.at] else []
  {
    assert (hist + [e])[..|hist|] == hist;
  }

  lemma WhatIsLogged(evicted: set<string>, key: string)
    requires key == "a" || key == "b"
    ensures AllLogged([Logged("a", 0), Logged("b", Seconds(1))] + [Forgotten(evicted), Logged(key, Seconds(60))], key)
         == [if key == "a" then 0 else Seconds(1)] + [Seconds(60)]
  {
    var none: seq<Event> := [];
    var one := none + [Logged("a", 0)];
    var two := one + [Logged("b", Seconds(1))];
    var three := two + [Forgotten(evicted)];
    LoggedAfter(none, Logged("a", 0), key);
    LoggedAfter(one, Logged("b", Seconds(1)), key);
    LoggedAfter(two, Forgotten(evicted), key);
    LoggedAfter(three, Logged(key, Seconds(60)), key);
    assert AllLogged(three, key) == [if key == "a" then 0 else Seconds(1)];
    assert three + [Logged(key, Seconds(60))]
        == [Logged("a", 0), Logged("b", Seconds(1))] + [Forgotten(evicted), Logged(key, Seconds(60))];
  }

  lemma TwoLogged(evicted: set<string>, key: string)
    requires key == "a" || key == "b"
    ensures var hist := [Logged("a", 0), Logged("b", Seconds(1))] + [Forgotten(evicted), Logged(key, Seconds(60))];
            |Within(AllLogged(hist, key), Seconds(3600), Seconds(60))| == 2
  {
    var at := if key == "a" then 0 else Seconds(1);
    WhatIsLogged(evicted, key);
    WithinAppend([at], Seconds(60), Seconds(3600), Seconds(60));
    WithinAppend([], at, Seconds(3600), Seconds(60));
    assert [] + [at] == [at];
  }

  /** `int(max(0, d.total_seconds()))`. */
  function WholeSeconds(d: int): (n: nat)
    ensures if d <= 0 then n == 0 else Seconds(n) <= d < Seconds(n + 1)
  {
    if d <= 0 then 0 else d / 1_000_000
  }

  /** Counts failed logins. Nothing here refuses to record; the caller must ask first. */
  class InMemoryLoginAttemptLimiter {
    const maxLoginAttempts: int
    const lockoutSeconds: int
    const cleanupIntervalSeconds: int
    const maxKeys: int
    var attempts: map<string, seq<Time>>
    var lastCleanup: Time
    ghost var hist: seq<Event>
    ghost var clock: Time

    function Width(): int {
      Seconds(lockoutSeconds)
    }

    ghost predicate Valid()
      reads this
    {
      Kept(attempts, hist, clock, Width())
    }

    /** Every failure so far was recorded while its key was unlocked. */
    ghost predicate Guarded()
      reads this
    {
      Faithful(hist, maxLoginAttempts, Width())
    }

    constructor (maxLoginAttempts: int, lockoutSeconds: int, cleanupIntervalSeconds: int, maxKeys: int, now: Time)
      ensures Valid() && Guarded() && hist == [] && clock == now
      ensures this.maxLoginAttempts == maxLoginAttempts && this.lockoutSeconds == lockoutSeconds
    {
      this.maxLoginAttempts := maxLoginAttempts;
      this.lockoutSeconds := lockoutSeconds;
      this.cleanupIntervalSeconds := cleanupIntervalSeconds;
      this.maxKeys := maxKeys;
      attempts := map[];
      lastCleanup := now;
      hist := [];
      clock := now;
    }

    method MaybeCleanup(now: Time) returns (ghost evicted: set<string>)
      requires Valid() && clock <= now
      modifies this
      ensures Valid() && clock == now
      ensures now - old(lastCleanup) < Seconds(cleanupIntervalSeconds)
          ==> attempts == old(attempts) && lastCleanup == old(lastCleanup) && hist == old(hist)
      ensures now - old(lastCleanup) >= Seconds(cleanupIntervalSeconds)
          ==> lastCleanup == now && hist == old(hist) + [Forgotten(evicted)]
      ensures now - old(lastCleanup) >= Seconds(cleanupIntervalSeconds)
          ==> Swept(old(attempts), attempts, evicted, now - 2 * Width(), maxKeys)
    {
      if now - lastCleanup < Seconds(cleanupIntervalSeconds) {
        LaterIsKept(attempts, hist, clock, Width(), now);
        clock, evicted := now, {};
      } else {
        evicted := Cleanup(now);
      }
    }

    method Cleanup(now: Time) returns (ghost evicted: set<string>)
      requires Valid() && clock <= now
      modifies this
      ensures Valid() && clock == lastCleanup == now
      ensures hist == old(hist) + [Forgotten(evicted)]
      ensures Swept(old(attempts), attempts, evicted, now - 2 * Width(), maxKeys)
    {
      var kept, gone := Sweep(attempts, now - 2 * Width(), maxKeys);
      CleanupIsKept(attempts, kept, gone, hist, clock, Width(), now, maxKeys);
      attempts, evicted := kept, gone;
      hist, clock, lastCleanup := hist + [Forgotten(evicted)], now, now;
    }

    method RecordFailedLogin(key: string, cleanupNow: Time, now: Time) returns (locked: bool, ghost prior: seq<Event>)
      requires Valid() && clock <= cleanupNow <= now
      modifies this
      ensures Valid() && clock == now
      ensures Cleaned(old(hist), prior)
      ensures cleanupNow - old(lastCleanup) < Seconds(cleanupIntervalSeconds) ==> prior == old(hist)
      ensures hist == prior + [Logged(key, now)]
      ensures locked == !HasRoom(LogOf(hist, key), maxLoginAttempts, Width(), now)
    {
      ghost var _ := MaybeCleanup(cleanupNow);
      prior := hist;
      LaterIsKept(attempts, hist, clock, Width(), now);
      clock := now;
      locked := Record(key, now);
    }

    /** The part that follows the cleanup. */
    method Record(key: string, now: Time) returns (locked: bool)
      requires Valid() && clock == now
      modifies this
      ensures Valid() && clock == now && lastCleanup == old(lastCleanup)
      ensures hist == old(hist) + [Logged(key, now)]
      ensures locked == !HasRoom(LogOf(hist, key), maxLoginAttempts, Width(), now)
    {
      var list := After(Entry(attempts, key) + [now], now - Width());
      ghost var longer := hist + [Logged(key, now)];
      RecordIsKept(attempts, hist, now, Width(), key, list, longer);
      attempts, hist := attempts[key := list], longer;
      locked := |list| >= maxLoginAttempts;
    }

    /** The recent attempts at some moment; a missing key has none. */
    function RecentAttempts(key: string, now: Time): seq<Time>
      reads this
    {
      After(Entry(attempts, key), now - Width())
    }

    lemma RecentIsLive(key: string, now: Time)
      requires Valid() && clock <= now
      ensures RecentAttempts(key, now) == After(LogOf(hist, key), now - Width())
    {
      assert Agree(Entry(attempts, key), LogOf(hist, key), clock - Width());
    }

    method IsLocked(key: string, now: Time) returns (locked: bool)
      requires Valid() && clock <= now
      ensures locked == !HasRoom(LogOf(hist, key), maxLoginAttempts, Width(), now)
    {
      RecentIsLive(key, now);
      locked := |RecentAttempts(key, now)| >= maxLoginAttempts;
    }

    /** When the oldest attempt that is recent now leaves the window. */
    ghost function LockEnd(key: string, now: Time): Time
      requires After(LogOf(hist, key), now - Width()) != []
      reads this
    {
      Earliest(After(LogOf(hist, key), now - Width())) + Width()
    }

    lemma LockOpens(key: string, now: Time)
      requires Valid() && clock <= now
      ensures Guarded() && maxLoginAttempts >= 1 && !HasRoom(LogOf(hist, key), maxLoginAttempts, Width(), now) ==>
        OpensAt(LogOf(hist, key), maxLoginAttempts, Width(), now, LockEnd(key, now))
    {
      if Guarded() && maxLoginAttempts >= 1 && !HasRoom(LogOf(hist, key), maxLoginAttempts, Width(), now) {
        RoomOpens(hist, maxLoginAttempts, Width(), key, now);
      }
    }

    /**
     Whole seconds until the oldest recent attempt ages out; the clock is read again for the
     subtraction. While the key is locked that is when the lock ends, for every moment a caller
     may ask about.
     */
    method GetRemainingLockTime(key: string, now: Time, later: Time) returns (seconds: nat)
      requires Valid() && clock <= now <= later
      ensures After(LogOf(hist, key), now - Width()) == [] ==> seconds == 0
      ensures After(LogOf(hist, key), now - Width()) != [] ==>
        if LockEnd(key, now) <= later then seconds == 0
        else Seconds(seconds) <= LockEnd(key, now) - later < Seconds(seconds + 1)
      ensures Guarded() && maxLoginAttempts >= 1 && !HasRoom(LogOf(hist, key), maxLoginAttempts, Width(), now) ==>
        OpensAt(LogOf(hist, key), maxLoginAttempts, Width(), now, LockEnd(key, now))
    {
      RecentIsLive(key, now);
      LockOpens(key, now);
      var recent := RecentAttempts(key, now);
      if recent == [] {
        return 0;
      }
      seconds := WholeSeconds(Earliest(recent) + Width() - later);
    }

    /**
     The lockout over a serial run of logins. However many attempts follow a report that a key is
     locked, and whatever happens to other keys, the key is locked at a later moment exactly when
     that moment is before the end the report was computed from.
     */
    lemma LockoutEndsOnTime(key: string, reported: nat, now: Time, later: Time)
      requires Valid() && Guarded() && maxLoginAttempts >= 1 && reported <= |hist| && now <= later
      requires NoneLater(hist[..reported], now)
      requires !HasRoom(LogOf(hist[..reported], key), maxLoginAttempts, Width(), now)
      requires var end := Earliest(After(LogOf(hist[..reported], key), now - Width())) + Width();
               forall i :: reported <= i < |hist| ==> Waits(hist[i], key, now, end)
      ensures !HasRoom(LogOf(hist, key), maxLoginAttempts, Width(), later)
         <==> later < Earliest(After(LogOf(hist[..reported], key), now - Width())) + Width()
    {
      ResetTimeOfPrefix(hist, reported, maxLoginAttempts, Width(), key, now, later);
    }

    method Reset(key: string)
      requires Valid()
      modifies this
      ensures Valid() && clock == old(clock) && lastCleanup == old(lastCleanup)
      ensures hist == old(hist) + [Forgotten({key})]
      ensures attempts == old(attempts) - {key}
    {
      ForgettingIsKept(attempts, hist, clock, Width(), key);
      attempts := attempts - {key};
      hist := hist + [Forgotten({key})];
    }
  }

  /** What the password check found. */
  datatype Verdict = UnknownUser | Rejected | Accepted

  datatype LoginResult = RateLimited(retryAt: Time) | LockedOut | Refusal | FirstFactorPassed | LimiterRaised

  /** Room for one more survives waiting and forgetting. */
  lemma RoomRemains(hist: seq<Event>, prior: seq<Event>, key: string, capacity: int, width: int, now: Time, later: Time)
    requires Cleaned(hist, prior) && now <= later
    requires HasRoom(LogOf(hist, key), capacity, width, now)
    ensures HasRoom(LogOf(prior, key), capacity, width, later)
  {
    AfterShrinks(LogOf(hist, key), now - width, later - width);
    assert prior != hist ==> prior[..|prior| - 1] == hist;
  }

  lemma RecordingIsFaithful(hist: seq<Event>, prior: seq<Event>, key: string, capacity: int, width: int, now: Time, later: Time)
    requires Faithful(hist, capacity, width) && Cleaned(hist, prior) && now <= later && NoneLater(prior, later)
    requires HasRoom(LogOf(hist, key), capacity, width, now)
    ensures Faithful(prior + [Logged(key, later)], capacity, width)
  {
    RoomRemains(hist, prior, key, capacity, width, now, later);
    assert Faithful(prior, capacity, width) by {
      if prior != hist {
        assert prior == hist + [Forgotten(prior[|hist|].keys)];
        ForgettingIsFaithful(hist, prior[|hist|].keys, capacity, width);
      }
    }
    DecidingIsFaithful(prior, key, later, capacity, width);
  }

  /** One failure more, perhaps after a cleanup, and nothing else. */
  ghost predicate Records(before: seq<Event>, after: seq<Event>, key: string, now: Time) {
    after != [] && Cleaned(before, after[..|after| - 1]) && after[|after| - 1] == Logged(key, now)
  }

  /** A failure recorded right after its key was found unlocked. */
  method RecordUnlocked(failures: InMemoryLoginAttemptLimiter, key: string, t2: Time, t3: Time, t4: Time)
    requires failures.Valid() && failures.Guarded() && failures.clock <= t2 <= t3 <= t4
    requires HasRoom(LogOf(failures.hist, key), failures.maxLoginAttempts, failures.Width(), t2)
    modifies failures
    ensures failures.Valid() && failures.Guarded()
    ensures Records(old(failures.hist), failures.hist, key, t4)
  {
    ghost var hist := failures.hist;
    var _, prior := failures.RecordFailedLogin(key, t3, t4);
    assert failures.hist[..|failures.hist| - 1] == prior;
    assert NoneLater(prior, t4) by {
      assert forall i :: 0 <= i < |prior| ==> prior[i] == failures.hist[i];
    }
    RecordingIsFaithful(hist, prior, key, failures.maxLoginAttempts, failures.Width(), t2, t4);
  }

  /**
   The order in which a login consults and feeds its two limiters: the request limit first, then
   the lockout, and a failure is recorded only after the lockout let the attempt through.
   `key` is absent when the request carries no address or no identifier.
   */
  method Login(limiter: InMemoryRateLimiter, failures: InMemoryLoginAttemptLimiter, key: Option<string>,
               verdict: Verdict, t0: Time, t1: Time, t2: Time, t3: Time, t4: Time)
    returns (r: LoginResult, ghost counted: seq<Event>)
    requires limiter.Valid() && failures.Valid() && failures.Guarded()
    requires limiter.clock <= t0 <= t1 && failures.clock <= t2 <= t3 <= t4 && t1 <= t2
    modifies limiter, failures
    ensures limiter.Valid() && failures.Valid() && failures.Guarded()
    ensures key.None? ==> failures.hist == old(failures.hist) && limiter.hist == old(limiter.hist)
    ensures key.Some? ==> Cleaned(old(limiter.hist), counted)
    ensures key.Some? && limiter.maxRequests >= 1 ==>
      (r.RateLimited? <==> !HasRoom(LogOf(counted, "login:" + key.value), limiter.maxRequests, limiter.Width(), t1))
    ensures key.None? ==> r == if verdict.Accepted? then FirstFactorPassed else Refusal
    ensures r.RateLimited? ==> failures.hist == old(failures.hist) && limiter.hist == counted + [Refused("login:" + key.value, t1)]
    ensures r.RateLimited? ==>
      var live := After(LogOf(counted, "login:" + key.value), t1 - limiter.Width());
      live != [] && r.retryAt == Earliest(live) + limiter.Width()
    ensures key.Some? && !r.RateLimited? && !r.LimiterRaised? ==> limiter.hist == counted + [Logged("login:" + key.value, t1)]
    ensures key.Some? ==> (r.LimiterRaised? <==> limiter.maxRequests < 1)
    ensures key.Some? && !r.LimiterRaised? && !r.RateLimited? ==>
      (r.LockedOut? <==> !HasRoom(LogOf(old(failures.hist), key.value), failures.maxLoginAttempts, failures.Width(), t2))
    ensures r.LockedOut? || r.LimiterRaised? ==> failures.hist == old(failures.hist)
    ensures key.Some? && r.Refusal? ==> !verdict.Accepted?
    ensures key.Some? && r.Refusal? ==> Records(old(failures.hist), failures.hist, key.value, t4)
    ensures key.Some? && r.FirstFactorPassed? ==>
      verdict.Accepted? && failures.hist == old(failures.hist) + [Forgotten({key.value})] && LogOf(failures.hist, key.value) == []
  {
    counted := limiter.hist;
    if key.Some? {
      var limit;
      limit, counted := limiter.Check("login:" + key.value, t0, t1);
      if limit.MinOfEmptyList? {
        return LimiterRaised, counted;
      }
      if !limit.allowed {
        return RateLimited(limit.resetAt), counted;
      }
      var locked := failures.IsLocked(key.value, t2);
      if locked {
        return LockedOut, counted;
      }
    }
    if !verdict.Accepted? {
      if key.Some? {
        RecordUnlocked(failures, key.value, t2, t3, t4);
      }
      return Refusal, counted;
    }
    if key.Some? {
      ForgettingIsFaithful(failures.hist, {key.value}, failures.maxLoginAttempts, failures.Width());
      failures.Reset(key.value);
    }
    r := FirstFactorPassed;
  }
}

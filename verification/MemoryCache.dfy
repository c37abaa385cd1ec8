/** The in-memory cache, which drops an expired entry only when someone reads it. */
module MemoryCache {
  import opened Basics

  datatype Entry<V> = Entry(value: V, expiresAt: Option<Time>)

  predicate Expired<V>(e: Entry<V>, now: Time) {
    e.expiresAt.Some? && now >= e.expiresAt.value
  }

  /** Reading a plain timed map: a missing or expired entry reads as nothing, and nothing changes. */
  function Lookup<K, V>(timed: map<K, Entry<V>>, key: K, now: Time): Option<V> {
    if key in timed && !Expired(timed[key], now) then Some(timed[key].value) else None
  }

  /** Writing one. An absent or zero time to live means the entry never expires. */
  function Written<K, V>(timed: map<K, Entry<V>>, key: K, value: V, ttlSeconds: Option<int>, now: Time): map<K, Entry<V>> {
    timed[key := Entry(value, if ttlSeconds.Some? && ttlSeconds.value != 0 then Some(now + Seconds(ttlSeconds.value)) else None)]
  }

  /** What is written is read back until its time is up, if it has one, and nothing else is affected. */
  lemma WrittenIsRead<K, V>(timed: map<K, Entry<V>>, key: K, value: V, ttlSeconds: Option<int>, now: Time, other: K, later: Time)
    ensures var after := Written(timed, key, value, ttlSeconds, now);
            && Lookup(after, key, later)
               == (if ttlSeconds.None? || ttlSeconds.value == 0 || later < now + Seconds(ttlSeconds.value) then Some(value) else None)
            && (other != key ==> Lookup(after, other, later) == Lookup(timed, other, later))
  {
  }

  /** The stored map is the timed map less some entries that have already expired. */
  ghost predicate Refines<K, V>(store: map<K, Entry<V>>, timed: map<K, Entry<V>>, clock: Time) {
    && (forall k :: k in store ==> k in timed && store[k] == timed[k])
    && (forall k :: k in timed && k !in store ==> Expired(timed[k], clock))
  }

  /** No reader can tell the two apart, now or at any later time. */
  lemma LazyDeletionIsInvisible<K, V>(store: map<K, Entry<V>>, timed: map<K, Entry<V>>, clock: Time, key: K, now: Time)
    requires Refines(store, timed, clock) && clock <= now
    ensures Lookup(store, key, now) == Lookup(timed, key, now)
  {
    if key in timed && key !in store {
      assert Expired(timed[key], clock);
    }
  }

  class InMemoryCache<K(==), V(==)> {
    var store: map<K, Entry<V>>
    // The timed map that readers see.
    ghost var timed: map<K, Entry<V>>
    ghost var clock: Time

    ghost predicate Valid()
      reads this
    {
      Refines(store, timed, clock)
    }

    constructor (now: Time)
      ensures Valid() && timed == map[] && clock == now
    {
      store, timed, clock := map[], map[], now;
    }

    method Get(key: K, now: Time) returns (r: Option<V>)
      requires Valid() && clock <= now
      modifies this
      ensures Valid() && clock == now && timed == old(timed)
      ensures r == Lookup(timed, key, now)
      ensures store == if key in old(store) && Expired(old(store)[key], now) then old(store) - {key} else old(store)
    {
      LazyDeletionIsInvisible(store, timed, clock, key, now);
      clock := now;
      if key !in store {
        return None;
      }
      var entry := store[key];
      if Expired(entry, now) {
        store := store - {key};
        return None;
      }
      r := Some(entry.value);
    }

    method Set(key: K, value: V, ttlSeconds: Option<int>, now: Time)
      requires Valid() && clock <= now
      modifies this
      ensures Valid() && clock == now
      ensures timed == Written(old(timed), key, value, ttlSeconds, now)
    {
      store := Written(store, key, value, ttlSeconds, now);
      timed := Written(timed, key, value, ttlSeconds, now);
      clock := now;
    }

    method Delete(key: K)
      requires Valid()
      modifies this
      ensures Valid() && clock == old(clock)
      ensures timed == old(timed) - {key}
    {
      store := store - {key};
      timed := timed - {key};
    }
  }
}

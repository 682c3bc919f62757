/** The in-memory TTL cache placed in front of TMDb calls: a dictionary in
    insertion order, entries that expire, first-in-first-out eviction when
    full, and hit/miss counters. Instants are integers counting
    microseconds, the resolution of `datetime`; `now` is a parameter. */
module Cache {
  import opened Wrappers

  const MicrosPerSecond: int := 1000000

  /** A cached value and the instant after which it is stale. */
  datatype CacheEntry<V> = CacheEntry(data: V, expiresAt: int)

  /** `CacheEntry(data, ttl)` created at `now`. */
  function NewEntry<V>(data: V, ttlSeconds: int, now: int): (e: CacheEntry<V>)
    ensures e.data == data
    ensures ttlSeconds > 0 ==> e.expiresAt > now
    ensures ttlSeconds <= 0 ==> e.expiresAt <= now
  {
    CacheEntry(data, now + ttlSeconds * MicrosPerSecond)
  }

  /** `is_expired`: strictly past the expiry instant. */
  predicate IsExpired<V>(e: CacheEntry<V>, now: int) {
    now > e.expiresAt
  }

  /** Once expired, an entry stays expired. */
  lemma ExpiredStays<V>(e: CacheEntry<V>, t1: int, t2: int)
    requires IsExpired(e, t1) && t1 <= t2
    ensures IsExpired(e, t2)
  {
  }

  /** A new entry is live for exactly its time-to-live, the last instant
      included. */
  lemma NewEntryLifetime<V>(data: V, ttlSeconds: int, now: int, t: int)
    requires t >= now
    ensures !IsExpired(NewEntry(data, ttlSeconds, now), t) <==> t <= now + ttlSeconds * MicrosPerSecond
  {
  }

  // ----------------------------------------------------------- the state

  /** The cache's contents: the dictionary's keys in insertion order, its
      entries, and the counters. */
  datatype State<V> = State(order: seq<string>, entries: map<string, CacheEntry<V>>, hits: nat, misses: nat)

  function Empty<V>(): State<V> {
    State([], map[], 0, 0)
  }

  predicate Distinct(order: seq<string>) {
    forall i, j :: 0 <= i < j < |order| ==> order[i] != order[j]
  }

  /** The most entries the cache can hold: a non-positive `maxsize` keeps
      it empty, because adding to a full empty cache fails. */
  function Capacity(maxsize: int): nat {
    if maxsize > 0 then maxsize else 0
  }

  /** The invariant every operation keeps: the key order lists each entry's
      key once, and the size stays within capacity. */
  predicate WellFormed<V>(s: State<V>, maxsize: int) {
    && Distinct(s.order)
    && (forall k :: k in s.entries ==> k in s.order)
    && (forall k :: k in s.order ==> k in s.entries)
    && |s.order| <= Capacity(maxsize)
  }

  /** The key order without `key`. */
  function Remove(order: seq<string>, key: string): (r: seq<string>)
    ensures forall x :: x in r <==> x in order && x != key
    ensures Distinct(order) ==> Distinct(r)
    ensures |r| <= |order|
  {
    if order == [] then []
    else if order[0] == key then Remove(order[1..], key)
    else
      assert Distinct(order) ==> order[0] !in order[1..] && Distinct(order[1..]) by {
        if Distinct(order) {
          forall j | 0 <= j < |order| - 1 ensures order[1..][j] != order[0] {
            assert order[1..][j] == order[j + 1];
          }
        }
      }
      [order[0]] + Remove(order[1..], key)
  }

  // ------------------------------------------------------------------ get

  datatype GetResult<V> = GetResult(state: State<V>, value: Option<V>)

  /** `get`: a live entry is a hit; an expired entry is deleted and is a
      miss; an absent key is a miss. */
  function GetStep<V>(s: State<V>, key: string, now: int): GetResult<V> {
    if key in s.entries then
      if IsExpired(s.entries[key], now) then
        GetResult(s.(order := Remove(s.order, key), entries := s.entries - {key}, misses := s.misses + 1), None)
      else GetResult(s.(hits := s.hits + 1), Some(s.entries[key].data))
    else GetResult(s.(misses := s.misses + 1), None)
  }

  /** Every lookup counts once, as a hit exactly when it returns a value,
      and only an expired entry is dropped. A hit moves no key: eviction
      stays first in, first out. */
  lemma GetCounts<V>(s: State<V>, key: string, now: int)
    ensures var g := GetStep(s, key, now);
      && g.state.hits + g.state.misses == s.hits + s.misses + 1
      && (g.state.hits == s.hits + 1 <==> g.value.Some?)
      && g.state.hits == s.hits + (if g.value.Some? then 1 else 0)
      && g.state.misses == s.misses + (if g.value.None? then 1 else 0)
      && (g.value.Some? <==> key in s.entries && !IsExpired(s.entries[key], now))
      && (g.value.Some? ==> g.value.value == s.entries[key].data)
      && (forall k :: k in g.state.entries <==> k in s.entries && (k != key || g.value.Some?))
      && (g.value.Some? || key !in s.entries ==> g.state.order == s.order && g.state.entries == s.entries)
      && (key in s.entries && g.value.None? ==> g.state.order == Remove(s.order, key))
      && (key in s.entries && g.value.None? ==> g.state.entries == s.entries - {key})
  {
  }

  lemma GetWellFormed<V>(s: State<V>, maxsize: int, key: string, now: int)
    requires WellFormed(s, maxsize)
    ensures WellFormed(GetStep(s, key, now).state, maxsize)
  {
  }

  // ------------------------------------------------------------------ set

  /** `ttl or default_ttl`: a missing or zero time-to-live falls back to the
      default. */
  function EffectiveTtl(ttl: Option<int>, defaultTtl: int): (t: int)
    ensures t == defaultTtl || (ttl.Some? && t == ttl.value != 0)
    ensures ttl.Some? && ttl.value != 0 ==> t == ttl.value
    ensures ttl.None? || ttl.value == 0 ==> t == defaultTtl
  {
    match ttl
    case Some(t) => if t != 0 then t else defaultTtl
    case None => defaultTtl
  }

  /** `set`: when the cache is full and the key is new, the oldest key is
      evicted first; then the entry is stored, keeping the key's position if
      it was present. `None` is the failure of evicting from an empty cache
      (`next(iter({}))`), which leaves the cache unchanged. */
  function SetStep<V>(s: State<V>, maxsize: int, defaultTtl: int, key: string, value: V,
                      ttl: Option<int>, now: int): Option<State<V>> {
    var full := |s.order| >= maxsize && key !in s.entries;
    if full && s.order == [] then None
    else
      var kept := if full then s.(order := s.order[1..], entries := s.entries - {s.order[0]}) else s;
      var order := if key in kept.entries then kept.order else kept.order + [key];
      Some(kept.(order := order, entries := kept.entries[key := NewEntry(value, EffectiveTtl(ttl, defaultTtl), now)]))
  }

  /** `set` fails exactly when the capacity is zero; otherwise it keeps the
      invariant. */
  lemma SetWellFormed<V>(s: State<V>, maxsize: int, defaultTtl: int, key: string, value: V, ttl: Option<int>, now: int)
    requires WellFormed(s, maxsize)
    ensures SetStep(s, maxsize, defaultTtl, key, value, ttl, now).None? <==> maxsize <= 0
    ensures SetStep(s, maxsize, defaultTtl, key, value, ttl, now).Some? ==>
      WellFormed(SetStep(s, maxsize, defaultTtl, key, value, ttl, now).value, maxsize)
  {
    var full := |s.order| >= maxsize && key !in s.entries;
    if maxsize > 0 {
      var kept := if full then s.(order := s.order[1..], entries := s.entries - {s.order[0]}) else s;
      if full {
        assert s.order == [s.order[0]] + s.order[1..];
        assert s.order[0] !in s.order[1..];
      }
      assert Distinct(kept.order) && (forall k :: k in kept.entries <==> k in kept.order);
      assert key in kept.entries || |kept.order| < maxsize;
      var s1 := SetStep(s, maxsize, defaultTtl, key, value, ttl, now).value;
      if key !in kept.entries {
        DistinctSnoc(kept.order, key);
        assert s1.order == kept.order + [key];
      } else {
        assert s1.order == kept.order;
      }
    }
  }

  /** `set` in two steps: the eviction gives `kept`, then the entry is
      stored. */
  lemma SetStepFrom<V>(s: State<V>, maxsize: int, defaultTtl: int, key: string, value: V,
                       ttl: Option<int>, now: int, kept: State<V>)
    requires var full := |s.order| >= maxsize && key !in s.entries;
      && !(full && s.order == [])
      && kept == (if full then s.(order := s.order[1..], entries := s.entries - {s.order[0]}) else s)
    ensures SetStep(s, maxsize, defaultTtl, key, value, ttl, now) ==
      Some(kept.(order := if key in kept.entries then kept.order else kept.order + [key],
                 entries := kept.entries[key := CacheEntry(value, now + EffectiveTtl(ttl, defaultTtl) * MicrosPerSecond)]))
  {
  }

  lemma DistinctSnoc(order: seq<string>, key: string)
    requires Distinct(order) && key !in order
    ensures Distinct(order + [key])
  {
  }

  /** A value just stored is returned by `get` for as long as its
      time-to-live lasts, and counts as a hit. */
  lemma SetThenGet<V>(s: State<V>, maxsize: int, defaultTtl: int, key: string, value: V,
                      ttl: Option<int>, now: int, later: int)
    requires SetStep(s, maxsize, defaultTtl, key, value, ttl, now).Some?
    requires now <= later <= now + EffectiveTtl(ttl, defaultTtl) * MicrosPerSecond
    ensures var s1 := SetStep(s, maxsize, defaultTtl, key, value, ttl, now).value;
      GetStep(s1, key, later) == GetResult(s1.(hits := s1.hits + 1), Some(value))
  {
  }

  /** A new key in a full cache evicts the oldest key and goes last. */
  lemma SetEvictsOldest<V>(s: State<V>, maxsize: int, defaultTtl: int, key: string, value: V, ttl: Option<int>, now: int)
    requires WellFormed(s, maxsize) && maxsize > 0
    requires key !in s.entries && |s.order| == maxsize
    ensures var s1 := SetStep(s, maxsize, defaultTtl, key, value, ttl, now);
      && s1.Some?
      && s1.value.order == s.order[1..] + [key]
      && s.order[0] !in s1.value.entries
      && |s1.value.order| == |s.order|
  {
    assert s.order == [s.order[0]] + s.order[1..];
    assert s.order[0] !in s.order[1..];
  }

  /** Storing under a present key replaces its entry and keeps the order. */
  lemma SetExistingKeepsOrder<V>(s: State<V>, maxsize: int, defaultTtl: int, key: string, value: V, ttl: Option<int>, now: int)
    requires key in s.entries
    ensures var s1 := SetStep(s, maxsize, defaultTtl, key, value, ttl, now);
      && s1.Some?
      && s1.value.order == s.order
      && s1.value.entries == s.entries[key := NewEntry(value, EffectiveTtl(ttl, defaultTtl), now)]
  {
  }

  /** Other keys keep their entries, except the one evicted. */
  lemma SetKeepsOthers<V>(s: State<V>, maxsize: int, defaultTtl: int, key: string, value: V,
                          ttl: Option<int>, now: int, other: string)
    requires SetStep(s, maxsize, defaultTtl, key, value, ttl, now).Some?
    requires other in s.entries && other != key
    requires !(|s.order| >= maxsize && key !in s.entries && other == s.order[0])
    ensures var s1 := SetStep(s, maxsize, defaultTtl, key, value, ttl, now).value;
      other in s1.entries && s1.entries[other] == s.entries[other]
      && s1.hits == s.hits && s1.misses == s.misses
  {
  }

  // ------------------------------------------------------------ the cache

  /** `SimpleCache`. */
  class SimpleCache<V> {
    var order: seq<string>
    var entries: map<string, CacheEntry<V>>
    var hits: nat
    var misses: nat
    const maxsize: int
    const defaultTtl: int

    function Contents(): State<V>
      reads this
    {
      State(order, entries, hits, misses)
    }

    predicate Valid()
      reads this
    {
      WellFormed(Contents(), maxsize)
    }

    constructor(maxsize: int, defaultTtl: int)
      ensures Valid() && Contents() == Empty()
      ensures this.maxsize == maxsize && this.defaultTtl == defaultTtl
    {
      order := [];
      entries := map[];
      hits := 0;
      misses := 0;
      this.maxsize := maxsize;
      this.defaultTtl := defaultTtl;
    }

    method Get(key: string, now: int) returns (value: Option<V>)
      requires Valid()
      modifies this
      ensures Valid()
      ensures GetStep(old(Contents()), key, now) == GetResult(Contents(), value)
    {
      GetWellFormed(Contents(), maxsize, key, now);
      if key in entries {
        var entry := entries[key];
        if now > entry.expiresAt {
          entries := entries - {key};
          order := Remove(order, key);
          misses := misses + 1;
          return None;
        }
        hits := hits + 1;
        return Some(entry.data);
      }
      misses := misses + 1;
      return None;
    }

    /** `ok` is false when eviction from an empty cache fails. */
    method Set(key: string, value: V, ttl: Option<int>, now: int) returns (ok: bool)
      requires Valid()
      modifies this
      ensures Valid()
      ensures ok <==> SetStep(old(Contents()), maxsize, defaultTtl, key, value, ttl, now).Some?
      ensures ok ==> Contents() == SetStep(old(Contents()), maxsize, defaultTtl, key, value, ttl, now).value
      ensures !ok ==> Contents() == old(Contents())
    {
      ghost var s0 := Contents();
      SetWellFormed(s0, maxsize, defaultTtl, key, value, ttl, now);
      var full := |order| >= maxsize && key !in entries;
      if full {
        if order == [] {
          return false;
        }
        var oldest := order[0];
        entries := entries - {oldest};
        order := order[1..];
      }
      ghost var kept := Contents();
      var t := if ttl.Some? && ttl.value != 0 then ttl.value else defaultTtl;
      if key !in entries {
        order := order + [key];
      }
      entries := entries[key := CacheEntry(value, now + t * MicrosPerSecond)];
      ok := true;
      SetStepFrom(s0, maxsize, defaultTtl, key, value, ttl, now, kept);
    }

    method Clear()
      modifies this
      ensures Valid() && Contents() == Empty()
    {
      order := [];
      entries := map[];
      hits := 0;
      misses := 0;
    }

    /** `get_stats`, with the hit rate as a percentage before formatting. */
    method GetStats() returns (size: nat, capacity: int, hitCount: nat, missCount: nat, hitRate: real)
      requires Valid()
      ensures size == |order| <= Capacity(maxsize) && capacity == maxsize
      ensures hitCount == hits && missCount == misses
      ensures 0.0 <= hitRate <= 100.0
      ensures hits + misses == 0 ==> hitRate == 0.0
      ensures hits + misses > 0 ==> hitRate * (hits + misses) as real == 100.0 * hits as real
    {
      var total := hits + misses;
      hitRate := if total > 0 then hits as real / total as real * 100.0 else 0.0;
      size, capacity, hitCount, missCount := |order|, maxsize, hits, misses;
    }
  }
}

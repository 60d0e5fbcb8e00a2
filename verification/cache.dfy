/** The UI's time-to-live cache: a map from keys to stored data with the time of storing.
    The clock is an explicit parameter `now` (milliseconds), where the TypeScript code reads
    `Date.now()`. */
module CacheService {

  import opened Wrappers

  datatype CacheItem<T> = CacheItem(data: T, timestamp: int)

  type Cache<T> = map<string, CacheItem<T>>

  /** Five minutes. */
  const DefaultCacheDurationMs: int := 5 * 60 * 1000

  /** An entry stored at `timestamp` is still valid at `now` while it is younger than the
      time to live: one exactly `ttlMs` old has expired. */
  function IsCacheValid(now: int, timestamp: int, ttlMs: int): (valid: bool)
    ensures valid <==> now < timestamp + ttlMs
    ensures ttlMs <= 0 && now >= timestamp ==> !valid
  {
    now - timestamp < ttlMs
  }

  /** The time to live `get` uses: the argument, or the default when it is omitted. */
  function EffectiveTtl(ttlMs: Option<int>): (t: int)
    ensures ttlMs.None? ==> t == 300000
    ensures ttlMs.Some? ==> t == ttlMs.value
  {
    match ttlMs
    case None => DefaultCacheDurationMs
    case Some(t) => t
  }

  /** What `get` answers (`None` for the TypeScript `null`) and the cache it leaves. */
  datatype Lookup<T> = Lookup(value: Option<T>, cache: Cache<T>)

  /** `get(key, ttlMs)` at time `now`: a valid entry's data; otherwise nothing, and an
      expired entry is evicted. */
  function Get<T>(cache: Cache<T>, key: string, now: int, ttlMs: Option<int>): (r: Lookup<T>)
    ensures key !in cache ==> r == Lookup(None, cache)
    ensures key in cache && IsCacheValid(now, cache[key].timestamp, EffectiveTtl(ttlMs))
            ==> r == Lookup(Some(cache[key].data), cache)
    ensures key in cache && !IsCacheValid(now, cache[key].timestamp, EffectiveTtl(ttlMs))
            ==> r.value == None && r.cache == cache - {key}
  {
    if key in cache && IsCacheValid(now, cache[key].timestamp, EffectiveTtl(ttlMs)) then
      Lookup(Some(cache[key].data), cache)
    else if key in cache then
      Lookup(None, cache - {key})
    else
      Lookup(None, cache)
  }

  /** `set(key, data)` at time `now`: the key is (re)stored with the current time; every
      other entry is untouched. */
  function Set<T>(cache: Cache<T>, key: string, data: T, now: int): (c: Cache<T>)
    ensures key in c && c[key] == CacheItem(data, now)
    ensures forall k :: k != key ==> (k in c <==> k in cache)
    ensures forall k :: k != key && k in cache ==> c[k] == cache[k]
  {
    cache[key := CacheItem(data, now)]
  }

  /** What the cache means at time `now`: the data of its valid entries. */
  function Live<T>(cache: Cache<T>, now: int, ttlMs: int): map<string, T> {
    map k | k in cache && IsCacheValid(now, cache[k].timestamp, ttlMs) :: cache[k].data
  }

  /** `get` answers from the valid entries only, and its eviction is unobservable: the
      valid entries are the same before and after. */
  lemma GetAgreesWithLive<T>(cache: Cache<T>, key: string, now: int, ttlMs: Option<int>)
    ensures var live := Live(cache, now, EffectiveTtl(ttlMs));
            Get(cache, key, now, ttlMs).value == if key in live then Some(live[key]) else None
    ensures Live(Get(cache, key, now, ttlMs).cache, now, EffectiveTtl(ttlMs)) == Live(cache, now, EffectiveTtl(ttlMs))
  {
  }

  /** `set` makes the stored data valid at once (for a positive time to live) and changes
      no other valid entry. */
  lemma SetUpdatesLive<T>(cache: Cache<T>, key: string, data: T, now: int, ttlMs: int)
    requires ttlMs > 0
    ensures Live(Set(cache, key, data, now), now, ttlMs) == Live(cache, now, ttlMs)[key := data]
  {
  }

  /** After `set(key, data)` at time `t`, `get(key)` at time `t'` answers `data` exactly
      while `t' - t` is below the time to live. */
  lemma SetThenGet<T>(cache: Cache<T>, key: string, data: T, t: int, t': int, ttlMs: Option<int>)
    ensures Get(Set(cache, key, data, t), key, t', ttlMs).value
            == if t' - t < EffectiveTtl(ttlMs) then Some(data) else None
  {
  }

  /** With the default time to live, a `get` right after a `set` answers the data. */
  lemma SetThenGetDefault<T>(cache: Cache<T>, key: string, data: T, now: int)
    ensures Get(Set(cache, key, data, now), key, now, None).value == Some(data)
  {
  }

  /** `get` never adds or alters entries, and asking twice at the same instant answers the
      same and leaves the same cache. */
  lemma GetIsIdempotent<T>(cache: Cache<T>, key: string, now: int, ttlMs: Option<int>)
    ensures Get(cache, key, now, ttlMs).cache.Keys <= cache.Keys
    ensures var once := Get(cache, key, now, ttlMs);
            Get(once.cache, key, now, ttlMs) == Lookup(once.value, once.cache)
  {
  }
}

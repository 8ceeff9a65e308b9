/** The five-minute memo cache of the data utilities. The module-level `Map`
    is passed in and handed back, the clock reading is a parameter, and the
    producer is a pure function. */
module Cache {

  /** Five minutes, in milliseconds. */
  const CacheDuration := 5 * 60 * 1000

  datatype Entry<V> = Entry(data: V, timestamp: int)

  type Store<V> = map<string, Entry<V>>

  /** The value handed back, the cache afterwards, and whether the producer
      ran. */
  datatype Lookup<V> = Lookup(value: V, store: Store<V>, computed: bool)

  /** An entry is served while less than the cache duration has passed since
      it was stored; a clock that runs backwards keeps it fresh. */
  predicate Fresh<V>(store: Store<V>, key: string, now: int) {
    key in store && now - store[key].timestamp < CacheDuration
  }

  /** `getCachedData`: a fresh entry is returned as is and the cache is left
      alone; otherwise the producer runs and its value is stored under the key
      with the current time, replacing any stale entry. */
  function GetCachedData<V>(store: Store<V>, key: string, fn: () -> V, now: int): (r: Lookup<V>)
    ensures r.computed <==> !Fresh(store, key, now)
    ensures !r.computed ==> r.value == store[key].data && r.store == store
    ensures r.computed ==> r.value == fn() && r.store.Keys == store.Keys + {key}
    ensures r.computed ==> r.store[key] == Entry(r.value, now)
    ensures forall k :: k in store && k != key ==> k in r.store && r.store[k] == store[k]
  {
    if key in store && now - store[key].timestamp < CacheDuration then
      Lookup(store[key].data, store, false)
    else
      var data := fn();
      Lookup(data, store[key := Entry(data, now)], true)
  }

  /** `clearCache`. */
  function ClearCache<V>(): (r: Store<V>)
    ensures forall k :: k !in r
  {
    map[]
  }

  /** Within five minutes of a miss, the same key is a hit and yields the
      value just computed, whatever producer the second caller passes. */
  lemma HitAfterMiss<V>(store: Store<V>, key: string, fn: () -> V, now: int, later: int, other: () -> V)
    requires now <= later < now + CacheDuration
    ensures var first := GetCachedData(store, key, fn, now);
      first.computed ==>
        var second := GetCachedData(first.store, key, other, later);
        !second.computed && second.value == first.value && second.store == first.store
  {
  }

  /** From five minutes after it was stored, an entry is recomputed. */
  lemma ExpiredIsRecomputed<V>(store: Store<V>, key: string, fn: () -> V, now: int)
    requires key in store && now >= store[key].timestamp + CacheDuration
    ensures GetCachedData(store, key, fn, now).computed
    ensures GetCachedData(store, key, fn, now).value == fn()
  {
  }

  /** After clearing, every lookup runs the producer. */
  lemma ClearedMisses<V>(key: string, fn: () -> V, now: int)
    ensures GetCachedData(ClearCache<V>(), key, fn, now).computed
    ensures GetCachedData(ClearCache<V>(), key, fn, now).value == fn()
  {
  }

  /** A hit and a fresh computation agree on the value when the producer is
      the one that filled the entry: caching changes when the work is done,
      not what is returned. */
  lemma CachingIsTransparent<V>(store: Store<V>, key: string, fn: () -> V, now: int)
    requires forall k :: k in store ==> store[k].data == fn()
    ensures GetCachedData(store, key, fn, now).value == fn()
    ensures forall k :: k in GetCachedData(store, key, fn, now).store ==> GetCachedData(store, key, fn, now).store[k].data == fn()
  {
  }
}

/** The process-wide response cache of `cached` (the `CACHE` dictionary). */
module TtlCache {

  /** What the cache stores per key: when the data was fetched, and the data. */
  datatype Entry<T> = Entry(ts: int, data: T)

  /** The outcome of calling a fetcher: its data, or the exception it raised. */
  datatype Fetch<T> = Fetched(data: T) | Raised(reason: string)

  /** The freshness rule: an entry exists under `key` and is younger than `ttl` at time `now`. */
  predicate IsFresh<T>(entries: map<string, Entry<T>>, key: string, ttl: int, now: int) {
    key in entries && now - entries[key].ts < ttl
  }

  class Cache<T> {
    /** `CACHE`: key to stored entry. */
    var entries: map<string, Entry<T>>

    constructor ()
      ensures entries == map[]
    {
      entries := map[];
    }

    /** `cached(key, ttl, fetcher)` at clock time `now` (whole seconds). A fresh entry is served
        without calling the fetcher; otherwise the fetcher is called (`fetched`) and, unless it
        raised, its data is stored under `key` with time stamp `now`. Other keys never change. */
    method Cached(key: string, ttl: int, now: int, fetcher: () -> Fetch<T>) returns (r: Fetch<T>, fetched: bool)
      modifies this
      ensures fetched <==> !IsFresh(old(entries), key, ttl, now)
      ensures !fetched ==> r == Fetched(old(entries)[key].data) && entries == old(entries)
      ensures fetched ==> r == fetcher()
      ensures fetched && r.Fetched? ==> entries == old(entries)[key := Entry(now, r.data)]
      ensures fetched && r.Raised? ==> entries == old(entries)
    {
      if key in entries && now - entries[key].ts < ttl {
        return Fetched(entries[key].data), false;
      }
      r := fetcher();
      fetched := true;
      if r.Fetched? {
        entries := entries[key := Entry(now, r.data)];
      }
    }
  }

  /** Data stored at time `stored` is served from the cache for exactly the calls made before
      `stored + ttl`; a non-positive TTL never serves from the cache at or after the store. */
  lemma FreshWindow<T>(entries: map<string, Entry<T>>, key: string, d: T, stored: int, ttl: int, now: int)
    ensures IsFresh(entries[key := Entry(stored, d)], key, ttl, now) <==> now < stored + ttl
  {
  }

  /** Storing under one key does not change whether another key is fresh. */
  lemma StoreKeepsOtherKeys<T>(entries: map<string, Entry<T>>, key: string, d: T, stored: int, other: string, ttl: int, now: int)
    requires other != key
    ensures IsFresh(entries[key := Entry(stored, d)], other, ttl, now) <==> IsFresh(entries, other, ttl, now)
  {
  }
}

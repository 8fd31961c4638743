/** cache.service.ts over Redis: a key is present until its expiry. Times are milliseconds. */
module TtlCache {
  import opened Wrappers

  datatype Entry<V> = Entry(value: V, expiresAt: int)

  type Store<V> = map<string, Entry<V>>

  predicate Live<V>(store: Store<V>, key: string, now: int) {
    key in store && now < store[key].expiresAt
  }

  function Lookup<V>(store: Store<V>, key: string, now: int): Option<V> {
    if Live(store, key, now) then Some(store[key].value) else None
  }

  /** SETEX; Redis rejects a time to live that is not positive, and the service swallows the error. */
  function Stored<V>(store: Store<V>, key: string, value: V, ttlSeconds: int, now: int): Store<V> {
    if ttlSeconds <= 0 then store else store[key := Entry(value, now + 1000 * ttlSeconds)]
  }

  function Deleted<V>(store: Store<V>, key: string): Store<V> {
    map k | k in store && k != key :: store[k]
  }

  class CacheService<V> {
    var store: Store<V>

    constructor ()
      ensures store == map[]
    {
      store := map[];
    }

    method Get(key: string, now: int) returns (r: Option<V>)
      ensures r == Lookup(store, key, now)
      ensures r.Some? <==> key in store && now < store[key].expiresAt
      ensures r.Some? ==> r.value == store[key].value
    {
      if key !in store || now >= store[key].expiresAt {
        return None;
      }
      return Some(store[key].value);
    }

    method Set(key: string, value: V, ttlSeconds: int, now: int)
      modifies this
      ensures store == Stored(old(store), key, value, ttlSeconds, now)
      ensures forall k | k != key :: (k in store <==> k in old(store)) && (k in store ==> store[k] == old(store)[k])
      ensures ttlSeconds > 0 ==> key in store && store[key] == Entry(value, now + 1000 * ttlSeconds)
      ensures ttlSeconds <= 0 ==> store == old(store)
    {
      if ttlSeconds > 0 {
        store := store[key := Entry(value, now + 1000 * ttlSeconds)];
      }
    }

    method Del(key: string)
      modifies this
      ensures store == Deleted(old(store), key)
      ensures store.Keys == old(store.Keys) - {key}
      ensures forall k | k in store :: store[k] == old(store)[k]
    {
      store := map k | k in store && k != key :: store[k];
    }

    /** Present exactly when a get at the same moment would find it. */
    method Exists(key: string, now: int) returns (r: bool)
      ensures r <==> Lookup(store, key, now).Some?
    {
      r := key in store && now < store[key].expiresAt;
    }
  }
}

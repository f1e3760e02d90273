/** The public facade of the engine: the cache object together with its counters. */
module KvStore {
  import opened CacheModel
  import opened StoreModel
  import LruCache

  class KVStore {
    const lru: LruCache.Cache
    var totalRequests: nat
    var hits: nat
    var misses: nat
    var activeConnections: nat

    ghost function Abstract(): Store
      reads this, lru, lru.order
    {
      Store(lru.Abstract(), lru.bytesUsed, totalRequests, hits, misses, activeConnections)
    }

    ghost predicate Valid()
      reads this, lru, lru.order, lru.order.members, lru.order.nodes
    {
      lru.Valid()
    }

    constructor (maxKeys: nat)
      requires maxKeys > 0
      ensures Valid() && fresh(lru) && fresh(lru.order) && fresh(lru.order.members)
      ensures Abstract() == FRESH && lru.capacity == maxKeys
    {
      lru := new LruCache.Cache(maxKeys);
      totalRequests, hits, misses, activeConnections := 0, 0, 0, 0;
    }

    method Set(key: Key, value: string, ttl: Option<int>, now: Time) returns (ok: bool)
      requires Valid()
      modifies this, lru, lru.order, lru.order.members
      ensures Valid() && fresh(lru.order.members - old(lru.order.members))
      ensures ok && Abstract() == SetStore(old(Abstract()), lru.capacity, key, value, ttl, now)
    {
      totalRequests := totalRequests + 1;
      ok := lru.Set(key, value, ttl, now);
    }

    method Get(key: Key, now: Time) returns (result: Option<string>)
      requires Valid()
      modifies this, lru, lru.order, lru.order.members
      ensures Valid() && lru.order.members <= old(lru.order.members)
      ensures (Abstract(), result) == GetStore(old(Abstract()), key, now)
    {
      ghost var st := Abstract();
      totalRequests := totalRequests + 1;
      result := lru.Get(key, now);
      CountLookup(result.Some?);
      LookupIsGetStore(st, key, now, Abstract(), result);
    }

    method CountLookup(hit: bool)
      modifies `hits, `misses
      ensures hits == old(hits) + (if hit then 1 else 0) && misses == old(misses) + (if hit then 0 else 1)
    {
      if hit {
        hits := hits + 1;
      } else {
        misses := misses + 1;
      }
    }

    method Del(key: Key) returns (found: bool)
      requires Valid()
      modifies this, lru, lru.order, lru.order.members
      ensures Valid() && lru.order.members <= old(lru.order.members)
      ensures (Abstract(), found) == DelStore(old(Abstract()), key)
    {
      totalRequests := totalRequests + 1;
      found := lru.Del(key);
    }

    method EvictExpired(clock: Key -> Time)
      requires Valid()
      modifies this, lru, lru.order, lru.order.members
      ensures Valid() && lru.order.members <= old(lru.order.members)
      ensures Abstract() == WithLru(old(Abstract()), Sweep(old(lru.Abstract()), LruCache.Readings(old(lru.Abstract()), clock)))
    {
      var _ := lru.EvictExpired(clock);
    }

    method GetStats() returns (s: Stats)
      requires Valid()
      ensures s == Snapshot(Abstract())
    {
      s := Stats(totalRequests, hits, misses, lru.bytesUsed, activeConnections);
    }

    method IncrementConnections()
      modifies this`activeConnections
      ensures Abstract() == old(Abstract()).(connections := old(Abstract()).connections + 1)
    {
      activeConnections := activeConnections + 1;
    }

    method DecrementConnections()
      modifies this`activeConnections
      ensures Abstract() == old(Abstract()).(connections := Decrement(old(activeConnections)))
    {
      if activeConnections > 0 {
        activeConnections := activeConnections - 1;
      }
    }
  }
}

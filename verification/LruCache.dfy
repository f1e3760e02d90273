/** The cache engine: a doubly linked recency list and a map holding positions in that list. */
module LruCache {
  import opened Sequences
  import opened CacheModel
  import opened RecencyList

  datatype MapValue = MapValue(orderIt: Node, entry: CacheEntry)

  function Entries(index: map<Key, MapValue>): map<Key, CacheEntry> {
    map k | k in index :: index[k].entry
  }

  class Cache {
    const capacity: nat
    const order: List
    var index: map<Key, MapValue>
    var bytesUsed: nat

    ghost function Footprint(): set<object>
      reads this, order
    {
      {this, order} + order.members
    }

    /** The value this object represents. */
    ghost function Abstract(): Lru
      reads this, order
    {
      Lru(order.keys, Entries(index))
    }

    /** Every stored position is a node of the list, and the node of its own key. */
    ghost predicate Linked()
      reads this, order, order.members, order.nodes
    {
      && order.Valid()
      && forall k :: k in index ==> index[k].orderIt in order.members && index[k].orderIt.key == k
    }

    /** The list and the index agree, within capacity. */
    ghost predicate Consistent()
      reads this, order, order.members, order.nodes
    {
      capacity > 0 && Linked() && WellFormed(Abstract(), capacity)
    }

    ghost predicate Valid()
      reads this, order, order.members, order.nodes
    {
      Consistent() && bytesUsed == Bytes(Abstract().order, Abstract().entries)
    }

    constructor (capacity: nat)
      requires capacity > 0
      ensures Valid() && fresh(Footprint())
      ensures Abstract() == EMPTY && this.capacity == capacity
    {
      this.capacity := capacity;
      order := new List();
      index, bytesUsed := map[], 0;
    }

    /** Once the fields represent s, Valid() is a matter of s alone. */
    lemma Represents(s: Lru)
      requires capacity > 0 && Linked() && Abstract() == s
      requires WellFormed(s, capacity) && bytesUsed == Bytes(s.order, s.entries)
      ensures Valid()
    {
    }

    /** Splices the key's node to the front; its stored position follows. */
    method Touch(key: Key)
      requires Linked() && key in index
      modifies `index, order, order.members
      ensures Linked() && order.members == old(order.members)
      ensures order.keys == [key] + Keep(old(order.keys), Elements(old(order.keys)) - {key})
      ensures Entries(index) == Entries(old(index))
    {
      order.SpliceToFront(index[key].orderIt);
      index := index[key := MapValue(order.head, index[key].entry)];
    }

    method RemoveKey(key: Key)
      requires Linked() && key in index
      modifies `index, order, order.members
      ensures Linked() && order.members <= old(order.members)
      ensures order.keys == Keep(old(order.keys), Elements(old(order.keys)) - {key})
      ensures index.Keys == old(index.Keys) - {key} && Entries(index) == Entries(old(index)) - {key}
    {
      order.Erase(index[key].orderIt);
      index := index - {key};
    }

    /** Unlinks a key's node, forgets its entry and takes its size off the byte counter. */
    method Drop(key: Key)
      requires Valid() && key in index
      modifies this, order, order.members
      ensures Valid() && order.members <= old(order.members)
      ensures Abstract() == Without(old(Abstract()), key)
    {
      ghost var s := Abstract();
      DropEffect(s, capacity, key);
      bytesUsed := bytesUsed - (|key| + |index[key].entry.value|);
      RemoveKey(key);
      Represents(Without(s, key));
    }

    method RemoveLastKey(key: Key)
      requires Linked() && order.keys != [] && key == order.keys[|order.keys| - 1]
      modifies `index, order, order.members
      ensures Linked() && order.members <= old(order.members)
      ensures order.keys == old(order.keys)[..|old(order.keys)| - 1]
      ensures index.Keys == old(index.Keys) - {key} && Entries(index) == Entries(old(index)) - {key}
    {
      index := index - {key};
      order.PopBack();
    }

    method EvictLru()
      requires Valid()
      modifies this, order, order.members
      ensures Valid() && order.members <= old(order.members)
      ensures Abstract() == if old(order.keys) == [] then old(Abstract())
                            else Without(old(Abstract()), old(order.keys)[|old(order.keys)| - 1])
    {
      if order.head == null {
        return;
      }
      ghost var s := Abstract();
      var lruKey := order.Back();
      EvictEffect(s, capacity);
      bytesUsed := bytesUsed - (|lruKey| + |index[lruKey].entry.value|);
      RemoveLastKey(lruKey);
      Represents(Without(s, lruKey));
    }

    lemma IndexSize()
      requires Consistent()
      ensures |index| == |order.keys| && index.Keys == Abstract().entries.Keys
    {
      SizeIsOrderLength(Abstract(), capacity);
      assert Abstract().entries.Keys == index.Keys;
    }

    /** Evicts until there is room for one more key. */
    method MakeRoom()
      requires Valid()
      modifies this, order, order.members
      ensures Valid() && order.members <= old(order.members)
      ensures |order.keys| < capacity && Abstract() == MostRecent(old(Abstract()), capacity - 1)
    {
      ghost var s := Abstract();
      IndexSize();
      while |index| >= capacity
        invariant Valid() && order.members <= old(order.members)
        invariant |index| == |order.keys|
        invariant |order.keys| < capacity ==> Abstract() == MostRecent(s, capacity - 1)
        invariant |order.keys| >= capacity ==> Abstract() == s
        decreases |order.keys|
      {
        WithoutLast(s, capacity);
        EvictLru();
        IndexSize();
      }
    }

    /** std::list::push_front together with the insertion of the new position. */
    method LinkNew(key: Key, entry: CacheEntry)
      requires Linked() && key !in index && key !in order.keys
      modifies `index, order, order.members
      ensures Linked() && fresh(order.members - old(order.members))
      ensures order.keys == [key] + old(order.keys)
      ensures Entries(index) == Entries(old(index))[key := entry]
    {
      var n := order.PushFront(key);
      index := index[key := MapValue(n, entry)];
    }

    method Insert(key: Key, entry: CacheEntry)
      requires Valid() && key !in index && |order.keys| < capacity
      modifies this, order, order.members
      ensures Valid() && fresh(order.members - old(order.members))
      ensures Abstract() == AtFront(old(Abstract()), key, entry)
    {
      ghost var s := Abstract();
      AtFrontKeepsWellFormed(s, capacity, key, entry);
      BytesAtFront(s, capacity, key, entry);
      LinkNew(key, entry);
      bytesUsed := bytesUsed + (|key| + |entry.value|);
    }

    /** Stores a new entry beside the position that the key already has. */
    method Overwrite(key: Key, entry: CacheEntry)
      requires Linked() && key in index
      modifies `index
      ensures Linked() && key in index
      ensures Entries(index) == Entries(old(index))[key := entry]
    {
      index := index[key := index[key].(entry := entry)];
    }

    /** Overwrites the entry of a resident key and moves the key to the front. */
    method Update(key: Key, entry: CacheEntry)
      requires Valid() && key in index
      modifies this, order, order.members
      ensures Valid() && order.members == old(order.members)
      ensures Abstract() == AtFront(old(Abstract()), key, entry)
    {
      ghost var s := Abstract();
      UpdateEffect(s, capacity, key, entry);
      bytesUsed := bytesUsed - (|key| + |index[key].entry.value|);
      Overwrite(key, entry);
      bytesUsed := bytesUsed + (|key| + |entry.value|);
      Touch(key);
      Represents(AtFront(s, key, entry));
    }

    method Promote(key: Key)
      requires Valid() && key in index
      modifies this, order, order.members
      ensures Valid() && order.members == old(order.members)
      ensures Abstract() == AtFront(old(Abstract()), key, old(index[key].entry))
    {
      ghost var s := Abstract();
      UpdateEffect(s, capacity, key, index[key].entry);
      Touch(key);
      Represents(AtFront(s, key, s.entries[key]));
    }

    method Set(key: Key, value: string, ttl: Option<int>, now: Time) returns (ok: bool)
      requires Valid()
      modifies this, order, order.members
      ensures Valid() && fresh(order.members - old(order.members))
      ensures ok && Abstract() == CacheModel.Set(old(Abstract()), capacity, key, value, ttl, now)
    {
      var entry := CacheEntry(value, ExpiresAt(ttl, now));
      if key in index {
        Update(key, entry);
      } else {
        MakeRoom();
        IndexSize();
        Insert(key, entry);
      }
      return true;
    }

    method Get(key: Key, now: Time) returns (result: Option<string>)
      requires Valid()
      modifies this, order, order.members
      ensures Valid() && order.members <= old(order.members)
      ensures (Abstract(), result) == CacheModel.Get(old(Abstract()), key, now)
    {
      if key !in index {
        return None;
      }
      var entry := index[key].entry;
      if entry.IsExpired(now) {
        Drop(key);
        return None;
      }
      Promote(key);
      return Some(entry.value);
    }

    method Del(key: Key) returns (found: bool)
      requires Valid()
      modifies this, order, order.members
      ensures Valid() && order.members <= old(order.members)
      ensures (Abstract(), found) == CacheModel.Del(old(Abstract()), key)
    {
      if key !in index {
        return false;
      }
      Drop(key);
      return true;
    }

    /** Visits one key of a sweep that has visited the keys of `at` so far. */
    method SweepKey(key: Key, now: Time, ghost s: Lru, ghost at: map<Key, Time>) returns (removed: bool)
      requires Valid() && Abstract() == Sweep(s, at)
      requires key in s.entries && key !in at
      modifies this, order, order.members
      ensures Valid() && order.members <= old(order.members)
      ensures Abstract() == Sweep(s, at[key := now])
      ensures |Expired(s, at[key := now])| == |Expired(s, at)| + if removed then 1 else 0
    {
      SweepOneMore(s, at, key, now);
      removed := index[key].entry.IsExpired(now);
      if removed {
        Drop(key);
      }
    }

    /**
     * Visits the keys in an arbitrary hash order, reading the clock anew for each one: clock(k) is
     * the reading made when the sweep reaches k.
     */
    method EvictExpired(clock: Key -> Time) returns (count: nat)
      requires Valid()
      modifies this, order, order.members
      ensures Valid() && order.members <= old(order.members)
      ensures Abstract() == Sweep(old(Abstract()), Readings(old(Abstract()), clock))
      ensures count == |Expired(old(Abstract()), Readings(old(Abstract()), clock))|
    {
      ghost var s, at := Abstract(), map[];
      SweepNothing(s, capacity);
      var pending := index.Keys;
      count := 0;
      while pending != {}
        invariant Valid() && order.members <= old(order.members)
        invariant Visited(s, at, pending, clock)
        invariant Abstract() == Sweep(s, at) && count == |Expired(s, at)|
        decreases pending
      {
        var key :| key in pending;
        var removed := SweepKey(key, clock(key), s, at);
        if removed {
          count := count + 1;
        }
        VisitOneMore(s, at, pending, clock, key);
        pending, at := pending - {key}, at[key := clock(key)];
      }
      AllVisited(s, at, clock);
    }

    /** The live entries in an arbitrary hash order; clock(k) is the reading made for k. */
    method AllEntries(clock: Key -> Time) returns (result: seq<(Key, CacheEntry)>)
      requires Valid()
      ensures Lists(result, Live(Abstract(), Readings(Abstract(), clock)))
    {
      ghost var s, at := Abstract(), map[];
      result := [];
      var pending := index.Keys;
      while pending != {}
        invariant Visited(s, at, pending, clock)
        invariant Lists(result, Live(s, at))
        decreases pending
      {
        var key :| key in pending;
        ListOneMore(result, s, at, key, clock(key));
        if !index[key].entry.IsExpired(clock(key)) {
          result := result + [(key, index[key].entry)];
        }
        VisitOneMore(s, at, pending, clock, key);
        pending, at := pending - {key}, at[key := clock(key)];
      }
      AllVisited(s, at, clock);
    }
  }

  /** A cache without room for a single key is refused. */
  method Make(capacity: nat) returns (cache: Option<Cache>)
    ensures cache.None? <==> capacity == 0
    ensures cache.Some? ==>
      cache.value.Valid() && fresh(cache.value.Footprint()) && cache.value.Abstract() == EMPTY
      && cache.value.capacity == capacity
  {
    if capacity == 0 {
      return None;
    }
    var c := new Cache(capacity);
    return Some(c);
  }

  /** The clock readings of an iteration over all resident keys. */
  ghost function Readings(s: Lru, clock: Key -> Time): (r: map<Key, Time>)
    ensures r.Keys == s.entries.Keys && forall k :: k in r ==> r[k] == clock(k)
  {
    map k | k in s.entries :: clock(k)
  }

  /** An iteration has visited the keys of `at` and has the pending ones ahead of it. */
  ghost predicate Visited(s: Lru, at: map<Key, Time>, pending: set<Key>, clock: Key -> Time) {
    && pending !! at.Keys
    && pending + at.Keys == s.entries.Keys
    && forall k :: k in at ==> at[k] == clock(k)
  }

  lemma VisitOneMore(s: Lru, at: map<Key, Time>, pending: set<Key>, clock: Key -> Time, key: Key)
    requires Visited(s, at, pending, clock) && key in pending
    ensures Visited(s, at[key := clock(key)], pending - {key}, clock)
  {
  }

  lemma AllVisited(s: Lru, at: map<Key, Time>, clock: Key -> Time)
    requires Visited(s, at, {}, clock)
    ensures at == Readings(s, clock)
  {
  }
}

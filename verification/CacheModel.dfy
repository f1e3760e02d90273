/**
 * The cache as a mathematical value: the recency order, front first, and the entry of each
 * resident key.  Every operation takes the clock readings it makes as arguments.
 */
module CacheModel {
  import opened Sequences

  datatype Option<+T> = None | Some(value: T)

  type Key = string

  /** A steady-clock reading, in nanoseconds. */
  type Time = int

  const INT64_MIN := -0x8000_0000_0000_0000
  const INT64_MAX := 0x7fff_ffff_ffff_ffff

  predicate Fits64(n: int) {
    INT64_MIN <= n <= INT64_MAX
  }

  /** What 64-bit arithmetic makes of n when it wraps around. */
  function Wrap64(n: int): (r: int)
    ensures Fits64(r) && (Fits64(n) ==> r == n)
  {
    (n + 0x8000_0000_0000_0000) % 0x1_0000_0000_0000_0000 - 0x8000_0000_0000_0000
  }

  const NANOS_PER_SECOND := 1_000_000_000

  datatype CacheEntry = CacheEntry(value: string, expiresAt: Option<Time>) {
    predicate IsExpired(now: Time) {
      expiresAt.Some? && now >= expiresAt.value
    }

    /** Whole seconds left, never negative; None when the entry has no TTL. */
    function TtlRemaining(now: Time): (r: Option<nat>)
    {
      if expiresAt.None? then None
      else
        // A duration cast truncates towards zero, and everything up to zero is reported as 0.
        var left := Wrap64(expiresAt.value - now);
        Some(if left > 0 then left / NANOS_PER_SECOND else 0)
    }
  }

  /**
   * When an entry written at `now` with this TTL in seconds expires.  The TTL is converted to 64-bit
   * nanoseconds and added to the clock reading; both may overflow, which is taken to wrap around.
   */
  function ExpiresAt(ttl: Option<int>, now: Time): Option<Time> {
    if ttl.None? then None else Some(Wrap64(now + ttl.value * NANOS_PER_SECOND))
  }

  /** Every stored expiry is a 64-bit number. */
  ghost predicate StampsFit(s: Lru) {
    forall k :: k in s.entries && s.entries[k].expiresAt.Some? ==> Fits64(s.entries[k].expiresAt.value)
  }

  /** Neither the conversion of the TTL nor the addition overflows. */
  predicate Representable(ttl: Option<int>, now: Time) {
    ttl.Some? ==> Fits64(ttl.value * NANOS_PER_SECOND) && Fits64(now + ttl.value * NANOS_PER_SECOND)
  }

  /** Without overflow an entry expires exactly when its TTL has run out. */
  lemma RepresentableExpiry(value: string, ttl: Option<int>, now: Time, later: Time)
    requires Representable(ttl, now)
    ensures CacheEntry(value, ExpiresAt(ttl, now)).IsExpired(later)
       <==> ttl.Some? && later >= now + ttl.value * 1_000_000_000
  {
  }

  /**
   * The TTL is honoured, at all clock readings from the writing on, exactly when the expiry fits
   * into 64 bits, or is a past one that wraps around to another past one.
   */
  lemma TtlIsHonoured(value: string, ttl: int, now: Time)
    requires Fits64(now)
    ensures (forall later :: now <= later <= INT64_MAX ==>
               (CacheEntry(value, ExpiresAt(Some(ttl), now)).IsExpired(later) <==> later >= now + ttl * 1_000_000_000))
       <==> Fits64(now + ttl * 1_000_000_000) || (ttl < 0 && Wrap64(now + ttl * 1_000_000_000) <= now)
  {
    var entry := CacheEntry(value, ExpiresAt(Some(ttl), now));
    if !Fits64(now + ttl * NANOS_PER_SECOND) {
      assert entry.IsExpired(INT64_MAX);
      assert entry.IsExpired(now) <==> Wrap64(now + ttl * NANOS_PER_SECOND) <= now;
    }
  }

  datatype Lru = Lru(order: seq<Key>, entries: map<Key, CacheEntry>)

  const EMPTY := Lru([], map[])

  /** What every operation keeps: a duplicate-free order of exactly the resident keys, within capacity. */
  ghost predicate WellFormed(s: Lru, capacity: nat) {
    && NoDup(s.order)
    && (forall k :: k in s.order <==> k in s.entries)
    && |s.order| <= capacity
  }

  /** s with only the keys in ks, in the same relative order. */
  function Only(s: Lru, ks: set<Key>): Lru {
    Lru(Keep(s.order, ks), map k | k in s.entries && k in ks :: s.entries[k])
  }

  function Without(s: Lru, key: Key): Lru {
    Only(s, s.entries.Keys - {key})
  }

  /** The n most recently used keys of s. */
  function MostRecent(s: Lru, n: nat): Lru {
    if |s.order| <= n then s
    else Lru(s.order[..n], map k | k in s.entries && k in s.order[..n] :: s.entries[k])
  }

  /** s with key at the front, holding entry. */
  function AtFront(s: Lru, key: Key, entry: CacheEntry): Lru {
    Lru([key] + Keep(s.order, s.entries.Keys - {key}), s.entries[key := entry])
  }

  function Set(s: Lru, capacity: nat, key: Key, value: string, ttl: Option<int>, now: Time): Lru
    requires capacity > 0
  {
    var entry := CacheEntry(value, ExpiresAt(ttl, now));
    AtFront(if key in s.entries then s else MostRecent(s, capacity - 1), key, entry)
  }

  function Get(s: Lru, key: Key, now: Time): (Lru, Option<string>) {
    if key !in s.entries then (s, None)
    else if s.entries[key].IsExpired(now) then (Without(s, key), None)
    else (AtFront(s, key, s.entries[key]), Some(s.entries[key].value))
  }

  function Del(s: Lru, key: Key): (Lru, bool) {
    if key !in s.entries then (s, false) else (Without(s, key), true)
  }

  /** The keys that a sweep reading the clock at times `at` finds expired. */
  function Expired(s: Lru, at: map<Key, Time>): set<Key> {
    set k | k in s.entries && k in at && s.entries[k].IsExpired(at[k])
  }

  /** A sweep that visits the keys of `at`, each at its own clock reading. */
  function Sweep(s: Lru, at: map<Key, Time>): Lru {
    Only(s, s.entries.Keys - Expired(s, at))
  }

  /** The entries a listing shows, when it examines each key of `at` at its own clock reading. */
  function Live(s: Lru, at: map<Key, Time>): map<Key, CacheEntry> {
    map k | k in s.entries && k in at && !s.entries[k].IsExpired(at[k]) :: s.entries[k]
  }

  /** A listing shows each of these entries exactly once, in some order. */
  ghost predicate Lists(listing: seq<(Key, CacheEntry)>, live: map<Key, CacheEntry>) {
    && (forall i, j :: 0 <= i < j < |listing| ==> listing[i].0 != listing[j].0)
    && (forall i :: 0 <= i < |listing| ==> listing[i].0 in live && live[listing[i].0] == listing[i].1)
    && (forall k :: k in live ==> (k, live[k]) in listing)
  }

  function Size(key: Key, entry: CacheEntry): nat {
    |key| + |entry.value|
  }

  function SizeAt(entries: map<Key, CacheEntry>, key: Key): nat {
    if key in entries then Size(key, entries[key]) else 0
  }

  /** Key plus value length, summed along an order. */
  function Bytes(order: seq<Key>, entries: map<Key, CacheEntry>): nat {
    if order == [] then 0 else SizeAt(entries, order[0]) + Bytes(order[1..], entries)
  }

  /** The size of all resident entries. */
  function TotalBytes(s: Lru): nat {
    Bytes(s.order, s.entries)
  }

  // ---- What the operations keep -------------------------------------------------------------

  lemma OnlyKeepsWellFormed(s: Lru, capacity: nat, ks: set<Key>)
    requires WellFormed(s, capacity)
    ensures WellFormed(Only(s, ks), capacity)
  {
    KeepNoDup(s.order, ks);
  }

  lemma OnlyAll(s: Lru, capacity: nat, ks: set<Key>)
    requires WellFormed(s, capacity) && s.entries.Keys <= ks
    ensures Only(s, ks) == s
  {
    KeepAll(s.order, ks);
  }

  lemma PrefixIsOnly(s: Lru, capacity: nat, n: nat)
    requires WellFormed(s, capacity) && n < |s.order|
    ensures MostRecent(s, n) == Only(s, Elements(s.order[..n]))
    ensures MostRecent(s, n).entries.Keys == Elements(s.order[..n]) <= s.entries.Keys
  {
    PrefixIsKeep(s.order, n);
    forall k | k in s.order[..n]
      ensures k in s.entries
    {
      assert k in s.order;
    }
  }

  lemma MostRecentIsOnly(s: Lru, capacity: nat, n: nat)
    requires WellFormed(s, capacity)
    ensures MostRecent(s, n) == Only(s, MostRecent(s, n).entries.Keys)
    ensures WellFormed(MostRecent(s, n), capacity) && |MostRecent(s, n).order| <= n
    ensures MostRecent(s, n).entries.Keys <= s.entries.Keys
  {
    if n < |s.order| {
      PrefixIsOnly(s, capacity, n);
      OnlyKeepsWellFormed(s, capacity, Elements(s.order[..n]));
    } else {
      OnlyAll(s, capacity, s.entries.Keys);
    }
  }

  lemma AtFrontKeepsWellFormed(s: Lru, capacity: nat, key: Key, entry: CacheEntry)
    requires WellFormed(s, capacity)
    requires key in s.entries || |s.order| < capacity
    ensures WellFormed(AtFront(s, key, entry), capacity)
    ensures key !in s.entries ==> AtFront(s, key, entry).order == [key] + s.order
    ensures |AtFront(s, key, entry).order| == |s.order| + if key in s.entries then 0 else 1
  {
    KeepNoDup(s.order, s.entries.Keys - {key});
    if key in s.entries {
      var i :| 0 <= i < |s.order| && s.order[i] == key;
      RemoveIsKeep(s.order, i, s.entries.Keys - {key});
    } else {
      KeepAll(s.order, s.entries.Keys - {key});
    }
  }

  /** Overwriting the entry first and moving the key afterwards makes no difference. */
  lemma UpdateThenFront(s: Lru, key: Key, entry: CacheEntry)
    requires key in s.entries
    ensures AtFront(Lru(s.order, s.entries[key := entry]), key, entry) == AtFront(s, key, entry)
  {
    assert s.entries[key := entry].Keys == s.entries.Keys;
  }

  lemma SetKeepsWellFormed(s: Lru, capacity: nat, key: Key, value: string, ttl: Option<int>, now: Time)
    requires capacity > 0 && WellFormed(s, capacity)
    ensures WellFormed(Set(s, capacity, key, value, ttl, now), capacity)
  {
    MostRecentIsOnly(s, capacity, capacity - 1);
    AtFrontKeepsWellFormed(if key in s.entries then s else MostRecent(s, capacity - 1), capacity, key,
                           CacheEntry(value, ExpiresAt(ttl, now)));
  }

  lemma GetKeepsWellFormed(s: Lru, capacity: nat, key: Key, now: Time)
    requires WellFormed(s, capacity)
    ensures WellFormed(Get(s, key, now).0, capacity)
  {
    if key in s.entries {
      OnlyKeepsWellFormed(s, capacity, s.entries.Keys - {key});
      AtFrontKeepsWellFormed(s, capacity, key, s.entries[key]);
    }
  }

  /**
   * A GET finds a key that is resident and either never expires or has not yet expired, and then only
   * moves it to the front.  It finds no other key, and removes this one if it is there.
   */
  lemma GetAlone(s: Lru, capacity: nat, key: Key, now: Time)
    requires WellFormed(s, capacity)
    ensures var (r, value) := Get(s, key, now);
      if key in s.entries && (s.entries[key].expiresAt.None? || now < s.entries[key].expiresAt.value)
      then value == Some(s.entries[key].value) && r.entries == s.entries
           && r.order != [] && r.order[0] == key && r.order[1..] == Keep(s.order, s.entries.Keys - {key})
      else value == None && r.entries == s.entries - {key} && r.order == Keep(s.order, s.entries.Keys - {key})
  {
    if key !in s.entries {
      KeepAll(s.order, s.entries.Keys - {key});
    }
  }

  lemma ElementsAreKeys(s: Lru, capacity: nat)
    requires WellFormed(s, capacity)
    ensures Elements(s.order) == s.entries.Keys
  {
  }

  /** Dropping the last key leaves the most recent others. */
  lemma WithoutLast(s: Lru, capacity: nat)
    requires WellFormed(s, capacity) && s.order != []
    ensures Without(s, s.order[|s.order| - 1]) == MostRecent(s, |s.order| - 1)
  {
    var i := |s.order| - 1;
    RemoveIsKeep(s.order, i, s.entries.Keys - {s.order[i]});
    ElementsAreKeys(s, capacity);
    assert s.order[..i] + s.order[i + 1..] == s.order[..i];
    MostRecentIsOnly(s, capacity, i);
  }

  lemma SizeIsOrderLength(s: Lru, capacity: nat)
    requires WellFormed(s, capacity)
    ensures |s.entries| == |s.entries.Keys| == |s.order|
  {
    NoDupSize(s.order);
    assert Elements(s.order) == s.entries.Keys;
  }

  lemma OnlyOnly(s: Lru, ks: set<Key>, ms: set<Key>)
    ensures Only(Only(s, ks), ms) == Only(s, ks * ms)
  {
    KeepKeep(s.order, ks, ms);
  }

  lemma SweepNothing(s: Lru, capacity: nat)
    requires WellFormed(s, capacity)
    ensures Sweep(s, map[]) == s && Expired(s, map[]) == {}
  {
    OnlyAll(s, capacity, s.entries.Keys - Expired(s, map[]));
  }

  /** A sweep may take its keys one at a time. */
  lemma SweepOneMore(s: Lru, at: map<Key, Time>, key: Key, now: Time)
    requires key in s.entries && key !in at
    ensures key in Sweep(s, at).entries && Sweep(s, at).entries[key] == s.entries[key]
    ensures Sweep(s, at[key := now])
         == if s.entries[key].IsExpired(now) then Without(Sweep(s, at), key) else Sweep(s, at)
    ensures |Expired(s, at[key := now])| == |Expired(s, at)| + if s.entries[key].IsExpired(now) then 1 else 0
  {
    var keep := s.entries.Keys - Expired(s, at);
    if s.entries[key].IsExpired(now) {
      assert Expired(s, at[key := now]) == Expired(s, at) + {key};
      assert Sweep(s, at).entries.Keys == keep;
      OnlyOnly(s, keep, keep - {key});
      assert keep * (keep - {key}) == s.entries.Keys - Expired(s, at[key := now]);
    } else {
      assert Expired(s, at[key := now]) == Expired(s, at);
    }
  }

  /** A listing may examine its keys one at a time. */
  lemma ListOneMore(listing: seq<(Key, CacheEntry)>, s: Lru, at: map<Key, Time>, key: Key, now: Time)
    requires Lists(listing, Live(s, at))
    requires key in s.entries && key !in at
    ensures Lists(if s.entries[key].IsExpired(now) then listing else listing + [(key, s.entries[key])],
                  Live(s, at[key := now]))
  {
    var e := s.entries[key];
    if e.IsExpired(now) {
      assert Live(s, at[key := now]) == Live(s, at);
    } else {
      assert Live(s, at[key := now]) == Live(s, at)[key := e];
      assert (listing + [(key, e)])[|listing|] == (key, e);
      forall k | k in Live(s, at)
        ensures (k, Live(s, at)[k]) in listing + [(key, e)]
      {
        assert (k, Live(s, at)[k]) in listing;
      }
    }
  }

  // ---- Byte accounting ----------------------------------------------------------------------

  lemma {:induction false} BytesAgree(order: seq<Key>, a: map<Key, CacheEntry>, b: map<Key, CacheEntry>)
    requires forall k :: k in order ==> k in a && k in b && a[k] == b[k]
    ensures Bytes(order, a) == Bytes(order, b)
  {
    if order != [] {
      assert order[0] in order;
      assert forall k :: k in order[1..] ==> k in order;
      BytesAgree(order[1..], a, b);
    }
  }

  lemma {:induction false} BytesConcat(x: seq<Key>, y: seq<Key>, entries: map<Key, CacheEntry>)
    ensures Bytes(x + y, entries) == Bytes(x, entries) + Bytes(y, entries)
  {
    if x == [] {
      assert x + y == y;
    } else {
      assert (x + y)[1..] == x[1..] + y;
      BytesConcat(x[1..], y, entries);
    }
  }

  /** Removing one key takes exactly its own size off the total, so the subtraction cannot underflow. */
  lemma BytesWithout(s: Lru, capacity: nat, key: Key)
    requires WellFormed(s, capacity) && key in s.entries
    ensures WellFormed(Without(s, key), capacity)
    ensures Bytes(Without(s, key).order, Without(s, key).entries)
         == Bytes(s.order, s.entries) - (|key| + |s.entries[key].value|)
  {
    var i :| 0 <= i < |s.order| && s.order[i] == key;
    var x, y := s.order[..i], s.order[i + 1..];
    assert s.order == x + ([key] + y);
    BytesConcat(x, [key] + y, s.entries);
    BytesConcat([key], y, s.entries);
    BytesConcat(x, y, s.entries);
    OnlyKeepsWellFormed(s, capacity, s.entries.Keys - {key});
    RemoveIsKeep(s.order, i, s.entries.Keys - {key});
    BytesAgree(x + y, s.entries, Without(s, key).entries);
  }

  /** Writing a key at the front replaces its old size, if any, by the new one. */
  lemma BytesAtFront(s: Lru, capacity: nat, key: Key, entry: CacheEntry)
    requires WellFormed(s, capacity)
    requires key in s.entries || |s.order| < capacity
    ensures var r := AtFront(s, key, entry);
      && Bytes(r.order, r.entries) == Bytes(s.order, s.entries) + (|key| + |entry.value|)
                                      - if key in s.entries then |key| + |s.entries[key].value| else 0
  {
    var r := AtFront(s, key, entry);
    AtFrontKeepsWellFormed(s, capacity, key, entry);
    var rest := Keep(s.order, s.entries.Keys - {key});
    assert r.order[1..] == rest;
    if key in s.entries {
      BytesWithout(s, capacity, key);
      BytesAgree(rest, r.entries, Without(s, key).entries);
    } else {
      BytesAgree(rest, r.entries, s.entries);
    }
  }

  // ---- What each primitive step of the cache object amounts to ---------------------------------

  /** Unlinking a resident key. */
  lemma DropEffect(s: Lru, capacity: nat, key: Key)
    requires WellFormed(s, capacity) && key in s.entries
    ensures var r := Without(s, key);
      && WellFormed(r, capacity)
      && Bytes(r.order, r.entries) == Bytes(s.order, s.entries) - Size(key, s.entries[key])
      && r == Lru(Keep(s.order, Elements(s.order) - {key}), s.entries - {key})
  {
    BytesWithout(s, capacity, key);
    ElementsAreKeys(s, capacity);
  }

  /** Unlinking the last key. */
  lemma EvictEffect(s: Lru, capacity: nat)
    requires WellFormed(s, capacity) && s.order != []
    ensures var key := s.order[|s.order| - 1];
      var r := Without(s, key);
      && key in s.entries
      && WellFormed(r, capacity)
      && Bytes(r.order, r.entries) == Bytes(s.order, s.entries) - Size(key, s.entries[key])
      && r == Lru(s.order[..|s.order| - 1], s.entries - {key})
  {
    DropEffect(s, capacity, s.order[|s.order| - 1]);
    WithoutLast(s, capacity);
  }

  /** Overwriting the entry of a resident key and moving the key to the front. */
  lemma UpdateEffect(s: Lru, capacity: nat, key: Key, entry: CacheEntry)
    requires WellFormed(s, capacity) && key in s.entries
    ensures var r := AtFront(s, key, entry);
      && WellFormed(r, capacity)
      && Bytes(s.order, s.entries) >= Size(key, s.entries[key])
      && Bytes(r.order, r.entries) == Bytes(s.order, s.entries) - Size(key, s.entries[key]) + Size(key, entry)
      && r == Lru([key] + Keep(s.order, Elements(s.order) - {key}), s.entries[key := entry])
  {
    BytesAtFront(s, capacity, key, entry);
    BytesWithout(s, capacity, key);
    AtFrontKeepsWellFormed(s, capacity, key, entry);
    ElementsAreKeys(s, capacity);
  }
}

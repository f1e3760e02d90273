/**
 * What a sweep does, and who can tell that it happened: until the next SET, no GET and no listing,
 * but a DEL, and the byte counter.
 */
module SweepTransparency {
  import opened Sequences
  import opened CacheModel
  import opened Runs
  import opened Inclusion

  lemma SweepSize(s: Lru, capacity: nat, at: map<Key, Time>)
    requires WellFormed(s, capacity)
    ensures |Expired(s, at)| == |s.order| - |Sweep(s, at).order|
  {
    OnlyKeepsWellFormed(s, capacity, s.entries.Keys - Expired(s, at));
    SizeIsOrderLength(s, capacity);
    SizeIsOrderLength(Sweep(s, at), capacity);
    assert Sweep(s, at).entries.Keys == s.entries.Keys - Expired(s, at);
    SubsetSize(Expired(s, at), s.entries.Keys);
  }

  /**
   * A sweep that visits every key removes exactly the keys expired at their own reading, keeps the
   * others' entries and relative order, and its count is the number of keys that went.
   */
  lemma SweepRemovesExactlyTheExpired(s: Lru, capacity: nat, at: map<Key, Time>)
    requires WellFormed(s, capacity) && s.entries.Keys <= at.Keys
    ensures var r := Sweep(s, at);
      && (forall k :: k in r.entries <==> k in s.entries && !s.entries[k].IsExpired(at[k]))
      && (forall k :: k in r.entries ==> r.entries[k] == s.entries[k])
      && r.order == Keep(s.order, r.entries.Keys)
      && |Expired(s, at)| == |s.order| - |r.order|
  {
    SweepSize(s, capacity, at);
    assert Sweep(s, at).entries.Keys == s.entries.Keys - Expired(s, at);
  }

  /** The entries that are alive at time t. */
  function AliveAt(s: Lru, t: Time): map<Key, CacheEntry> {
    map k | k in s.entries && !s.entries[k].IsExpired(t) :: s.entries[k]
  }

  /** Every clock reading of op was made at t or later, and op is not a SET. */
  ghost predicate LooksFrom(op: Op, t: Time) {
    match op
    case SetOp(_, _, _, _) => false
    case GetOp(_, now) => t <= now
    case DelOp(_) => true
    case SweepOp(at) => forall k :: k in at ==> t <= at[k]
    case ListOp(at) => forall k :: k in at ==> t <= at[k]
  }

  ghost predicate LooksAtAll(ops: seq<Op>, t: Time) {
    forall i :: 0 <= i < |ops| ==> LooksFrom(ops[i], t)
  }

  /** A sweep whose readings are no later than t removes nothing that is alive at t. */
  lemma SweepKeepsAlive(s: Lru, at: map<Key, Time>, t: Time)
    requires forall k :: k in at ==> at[k] <= t
    ensures AliveAt(Sweep(s, at), t) == AliveAt(s, t)
  {
  }

  lemma StepKeepsAlike(a: Lru, b: Lru, capacity: nat, op: Op, t: Time)
    requires capacity > 0 && AliveAt(a, t) == AliveAt(b, t) && LooksFrom(op, t)
    ensures AliveAt(Step(a, capacity, op).0, t) == AliveAt(Step(b, capacity, op).0, t)
  {
    AliveAfter(a, capacity, op, t);
    AliveAfter(b, capacity, op, t);
  }

  /** What is alive after a step depends only on what was alive before it. */
  function AliveNext(alive: map<Key, CacheEntry>, op: Op): map<Key, CacheEntry> {
    match op
    case GetOp(k, now) => if k in alive && alive[k].IsExpired(now) then alive - {k} else alive
    case DelOp(k) => alive - {k}
    case SweepOp(at) => map k | k in alive && !(k in at && alive[k].IsExpired(at[k])) :: alive[k]
    case _ => alive
  }

  lemma AliveAfter(s: Lru, capacity: nat, op: Op, t: Time)
    requires capacity > 0 && LooksFrom(op, t)
    ensures AliveAt(Step(s, capacity, op).0, t) == AliveNext(AliveAt(s, t), op)
  {
    var alive := AliveAt(s, t);
    var r := AliveAt(Step(s, capacity, op).0, t);
    forall k
      ensures k in r <==> k in AliveNext(alive, op)
      ensures k in r ==> r[k] == AliveNext(alive, op)[k]
    {
    }
  }

  lemma {:induction false} RunKeepsAlike(a: Lru, b: Lru, capacity: nat, ops: seq<Op>, t: Time)
    requires capacity > 0 && AliveAt(a, t) == AliveAt(b, t)
    requires LooksAtAll(ops, t)
    ensures AliveAt(Run(a, capacity, ops), t) == AliveAt(Run(b, capacity, ops), t)
  {
    if ops != [] {
      var n := |ops| - 1;
      RunKeepsAlike(a, b, capacity, ops[..n], t);
      StepKeepsAlike(Run(a, capacity, ops[..n]), Run(b, capacity, ops[..n]), capacity, ops[n], t);
    }
  }

  /** Caches with the same living entries answer a GET or a listing alike. */
  lemma SameAnswers(a: Lru, b: Lru, capacity: nat, op: Op, t: Time)
    requires capacity > 0 && AliveAt(a, t) == AliveAt(b, t) && LooksFrom(op, t)
    requires op.GetOp? || op.ListOp?
    ensures Step(a, capacity, op).1 == Step(b, capacity, op).1
  {
    assert forall s: Lru, k :: k in AliveAt(s, t) ==> k in s.entries;
    if op.GetOp? {
      assert op.key in AliveAt(a, t) <==> op.key in AliveAt(b, t);
    } else {
      assert Live(a, op.at) == Live(b, op.at) by {
        forall k | k in Live(a, op.at) || k in Live(b, op.at)
          ensures k in Live(a, op.at) && k in Live(b, op.at) && Live(a, op.at)[k] == Live(b, op.at)[k]
        {
          assert k in AliveAt(a, t) || k in AliveAt(b, t);
        }
      }
    }
  }

  // ---- Until the next SET --------------------------------------------------------------------------

  /** The operation removes a resident key that holds this entry. */
  predicate Removes(op: Op, key: Key, entry: CacheEntry) {
    match op
    case GetOp(k, now) => k == key && entry.IsExpired(now)
    case DelOp(k) => k == key
    case SweepOp(at) => key in at && entry.IsExpired(at[key])
    case _ => false
  }

  /** Without a SET, a key stays, with its entry, unless an operation removes it. */
  lemma StepResidents(s: Lru, capacity: nat, op: Op, key: Key)
    requires capacity > 0 && !op.SetOp?
    ensures var r := Step(s, capacity, op).0;
      && (key in r.entries <==> key in s.entries && !Removes(op, key, s.entries[key]))
      && (key in r.entries ==> r.entries[key] == s.entries[key])
  {
  }

  lemma {:induction false} RunResidents(s: Lru, capacity: nat, ops: seq<Op>, key: Key)
    requires capacity > 0 && forall i :: 0 <= i < |ops| ==> !ops[i].SetOp?
    ensures var r := Run(s, capacity, ops);
      && (key in r.entries <==>
            key in s.entries && forall i :: 0 <= i < |ops| ==> !Removes(ops[i], key, s.entries[key]))
      && (key in r.entries ==> r.entries[key] == s.entries[key])
  {
    if ops != [] {
      var n := |ops| - 1;
      RunResidents(s, capacity, ops[..n], key);
      StepResidents(Run(s, capacity, ops[..n]), capacity, ops[n], key);
      assert forall i :: 0 <= i < n ==> ops[..n][i] == ops[i];
    }
  }

  /** The operation is a GET or a DEL of the key, or a sweep that comes to it. */
  predicate Visits(op: Op, key: Key) {
    match op
    case GetOp(k, _) => k == key
    case DelOp(k) => k == key
    case SweepOp(at) => key in at
    case _ => false
  }

  /** The expired keys that a sweep found and that no operation since has come to. */
  function Unnoticed(s: Lru, at: map<Key, Time>, ops: seq<Op>): set<Key> {
    set k | k in Expired(s, at) && forall i :: 0 <= i < |ops| ==> !Visits(ops[i], k)
  }

  /** A run without SET leaves the unswept cache with just those keys more than the swept one. */
  lemma LeftOver(s: Lru, capacity: nat, at: map<Key, Time>, t: Time, ops: seq<Op>)
    requires capacity > 0
    requires forall k :: k in at ==> at[k] <= t
    requires LooksAtAll(ops, t)
    ensures var a, b := Run(s, capacity, ops), Run(Sweep(s, at), capacity, ops);
      && b.entries.Keys == a.entries.Keys - Unnoticed(s, at, ops)
      && Unnoticed(s, at, ops) <= a.entries.Keys
  {
    var a, b := Run(s, capacity, ops), Run(Sweep(s, at), capacity, ops);
    forall k
      ensures k in b.entries <==> k in a.entries && k !in Unnoticed(s, at, ops)
      ensures k in Unnoticed(s, at, ops) ==> k in a.entries
    {
      RunResidents(s, capacity, ops, k);
      RunResidents(Sweep(s, at), capacity, ops, k);
      if k in Expired(s, at) {
        forall i | 0 <= i < |ops|
          ensures Removes(ops[i], k, s.entries[k]) <==> Visits(ops[i], k)
        {
          assert LooksFrom(ops[i], t);
        }
      }
    }
  }

  /**
   * Sweep transparency.  Compare a cache with the same cache just swept, at readings up to t.  In
   * every later run without SET whose readings are t or later, all GETs and listings answer alike.
   * A DEL answers differently exactly when the sweep found its key expired and no GET, DEL or sweep
   * has come to that key since.
   */
  lemma SweepIsInvisible(s: Lru, capacity: nat, at: map<Key, Time>, t: Time, ops: seq<Op>, op: Op)
    requires capacity > 0 && LooksFrom(op, t)
    requires forall k :: k in at ==> at[k] <= t
    requires LooksAtAll(ops, t)
    ensures var a, b := Run(s, capacity, ops), Run(Sweep(s, at), capacity, ops);
      var x, y := Step(a, capacity, op).1, Step(b, capacity, op).1;
      && (op.GetOp? || op.ListOp? ==> x == y)
      && (op.DelOp? ==>
            (x != y <==> op.key in Expired(s, at) && forall i :: 0 <= i < |ops| ==> !Visits(ops[i], op.key)))
  {
    SweepKeepsAlive(s, at, t);
    RunKeepsAlike(s, Sweep(s, at), capacity, ops, t);
    LeftOver(s, capacity, at, t, ops);
    if op.GetOp? || op.ListOp? {
      SameAnswers(Run(s, capacity, ops), Run(Sweep(s, at), capacity, ops), capacity, op, t);
    }
  }

  /** A full cache of two whose front key "x" has been expired since time 0. */
  const HALF_EXPIRED := Lru(["x", "a"], map["x" := CacheEntry("v", Some(0)), "a" := CacheEntry("w", None)])

  /** A DEL that notices the sweep: del of the expired key succeeds only while it is still there. */
  lemma DelNoticesSweep()
    ensures WellFormed(HALF_EXPIRED, 2)
    ensures Del(HALF_EXPIRED, "x").1 && !Del(Sweep(HALF_EXPIRED, map["x" := 1]), "x").1
  {
    SweepIsInvisible(HALF_EXPIRED, 2, map["x" := 1], 1, [], DelOp("x"));
  }

  // ---- Across the next SET -------------------------------------------------------------------------

  /** From t on, as long as nothing is written, no GET or listing tells the two caches apart. */
  ghost predicate AnswerAlike(a: Lru, b: Lru, capacity: nat, t: Time)
    requires capacity > 0
  {
    forall ops, op | LooksAtAll(ops, t) && LooksFrom(op, t) && (op.GetOp? || op.ListOp?) ::
      Step(Run(a, capacity, ops), capacity, op).1 == Step(Run(b, capacity, ops), capacity, op).1
  }

  /** Two caches answer alike exactly when the same entries are alive in both. */
  lemma AlikeMeansSameAlive(a: Lru, b: Lru, capacity: nat, t: Time)
    requires capacity > 0
    ensures AnswerAlike(a, b, capacity, t) <==> AliveAt(a, t) == AliveAt(b, t)
  {
    if AliveAt(a, t) == AliveAt(b, t) {
      forall ops, op | LooksAtAll(ops, t) && LooksFrom(op, t) && (op.GetOp? || op.ListOp?)
        ensures Step(Run(a, capacity, ops), capacity, op).1 == Step(Run(b, capacity, ops), capacity, op).1
      {
        RunKeepsAlike(a, b, capacity, ops, t);
        SameAnswers(Run(a, capacity, ops), Run(b, capacity, ops), capacity, op, t);
      }
    }
    if AnswerAlike(a, b, capacity, t) {
      forall k
        ensures k in AliveAt(a, t) <==> k in AliveAt(b, t)
        ensures k in AliveAt(a, t) ==> AliveAt(a, t)[k] == AliveAt(b, t)[k]
      {
        ListingShowsAlive(a, capacity, k, t);
        ListingShowsAlive(b, capacity, k, t);
        assert LooksAtAll([], t) && LooksFrom(ListOp(map[k := t]), t);
        assert Run(a, capacity, []) == a && Run(b, capacity, []) == b;
        assert Step(a, capacity, ListOp(map[k := t])).1 == Step(b, capacity, ListOp(map[k := t])).1;
      }
    }
  }

  /** A listing that looks at one key at t shows whether, and with what entry, it is alive. */
  lemma ListingShowsAlive(s: Lru, capacity: nat, key: Key, t: Time)
    requires capacity > 0
    ensures var shown := Step(s, capacity, ListOp(map[key := t])).1;
      && shown.Listed?
      && shown.live == if key in AliveAt(s, t) then map[key := AliveAt(s, t)[key]] else map[]
  {
  }

  /** The key that a SET evicts, if any. */
  function Victims(s: Lru, capacity: nat, key: Key): set<Key>
    requires capacity > 0
  {
    if key in s.entries || |s.order| != capacity then {} else {s.order[capacity - 1]}
  }

  lemma RoomEntries(s: Lru, capacity: nat, key: Key)
    requires capacity > 0 && WellFormed(s, capacity) && key !in s.entries
    ensures MostRecent(s, capacity - 1).entries == s.entries - Victims(s, capacity, key)
  {
    if |s.order| == capacity {
      EvictEffect(s, capacity);
      WithoutLast(s, capacity);
    }
  }

  lemma SetEntries(s: Lru, capacity: nat, key: Key, value: string, ttl: Option<int>, now: Time)
    requires capacity > 0 && WellFormed(s, capacity)
    ensures Set(s, capacity, key, value, ttl, now).entries
         == (s.entries - Victims(s, capacity, key))[key := CacheEntry(value, ExpiresAt(ttl, now))]
  {
    if key !in s.entries {
      RoomEntries(s, capacity, key);
    } else {
      assert s.entries - {} == s.entries;
    }
  }

  /** What is alive after a SET that stores entry and evicts the victims. */
  function AliveWith(alive: map<Key, CacheEntry>, victims: set<Key>, key: Key, entry: CacheEntry, t: Time)
    : map<Key, CacheEntry>
  {
    var kept := alive - victims - {key};
    if entry.IsExpired(t) then kept else kept[key := entry]
  }

  lemma AliveAfterSet(s: Lru, capacity: nat, key: Key, value: string, ttl: Option<int>, now: Time, t: Time)
    requires capacity > 0 && WellFormed(s, capacity)
    ensures AliveAt(Set(s, capacity, key, value, ttl, now), t)
         == AliveWith(AliveAt(s, t), Victims(s, capacity, key), key, CacheEntry(value, ExpiresAt(ttl, now)), t)
  {
    SetEntries(s, capacity, key, value, ttl, now);
  }

  /** It matters who is evicted exactly when a victim, other than the key written, is alive. */
  lemma VictimsMatter(alive: map<Key, CacheEntry>, victims: set<Key>, key: Key, entry: CacheEntry, t: Time)
    requires key !in victims
    ensures AliveWith(alive, victims, key, entry, t) == AliveWith(alive, {}, key, entry, t) <==> victims !! alive.Keys
  {
    if victims !! alive.Keys {
      assert alive - victims - {key} == alive - {} - {key};
    } else {
      var victim :| victim in victims && victim in alive;
      assert victim !in AliveWith(alive, victims, key, entry, t);
      assert victim in AliveWith(alive, {}, key, entry, t);
    }
  }

  /** b is a without some keys, all of them expired at t. */
  ghost predicate Trimmed(a: Lru, b: Lru, capacity: nat, t: Time) {
    && WellFormed(a, capacity) && WellFormed(b, capacity)
    && b.entries.Keys <= a.entries.Keys && b.order == Keep(a.order, b.entries.Keys)
    && (forall k :: k in b.entries ==> a.entries[k] == b.entries[k])
    && AliveAt(a, t) == AliveAt(b, t)
  }

  /** Trimmed and as large means equal order; trimmed and smaller means room to spare. */
  lemma TrimmedSize(a: Lru, b: Lru, capacity: nat, t: Time)
    requires Trimmed(a, b, capacity, t)
    ensures if b.entries.Keys == a.entries.Keys then b.order == a.order else |b.order| < |a.order|
  {
    if b.entries.Keys == a.entries.Keys {
      KeepAll(a.order, b.entries.Keys);
    } else {
      SizeIsOrderLength(a, capacity);
      SizeIsOrderLength(b, capacity);
      SubsetSize(b.entries.Keys, a.entries.Keys);
      assert a.entries.Keys - b.entries.Keys != {};
    }
  }

  lemma TrimmedVictims(a: Lru, b: Lru, capacity: nat, t: Time, key: Key)
    requires capacity > 0 && Trimmed(a, b, capacity, t)
    ensures Victims(b, capacity, key) == if b.entries.Keys == a.entries.Keys then Victims(a, capacity, key) else {}
    ensures key !in Victims(a, capacity, key)
  {
    TrimmedSize(a, b, capacity, t);
  }

  lemma SetOnTrimmed(a: Lru, b: Lru, capacity: nat, t: Time, key: Key, value: string, ttl: Option<int>, now: Time)
    requires capacity > 0 && Trimmed(a, b, capacity, t)
    ensures AliveAt(Set(a, capacity, key, value, ttl, now), t) == AliveAt(Set(b, capacity, key, value, ttl, now), t)
       <==> b.entries.Keys == a.entries.Keys || Victims(a, capacity, key) !! AliveAt(a, t).Keys
  {
    TrimmedVictims(a, b, capacity, t, key);
    AliveAfterSet(a, capacity, key, value, ttl, now, t);
    AliveAfterSet(b, capacity, key, value, ttl, now, t);
    VictimsMatter(AliveAt(a, t), Victims(a, capacity, key), key, CacheEntry(value, ExpiresAt(ttl, now)), t);
  }

  lemma SweepTrims(s: Lru, capacity: nat, at: map<Key, Time>, t: Time)
    requires WellFormed(s, capacity) && forall k :: k in at ==> at[k] <= t
    ensures Trimmed(s, Sweep(s, at), capacity, t)
  {
    OnlyKeepsWellFormed(s, capacity, s.entries.Keys - Expired(s, at));
    SweepKeepsAlive(s, at, t);
    assert Sweep(s, at).entries.Keys == s.entries.Keys - Expired(s, at);
  }

  lemma SameUse(a: Lru, b: Lru, op: Op, t: Time)
    requires AliveAt(a, t) == AliveAt(b, t) && LooksFrom(op, t)
    ensures Used(a, op) == Used(b, op)
  {
    if op.GetOp? {
      assert op.key in AliveAt(a, t) <==> op.key in AliveAt(b, t);
    }
  }

  lemma StepKeys(a: Lru, b: Lru, capacity: nat, op: Op)
    requires capacity > 0 && !op.SetOp? && b.entries.Keys <= a.entries.Keys
    requires forall k :: k in b.entries ==> a.entries[k] == b.entries[k]
    ensures var r, q := Step(a, capacity, op).0, Step(b, capacity, op).0;
      && q.entries.Keys <= r.entries.Keys && q.entries.Keys <= b.entries.Keys
      && forall k :: k in q.entries ==> r.entries[k] == q.entries[k]
  {
    var r, q := Step(a, capacity, op).0, Step(b, capacity, op).0;
    forall k
      ensures k in q.entries ==> k in r.entries && k in b.entries && r.entries[k] == q.entries[k]
    {
      StepResidents(a, capacity, op, k);
      StepResidents(b, capacity, op, k);
    }
  }

  /** One step on two orders, the second of which is the part of the first that kb selects. */
  lemma TrimmedOrders(order: seq<Key>, kb: set<Key>, ra: set<Key>, rb: set<Key>, used: seq<Key>)
    requires rb <= ra && |used| <= 1
    requires rb - Elements(used) <= kb && forall k :: k in used ==> k in rb
    ensures used + Keep(Keep(order, kb), rb - Elements(used)) == Keep(used + Keep(order, ra - Elements(used)), rb)
  {
    if used == [] {
      RestrictBoth(order, kb, ra, rb);
      assert rb - Elements(used) == rb && ra - Elements(used) == ra;
      assert [] + Keep(order, ra) == Keep(order, ra);
    } else {
      assert Elements(used) == {used[0]} && used == [used[0]];
      FrontBoth(order, kb, used[0], rb - {used[0]}, ra - {used[0]});
      assert rb - {used[0]} + {used[0]} == rb;
    }
  }

  lemma StepKeepsTrimmed(a: Lru, b: Lru, capacity: nat, op: Op, t: Time)
    requires capacity > 0 && Trimmed(a, b, capacity, t) && LooksFrom(op, t)
    ensures Trimmed(Step(a, capacity, op).0, Step(b, capacity, op).0, capacity, t)
  {
    StepKeepsWellFormed(a, capacity, op);
    StepKeepsWellFormed(b, capacity, op);
    StepKeepsAlike(a, b, capacity, op, t);
    StepTrimsOrder(a, b, capacity, op, t);
  }

  lemma StepTrimsOrder(a: Lru, b: Lru, capacity: nat, op: Op, t: Time)
    requires capacity > 0 && Trimmed(a, b, capacity, t) && LooksFrom(op, t)
    ensures var r, q := Step(a, capacity, op).0, Step(b, capacity, op).0;
      && q.entries.Keys <= r.entries.Keys && q.order == Keep(r.order, q.entries.Keys)
      && forall k :: k in q.entries ==> r.entries[k] == q.entries[k]
  {
    var used := if Used(a, op) == {} then [] else [op.key];
    SameUse(a, b, op, t);
    StepOrder(a, capacity, op);
    StepOrder(b, capacity, op);
    StepKeys(a, b, capacity, op);
    StepEntries(b, capacity, op);
    assert Elements(used) == Used(a, op);
    TrimmedOrders(a.order, b.entries.Keys, Step(a, capacity, op).0.entries.Keys, Step(b, capacity, op).0.entries.Keys, used);
  }

  lemma {:induction false} RunKeepsTrimmed(a: Lru, b: Lru, capacity: nat, ops: seq<Op>, t: Time)
    requires capacity > 0 && Trimmed(a, b, capacity, t) && LooksAtAll(ops, t)
    ensures Trimmed(Run(a, capacity, ops), Run(b, capacity, ops), capacity, t)
  {
    if ops != [] {
      var n := |ops| - 1;
      RunKeepsTrimmed(a, b, capacity, ops[..n], t);
      StepKeepsTrimmed(Run(a, capacity, ops[..n]), Run(b, capacity, ops[..n]), capacity, ops[n], t);
    }
  }

  /**
   * The next SET, after any run without one.  It makes the sweep noticeable, to some later run of
   * GETs and listings, exactly when its key is new, the unswept cache is full, some key that the
   * sweep found expired has not been come to since, and the key then evicted is still alive.
   */
  lemma SetAfterSweep(s: Lru, capacity: nat, at: map<Key, Time>, t: Time, ops: seq<Op>,
                      key: Key, value: string, ttl: Option<int>, now: Time)
    requires capacity > 0 && WellFormed(s, capacity)
    requires (forall k :: k in at ==> at[k] <= t) && LooksAtAll(ops, t)
    ensures var a, b := Run(s, capacity, ops), Run(Sweep(s, at), capacity, ops);
      AnswerAlike(Set(a, capacity, key, value, ttl, now), Set(b, capacity, key, value, ttl, now), capacity, t)
      <==> !(&& key !in a.entries && |a.order| == capacity && Unnoticed(s, at, ops) != {}
             && a.order[capacity - 1] in AliveAt(a, t))
  {
    var a, b := Run(s, capacity, ops), Run(Sweep(s, at), capacity, ops);
    SweepTrims(s, capacity, at, t);
    RunKeepsTrimmed(s, Sweep(s, at), capacity, ops, t);
    LeftOver(s, capacity, at, t, ops);
    SetOnTrimmed(a, b, capacity, t, key, value, ttl, now);
    AlikeMeansSameAlive(Set(a, capacity, key, value, ttl, now), Set(b, capacity, key, value, ttl, now), capacity, t);
  }

  /** Such a SET: it evicts the living "a", for which the swept cache would have had room. */
  lemma SetNoticesSweep()
    ensures WellFormed(HALF_EXPIRED, 2)
    ensures Get(Set(HALF_EXPIRED, 2, "b", "u", None, 1), "a", 1).1 == None
    ensures Get(Set(Sweep(HALF_EXPIRED, map["x" := 1]), 2, "b", "u", None, 1), "a", 1).1 == Some("w")
  {
    var s, swept := HALF_EXPIRED, Sweep(HALF_EXPIRED, map["x" := 1]);
    SweepTrims(s, 2, map["x" := 1], 1);
    assert "x" in Expired(s, map["x" := 1]);
    TrimmedSize(s, swept, 2, 1);
    SetEntries(s, 2, "b", "u", None, 1);
    SetEntries(swept, 2, "b", "u", None, 1);
  }

  // ---- The byte counter ----------------------------------------------------------------------------

  /** Keeping some keys keeps the total size exactly when the others have none. */
  lemma {:induction false} KeptBytes(order: seq<Key>, ks: set<Key>, entries: map<Key, CacheEntry>)
    ensures Bytes(Keep(order, ks), entries) <= Bytes(order, entries)
    ensures Bytes(Keep(order, ks), entries) == Bytes(order, entries)
       <==> forall k :: k in order && k !in ks ==> SizeAt(entries, k) == 0
  {
    if order != [] {
      KeptBytes(order[1..], ks, entries);
      assert forall k :: k in order <==> k == order[0] || k in order[1..];
      if order[0] in ks {
        assert ([order[0]] + Keep(order[1..], ks))[1..] == Keep(order[1..], ks);
      }
    }
  }

  /**
   * STATS notices a sweep, until the next SET, exactly when some key that the sweep found expired,
   * and that no GET, DEL or sweep has come to since, has a size.
   */
  lemma BytesAfterSweep(s: Lru, capacity: nat, at: map<Key, Time>, t: Time, ops: seq<Op>)
    requires capacity > 0 && WellFormed(s, capacity)
    requires (forall k :: k in at ==> at[k] <= t) && LooksAtAll(ops, t)
    ensures TotalBytes(Run(Sweep(s, at), capacity, ops)) <= TotalBytes(Run(s, capacity, ops))
    ensures TotalBytes(Run(Sweep(s, at), capacity, ops)) != TotalBytes(Run(s, capacity, ops))
       <==> exists k :: k in Unnoticed(s, at, ops) && Size(k, s.entries[k]) > 0
  {
    var a, b := Run(s, capacity, ops), Run(Sweep(s, at), capacity, ops);
    SweepTrims(s, capacity, at, t);
    RunKeepsTrimmed(s, Sweep(s, at), capacity, ops, t);
    LeftOver(s, capacity, at, t, ops);
    KeptBytes(a.order, b.entries.Keys, a.entries);
    BytesAgree(b.order, a.entries, b.entries);
    forall k | k in Unnoticed(s, at, ops)
      ensures k in a.order && k !in b.entries.Keys && SizeAt(a.entries, k) == Size(k, s.entries[k])
    {
      RunResidents(s, capacity, ops, k);
    }
  }

  /** A sweep that STATS notices: half of the bytes are gone. */
  lemma StatsNoticesSweep()
    ensures TotalBytes(HALF_EXPIRED) == 4 && TotalBytes(Sweep(HALF_EXPIRED, map["x" := 1])) == 2
  {
    var s, swept := HALF_EXPIRED, Sweep(HALF_EXPIRED, map["x" := 1]);
    assert Expired(s, map["x" := 1]) == {"x"};
    DropEffect(s, 2, "x");
    assert swept == Without(s, "x");
    assert s.order[1..] == ["a"] && ["a"][1..] == [];
    assert Bytes(s.order, s.entries) == 2 + Bytes(["a"], s.entries);
  }
}

/**
 * The laws of sequential runs carried over to the two threads: the calls of an interleaved
 * execution, in the order in which they got the lock, are a run of the cache.
 */
module ConcurrentRuns {
  import opened CacheModel
  import opened StoreModel
  import opened CriticalSection
  import opened Runs
  import opened Freshness
  import C = Concurrency

  /** The cache operation that an event amounts to, if any. */
  function OpOf(e: C.Event): Option<Op> {
    if !e.Call? then None
    else
      match e.req
      case SetReq(key, value, ttl) => Some(SetOp(key, value, ttl, e.obs.now))
      case GetReq(key) => Some(GetOp(key, e.obs.now))
      case DelReq(key) => Some(DelOp(key))
      case StatsReq => None
      case KeysReq => Some(ListOp(e.obs.at))
      case SweepReq => Some(SweepOp(e.obs.at))
  }

  function OpsOf(log: seq<C.Event>): seq<Op> {
    if log == [] then []
    else
      var n := |log| - 1;
      OpsOf(log[..n]) + if OpOf(log[n]).Some? then [OpOf(log[n]).value] else []
  }

  lemma RunOneMore(capacity: nat, ops: seq<Op>, op: Op)
    requires capacity > 0
    ensures Run(EMPTY, capacity, ops + [op]) == Step(Run(EMPTY, capacity, ops), capacity, op).0
  {
    assert (ops + [op])[..|ops|] == ops;
  }

  lemma ApplyIsStep(st: Store, capacity: nat, e: C.Event)
    requires capacity > 0 && e.Call? && Possible(st, e.req, e.obs)
    ensures Apply(st, capacity, e.req, e.obs).0.lru
         == if OpOf(e).Some? then Step(st.lru, capacity, OpOf(e).value).0 else st.lru
  {
  }

  /** Replaying a log is running its operations. */
  lemma {:induction false} ReplayIsRun(capacity: nat, log: seq<C.Event>)
    requires capacity > 0 && C.Legal(capacity, log)
    ensures C.Replay(capacity, log).lru == Run(EMPTY, capacity, OpsOf(log))
  {
    if log != [] {
      var n := |log| - 1;
      ReplayIsRun(capacity, log[..n]);
      if log[n].Call? {
        ApplyIsStep(C.Replay(capacity, log[..n]), capacity, log[n]);
      }
      if OpOf(log[n]).Some? {
        RunOneMore(capacity, OpsOf(log[..n]), OpOf(log[n]).value);
      } else {
        assert OpsOf(log) == OpsOf(log[..n]);
      }
    }
  }

  /** log[j] is a SET of key, and no later event before i writes or deletes key. */
  ghost predicate IsLatestSet(log: seq<C.Event>, key: Key, j: nat, i: nat)
    requires i <= |log|
  {
    && j < i && log[j].Call? && log[j].req.SetReq? && log[j].req.key == key
    && forall k :: j < k < i && log[k].Call? && (log[k].req.SetReq? || log[k].req.DelReq?) ==> log[k].req.key != key
  }

  /** The latest write among the operations is that of the latest SET in the log. */
  lemma {:induction false} LatestWriteIsLatestSet(log: seq<C.Event>, key: Key, m: int) returns (j: nat)
    requires IsLatestWrite(OpsOf(log), key, m)
    ensures IsLatestSet(log, key, j, |log|) && OpOf(log[j]) == Some(OpsOf(log)[m])
  {
    var n := |log| - 1;
    var before := OpsOf(log[..n]);
    if m == |before| {
      j := n;
    } else {
      forall k | m < k < |before|
        ensures before[k] == OpsOf(log)[k]
      {
      }
      assert before[m] == OpsOf(log)[m];
      j := LatestWriteIsLatestSet(log[..n], key, m);
      if OpOf(log[n]).Some? {
        assert OpsOf(log)[|before|] == OpOf(log[n]).value;
      }
    }
  }

  /**
   * The entry that this SET stored has not expired; so, unless that is beyond 64 bits, its TTL has
   * not run out.
   */
  predicate StillAlive(e: C.Event, now: Time)
    requires e.Call? && e.req.SetReq?
  {
    && !CacheEntry(e.req.value, ExpiresAt(e.req.ttl, e.obs.now)).IsExpired(now)
    && (e.req.ttl.Some? && Representable(e.req.ttl, e.obs.now) ==>
          now < e.obs.now + e.req.ttl.value * 1_000_000_000)
  }

  lemma LogHitIsFresh(capacity: nat, log: seq<C.Event>, key: Key, now: Time, value: string) returns (j: nat)
    requires capacity > 0 && C.Legal(capacity, log) && Get(C.Replay(capacity, log).lru, key, now).1 == Some(value)
    ensures IsLatestSet(log, key, j, |log|) && log[j].req.value == value
    ensures StillAlive(log[j], now)
  {
    var ops := OpsOf(log);
    ReplayIsRun(capacity, log);
    HitIsFresh(capacity, ops, key, now, value);
    var m :| IsLatestWrite(ops, key, m) && ops[m].value == value
             && !CacheEntry(value, ExpiresAt(ops[m].ttl, ops[m].now)).IsExpired(now);
    j := LatestWriteIsLatestSet(log, key, m);
    if Representable(ops[m].ttl, ops[m].now) {
      RepresentableExpiry(value, ops[m].ttl, ops[m].now, now);
    }
  }

  /**
   * Freshness under concurrency.  Whatever the interleaving, a GET that answers with a value got
   * the value of the latest SET of that key, in lock-acquisition order, with no DEL in between,
   * and read the clock before that SET's entry expired.
   */
  lemma ConcurrentHitIsFresh(capacity: nat, actions: seq<C.Action>, i: nat, value: string) returns (j: nat)
    requires capacity > 0
    requires var log := C.After(capacity, actions).log;
      i < |log| && log[i].Call? && log[i].req.GetReq? && log[i].reply == GetDone(Some(value))
    ensures var log := C.After(capacity, actions).log;
      && IsLatestSet(log, log[i].req.key, j, i) && log[j].req.value == value
      && StillAlive(log[j], log[i].obs.now)
  {
    var log := C.After(capacity, actions).log;
    C.InvHolds(capacity, actions);
    C.LegalAt(capacity, log, i);
    j := LogHitIsFresh(capacity, log[..i], log[i].req.key, log[i].obs.now, value);
    assert forall k :: 0 <= k < i ==> log[..i][k] == log[k];
  }

  /** The readings of the calls logged by some moment are not in its future. */
  lemma {:induction false} ReadingsInOrder(log: seq<C.Event>, step: nat, now: Time)
    requires C.InLockOrder(log) && C.ReleasedBy(log, step, now)
    ensures ReadingsUpTo(OpsOf(log), now)
  {
    if log != [] {
      var n := |log| - 1;
      assert log[n] in log;
      assert forall e :: e in log[..n] ==> e in log;
      ReadingsInOrder(log[..n], step, now);
    }
  }

  lemma {:induction false} LockOrderAt(log: seq<C.Event>, i: nat)
    requires C.InLockOrder(log) && i < |log| && log[i].Call?
    ensures C.InLockOrder(log[..i]) && C.ReleasedBy(log[..i], log[i].acquired, log[i].entry)
    ensures Within(log[i].obs, log[i].entry, log[i].exit)
  {
    var n := |log| - 1;
    if i < n {
      LockOrderAt(log[..n], i);
      assert log[..n][..i] == log[..i];
    }
  }

  /**
   * While the execution has written no more distinct keys than fit, every GET answers as a store
   * that never forgets would: the latest value written and not deleted, unless it has expired.
   */
  lemma ConcurrentSmallKeyspace(capacity: nat, actions: seq<C.Action>, i: nat)
    requires capacity > 0
    requires var log := C.After(capacity, actions).log;
      i < |log| && log[i].Call? && log[i].req.GetReq? && |Written(OpsOf(log[..i]))| <= capacity
    ensures var log := C.After(capacity, actions).log;
      var ideal, key, now := Ideal(OpsOf(log[..i])), log[i].req.key, log[i].obs.now;
      log[i].reply == GetDone(if key in ideal && !ideal[key].IsExpired(now) then Some(ideal[key].value) else None)
  {
    var log := C.After(capacity, actions).log;
    C.InvHolds(capacity, actions);
    C.LegalAt(capacity, log, i);
    LockOrderAt(log, i);
    ReadingsInOrder(log[..i], log[i].acquired, log[i].obs.now);
    ReplayIsRun(capacity, log[..i]);
    SmallKeyspaceIsIdeal(capacity, OpsOf(log[..i]), log[i].req.key, log[i].obs.now);
  }
}

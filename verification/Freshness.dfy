/** The cache against an ideal store that never evicts: it may forget, but it is never stale. */
module Freshness {
  import opened Sequences
  import opened CacheModel
  import opened Runs

  /** The latest entry written for each key and not deleted since. */
  function Ideal(ops: seq<Op>): map<Key, CacheEntry> {
    if ops == [] then map[]
    else
      var before := Ideal(ops[..|ops| - 1]);
      match ops[|ops| - 1]
      case SetOp(key, value, ttl, now) => before[key := CacheEntry(value, ExpiresAt(ttl, now))]
      case DelOp(key) => before - {key}
      case _ => before
  }

  /** ops[i] is the latest SET of key, with no later DEL. */
  ghost predicate IsLatestWrite(ops: seq<Op>, key: Key, i: int) {
    && 0 <= i < |ops| && ops[i].SetOp? && ops[i].key == key
    && forall j :: i < j < |ops| && (ops[j].SetOp? || ops[j].DelOp?) ==> ops[j].key != key
  }

  /** The ideal store holds exactly the latest writes. */
  lemma {:induction false} IdealIsLatestWrite(ops: seq<Op>, key: Key)
    ensures forall i :: IsLatestWrite(ops, key, i) ==>
      key in Ideal(ops) && Ideal(ops)[key] == CacheEntry(ops[i].value, ExpiresAt(ops[i].ttl, ops[i].now))
    ensures key in Ideal(ops) ==> exists i :: IsLatestWrite(ops, key, i)
  {
    if ops != [] {
      var n := |ops| - 1;
      var before := ops[..n];
      IdealIsLatestWrite(before, key);
      if (ops[n].SetOp? || ops[n].DelOp?) && ops[n].key == key {
        assert ops[n].SetOp? ==> IsLatestWrite(ops, key, n);
      } else {
        forall i
          ensures IsLatestWrite(ops, key, i) <==> IsLatestWrite(before, key, i)
        {
        }
      }
    }
  }

  /** At every reachable state the cache is a sub-map of the ideal store. */
  lemma {:induction false} CacheWithinIdeal(capacity: nat, ops: seq<Op>)
    requires capacity > 0
    ensures var s := Run(EMPTY, capacity, ops);
      forall k :: k in s.entries ==> k in Ideal(ops) && Ideal(ops)[k] == s.entries[k]
  {
    if ops != [] {
      var n := |ops| - 1;
      CacheWithinIdeal(capacity, ops[..n]);
      RunKeepsWellFormed(EMPTY, capacity, ops[..n]);
      StepEntries(Run(EMPTY, capacity, ops[..n]), capacity, ops[n]);
    }
  }

  /**
   * A hit returns the latest written value, and only strictly before that write's own expiry; which
   * is when its TTL runs out, unless that is beyond 64 bits.
   */
  lemma HitIsFresh(capacity: nat, ops: seq<Op>, key: Key, now: Time, value: string)
    requires capacity > 0
    requires Get(Run(EMPTY, capacity, ops), key, now).1 == Some(value)
    ensures exists i :: IsLatestWrite(ops, key, i) && ops[i].value == value
                        && !CacheEntry(value, ExpiresAt(ops[i].ttl, ops[i].now)).IsExpired(now)
                        && (ops[i].ttl.Some? && Representable(ops[i].ttl, ops[i].now) ==>
                              now < ops[i].now + ops[i].ttl.value * 1_000_000_000)
  {
    CacheWithinIdeal(capacity, ops);
    IdealIsLatestWrite(ops, key);
    var i :| IsLatestWrite(ops, key, i);
    if Representable(ops[i].ttl, ops[i].now) {
      RepresentableExpiry(value, ops[i].ttl, ops[i].now, now);
    }
  }

  /** All keys ever written. */
  function Written(ops: seq<Op>): set<Key> {
    set i | 0 <= i < |ops| && ops[i].SetOp? :: ops[i].key
  }

  lemma WrittenGrows(ops: seq<Op>)
    requires ops != []
    ensures var n := |ops| - 1;
      Written(ops) == Written(ops[..n]) + if ops[n].SetOp? then {ops[n].key} else {}
    ensures |Written(ops[..|ops| - 1])| <= |Written(ops)|
  {
    var n := |ops| - 1;
    assert forall i :: 0 <= i < n ==> ops[..n][i] == ops[i];
    assert Written(ops) == Written(ops[..n]) + if ops[n].SetOp? then {ops[n].key} else {};
    SubsetSize(Written(ops[..n]), Written(ops));
  }

  /** The clock readings of op that could expire an entry were made no later than now. */
  ghost predicate ReadsUpTo(op: Op, now: Time) {
    match op
    case GetOp(_, t) => t <= now
    case SweepOp(at) => forall k :: k in at ==> at[k] <= now
    case _ => true
  }

  ghost predicate ReadingsUpTo(ops: seq<Op>, now: Time) {
    forall i :: 0 <= i < |ops| ==> ReadsUpTo(ops[i], now)
  }

  /** With room to spare, a step loses no entry that is still alive, unless it deletes it. */
  lemma RoomyStep(s: Lru, capacity: nat, op: Op, now: Time)
    requires capacity > 0 && WellFormed(s, capacity) && ReadsUpTo(op, now)
    requires op.SetOp? && op.key !in s.entries ==> |s.order| < capacity
    ensures var r := Step(s, capacity, op).0;
      && r.entries.Keys <= s.entries.Keys + (if op.SetOp? then {op.key} else {})
      && forall k :: k in s.entries && !s.entries[k].IsExpired(now) && !(op.DelOp? && op.key == k) ==> k in r.entries
  {
  }

  /** While no more distinct keys are written than fit, the cache forgets nothing that is still alive. */
  lemma {:induction false} SmallKeyspaceKeepsAll(capacity: nat, ops: seq<Op>, now: Time)
    requires capacity > 0 && |Written(ops)| <= capacity && ReadingsUpTo(ops, now)
    ensures Run(EMPTY, capacity, ops).entries.Keys <= Written(ops)
    ensures forall k :: k in Ideal(ops) && !Ideal(ops)[k].IsExpired(now) ==> k in Run(EMPTY, capacity, ops).entries
  {
    if ops != [] {
      var n := |ops| - 1;
      var before, op := Run(EMPTY, capacity, ops[..n]), ops[n];
      WrittenGrows(ops);
      SmallKeyspaceKeepsAll(capacity, ops[..n], now);
      CacheWithinIdeal(capacity, ops[..n]);
      RunKeepsWellFormed(EMPTY, capacity, ops[..n]);
      SizeIsOrderLength(before, capacity);
      if op.SetOp? && op.key !in before.entries {
        SubsetSize(before.entries.Keys + {op.key}, Written(ops));
      }
      RoomyStep(before, capacity, op, now);
      StepEntries(before, capacity, op);
    }
  }

  /**
   * So with no more distinct keys than the capacity, a GET answers exactly as the ideal store does:
   * the latest written value, unless it has expired.
   */
  lemma SmallKeyspaceIsIdeal(capacity: nat, ops: seq<Op>, key: Key, now: Time)
    requires capacity > 0 && |Written(ops)| <= capacity && ReadingsUpTo(ops, now)
    ensures Get(Run(EMPTY, capacity, ops), key, now).1
         == if key in Ideal(ops) && !Ideal(ops)[key].IsExpired(now) then Some(Ideal(ops)[key].value) else None
  {
    CacheWithinIdeal(capacity, ops);
    SmallKeyspaceKeepsAll(capacity, ops, now);
  }
}

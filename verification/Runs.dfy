/** Runs: sequences of cache operations, with the clock readings each of them makes. */
module Runs {
  import opened Sequences
  import opened CacheModel

  datatype Op =
    | SetOp(key: Key, value: string, ttl: Option<int>, now: Time)
    | GetOp(key: Key, now: Time)
    | DelOp(key: Key)
    | SweepOp(at: map<Key, Time>)
    | ListOp(at: map<Key, Time>)

  datatype Outcome =
    | Stored
    | Found(value: Option<string>)
    | Deleted(found: bool)
    | Swept(count: nat)
    | Listed(live: map<Key, CacheEntry>)

  function Step(s: Lru, capacity: nat, op: Op): (Lru, Outcome)
    requires capacity > 0
  {
    match op
    case SetOp(key, value, ttl, now) => (Set(s, capacity, key, value, ttl, now), Stored)
    case GetOp(key, now) => var (r, v) := Get(s, key, now); (r, Found(v))
    case DelOp(key) => var (r, found) := Del(s, key); (r, Deleted(found))
    case SweepOp(at) => (Sweep(s, at), Swept(|Expired(s, at)|))
    case ListOp(at) => (s, Listed(Live(s, at)))
  }

  /** The state after ops, starting from s. */
  function Run(s: Lru, capacity: nat, ops: seq<Op>): Lru
    requires capacity > 0
  {
    if ops == [] then s
    else Step(Run(s, capacity, ops[..|ops| - 1]), capacity, ops[|ops| - 1]).0
  }

  /** The keys that op moves to the front: the one it writes, or the one it hits. */
  function Used(s: Lru, op: Op): set<Key> {
    match op
    case SetOp(key, _, _, _) => {key}
    case GetOp(key, now) => if Get(s, key, now).1.Some? then {key} else {}
    case _ => {}
  }

  /** The keys that op removes for any reason other than lack of room. */
  function Dropped(s: Lru, op: Op): set<Key> {
    match op
    case SetOp(_, _, _, _) => {}
    case GetOp(key, now) => if key in s.entries && s.entries[key].IsExpired(now) then {key} else {}
    case DelOp(key) => if key in s.entries then {key} else {}
    case SweepOp(at) => Expired(s, at)
    case ListOp(_) => {}
  }

  lemma StepKeepsWellFormed(s: Lru, capacity: nat, op: Op)
    requires capacity > 0 && WellFormed(s, capacity)
    ensures WellFormed(Step(s, capacity, op).0, capacity)
  {
    match op
    case SetOp(key, value, ttl, now) => SetKeepsWellFormed(s, capacity, key, value, ttl, now);
    case GetOp(key, now) => GetKeepsWellFormed(s, capacity, key, now);
    case DelOp(key) => OnlyKeepsWellFormed(s, capacity, s.entries.Keys - {key});
    case SweepOp(at) => OnlyKeepsWellFormed(s, capacity, s.entries.Keys - Expired(s, at));
    case ListOp(_) =>
  }

  /** Every reachable state is well formed: distinct keys, index and order agree, never over capacity. */
  lemma {:induction false} RunKeepsWellFormed(s: Lru, capacity: nat, ops: seq<Op>)
    requires capacity > 0 && WellFormed(s, capacity)
    ensures WellFormed(Run(s, capacity, ops), capacity)
  {
    if ops != [] {
      var n := |ops| - 1;
      RunKeepsWellFormed(s, capacity, ops[..n]);
      StepKeepsWellFormed(Run(s, capacity, ops[..n]), capacity, ops[n]);
    }
  }

  lemma {:induction false} RunConcat(s: Lru, capacity: nat, a: seq<Op>, b: seq<Op>)
    requires capacity > 0
    ensures Run(s, capacity, a + b) == Run(Run(s, capacity, a), capacity, b)
  {
    if b == [] {
      assert a + b == a;
    } else {
      var n := |b| - 1;
      assert (a + b)[..|a + b| - 1] == a + b[..n];
      RunConcat(s, capacity, a, b[..n]);
    }
  }

  /** What a step keeps of the entries: survivors that are not rewritten keep theirs. */
  lemma StepEntries(s: Lru, capacity: nat, op: Op)
    requires capacity > 0 && WellFormed(s, capacity)
    ensures var r := Step(s, capacity, op).0;
      && Used(s, op) <= r.entries.Keys
      && r.entries.Keys - Used(s, op) <= s.entries.Keys
      && forall k :: k in r.entries && !(op.SetOp? && k == op.key) ==> k in s.entries && r.entries[k] == s.entries[k]
  {
    MostRecentIsOnly(s, capacity, capacity - 1);
  }

  lemma SetOrder(s: Lru, capacity: nat, key: Key, value: string, ttl: Option<int>, now: Time)
    requires capacity > 0 && WellFormed(s, capacity)
    ensures var r := Set(s, capacity, key, value, ttl, now);
      r.order == [key] + Keep(s.order, r.entries.Keys - {key})
  {
    var r := Set(s, capacity, key, value, ttl, now);
    var t := if key in s.entries then s else MostRecent(s, capacity - 1);
    MostRecentIsOnly(s, capacity, capacity - 1);
    OnlyAll(s, capacity, s.entries.Keys);
    KeepKeep(s.order, t.entries.Keys, t.entries.Keys - {key});
    assert t.entries.Keys * (t.entries.Keys - {key}) == r.entries.Keys - {key};
  }

  /** A GET miss, a DEL, a listing or a sweep only removes the dropped keys: it never reorders survivors. */
  lemma UnusedStep(s: Lru, capacity: nat, op: Op)
    requires capacity > 0 && WellFormed(s, capacity)
    requires Used(s, op) == {}
    ensures Step(s, capacity, op).0 == Only(s, s.entries.Keys - Dropped(s, op))
    ensures Step(s, capacity, op).0.entries.Keys == s.entries.Keys - Dropped(s, op)
  {
    if Dropped(s, op) !! s.entries.Keys {
      OnlyAll(s, capacity, s.entries.Keys - Dropped(s, op));
    }
  }

  /**
   * What a step does to the order, in one shape for all operations: the used key, if any, comes
   * first; the survivors follow in the order they had.
   */
  lemma StepOrder(s: Lru, capacity: nat, op: Op)
    requires capacity > 0 && WellFormed(s, capacity)
    ensures var r := Step(s, capacity, op).0;
      r.order == (if Used(s, op) == {} then [] else [op.key]) + Keep(s.order, r.entries.Keys - Used(s, op))
  {
    var r := Step(s, capacity, op).0;
    if op.SetOp? {
      SetOrder(s, capacity, op.key, op.value, op.ttl, op.now);
    } else if Used(s, op) != {} {
      assert r.entries.Keys == s.entries.Keys;
    } else {
      UnusedStep(s, capacity, op);
      assert r.entries.Keys - Used(s, op) == r.entries.Keys;
    }
  }
}

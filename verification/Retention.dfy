/**
 * How long a key stays.  A key that is neither deleted nor expired is lost exactly when as many
 * other keys as the capacity have been used since its own last use and not been dropped again.
 */
module Retention {
  import opened Sequences
  import opened CacheModel
  import opened Runs
  import opened Freshness

  /** The elements of s that come before x. */
  function Ahead<T(!new,==)>(s: seq<T>, x: T): set<T> {
    if s == [] || s[0] == x then {} else {s[0]} + Ahead(s[1..], x)
  }

  lemma {:induction false} AheadKeep<T(!new)>(s: seq<T>, x: T, ks: set<T>)
    requires x in ks
    ensures Ahead(Keep(s, ks), x) == Ahead(s, x) * ks
  {
    if s != [] && s[0] != x {
      AheadKeep(s[1..], x, ks);
    }
  }

  /** What comes before x in a duplicate-free sequence is everything that is not x or after it. */
  lemma {:induction false} AheadSize<T(!new)>(s: seq<T>, x: T)
    requires NoDup(s) && x in s
    ensures Ahead(s, x) <= Elements(s) - {x}
    ensures |Ahead(s, x)| < |s|
    ensures s[|s| - 1] !in Ahead(s, x)
    ensures s[|s| - 1] == x ==> Ahead(s, x) == Elements(s) - {x}
  {
    if s[0] != x {
      AheadSize(s[1..], x);
      assert Elements(s) == {s[0]} + Elements(s[1..]);
    }
  }

  /**
   * The other keys written or hit since the last use of key, less those dropped since.  What
   * counts is visible to a client: which operations ran, which GETs hit, what expired.
   */
  function Rivals(s: Lru, capacity: nat, ops: seq<Op>, key: Key): set<Key>
    requires capacity > 0
  {
    if ops == [] then {}
    else
      var n := |ops| - 1;
      NextRivals(Run(s, capacity, ops[..n]), ops[n], key, Rivals(s, capacity, ops[..n], key))
  }

  function NextRivals(s: Lru, op: Op, key: Key, rivals: set<Key>): set<Key> {
    if key in Used(s, op) then {} else rivals + Used(s, op) - Dropped(s, op)
  }

  /** No operation writes or deletes key, and no clock reading made for it reaches its expiry. */
  ghost predicate Undisturbed(op: Op, key: Key, entry: CacheEntry) {
    match op
    case SetOp(k, _, _, _) => k != key
    case GetOp(k, now) => k == key ==> !entry.IsExpired(now)
    case DelOp(k) => k != key
    case SweepOp(at) => key in at ==> !entry.IsExpired(at[key])
    case ListOp(_) => true
  }

  lemma EvictedKeys(s: Lru, capacity: nat, op: Op)
    requires capacity > 0 && WellFormed(s, capacity) && op.SetOp?
    ensures var r := Step(s, capacity, op).0;
      r.entries.Keys - {op.key} == if op.key in s.entries || |s.order| < capacity then s.entries.Keys - {op.key}
                                   else s.entries.Keys - {s.order[capacity - 1]}
  {
    if op.key !in s.entries && |s.order| == capacity {
      EvictEffect(s, capacity);
      WithoutLast(s, capacity);
    }
  }

  lemma AheadAreResident(s: Lru, capacity: nat, key: Key)
    requires WellFormed(s, capacity) && key in s.entries
    ensures s.order != [] && Ahead(s.order, key) <= s.entries.Keys && s.order[|s.order| - 1] !in Ahead(s.order, key)
  {
    AheadSize(s.order, key);
    ElementsAreKeys(s, capacity);
  }

  lemma SetSurvivorsAhead(s: Lru, capacity: nat, op: Op, ahead: set<Key>)
    requires capacity > 0 && WellFormed(s, capacity) && op.SetOp? && s.order != []
    requires ahead <= s.entries.Keys && s.order[|s.order| - 1] !in ahead
    ensures ahead * (Step(s, capacity, op).0.entries.Keys - {op.key}) == ahead - {op.key}
  {
    EvictedKeys(s, capacity, op);
  }

  /** Of the keys ahead of a key, only dropped ones disappear: an eviction takes the last key. */
  lemma SurvivorsAhead(s: Lru, capacity: nat, op: Op, key: Key)
    requires capacity > 0 && WellFormed(s, capacity) && key in s.entries
    ensures Ahead(s.order, key) * (Step(s, capacity, op).0.entries.Keys - Used(s, op))
         == Ahead(s.order, key) - Dropped(s, op) - Used(s, op)
  {
    AheadAreResident(s, capacity, key);
    if Used(s, op) == {} {
      UnusedStep(s, capacity, op);
    } else if op.SetOp? {
      SetSurvivorsAhead(s, capacity, op, Ahead(s.order, key));
    }
  }

  /** If key survives a step that does not use it, the keys ahead of it change as Rivals says. */
  lemma AheadStep(s: Lru, capacity: nat, op: Op, key: Key)
    requires capacity > 0 && WellFormed(s, capacity) && key in s.entries
    requires key in Step(s, capacity, op).0.entries && key !in Used(s, op)
    ensures Ahead(Step(s, capacity, op).0.order, key) == Ahead(s.order, key) + Used(s, op) - Dropped(s, op)
  {
    var r, used := Step(s, capacity, op).0, Used(s, op);
    var kept := Keep(s.order, r.entries.Keys - used);
    StepOrder(s, capacity, op);
    AheadKeep(s.order, key, r.entries.Keys - used);
    SurvivorsAhead(s, capacity, op, key);
    assert used !! Dropped(s, op);
    if used == {} {
      assert r.order == kept;
    } else {
      assert r.order[0] == op.key && r.order[1..] == kept;
    }
  }

  /** An undisturbed key is lost only when it is last in a full cache and a new key is written. */
  lemma LostByEviction(s: Lru, capacity: nat, op: Op, key: Key)
    requires capacity > 0 && WellFormed(s, capacity) && key in s.entries
    requires Undisturbed(op, key, s.entries[key])
    requires key !in Step(s, capacity, op).0.entries
    ensures op.SetOp? && op.key !in s.entries && |s.order| == capacity && s.order[capacity - 1] == key
  {
    if op.SetOp? {
      EvictedKeys(s, capacity, op);
    }
  }

  /** At that moment every other resident key, and the new one, is a rival. */
  lemma LostToRivals(s: Lru, capacity: nat, key: Key, newcomer: Key)
    requires capacity > 0 && WellFormed(s, capacity) && key in s.entries && newcomer !in s.entries
    requires |s.order| == capacity && s.order[capacity - 1] == key
    ensures |Ahead(s.order, key) + {newcomer}| == capacity
  {
    AheadSize(s.order, key);
    NoDupSize(s.order);
    assert |Elements(s.order) - {key}| == capacity - 1;
    assert newcomer !in Ahead(s.order, key);
  }

  /** One step of the retention law: the rivals are the keys ahead, and reaching capacity is fatal. */
  lemma RetentionStep(s: Lru, capacity: nat, op: Op, key: Key)
    requires capacity > 0 && WellFormed(s, capacity) && key in s.entries
    requires Undisturbed(op, key, s.entries[key])
    ensures var r, rivals := Step(s, capacity, op).0, NextRivals(s, op, key, Ahead(s.order, key));
      && (key in r.entries <==> |rivals| < capacity)
      && (key in r.entries ==> r.entries[key] == s.entries[key] && Ahead(r.order, key) == rivals)
  {
    var r := Step(s, capacity, op).0;
    StepKeepsWellFormed(s, capacity, op);
    if key !in r.entries {
      LostByEviction(s, capacity, op, key);
      LostToRivals(s, capacity, key, op.key);
    } else {
      StepEntries(s, capacity, op);
      AheadSize(r.order, key);
      if key in Used(s, op) {
        StepOrder(s, capacity, op);
      } else {
        AheadStep(s, capacity, op, key);
      }
    }
  }

  /** At no point of the run, its end included, did key have as many rivals as the capacity. */
  ghost predicate NeverCrowded(s: Lru, capacity: nat, ops: seq<Op>, key: Key)
    requires capacity > 0
  {
    && |Rivals(s, capacity, ops, key)| < capacity
    && (ops != [] ==> NeverCrowded(s, capacity, ops[..|ops| - 1], key))
  }

  /**
   * The exact retention law.  Take a key just used, so at the front, and a run that never writes,
   * deletes or expires it.  It is still resident, with its entry, exactly when at no point of the
   * run it had as many rivals as the capacity.
   */
  lemma {:induction false} RetentionLaw(s: Lru, capacity: nat, ops: seq<Op>, key: Key)
    requires capacity > 0 && WellFormed(s, capacity) && s.order != [] && s.order[0] == key
    requires forall i :: 0 <= i < |ops| ==> Undisturbed(ops[i], key, s.entries[key])
    ensures key in Run(s, capacity, ops).entries <==> NeverCrowded(s, capacity, ops, key)
    ensures key in Run(s, capacity, ops).entries ==>
      && Run(s, capacity, ops).entries[key] == s.entries[key]
      && Ahead(Run(s, capacity, ops).order, key) == Rivals(s, capacity, ops, key)
  {
    if ops != [] {
      var n := |ops| - 1;
      var before, op := Run(s, capacity, ops[..n]), ops[n];
      RetentionLaw(s, capacity, ops[..n], key);
      RunKeepsWellFormed(s, capacity, ops[..n]);
      if key in before.entries {
        RetentionStep(before, capacity, op, key);
      } else {
        StepEntries(before, capacity, op);
      }
    }
  }

  /** The distinct other keys written or hit during a run. */
  function Others(s: Lru, capacity: nat, ops: seq<Op>, key: Key): set<Key>
    requires capacity > 0
  {
    if ops == [] then {}
    else
      var n := |ops| - 1;
      Others(s, capacity, ops[..n], key) + Used(Run(s, capacity, ops[..n]), ops[n]) - {key}
  }

  lemma {:induction false} FewOthersNeverCrowd(s: Lru, capacity: nat, ops: seq<Op>, key: Key)
    requires capacity > 0 && |Others(s, capacity, ops, key)| < capacity
    ensures Rivals(s, capacity, ops, key) <= Others(s, capacity, ops, key)
    ensures NeverCrowded(s, capacity, ops, key)
  {
    if ops != [] {
      var n := |ops| - 1;
      assert key !in Others(s, capacity, ops[..n], key) by {
        if n > 0 {
          assert ops[..n] != [];
        }
      }
      SubsetSize(Others(s, capacity, ops[..n], key), Others(s, capacity, ops, key));
      FewOthersNeverCrowd(s, capacity, ops[..n], key);
      SubsetSize(Rivals(s, capacity, ops, key), Others(s, capacity, ops, key));
    }
  }

  /**
   * The guarantee: with fewer than `capacity` distinct other keys written or hit since its last
   * use, a key that was neither rewritten, deleted nor expired is a hit with its own value.
   */
  lemma RetentionGuarantee(s: Lru, capacity: nat, ops: seq<Op>, key: Key, now: Time)
    requires capacity > 0 && WellFormed(s, capacity) && s.order != [] && s.order[0] == key
    requires forall i :: 0 <= i < |ops| ==> Undisturbed(ops[i], key, s.entries[key])
    requires |Others(s, capacity, ops, key)| < capacity
    requires !s.entries[key].IsExpired(now)
    ensures Get(Run(s, capacity, ops), key, now).1 == Some(s.entries[key].value)
  {
    FewOthersNeverCrowd(s, capacity, ops, key);
    RetentionLaw(s, capacity, ops, key);
  }

  /** The same guarantee for reachable states, counted from the operation that last used the key. */
  lemma ReachableRetention(capacity: nat, before: seq<Op>, use: Op, ops: seq<Op>, key: Key, now: Time)
    requires capacity > 0 && key in Used(Run(EMPTY, capacity, before), use)
    ensures var s := Run(EMPTY, capacity, before + [use]);
      && key in s.entries
      && (use.SetOp? ==> s.entries[key] == CacheEntry(use.value, ExpiresAt(use.ttl, use.now)))
      && ((forall i :: 0 <= i < |ops| ==> Undisturbed(ops[i], key, s.entries[key]))
          && |Others(s, capacity, ops, key)| < capacity && !s.entries[key].IsExpired(now)
          ==> Get(Run(EMPTY, capacity, before + [use] + ops), key, now).1 == Some(s.entries[key].value))
  {
    var s := Run(EMPTY, capacity, before + [use]);
    assert (before + [use])[..|before|] == before;
    RunKeepsWellFormed(EMPTY, capacity, before);
    RunKeepsWellFormed(EMPTY, capacity, before + [use]);
    StepOrder(Run(EMPTY, capacity, before), capacity, use);
    assert s.order[0] == key;
    RunConcat(EMPTY, capacity, before + [use], ops);
    if (forall i :: 0 <= i < |ops| ==> Undisturbed(ops[i], key, s.entries[key]))
       && |Others(s, capacity, ops, key)| < capacity && !s.entries[key].IsExpired(now) {
      RetentionGuarantee(s, capacity, ops, key, now);
    }
  }

  /** No operation of the run uses key. */
  ghost predicate Unused(s: Lru, capacity: nat, ops: seq<Op>, key: Key)
    requires capacity > 0
  {
    ops != [] ==>
      var n := |ops| - 1;
      key !in Used(Run(s, capacity, ops[..n]), ops[n]) && Unused(s, capacity, ops[..n], key)
  }

  /** No operation of the run removes a key of ks once the run has written it. */
  ghost predicate Spared(s: Lru, capacity: nat, ops: seq<Op>, ks: set<Key>)
    requires capacity > 0
  {
    ops != [] ==>
      var n := |ops| - 1;
      Dropped(Run(s, capacity, ops[..n]), ops[n]) !! Written(ops[..n]) * ks && Spared(s, capacity, ops[..n], ks)
  }

  lemma {:induction false} WrittenAreRivals(s: Lru, capacity: nat, ops: seq<Op>, key: Key, ks: set<Key>)
    requires capacity > 0 && Unused(s, capacity, ops, key) && Spared(s, capacity, ops, ks)
    ensures Written(ops) * ks <= Rivals(s, capacity, ops, key)
  {
    if ops != [] {
      WrittenGrows(ops);
      WrittenAreRivals(s, capacity, ops[..|ops| - 1], key, ks);
    }
  }

  /** An unused key that is still resident was not disturbed, and holds its first entry. */
  lemma {:induction false} ResidentUndisturbed(s: Lru, capacity: nat, ops: seq<Op>, key: Key)
    requires capacity > 0 && WellFormed(s, capacity) && Unused(s, capacity, ops, key)
    requires key in Run(s, capacity, ops).entries
    ensures key in s.entries && Run(s, capacity, ops).entries[key] == s.entries[key]
    ensures forall i :: 0 <= i < |ops| ==> Undisturbed(ops[i], key, s.entries[key])
  {
    if ops != [] {
      var n := |ops| - 1;
      var before := Run(s, capacity, ops[..n]);
      RunKeepsWellFormed(s, capacity, ops[..n]);
      UnusedSurvivor(before, capacity, ops[n], key);
      ResidentUndisturbed(s, capacity, ops[..n], key);
      OneMoreUndisturbed(ops[..n], ops[n], key, s.entries[key]);
      assert ops == ops[..n] + [ops[n]];
    }
  }

  lemma OneMoreUndisturbed(ops: seq<Op>, op: Op, key: Key, entry: CacheEntry)
    requires Undisturbed(op, key, entry) && forall i :: 0 <= i < |ops| ==> Undisturbed(ops[i], key, entry)
    ensures forall i :: 0 <= i < |ops + [op]| ==> Undisturbed((ops + [op])[i], key, entry)
  {
  }

  lemma UnusedSurvivor(s: Lru, capacity: nat, op: Op, key: Key)
    requires capacity > 0 && WellFormed(s, capacity) && key !in Used(s, op)
    requires key in Step(s, capacity, op).0.entries
    ensures key in s.entries && Step(s, capacity, op).0.entries[key] == s.entries[key]
    ensures Undisturbed(op, key, s.entries[key])
  {
    StepEntries(s, capacity, op);
    SurvivorUndisturbed(s, capacity, op, key);
  }

  lemma SurvivorUndisturbed(s: Lru, capacity: nat, op: Op, key: Key)
    requires capacity > 0 && key in s.entries && key !in Used(s, op)
    requires key in Step(s, capacity, op).0.entries
    ensures Undisturbed(op, key, s.entries[key])
  {
  }

  /** The bound is tight: once `capacity` other keys are written and none of those removed, the key is gone. */
  lemma RetentionIsTight(s: Lru, capacity: nat, ops: seq<Op>, key: Key, ks: set<Key>)
    requires capacity > 0 && WellFormed(s, capacity) && s.order != [] && s.order[0] == key
    requires Unused(s, capacity, ops, key) && Spared(s, capacity, ops, ks)
    requires ks <= Written(ops) && |ks| >= capacity
    ensures key !in Run(s, capacity, ops).entries
  {
    if key in Run(s, capacity, ops).entries {
      ResidentUndisturbed(s, capacity, ops, key);
      WrittenAreRivals(s, capacity, ops, key, ks);
      SubsetSize(ks, Rivals(s, capacity, ops, key));
      RetentionLaw(s, capacity, ops, key);
    }
  }

  /** A run of nothing but SETs of other keys. */
  predicate Flood(ops: seq<Op>, key: Key) {
    forall i :: 0 <= i < |ops| ==> ops[i].SetOp? && ops[i].key != key
  }

  lemma {:induction false} FloodSpares(s: Lru, capacity: nat, ops: seq<Op>, key: Key, ks: set<Key>)
    requires capacity > 0 && Flood(ops, key)
    ensures Unused(s, capacity, ops, key) && Spared(s, capacity, ops, ks)
    ensures Others(s, capacity, ops, key) <= Written(ops)
  {
    if ops != [] {
      WrittenGrows(ops);
      FloodSpares(s, capacity, ops[..|ops| - 1], key, ks);
    }
  }

  /**
   * In the simplest case: after SETs of other keys only, the key that was used last before them is
   * resident, with its own entry, if and only if fewer distinct keys were written than fit.
   */
  lemma FloodLaw(s: Lru, capacity: nat, ops: seq<Op>, key: Key)
    requires capacity > 0 && WellFormed(s, capacity) && s.order != [] && s.order[0] == key
    requires forall i :: 0 <= i < |ops| ==> ops[i].SetOp? && ops[i].key != key
    ensures key in Run(s, capacity, ops).entries <==> |Written(ops)| < capacity
    ensures key in Run(s, capacity, ops).entries ==> Run(s, capacity, ops).entries[key] == s.entries[key]
  {
    FloodSpares(s, capacity, ops, key, Written(ops));
    if |Written(ops)| < capacity {
      SubsetSize(Others(s, capacity, ops, key), Written(ops));
      FewOthersNeverCrowd(s, capacity, ops, key);
      RetentionLaw(s, capacity, ops, key);
    } else {
      RetentionIsTight(s, capacity, ops, key, Written(ops));
    }
  }
}

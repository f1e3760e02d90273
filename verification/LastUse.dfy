/** The recency order is the order of last use, so an eviction takes the key unused for longest. */
module LastUse {
  import opened Sequences
  import opened CacheModel
  import opened Runs

  /** The index of the last operation of a run from the empty cache that wrote or hit key; -1 if none. */
  function LastUse(capacity: nat, ops: seq<Op>, key: Key): int
    requires capacity > 0
  {
    if ops == [] then -1
    else
      var n := |ops| - 1;
      if key in Used(Run(EMPTY, capacity, ops[..n]), ops[n]) then n else LastUse(capacity, ops[..n], key)
  }

  lemma {:induction false} LastUseBound(capacity: nat, ops: seq<Op>, key: Key)
    requires capacity > 0
    ensures LastUse(capacity, ops, key) < |ops|
  {
    if ops != [] {
      LastUseBound(capacity, ops[..|ops| - 1], key);
    }
  }

  /** The relation "used more recently than". */
  ghost function MoreRecent(capacity: nat, ops: seq<Op>): (Key, Key) -> bool
    requires capacity > 0
  {
    (a, b) => LastUse(capacity, ops, a) > LastUse(capacity, ops, b)
  }

  lemma {:induction false} OrderIsSorted(capacity: nat, ops: seq<Op>)
    requires capacity > 0
    ensures Sorted(Run(EMPTY, capacity, ops).order, MoreRecent(capacity, ops))
    ensures forall k :: k in Run(EMPTY, capacity, ops).order ==> 0 <= LastUse(capacity, ops, k)
  {
    if ops != [] {
      var n := |ops| - 1;
      var before, op := Run(EMPTY, capacity, ops[..n]), ops[n];
      var kept := Run(EMPTY, capacity, ops).entries.Keys - Used(before, op);
      OrderIsSorted(capacity, ops[..n]);
      RunKeepsWellFormed(EMPTY, capacity, ops[..n]);
      StepOrder(before, capacity, op);
      forall k
        ensures LastUse(capacity, ops[..n], k) < n
      {
        LastUseBound(capacity, ops[..n], k);
      }
      KeepSorted(before.order, kept, MoreRecent(capacity, ops[..n]), MoreRecent(capacity, ops));
      if Used(before, op) != {} {
        SortedCons(op.key, Keep(before.order, kept), MoreRecent(capacity, ops));
      } else {
        assert [] + Keep(before.order, kept) == Keep(before.order, kept);
      }
    }
  }

  /** At every reachable state the order is strictly decreasing in last use. */
  lemma OrderIsLastUseOrder(capacity: nat, ops: seq<Op>)
    requires capacity > 0
    ensures var order := Run(EMPTY, capacity, ops).order;
      && (forall i, j :: 0 <= i < j < |order| ==> LastUse(capacity, ops, order[i]) > LastUse(capacity, ops, order[j]))
      && (forall i :: 0 <= i < |order| ==> 0 <= LastUse(capacity, ops, order[i]))
  {
    OrderIsSorted(capacity, ops);
    SortedIndices(Run(EMPTY, capacity, ops).order, MoreRecent(capacity, ops));
  }

  /**
   * Writing a new key into a full cache evicts exactly one key, and every other resident key was
   * used more recently than that one.
   */
  lemma EvictionTakesOldest(capacity: nat, ops: seq<Op>, key: Key, value: string, ttl: Option<int>, now: Time)
    returns (victim: Key)
    requires capacity > 0
    requires var s := Run(EMPTY, capacity, ops); key !in s.entries && |s.entries| == capacity
    ensures var s, r := Run(EMPTY, capacity, ops), Set(Run(EMPTY, capacity, ops), capacity, key, value, ttl, now);
      && victim in s.entries
      && r.entries.Keys == s.entries.Keys - {victim} + {key}
      && forall k :: k in s.entries && k != victim ==> LastUse(capacity, ops, k) > LastUse(capacity, ops, victim)
  {
    var s := Run(EMPTY, capacity, ops);
    RunKeepsWellFormed(EMPTY, capacity, ops);
    SizeIsOrderLength(s, capacity);
    OrderIsSorted(capacity, ops);
    SortedLast(s.order, MoreRecent(capacity, ops));
    EvictEffect(s, capacity);
    WithoutLast(s, capacity);
    victim := s.order[capacity - 1];
  }

  /** ops[j] writes key, or is a GET that finds it. */
  ghost predicate Uses(capacity: nat, ops: seq<Op>, j: nat, key: Key)
    requires capacity > 0 && j < |ops|
  {
    || (ops[j].SetOp? && ops[j].key == key)
    || (ops[j].GetOp? && ops[j].key == key && Get(Run(EMPTY, capacity, ops[..j]), key, ops[j].now).1.Some?)
  }

  lemma UsesBefore(capacity: nat, ops: seq<Op>, i: nat, key: Key)
    requires capacity > 0 && i < |ops| - 1
    ensures Uses(capacity, ops, i, key) <==> Uses(capacity, ops[..|ops| - 1], i, key)
  {
    assert ops[..|ops| - 1][..i] == ops[..i] && ops[..|ops| - 1][i] == ops[i];
  }

  lemma UsesLast(capacity: nat, ops: seq<Op>, key: Key)
    requires capacity > 0 && ops != []
    ensures Uses(capacity, ops, |ops| - 1, key) <==> LastUse(capacity, ops, key) == |ops| - 1
    ensures !Uses(capacity, ops, |ops| - 1, key) ==> LastUse(capacity, ops, key) == LastUse(capacity, ops[..|ops| - 1], key)
  {
    LastUseBound(capacity, ops[..|ops| - 1], key);
  }

  /** j is the last operation that uses key. */
  ghost predicate UsesAtLast(capacity: nat, ops: seq<Op>, j: nat, key: Key)
    requires capacity > 0 && j < |ops|
  {
    Uses(capacity, ops, j, key) && forall i :: j < i < |ops| ==> !Uses(capacity, ops, i, key)
  }

  lemma UsesAtLastBefore(capacity: nat, ops: seq<Op>, j: nat, key: Key)
    requires capacity > 0 && j < |ops| - 1
    ensures UsesAtLast(capacity, ops, j, key)
       <==> UsesAtLast(capacity, ops[..|ops| - 1], j, key) && !Uses(capacity, ops, |ops| - 1, key)
  {
    var n := |ops| - 1;
    var before := ops[..n];
    forall i | 0 <= i < n
      ensures Uses(capacity, ops, i, key) <==> Uses(capacity, before, i, key)
    {
      UsesBefore(capacity, ops, i, key);
    }
    if UsesAtLast(capacity, before, j, key) && !Uses(capacity, ops, n, key) {
      forall i | j < i < |ops|
        ensures !Uses(capacity, ops, i, key)
      {
        assert i < n ==> !Uses(capacity, before, i, key);
      }
    }
  }

  /** The last use of a key is the last SET of it or GET that found it, if there is one. */
  lemma {:induction false} LastUseMeans(capacity: nat, ops: seq<Op>, key: Key, j: nat)
    requires capacity > 0 && j < |ops|
    ensures LastUse(capacity, ops, key) == j <==> UsesAtLast(capacity, ops, j, key)
  {
    UsesLast(capacity, ops, key);
    if j < |ops| - 1 {
      LastUseMeans(capacity, ops[..|ops| - 1], key, j);
      UsesAtLastBefore(capacity, ops, j, key);
    }
  }
}

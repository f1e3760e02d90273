/**
 * LRU inclusion: two caches of different capacity that see the same operations at the same clock
 * readings.  The small one is always the part of the large one that its own keys select.
 */
module Inclusion {
  import opened Sequences
  import opened CacheModel
  import opened Runs

  /**
   * The small order is a subsequence of the large one, shared keys hold the same entries, and the
   * large cache has no more extra keys than extra room.
   */
  ghost predicate Included(small: Lru, c: nat, large: Lru, C: nat) {
    && WellFormed(small, c) && WellFormed(large, C)
    && small.entries.Keys <= large.entries.Keys
    && small.order == Keep(large.order, small.entries.Keys)
    && (forall k :: k in small.entries ==> small.entries[k] == large.entries[k])
    && |large.order| - |small.order| <= C - c
  }

  /** Removing the same keys from both, or fewer from neither, keeps the subsequence. */
  lemma RestrictBoth(large: seq<Key>, ks: set<Key>, ls: set<Key>, js: set<Key>)
    requires js <= ls && js <= ks
    ensures Keep(Keep(large, ks), js) == Keep(Keep(large, ls), js)
  {
    KeepKeep(large, ks, js);
    KeepKeep(large, ls, js);
    assert ks * js == js == ls * js;
  }

  /** Putting one key in front of both orders keeps the subsequence. */
  lemma FrontBoth(large: seq<Key>, ks: set<Key>, key: Key, js: set<Key>, ls: set<Key>)
    requires js <= ks && js <= ls && key !in js && key !in ls
    ensures [key] + Keep(Keep(large, ks), js) == Keep([key] + Keep(large, ls), js + {key})
  {
    RestrictBoth(large, ks, ls, js);
    KeepConcat([key], Keep(large, ls), js + {key});
    KeepAgree(Keep(large, ls), js + {key}, js);
    assert Keep([key], js + {key}) == [key];
  }

  /** Making room takes the last key of a full cache and nothing else. */
  lemma RoomKeys(s: Lru, capacity: nat)
    requires capacity > 0 && WellFormed(s, capacity)
    ensures var r := MostRecent(s, capacity - 1);
      && r.entries.Keys == (if |s.order| < capacity then s.entries.Keys else s.entries.Keys - {s.order[capacity - 1]})
      && |r.order| == if |s.order| < capacity then |s.order| else capacity - 1
  {
    if |s.order| == capacity {
      EvictEffect(s, capacity);
      WithoutLast(s, capacity);
    }
  }

  /** If the large cache must evict for a key, so must the small one, which loses that victim as well. */
  lemma EvictTogether(small: Lru, c: nat, large: Lru, C: nat)
    requires 0 < c <= C && Included(small, c, large, C)
    ensures |large.order| == C ==> |small.order| == c
    ensures |large.order| == C && large.order[C - 1] in small.entries ==> small.order[c - 1] == large.order[C - 1]
  {
    if |large.order| == C && large.order[C - 1] in small.entries {
      KeepLast(large.order, small.entries.Keys);
    }
  }

  lemma RoomKeepsKeys(small: Lru, c: nat, large: Lru, C: nat)
    requires 0 < c <= C && Included(small, c, large, C)
    ensures MostRecent(small, c - 1).entries.Keys <= MostRecent(large, C - 1).entries.Keys
    ensures |MostRecent(large, C - 1).order| - |MostRecent(small, c - 1).order| <= C - c
  {
    EvictTogether(small, c, large, C);
    RoomKeys(small, c);
    RoomKeys(large, C);
  }

  /** After a SET the small keys, the written one aside, still lie within the large ones. */
  lemma SetKeys(small: Lru, c: nat, large: Lru, C: nat, key: Key, value: string, ttl: Option<int>, now: Time)
    requires 0 < c <= C && Included(small, c, large, C)
    ensures var s, l := Set(small, c, key, value, ttl, now), Set(large, C, key, value, ttl, now);
      && s.entries.Keys <= l.entries.Keys
      && s.entries.Keys - {key} <= small.entries.Keys
      && |l.order| - |s.order| <= C - c
      && forall k :: k in s.entries ==> s.entries[k] == l.entries[k]
  {
    RoomKeepsKeys(small, c, large, C);
    MostRecentIsOnly(small, c, c - 1);
    MostRecentIsOnly(large, C, C - 1);
    SetSize(small, c, key, value, ttl, now);
    SetSize(large, C, key, value, ttl, now);
  }

  lemma SetKeepsInclusion(small: Lru, c: nat, large: Lru, C: nat, key: Key, value: string, ttl: Option<int>, now: Time)
    requires 0 < c <= C && Included(small, c, large, C)
    ensures Included(Set(small, c, key, value, ttl, now), c, Set(large, C, key, value, ttl, now), C)
  {
    var s, l := Set(small, c, key, value, ttl, now), Set(large, C, key, value, ttl, now);
    SetKeepsWellFormed(small, c, key, value, ttl, now);
    SetKeepsWellFormed(large, C, key, value, ttl, now);
    SetKeys(small, c, large, C, key, value, ttl, now);
    SetOrder(small, c, key, value, ttl, now);
    SetOrder(large, C, key, value, ttl, now);
    FrontBoth(large.order, small.entries.Keys, key, s.entries.Keys - {key}, l.entries.Keys - {key});
    assert s.entries.Keys - {key} + {key} == s.entries.Keys;
  }

  lemma SetSize(s: Lru, capacity: nat, key: Key, value: string, ttl: Option<int>, now: Time)
    requires capacity > 0 && WellFormed(s, capacity)
    ensures |Set(s, capacity, key, value, ttl, now).order|
         == if key in s.entries then |s.order| else |MostRecent(s, capacity - 1).order| + 1
  {
    MostRecentIsOnly(s, capacity, capacity - 1);
    AtFrontKeepsWellFormed(if key in s.entries then s else MostRecent(s, capacity - 1), capacity, key,
                           CacheEntry(value, ExpiresAt(ttl, now)));
  }

  lemma OnlySize(s: Lru, capacity: nat, ks: set<Key>)
    requires WellFormed(s, capacity)
    ensures WellFormed(Only(s, ks), capacity)
    ensures |s.order| == |s.entries.Keys|
    ensures ks <= s.entries.Keys ==> Only(s, ks).entries.Keys == ks && |Only(s, ks).order| == |ks|
  {
    OnlyKeepsWellFormed(s, capacity, ks);
    SizeIsOrderLength(s, capacity);
    SizeIsOrderLength(Only(s, ks), capacity);
  }

  lemma DropOrder(small: seq<Key>, large: seq<Key>, ks: set<Key>, ls: set<Key>, gone: set<Key>)
    requires ks <= ls && small == Keep(large, ks)
    ensures Keep(small, ks - gone) == Keep(Keep(large, ls - gone), ks - gone)
  {
    RestrictBoth(large, ks, ls - gone, ks - gone);
  }

  /** Dropping from both caches, wherever resident, the same keys. */
  lemma DropKeepsInclusion(small: Lru, c: nat, large: Lru, C: nat, gone: set<Key>)
    requires c <= C && Included(small, c, large, C)
    ensures Included(Only(small, small.entries.Keys - gone), c, Only(large, large.entries.Keys - gone), C)
  {
    var ks, ls := small.entries.Keys, large.entries.Keys;
    OnlySize(small, c, ks - gone);
    OnlySize(large, C, ls - gone);
    DropOrder(small.order, large.order, ks, ls, gone);
    ExtraKeys(ks, ls, gone);
  }

  lemma ExtraKeys(ks: set<Key>, ls: set<Key>, gone: set<Key>)
    requires ks <= ls
    ensures |ls - gone| - |ks - gone| <= |ls| - |ks|
  {
    SubsetSize(ks, ls);
    SubsetSize(ks - gone, ls - gone);
    SubsetSize((ls - gone) - (ks - gone), ls - ks);
  }

  /** A GET that hits only in the large cache reorders only that one: a miss fills nothing. */
  lemma LargeHitKeepsInclusion(small: Lru, c: nat, large: Lru, C: nat, key: Key)
    requires Included(small, c, large, C) && key in large.entries && key !in small.entries
    ensures Included(small, c, AtFront(large, key, large.entries[key]), C)
  {
    var ks, ls := small.entries.Keys, large.entries.Keys;
    AtFrontKeepsWellFormed(large, C, key, large.entries[key]);
    KeepConcat([key], Keep(large.order, ls - {key}), ks);
    KeepKeep(large.order, ls - {key}, ks);
    assert (ls - {key}) * ks == ks;
    assert Keep([key], ks) == [];
  }

  lemma BothHitOrder(small: seq<Key>, large: seq<Key>, ks: set<Key>, ls: set<Key>, key: Key)
    requires ks <= ls && small == Keep(large, ks) && key in ks
    ensures [key] + Keep(small, ks - {key}) == Keep([key] + Keep(large, ls - {key}), ks)
  {
    FrontBoth(large, ks, key, ks - {key}, ls - {key});
    assert ks - {key} + {key} == ks;
  }

  /** A hit changes the order alone, and not its length. */
  lemma HitKeepsEntries(s: Lru, capacity: nat, key: Key)
    requires WellFormed(s, capacity) && key in s.entries
    ensures var r := AtFront(s, key, s.entries[key]);
      && WellFormed(r, capacity) && r.entries == s.entries && |r.order| == |s.order|
      && r.order == [key] + Keep(s.order, s.entries.Keys - {key})
  {
    AtFrontKeepsWellFormed(s, capacity, key, s.entries[key]);
    assert s.entries[key := s.entries[key]] == s.entries;
  }

  lemma BothHitKeepsInclusion(small: Lru, c: nat, large: Lru, C: nat, key: Key)
    requires Included(small, c, large, C) && key in small.entries
    ensures Included(AtFront(small, key, small.entries[key]), c, AtFront(large, key, large.entries[key]), C)
  {
    HitKeepsEntries(small, c, key);
    HitKeepsEntries(large, C, key);
    BothHitOrder(small.order, large.order, small.entries.Keys, large.entries.Keys, key);
  }

  lemma StepKeepsInclusion(small: Lru, c: nat, large: Lru, C: nat, op: Op)
    requires 0 < c <= C && Included(small, c, large, C)
    ensures Included(Step(small, c, op).0, c, Step(large, C, op).0, C)
  {
    if op.SetOp? {
      SetKeepsInclusion(small, c, large, C, op.key, op.value, op.ttl, op.now);
    } else if Used(small, op) != {} {
      BothHitKeepsInclusion(small, c, large, C, op.key);
    } else if Used(large, op) != {} {
      UnusedStep(small, c, op);
      LargeHitKeepsInclusion(small, c, large, C, op.key);
    } else {
      var gone := Dropped(large, op);
      UnusedStep(small, c, op);
      UnusedStep(large, C, op);
      assert small.entries.Keys - Dropped(small, op) == small.entries.Keys - gone;
      DropKeepsInclusion(small, c, large, C, gone);
    }
  }

  /** LRU inclusion: the small cache is contained in the large one after any run. */
  lemma {:induction false} RunInclusion(c: nat, C: nat, ops: seq<Op>)
    requires 0 < c <= C
    ensures Included(Run(EMPTY, c, ops), c, Run(EMPTY, C, ops), C)
  {
    if ops != [] {
      var n := |ops| - 1;
      RunInclusion(c, C, ops[..n]);
      StepKeepsInclusion(Run(EMPTY, c, ops[..n]), c, Run(EMPTY, C, ops[..n]), C, ops[n]);
    }
  }

  /** A hit at the small capacity is the same hit, with the same value, at the large one. */
  lemma HitCarriesOver(c: nat, C: nat, ops: seq<Op>, key: Key, now: Time)
    requires 0 < c <= C
    requires Get(Run(EMPTY, c, ops), key, now).1.Some?
    ensures Get(Run(EMPTY, C, ops), key, now).1 == Get(Run(EMPTY, c, ops), key, now).1
  {
    RunInclusion(c, C, ops);
  }

  /** The number of GETs of a run that hit. */
  function Hits(capacity: nat, ops: seq<Op>): nat
    requires capacity > 0
  {
    if ops == [] then 0
    else
      var n := |ops| - 1;
      var hit := ops[n].GetOp? && Get(Run(EMPTY, capacity, ops[..n]), ops[n].key, ops[n].now).1.Some?;
      Hits(capacity, ops[..n]) + if hit then 1 else 0
  }

  /** More capacity never costs a hit. */
  lemma {:induction false} HitsMonotone(c: nat, C: nat, ops: seq<Op>)
    requires 0 < c <= C
    ensures Hits(c, ops) <= Hits(C, ops)
  {
    if ops != [] {
      var n := |ops| - 1;
      HitsMonotone(c, C, ops[..n]);
      RunInclusion(c, C, ops[..n]);
    }
  }

  /** The extra keys of the larger cache number at most C - c. */
  lemma FewExtraKeys(c: nat, C: nat, ops: seq<Op>)
    requires 0 < c <= C
    ensures |Run(EMPTY, C, ops).entries.Keys - Run(EMPTY, c, ops).entries.Keys| <= C - c
  {
    var small, large := Run(EMPTY, c, ops), Run(EMPTY, C, ops);
    RunInclusion(c, C, ops);
    SizeIsOrderLength(small, c);
    SizeIsOrderLength(large, C);
    SubsetSize(small.entries.Keys, large.entries.Keys);
  }

  /** A run that hits once with room for two keys, and not at all with room for one. */
  lemma RoomForTwo()
    ensures var ops := [SetOp("a", "v", None, 0)] + [SetOp("b", "w", None, 0)] + [GetOp("a", 0)];
      Hits(1, ops) == 0 && Hits(2, ops) == 1
  {
    HitsOfThree(1);
    HitsOfThree(2);
  }

  lemma HitsOfThree(capacity: nat)
    requires capacity == 1 || capacity == 2
    ensures var ops := [SetOp("a", "v", None, 0)] + [SetOp("b", "w", None, 0)] + [GetOp("a", 0)];
      Hits(capacity, ops) == capacity - 1
  {
    var first, second := [SetOp("a", "v", None, 0)], [SetOp("a", "v", None, 0)] + [SetOp("b", "w", None, 0)];
    var ops := second + [GetOp("a", 0)];
    assert first[..0] == [] && second[..1] == first && ops[..2] == second;
    var one := Run(EMPTY, capacity, first);
    assert one == Set(EMPTY, capacity, "a", "v", None, 0);
    assert one.order == ["a"] && one.entries == map["a" := CacheEntry("v", None)];
    assert "a" != "b";
    assert Run(EMPTY, capacity, second) == Set(one, capacity, "b", "w", None, 0);
    assert Hits(capacity, first) == 0 && Hits(capacity, second) == 0;
  }
}

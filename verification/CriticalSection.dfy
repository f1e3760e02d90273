/**
 * The bodies of the locked operations, one container mutation or counter access at a time.  In
 * between, order and entries may disagree; a thread without the lock must never see that.
 */
module CriticalSection {
  import opened Sequences
  import opened CacheModel
  import opened StoreModel

  /** How far the holder of the lock has come, and what it has learned. */
  datatype Stage =
    | Entered
    | Counted                                        // ++total_requests_
    | Discounted(now: Time)                          // SET, GET, DEL: old size taken off bytes_used_
    | Revalued                                       // SET: new value stored, expiry still the old one
    | Overwritten(now: Time)                         // SET: new expiry stored
    | Recounted(now: Time)                           // SET: new size on bytes_used_, key not yet moved
    | MakingRoom(evicted: bool)                      // SET: at the head of the eviction loop
    | VictimDiscounted                               // SET: the victim's size taken off bytes_used_
    | VictimForgotten                                // SET: map_ lost the victim, order_ still lists it
    | Pushed                                         // SET: order_ lists the key, map_ lacks it
    | Inserted(now: Time)                            // SET: map_ has it too, its size is not yet counted
    | Unlinked(now: Time)                            // GET, DEL: order_ lost the key, map_ still has it
    | Hit(value: string, now: Time)                  // GET: key moved, hit not yet counted
    | Missed(now: Time)                              // GET: miss not yet counted
    | ReadingStats(got: seq<nat>)
    | Visiting(pending: set<Key>, at: map<Key, Time>, listing: seq<(Key, CacheEntry)>)
    | SweepDiscounted(pending: set<Key>, at: map<Key, Time>, key: Key, now: Time)
    | SweepUnlinked(pending: set<Key>, at: map<Key, Time>, key: Key, now: Time)
    | Printing(at: map<Key, Time>, listing: seq<(Key, CacheEntry)>, shown: seq<Time>)
    | Done(reply: Reply, obs: Observed)

  function Unlist(s: Lru, key: Key): Lru {
    s.(order := Keep(s.order, s.entries.Keys - {key}))
  }

  function Forget(s: Lru, key: Key): Lru {
    s.(entries := s.entries - {key})
  }

  /** std::list::splice on a listed key. */
  function MoveToFront(s: Lru, key: Key): Lru {
    s.(order := [key] + Keep(s.order, s.entries.Keys - {key}))
  }

  function Put(s: Lru, key: Key, entry: CacheEntry): Lru {
    s.(entries := s.entries[key := entry])
  }

  function At(now: Time): Observed {
    Observed(now, map[], [], [])
  }

  /** The counters in the order in which get_stats reads them. */
  function Gauges(st: Store): seq<nat> {
    [st.requests, st.hits, st.misses, st.bytes, st.connections]
  }

  // ---- The next step of each operation on the shared containers ---------------------------------
  // now is the clock, pick the key that the hash iteration comes to next.

  function SetStep(s: Lru, capacity: nat, key: Key, value: string, ttl: Option<int>, stage: Stage, now: Time)
    : (Lru, Stage)
  {
    match stage
    case Entered => (s, Counted)
    case Counted => if key in s.entries then (s, Discounted(now)) else (s, MakingRoom(false))
    case Discounted(_) =>
      if key !in s.entries then (s, stage) else (Put(s, key, s.entries[key].(value := value)), Revalued)
    case Revalued =>
      if key !in s.entries then (s, stage)
      else (Put(s, key, s.entries[key].(expiresAt := ExpiresAt(ttl, now))), Overwritten(now))
    case Overwritten(t) => (s, Recounted(t))
    case Recounted(t) => (MoveToFront(s, key), Done(SetDone, At(t)))
    case MakingRoom(_) =>
      if |s.entries| < capacity then (s.(order := [key] + s.order), Pushed)
      else if s.order == [] then (s, stage)
      else if s.order[|s.order| - 1] in s.entries then (s, VictimDiscounted)
      else (s, VictimForgotten)
    case VictimDiscounted =>
      if s.order == [] then (s, stage) else (Forget(s, s.order[|s.order| - 1]), VictimForgotten)
    case VictimForgotten =>
      if s.order == [] then (s, stage) else (s.(order := s.order[..|s.order| - 1]), MakingRoom(true))
    case Pushed => (Put(s, key, CacheEntry(value, ExpiresAt(ttl, now))), Inserted(now))
    case Inserted(t) => (s, Done(SetDone, At(t)))
    case _ => (s, stage)
  }

  function GetStep(s: Lru, key: Key, stage: Stage, now: Time): (Lru, Stage) {
    match stage
    case Entered => (s, Counted)
    case Counted =>
      if key !in s.entries then (s, Missed(now))
      else if s.entries[key].IsExpired(now) then (s, Discounted(now))
      else (MoveToFront(s, key), Hit(s.entries[key].value, now))
    case Discounted(t) => (Unlist(s, key), Unlinked(t))
    case Unlinked(t) => (Forget(s, key), Missed(t))
    case Hit(value, t) => (s, Done(GetDone(Some(value)), At(t)))
    case Missed(t) => (s, Done(GetDone(None), At(t)))
    case _ => (s, stage)
  }

  function DelStep(s: Lru, key: Key, stage: Stage, now: Time): (Lru, Stage) {
    match stage
    case Entered => (s, Counted)
    case Counted => if key !in s.entries then (s, Done(DelDone(false), At(now))) else (s, Discounted(now))
    case Discounted(t) => (Unlist(s, key), Unlinked(t))
    case Unlinked(t) => (Forget(s, key), Done(DelDone(true), At(t)))
    case _ => (s, stage)
  }

  function StatsStep(st: Store, stage: Stage, now: Time): Stage {
    match stage
    case Entered => ReadingStats([])
    case ReadingStats(got) =>
      if |got| < 5 then ReadingStats(got + [Gauges(st)[|got|]])
      else Done(StatsDone(Stats(got[0], got[1], got[2], got[3], got[4])), At(now))
    case _ => stage
  }

  function KeysStep(s: Lru, stage: Stage, now: Time, pick: Key): Stage {
    match stage
    case Entered => Visiting(s.entries.Keys, map[], [])
    case Visiting(pending, at, listing) =>
      if pending == {} then Printing(at, listing, [])
      else if pick !in pending || pick !in s.entries then stage
      else Visiting(pending - {pick}, at[pick := now],
                    if s.entries[pick].IsExpired(now) then listing else listing + [(pick, s.entries[pick])])
    case Printing(at, listing, shown) =>
      if |shown| < |listing| then Printing(at, listing, shown + [now])
      else if |shown| > |listing| then stage
      else Done(KeysDone(Lines(listing, shown)), Observed(now, at, listing, shown))
    case _ => stage
  }

  function SweepStep(s: Lru, stage: Stage, now: Time, pick: Key): (Lru, Stage) {
    match stage
    case Entered => (s, Visiting(s.entries.Keys, map[], []))
    case Visiting(pending, at, _) =>
      if pending == {} then (s, Done(SweepDone, Observed(now, at, [], [])))
      else if pick !in pending || pick !in s.entries then (s, stage)
      else if s.entries[pick].IsExpired(now) then (s, SweepDiscounted(pending - {pick}, at, pick, now))
      else (s, Visiting(pending - {pick}, at[pick := now], []))
    case SweepDiscounted(pending, at, key, t) => (Unlist(s, key), SweepUnlinked(pending, at, key, t))
    case SweepUnlinked(pending, at, key, t) => (Forget(s, key), Visiting(pending, at[key := t], []))
    case _ => (s, stage)
  }

  /** The step of any request on the containers. */
  function LruStep(st: Store, capacity: nat, req: Request, stage: Stage, now: Time, pick: Key): (Lru, Stage) {
    match req
    case SetReq(key, value, ttl) => SetStep(st.lru, capacity, key, value, ttl, stage, now)
    case GetReq(key) => GetStep(st.lru, key, stage, now)
    case DelReq(key) => DelStep(st.lru, key, stage, now)
    case StatsReq => (st.lru, StatsStep(st, stage, now))
    case KeysReq => (st.lru, KeysStep(st.lru, stage, now, pick))
    case SweepReq => SweepStep(st.lru, stage, now, pick)
  }

  // ---- The byte counter ---------------------------------------------------------------------------

  const SIZE_MODULUS := 0x1_0000_0000_0000_0000

  /** Subtraction on an unsigned 64-bit counter wraps around. */
  function Minus(bytes: nat, n: nat): nat {
    if n <= bytes then bytes - n else (bytes - n) % SIZE_MODULUS
  }

  predicate Counting(req: Request) {
    req.SetReq? || req.GetReq? || req.DelReq?
  }

  /** What the step from stage to next takes off the counter. */
  function Taken(s: Lru, req: Request, stage: Stage, next: Stage): nat {
    match req
    case SetReq(key, _, _) => SetTaken(s, key, stage, next)
    case GetReq(key) => EntryTaken(s, key, stage, next)
    case DelReq(key) => EntryTaken(s, key, stage, next)
    case SweepReq => if stage.Visiting? && next.SweepDiscounted? then SizeAt(s.entries, next.key) else 0
    case _ => 0
  }

  function EntryTaken(s: Lru, key: Key, stage: Stage, next: Stage): nat {
    if stage.Counted? && next.Discounted? then SizeAt(s.entries, key) else 0
  }

  function SetTaken(s: Lru, key: Key, stage: Stage, next: Stage): nat {
    if stage.MakingRoom? && next.VictimDiscounted? && s.order != [] then SizeAt(s.entries, s.order[|s.order| - 1])
    else EntryTaken(s, key, stage, next)
  }

  /** What that step adds to it. */
  function Given(req: Request, stage: Stage): nat {
    if req.SetReq? && (stage.Overwritten? || stage.Inserted?) then |req.key| + |req.value| else 0
  }

  /** The next atomic step of the lock holder, on the shared store as it finds it. */
  function Micro(st: Store, capacity: nat, req: Request, stage: Stage, now: Time, pick: Key): (Store, Stage) {
    var (lru, next) := LruStep(st, capacity, req, stage, now, pick);
    (Store(lru,
           Minus(st.bytes, Taken(st.lru, req, stage, next)) + Given(req, stage),
           st.requests + (if Counting(req) && stage.Entered? then 1 else 0),
           st.hits + (if req.GetReq? && stage.Hit? then 1 else 0),
           st.misses + (if req.GetReq? && stage.Missed? then 1 else 0),
           st.connections), next)
  }

  // ---- What the shared cache looks like at each stage, seen from the cache s at entry ------------

  function SetLru(s: Lru, capacity: nat, key: Key, value: string, ttl: Option<int>, stage: Stage): Lru
    requires capacity > 0
  {
    match stage
    case Revalued => if key in s.entries then Put(s, key, s.entries[key].(value := value)) else s
    case Overwritten(t) => Put(s, key, CacheEntry(value, ExpiresAt(ttl, t)))
    case Recounted(t) => Put(s, key, CacheEntry(value, ExpiresAt(ttl, t)))
    case MakingRoom(evicted) => if evicted then MostRecent(s, capacity - 1) else s
    case VictimForgotten => if s.order == [] then s else Forget(s, s.order[|s.order| - 1])
    case Pushed => MostRecent(s, capacity - 1).(order := [key] + MostRecent(s, capacity - 1).order)
    case Inserted(t) => Set(s, capacity, key, value, ttl, t)
    case Done(_, obs) => Set(s, capacity, key, value, ttl, obs.now)
    case _ => s
  }

  predicate SetOk(s: Lru, capacity: nat, key: Key, stage: Stage) {
    match stage
    case Entered => true
    case Counted => true
    case Discounted(_) => key in s.entries
    case Revalued => key in s.entries
    case Overwritten(_) => key in s.entries
    case Recounted(_) => key in s.entries
    case MakingRoom(evicted) => key !in s.entries && (evicted ==> |s.order| == capacity)
    case VictimDiscounted => key !in s.entries && |s.order| == capacity
    case VictimForgotten => key !in s.entries && |s.order| == capacity
    case Pushed => key !in s.entries
    case Inserted(_) => key !in s.entries
    case Done(reply, _) => reply == SetDone
    case _ => false
  }

  function GetLru(s: Lru, key: Key, stage: Stage): Lru {
    match stage
    case Unlinked(_) => Unlist(s, key)
    case Hit(_, t) => Get(s, key, t).0
    case Missed(t) => Get(s, key, t).0
    case Done(_, obs) => Get(s, key, obs.now).0
    case _ => s
  }

  predicate GetOk(s: Lru, key: Key, stage: Stage) {
    match stage
    case Entered => true
    case Counted => true
    case Discounted(t) => key in s.entries && s.entries[key].IsExpired(t)
    case Unlinked(t) => key in s.entries && s.entries[key].IsExpired(t)
    case Hit(value, t) => Get(s, key, t).1 == Some(value)
    case Missed(t) => Get(s, key, t).1 == None
    case Done(reply, obs) => reply == GetDone(Get(s, key, obs.now).1)
    case _ => false
  }

  function DelLru(s: Lru, key: Key, stage: Stage): Lru {
    match stage
    case Unlinked(_) => Unlist(s, key)
    case Done(_, _) => Del(s, key).0
    case _ => s
  }

  predicate DelOk(s: Lru, key: Key, stage: Stage) {
    match stage
    case Entered => true
    case Counted => true
    case Discounted(_) => key in s.entries
    case Unlinked(_) => key in s.entries
    case Done(reply, _) => reply == DelDone(key in s.entries)
    case _ => false
  }

  predicate StatsOk(base: Store, stage: Stage) {
    match stage
    case Entered => true
    case ReadingStats(got) => got <= Gauges(base)
    case Done(reply, _) => reply == StatsDone(Snapshot(base))
    case _ => false
  }

  ghost predicate KeysOk(s: Lru, stage: Stage) {
    match stage
    case Entered => true
    case Visiting(pending, at, listing) =>
      pending !! at.Keys && pending + at.Keys == s.entries.Keys && Lists(listing, Live(s, at))
    case Printing(at, listing, shown) =>
      at.Keys == s.entries.Keys && Lists(listing, Live(s, at)) && |shown| <= |listing|
    case Done(reply, obs) =>
      && obs.at.Keys == s.entries.Keys && Lists(obs.listing, Live(s, obs.at)) && |obs.shown| == |obs.listing|
      && reply == KeysDone(Lines(obs.listing, obs.shown))
    case _ => false
  }

  function SweepLru(s: Lru, stage: Stage): Lru {
    match stage
    case Visiting(_, at, _) => Sweep(s, at)
    case SweepDiscounted(_, at, _, _) => Sweep(s, at)
    case SweepUnlinked(_, at, key, _) => Unlist(Sweep(s, at), key)
    case Done(_, obs) => Sweep(s, obs.at)
    case _ => s
  }

  /** The sweep is at a key that it has found expired at t. */
  predicate AtExpired(s: Lru, pending: set<Key>, at: map<Key, Time>, key: Key, t: Time) {
    && key in s.entries && key !in at && key !in pending && s.entries[key].IsExpired(t)
    && pending !! at.Keys && pending + at.Keys + {key} == s.entries.Keys
  }

  predicate SweepOk(s: Lru, stage: Stage) {
    match stage
    case Entered => true
    case Visiting(pending, at, _) => pending !! at.Keys && pending + at.Keys == s.entries.Keys
    case SweepDiscounted(pending, at, key, t) => AtExpired(s, pending, at, key, t)
    case SweepUnlinked(pending, at, key, t) => AtExpired(s, pending, at, key, t)
    case Done(reply, obs) => obs.at.Keys == s.entries.Keys && reply == SweepDone
    case _ => false
  }

  // ---- Each step leads from one stage's picture to the next one's --------------------------------

  /** The eviction loop runs at most once: the cache is never over its capacity. */
  lemma OneEviction(s: Lru, capacity: nat)
    requires capacity > 0 && WellFormed(s, capacity)
    ensures |s.entries| == |s.order| <= capacity
    ensures |s.order| == capacity ==>
      var victim := s.order[capacity - 1];
      && MostRecent(s, capacity - 1) == Lru(s.order[..capacity - 1], s.entries - {victim})
      && |MostRecent(s, capacity - 1).entries| == capacity - 1
    ensures |s.order| < capacity ==> MostRecent(s, capacity - 1) == s
  {
    SizeIsOrderLength(s, capacity);
    if |s.order| == capacity {
      EvictEffect(s, capacity);
      WithoutLast(s, capacity);
      MostRecentIsOnly(s, capacity, capacity - 1);
      SizeIsOrderLength(MostRecent(s, capacity - 1), capacity);
    }
  }

  lemma EvictionTracks(s: Lru, capacity: nat, key: Key, value: string, ttl: Option<int>, stage: Stage, now: Time)
    requires capacity > 0 && WellFormed(s, capacity) && SetOk(s, capacity, key, stage)
    requires stage.MakingRoom? || stage.VictimDiscounted? || stage.VictimForgotten?
    ensures var (lru, next) := SetStep(SetLru(s, capacity, key, value, ttl, stage), capacity, key, value, ttl, stage, now);
      SetOk(s, capacity, key, next) && lru == SetLru(s, capacity, key, value, ttl, next)
  {
    OneEviction(s, capacity);
  }

  lemma UpdateTracks(s: Lru, capacity: nat, key: Key, value: string, ttl: Option<int>, stage: Stage, now: Time)
    requires capacity > 0 && key in s.entries
    requires stage.Discounted? || stage.Revalued? || stage.Overwritten? || stage.Recounted?
    ensures var (lru, next) := SetStep(SetLru(s, capacity, key, value, ttl, stage), capacity, key, value, ttl, stage, now);
      SetOk(s, capacity, key, next) && lru == SetLru(s, capacity, key, value, ttl, next)
  {
    if stage.Revalued? {
      assert s.entries[key := s.entries[key].(value := value)][key := CacheEntry(value, ExpiresAt(ttl, now))]
          == s.entries[key := CacheEntry(value, ExpiresAt(ttl, now))];
    } else if stage.Recounted? {
      UpdateThenFront(s, key, CacheEntry(value, ExpiresAt(ttl, stage.now)));
    }
  }

  lemma PushedTracks(s: Lru, capacity: nat, key: Key, value: string, ttl: Option<int>, now: Time)
    requires capacity > 0 && WellFormed(s, capacity) && key !in s.entries
    ensures var pushed := SetLru(s, capacity, key, value, ttl, Pushed);
      Put(pushed, key, CacheEntry(value, ExpiresAt(ttl, now))) == Set(s, capacity, key, value, ttl, now)
  {
    MostRecentIsOnly(s, capacity, capacity - 1);
    AtFrontKeepsWellFormed(MostRecent(s, capacity - 1), capacity, key, CacheEntry(value, ExpiresAt(ttl, now)));
  }

  lemma SetTracks(s: Lru, capacity: nat, key: Key, value: string, ttl: Option<int>, stage: Stage, now: Time)
    requires capacity > 0 && WellFormed(s, capacity) && SetOk(s, capacity, key, stage)
    ensures var (lru, next) := SetStep(SetLru(s, capacity, key, value, ttl, stage), capacity, key, value, ttl, stage, now);
      SetOk(s, capacity, key, next) && lru == SetLru(s, capacity, key, value, ttl, next)
  {
    if stage.MakingRoom? || stage.VictimDiscounted? || stage.VictimForgotten? {
      EvictionTracks(s, capacity, key, value, ttl, stage, now);
    } else if stage.Pushed? {
      PushedTracks(s, capacity, key, value, ttl, now);
    } else if !stage.Entered? && !stage.Counted? && !stage.Inserted? && !stage.Done? {
      UpdateTracks(s, capacity, key, value, ttl, stage, now);
    }
  }

  lemma GetTracks(s: Lru, key: Key, stage: Stage, now: Time)
    requires GetOk(s, key, stage)
    ensures var (lru, next) := GetStep(GetLru(s, key, stage), key, stage, now);
      GetOk(s, key, next) && lru == GetLru(s, key, next)
  {
    if stage.Counted? && key in s.entries {
      assert s.entries[key := s.entries[key]] == s.entries;
    } else if stage.Unlinked? {
      assert s.entries - {key} == Without(s, key).entries;
    }
  }

  lemma DelTracks(s: Lru, key: Key, stage: Stage, now: Time)
    requires DelOk(s, key, stage)
    ensures var (lru, next) := DelStep(DelLru(s, key, stage), key, stage, now);
      DelOk(s, key, next) && lru == DelLru(s, key, next)
  {
    assert s.entries - {key} == Without(s, key).entries;
  }

  lemma StatsTracks(base: Store, stage: Stage, now: Time)
    requires StatsOk(base, stage)
    ensures StatsOk(base, StatsStep(base, stage, now))
  {
  }

  lemma KeysTracks(s: Lru, stage: Stage, now: Time, pick: Key)
    requires KeysOk(s, stage)
    ensures KeysOk(s, KeysStep(s, stage, now, pick))
  {
    if stage.Visiting? && pick in stage.pending {
      ListOneMore(stage.listing, s, stage.at, pick, now);
    }
  }

  lemma SweepVisitTracks(s: Lru, stage: Stage, now: Time, pick: Key)
    requires SweepOk(s, stage) && stage.Visiting? && pick in stage.pending
    ensures var (lru, next) := SweepStep(SweepLru(s, stage), stage, now, pick);
      SweepOk(s, next) && lru == SweepLru(s, next)
  {
    SweepOneMore(s, stage.at, pick, now);
  }

  lemma SweepForgetTracks(s: Lru, stage: Stage, now: Time, pick: Key)
    requires SweepOk(s, stage) && stage.SweepUnlinked?
    ensures var (lru, next) := SweepStep(SweepLru(s, stage), stage, now, pick);
      SweepOk(s, next) && lru == SweepLru(s, next)
  {
    SweepOneMore(s, stage.at, stage.key, stage.now);
    var swept := Sweep(s, stage.at);
    assert swept.entries - {stage.key} == Without(swept, stage.key).entries;
  }

  lemma SweepTracks(s: Lru, capacity: nat, stage: Stage, now: Time, pick: Key)
    requires WellFormed(s, capacity) && SweepOk(s, stage)
    ensures var (lru, next) := SweepStep(SweepLru(s, stage), stage, now, pick);
      SweepOk(s, next) && lru == SweepLru(s, next)
  {
    if stage.Entered? {
      SweepNothing(s, capacity);
    } else if stage.Visiting? && pick in stage.pending {
      SweepVisitTracks(s, stage, now, pick);
    } else if stage.SweepUnlinked? {
      SweepForgetTracks(s, stage, now, pick);
    }
  }

  // ---- The whole store ---------------------------------------------------------------------------

  /** The stages a request can be in, and what it then knows about the store it entered with. */
  ghost predicate StageOk(base: Store, capacity: nat, req: Request, stage: Stage) {
    match req
    case SetReq(key, _, _) => SetOk(base.lru, capacity, key, stage)
    case GetReq(key) => GetOk(base.lru, key, stage)
    case DelReq(key) => DelOk(base.lru, key, stage)
    case StatsReq => StatsOk(base, stage)
    case KeysReq => KeysOk(base.lru, stage)
    case SweepReq => SweepOk(base.lru, stage)
  }

  /** The cache at a stage of a request that entered with cache s. */
  function LruAt(s: Lru, capacity: nat, req: Request, stage: Stage): Lru
    requires capacity > 0
  {
    match req
    case SetReq(key, value, ttl) => SetLru(s, capacity, key, value, ttl, stage)
    case GetReq(key) => GetLru(s, key, stage)
    case DelReq(key) => DelLru(s, key, stage)
    case SweepReq => SweepLru(s, stage)
    case _ => s
  }

  /** The byte counter at a stage of a request that entered with cache s, n bytes being counted. */
  function BytesAt(s: Lru, n: nat, capacity: nat, req: Request, stage: Stage): nat
    requires capacity > 0
  {
    match req
    case SetReq(key, value, _) =>
      if stage.Done? then TotalBytes(LruAt(s, capacity, req, stage)) else SetBytes(s, n, capacity, key, value, stage)
    case GetReq(key) => GetBytes(s, n, key, stage)
    case DelReq(key) => DelBytes(s, n, key, stage)
    case SweepReq => SweepBytes(s, n, stage)
    case _ => n
  }

  function SetBytes(s: Lru, n: nat, capacity: nat, key: Key, value: string, stage: Stage): nat
    requires capacity > 0
  {
    match stage
    case Discounted(_) => Less(n, SizeAt(s.entries, key))
    case Revalued => Less(n, SizeAt(s.entries, key))
    case Overwritten(_) => Less(n, SizeAt(s.entries, key))
    case Recounted(_) => Less(n, SizeAt(s.entries, key)) + (|key| + |value|)
    case MakingRoom(evicted) => if evicted then TotalBytes(MostRecent(s, capacity - 1)) else n
    case VictimDiscounted => TotalBytes(MostRecent(s, capacity - 1))
    case VictimForgotten => TotalBytes(MostRecent(s, capacity - 1))
    case Pushed => TotalBytes(MostRecent(s, capacity - 1))
    case Inserted(_) => TotalBytes(MostRecent(s, capacity - 1))
    case _ => n
  }

  function GetBytes(s: Lru, n: nat, key: Key, stage: Stage): nat {
    match stage
    case Discounted(_) => Less(n, SizeAt(s.entries, key))
    case Unlinked(_) => Less(n, SizeAt(s.entries, key))
    case Missed(t) => TotalBytes(Get(s, key, t).0)
    case Done(_, obs) => TotalBytes(Get(s, key, obs.now).0)
    case _ => n
  }

  function DelBytes(s: Lru, n: nat, key: Key, stage: Stage): nat {
    match stage
    case Discounted(_) => Less(n, SizeAt(s.entries, key))
    case Unlinked(_) => Less(n, SizeAt(s.entries, key))
    case Done(_, _) => TotalBytes(Del(s, key).0)
    case _ => n
  }

  function SweepBytes(s: Lru, n: nat, stage: Stage): nat {
    match stage
    case Visiting(_, at, _) => TotalBytes(Sweep(s, at))
    case SweepDiscounted(_, at, key, _) => Less(TotalBytes(Sweep(s, at)), SizeAt(s.entries, key))
    case SweepUnlinked(_, at, key, _) => Less(TotalBytes(Sweep(s, at)), SizeAt(s.entries, key))
    case Done(_, obs) => TotalBytes(Sweep(s, obs.at))
    case _ => n
  }

  function Less(n: nat, m: nat): nat {
    if m <= n then n - m else 0
  }

  /** The shared store at a stage of a request that entered with store base. */
  function StoreAt(base: Store, capacity: nat, req: Request, stage: Stage): Store
    requires capacity > 0
  {
    var answered := req.GetReq? && stage.Done? && stage.reply.GetDone?;
    Store(LruAt(base.lru, capacity, req, stage),
          BytesAt(base.lru, base.bytes, capacity, req, stage),
          base.requests + (if Counting(req) && !stage.Entered? then 1 else 0),
          base.hits + (if answered && stage.reply.value.Some? then 1 else 0),
          base.misses + (if answered && stage.reply.value.None? then 1 else 0),
          base.connections)
  }

  // ---- The byte counter never wraps, and arrives at the size of what is resident -------------------

  /** Taking and giving leads from one value of the counter to the next, without wrapping it. */
  predicate Follows(bytes: nat, taken: nat, given: nat, after: nat) {
    taken <= bytes && bytes - taken + given == after
  }

  /** Taking a key out, and putting one in front. */
  lemma TotalWithout(s: Lru, capacity: nat, key: Key)
    requires WellFormed(s, capacity) && key in s.entries
    ensures SizeAt(s.entries, key) <= TotalBytes(s) && TotalBytes(Without(s, key)) == TotalBytes(s) - SizeAt(s.entries, key)
  {
    BytesWithout(s, capacity, key);
  }

  lemma TotalAtFront(s: Lru, capacity: nat, key: Key, entry: CacheEntry)
    requires WellFormed(s, capacity) && (key in s.entries || |s.order| < capacity)
    ensures SizeAt(s.entries, key) <= TotalBytes(s)
    ensures TotalBytes(AtFront(s, key, entry)) == TotalBytes(s) - SizeAt(s.entries, key) + Size(key, entry)
  {
    BytesAtFront(s, capacity, key, entry);
    AtFrontKeepsWellFormed(s, capacity, key, entry);
    if key in s.entries {
      TotalWithout(s, capacity, key);
    }
  }

  /** The victim's size is all that making room takes off. */
  lemma TotalAfterEviction(s: Lru, capacity: nat)
    requires capacity > 0 && WellFormed(s, capacity)
    ensures |s.order| < capacity ==> TotalBytes(MostRecent(s, capacity - 1)) == TotalBytes(s)
    ensures |s.order| == capacity ==>
      var victim := s.order[capacity - 1];
      && victim in s.entries && SizeAt(s.entries, victim) <= TotalBytes(s)
      && TotalBytes(MostRecent(s, capacity - 1)) == TotalBytes(s) - SizeAt(s.entries, victim)
  {
    if |s.order| == capacity {
      assert s.order[capacity - 1] in s.order;
      WithoutLast(s, capacity);
      TotalWithout(s, capacity, s.order[capacity - 1]);
    }
  }

  /** A step of a SET, the last one aside, does to the byte counter what the next stage's picture says. */
  predicate SetFollows(s: Lru, n: nat, capacity: nat, key: Key, value: string, ttl: Option<int>, stage: Stage, now: Time)
    requires capacity > 0
  {
    var lru := SetLru(s, capacity, key, value, ttl, stage);
    var next := SetStep(lru, capacity, key, value, ttl, stage, now).1;
    && !next.Done?
    && Follows(SetBytes(s, n, capacity, key, value, stage), SetTaken(lru, key, stage, next),
               Given(SetReq(key, value, ttl), stage), SetBytes(s, n, capacity, key, value, next))
  }

  /** The stages of a SET of a resident key, between entry and the final move. */
  lemma UpdateBytesFollow(s: Lru, n: nat, capacity: nat, key: Key, value: string, ttl: Option<int>, stage: Stage, now: Time)
    requires capacity > 0 && WellFormed(s, capacity) && n == TotalBytes(s) && key in s.entries
    requires stage.Counted? || stage.Discounted? || stage.Revalued? || stage.Overwritten?
    ensures SetFollows(s, n, capacity, key, value, ttl, stage, now)
  {
    TotalWithout(s, capacity, key);
  }

  /** The eviction loop at its head, on a cache that is full. */
  lemma FullShape(lru: Lru, capacity: nat, key: Key, value: string, ttl: Option<int>, evicted: bool, now: Time)
    requires |lru.entries| >= capacity && lru.order != [] && lru.order[|lru.order| - 1] in lru.entries
    ensures var next := SetStep(lru, capacity, key, value, ttl, MakingRoom(evicted), now).1;
      && next == VictimDiscounted
      && SetTaken(lru, key, MakingRoom(evicted), next) == SizeAt(lru.entries, lru.order[|lru.order| - 1])
  {
  }

  lemma RoomBytesFollow(s: Lru, n: nat, capacity: nat, key: Key, value: string, ttl: Option<int>, stage: Stage, now: Time)
    requires capacity > 0 && WellFormed(s, capacity) && n == TotalBytes(s) && SetOk(s, capacity, key, stage)
    requires stage.MakingRoom?
    ensures SetFollows(s, n, capacity, key, value, ttl, stage, now)
  {
    OneEviction(s, capacity);
    TotalAfterEviction(s, capacity);
    if !stage.evicted && |s.order| == capacity {
      FullShape(s, capacity, key, value, ttl, stage.evicted, now);
    }
  }

  /** The stages of a SET of a new key, up to its insertion. */
  lemma InsertBytesFollow(s: Lru, n: nat, capacity: nat, key: Key, value: string, ttl: Option<int>, stage: Stage, now: Time)
    requires capacity > 0 && WellFormed(s, capacity) && n == TotalBytes(s) && SetOk(s, capacity, key, stage)
    requires stage.MakingRoom? || stage.VictimDiscounted? || stage.VictimForgotten? || stage.Pushed?
    ensures SetFollows(s, n, capacity, key, value, ttl, stage, now)
  {
    if stage.MakingRoom? {
      RoomBytesFollow(s, n, capacity, key, value, ttl, stage, now);
    }
  }

  lemma SetBytesEnd(s: Lru, n: nat, capacity: nat, key: Key, value: string, ttl: Option<int>, stage: Stage)
    requires capacity > 0 && WellFormed(s, capacity) && n == TotalBytes(s) && SetOk(s, capacity, key, stage)
    requires stage.Recounted? || stage.Inserted?
    ensures Follows(SetBytes(s, n, capacity, key, value, stage), 0, Given(SetReq(key, value, ttl), stage),
                    TotalBytes(Set(s, capacity, key, value, ttl, stage.now)))
  {
    var entry := CacheEntry(value, ExpiresAt(ttl, stage.now));
    if stage.Recounted? {
      TotalAtFront(s, capacity, key, entry);
    } else {
      MostRecentIsOnly(s, capacity, capacity - 1);
      TotalAtFront(MostRecent(s, capacity - 1), capacity, key, entry);
    }
  }

  lemma SetBytesFollow(s: Lru, n: nat, capacity: nat, key: Key, value: string, ttl: Option<int>, stage: Stage, now: Time)
    requires capacity > 0 && WellFormed(s, capacity) && n == TotalBytes(s) && !stage.Done? && SetOk(s, capacity, key, stage)
    ensures var req, lru := SetReq(key, value, ttl), SetLru(s, capacity, key, value, ttl, stage);
      var next := SetStep(lru, capacity, key, value, ttl, stage, now).1;
      Follows(BytesAt(s, n, capacity, req, stage), Taken(lru, req, stage, next), Given(req, stage),
              BytesAt(s, n, capacity, req, next))
  {
    if stage.Recounted? || stage.Inserted? {
      SetBytesEnd(s, n, capacity, key, value, ttl, stage);
    } else if stage.MakingRoom? || stage.VictimDiscounted? || stage.VictimForgotten? || stage.Pushed? {
      InsertBytesFollow(s, n, capacity, key, value, ttl, stage, now);
    } else if !stage.Entered? && key in s.entries {
      UpdateBytesFollow(s, n, capacity, key, value, ttl, stage, now);
    }
  }

  lemma GetBytesFollow(s: Lru, n: nat, capacity: nat, key: Key, stage: Stage, now: Time)
    requires WellFormed(s, capacity) && n == TotalBytes(s) && !stage.Done? && GetOk(s, key, stage)
    ensures var lru := GetLru(s, key, stage);
      var next := GetStep(lru, key, stage, now).1;
      Follows(GetBytes(s, n, key, stage), EntryTaken(lru, key, stage, next), 0, GetBytes(s, n, key, next))
  {
    match stage
    case Counted =>
      if key in s.entries && s.entries[key].IsExpired(now) {
        TotalWithout(s, capacity, key);
      }
    case Unlinked(t) => TotalWithout(s, capacity, key);
    case Hit(value, t) => TotalAtFront(s, capacity, key, s.entries[key]);
    case _ =>
  }

  lemma DelBytesFollow(s: Lru, n: nat, capacity: nat, key: Key, stage: Stage, now: Time)
    requires WellFormed(s, capacity) && n == TotalBytes(s) && !stage.Done? && DelOk(s, key, stage)
    ensures var lru := DelLru(s, key, stage);
      var next := DelStep(lru, key, stage, now).1;
      Follows(DelBytes(s, n, key, stage), EntryTaken(lru, key, stage, next), 0, DelBytes(s, n, key, next))
  {
    if key in s.entries {
      TotalWithout(s, capacity, key);
    }
  }

  /** What a sweep has left at some point still counts the key it comes to next. */
  lemma SweptBytes(s: Lru, capacity: nat, at: map<Key, Time>, key: Key, t: Time)
    requires WellFormed(s, capacity) && key in s.entries && key !in at
    ensures key in Sweep(s, at).entries && Sweep(s, at).entries[key] == s.entries[key]
    ensures SizeAt(s.entries, key) <= TotalBytes(Sweep(s, at))
    ensures TotalBytes(Sweep(s, at[key := t]))
         == TotalBytes(Sweep(s, at)) - if s.entries[key].IsExpired(t) then SizeAt(s.entries, key) else 0
  {
    SweepOneMore(s, at, key, t);
    OnlyKeepsWellFormed(s, capacity, s.entries.Keys - Expired(s, at));
    TotalWithout(Sweep(s, at), capacity, key);
  }

  /** The next step of a sweep does to the byte counter what the next stage's picture says. */
  predicate SweepFollows(s: Lru, n: nat, stage: Stage, now: Time, pick: Key) {
    var lru := SweepLru(s, stage);
    var next := SweepStep(lru, stage, now, pick).1;
    Follows(SweepBytes(s, n, stage), Taken(lru, SweepReq, stage, next), 0, SweepBytes(s, n, next))
  }

  /** A sweep comes to a key that is expired. */
  lemma ExpiredShape(lru: Lru, stage: Stage, now: Time, pick: Key)
    requires stage.Visiting? && pick in stage.pending && pick in lru.entries && lru.entries[pick].IsExpired(now)
    ensures var next := SweepStep(lru, stage, now, pick).1;
      && next.SweepDiscounted? && next.at == stage.at && next.key == pick
      && Taken(lru, SweepReq, stage, next) == SizeAt(lru.entries, pick)
  {
  }

  /** A sweep comes to a key that is not. */
  lemma AliveShape(lru: Lru, stage: Stage, now: Time, pick: Key)
    requires stage.Visiting? && pick in stage.pending && pick in lru.entries && !lru.entries[pick].IsExpired(now)
    ensures var next := SweepStep(lru, stage, now, pick).1;
      && next.Visiting? && next.at == stage.at[pick := now] && Taken(lru, SweepReq, stage, next) == 0
  {
  }

  lemma ExpiredBytesFollow(s: Lru, n: nat, capacity: nat, stage: Stage, now: Time, pick: Key)
    requires WellFormed(s, capacity) && SweepOk(s, stage) && stage.Visiting?
    requires pick in stage.pending && s.entries[pick].IsExpired(now)
    ensures SweepFollows(s, n, stage, now, pick)
  {
    SweptBytes(s, capacity, stage.at, pick, now);
    ExpiredShape(Sweep(s, stage.at), stage, now, pick);
  }

  lemma AliveBytesFollow(s: Lru, n: nat, capacity: nat, stage: Stage, now: Time, pick: Key)
    requires WellFormed(s, capacity) && SweepOk(s, stage) && stage.Visiting?
    requires pick in stage.pending && !s.entries[pick].IsExpired(now)
    ensures SweepFollows(s, n, stage, now, pick)
  {
    SweptBytes(s, capacity, stage.at, pick, now);
    AliveShape(Sweep(s, stage.at), stage, now, pick);
  }

  lemma VisitBytesFollow(s: Lru, n: nat, capacity: nat, stage: Stage, now: Time, pick: Key)
    requires WellFormed(s, capacity) && SweepOk(s, stage) && stage.Visiting?
    ensures SweepFollows(s, n, stage, now, pick)
  {
    if pick in stage.pending && s.entries[pick].IsExpired(now) {
      ExpiredBytesFollow(s, n, capacity, stage, now, pick);
    } else if pick in stage.pending {
      AliveBytesFollow(s, n, capacity, stage, now, pick);
    }
  }

  lemma ForgetBytesFollow(s: Lru, n: nat, capacity: nat, stage: Stage, now: Time, pick: Key)
    requires WellFormed(s, capacity) && SweepOk(s, stage) && stage.SweepUnlinked?
    ensures SweepFollows(s, n, stage, now, pick)
  {
    SweptBytes(s, capacity, stage.at, stage.key, stage.now);
  }

  lemma SweepBytesFollow(s: Lru, n: nat, capacity: nat, stage: Stage, now: Time, pick: Key)
    requires WellFormed(s, capacity) && n == TotalBytes(s) && !stage.Done? && SweepOk(s, stage)
    ensures SweepFollows(s, n, stage, now, pick)
  {
    if stage.Entered? {
      SweepNothing(s, capacity);
    } else if stage.Visiting? {
      VisitBytesFollow(s, n, capacity, stage, now, pick);
    } else if stage.SweepUnlinked? {
      ForgetBytesFollow(s, n, capacity, stage, now, pick);
    }
  }

  /** Whatever the request, a micro-step does to the byte counter what the next stage's picture says. */
  lemma MicroBytes(base: Store, capacity: nat, req: Request, stage: Stage, now: Time, pick: Key)
    requires capacity > 0 && WellFormed(base.lru, capacity) && BytesRight(base)
    requires StageOk(base, capacity, req, stage) && !stage.Done?
    ensures var st := StoreAt(base, capacity, req, stage);
      var next := LruStep(st, capacity, req, stage, now, pick).1;
      Follows(st.bytes, Taken(st.lru, req, stage, next), Given(req, stage),
              BytesAt(base.lru, base.bytes, capacity, req, next))
  {
    match req
    case SetReq(key, value, ttl) => SetBytesFollow(base.lru, base.bytes, capacity, key, value, ttl, stage, now);
    case GetReq(key) => GetBytesFollow(base.lru, base.bytes, capacity, key, stage, now);
    case DelReq(key) => DelBytesFollow(base.lru, base.bytes, capacity, key, stage, now);
    case SweepReq => SweepBytesFollow(base.lru, base.bytes, capacity, stage, now, pick);
    case _ =>
  }

  lemma LruTracks(base: Store, capacity: nat, req: Request, stage: Stage, now: Time, pick: Key)
    requires capacity > 0 && WellFormed(base.lru, capacity) && BytesRight(base)
    requires StageOk(base, capacity, req, stage) && !stage.Done?
    ensures var (lru, next) := LruStep(StoreAt(base, capacity, req, stage), capacity, req, stage, now, pick);
      StageOk(base, capacity, req, next) && lru == LruAt(base.lru, capacity, req, next)
  {
    match req
    case SetReq(key, value, ttl) => SetTracks(base.lru, capacity, key, value, ttl, stage, now);
    case GetReq(key) => GetTracks(base.lru, key, stage, now);
    case DelReq(key) => DelTracks(base.lru, key, stage, now);
    case StatsReq =>
      assert StoreAt(base, capacity, req, stage) == base;
      StatsTracks(base, stage, now);
    case KeysReq => KeysTracks(base.lru, stage, now, pick);
    case SweepReq => SweepTracks(base.lru, capacity, stage, now, pick);
  }

  lemma AnswersTrack(base: Store, capacity: nat, key: Key, stage: Stage, now: Time)
    requires GetOk(base.lru, key, stage) && !stage.Done?
    ensures var next := GetStep(GetLru(base.lru, key, stage), key, stage, now).1;
      && next != Entered
      && (next.Done? <==> stage.Hit? || stage.Missed?)
      && (stage.Hit? ==> next.reply.GetDone? && next.reply.value.Some?)
      && (stage.Missed? ==> next.reply == GetDone(None))
  {
  }

  lemma NeverEnteredAgain(st: Store, capacity: nat, req: Request, stage: Stage, now: Time, pick: Key)
    requires stage != Entered
    ensures LruStep(st, capacity, req, stage, now, pick).1 != Entered
  {
  }

  lemma EnteredOnce(st: Store, capacity: nat, req: Request, now: Time, pick: Key)
    ensures LruStep(st, capacity, req, Entered, now, pick).1 != Entered
  {
  }

  /** A GET's two counters, and the request counter, at the next stage. */
  lemma CountersTrack(base: Store, capacity: nat, req: Request, stage: Stage, now: Time, pick: Key)
    requires capacity > 0 && StageOk(base, capacity, req, stage) && !stage.Done?
    ensures var (st, next) := Micro(StoreAt(base, capacity, req, stage), capacity, req, stage, now, pick);
      var picture := StoreAt(base, capacity, req, next);
      && st.requests == picture.requests && st.hits == picture.hits
      && st.misses == picture.misses && st.connections == picture.connections
  {
    if req.GetReq? {
      AnswersTrack(base, capacity, req.key, stage, now);
    } else if stage.Entered? {
      EnteredOnce(StoreAt(base, capacity, req, stage), capacity, req, now, pick);
    } else {
      NeverEnteredAgain(StoreAt(base, capacity, req, stage), capacity, req, stage, now, pick);
    }
  }

  /** Whatever the request, a micro-step moves the store from one stage's picture to the next one's. */
  lemma MicroTracks(base: Store, capacity: nat, req: Request, stage: Stage, now: Time, pick: Key)
    requires capacity > 0 && WellFormed(base.lru, capacity) && BytesRight(base)
    requires StageOk(base, capacity, req, stage) && !stage.Done?
    ensures var (st, next) := Micro(StoreAt(base, capacity, req, stage), capacity, req, stage, now, pick);
      StageOk(base, capacity, req, next) && st == StoreAt(base, capacity, req, next)
  {
    LruTracks(base, capacity, req, stage, now, pick);
    MicroBytes(base, capacity, req, stage, now, pick);
    CountersTrack(base, capacity, req, stage, now, pick);
  }

  /** At the last stage the store and the reply are those of the request executed alone. */
  lemma DoneIsApply(base: Store, capacity: nat, req: Request, stage: Stage)
    requires capacity > 0 && stage.Done? && StageOk(base, capacity, req, stage) && BytesRight(base)
    ensures Possible(base, req, stage.obs)
    ensures (StoreAt(base, capacity, req, stage), stage.reply) == Apply(base, capacity, req, stage.obs)
  {
  }

  // ---- Clock readings and progress ---------------------------------------------------------------

  ghost predicate Within(obs: Observed, lo: Time, hi: Time) {
    && lo <= obs.now <= hi
    && (forall k :: k in obs.at ==> lo <= obs.at[k] <= hi)
    && (forall t :: t in obs.shown ==> lo <= t <= hi)
  }

  /** Everything the holder has read from the clock, collected. */
  function SoFar(stage: Stage, now: Time): Observed {
    match stage
    case Discounted(t) => At(t)
    case Overwritten(t) => At(t)
    case Recounted(t) => At(t)
    case Inserted(t) => At(t)
    case Unlinked(t) => At(t)
    case Hit(_, t) => At(t)
    case Missed(t) => At(t)
    case Visiting(_, at, _) => Observed(now, at, [], [])
    case SweepDiscounted(_, at, _, t) => Observed(t, at, [], [])
    case SweepUnlinked(_, at, _, t) => Observed(t, at, [], [])
    case Printing(at, _, shown) => Observed(now, at, [], shown)
    case Done(_, obs) => obs
    case _ => At(now)
  }

  lemma KeysReadings(s: Lru, stage: Stage, now: Time, pick: Key, lo: Time)
    requires Within(SoFar(stage, now), lo, now)
    ensures Within(SoFar(KeysStep(s, stage, now, pick), now), lo, now)
  {
  }

  lemma SweepReadings(s: Lru, stage: Stage, now: Time, pick: Key, lo: Time)
    requires Within(SoFar(stage, now), lo, now)
    ensures Within(SoFar(SweepStep(s, stage, now, pick).1, now), lo, now)
  {
  }

  lemma SetReadings(s: Lru, capacity: nat, key: Key, value: string, ttl: Option<int>, stage: Stage, now: Time, lo: Time)
    requires Within(SoFar(stage, now), lo, now)
    ensures Within(SoFar(SetStep(s, capacity, key, value, ttl, stage, now).1, now), lo, now)
  {
  }

  lemma GetReadings(s: Lru, key: Key, stage: Stage, now: Time, lo: Time)
    requires Within(SoFar(stage, now), lo, now)
    ensures Within(SoFar(GetStep(s, key, stage, now).1, now), lo, now)
    ensures Within(SoFar(DelStep(s, key, stage, now).1, now), lo, now)
  {
  }

  /** The readings of an operation are all made between its entry and the present. */
  lemma MicroReadings(st: Store, capacity: nat, req: Request, stage: Stage, now: Time, pick: Key, lo: Time)
    requires Within(SoFar(stage, now), lo, now)
    ensures Within(SoFar(LruStep(st, capacity, req, stage, now, pick).1, now), lo, now)
  {
    match req
    case KeysReq => KeysReadings(st.lru, stage, now, pick, lo);
    case SweepReq => SweepReadings(st.lru, stage, now, pick, lo);
    case SetReq(key, value, ttl) => SetReadings(st.lru, capacity, key, value, ttl, stage, now, lo);
    case GetReq(key) => GetReadings(st.lru, key, stage, now, lo);
    case DelReq(key) => GetReadings(st.lru, key, stage, now, lo);
    case StatsReq =>
  }

  /** An upper bound on the micro-steps left. */
  function StepsLeft(base: Store, stage: Stage): nat {
    match stage
    case Entered => 4 * |base.lru.entries| + 12
    case Counted => 9
    case Discounted(_) => 4
    case Revalued => 3
    case Overwritten(_) => 2
    case Recounted(_) => 1
    case MakingRoom(evicted) => if evicted then 4 else 8
    case VictimDiscounted => 7
    case VictimForgotten => 6
    case Pushed => 2
    case Inserted(_) => 1
    case Unlinked(_) => 2
    case Hit(_, _) => 1
    case Missed(_) => 1
    case ReadingStats(got) => if |got| <= 5 then 6 - |got| else 0
    case Visiting(pending, _, listing) => 4 * |pending| + |listing| + 2
    case SweepDiscounted(pending, _, _, _) => 4 * |pending| + 4
    case SweepUnlinked(pending, _, _, _) => 4 * |pending| + 3
    case Printing(_, listing, shown) => if |shown| <= |listing| then |listing| - |shown| + 1 else 0
    case Done(_, _) => 0
  }

  /** The hash iteration comes to a key it has not visited yet. */
  predicate GoodPick(stage: Stage, pick: Key) {
    stage.Visiting? && stage.pending != {} ==> pick in stage.pending
  }

  lemma SetShrinks(base: Store, s: Lru, capacity: nat, key: Key, value: string, ttl: Option<int>, stage: Stage, now: Time)
    requires || stage.Entered? || stage.Counted? || stage.Discounted? || stage.Revalued? || stage.Overwritten? || stage.Recounted?
             || stage.MakingRoom? || stage.VictimDiscounted? || stage.VictimForgotten? || stage.Pushed? || stage.Inserted?
    requires stage.MakingRoom? && |s.entries| >= capacity ==> !stage.evicted && s.order != []
    requires stage.VictimDiscounted? || stage.VictimForgotten? ==> s.order != []
    requires stage.Discounted? || stage.Revalued? ==> key in s.entries
    ensures StepsLeft(base, SetStep(s, capacity, key, value, ttl, stage, now).1) < StepsLeft(base, stage)
  {
  }

  lemma SetProgress(base: Store, capacity: nat, key: Key, value: string, ttl: Option<int>, stage: Stage, now: Time)
    requires capacity > 0 && WellFormed(base.lru, capacity) && SetOk(base.lru, capacity, key, stage) && !stage.Done?
    ensures StepsLeft(base, SetStep(SetLru(base.lru, capacity, key, value, ttl, stage), capacity, key, value, ttl, stage, now).1)
          < StepsLeft(base, stage)
  {
    OneEviction(base.lru, capacity);
    SetShrinks(base, SetLru(base.lru, capacity, key, value, ttl, stage), capacity, key, value, ttl, stage, now);
  }

  lemma KeysShrinks(base: Store, stage: Stage, now: Time, pick: Key)
    requires stage.Entered? || stage.Visiting? || (stage.Printing? && |stage.shown| <= |stage.listing|)
    requires stage.Visiting? && stage.pending != {} ==> pick in stage.pending && pick in base.lru.entries
    ensures StepsLeft(base, KeysStep(base.lru, stage, now, pick)) < StepsLeft(base, stage)
  {
  }

  lemma VisitShrinks(base: Store, s: Lru, stage: Stage, now: Time, pick: Key)
    requires stage.Visiting? && (stage.pending != {} ==> pick in stage.pending && pick in s.entries)
    ensures StepsLeft(base, SweepStep(s, stage, now, pick).1) < StepsLeft(base, stage)
  {
    if stage.pending != {} {
      assert |stage.pending - {pick}| == |stage.pending| - 1;
    }
  }

  lemma SweepShrinks(base: Store, s: Lru, stage: Stage, now: Time, pick: Key)
    requires stage.Entered? || stage.Visiting? || stage.SweepDiscounted? || stage.SweepUnlinked?
    requires stage.Entered? ==> s == base.lru
    requires stage.Visiting? && stage.pending != {} ==> pick in stage.pending && pick in s.entries
    ensures StepsLeft(base, SweepStep(s, stage, now, pick).1) < StepsLeft(base, stage)
  {
    if stage.Entered? {
      assert |s.entries.Keys| == |s.entries|;
    } else if stage.Visiting? {
      VisitShrinks(base, s, stage, now, pick);
    }
  }

  lemma SweepProgress(base: Store, stage: Stage, now: Time, pick: Key)
    requires SweepOk(base.lru, stage) && !stage.Done? && GoodPick(stage, pick)
    ensures StepsLeft(base, SweepStep(SweepLru(base.lru, stage), stage, now, pick).1) < StepsLeft(base, stage)
  {
    if stage.Visiting? && stage.pending != {} {
      SweepOneMore(base.lru, stage.at, pick, now);
    }
    SweepShrinks(base, SweepLru(base.lru, stage), stage, now, pick);
  }

  lemma LookupShrinks(base: Store, st: Store, req: Request, capacity: nat, stage: Stage, now: Time, pick: Key)
    requires StageOk(base, capacity, req, stage) && !stage.Done?
    requires req.GetReq? || req.DelReq? || req.StatsReq?
    ensures StepsLeft(base, LruStep(st, capacity, req, stage, now, pick).1) < StepsLeft(base, stage)
  {
  }

  /** Every micro-step brings the holder closer to releasing the lock. */
  lemma MicroProgress(base: Store, capacity: nat, req: Request, stage: Stage, now: Time, pick: Key)
    requires capacity > 0 && WellFormed(base.lru, capacity) && StageOk(base, capacity, req, stage)
    requires !stage.Done? && GoodPick(stage, pick)
    ensures StepsLeft(base, LruStep(StoreAt(base, capacity, req, stage), capacity, req, stage, now, pick).1)
          < StepsLeft(base, stage)
  {
    match req
    case SetReq(key, value, ttl) => SetProgress(base, capacity, key, value, ttl, stage, now);
    case KeysReq => KeysShrinks(base, stage, now, pick);
    case SweepReq => SweepProgress(base, stage, now, pick);
    case _ => LookupShrinks(base, StoreAt(base, capacity, req, stage), req, capacity, stage, now, pick);
  }
}

/**
 * The event-loop thread and the expiry thread on one shared store.  Operations are split into
 * invocation, lock acquisition, single micro-steps and release; time passes between any two steps.
 */
module Concurrency {
  import opened CacheModel
  import opened StoreModel
  import opened CriticalSection

  datatype Thread = EventLoop | Expiry

  datatype Pc =
    | Idle
    | Waiting(req: Request, invoked: nat)
    | Holding(req: Request, invoked: nat, acquired: nat, entry: Time, stage: Stage)

  /**
   * A finished call, stamped with the steps at which it was invoked, got the lock and released it,
   * and with the clock at its entry to and exit from the critical section.
   */
  datatype Event =
    | Call(thread: Thread, req: Request, obs: Observed, reply: Reply,
           invoked: nat, acquired: nat, released: nat, entry: Time, exit: Time)
    | Connected
    | Disconnected

  datatype System = System(
    store: Store,
    lock: Option<Thread>,      // KVStore::mu_
    buffersHeld: bool,         // TcpServer::buffers_mu_, which only the event loop takes
    loop: Pc,
    expiry: Pc,
    now: Time,
    steps: nat,
    log: seq<Event>)

  datatype Action =
    | Tick(elapsed: nat)
    | LockBuffers
    | UnlockBuffers
    | Connect
    | Disconnect
    | Invoke(thread: Thread, req: Request)
    | Acquire(thread: Thread)
    | Body(thread: Thread, pick: Key)
    | Release(thread: Thread)

  const START := System(FRESH, None, false, Idle, Idle, 0, 0, [])

  function PcOf(s: System, t: Thread): Pc {
    if t.EventLoop? then s.loop else s.expiry
  }

  function WithPc(s: System, t: Thread, pc: Pc): System {
    if t.EventLoop? then s.(loop := pc) else s.(expiry := pc)
  }

  /** Commands run with buffers_mu_ held; the expiry thread only sweeps. */
  predicate MayInvoke(s: System, t: Thread, req: Request) {
    if t.EventLoop? then s.buffersHeld && !req.SweepReq? else req.SweepReq?
  }

  predicate Enabled(s: System, a: Action) {
    match a
    case Tick(_) => true
    case LockBuffers => s.loop.Idle? && !s.buffersHeld
    case UnlockBuffers => s.loop.Idle? && s.buffersHeld
    case Connect => s.loop.Idle? && !s.buffersHeld
    case Disconnect => s.loop.Idle? && !s.buffersHeld
    case Invoke(t, req) => PcOf(s, t).Idle? && MayInvoke(s, t, req)
    case Acquire(t) => PcOf(s, t).Waiting? && s.lock == None
    case Body(t, _) => PcOf(s, t).Holding? && !PcOf(s, t).stage.Done?
    case Release(t) => PcOf(s, t).Holding? && PcOf(s, t).stage.Done?
  }

  function Next(s: System, capacity: nat, a: Action): System
    requires capacity > 0
  {
    if !Enabled(s, a) then s
    else
      var r := s.(steps := s.steps + 1);
      match a
      case Tick(elapsed) => r.(now := s.now + elapsed)
      case LockBuffers => r.(buffersHeld := true)
      case UnlockBuffers => r.(buffersHeld := false)
      case Connect =>
        r.(store := s.store.(connections := s.store.connections + 1), log := s.log + [Connected])
      case Disconnect =>
        r.(store := s.store.(connections := Decrement(s.store.connections)), log := s.log + [Disconnected])
      case Invoke(t, req) => WithPc(r, t, Waiting(req, s.steps))
      case Acquire(t) =>
        var pc := PcOf(s, t);
        WithPc(r, t, Holding(pc.req, pc.invoked, s.steps, s.now, Entered)).(lock := Some(t))
      case Body(t, pick) =>
        var pc := PcOf(s, t);
        var (store, stage) := Micro(s.store, capacity, pc.req, pc.stage, s.now, pick);
        WithPc(r, t, pc.(stage := stage)).(store := store)
      case Release(t) =>
        var pc := PcOf(s, t);
        WithPc(r, t, Idle).(lock := None, log := s.log + [Call(t, pc.req, pc.stage.obs, pc.stage.reply,
                                                               pc.invoked, pc.acquired, s.steps, pc.entry, s.now)])
  }

  function After(capacity: nat, actions: seq<Action>): System
    requires capacity > 0
  {
    if actions == [] then START
    else Next(After(capacity, actions[..|actions| - 1]), capacity, actions[|actions| - 1])
  }

  // ---- The sequential run ----------------------------------------------------------------------

  /** The store after executing the events of a log one after the other. */
  ghost function Replay(capacity: nat, log: seq<Event>): Store
    requires capacity > 0
  {
    if log == [] then FRESH
    else
      var st := Replay(capacity, log[..|log| - 1]);
      match log[|log| - 1]
      case Connected => st.(connections := st.connections + 1)
      case Disconnected => st.(connections := Decrement(st.connections))
      case Call(_, req, obs, _, _, _, _, _, _) => if Possible(st, req, obs) then Apply(st, capacity, req, obs).0 else st
  }

  /** Every logged call gave the reply that the sequential run gives. */
  ghost predicate Legal(capacity: nat, log: seq<Event>)
    requires capacity > 0
  {
    log != [] ==>
      var n := |log| - 1;
      var st := Replay(capacity, log[..n]);
      && Legal(capacity, log[..n])
      && (log[n].Call? ==> Possible(st, log[n].req, log[n].obs)
                           && log[n].reply == Apply(st, capacity, log[n].req, log[n].obs).1)
  }

  /** The log is in lock-acquisition order: each call got the lock after all earlier ones released it. */
  ghost predicate InLockOrder(log: seq<Event>) {
    log != [] ==>
      var n := |log| - 1;
      && InLockOrder(log[..n])
      && (log[n].Call? ==>
            && log[n].invoked <= log[n].acquired <= log[n].released
            && Within(log[n].obs, log[n].entry, log[n].exit)
            && ReleasedBy(log[..n], log[n].acquired, log[n].entry))
  }

  /** All logged calls released the lock by this step, and made their clock readings by this time. */
  ghost predicate ReleasedBy(log: seq<Event>, step: nat, now: Time) {
    forall e :: e in log && e.Call? ==> e.released <= step && e.exit <= now
  }

  // ---- The invariant ---------------------------------------------------------------------------

  /** The lock field names exactly the thread inside the critical section. */
  ghost predicate Exclusive(s: System) {
    && (s.loop.Holding? <==> s.lock == Some(EventLoop))
    && (s.expiry.Holding? <==> s.lock == Some(Expiry))
  }

  /** Locks are taken in the order buffers_mu_, mu_, and threads only do their own kind of request. */
  ghost predicate LockOrder(s: System) {
    && (!s.loop.Idle? ==> s.buffersHeld && !s.loop.req.SweepReq?)
    && (!s.expiry.Idle? ==> s.expiry.req.SweepReq?)
  }

  /** With the lock free the store is the sequential one; else it is at the holder's stage of it. */
  ghost predicate Tracked(s: System, capacity: nat)
    requires capacity > 0
  {
    var base := Replay(capacity, s.log);
    && WellFormed(base.lru, capacity) && BytesRight(base)
    && (s.lock == None ==> s.store == base)
    && (s.lock.Some? && PcOf(s, s.lock.value).Holding? ==>
          var pc := PcOf(s, s.lock.value);
          StageOk(base, capacity, pc.req, pc.stage) && s.store == StoreAt(base, capacity, pc.req, pc.stage))
  }

  ghost predicate PcStamped(pc: Pc, log: seq<Event>, steps: nat, now: Time) {
    && (pc.Waiting? ==> pc.invoked <= steps)
    && (pc.Holding? ==>
          && pc.invoked <= pc.acquired <= steps && ReleasedBy(log, pc.acquired, pc.entry)
          && Within(SoFar(pc.stage, now), pc.entry, now))
  }

  ghost predicate Stamped(s: System) {
    && InLockOrder(s.log) && ReleasedBy(s.log, s.steps, s.now)
    && PcStamped(s.loop, s.log, s.steps, s.now) && PcStamped(s.expiry, s.log, s.steps, s.now)
  }

  ghost predicate Inv(s: System, capacity: nat)
    requires capacity > 0
  {
    Exclusive(s) && LockOrder(s) && Stamped(s) && Legal(capacity, s.log) && Tracked(s, capacity)
  }

  lemma LogOneMore(capacity: nat, log: seq<Event>, e: Event)
    requires capacity > 0
    ensures (log + [e])[..|log + [e]| - 1] == log && (log + [e])[|log + [e]| - 1] == e
  {
  }

  lemma StampOneMore(capacity: nat, log: seq<Event>, e: Event, steps: nat, now: Time)
    requires capacity > 0 && InLockOrder(log) && ReleasedBy(log, steps, now)
    requires e.Call? ==>
      && e.invoked <= e.acquired <= e.released == steps && Within(e.obs, e.entry, e.exit) && e.exit == now
      && ReleasedBy(log, e.acquired, e.entry)
    ensures InLockOrder(log + [e]) && ReleasedBy(log + [e], steps + 1, now)
  {
    LogOneMore(capacity, log, e);
  }

  lemma BodyStamped(s: System, capacity: nat, t: Thread, pick: Key)
    requires capacity > 0 && Stamped(s) && Enabled(s, Body(t, pick))
    ensures Stamped(Next(s, capacity, Body(t, pick)))
  {
    var pc := PcOf(s, t);
    MicroReadings(s.store, capacity, pc.req, pc.stage, s.now, pick, pc.entry);
  }

  /** Later, and with more connection events logged, a thread's stamps are still in order. */
  lemma PcStampedLater(pc: Pc, log: seq<Event>, e: Event, steps: nat, now: Time, later: Time)
    requires PcStamped(pc, log, steps, now) && now <= later
    ensures PcStamped(pc, log, steps + 1, later)
    ensures !e.Call? ==> PcStamped(pc, log + [e], steps + 1, later)
  {
  }

  lemma ReleaseStamped(s: System, capacity: nat, t: Thread)
    requires capacity > 0 && Exclusive(s) && Stamped(s) && Enabled(s, Release(t))
    ensures Stamped(Next(s, capacity, Release(t)))
  {
    var log := Next(s, capacity, Release(t)).log;
    StampOneMore(capacity, s.log, log[|s.log|], s.steps, s.now);
  }

  lemma GaugeStamped(s: System, capacity: nat, a: Action)
    requires capacity > 0 && Stamped(s) && Enabled(s, a) && (a.Connect? || a.Disconnect?)
    ensures Stamped(Next(s, capacity, a))
  {
    var e := if a.Connect? then Connected else Disconnected;
    StampOneMore(capacity, s.log, e, s.steps, s.now);
    PcStampedLater(s.loop, s.log, e, s.steps, s.now, s.now);
    PcStampedLater(s.expiry, s.log, e, s.steps, s.now, s.now);
  }

  lemma StampsKept(s: System, capacity: nat, a: Action)
    requires capacity > 0 && Exclusive(s) && Stamped(s)
    ensures Stamped(Next(s, capacity, a))
  {
    if Enabled(s, a) {
      match a
      case Body(t, pick) => BodyStamped(s, capacity, t, pick);
      case Release(t) => ReleaseStamped(s, capacity, t);
      case Connect => GaugeStamped(s, capacity, a);
      case Disconnect => GaugeStamped(s, capacity, a);
      case _ =>
        PcStampedLater(s.loop, s.log, Connected, s.steps, s.now, Next(s, capacity, a).now);
        PcStampedLater(s.expiry, s.log, Connected, s.steps, s.now, Next(s, capacity, a).now);
    }
  }

  /** Opening or closing a connection commutes with a sweep in progress. */
  lemma SweepIgnoresGauge(base: Store, capacity: nat, stage: Stage, connections: nat)
    requires capacity > 0
    ensures StageOk(base.(connections := connections), capacity, SweepReq, stage) <==> StageOk(base, capacity, SweepReq, stage)
    ensures StoreAt(base.(connections := connections), capacity, SweepReq, stage)
         == StoreAt(base, capacity, SweepReq, stage).(connections := connections)
  {
  }

  lemma ReplayConnect(capacity: nat, log: seq<Event>)
    requires capacity > 0
    ensures var base := Replay(capacity, log);
      && Replay(capacity, log + [Connected]) == base.(connections := base.connections + 1)
      && Replay(capacity, log + [Disconnected]) == base.(connections := Decrement(base.connections))
  {
    LogOneMore(capacity, log, Connected);
    LogOneMore(capacity, log, Disconnected);
  }

  /** If the lock is taken while the event loop is idle, then by a sweep. */
  lemma SweepHolds(s: System)
    requires Exclusive(s) && LockOrder(s) && s.loop.Idle? && s.lock.Some?
    ensures s.lock == Some(Expiry) && s.expiry.Holding? && s.expiry.req == SweepReq
  {
    assert s.lock != Some(EventLoop);
    assert s.lock.value != EventLoop;
  }

  lemma GaugeTracked(s: System, r: System, capacity: nat, connections: nat)
    requires capacity > 0 && Exclusive(s) && LockOrder(s) && Tracked(s, capacity) && s.loop.Idle?
    requires r.lock == s.lock && r.expiry == s.expiry && r.store == s.store.(connections := connections)
    requires Replay(capacity, r.log) == Replay(capacity, s.log).(connections := connections)
    ensures Tracked(r, capacity)
  {
    if s.lock.Some? {
      SweepHolds(s);
      SweepIgnoresGauge(Replay(capacity, s.log), capacity, s.expiry.stage, connections);
    }
  }

  lemma ConnectTracked(s: System, capacity: nat)
    requires capacity > 0 && Inv(s, capacity) && Enabled(s, Connect)
    ensures Tracked(Next(s, capacity, Connect), capacity)
  {
    ReplayConnect(capacity, s.log);
    GaugesAgree(s, capacity);
    GaugeTracked(s, Next(s, capacity, Connect), capacity, s.store.connections + 1);
  }

  lemma DisconnectTracked(s: System, capacity: nat)
    requires capacity > 0 && Inv(s, capacity) && Enabled(s, Disconnect)
    ensures Tracked(Next(s, capacity, Disconnect), capacity)
  {
    ReplayConnect(capacity, s.log);
    GaugesAgree(s, capacity);
    GaugeTracked(s, Next(s, capacity, Disconnect), capacity, Decrement(s.store.connections));
  }

  /** The gauge is that of the sequential run even while a sweep is in progress. */
  lemma GaugesAgree(s: System, capacity: nat)
    requires capacity > 0 && Exclusive(s) && LockOrder(s) && Tracked(s, capacity) && s.loop.Idle?
    ensures s.store.connections == Replay(capacity, s.log).connections
  {
    if s.lock.Some? {
      SweepHolds(s);
    }
  }

  lemma BodyTracked(s: System, capacity: nat, t: Thread, pick: Key)
    requires capacity > 0 && Inv(s, capacity) && Enabled(s, Body(t, pick))
    ensures Tracked(Next(s, capacity, Body(t, pick)), capacity)
  {
    var pc := PcOf(s, t);
    assert s.lock == Some(t);
    MicroTracks(Replay(capacity, s.log), capacity, pc.req, pc.stage, s.now, pick);
  }

  /** The event that a release logs is what the sequential run does next, with the same reply. */
  lemma ReleaseReplays(s: System, capacity: nat, t: Thread)
    requires capacity > 0 && Inv(s, capacity) && Enabled(s, Release(t))
    ensures var pc, base, log := PcOf(s, t), Replay(capacity, s.log), Next(s, capacity, Release(t)).log;
      && |log| == |s.log| + 1 && log[..|s.log|] == s.log && log[|s.log|].Call?
      && log[|s.log|].req == pc.req && log[|s.log|].obs == pc.stage.obs && log[|s.log|].reply == pc.stage.reply
      && Possible(base, pc.req, pc.stage.obs)
      && Apply(base, capacity, pc.req, pc.stage.obs) == (s.store, pc.stage.reply)
      && WellFormed(s.store.lru, capacity) && BytesRight(s.store)
  {
    var base, pc := Replay(capacity, s.log), PcOf(s, t);
    assert s.lock == Some(t);
    DoneIsApply(base, capacity, pc.req, pc.stage);
    ApplyKeepsWellFormed(base, capacity, pc.req, pc.stage.obs);
  }

  lemma ReleaseTracked(s: System, capacity: nat, t: Thread)
    requires capacity > 0 && Inv(s, capacity) && Enabled(s, Release(t))
    ensures Tracked(Next(s, capacity, Release(t)), capacity)
  {
    ReleaseReplays(s, capacity, t);
    assert Replay(capacity, Next(s, capacity, Release(t)).log) == s.store;
  }

  lemma ReleaseLegal(s: System, capacity: nat, t: Thread)
    requires capacity > 0 && Inv(s, capacity) && Enabled(s, Release(t))
    ensures Legal(capacity, Next(s, capacity, Release(t)).log)
  {
    ReleaseReplays(s, capacity, t);
  }

  lemma LocksKept(s: System, capacity: nat, a: Action)
    requires capacity > 0 && Exclusive(s) && LockOrder(s)
    ensures Exclusive(Next(s, capacity, a)) && LockOrder(Next(s, capacity, a))
  {
  }

  /** A step that touches neither the store, nor the log, nor the lock, nor its holder. */
  lemma QuietTracked(s: System, r: System, capacity: nat)
    requires capacity > 0 && Tracked(s, capacity)
    requires r.store == s.store && r.log == s.log && r.lock == s.lock
    requires s.lock.Some? ==> PcOf(r, s.lock.value) == PcOf(s, s.lock.value)
    ensures Tracked(r, capacity)
  {
  }

  lemma AcquireTracked(s: System, capacity: nat, t: Thread)
    requires capacity > 0 && Tracked(s, capacity) && Enabled(s, Acquire(t))
    ensures Tracked(Next(s, capacity, Acquire(t)), capacity)
  {
    var base, r := Replay(capacity, s.log), Next(s, capacity, Acquire(t));
    assert StoreAt(base, capacity, PcOf(s, t).req, Entered) == base;
  }

  lemma TrackedKept(s: System, capacity: nat, a: Action)
    requires capacity > 0 && Inv(s, capacity) && Enabled(s, a)
    ensures Tracked(Next(s, capacity, a), capacity)
  {
    match a
    case Connect => ConnectTracked(s, capacity);
    case Disconnect => DisconnectTracked(s, capacity);
    case Acquire(t) => AcquireTracked(s, capacity, t);
    case Body(t, pick) => BodyTracked(s, capacity, t, pick);
    case Release(t) => ReleaseTracked(s, capacity, t);
    case _ =>
      if s.lock.Some? {
        HolderIsInside(s);
      }
      QuietTracked(s, Next(s, capacity, a), capacity);
  }

  lemma HolderIsInside(s: System)
    requires Exclusive(s) && s.lock.Some?
    ensures PcOf(s, s.lock.value).Holding?
  {
    assert s.lock == Some(s.lock.value);
  }

  lemma LegalKept(s: System, capacity: nat, a: Action)
    requires capacity > 0 && Inv(s, capacity) && Enabled(s, a)
    ensures Legal(capacity, Next(s, capacity, a).log)
  {
    match a
    case Connect => LogOneMore(capacity, s.log, Connected);
    case Disconnect => LogOneMore(capacity, s.log, Disconnected);
    case Release(t) => ReleaseLegal(s, capacity, t);
    case _ =>
  }

  lemma NextKeepsInv(s: System, capacity: nat, a: Action)
    requires capacity > 0 && Inv(s, capacity)
    ensures Inv(Next(s, capacity, a), capacity)
  {
    StampsKept(s, capacity, a);
    LocksKept(s, capacity, a);
    if Enabled(s, a) {
      TrackedKept(s, capacity, a);
      LegalKept(s, capacity, a);
    }
  }

  lemma {:induction false} InvHolds(capacity: nat, actions: seq<Action>)
    requires capacity > 0
    ensures Inv(After(capacity, actions), capacity)
  {
    if actions != [] {
      InvHolds(capacity, actions[..|actions| - 1]);
      NextKeepsInv(After(capacity, actions[..|actions| - 1]), capacity, actions[|actions| - 1]);
    }
  }

  // ---- The results -----------------------------------------------------------------------------

  /**
   * Linearizability: whatever the interleaving, every call replied as in the sequential run that
   * executes the calls in lock-acquisition order, with clock readings that never go backwards; and
   * whenever the lock is free the shared store is the one that sequential run ends in, its byte
   * counter the size of what is resident.
   */
  lemma Linearizable(capacity: nat, actions: seq<Action>)
    requires capacity > 0
    ensures var s := After(capacity, actions);
      && Legal(capacity, s.log) && InLockOrder(s.log)
      && (s.lock == None ==> s.store == Replay(capacity, s.log) && BytesRight(s.store))
  {
    InvHolds(capacity, actions);
  }

  /** The sequential order respects real time: a call that released before another was invoked comes first. */
  lemma {:induction false} RealTimeOrder(log: seq<Event>, i: nat, j: nat)
    requires InLockOrder(log) && i < |log| && j < |log| && log[i].Call? && log[j].Call?
    requires log[i].released < log[j].invoked
    ensures i < j
  {
    var n := |log| - 1;
    if i < n && j < n {
      RealTimeOrder(log[..n], i, j);
    } else if j < n {
      assert log[..n][j] in log[..n];
      LockOrderBounds(log[..n], j);
    }
  }

  lemma {:induction false} LockOrderBounds(log: seq<Event>, j: nat)
    requires InLockOrder(log) && j < |log| && log[j].Call?
    ensures log[j].invoked <= log[j].acquired <= log[j].released
  {
    if j < |log| - 1 {
      LockOrderBounds(log[..|log| - 1], j);
    }
  }

  /** In every reachable store the expiries are 64-bit numbers. */
  lemma {:induction false} ReplayStampsFit(capacity: nat, log: seq<Event>)
    requires capacity > 0
    ensures StampsFit(Replay(capacity, log).lru)
  {
    if log != [] {
      var n := |log| - 1;
      ReplayStampsFit(capacity, log[..n]);
      var st := Replay(capacity, log[..n]);
      if log[n].Call? && Possible(st, log[n].req, log[n].obs) {
        ApplyKeepsStamps(st, capacity, log[n].req, log[n].obs);
      }
    }
  }

  /** How many of the logged calls asked this kind of request and got this kind of reply. */
  function Count(log: seq<Event>, kind: (Request, Reply) -> bool): nat {
    if log == [] then 0
    else
      var n := |log| - 1;
      Count(log[..n], kind) + if log[n].Call? && kind(log[n].req, log[n].reply) then 1 else 0
  }

  /** Counter conservation in the sequential run: GETs that found something, GETs that did not, and all that count. */
  lemma {:induction false} CountersAreCounts(capacity: nat, log: seq<Event>)
    requires capacity > 0 && Legal(capacity, log)
    ensures var st := Replay(capacity, log);
      && st.hits == Count(log, (req: Request, reply: Reply) => req.GetReq? && reply != GetDone(None))
      && st.misses == Count(log, (req: Request, reply: Reply) => req.GetReq? && reply == GetDone(None))
      && st.requests == Count(log, (req: Request, _: Reply) => req.SetReq? || req.GetReq? || req.DelReq?)
  {
    if log != [] {
      CountersAreCounts(capacity, log[..|log| - 1]);
    }
  }

  /**
   * Snapshot consistency: the five counters of a STATS reply, read one by one under the lock, are
   * those of one moment: how many SETs, GETs and DELs there were so far, how many GETs were answered
   * with a value and how many without, and the total size of the entries then resident.
   */
  lemma SnapshotIsConsistent(capacity: nat, actions: seq<Action>, i: nat)
    requires capacity > 0
    requires var log := After(capacity, actions).log; i < |log| && log[i].Call? && log[i].req.StatsReq?
    ensures var log := After(capacity, actions).log;
      var st := Replay(capacity, log[..i]);
      && WellFormed(st.lru, capacity)
      && log[i].reply.StatsDone?
      && var stats := log[i].reply.stats;
      && stats.requests == Count(log[..i], (req: Request, _: Reply) => req.SetReq? || req.GetReq? || req.DelReq?)
      && stats.hits == Count(log[..i], (req: Request, reply: Reply) => req.GetReq? && reply != GetDone(None))
      && stats.misses == Count(log[..i], (req: Request, reply: Reply) => req.GetReq? && reply == GetDone(None))
      && stats.bytes == Bytes(st.lru.order, st.lru.entries) && stats.connections == st.connections
  {
    var log := After(capacity, actions).log;
    InvHolds(capacity, actions);
    LegalAt(capacity, log, i);
    CountersAreCounts(capacity, log[..i]);
  }

  lemma {:induction false} LegalAt(capacity: nat, log: seq<Event>, i: nat)
    requires capacity > 0 && Legal(capacity, log) && i < |log|
    ensures var st := Replay(capacity, log[..i]);
      && Legal(capacity, log[..i]) && WellFormed(st.lru, capacity) && BytesRight(st)
      && (log[i].Call? ==> Possible(st, log[i].req, log[i].obs)
                           && log[i].reply == Apply(st, capacity, log[i].req, log[i].obs).1)
  {
    var n := |log| - 1;
    if i < n {
      LegalAt(capacity, log[..n], i);
      assert log[..n][..i] == log[..i];
    } else {
      ReplayWellFormed(capacity, log[..n]);
    }
  }

  lemma {:induction false} ReplayWellFormed(capacity: nat, log: seq<Event>)
    requires capacity > 0
    ensures WellFormed(Replay(capacity, log).lru, capacity) && BytesRight(Replay(capacity, log))
  {
    if log != [] {
      var n := |log| - 1;
      ReplayWellFormed(capacity, log[..n]);
      var st := Replay(capacity, log[..n]);
      if log[n].Call? && Possible(st, log[n].req, log[n].obs) {
        ApplyKeepsWellFormed(st, capacity, log[n].req, log[n].obs);
      }
    }
  }

  /**
   * No step of any operation takes more off the byte counter than is on it, so the unsigned counter
   * never wraps around.
   */
  lemma CounterNeverWraps(capacity: nat, actions: seq<Action>, t: Thread, pick: Key)
    requires capacity > 0
    requires Enabled(After(capacity, actions), Body(t, pick))
    ensures var s := After(capacity, actions);
      var pc := PcOf(s, t);
      Taken(s.store.lru, pc.req, pc.stage, LruStep(s.store, capacity, pc.req, pc.stage, s.now, pick).1) <= s.store.bytes
  {
    InvHolds(capacity, actions);
    var s := After(capacity, actions);
    var pc := PcOf(s, t);
    assert s.lock == Some(t);
    MicroBytes(Replay(capacity, s.log), capacity, pc.req, pc.stage, s.now, pick);
  }

  /** Thread t, inside the critical section, can release the lock or make a step closer to that. */
  predicate CanGoOn(s: System, capacity: nat, base: Store, t: Thread, pick: Key)
    requires PcOf(s, t).Holding?
  {
    var pc := PcOf(s, t);
    || Enabled(s, Release(t))
    || (Enabled(s, Body(t, pick))
        && StepsLeft(base, LruStep(s.store, capacity, pc.req, pc.stage, s.now, pick).1) < StepsLeft(base, pc.stage))
  }

  /** The holder's store is the picture of its stage. */
  lemma HolderStage(s: System, capacity: nat, t: Thread)
    requires capacity > 0 && Tracked(s, capacity) && s.lock == Some(t) && PcOf(s, t).Holding?
    ensures var base, pc := Replay(capacity, s.log), PcOf(s, t);
      && WellFormed(base.lru, capacity) && StageOk(base, capacity, pc.req, pc.stage)
      && s.store == StoreAt(base, capacity, pc.req, pc.stage)
  {
  }

  lemma BodyProgress(s: System, capacity: nat, base: Store, t: Thread, pick: Key)
    requires capacity > 0 && WellFormed(base.lru, capacity) && PcOf(s, t).Holding? && !PcOf(s, t).stage.Done?
    requires StageOk(base, capacity, PcOf(s, t).req, PcOf(s, t).stage) && GoodPick(PcOf(s, t).stage, pick)
    requires s.store == StoreAt(base, capacity, PcOf(s, t).req, PcOf(s, t).stage)
    ensures CanGoOn(s, capacity, base, t, pick)
  {
    MicroProgress(base, capacity, PcOf(s, t).req, PcOf(s, t).stage, s.now, pick);
  }

  /** The holder of the lock can always go on, whatever key the iteration comes to. */
  lemma HolderProgress(s: System, capacity: nat, t: Thread, pick: Key)
    requires capacity > 0 && Inv(s, capacity) && s.lock == Some(t)
    requires PcOf(s, t).Holding? && GoodPick(PcOf(s, t).stage, pick)
    ensures CanGoOn(s, capacity, Replay(capacity, s.log), t, pick)
  {
    if !PcOf(s, t).stage.Done? {
      HolderStage(s, capacity, t);
      BodyProgress(s, capacity, Replay(capacity, s.log), t, pick);
    }
  }

  /**
   * No deadlock.  In every reachable state: if the lock is free, whoever waits for it can take it;
   * if it is taken, its holder is inside the critical section and can either release it or make
   * a step that leaves fewer steps to go, whatever key the iteration comes to.  A thread waiting
   * for or holding mu_ on behalf of a client already holds buffers_mu_, and the expiry thread,
   * which never holds that lock, only ever waits for mu_.
   */
  lemma NoDeadlock(capacity: nat, actions: seq<Action>, pick: Key)
    requires capacity > 0
    ensures var s := After(capacity, actions);
      && (s.lock == None && s.loop.Waiting? ==> Enabled(s, Acquire(EventLoop)))
      && (s.lock == None && s.expiry.Waiting? ==> Enabled(s, Acquire(Expiry)))
      && (s.lock.Some? ==>
            && PcOf(s, s.lock.value).Holding?
            && (GoodPick(PcOf(s, s.lock.value).stage, pick) ==>
                  CanGoOn(s, capacity, Replay(capacity, s.log), s.lock.value, pick)))
      && (!s.loop.Idle? ==> s.buffersHeld)
  {
    InvHolds(capacity, actions);
    var s := After(capacity, actions);
    if s.lock.Some? {
      HolderIsInside(s);
      if GoodPick(PcOf(s, s.lock.value).stage, pick) {
        HolderProgress(s, capacity, s.lock.value, pick);
      }
    }
  }
}

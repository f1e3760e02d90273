/**
 * What the two threads can do: from rest, every call can be made and comes to its end, with the
 * effect, the reply and the clock readings of the request executed alone at that moment.
 */
module Completion {
  import opened CacheModel
  import opened StoreModel
  import opened CriticalSection
  import opened Concurrency

  // ---- Runs that go on from a state ----------------------------------------------------------------

  function RunFrom(s: System, capacity: nat, actions: seq<Action>): System
    requires capacity > 0
    decreases |actions|
  {
    if actions == [] then s else RunFrom(Next(s, capacity, actions[0]), capacity, actions[1..])
  }

  lemma RunOne(s: System, capacity: nat, a: Action)
    requires capacity > 0
    ensures RunFrom(s, capacity, [a]) == Next(s, capacity, a)
  {
    assert [a][1..] == [];
  }

  lemma RunFirst(s: System, capacity: nat, a: Action, rest: seq<Action>)
    requires capacity > 0
    ensures RunFrom(s, capacity, [a] + rest) == RunFrom(Next(s, capacity, a), capacity, rest)
  {
    assert ([a] + rest)[1..] == rest;
  }

  lemma {:induction false} RunConcat(s: System, capacity: nat, a: seq<Action>, b: seq<Action>)
    requires capacity > 0
    ensures RunFrom(s, capacity, a + b) == RunFrom(RunFrom(s, capacity, a), capacity, b)
    decreases |a|
  {
    if a == [] {
      assert a + b == b;
    } else {
      assert (a + b)[1..] == a[1..] + b;
      RunConcat(Next(s, capacity, a[0]), capacity, a[1..], b);
    }
  }

  /** Going on from where an execution has come to is the longer execution. */
  lemma {:induction false} RunGoesOn(capacity: nat, before: seq<Action>, actions: seq<Action>)
    requires capacity > 0
    ensures RunFrom(After(capacity, before), capacity, actions) == After(capacity, before + actions)
    decreases |actions|
  {
    if actions == [] {
      assert before + actions == before;
    } else {
      var longer := before + [actions[0]];
      assert longer[..|longer| - 1] == before;
      RunGoesOn(capacity, longer, actions[1..]);
      assert longer + actions[1..] == before + actions;
    }
  }

  lemma {:induction false} RunKeepsInv(s: System, capacity: nat, actions: seq<Action>)
    requires capacity > 0 && Inv(s, capacity)
    ensures Inv(RunFrom(s, capacity, actions), capacity)
    decreases |actions|
  {
    if actions != [] {
      NextKeepsInv(s, capacity, actions[0]);
      RunKeepsInv(Next(s, capacity, actions[0]), capacity, actions[1..]);
    }
  }

  /** The time that an execution lets pass. */
  function Elapsed(actions: seq<Action>): nat {
    if actions == [] then 0
    else
      var n := |actions| - 1;
      Elapsed(actions[..n]) + if actions[n].Tick? then actions[n].elapsed else 0
  }

  /** The clock shows the time that has passed: only ticks move it, and each by as much as it says. */
  lemma {:induction false} ClockIsElapsed(capacity: nat, actions: seq<Action>)
    requires capacity > 0
    ensures After(capacity, actions).now == Elapsed(actions)
  {
    if actions != [] {
      ClockIsElapsed(capacity, actions[..|actions| - 1]);
    }
  }

  // ---- From rest ---------------------------------------------------------------------------------------

  /** What the event loop can do between two commands, whatever the expiry thread is doing. */
  lemma LoopAtRest(s: System, capacity: nat)
    requires capacity > 0 && s.loop == Idle
    ensures var later := s.(steps := s.steps + 1);
      && (!s.buffersHeld ==>
            && RunFrom(s, capacity, [LockBuffers]) == later.(buffersHeld := true)
            && RunFrom(s, capacity, [Connect])
               == later.(store := s.store.(connections := s.store.connections + 1), log := s.log + [Connected])
            && RunFrom(s, capacity, [Disconnect])
               == later.(store := s.store.(connections := if s.store.connections > 0 then s.store.connections - 1 else 0),
                         log := s.log + [Disconnected]))
      && (s.buffersHeld ==> RunFrom(s, capacity, [UnlockBuffers]) == later.(buffersHeld := false))
  {
    RunOne(s, capacity, LockBuffers);
    RunOne(s, capacity, Connect);
    RunOne(s, capacity, Disconnect);
    RunOne(s, capacity, UnlockBuffers);
  }

  /** The thread is idle and, if it is the event loop, holds the buffers; the request is one of its own. */
  predicate Ready(s: System, t: Thread, req: Request) {
    match t
    case EventLoop => s.loop == Idle && s.buffersHeld && req != SweepReq
    case Expiry => s.expiry == Idle && req == SweepReq
  }

  /** Everything but the thread's own place, the store, the lock, the step count and the log. */
  predicate Undisturbed(s: System, r: System, t: Thread) {
    && r.buffersHeld == s.buffersHeld
    && match t
       case EventLoop => r.expiry == s.expiry
       case Expiry => r.loop == s.loop
  }

  // ---- Inside the critical section -----------------------------------------------------------------------

  /** All readings made are of this moment. */
  ghost predicate ReadAt(obs: Observed, now: Time) {
    && obs.now == now
    && (forall k :: k in obs.at ==> obs.at[k] == now)
    && (forall t :: t in obs.shown ==> t == now)
  }

  lemma MomentOnly(obs: Observed, now: Time)
    ensures Within(obs, now, now) <==> ReadAt(obs, now)
  {
  }

  ghost predicate Bodies(actions: seq<Action>, t: Thread) {
    forall a :: a in actions ==> a.Body? && a.thread == t
  }

  /** t is in the critical section, and has read the clock at no time but now. */
  ghost predicate Inside(s: System, capacity: nat, t: Thread)
    requires capacity > 0
  {
    && Inv(s, capacity) && s.lock == Some(t) && PcOf(s, t).Holding?
    && Within(SoFar(PcOf(s, t).stage, s.now), s.now, s.now)
  }

  /** From s, t has come to another stage in this many steps, and nothing else has happened. */
  predicate ComeTo(s: System, r: System, t: Thread, n: nat) {
    && PcOf(s, t).Holding? && PcOf(r, t).Holding? && PcOf(r, t) == PcOf(s, t).(stage := PcOf(r, t).stage)
    && Undisturbed(s, r, t) && r.now == s.now && r.log == s.log && r.steps == s.steps + n
  }

  /** And to the last one. */
  ghost predicate Finished(s: System, r: System, capacity: nat, t: Thread, n: nat)
    requires capacity > 0
  {
    && Inside(s, capacity, t) && Inside(r, capacity, t)
    && PcOf(r, t).stage.Done? && ComeTo(s, r, t, n)
  }

  /** A key that a hash iteration may come to next. */
  lemma SomePick(stage: Stage) returns (pick: Key)
    ensures GoodPick(stage, pick)
  {
    pick := "";
    if stage.Visiting? && stage.pending != {} {
      pick :| pick in stage.pending;
    }
  }

  lemma BodyShape(s: System, capacity: nat, t: Thread, pick: Key)
    requires capacity > 0 && PcOf(s, t).Holding? && !PcOf(s, t).stage.Done?
    ensures var r, pc := Next(s, capacity, Body(t, pick)), PcOf(s, t);
      && PcOf(r, t) == pc.(stage := LruStep(s.store, capacity, pc.req, pc.stage, s.now, pick).1)
      && Undisturbed(s, r, t) && r.lock == s.lock && r.now == s.now && r.log == s.log && r.steps == s.steps + 1
  {
  }

  /** What the holder reads in a step, it reads now. */
  lemma BodyReads(s: System, capacity: nat, pc: Pc, pick: Key)
    requires pc.Holding? && Within(SoFar(pc.stage, s.now), s.now, s.now)
    ensures Within(SoFar(LruStep(s.store, capacity, pc.req, pc.stage, s.now, pick).1, s.now), s.now, s.now)
  {
    MicroReadings(s.store, capacity, pc.req, pc.stage, s.now, pick, s.now);
  }

  /** A step keeps the holder inside. */
  lemma BodyInside(s: System, capacity: nat, t: Thread, pick: Key)
    requires capacity > 0 && Inside(s, capacity, t) && !PcOf(s, t).stage.Done?
    ensures Inside(Next(s, capacity, Body(t, pick)), capacity, t)
  {
    NextKeepsInv(s, capacity, Body(t, pick));
    BodyShape(s, capacity, t, pick);
    BodyReads(s, capacity, PcOf(s, t), pick);
  }

  /** How far the holder is from the last stage. */
  ghost function Ahead(s: System, capacity: nat, t: Thread): nat
    requires capacity > 0 && PcOf(s, t).Holding?
  {
    StepsLeft(Replay(capacity, s.log), PcOf(s, t).stage)
  }

  lemma BodyCloser(s: System, capacity: nat, t: Thread, pick: Key)
    requires capacity > 0 && PcOf(s, t).Holding? && !PcOf(s, t).stage.Done?
    requires CanGoOn(s, capacity, Replay(capacity, s.log), t, pick)
    ensures PcOf(Next(s, capacity, Body(t, pick)), t).Holding?
    ensures Ahead(Next(s, capacity, Body(t, pick)), capacity, t) < Ahead(s, capacity, t)
  {
    BodyShape(s, capacity, t, pick);
  }

  /** The holder of the lock comes to the last stage. */
  lemma {:induction false} Finishes(s: System, capacity: nat, t: Thread) returns (bodies: seq<Action>)
    requires capacity > 0 && Inside(s, capacity, t)
    ensures Bodies(bodies, t) && Finished(s, RunFrom(s, capacity, bodies), capacity, t, |bodies|)
    decreases Ahead(s, capacity, t)
  {
    bodies := [];
    if !PcOf(s, t).stage.Done? {
      var pick := SomePick(PcOf(s, t).stage);
      HolderProgress(s, capacity, t, pick);
      BodyInside(s, capacity, t, pick);
      BodyShape(s, capacity, t, pick);
      BodyCloser(s, capacity, t, pick);
      bodies := Finishes(Next(s, capacity, Body(t, pick)), capacity, t);
      RunFirst(s, capacity, Body(t, pick), bodies);
      bodies := [Body(t, pick)] + bodies;
    }
  }

  // ---- Whole calls ---------------------------------------------------------------------------------------

  /** The way into the critical section, with some waiting for the lock and some time spent there. */
  function Entering(t: Thread, req: Request, wait: nat, hold: nat): seq<Action> {
    [Invoke(t, req), Tick(wait), Acquire(t), Tick(hold)]
  }

  lemma InvokeAndWait(s: System, capacity: nat, t: Thread, req: Request, wait: nat)
    requires capacity > 0 && Ready(s, t, req)
    ensures var r := RunFrom(s, capacity, [Invoke(t, req), Tick(wait)]);
      && PcOf(r, t) == Waiting(req, s.steps) && Undisturbed(s, r, t)
      && r.lock == s.lock && r.log == s.log && r.now == s.now + wait && r.steps == s.steps + 2
  {
    assert [Invoke(t, req), Tick(wait)] == [Invoke(t, req)] + [Tick(wait)];
    RunFirst(s, capacity, Invoke(t, req), [Tick(wait)]);
    RunOne(Next(s, capacity, Invoke(t, req)), capacity, Tick(wait));
  }

  lemma AcquireAndHold(s: System, capacity: nat, t: Thread, hold: nat)
    requires capacity > 0 && PcOf(s, t).Waiting? && s.lock == None
    ensures var r, pc := RunFrom(s, capacity, [Acquire(t), Tick(hold)]), PcOf(s, t);
      && PcOf(r, t) == Holding(pc.req, pc.invoked, s.steps, s.now, Entered) && Undisturbed(s, r, t)
      && r.lock == Some(t) && r.log == s.log && r.now == s.now + hold && r.steps == s.steps + 2
  {
    assert [Acquire(t), Tick(hold)] == [Acquire(t)] + [Tick(hold)];
    RunFirst(s, capacity, Acquire(t), [Tick(hold)]);
    RunOne(Next(s, capacity, Acquire(t)), capacity, Tick(hold));
  }

  lemma Enters(s: System, capacity: nat, t: Thread, req: Request, wait: nat, hold: nat)
    requires capacity > 0 && Inv(s, capacity) && s.lock == None && Ready(s, t, req)
    ensures var r := RunFrom(s, capacity, Entering(t, req, wait, hold));
      && Inside(r, capacity, t) && Undisturbed(s, r, t)
      && PcOf(r, t) == Holding(req, s.steps, s.steps + 2, s.now + wait, Entered)
      && r.now == s.now + wait + hold && r.log == s.log && r.steps == s.steps + 4
  {
    assert Entering(t, req, wait, hold) == [Invoke(t, req), Tick(wait)] + [Acquire(t), Tick(hold)];
    RunConcat(s, capacity, [Invoke(t, req), Tick(wait)], [Acquire(t), Tick(hold)]);
    RunKeepsInv(s, capacity, Entering(t, req, wait, hold));
    InvokeAndWait(s, capacity, t, req, wait);
    AcquireAndHold(RunFrom(s, capacity, [Invoke(t, req), Tick(wait)]), capacity, t, hold);
  }

  lemma ReleaseShape(s: System, capacity: nat, t: Thread)
    requires capacity > 0 && PcOf(s, t).Holding? && PcOf(s, t).stage.Done?
    ensures var r, pc := Next(s, capacity, Release(t)), PcOf(s, t);
      && r.lock == None && PcOf(r, t) == Idle && Undisturbed(s, r, t) && r.now == s.now && r.store == s.store
      && r.log == s.log + [Call(t, pc.req, pc.stage.obs, pc.stage.reply, pc.invoked, pc.acquired, s.steps, pc.entry, s.now)]
  {
  }

  /** At the last stage: what t has done to base, and answered, is its request executed alone now. */
  ghost predicate Answered(base: Store, s: System, capacity: nat, t: Thread)
    requires capacity > 0
  {
    var pc := PcOf(s, t);
    && pc.Holding? && pc.stage.Done?
    && ReadAt(pc.stage.obs, s.now) && Possible(base, pc.req, pc.stage.obs)
    && (s.store, pc.stage.reply) == Apply(base, capacity, pc.req, pc.stage.obs)
  }

  lemma Leaves(s: System, capacity: nat, t: Thread)
    requires capacity > 0 && Inv(s, capacity) && PcOf(s, t).Holding? && PcOf(s, t).stage.Done?
    requires ReadAt(PcOf(s, t).stage.obs, s.now)
    ensures Answered(Replay(capacity, s.log), s, capacity, t)
  {
    ReleaseReplays(s, capacity, t);
  }

  lemma ReadingsAtEnd(s: System, capacity: nat, t: Thread)
    requires capacity > 0 && Inside(s, capacity, t) && PcOf(s, t).stage.Done?
    ensures ReadAt(PcOf(s, t).stage.obs, s.now)
  {
    MomentOnly(PcOf(s, t).stage.obs, s.now);
  }

  /** With the lock free the store is that of the sequential run. */
  lemma FreeStore(s: System, capacity: nat)
    requires capacity > 0 && Inv(s, capacity) && s.lock == None
    ensures s.store == Replay(capacity, s.log)
  {
  }

  /**
   * From s, exactly one call has been made: t asked for req, was answered with reply, and let the
   * lock go; store and reply are those of req executed alone, every reading being of the moment
   * `wait` and `hold` later.
   */
  ghost predicate OneCall(s: System, r: System, capacity: nat, t: Thread, req: Request, obs: Observed, reply: Reply,
                          wait: nat, hold: nat, n: nat)
    requires capacity > 0
  {
    && r.lock == None && Undisturbed(s, r, t)
    && (match t case EventLoop => r.loop == Idle case Expiry => r.expiry == Idle)
    && r.now == s.now + wait + hold && ReadAt(obs, r.now)
    && r.log == s.log + [Call(t, req, obs, reply, s.steps, s.steps + 2, s.steps + 4 + n, s.now + wait, r.now)]
    && Possible(s.store, req, obs) && (r.store, reply) == Apply(s.store, capacity, req, obs)
  }

  /** With the thread come in and to the last stage, the release makes it one call. */
  lemma CallEnds(s: System, inside: System, done: System, capacity: nat, t: Thread, req: Request, wait: nat, hold: nat, n: nat)
    requires capacity > 0 && Undisturbed(s, inside, t)
    requires PcOf(inside, t) == Holding(req, s.steps, s.steps + 2, s.now + wait, Entered)
    requires inside.now == s.now + wait + hold && inside.log == s.log && inside.steps == s.steps + 4
    requires Answered(s.store, done, capacity, t) && ComeTo(inside, done, t, n)
    ensures var stage := PcOf(done, t).stage;
      OneCall(s, Next(done, capacity, Release(t)), capacity, t, req, stage.obs, stage.reply, wait, hold, n)
  {
    ReleaseShape(done, capacity, t);
  }

  lemma CallFrom(s: System, capacity: nat, t: Thread, req: Request, wait: nat, hold: nat)
    returns (bodies: seq<Action>, obs: Observed, reply: Reply)
    requires capacity > 0 && Inv(s, capacity) && s.lock == None && Ready(s, t, req)
    ensures Bodies(bodies, t)
    ensures OneCall(s, RunFrom(s, capacity, Entering(t, req, wait, hold) + bodies + [Release(t)]), capacity,
                    t, req, obs, reply, wait, hold, |bodies|)
  {
    Enters(s, capacity, t, req, wait, hold);
    var inside := RunFrom(s, capacity, Entering(t, req, wait, hold));
    bodies := Finishes(inside, capacity, t);
    var done := RunFrom(inside, capacity, bodies);
    FreeStore(s, capacity);
    ReadingsAtEnd(done, capacity, t);
    Leaves(done, capacity, t);
    CallEnds(s, inside, done, capacity, t, req, wait, hold, |bodies|);
    obs, reply := PcOf(done, t).stage.obs, PcOf(done, t).stage.reply;
    RunConcat(s, capacity, Entering(t, req, wait, hold), bodies);
    RunConcat(s, capacity, Entering(t, req, wait, hold) + bodies, [Release(t)]);
    RunOne(done, capacity, Release(t));
  }

  /**
   * Completion.  In any execution that has come to a point where the lock is free, an idle event
   * loop that holds the buffers can make every request but a sweep, and an idle expiry thread can
   * sweep: it invokes the call, waits, acquires the lock, makes some steps and releases it.  Then
   * exactly this call has been added to the log; store and reply are those of the request executed
   * alone on the store as it was; and every clock reading is the time elapsed by then.
   */
  lemma CallCompletes(capacity: nat, before: seq<Action>, t: Thread, req: Request, wait: nat, hold: nat)
    returns (bodies: seq<Action>, obs: Observed, reply: Reply)
    requires capacity > 0
    requires var s := After(capacity, before);
      && s.lock == None
      && (t == EventLoop ==> s.loop == Idle && s.buffersHeld && req != SweepReq)
      && (t == Expiry ==> s.expiry == Idle && req == SweepReq)
    ensures forall a :: a in bodies ==> a.Body? && a.thread == t
    ensures var s := After(capacity, before);
      var r := After(capacity, before + ([Invoke(t, req), Tick(wait), Acquire(t), Tick(hold)] + bodies + [Release(t)]));
      && OneCall(s, r, capacity, t, req, obs, reply, wait, hold, |bodies|)
      && r.now == Elapsed(before) + wait + hold
  {
    var s := After(capacity, before);
    InvHolds(capacity, before);
    bodies, obs, reply := CallFrom(s, capacity, t, req, wait, hold);
    RunGoesOn(capacity, before, [Invoke(t, req), Tick(wait), Acquire(t), Tick(hold)] + bodies + [Release(t)]);
    ClockIsElapsed(capacity, before);
  }

  /** The first command of all: a SET, after which the key is resident with its value. */
  lemma FirstCall(capacity: nat) returns (bodies: seq<Action>, call: Event)
    requires capacity > 0
    ensures var s := After(capacity, [LockBuffers, Invoke(EventLoop, SetReq("k", "hello", None)), Tick(0), Acquire(EventLoop),
                                      Tick(0)] + bodies + [Release(EventLoop)]);
      && s.lock == None && s.loop == Idle && s.expiry == Idle && s.log == [call] && call.Call? && call.thread == EventLoop
      && call.req == SetReq("k", "hello", None) && call.reply == SetDone
      && s.store.lru == Lru(["k"], map["k" := CacheEntry("hello", None)]) && s.store.bytes == 6 && s.store.requests == 1
  {
    var req := SetReq("k", "hello", None);
    var calling := [Invoke(EventLoop, req), Tick(0), Acquire(EventLoop), Tick(0)];
    LoopAtRest(START, capacity);
    RunGoesOn(capacity, [], [LockBuffers]);
    assert [] + [LockBuffers] == [LockBuffers];
    var obs, reply;
    bodies, obs, reply := CallCompletes(capacity, [LockBuffers], EventLoop, req, 0, 0);
    var s := After(capacity, [LockBuffers] + (calling + bodies + [Release(EventLoop)]));
    assert [LockBuffers] + (calling + bodies + [Release(EventLoop)])
        == [LockBuffers, Invoke(EventLoop, req), Tick(0), Acquire(EventLoop), Tick(0)] + bodies + [Release(EventLoop)];
    call := s.log[0];
    FirstStore(capacity, obs.now);
  }

  lemma FirstStore(capacity: nat, now: Time)
    requires capacity > 0
    ensures var st := SetStore(FRESH, capacity, "k", "hello", None, now);
      st.lru == Lru(["k"], map["k" := CacheEntry("hello", None)]) && st.bytes == 6 && st.requests == 1
  {
    var st := SetStore(FRESH, capacity, "k", "hello", None, now);
    assert st.lru.order == ["k"] && ["k"][1..] == [];
    assert Bytes([], st.lru.entries) == 0;
  }
}

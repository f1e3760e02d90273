/**
 * What holds of every store that clients can bring about: only words are stored, every answer is
 * well framed, and the counters count exactly the lines that are lookups and updates.
 */
module ServedLines {
  import opened CacheModel
  import opened StoreModel
  import opened CriticalSection
  import opened Framing
  import opened Protocol
  import Text
  import C = Concurrency
  import Completion

  // ---- One client's lines, executed one after the other --------------------------------------------

  ghost predicate WellFramed(response: string) {
    Residual(response) == ""
    && forall l :: l in RawLines(response) ==> |l| > 1 && l[|l| - 1] == '\r' && '\r' !in l[..|l| - 1]
  }

  /** A well framed answer, of one line unless it answers a KEYS. */
  ghost predicate Answers(line: string, response: string) {
    WellFramed(response) && (Parse(line) != Asks(KeysReq) ==> |RawLines(response)| == 1)
  }

  lemma LineIsAnswered(st: Store, capacity: nat, line: string, obs: Observed)
    requires capacity > 0 && WordsOnly(st.lru)
    requires Parse(line).Asks? ==> Possible(st, Parse(line).req, obs)
    ensures var (after, response) := Execute(st, capacity, line, obs);
      WordsOnly(after.lru) && Answers(line, response)
  {
    ResponseFraming(st, capacity, line, obs);
    ExecuteKeepsWords(st, capacity, line, obs);
  }

  ghost predicate AllAnswered(lines: seq<string>, written: seq<string>) {
    |written| == |lines| && forall i :: 0 <= i < |lines| ==> Answers(lines[i], written[i])
  }

  lemma OneMoreAnswered(lines: seq<string>, written: seq<string>, line: string, response: string)
    requires AllAnswered(lines, written) && Answers(line, response)
    ensures AllAnswered(lines + [line], written + [response])
  {
  }

  /** Each line gets exactly one answer, and the store keeps only words. */
  lemma {:induction false} AnswersAreFramed(st: Store, capacity: nat, lines: seq<string>, observed: seq<Observed>)
    requires capacity > 0 && |observed| == |lines| && WordsOnly(st.lru)
    requires ServeAll(st, capacity, lines, observed).Some?
    ensures var (after, written) := ServeAll(st, capacity, lines, observed).value;
      WordsOnly(after.lru) && AllAnswered(lines, written)
  {
    if lines != [] {
      var n := |lines| - 1;
      LastServed(st, capacity, lines, observed);
      AnswersAreFramed(st, capacity, lines[..n], observed[..n]);
      var (before, written) := ServeAll(st, capacity, lines[..n], observed[..n]).value;
      LastAnswered(before, capacity, lines, written, observed[n]);
    }
  }

  lemma LastAnswered(before: Store, capacity: nat, lines: seq<string>, written: seq<string>, obs: Observed)
    requires capacity > 0 && lines != [] && WordsOnly(before.lru) && AllAnswered(lines[..|lines| - 1], written)
    requires var line := lines[|lines| - 1]; Parse(line).Asks? ==> Possible(before, Parse(line).req, obs)
    ensures var (after, response) := Execute(before, capacity, lines[|lines| - 1], obs);
      WordsOnly(after.lru) && AllAnswered(lines, written + [response])
  {
    var n := |lines| - 1;
    LineIsAnswered(before, capacity, lines[n], obs);
    OneMoreAnswered(lines[..n], written, lines[n], Execute(before, capacity, lines[n], obs).1);
    assert lines == lines[..n] + [lines[n]];
  }

  predicate IsCounted(c: Command) {
    c.Asks? && Counting(c.req)
  }

  predicate IsLookup(c: Command) {
    c.Asks? && c.req.GetReq?
  }

  function CountLines(lines: seq<string>, kind: Command -> bool): nat {
    if lines == [] then 0
    else
      var n := |lines| - 1;
      CountLines(lines[..n], kind) + if kind(Parse(lines[n])) then 1 else 0
  }

  lemma LineCounts(st: Store, capacity: nat, line: string, obs: Observed)
    requires capacity > 0
    requires Parse(line).Asks? ==> Possible(st, Parse(line).req, obs)
    ensures var after := Execute(st, capacity, line, obs).0;
      && after.requests == st.requests + (if IsCounted(Parse(line)) then 1 else 0)
      && after.hits + after.misses == st.hits + st.misses + (if IsLookup(Parse(line)) then 1 else 0)
      && after.connections == st.connections
  {
    if Parse(line).Asks? {
      ParsedWords(line);
    }
  }

  /**
   * Counter conservation at the protocol: well-formed SET, GET and DEL lines, and no others, count
   * as requests; well-formed GET lines, and no others, count as a hit or a miss.
   */
  lemma {:induction false} LinesAreCounted(st: Store, capacity: nat, lines: seq<string>, observed: seq<Observed>)
    requires capacity > 0 && |observed| == |lines|
    requires ServeAll(st, capacity, lines, observed).Some?
    ensures var after := ServeAll(st, capacity, lines, observed).value.0;
      && after.requests == st.requests + CountLines(lines, IsCounted)
      && after.hits + after.misses == st.hits + st.misses + CountLines(lines, IsLookup)
      && after.connections == st.connections
  {
    if lines != [] {
      var n := |lines| - 1;
      LinesAreCounted(st, capacity, lines[..n], observed[..n]);
      LineCounts(ServeAll(st, capacity, lines[..n], observed[..n]).value.0, capacity, lines[n], observed[n]);
    }
  }

  // ---- All lines, interleaved with the expiry thread -----------------------------------------------

  /** The request is a sweep, or some command line asks for it. */
  ghost predicate FromLine(req: Request) {
    req.SweepReq? || exists line :: Parse(line) == Asks(req)
  }

  /** The event loop executes nothing but command lines. */
  ghost predicate ServesLines(actions: seq<C.Action>) {
    forall a :: a in actions && a.Invoke? && a.thread.EventLoop? ==> FromLine(a.req)
  }

  ghost predicate PcFromLine(pc: C.Pc) {
    !pc.Idle? ==> FromLine(pc.req)
  }

  ghost predicate LogFromLines(log: seq<C.Event>) {
    forall e :: e in log && e.Call? ==> FromLine(e.req)
  }

  ghost predicate AllFromLines(s: C.System) {
    PcFromLine(s.loop) && PcFromLine(s.expiry) && LogFromLines(s.log)
  }

  lemma NextFromLines(s: C.System, capacity: nat, a: C.Action)
    requires capacity > 0 && AllFromLines(s)
    requires a.Invoke? && a.thread.EventLoop? ==> FromLine(a.req)
    ensures AllFromLines(C.Next(s, capacity, a))
  {
  }

  lemma {:induction false} ServedRequests(capacity: nat, actions: seq<C.Action>)
    requires capacity > 0 && ServesLines(actions)
    ensures AllFromLines(C.After(capacity, actions))
  {
    if actions != [] {
      var n := |actions| - 1;
      assert forall a :: a in actions[..n] ==> a in actions;
      assert actions[n] in actions;
      ServedRequests(capacity, actions[..n]);
      NextFromLines(C.After(capacity, actions[..n]), capacity, actions[n]);
    }
  }

  lemma {:induction false} ReplayKeepsWords(capacity: nat, log: seq<C.Event>)
    requires capacity > 0 && LogFromLines(log)
    ensures WordsOnly(C.Replay(capacity, log).lru)
  {
    if log != [] {
      var n := |log| - 1;
      assert forall e :: e in log[..n] ==> e in log;
      ReplayKeepsWords(capacity, log[..n]);
      var st, e := C.Replay(capacity, log[..n]), log[n];
      if e.Call? && Possible(st, e.req, e.obs) {
        assert e in log;
        FromLineIsWords(e.req);
        ApplyKeepsWords(st, capacity, e.req, e.obs);
      }
    }
  }

  lemma FromLineIsWords(req: Request)
    requires FromLine(req)
    ensures req.SetReq? ==> Text.IsWord(req.key) && Text.IsWord(req.value)
  {
    if req.SetReq? {
      var line :| Parse(line) == Asks(req);
      ParsedWords(line);
    }
  }

  /** Whatever lines clients send and however the two threads interleave, only words are ever stored. */
  lemma ReachableWordsOnly(capacity: nat, actions: seq<C.Action>)
    requires capacity > 0 && ServesLines(actions)
    ensures var s := C.After(capacity, actions);
      s.lock == None ==> WordsOnly(s.store.lru) && WellFormed(s.store.lru, capacity)
  {
    C.InvHolds(capacity, actions);
    ServedRequests(capacity, actions);
    ReplayKeepsWords(capacity, C.After(capacity, actions).log);
  }

  /**
   * And every reply is printed as complete lines: one, or for KEYS one for each entry live at the
   * call's place in the sequential run, and END.
   */
  lemma ReachableAnswersAreFramed(capacity: nat, actions: seq<C.Action>, i: nat)
    requires capacity > 0 && ServesLines(actions)
    requires var log := C.After(capacity, actions).log; i < |log| && log[i].Call? && !log[i].req.SweepReq?
    ensures var log := C.After(capacity, actions).log;
      var e, text := log[i], Crlf(Bodies(log[i].reply));
      && WellFramed(text)
      && |RawLines(text)| == (if e.req.KeysReq? then |Live(C.Replay(capacity, log[..i]).lru, e.obs.at)| + 1 else 1)
  {
    var log := C.After(capacity, actions).log;
    var e := log[i];
    C.InvHolds(capacity, actions);
    ServedRequests(capacity, actions);
    C.LegalAt(capacity, log, i);
    assert forall x :: x in log[..i] ==> x in log;
    ReplayKeepsWords(capacity, log[..i]);
    ReplyIsLines(C.Replay(capacity, log[..i]), capacity, e.req, e.obs);
    CrlfSplits(Bodies(e.reply));
    EndedLines(Bodies(e.reply));
    if e.req.KeysReq? {
      ListingSize(e.obs.listing, Live(C.Replay(capacity, log[..i]).lru, e.obs.at));
    }
  }

  /** The way of one call: with some waiting for the lock, and some steps made holding it. */
  function Calling(req: Request, wait: nat, hold: nat, bodies: seq<C.Action>): seq<C.Action> {
    [C.Invoke(C.EventLoop, req), C.Tick(wait), C.Acquire(C.EventLoop), C.Tick(hold)] + bodies + [C.Release(C.EventLoop)]
  }

  lemma CallingServes(actions: seq<C.Action>, req: Request, wait: nat, hold: nat, bodies: seq<C.Action>)
    requires ServesLines(actions) && FromLine(req) && forall a :: a in bodies ==> a.Body?
    ensures ServesLines(actions + Calling(req, wait, hold, bodies))
  {
  }

  /**
   * Every well-formed line can be served: at any point of an execution at which the lock is free and
   * the event loop is idle and holds the buffers, its request can be made; and the call leaves the
   * store, and is answered, as executing the line says, all its readings being of that moment.
   */
  lemma LineIsServed(capacity: nat, before: seq<C.Action>, line: string, wait: nat, hold: nat)
    returns (bodies: seq<C.Action>, obs: Observed, reply: Reply)
    requires capacity > 0 && ServesLines(before) && Parse(line).Asks?
    requires var s := C.After(capacity, before); s.lock == None && s.loop == C.Idle && s.buffersHeld
    ensures var s, actions := C.After(capacity, before), before + Calling(Parse(line).req, wait, hold, bodies);
      var r := C.After(capacity, actions);
      && ServesLines(actions) && r.lock == None && r.loop == C.Idle && r.buffersHeld
      && Possible(s.store, Parse(line).req, obs)
      && (r.store, Crlf(Protocol.Bodies(reply))) == Execute(s.store, capacity, line, obs)
      && |r.log| == |s.log| + 1 && r.log[..|s.log|] == s.log
      && r.log[|s.log|].Call? && r.log[|s.log|].obs == obs && r.log[|s.log|].reply == reply
      && obs.now == Completion.Elapsed(before) + wait + hold
  {
    ParsedWords(line);
    bodies, obs, reply := Completion.CallCompletes(capacity, before, C.EventLoop, Parse(line).req, wait, hold);
    CallingServes(before, Parse(line).req, wait, hold, bodies);
  }
}

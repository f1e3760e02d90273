/** The server object: per-client read buffers, the framing loop, and the command dispatch. */
module TcpServer {
  import opened CacheModel
  import opened StoreModel
  import opened CriticalSection
  import opened Text
  import opened Framing
  import opened Protocol
  import opened Connections
  import KvStore
  import LruCache

  /** How a read loop ends: nothing more to read for now, end of file, or an error. */
  datatype Ending = WouldBlock | EndOfFile | Failure

  /** The clock readings of one command: one for SET and GET; for KEYS, two for each key it meets. */
  datatype Clock = Clock(now: Time, seen: Key -> Time, shown: Key -> Time)

  const READ_SIZE := 4096

  /** What a command observes is what this clock shows it. */
  ghost predicate MadeBy(obs: Observed, clock: Clock) {
    && obs.now == clock.now
    && (forall k :: k in obs.at ==> obs.at[k] == clock.seen(k))
    && |obs.shown| == |obs.listing|
    && forall i :: 0 <= i < |obs.shown| ==> obs.shown[i] == clock.shown(obs.listing[i].0)
  }

  /** The i-th command reads the i-th clock. */
  ghost predicate AllMadeBy(observed: seq<Observed>, clock: nat -> Clock) {
    forall i :: 0 <= i < |observed| ==> MadeBy(observed[i], clock(i))
  }

  lemma OneMoreMadeBy(observed: seq<Observed>, obs: Observed, clock: nat -> Clock)
    requires AllMadeBy(observed, clock) && MadeBy(obs, clock(|observed|))
    ensures AllMadeBy(observed + [obs], clock)
  {
  }

  /** One turn of the framing loop: what the first line of the buffer contributes. */
  lemma FirstLine(buffer: string)
    requires '\n' in buffer
    ensures var p := FirstNewline(buffer);
      var line := StripCr(buffer[..p]);
      && Commands(buffer) == (if line == "" then [] else [line]) + Commands(buffer[p + 1..])
      && Residual(buffer) == Residual(buffer[p + 1..])
  {
    var p := FirstNewline(buffer);
    StrippedConcat([buffer[..p]], RawLines(buffer[p + 1..]));
  }

  /**
   * A framing loop in progress: the lines taken from the stream so far have been served, and the
   * buffer holds the rest of the stream.
   */
  ghost predicate Serving(was: Store, capacity: nat, stream: string, lines: seq<string>, observed: seq<Observed>,
                          written: seq<string>, buffer: string, st: Store)
    requires capacity > 0
  {
    && Commands(stream) == lines + Commands(buffer) && Residual(stream) == Residual(buffer)
    && |observed| == |lines|
    && ServeAll(was, capacity, lines, observed) == Some((st, written))
  }

  lemma ServingSkips(was: Store, capacity: nat, stream: string, lines: seq<string>, observed: seq<Observed>,
                     written: seq<string>, buffer: string, st: Store, shorter: string)
    requires capacity > 0 && Serving(was, capacity, stream, lines, observed, written, buffer, st)
    requires Commands(buffer) == [] + Commands(shorter) && Residual(buffer) == Residual(shorter)
    ensures Serving(was, capacity, stream, lines, observed, written, shorter, st)
  {
    assert [] + Commands(shorter) == Commands(shorter);
  }

  lemma ServingTakes(was: Store, capacity: nat, stream: string, lines: seq<string>, observed: seq<Observed>,
                     written: seq<string>, buffer: string, st: Store, line: string, shorter: string, obs: Observed)
    requires capacity > 0 && Serving(was, capacity, stream, lines, observed, written, buffer, st)
    requires Commands(buffer) == [line] + Commands(shorter) && Residual(buffer) == Residual(shorter)
    requires Parse(line).Asks? ==> Possible(st, Parse(line).req, obs)
    ensures var (after, response) := Execute(st, capacity, line, obs);
      Serving(was, capacity, stream, lines + [line], observed + [obs], written + [response], shorter, after)
  {
    Reassociate(lines, line, Commands(shorter));
    ServeOneMore(was, capacity, lines, observed, line, obs);
  }

  lemma Reassociate(lines: seq<string>, line: string, rest: seq<string>)
    ensures lines + ([line] + rest) == (lines + [line]) + rest
  {
  }

  /** One turn of the loop, whether or not the line it takes is empty. */
  lemma ServingTurn(was: Store, capacity: nat, stream: string, lines: seq<string>, observed: seq<Observed>,
                    written: seq<string>, buffer: string, st: Store, line: string, shorter: string, obs: Observed,
                    after: Store, response: string)
    requires capacity > 0 && Serving(was, capacity, stream, lines, observed, written, buffer, st)
    requires TurnDone(capacity, buffer, st, line, shorter, obs, after, response)
    ensures line == "" ==> Serving(was, capacity, stream, lines, observed, written, shorter, after)
    ensures line != "" ==>
      Serving(was, capacity, stream, lines + [line], observed + [obs], written + [response], shorter, after)
  {
    if line == "" {
      ServingSkips(was, capacity, stream, lines, observed, written, buffer, st, shorter);
    } else {
      ServingTakes(was, capacity, stream, lines, observed, written, buffer, st, line, shorter, obs);
    }
  }

  /** Taking a line out of the buffer and, unless it is empty, executing it. */
  ghost predicate TurnDone(capacity: nat, buffer: string, st: Store, line: string, shorter: string, obs: Observed,
                           after: Store, response: string)
    requires capacity > 0
  {
    && Commands(buffer) == (if line == "" then [] else [line]) + Commands(shorter)
    && Residual(buffer) == Residual(shorter)
    && (line == "" ==> after == st)
    && (line != "" ==> (Parse(line).Asks? ==> Possible(st, Parse(line).req, obs))
                       && (after, response) == Execute(st, capacity, line, obs))
  }

  lemma ServingEnds(was: Store, capacity: nat, stream: string, lines: seq<string>, observed: seq<Observed>,
                    written: seq<string>, buffer: string, st: Store)
    requires capacity > 0 && Serving(was, capacity, stream, lines, observed, written, buffer, st)
    requires '\n' !in buffer
    ensures lines == Commands(stream) && buffer == Residual(stream)
  {
  }

  lemma UpdateTwice(m: map<int, string>, fd: int, a: string, b: string)
    ensures m[fd := a][fd := b] == m[fd := b]
  {
  }

  lemma TakeToken(tokens: seq<string>, s: string)
    ensures var r := s[Spaces(s)..];
      && (r == "" ==> tokens + Tokens(s) == tokens)
      && (r != "" ==> tokens + Tokens(s) == (tokens + [r[..WordLength(r)]]) + Tokens(r[WordLength(r)..]))
  {
  }

  /** std::istream extraction in a loop. */
  method Tokenize(s: string) returns (tokens: seq<string>)
    ensures tokens == Tokens(s)
  {
    tokens := [];
    var rest := s;
    while true
      invariant tokens + Tokens(rest) == Tokens(s)
      decreases |rest|
    {
      TakeToken(tokens, rest);
      rest := rest[Spaces(rest)..];
      if rest == "" {
        return;
      }
      var n := WordLength(rest);
      tokens := tokens + [rest[..n]];
      rest := rest[n..];
    }
  }

  /** With this observation, carrying out c on st gives the store `after` and this response. */
  ghost predicate Explains(st: Store, capacity: nat, c: Command, obs: Observed, after: Store, response: string)
    requires capacity > 0
  {
    (c.Asks? ==> Possible(st, c.req, obs)) && (after, response) == Perform(st, capacity, c, obs)
  }

  lemma ListingExplained(st: Store, capacity: nat, now: Time, at: map<Key, Time>, listing: seq<(Key, CacheEntry)>,
                         shown: seq<Time>)
    requires capacity > 0 && at.Keys == st.lru.entries.Keys
    requires Lists(listing, Live(st.lru, at)) && |shown| == |listing|
    ensures Explains(st, capacity, Asks(KeysReq), Observed(now, at, listing, shown), st,
                     Crlf(KeyBodies(Lines(listing, shown))) + ("END" + CRLF))
  {
    CrlfSnoc(KeyBodies(Lines(listing, shown)), "END");
  }

  class Server {
    const store: KvStore.KVStore
    var readBuffers: map<int, string>

    ghost predicate Valid()
      reads this, store, store.lru, store.lru.order, store.lru.order.members, store.lru.order.nodes
    {
      store.Valid()
    }

    ghost function Net(): Net
      reads this, store
    {
      Connections.Net(readBuffers, store.activeConnections)
    }

    constructor (store: KvStore.KVStore)
      requires store.Valid()
      ensures Valid() && this.store == store && readBuffers == map[]
    {
      this.store := store;
      readBuffers := map[];
    }

    method AcceptClient(fd: int)
      requires Valid()
      modifies `readBuffers, store`activeConnections
      ensures Valid() && Net() == React(old(Net()), Accepted(fd)).0
      ensures store.Abstract() == old(store.Abstract()).(connections := old(store.activeConnections) + 1)
    {
      store.IncrementConnections();
      readBuffers := readBuffers[fd := ""];
    }

    method Disconnect(fd: int)
      requires Valid()
      modifies `readBuffers, store`activeConnections
      ensures Valid() && Net() == React(old(Net()), Closed(fd)).0
      ensures store.Abstract() == old(store.Abstract()).(connections := Net().gauge)
    {
      store.DecrementConnections();
      readBuffers := readBuffers - {fd};
    }

    /** The KEYS answer: a row for each live entry in some hash order, then END. */
    method ListKeys(clock: Clock) returns (response: string)
      requires Valid()
      ensures exists obs ::
        && Explains(store.Abstract(), store.lru.capacity, Asks(KeysReq), obs, store.Abstract(), response)
        && MadeBy(obs, clock)
    {
      var listing := store.lru.AllEntries(clock.seen);
      response := PrintRows(listing, clock.shown);
      ghost var at := LruCache.Readings(store.lru.Abstract(), clock.seen);
      ListingExplained(store.Abstract(), store.lru.capacity, clock.now, at, listing, ShownAt(listing, clock.shown));
      assert MadeBy(Observed(clock.now, at, listing, ShownAt(listing, clock.shown)), clock);
      response := response + ("END" + CRLF);
    }

    method ProcessSet(tokens: seq<string>, now: Time) returns (response: string)
      requires Valid() && tokens != [] && Upper(tokens[0]) == "SET"
      modifies store, store.lru, store.lru.order, store.lru.order.members
      ensures Valid() && fresh(store.lru.order.members - old(store.lru.order.members))
      ensures store.activeConnections == old(store.activeConnections)
      ensures (store.Abstract(), response) == Perform(old(store.Abstract()), store.lru.capacity, Interpret(tokens), At(now))
    {
      if |tokens| < 3 {
        CrlfOfOne("ERROR SET <key> <value> [<ttl>]");
        return "ERROR SET <key> <value> [<ttl>]" + CRLF;
      }
      var ttl: Option<int> := None;
      if |tokens| >= 4 {
        ttl := Stoll(tokens[3]);
        if ttl == None {
          CrlfOfOne("ERROR invalid TTL");
          return "ERROR invalid TTL" + CRLF;
        }
      }
      var _ := store.Set(tokens[1], tokens[2], ttl, now);
      CrlfOfOne("OK");
      return "OK" + CRLF;
    }

    method ProcessGet(tokens: seq<string>, now: Time) returns (response: string)
      requires Valid() && tokens != [] && Upper(tokens[0]) == "GET"
      modifies store, store.lru, store.lru.order, store.lru.order.members
      ensures Valid() && store.lru.order.members <= old(store.lru.order.members)
      ensures store.activeConnections == old(store.activeConnections)
      ensures (store.Abstract(), response) == Perform(old(store.Abstract()), store.lru.capacity, Interpret(tokens), At(now))
    {
      if |tokens| < 2 {
        CrlfOfOne("ERROR GET <key>");
        return "ERROR GET <key>" + CRLF;
      }
      ghost var st := store.Abstract();
      var val := store.Get(tokens[1], now);
      var body := if val.Some? then "VALUE " + val.value else "NOT_FOUND";
      OneBody(st, store.lru.capacity, Asks(GetReq(tokens[1])), At(now), store.Abstract(), body);
      return body + CRLF;
    }

    method ProcessDel(tokens: seq<string>, now: Time) returns (response: string)
      requires Valid() && tokens != [] && Upper(tokens[0]) == "DEL"
      modifies store, store.lru, store.lru.order, store.lru.order.members
      ensures Valid() && store.lru.order.members <= old(store.lru.order.members)
      ensures store.activeConnections == old(store.activeConnections)
      ensures (store.Abstract(), response) == Perform(old(store.Abstract()), store.lru.capacity, Interpret(tokens), At(now))
    {
      if |tokens| < 2 {
        CrlfOfOne("ERROR DEL <key>");
        return "ERROR DEL <key>" + CRLF;
      }
      ghost var st := store.Abstract();
      var found := store.Del(tokens[1]);
      var body := if found then "OK" else "NOT_FOUND";
      OneBody(st, store.lru.capacity, Asks(DelReq(tokens[1])), At(now), store.Abstract(), body);
      return body + CRLF;
    }

    /** Commands that change nothing: STATS, KEYS, and anything unknown. */
    method ProcessOther(tokens: seq<string>, clock: Clock) returns (response: string)
      requires Valid() && tokens != []
      requires var name := Upper(tokens[0]); name != "SET" && name != "GET" && name != "DEL"
      ensures exists obs ::
        && Explains(store.Abstract(), store.lru.capacity, Interpret(tokens), obs, store.Abstract(), response)
        && MadeBy(obs, clock)
    {
      ghost var obs := At(clock.now);
      var cmd := Upper(tokens[0]);
      if cmd == "KEYS" {
        response := ListKeys(clock);
        obs :| Explains(store.Abstract(), store.lru.capacity, Asks(KeysReq), obs, store.Abstract(), response)
               && MadeBy(obs, clock);
      } else if cmd == "STATS" {
        var s := store.GetStats();
        CrlfOfOne(StatsBody(s));
        response := StatsBody(s) + CRLF;
      } else {
        CrlfOfOne("ERROR unknown command '" + cmd + "'");
        response := "ERROR unknown command '" + cmd + "'" + CRLF;
      }
      assert Explains(store.Abstract(), store.lru.capacity, Interpret(tokens), obs, store.Abstract(), response);
    }

    method ProcessCommand(line: string, clock: Clock) returns (response: string, ghost obs: Observed)
      requires Valid()
      modifies store, store.lru, store.lru.order, store.lru.order.members
      ensures Valid() && fresh(store.lru.order.members - old(store.lru.order.members))
      ensures store.activeConnections == old(store.activeConnections)
      ensures Parse(line).Asks? ==> Possible(old(store.Abstract()), Parse(line).req, obs)
      ensures (store.Abstract(), response) == Execute(old(store.Abstract()), store.lru.capacity, line, obs)
      ensures MadeBy(obs, clock)
    {
      var tokens := Tokenize(line);
      response, obs := ProcessTokens(tokens, clock);
    }

    method ProcessTokens(tokens: seq<string>, clock: Clock) returns (response: string, ghost obs: Observed)
      requires Valid()
      modifies store, store.lru, store.lru.order, store.lru.order.members
      ensures Valid() && fresh(store.lru.order.members - old(store.lru.order.members))
      ensures store.activeConnections == old(store.activeConnections)
      ensures Interpret(tokens).Asks? ==> Possible(old(store.Abstract()), Interpret(tokens).req, obs)
      ensures (store.Abstract(), response) == Perform(old(store.Abstract()), store.lru.capacity, Interpret(tokens), obs)
      ensures MadeBy(obs, clock)
    {
      obs := At(clock.now);
      if tokens == [] {
        CrlfOfOne("ERROR empty command");
        return "ERROR empty command" + CRLF, obs;
      }
      var cmd := Upper(tokens[0]);
      if cmd == "SET" {
        response := ProcessSet(tokens, clock.now);
      } else if cmd == "GET" {
        response := ProcessGet(tokens, clock.now);
      } else if cmd == "DEL" {
        response := ProcessDel(tokens, clock.now);
      } else {
        response := ProcessOther(tokens, clock);
        obs :| Explains(store.Abstract(), store.lru.capacity, Interpret(tokens), obs, store.Abstract(), response)
               && MadeBy(obs, clock);
      }
    }

    /** Takes the first complete line out of the client's buffer. */
    method TakeLine(fd: int) returns (line: string)
      requires fd in readBuffers && '\n' in readBuffers[fd]
      modifies `readBuffers
      ensures readBuffers.Keys == old(readBuffers).Keys && |readBuffers[fd]| < |old(readBuffers)[fd]|
      ensures readBuffers == old(readBuffers)[fd := readBuffers[fd]]
      ensures Commands(old(readBuffers)[fd]) == (if line == "" then [] else [line]) + Commands(readBuffers[fd])
      ensures Residual(old(readBuffers)[fd]) == Residual(readBuffers[fd])
    {
      var buffer := readBuffers[fd];
      FirstLine(buffer);
      var pos := FirstNewline(buffer);
      line := StripCr(buffer[..pos]);
      readBuffers := readBuffers[fd := buffer[pos + 1..]];
    }

    /** Takes the first complete line and, unless it is empty, executes it. */
    method ServeLine(fd: int, clock: Clock) returns (line: string, response: string, ghost obs: Observed)
      requires Valid() && fd in readBuffers && '\n' in readBuffers[fd]
      modifies `readBuffers, store, store.lru, store.lru.order, store.lru.order.members
      ensures Valid() && fresh(store.lru.order.members - old(store.lru.order.members))
      ensures store.activeConnections == old(store.activeConnections)
      ensures fd in readBuffers && |readBuffers[fd]| < |old(readBuffers)[fd]|
      ensures readBuffers == old(readBuffers)[fd := readBuffers[fd]]
      ensures TurnDone(store.lru.capacity, old(readBuffers)[fd], old(store.Abstract()), line, readBuffers[fd], obs,
                       store.Abstract(), response)
      ensures MadeBy(obs, clock)
    {
      line := TakeLine(fd);
      response, obs := "", At(clock.now);
      if line != "" {
        response, obs := ProcessCommand(line, clock);
      }
    }

    /** Dispatches every complete line in the client's buffer. */
    method DispatchLines(fd: int, clock: nat -> Clock) returns (written: seq<string>, ghost observed: seq<Observed>)
      requires Valid() && fd in readBuffers
      modifies `readBuffers, store, store.lru, store.lru.order, store.lru.order.members
      ensures Valid() && fresh(store.lru.order.members - old(store.lru.order.members))
      ensures store.activeConnections == old(store.activeConnections)
      ensures readBuffers == old(readBuffers)[fd := Residual(old(readBuffers)[fd])]
      ensures |observed| == |Commands(old(readBuffers)[fd])|
      ensures ServeAll(old(store.Abstract()), store.lru.capacity, Commands(old(readBuffers)[fd]), observed)
           == Some((store.Abstract(), written))
      ensures AllMadeBy(observed, clock)
    {
      ghost var lines: seq<string>, stream, was, capacity := [], readBuffers[fd], store.Abstract(), store.lru.capacity;
      written, observed := [], [];
      while '\n' in readBuffers[fd]
        invariant Valid() && fresh(store.lru.order.members - old(store.lru.order.members))
        invariant store.activeConnections == old(store.activeConnections)
        invariant fd in readBuffers && readBuffers == old(readBuffers)[fd := readBuffers[fd]]
        invariant Serving(was, capacity, stream, lines, observed, written, readBuffers[fd], store.Abstract())
        invariant |written| == |observed| && AllMadeBy(observed, clock)
        decreases |readBuffers[fd]|
      {
        ghost var st, buffer := store.Abstract(), readBuffers[fd];
        var line, response, obs := ServeLine(fd, clock(|written|));
        ServingTurn(was, capacity, stream, lines, observed, written, buffer, st, line, readBuffers[fd], obs,
                    store.Abstract(), response);
        if line != "" {
          OneMoreMadeBy(observed, obs, clock);
          lines, observed, written := lines + [line], observed + [obs], written + [response];
        }
      }
      ServingEnds(was, capacity, stream, lines, observed, written, readBuffers[fd], store.Abstract());
    }

    /**
     * Reads whatever has arrived on fd, in pieces of at most 4096 bytes.  Only a loop that ends
     * because nothing more is there processes what it read; end of file and errors discard it.
     */
    method HandleRead(fd: int, arrived: string, ending: Ending, clock: nat -> Clock)
      returns (written: seq<string>, ghost observed: seq<Observed>)
      requires Valid()
      modifies `readBuffers, store, store.lru, store.lru.order, store.lru.order.members
      ensures Valid() && fresh(store.lru.order.members - old(store.lru.order.members))
      ensures var e := if ending.WouldBlock? then Drained(fd, arrived) else Closed(fd);
        var (net, lines) := React(old(Net()), e);
        && Net() == net && |observed| == |lines|
        && ServeAll(old(store.Abstract()).(connections := net.gauge), store.lru.capacity, lines, observed)
           == Some((store.Abstract(), written))
        && AllMadeBy(observed, clock)
    {
      var accumulated := Drain(arrived);
      written, observed := [], [];
      if !ending.WouldBlock? {
        Disconnect(fd);
      } else if accumulated != "" {
        written, observed := Feed(fd, accumulated, clock);
      }
    }

    /** Appends to the client's buffer, which comes into being if need be, and dispatches. */
    method Feed(fd: int, accumulated: string, clock: nat -> Clock)
      returns (written: seq<string>, ghost observed: seq<Observed>)
      requires Valid() && accumulated != ""
      modifies `readBuffers, store, store.lru, store.lru.order, store.lru.order.members
      ensures Valid() && fresh(store.lru.order.members - old(store.lru.order.members))
      ensures var (net, lines) := React(old(Net()), Drained(fd, accumulated));
        && readBuffers == net.buffers && store.activeConnections == net.gauge && |observed| == |lines|
        && ServeAll(old(store.Abstract()), store.lru.capacity, lines, observed) == Some((store.Abstract(), written))
        && AllMadeBy(observed, clock)
    {
      ghost var stream := (if fd in readBuffers then readBuffers[fd] else "") + accumulated;
      readBuffers := readBuffers[fd := (if fd in readBuffers then readBuffers[fd] else "") + accumulated];
      UpdateTwice(old(readBuffers), fd, stream, Residual(stream));
      written, observed := DispatchLines(fd, clock);
    }
  }

  /** The read loop: pieces of any size up to READ_SIZE add up to what arrived. */
  method Drain(arrived: string) returns (accumulated: string)
    ensures accumulated == arrived
  {
    var unread := arrived;
    accumulated := "";
    while unread != ""
      invariant accumulated + unread == arrived
      decreases |unread|
    {
      var n :| 0 < n <= |unread| && n <= READ_SIZE;
      accumulated, unread := accumulated + unread[..n], unread[n..];
    }
  }

  /** The clock readings made for the rows of a listing. */
  function ShownAt(listing: seq<(Key, CacheEntry)>, clock: Key -> Time): (r: seq<Time>)
    ensures |r| == |listing| && forall i :: 0 <= i < |r| ==> r[i] == clock(listing[i].0)
  {
    if listing == [] then []
    else ShownAt(listing[..|listing| - 1], clock) + [clock(listing[|listing| - 1].0)]
  }

  /** Prints the rows of a listing, reading the clock for each one. */
  method PrintRows(listing: seq<(Key, CacheEntry)>, clock: Key -> Time) returns (text: string)
    ensures text == Crlf(KeyBodies(Lines(listing, ShownAt(listing, clock))))
  {
    text := "";
    for i := 0 to |listing|
      invariant text == Crlf(KeyBodies(Lines(listing[..i], ShownAt(listing[..i], clock))))
    {
      var (key, entry) := listing[i];
      var ttl := entry.TtlRemaining(clock(key));
      RowsSnoc(listing, i, clock);
      text := text + (key + " " + entry.value + " " + (if ttl.Some? then Digits(ttl.value) else "-1") + CRLF);
    }
    assert listing[..|listing|] == listing;
  }

  lemma RowsSnoc(listing: seq<(Key, CacheEntry)>, i: nat, clock: Key -> Time)
    requires i < |listing|
    ensures var (key, entry) := listing[i];
      Crlf(KeyBodies(Lines(listing[..i + 1], ShownAt(listing[..i + 1], clock))))
      == Crlf(KeyBodies(Lines(listing[..i], ShownAt(listing[..i], clock))))
         + (KeyLineBody(KeyLine(key, entry.value, entry.TtlRemaining(clock(key)))) + CRLF)
  {
    var (key, entry) := listing[i];
    var row := KeyLine(key, entry.value, entry.TtlRemaining(clock(key)));
    var before := Lines(listing[..i], ShownAt(listing[..i], clock));
    assert listing[..i + 1][..i] == listing[..i];
    assert Lines(listing[..i + 1], ShownAt(listing[..i + 1], clock)) == before + [row];
    assert KeyBodies(before + [row]) == KeyBodies(before) + [KeyLineBody(row)];
    CrlfSnoc(KeyBodies(before), KeyLineBody(row));
  }
}

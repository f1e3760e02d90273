/** Client calls through the wire, the framing, the dispatch and the cache, and back. */
module EndToEnd {
  import opened CacheModel
  import opened StoreModel
  import opened CriticalSection
  import opened Text
  import opened Framing
  import opened Protocol
  import opened Client
  import opened KeysListing
  import opened SweepTransparency
  import Runs

  // ---- Commands reach the store as they were meant ------------------------------------------------------

  /** The server cuts exactly one command line out of the wire text, and reads it as this request. */
  ghost predicate Delivers(wire: string, req: Request) {
    exists line :: Commands(wire) == [line] && Parse(line) == Asks(req)
  }

  lemma StrippedOne(line: string)
    requires StripCr(line) != ""
    ensures NonEmptyStripped([line]) == [StripCr(line)]
  {
    assert [line][1..] == [];
  }

  /** Whatever a command holds but a line feed: a carriage return, too, stays what it is; a line end is not doubled. */
  lemma WireIsOneCommand(line: string)
    requires line != "" && '\n' !in line
    ensures Wire(line) == line + "\r\n" == Wire(line + "\r\n") && Commands(Wire(line)) == [line]
  {
    assert line[|line| - 1] in line;
    assert Wire(line) == line + "\r" + "\n" + "";
    ConsLine(line + "\r", "");
    assert (line + "\r")[..|line|] == line;
    assert RawLines(Wire(line)) == [line + "\r"];
    StrippedOne(line + "\r");
  }

  function SetWords(key: string, value: string, ttl: Option<int>): seq<string> {
    if ttl.None? then ["SET", key, value] else ["SET", key, value, IntText(ttl.value)]
  }

  lemma SpacedThree(a: string, b: string, c: string)
    ensures Spaced([a, b, c]) == a + " " + b + " " + c
  {
    assert [a, b, c][1..] == [b, c] && [b, c][1..] == [c];
    assert Spaced([b, c]) == b + " " + c;
    assert a + " " + (b + " " + c) == a + " " + b + " " + c;
  }

  lemma SpacedFour(a: string, b: string, c: string, d: string)
    ensures Spaced([a, b, c, d]) == a + " " + b + " " + c + " " + d
  {
    assert [a, b, c, d][1..] == [b, c, d];
    SpacedThree(b, c, d);
    assert a + " " + (b + " " + c + " " + d) == a + " " + b + " " + c + " " + d;
  }

  lemma SpacedTwo(a: string, b: string)
    ensures Spaced([a, b]) == a + " " + b
  {
    assert [a, b][1..] == [b];
  }

  lemma SetCommandIsSpaced(key: string, value: string, ttl: Option<int>)
    ensures SetCommand(key, value, ttl) == Spaced(SetWords(key, value, ttl))
  {
    if ttl.None? {
      SpacedThree("SET", key, value);
      assert "SET " + key + " " + value == "SET" + " " + key + " " + value;
    } else {
      SpacedFour("SET", key, value, IntText(ttl.value));
      assert "SET " + key + " " + value + " " + IntText(ttl.value)
          == "SET" + " " + key + " " + value + " " + IntText(ttl.value);
    }
  }

  predicate InRange(ttl: Option<int>) {
    ttl.Some? ==> Fits64(ttl.value)
  }

  lemma SetCommandParses(key: string, value: string, ttl: Option<int>)
    requires IsWord(key) && IsWord(value) && InRange(ttl)
    ensures Parse(SetCommand(key, value, ttl)) == Asks(SetReq(key, value, ttl))
  {
    assert IsWord("SET") && Upper("SET") == "SET";
    if ttl.Some? {
      IntTextIsWord(ttl.value);
      StollOfIntText(ttl.value);
    }
    SetCommandIsSpaced(key, value, ttl);
    TokensOfSpaced(SetWords(key, value, ttl));
  }

  lemma SetCommandIsOneLine(key: string, value: string, ttl: Option<int>)
    requires IsWord(key) && IsWord(value)
    ensures OneLine(SetCommand(key, value, ttl))
  {
    if ttl.Some? {
      IntTextIsWord(ttl.value);
    }
  }

  /**
   * set_key delivers exactly its own SET when, and only when, key and value are words and the TTL
   * fits into 64 bits.
   */
  lemma SetDelivered(key: string, value: string, ttl: Option<int>)
    ensures Delivers(Wire(SetCommand(key, value, ttl)), SetReq(key, value, ttl))
       <==> IsWord(key) && IsWord(value) && InRange(ttl)
  {
    var command, req := SetCommand(key, value, ttl), SetReq(key, value, ttl);
    if IsWord(key) && IsWord(value) && InRange(ttl) {
      SetCommandIsOneLine(key, value, ttl);
      WireIsOneCommand(command);
      SetCommandParses(key, value, ttl);
    }
    if Delivers(Wire(command), req) {
      var line :| Commands(Wire(command)) == [line] && Parse(line) == Asks(req);
      ParsedWords(line);
      ParsedTtlInRange(line);
    }
  }

  lemma ParsedTtlInRange(line: string)
    requires Parse(line).Asks? && Parse(line).req.SetReq?
    ensures InRange(Parse(line).req.ttl)
  {
  }

  lemma KeyCommandTokens(name: string, key: string)
    requires IsWord(name) && IsWord(key)
    ensures Tokens(name + " " + key) == [name, key] && OneLine(name + " " + key)
  {
    SpacedTwo(name, key);
    TokensOfSpaced([name, key]);
    OneLineBetween(name, " ", key);
  }

  lemma GetIsDispatched(key: string)
    ensures IsWord("GET") && GetCommand(key) == "GET" + " " + key && Interpret(["GET", key]) == Asks(GetReq(key))
  {
    assert Upper("GET") == "GET" && "GET"[0] == 'G';
  }

  lemma DelIsDispatched(key: string)
    ensures IsWord("DEL") && DelCommand(key) == "DEL" + " " + key && Interpret(["DEL", key]) == Asks(DelReq(key))
  {
    assert Upper("DEL") == "DEL" && "DEL"[0] == 'D';
  }

  lemma GetCommandParses(key: string)
    requires IsWord(key)
    ensures Parse(GetCommand(key)) == Asks(GetReq(key)) && OneLine(GetCommand(key))
  {
    GetIsDispatched(key);
    KeyCommandTokens("GET", key);
  }

  lemma DelCommandParses(key: string)
    requires IsWord(key)
    ensures Parse(DelCommand(key)) == Asks(DelReq(key)) && OneLine(DelCommand(key))
  {
    DelIsDispatched(key);
    KeyCommandTokens("DEL", key);
  }

  /** get_key and delete_key deliver exactly their own request when, and only when, the key is a word. */
  lemma KeyDelivered(key: string)
    ensures Delivers(Wire(GetCommand(key)), GetReq(key)) <==> IsWord(key)
    ensures Delivers(Wire(DelCommand(key)), DelReq(key)) <==> IsWord(key)
  {
    if IsWord(key) {
      GetCommandParses(key);
      DelCommandParses(key);
      WireIsOneCommand(GetCommand(key));
      WireIsOneCommand(DelCommand(key));
    }
    if Delivers(Wire(GetCommand(key)), GetReq(key)) {
      var line :| Commands(Wire(GetCommand(key))) == [line] && Parse(line) == Asks(GetReq(key));
      ParsedWords(line);
    }
    if Delivers(Wire(DelCommand(key)), DelReq(key)) {
      var line :| Commands(Wire(DelCommand(key))) == [line] && Parse(line) == Asks(DelReq(key));
      ParsedWords(line);
    }
  }

  /** A value with a space is not delivered as such: here its second half is taken for a TTL. */
  lemma SpaceIsMisread()
    ensures !Delivers(Wire(SetCommand("k", "a 5", None)), SetReq("k", "a 5", None))
    ensures Delivers(Wire(SetCommand("k", "a 5", None)), SetReq("k", "a", Some(5)))
  {
    assert "a 5"[1] == ' ';
    assert !IsWord("a 5") by {
      assert ' ' in "a 5";
    }
    SetDelivered("k", "a 5", None);
    assert IntText(5) == "5";
    assert SetCommand("k", "a 5", None) == SetCommand("k", "a", Some(5));
    SetDelivered("k", "a", Some(5));
  }

  /** A key with a space is not delivered as such: get_key reads, and delete_key deletes, another key. */
  lemma KeyIsMisread()
    ensures !Delivers(Wire(GetCommand("a b")), GetReq("a b")) && Delivers(Wire(GetCommand("a b")), GetReq("a"))
    ensures !Delivers(Wire(DelCommand("a b")), DelReq("a b")) && Delivers(Wire(DelCommand("a b")), DelReq("a"))
  {
    SpacedKey();
    KeyDelivered("a b");
    GetIsDispatched("a");
    DelIsDispatched("a");
    SurplusDelivered("GET", "a", "b", GetReq("a"));
    SurplusDelivered("DEL", "a", "b", DelReq("a"));
    SpacedKeyCommands();
  }

  lemma SpacedKeyCommands()
    ensures GetCommand("a b") == "GET" + " " + "a" + " " + "b"
    ensures DelCommand("a b") == "DEL" + " " + "a" + " " + "b"
  {
  }

  lemma SurplusDelivered(name: string, key: string, surplus: string, req: Request)
    requires IsWord(name) && IsWord(key) && IsWord(surplus)
    requires Interpret([name, key]) == Asks(req) && !req.SetReq?
    ensures Delivers(Wire(name + " " + key + " " + surplus), req)
  {
    SurplusToken(name, key, surplus);
    WireIsOneCommand(name + " " + key + " " + surplus);
  }

  lemma SpacedKey()
    ensures !IsWord("a b") && IsWord("a") && IsWord("b")
  {
    assert "a b"[1] == ' ';
    assert ' ' in "a b";
  }

  lemma SurplusToken(name: string, key: string, surplus: string)
    requires IsWord(name) && IsWord(key) && IsWord(surplus)
    requires Interpret([name, key]).Asks? && !Interpret([name, key]).req.SetReq?
    ensures Parse(name + " " + key + " " + surplus) == Interpret([name, key])
    ensures OneLine(name + " " + key + " " + surplus)
  {
    ThreeTokens(name, key, surplus);
    assert [name, key, surplus] == [name, key] + [surplus];
    SurplusIgnored([name, key], [surplus]);
  }

  lemma ThreeTokens(a: string, b: string, c: string)
    requires IsWord(a) && IsWord(b) && IsWord(c)
    ensures Tokens(a + " " + b + " " + c) == [a, b, c] && OneLine(a + " " + b + " " + c)
  {
    SpacedThree(a, b, c);
    TokensOfSpaced([a, b, c]);
    WordIsOneLine(a);
    WordIsOneLine(b);
    WordIsOneLine(c);
    OneLineBetween(a, " ", b);
    OneLineBetween(a + " " + b, " ", c);
  }

  lemma WordIsOneLine(word: string)
    requires IsWord(word)
    ensures OneLine(word) && OneLine(" ")
  {
  }

  /** Nor is a value with a line break: here its second half becomes a command of its own. */
  lemma BreakIsMisread()
    ensures !Delivers(Wire(SetCommand("k", "a\nKEYS", None)), SetReq("k", "a\nKEYS", None))
    ensures Commands(Wire(SetCommand("k", "a\nKEYS", None))) == ["SET k a", "KEYS"]
  {
    assert "a\nKEYS"[1] == '\n';
    assert !IsWord("a\nKEYS") by {
      assert '\n' in "a\nKEYS";
    }
    SetDelivered("k", "a\nKEYS", None);
    BrokenWire();
  }

  lemma WireAppends(command: string)
    requires command != "" && command[|command| - 1] != '\n'
    ensures Wire(command) == command + CRLF
  {
  }

  lemma LineThen(line: string, rest: string)
    requires OneLine(line)
    ensures Commands(line + "\n" + rest) == [line] + Commands(rest)
  {
    ConsLine(line, rest);
    StrippedCons(line, RawLines(rest));
  }

  lemma TwoLines(a: string, b: string)
    requires OneLine(a) && OneLine(b)
    ensures Commands(Wire(a + "\n" + b)) == [a, b]
  {
    assert b[|b| - 1] in b;
    WireAppends(b);
    WireAppends(a + "\n" + b);
    Associative(a + "\n", b, CRLF);
    LineThen(a, Wire(b));
    WireIsOneCommand(b);
  }

  lemma StrippedCons(line: string, lines: seq<string>)
    requires OneLine(line)
    ensures NonEmptyStripped([line] + lines) == [line] + NonEmptyStripped(lines)
  {
    assert ([line] + lines)[1..] == lines;
    assert line[|line| - 1] in line;
  }

  lemma BrokenWire()
    ensures Commands(Wire(SetCommand("k", "a\nKEYS", None))) == ["SET k a", "KEYS"]
  {
    assert SetCommand("k", "a\nKEYS", None) == "SET k a" + "\n" + "KEYS";
    BothAreLines();
    TwoLines("SET k a", "KEYS");
  }

  lemma BothAreLines()
    ensures OneLine("SET k a") && OneLine("KEYS")
  {
  }

  // ---- Whole calls ------------------------------------------------------------------------------------------

  /**
   * One client call that the server sees as one command line, on a connection that the server keeps
   * open; None if the call is not seen as one line.
   */
  ghost function ClientCall(st: Store, capacity: nat, command: string, obs: Observed): Option<(Store, Received<string>)>
    requires capacity > 0
  {
    var lines := Commands(Wire(command));
    if |lines| != 1 || (Parse(lines[0]).Asks? && !Possible(st, Parse(lines[0]).req, obs)) then None
    else
      var (after, stream) := Execute(st, capacity, lines[0], obs);
      Some((after, Response(command, stream, false)))
  }

  lemma PlainCall(st: Store, capacity: nat, command: string, req: Request, now: Time, after: Store, body: string)
    requires capacity > 0 && OneLine(command) && Parse(command) == Asks(req) && !WantsListing(command)
    requires req.SetReq? || req.GetReq? || req.DelReq? || req.StatsReq?
    requires Apply(st, capacity, req, At(now)).0 == after && Bodies(Apply(st, capacity, req, At(now)).1) == [body]
    requires OneLine(body)
    ensures ClientCall(st, capacity, command, At(now)) == Some((after, if Short(body) then Got(body) else TooLong))
  {
    WireIsOneCommand(command);
    SingleLineResponse(command, body, false);
  }

  lemma NotAListing(command: string)
    requires |command| >= 4 && !IsSpace(command[0]) && command[3] == ' '
    ensures !WantsListing(command)
  {
    assert Upper(command[..4])[3] == ' ';
  }

  lemma OkOutcome()
    ensures OneLine("OK") && Short("OK")
    ensures SetOutcome(Got("OK")) == Returned(()) && DelOutcome(Got("OK")) == Returned(true)
  {
    assert "OK"[..2] == "OK";
  }

  /** set_key succeeds and stores its entry. */
  lemma SetCall(st: Store, capacity: nat, key: string, value: string, ttl: Option<int>, now: Time)
    requires capacity > 0 && IsWord(key) && IsWord(value) && InRange(ttl)
    ensures var call := ClientCall(st, capacity, SetCommand(key, value, ttl), At(now));
      call == Some((SetStore(st, capacity, key, value, ttl, now), Got("OK"))) && SetOutcome(Got("OK")) == Returned(())
  {
    SetCommandIsOneLine(key, value, ttl);
    SetCommandParses(key, value, ttl);
    NotAListing(SetCommand(key, value, ttl));
    OkOutcome();
    PlainCall(st, capacity, SetCommand(key, value, ttl), SetReq(key, value, ttl), now,
              SetStore(st, capacity, key, value, ttl, now), "OK");
  }

  /** A TTL outside the 64-bit range is refused: set_key raises, and nothing is stored. */
  lemma TtlIsRefused(st: Store, capacity: nat, key: string, value: string, ttl: int, now: Time)
    requires capacity > 0 && IsWord(key) && IsWord(value) && !Fits64(ttl)
    ensures !Delivers(Wire(SetCommand(key, value, Some(ttl))), SetReq(key, value, Some(ttl)))
    ensures var call := ClientCall(st, capacity, SetCommand(key, value, Some(ttl)), At(now));
      call == Some((st, Got("ERROR invalid TTL"))) && SetOutcome(Got("ERROR invalid TTL")) == Raised("ERROR invalid TTL")
  {
    HugeTtlIsNotDelivered(key, value, ttl);
    SetCommandIsOneLine(key, value, Some(ttl));
    HugeTtlParses(key, value, ttl);
    NotAListing(SetCommand(key, value, Some(ttl)));
    InvalidTtlOutcome();
    RefusedCall(st, capacity, SetCommand(key, value, Some(ttl)), At(now), "ERROR invalid TTL");
  }

  lemma HugeTtlIsNotDelivered(key: string, value: string, ttl: int)
    requires !Fits64(ttl)
    ensures !Delivers(Wire(SetCommand(key, value, Some(ttl))), SetReq(key, value, Some(ttl)))
  {
    SetDelivered(key, value, Some(ttl));
  }

  lemma RefusedCall(st: Store, capacity: nat, command: string, obs: Observed, body: string)
    requires capacity > 0 && OneLine(command) && !WantsListing(command) && OneLine(body) && Short(body)
    requires !Parse(command).Asks? && ErrorBody(Parse(command)) == body
    ensures ClientCall(st, capacity, command, obs) == Some((st, Got(body)))
  {
    WireIsOneCommand(command);
    SingleLineResponse(command, body, false);
  }

  lemma HugeTtlParses(key: string, value: string, ttl: int)
    requires IsWord(key) && IsWord(value) && !Fits64(ttl)
    ensures Parse(SetCommand(key, value, Some(ttl))) == InvalidTtl
  {
    assert IsWord("SET") && Upper("SET") == "SET";
    IntTextIsWord(ttl);
    StollOfIntText(ttl);
    SetCommandIsSpaced(key, value, Some(ttl));
    TokensOfSpaced(SetWords(key, value, Some(ttl)));
  }

  lemma InvalidTtlOutcome()
    ensures OneLine("ERROR invalid TTL") && Short("ERROR invalid TTL")
    ensures SetOutcome(Got("ERROR invalid TTL")) == Raised("ERROR invalid TTL")
  {
    assert "ERROR invalid TTL"[..2][0] == 'E' && "OK"[0] == 'O';
  }

  lemma FoundOutcome(value: string)
    requires IsWord(value)
    ensures OneLine("VALUE " + value) && GetOutcome(Got("VALUE " + value)) == Returned(Some(value))
  {
    assert ("VALUE " + value)[..6] == "VALUE " && ("VALUE " + value)[6..] == value;
  }

  lemma NotFoundOutcome()
    ensures OneLine("NOT_FOUND") && Short("NOT_FOUND")
    ensures GetOutcome(Got("NOT_FOUND")) == Returned(None) && DelOutcome(Got("NOT_FOUND")) == Returned(false)
  {
    assert "NOT_FOUND"[0] == 'N';
    assert "NOT_FOUND"[..6][0] == 'N';
  }

  /** What get_key makes of the cache's answer: a value that does not fit into a line is not read. */
  function Fetched(value: Option<string>): Outcome<Option<string>> {
    if value.Some? && !Short("VALUE " + value.value) then NotRead else Returned(value)
  }

  /** get_key returns what the cache's GET returns, unless that is too long to be read. */
  lemma GetCall(st: Store, capacity: nat, key: string, now: Time)
    requires capacity > 0 && IsWord(key) && WordsOnly(st.lru)
    ensures var call := ClientCall(st, capacity, GetCommand(key), At(now));
      && call.Some? && call.value.0 == GetStore(st, key, now).0
      && GetOutcome(call.value.1) == Fetched(GetStore(st, key, now).1)
  {
    GetCommandParses(key);
    NotAListing(GetCommand(key));
    NotFoundOutcome();
    var (after, value) := GetStore(st, key, now);
    if value.Some? {
      FoundOutcome(value.value);
      PlainCall(st, capacity, GetCommand(key), GetReq(key), now, after, "VALUE " + value.value);
    } else {
      PlainCall(st, capacity, GetCommand(key), GetReq(key), now, after, "NOT_FOUND");
    }
  }

  /** delete_key returns whether the key was resident, expired or not, and removes it. */
  lemma DelCall(st: Store, capacity: nat, key: string, now: Time)
    requires capacity > 0 && IsWord(key)
    ensures var call := ClientCall(st, capacity, DelCommand(key), At(now));
      && call.Some? && call.value.0 == DelStore(st, key).0 && key !in call.value.0.lru.entries
      && DelOutcome(call.value.1) == Returned(key in st.lru.entries)
  {
    DelCommandParses(key);
    NotAListing(DelCommand(key));
    OkOutcome();
    NotFoundOutcome();
    PlainCall(st, capacity, DelCommand(key), DelReq(key), now, DelStore(st, key).0,
              if key in st.lru.entries then "OK" else "NOT_FOUND");
  }

  /** The entry that a SET stores answers a GET with its value until it expires. */
  lemma GetAfterSet(s: Lru, capacity: nat, key: Key, value: string, ttl: Option<int>, written: Time, read: Time)
    requires capacity > 0
    ensures Get(Set(s, capacity, key, value, ttl, written), key, read).1
         == if CacheEntry(value, ExpiresAt(ttl, written)).IsExpired(read) then None else Some(value)
  {
  }

  /**
   * A get_key directly after set_key finds the value set if and only if it has not expired, which,
   * unless the expiry is beyond 64 bits, means that the TTL, when there is one, has not run out.
   */
  lemma SetThenGet(st: Store, capacity: nat, key: string, value: string, ttl: Option<int>, written: Time, read: Time)
    requires capacity > 0 && IsWord(key) && IsWord(value) && InRange(ttl) && WordsOnly(st.lru)
    ensures var after := ClientCall(st, capacity, SetCommand(key, value, ttl), At(written));
      && after.Some? && SetOutcome(after.value.1) == Returned(())
      && var answer := ClientCall(after.value.0, capacity, GetCommand(key), At(read));
      && answer.Some?
      && GetOutcome(answer.value.1) == Fetched(Promised(value, ttl, written, read))
  {
    SetCall(st, capacity, key, value, ttl, written);
    var after := SetStore(st, capacity, key, value, ttl, written);
    assert WordsOnly(after.lru) by {
      ApplyKeepsWords(st, capacity, SetReq(key, value, ttl), At(written));
    }
    GetCall(after, capacity, key, read);
    GetAfterSet(st.lru, capacity, key, value, ttl, written, read);
  }

  /** What a GET should find of a SET: its value, until the entry expires. */
  function Promised(value: string, ttl: Option<int>, written: Time, read: Time): (r: Option<string>)
    ensures Representable(ttl, written) ==>
      r == if ttl.None? || read < written + ttl.value * 1_000_000_000 then Some(value) else None
  {
    assert Representable(ttl, written) ==>
      (CacheEntry(value, ExpiresAt(ttl, written)).IsExpired(read)
       <==> ttl.Some? && read >= written + ttl.value * 1_000_000_000) by {
      if Representable(ttl, written) {
        RepresentableExpiry(value, ttl, written, read);
      }
    }
    if CacheEntry(value, ExpiresAt(ttl, written)).IsExpired(read) then None else Some(value)
  }

  /**
   * The expiry thread makes no difference to that: with any sweep between the two calls, whose
   * readings precede the second one, get_key returns the same.
   */
  lemma SetSweepGet(st: Store, capacity: nat, key: string, value: string, ttl: Option<int>, written: Time,
                    at: map<Key, Time>, read: Time)
    requires capacity > 0 && IsWord(key) && IsWord(value) && InRange(ttl) && WordsOnly(st.lru)
    requires forall k :: k in at ==> at[k] <= read
    ensures var after := ClientCall(st, capacity, SetCommand(key, value, ttl), At(written));
      && after.Some?
      && var answer := ClientCall(WithLru(after.value.0, Sweep(after.value.0.lru, at)), capacity, GetCommand(key), At(read));
      && answer.Some?
      && GetOutcome(answer.value.1) == Fetched(Promised(value, ttl, written, read))
  {
    SetCall(st, capacity, key, value, ttl, written);
    var after := SetStore(st, capacity, key, value, ttl, written);
    assert WordsOnly(after.lru) by {
      ApplyKeepsWords(st, capacity, SetReq(key, value, ttl), At(written));
    }
    GetAfterSet(st.lru, capacity, key, value, ttl, written, read);
    GetAfterSweep(after.lru, capacity, key, at, read);
    GetCall(WithLru(after, Sweep(after.lru, at)), capacity, key, read);
  }

  lemma GetAfterSweep(s: Lru, capacity: nat, key: Key, at: map<Key, Time>, read: Time)
    requires capacity > 0 && forall k :: k in at ==> at[k] <= read
    ensures Get(Sweep(s, at), key, read).1 == Get(s, key, read).1
    ensures WordsOnly(s) ==> WordsOnly(Sweep(s, at))
  {
    SweepKeepsAlive(s, at, read);
    SameAnswers(s, Sweep(s, at), capacity, Runs.GetOp(key, read), read);
  }

  /**
   * When the TTL keeps its promise.  A positive TTL is honoured by every later get_key exactly when
   * the expiry fits into 64 bits of nanoseconds; the guard of the call is the sum of the clock and
   * the TTL, not the TTL alone.
   */
  lemma TtlIsKept(value: string, ttl: int, written: Time)
    requires Fits64(written) && ttl > 0
    ensures (forall read :: written <= read <= INT64_MAX ==>
               Promised(value, Some(ttl), written, read)
               == if read < written + ttl * 1_000_000_000 then Some(value) else None)
       <==> Fits64(written + ttl * 1_000_000_000)
  {
    TtlIsHonoured(value, ttl, written);
    forall read | written <= read <= INT64_MAX
      ensures (Promised(value, Some(ttl), written, read)
               == if read < written + ttl * 1_000_000_000 then Some(value) else None)
         <==> (CacheEntry(value, ExpiresAt(Some(ttl), written)).IsExpired(read)
               <==> read >= written + ttl * 1_000_000_000)
    {
    }
  }

  /** One that is not: ten billion seconds wrap around to the past, and the value is gone at once. */
  lemma HugeTtlIsLost(st: Store, capacity: nat)
    requires capacity > 0 && WordsOnly(st.lru)
    ensures var after := ClientCall(st, capacity, SetCommand("k", "v", Some(10_000_000_000)), At(0));
      && after.Some? && SetOutcome(after.value.1) == Returned(())
      && var answer := ClientCall(after.value.0, capacity, GetCommand("k"), At(1));
      && answer.Some? && GetOutcome(answer.value.1) == Returned(None)
  {
    HugeTtlIsPast();
    SetThenGet(st, capacity, "k", "v", Some(10_000_000_000), 0, 1);
  }

  lemma HugeTtlIsPast()
    ensures IsWord("k") && IsWord("v") && InRange(Some(10_000_000_000))
    ensures Promised("v", Some(10_000_000_000), 0, 1) == None
  {
    assert Wrap64(10_000_000_000 * NANOS_PER_SECOND) < 0;
  }

  function Letters(n: nat): (s: string)
    ensures |s| == n && forall c :: c in s ==> c == 'a'
  {
    seq(n, i => 'a')
  }

  /** The longest value that can be read back, and one that is stored but cannot. */
  lemma LongValueIsNotRead(st: Store, capacity: nat, written: Time, read: Time, n: nat)
    requires capacity > 0 && WordsOnly(st.lru) && (n == 65529 || n == 65530)
    ensures var after := ClientCall(st, capacity, SetCommand("k", Letters(n), None), At(written));
      && after.Some? && SetOutcome(after.value.1) == Returned(())
      && var answer := ClientCall(after.value.0, capacity, GetCommand("k"), At(read));
      && answer.Some?
      && GetOutcome(answer.value.1) == if n == 65529 then Returned(Some(Letters(n))) else NotRead
  {
    HugeTtlIsPast();
    assert Letters(n)[0] == 'a';
    assert |"VALUE "| == 6;
    SetThenGet(st, capacity, "k", Letters(n), None, written, read);
  }

  /** A get_key directly after delete_key finds nothing. */
  lemma DelThenGet(st: Store, capacity: nat, key: string, deleted: Time, read: Time)
    requires capacity > 0 && IsWord(key) && WordsOnly(st.lru)
    ensures var after := ClientCall(st, capacity, DelCommand(key), At(deleted));
      && after.Some?
      && var answer := ClientCall(after.value.0, capacity, GetCommand(key), At(read));
      && answer.Some? && GetOutcome(answer.value.1) == Returned(None)
  {
    DelCall(st, capacity, key, deleted);
    GetCall(DelStore(st, key).0, capacity, key, read);
  }

  lemma OneWord(word: string)
    requires IsWord(word)
    ensures OneLine(word) && Tokens(word) == [word]
  {
    TokensOfWordThen(word, "");
    assert word + "" == word && [word] + [] == [word];
  }

  lemma StatsIsWord()
    ensures IsWord("STATS")
  {
  }

  lemma StatsIsDispatched(tokens: seq<string>)
    ensures Upper("STATS") == "STATS" && Named("STATS", tokens) == Asks(StatsReq) && !WantsListing("STATS")
  {
    assert "STATS"[..4][0] == 'S' && "STATS"[0..] == "STATS";
    assert Upper("STATS"[..4])[0] == 'S';
  }

  lemma StatsParses()
    ensures OneLine("STATS") && Parse("STATS") == Asks(StatsReq) && !WantsListing("STATS")
  {
    StatsIsWord();
    OneWord("STATS");
    StatsIsDispatched(["STATS"]);
  }

  /** The counters are 64-bit numbers. */
  predicate Unsigned64(s: Stats) {
    s.requests < SIZE_MODULUS && s.hits < SIZE_MODULUS && s.misses < SIZE_MODULUS && s.bytes < SIZE_MODULUS
    && s.connections < SIZE_MODULUS
  }

  lemma FieldLength(name: string, n: nat)
    requires n < SIZE_MODULUS
    ensures |Field(name, n)| <= |name| + 23
  {
    DigitsLength(n, 20);
  }

  lemma StatsIsShort(s: Stats)
    requires Unsigned64(s)
    ensures Short(StatsBody(s))
  {
    FieldLength("total_requests", s.requests);
    FieldLength("hits", s.hits);
    FieldLength("misses", s.misses);
    FieldLength("bytes_used", s.bytes);
    FieldLength("active_connections", s.connections);
    JoinedFive(Field("total_requests", s.requests), Field("hits", s.hits), Field("misses", s.misses),
               Field("bytes_used", s.bytes), Field("active_connections", s.connections));
  }

  /** get_stats changes nothing and gets the counters of the moment, each under its own name, behind the prefix it cuts off. */
  lemma StatsCall(st: Store, capacity: nat, now: Time)
    requires capacity > 0 && Unsigned64(Snapshot(st))
    ensures var body := StatsBody(Snapshot(st));
      && ClientCall(st, capacity, "STATS", At(now)) == Some((st, Got(body)))
      && body[..6] == "STATS "
      && body[6..] == "{\"total_requests\":" + Digits(st.requests) + ",\"hits\":" + Digits(st.hits)
                      + ",\"misses\":" + Digits(st.misses) + ",\"bytes_used\":" + Digits(st.bytes)
                      + ",\"active_connections\":" + Digits(st.connections) + "}"
  {
    StatsParses();
    StatsAnswered(st, capacity, "STATS", now);
    StatsPayload(st);
  }

  lemma StatsAnswered(st: Store, capacity: nat, command: string, now: Time)
    requires capacity > 0 && Unsigned64(Snapshot(st))
    requires OneLine(command) && Parse(command) == Asks(StatsReq) && !WantsListing(command)
    ensures ClientCall(st, capacity, command, At(now)) == Some((st, Got(StatsBody(Snapshot(st)))))
  {
    StatsIsOneLine(Snapshot(st));
    StatsIsShort(Snapshot(st));
    PlainCall(st, capacity, command, StatsReq, now, st, StatsBody(Snapshot(st)));
  }

  lemma StatsPayload(st: Store)
    ensures var body := StatsBody(Snapshot(st));
      && body[..6] == "STATS "
      && body[6..] == "{\"total_requests\":" + Digits(st.requests) + ",\"hits\":" + Digits(st.hits)
                      + ",\"misses\":" + Digits(st.misses) + ",\"bytes_used\":" + Digits(st.bytes)
                      + ",\"active_connections\":" + Digits(st.connections) + "}"
  {
    StatsBodyText(Snapshot(st));
    CutPrefix("STATS ", StatsText(Snapshot(st)));
  }

  lemma CutPrefix(prefix: string, text: string)
    ensures (prefix + text)[..|prefix|] == prefix && (prefix + text)[|prefix|..] == text
  {
  }

  // ---- KEYS ----------------------------------------------------------------------------------------------------

  /** The remaining time in whole seconds: none without an expiry, 0 at or after it, else rounded down. */
  predicate ShowsRemaining(shown: Option<int>, entry: CacheEntry, now: Time) {
    if entry.expiresAt.None? then shown == None
    else
      var left := entry.expiresAt.value - now;
      && shown.Some?
      && if left <= 0 then shown.value == 0
         else shown.value * 1_000_000_000 <= left < (shown.value + 1) * 1_000_000_000
  }

  /** ttl_remaining shows the remaining time, if the distance to the expiry fits into 64 bits. */
  lemma TtlRemainingMeaning(entry: CacheEntry, now: Time)
    requires entry.expiresAt.Some? ==> Fits64(entry.expiresAt.value - now)
    ensures ShowsRemaining(entry.TtlRemaining(now), entry, now)
  {
  }

  /** Which it does for an entry that was alive at any positive reading of the clock. */
  lemma ListedTtl(entry: CacheEntry, seen: Time, now: Time)
    requires !entry.IsExpired(seen) && 0 <= seen && 0 <= now <= INT64_MAX
    requires entry.expiresAt.Some? ==> Fits64(entry.expiresAt.value)
    ensures ShowsRemaining(entry.TtlRemaining(now), entry, now)
  {
    TtlRemainingMeaning(entry, now);
  }

  /** All readings of the clock that a listing makes are positive 64-bit numbers. */
  ghost predicate ReadingsFit(obs: Observed) {
    && (forall k :: k in obs.at ==> 0 <= obs.at[k])
    && (forall t :: t in obs.shown ==> 0 <= t <= INT64_MAX)
  }

  lemma ListedTtls(st: Store, obs: Observed)
    requires Possible(st, KeysReq, obs) && StampsFit(st.lru) && ReadingsFit(obs)
    ensures forall i :: 0 <= i < |obs.listing| ==>
      ShowsRemaining(obs.listing[i].1.TtlRemaining(obs.shown[i]), obs.listing[i].1, obs.shown[i])
  {
    forall i | 0 <= i < |obs.listing|
      ensures ShowsRemaining(obs.listing[i].1.TtlRemaining(obs.shown[i]), obs.listing[i].1, obs.shown[i])
    {
      assert obs.listing[i].0 in Live(st.lru, obs.at);
      assert obs.shown[i] in obs.shown;
      ListedTtl(obs.listing[i].1, obs.at[obs.listing[i].0], obs.shown[i]);
    }
  }

  ghost predicate UnbrokenEntries(live: map<Key, CacheEntry>) {
    forall k :: k in live ==> Unbroken(k) && Unbroken(live[k].value)
  }

  lemma KeysIsWord()
    ensures IsWord("KEYS")
  {
  }

  lemma KeysIsDispatched(tokens: seq<string>)
    ensures Upper("KEYS") == "KEYS" && Named("KEYS", tokens) == Asks(KeysReq)
  {
    assert "KEYS"[0] == 'K';
  }

  lemma KeysParses()
    ensures OneLine("KEYS") && Parse("KEYS") == Asks(KeysReq)
  {
    KeysIsWord();
    OneWord("KEYS");
    KeysIsDispatched(["KEYS"]);
  }

  /** The text that list_keys gets to parse: the printed rows, joined by line feeds. */
  lemma ListCall(st: Store, capacity: nat, obs: Observed)
    requires capacity > 0 && WordsOnly(st.lru) && Possible(st, KeysReq, obs)
    ensures var rows := KeyBodies(Lines(obs.listing, obs.shown));
      ClientCall(st, capacity, "KEYS", obs) == Some((st, if AllShort(rows) then Got(Join(rows)) else TooLong))
  {
    KeysParses();
    ListAnswered(st, capacity, "KEYS", obs);
    ListedWords(st, obs);
    ListingIsReceived(Lines(obs.listing, obs.shown), "", false);
  }

  lemma ListAnswered(st: Store, capacity: nat, command: string, obs: Observed)
    requires capacity > 0 && OneLine(command) && Parse(command) == Asks(KeysReq) && Possible(st, KeysReq, obs)
    ensures var text := Crlf(Bodies(KeysDone(Lines(obs.listing, obs.shown))));
      ClientCall(st, capacity, command, obs) == Some((st, Response(command, text + "", false)))
  {
    WireIsOneCommand(command);
    NothingFollows(Crlf(Bodies(KeysDone(Lines(obs.listing, obs.shown)))));
  }

  lemma NothingFollows(text: string)
    ensures text + "" == text
  {
  }

  /** What list_keys returns for a response, if it gets one. */
  function ListedItems(r: Received<string>): Option<seq<Item>> {
    if r.Got? then Some(Items(SplitLines(r.value))) else None
  }

  /**
   * list_keys recovers the live entries of the cache, each once, with its value and the seconds it
   * has left, exactly when no printed row is too long to be read and no live key or value contains a
   * character at which splitlines cuts.
   */
  lemma ListKeysRecoversLive(st: Store, capacity: nat, obs: Observed)
    requires capacity > 0 && WordsOnly(st.lru) && Possible(st, KeysReq, obs)
    ensures var call, lines := ClientCall(st, capacity, "KEYS", obs), Lines(obs.listing, obs.shown);
      && call.Some? && call.value.0 == st
      && (ListedItems(call.value.1) == Some(ExpectedItems(lines))
          <==> AllShort(KeyBodies(lines)) && UnbrokenEntries(Live(st.lru, obs.at)))
      && |lines| == |obs.listing| == |Live(st.lru, obs.at)|
      && (forall k :: k in Live(st.lru, obs.at) <==>
            k in st.lru.entries
            && (st.lru.entries[k].expiresAt.None? || obs.at[k] < st.lru.entries[k].expiresAt.value))
      && (forall i :: 0 <= i < |lines| ==>
            ItemOfEntry(ExpectedItems(lines)[i], obs.listing[i].0, obs.listing[i].1, obs.shown[i]))
      && (StampsFit(st.lru) && ReadingsFit(obs) ==> forall i :: 0 <= i < |lines| ==>
            ShowsRemaining(ExpectedItems(lines)[i].ttlRemaining, obs.listing[i].1, obs.shown[i]))
  {
    ListedItemsMean(st, obs);
    ListCall(st, capacity, obs);
    ListedWords(st, obs);
    ListingRoundTrip(Lines(obs.listing, obs.shown));
    ListingSize(obs.listing, Live(st.lru, obs.at));
  }

  predicate ItemOfEntry(item: Item, key: Key, entry: CacheEntry, now: Time) {
    item.key == key && item.value == entry.value && item.ttlRemaining == entry.TtlRemaining(now)
  }

  lemma ListedItemsMean(st: Store, obs: Observed)
    requires Possible(st, KeysReq, obs)
    ensures var lines := Lines(obs.listing, obs.shown);
      && (forall i :: 0 <= i < |lines| ==>
            ItemOfEntry(ExpectedItems(lines)[i], obs.listing[i].0, obs.listing[i].1, obs.shown[i]))
      && (StampsFit(st.lru) && ReadingsFit(obs) ==> forall i :: 0 <= i < |lines| ==>
            ShowsRemaining(ExpectedItems(lines)[i].ttlRemaining, obs.listing[i].1, obs.shown[i]))
  {
    if StampsFit(st.lru) && ReadingsFit(obs) {
      ListedTtls(st, obs);
    }
  }

  /** A value that is delivered, stored and printed, but never listed: one with a U+001C in it. */
  lemma BrokenValueIsLost(st: Store, capacity: nat, written: Time, obs: Observed)
    requires capacity > 0 && WordsOnly(st.lru)
    requires Possible(SetStore(st, capacity, "k", "a\U{1C}b", None, written), KeysReq, obs)
    ensures var after := ClientCall(st, capacity, SetCommand("k", "a\U{1C}b", None), At(written));
      && after.Some? && SetOutcome(after.value.1) == Returned(())
      && "k" in Live(after.value.0.lru, obs.at) && Live(after.value.0.lru, obs.at)["k"].value == "a\U{1C}b"
      && var listing := ClientCall(after.value.0, capacity, "KEYS", obs);
      && listing.Some?
      && (ListedItems(listing.value.1).Some? ==> forall i :: i in ListedItems(listing.value.1).value ==> i.value != "a\U{1C}b")
  {
    BrokenWords();
    SetCall(st, capacity, "k", "a\U{1C}b", None, written);
    var after := SetStore(st, capacity, "k", "a\U{1C}b", None, written);
    assert WordsOnly(after.lru) by {
      ApplyKeepsWords(st, capacity, SetReq("k", "a\U{1C}b", None), At(written));
    }
    ListCall(after, capacity, obs);
    var rows := KeyBodies(Lines(obs.listing, obs.shown));
    forall i | i in Items(SplitLines(Join(rows)))
      ensures i.value != "a\U{1C}b"
    {
      BrokenIsNeverListed(Join(rows), i);
    }
  }

  /** A listing that is not read: one of its rows is over the limit. */
  lemma LongRowIsNotRead(st: Store, capacity: nat, written: Time, obs: Observed)
    requires capacity > 0 && WordsOnly(st.lru)
    requires Possible(SetStore(st, capacity, "k", Letters(65531), None, written), KeysReq, obs)
    ensures var after := ClientCall(st, capacity, SetCommand("k", Letters(65531), None), At(written));
      && after.Some? && SetOutcome(after.value.1) == Returned(())
      && var listing := ClientCall(after.value.0, capacity, "KEYS", obs);
      && listing.Some? && listing.value.1 == TooLong && ListedItems(listing.value.1) == None
  {
    HugeTtlIsPast();
    assert Letters(65531)[0] == 'a';
    SetCall(st, capacity, "k", Letters(65531), None, written);
    var after := SetStore(st, capacity, "k", Letters(65531), None, written);
    assert WordsOnly(after.lru) by {
      ApplyKeepsWords(st, capacity, SetReq("k", Letters(65531), None), At(written));
    }
    ListCall(after, capacity, obs);
    LongRow(after, obs, "k", CacheEntry(Letters(65531), None));
  }

  lemma LongRow(st: Store, obs: Observed, key: Key, entry: CacheEntry)
    requires Possible(st, KeysReq, obs) && key in st.lru.entries && st.lru.entries[key] == entry
    requires entry.expiresAt == None && |key| + |entry.value| >= 65532
    ensures !AllShort(KeyBodies(Lines(obs.listing, obs.shown)))
  {
    assert (key, entry) in obs.listing by {
      assert key in Live(st.lru, obs.at);
    }
    var i :| 0 <= i < |obs.listing| && obs.listing[i] == (key, entry);
    var rows := KeyBodies(Lines(obs.listing, obs.shown));
    assert rows[i] == key + " " + entry.value + " " + "-1";
    assert !Short(rows[i]) && rows[i] in rows;
  }

  lemma BrokenWords()
    ensures IsWord("k") && IsWord("a\U{1C}b") && !Unbroken("a\U{1C}b")
  {
    assert '\U{1C}' in "a\U{1C}b" by {
      assert "a\U{1C}b"[1] == '\U{1C}';
    }
    assert IsBreak('\U{1C}');
  }

  lemma ListedWords(st: Store, obs: Observed)
    requires WordsOnly(st.lru) && Possible(st, KeysReq, obs)
    ensures WordRows(Lines(obs.listing, obs.shown))
    ensures UnbrokenRows(Lines(obs.listing, obs.shown)) <==> UnbrokenEntries(Live(st.lru, obs.at))
  {
    var lines, live := Lines(obs.listing, obs.shown), Live(st.lru, obs.at);
    if UnbrokenRows(lines) {
      forall k | k in live
        ensures Unbroken(k) && Unbroken(live[k].value)
      {
        var i :| 0 <= i < |obs.listing| && obs.listing[i] == (k, live[k]);
        assert lines[i] in lines;
      }
    }
  }
}

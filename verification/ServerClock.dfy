/**
 * What the server's clock means to clients: the readings that a command makes are those of its own
 * moment, so what has been stored with a TTL is answered, and listed, until it has run out.
 */
module ServerClock {
  import opened CacheModel
  import opened StoreModel
  import opened Text
  import opened Framing
  import opened Protocol
  import opened Client
  import opened EndToEnd
  import T = TcpServer

  lemma TwoCommands(a: string, b: string)
    requires a != "" && b != "" && '\n' !in a && '\n' !in b
    ensures Commands(a + "\r\n" + b + "\r\n") == [a, b]
  {
    FirstOfStream(a, b + "\r\n" + "");
    FirstOfStream(b, "");
    Associative(a + "\r\n", b, "\r\n");
    assert b + "\r\n" + "" == b + "\r\n";
    assert [a] + ([b] + []) == [a, b];
  }

  lemma SetServed(st: Store, capacity: nat, key: string, value: string, ttl: Option<int>, obs: Observed)
    requires capacity > 0 && IsWord(key) && IsWord(value) && InRange(ttl)
    ensures Execute(st, capacity, SetCommand(key, value, ttl), obs)
         == (SetStore(st, capacity, key, value, ttl, obs.now), "OK\r\n")
  {
    SetCommandParses(key, value, ttl);
    AnswerTexts();
    CarriedOut(st, capacity, SetCommand(key, value, ttl), obs, SetReq(key, value, ttl), "OK", "OK\r\n");
  }

  lemma GetServed(st: Store, capacity: nat, key: string, obs: Observed)
    requires capacity > 0 && IsWord(key)
    ensures var (after, value) := GetStore(st, key, obs.now);
      Execute(st, capacity, GetCommand(key), obs)
      == (after, if value.Some? then "VALUE " + value.value + "\r\n" else "NOT_FOUND\r\n")
  {
    GetCommandParses(key);
    AnswerTexts();
    var value := GetStore(st, key, obs.now).1;
    var body := if value.Some? then "VALUE " + value.value else "NOT_FOUND";
    CarriedOut(st, capacity, GetCommand(key), obs, GetReq(key), body, body + CRLF);
  }

  lemma SetText(key: string, value: string, ttl: int, second: string)
    ensures "SET " + key + " " + value + " " + IntText(ttl) + "\r\n" + second + "\r\n"
         == SetCommand(key, value, Some(ttl)) + "\r\n" + second + "\r\n"
  {
  }

  /** Executing a line, if the observation is possible. */
  ghost function Executed(st: Store, capacity: nat, line: string, obs: Observed): Option<(Store, string)>
    requires capacity > 0
  {
    if Parse(line).Asks? && !Possible(st, Parse(line).req, obs) then None else Some(Execute(st, capacity, line, obs))
  }

  /** OK, and behind it the answer to this line. */
  ghost predicate AnsweredBehind(st: Store, capacity: nat, line: string, obs: Observed, written: seq<string>)
    requires capacity > 0
  {
    var answer := Executed(st, capacity, line, obs);
    answer.Some? && written == ["OK\r\n", answer.value.1]
  }

  /** A SET with a TTL, and some other line behind it. */
  lemma SetThenLine(st: Store, capacity: nat, key: string, value: string, ttl: int, second: string,
                    observed: seq<Observed>, after: Store, written: seq<string>)
    requires capacity > 0 && IsWord(key) && IsWord(value) && Fits64(ttl) && second != "" && '\n' !in second
    requires var stream := "SET " + key + " " + value + " " + IntText(ttl) + "\r\n" + second + "\r\n";
      |observed| == |Commands(stream)| && ServeAll(st, capacity, Commands(stream), observed) == Some((after, written))
    ensures |observed| == 2
    ensures AnsweredBehind(SetStore(st, capacity, key, value, Some(ttl), observed[0].now), capacity, second, observed[1], written)
  {
    var first := SetCommand(key, value, Some(ttl));
    SetCommandIsOneLine(key, value, Some(ttl));
    TwoCommands(first, second);
    SetText(key, value, ttl, second);
    TwoServed(st, capacity, first, second, observed);
    SetServed(st, capacity, key, value, Some(ttl), observed[0]);
  }

  /**
   * A SET with a TTL and a GET, sent one behind the other: the GET finds the value if and only if the
   * clock at the GET has not reached the clock at the SET plus the TTL.
   */
  lemma TtlOnTheServer(st: Store, capacity: nat, key: string, value: string, ttl: int,
                       clock: nat -> T.Clock, observed: seq<Observed>, after: Store, written: seq<string>)
    requires capacity > 0 && IsWord(key) && IsWord(value) && Fits64(ttl) && Representable(Some(ttl), clock(0).now)
    requires T.AllMadeBy(observed, clock)
    requires var stream := "SET " + key + " " + value + " " + IntText(ttl) + "\r\n" + ("GET " + key) + "\r\n";
      |observed| == |Commands(stream)| && ServeAll(st, capacity, Commands(stream), observed) == Some((after, written))
    ensures written == ["OK\r\n", if clock(1).now >= clock(0).now + ttl * 1_000_000_000 then "NOT_FOUND\r\n"
                                  else "VALUE " + value + "\r\n"]
  {
    var stored := SetStore(st, capacity, key, value, Some(ttl), clock(0).now);
    GetCommandParses(key);
    SetThenLine(st, capacity, key, value, ttl, GetCommand(key), observed, after, written);
    GetServed(stored, capacity, key, observed[1]);
    GetAfterSet(st.lru, capacity, key, value, Some(ttl), clock(0).now, clock(1).now);
    RepresentableExpiry(value, Some(ttl), clock(0).now, clock(1).now);
  }

  /** The case of a TTL of five seconds that was set at the first second and asked for at the sixtieth. */
  lemma TtlOfFive(st: Store, capacity: nat, clock: nat -> T.Clock, observed: seq<Observed>, after: Store, written: seq<string>)
    requires capacity > 0 && clock(0).now == 1_000_000_000 && clock(1).now == 60_000_000_000
    requires T.AllMadeBy(observed, clock)
    requires var stream := "SET " + "k" + " " + "v" + " " + IntText(5) + "\r\n" + ("GET " + "k") + "\r\n";
      |observed| == |Commands(stream)| && ServeAll(st, capacity, Commands(stream), observed) == Some((after, written))
    ensures written == ["OK\r\n", "NOT_FOUND\r\n"]
  {
    HugeTtlIsPast();
    TtlOnTheServer(st, capacity, "k", "v", 5, clock, observed, after, written);
  }

  // ---- Listing ---------------------------------------------------------------------------------------------

  lemma OnlyEntry(listing: seq<(Key, CacheEntry)>, live: map<Key, CacheEntry>, key: Key, entry: CacheEntry)
    requires Lists(listing, live)
    ensures live == map[] ==> listing == []
    ensures live == map[key := entry] ==> listing == [(key, entry)]
  {
    ListingSize(listing, live);
  }

  /** The only row of a listing. */
  lemma OnlyRow(key: Key, entry: CacheEntry, shown: Time)
    ensures Crlf(KeyBodies(Lines([(key, entry)], [shown])))
         == key + " " + entry.value + " " + TtlText(entry.TtlRemaining(shown)) + "\r\n"
  {
    var rows := KeyBodies(Lines([(key, entry)], [shown]));
    assert rows == [rows[0]];
    CrlfOfOne(rows[0]);
  }

  lemma NoRows()
    ensures Crlf(KeyBodies(Lines([], []))) == ""
  {
  }

  /** What a listing of a cache with one entry is. */
  lemma OnlyListing(st: Store, key: Key, entry: CacheEntry, obs: Observed)
    requires st.lru.entries == map[key := entry] && Possible(st, KeysReq, obs)
    ensures key in obs.at && obs.listing == if entry.IsExpired(obs.at[key]) then [] else [(key, entry)]
  {
    assert obs.at.Keys == {key};
    var live := Live(st.lru, obs.at);
    assert live == if entry.IsExpired(obs.at[key]) then map[] else map[key := entry];
    OnlyEntry(obs.listing, live, key, entry);
  }

  /** Its rows, when it is made by this clock. */
  lemma OnlyRows(st: Store, key: Key, entry: CacheEntry, obs: Observed, clock: T.Clock)
    requires st.lru.entries == map[key := entry] && Possible(st, KeysReq, obs) && T.MadeBy(obs, clock)
    ensures Crlf(KeyBodies(Lines(obs.listing, obs.shown)))
         == if entry.IsExpired(clock.seen(key)) then ""
            else key + " " + entry.value + " " + TtlText(entry.TtlRemaining(clock.shown(key))) + "\r\n"
  {
    OnlyListing(st, key, entry, obs);
    if entry.IsExpired(obs.at[key]) {
      assert obs.shown == [];
      NoRows();
    } else {
      assert obs.shown == [clock.shown(key)];
      OnlyRow(key, entry, clock.shown(key));
    }
  }

  lemma KeysServed(st: Store, capacity: nat, line: string, obs: Observed)
    requires capacity > 0 && Parse(line) == Asks(KeysReq) && Possible(st, KeysReq, obs)
    ensures Execute(st, capacity, line, obs).1 == Crlf(KeyBodies(Lines(obs.listing, obs.shown))) + "END\r\n"
  {
    KeysAnswer(st, capacity, obs);
    ListingText(KeyBodies(Lines(obs.listing, obs.shown)));
  }

  /** A row with so many nanoseconds left: the whole seconds, and 0 when there are none. */
  function Row(key: Key, value: string, left: int): string {
    key + " " + value + " " + Digits(if left <= 0 then 0 else left / 1_000_000_000) + "\r\n"
  }

  /** A listing of one entry whose TTL ends then, made at these two readings. */
  function ListingOf(key: Key, value: string, end: Time, seen: Time, shown: Time): string {
    (if seen >= end then "" else Row(key, value, end - shown)) + "END\r\n"
  }

  lemma RowText(key: Key, entry: CacheEntry, end: Time, shown: Time)
    requires entry.expiresAt == Some(end) && Fits64(end - shown)
    ensures key + " " + entry.value + " " + TtlText(entry.TtlRemaining(shown)) + "\r\n" == Row(key, entry.value, end - shown)
  {
  }

  lemma KeysOfOne(st: Store, capacity: nat, key: Key, entry: CacheEntry, end: Time, line: string, obs: Observed, clock: T.Clock)
    requires capacity > 0 && st.lru.entries == map[key := entry] && T.MadeBy(obs, clock)
    requires Parse(line) == Asks(KeysReq) && Executed(st, capacity, line, obs).Some?
    requires entry.expiresAt == Some(end) && Fits64(end - clock.shown(key))
    ensures Executed(st, capacity, line, obs).value.1
         == ListingOf(key, entry.value, end, clock.seen(key), clock.shown(key))
  {
    KeysServed(st, capacity, line, obs);
    OnlyRows(st, key, entry, obs, clock);
    RowText(key, entry, end, clock.shown(key));
  }

  lemma EndOfTtl(ttl: int, now: Time, end: Time)
    requires Representable(Some(ttl), now) && end == now + ttl * 1_000_000_000
    ensures ExpiresAt(Some(ttl), now) == Some(end)
  {
  }

  /**
   * A SET with a TTL on a new server and a listing behind it: the key is listed if and only if the
   * reading made when the listing came to it had not reached the end of the TTL; with the whole
   * seconds then left at the reading made for its row.
   */
  lemma ListedOnTheServer(capacity: nat, key: string, value: string, ttl: int, end: Time,
                          clock: nat -> T.Clock, observed: seq<Observed>, after: Store, written: seq<string>)
    requires capacity > 0 && IsWord(key) && IsWord(value) && Fits64(ttl) && Representable(Some(ttl), clock(0).now)
    requires end == clock(0).now + ttl * 1_000_000_000 && Fits64(end - clock(1).shown(key))
    requires T.AllMadeBy(observed, clock)
    requires var stream := "SET " + key + " " + value + " " + IntText(ttl) + "\r\n" + "KEYS" + "\r\n";
      |observed| == |Commands(stream)| && ServeAll(FRESH, capacity, Commands(stream), observed) == Some((after, written))
    ensures written == ["OK\r\n", ListingOf(key, value, end, clock(1).seen(key), clock(1).shown(key))]
  {
    KeysParses();
    ListedBehind(capacity, key, value, ttl, end, "KEYS", clock, observed, after, written);
  }

  lemma ListedBehind(capacity: nat, key: string, value: string, ttl: int, end: Time, second: string,
                     clock: nat -> T.Clock, observed: seq<Observed>, after: Store, written: seq<string>)
    requires capacity > 0 && IsWord(key) && IsWord(value) && Fits64(ttl) && Representable(Some(ttl), clock(0).now)
    requires end == clock(0).now + ttl * 1_000_000_000 && Fits64(end - clock(1).shown(key))
    requires T.AllMadeBy(observed, clock) && second != "" && '\n' !in second && Parse(second) == Asks(KeysReq)
    requires var stream := "SET " + key + " " + value + " " + IntText(ttl) + "\r\n" + second + "\r\n";
      |observed| == |Commands(stream)| && ServeAll(FRESH, capacity, Commands(stream), observed) == Some((after, written))
    ensures written == ["OK\r\n", ListingOf(key, value, end, clock(1).seen(key), clock(1).shown(key))]
  {
    SetThenLine(FRESH, capacity, key, value, ttl, second, observed, after, written);
    var now := clock(0).now;
    assert observed[0].now == now by {
      assert T.MadeBy(observed[0], clock(0));
    }
    assert T.MadeBy(observed[1], clock(1));
    OnlyStored(capacity, key, value, Some(ttl), now);
    ListedAfterSet(SetStore(FRESH, capacity, key, value, Some(ttl), now), capacity, key, value, ttl, now, end, second,
                   observed[1], clock(1), written);
  }

  lemma ListedAfterSet(st: Store, capacity: nat, key: string, value: string, ttl: int, now: Time, end: Time, line: string,
                       obs: Observed, clock: T.Clock, written: seq<string>)
    requires capacity > 0 && st.lru.entries == map[key := CacheEntry(value, ExpiresAt(Some(ttl), now))]
    requires T.MadeBy(obs, clock) && Parse(line) == Asks(KeysReq) && AnsweredBehind(st, capacity, line, obs, written)
    requires Representable(Some(ttl), now) && end == now + ttl * 1_000_000_000 && Fits64(end - clock.shown(key))
    ensures written == ["OK\r\n", ListingOf(key, value, end, clock.seen(key), clock.shown(key))]
  {
    EndOfTtl(ttl, now, end);
    KeysOfOne(st, capacity, key, CacheEntry(value, ExpiresAt(Some(ttl), now)), end, line, obs, clock);
  }

  lemma OnlyStored(capacity: nat, key: Key, value: string, ttl: Option<int>, now: Time)
    requires capacity > 0
    ensures SetStore(FRESH, capacity, key, value, ttl, now).lru.entries == map[key := CacheEntry(value, ExpiresAt(ttl, now))]
  {
  }

  /** The same TTL of five seconds, set at the first second: listed at 2.5 seconds, with three left; gone at the sixtieth. */
  lemma ListingOfFive(capacity: nat, clock: nat -> T.Clock, observed: seq<Observed>, after: Store, written: seq<string>)
    requires capacity > 0 && clock(0).now == 1_000_000_000 && clock(1).seen("k") == clock(1).shown("k")
    requires clock(1).seen("k") == 2_500_000_000 || clock(1).seen("k") == 60_000_000_000
    requires T.AllMadeBy(observed, clock)
    requires var stream := "SET " + "k" + " " + "v" + " " + IntText(5) + "\r\n" + "KEYS" + "\r\n";
      |observed| == |Commands(stream)| && ServeAll(FRESH, capacity, Commands(stream), observed) == Some((after, written))
    ensures written == ["OK\r\n", if clock(1).seen("k") == 2_500_000_000 then "k v 3\r\nEND\r\n" else "END\r\n"]
  {
    HugeTtlIsPast();
    ListedOnTheServer(capacity, "k", "v", 5, 6_000_000_000, clock, observed, after, written);
    RowsOfFive(clock(1).seen("k"));
  }

  lemma RowsOfFive(now: Time)
    requires now == 2_500_000_000 || now == 60_000_000_000
    ensures ListingOf("k", "v", 6_000_000_000, now, now)
         == if now == 2_500_000_000 then "k v 3\r\nEND\r\n" else "END\r\n"
  {
    assert Digits(3) == "3";
  }
}

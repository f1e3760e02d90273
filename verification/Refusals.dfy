/**
 * set_key, get_key and delete_key for every key and value, words or not: what the server makes of
 * the text, when the call raises, with which message, and what it has done to the store by then.
 */
module Refusals {
  import opened CacheModel
  import opened StoreModel
  import opened CriticalSection
  import opened Text
  import opened Framing
  import opened Protocol
  import opened Client
  import opened EndToEnd

  // ---- Calls of which the server may see several lines -------------------------------------------------

  /** The text up to the first line feed. */
  function Head(s: string): string {
    if '\n' in s then s[..FirstNewline(s)] else s
  }

  /** The server executes every line of the wire text; the client reads one response from all its answers. */
  ghost function Exchange(st: Store, capacity: nat, command: string, observed: seq<Observed>)
    : Option<(Store, Received<string>)>
    requires capacity > 0
  {
    var lines := Commands(Wire(command));
    if |observed| != |lines| || ServeAll(st, capacity, lines, observed).None? then None
    else
      var (after, written) := ServeAll(st, capacity, lines, observed).value;
      Some((after, Response(command, Concat(written), false)))
  }

  lemma ConcatOne(text: string)
    ensures Concat([text]) == text
  {
    assert [text][..0] == [] && Concat([]) + text == text;
  }

  /** With one line it is the plain call. */
  lemma ExchangeOfOne(st: Store, capacity: nat, command: string, obs: Observed)
    requires capacity > 0 && |Commands(Wire(command))| == 1
    ensures Exchange(st, capacity, command, [obs]) == ClientCall(st, capacity, command, obs)
  {
    var line := Commands(Wire(command))[0];
    assert Commands(Wire(command)) == [line];
    ServeOne(st, capacity, line, obs);
    if !Parse(line).Asks? || Possible(st, Parse(line).req, obs) {
      ConcatOne(Execute(st, capacity, line, obs).1);
    }
  }

  /** Some lines have been served: first the first one, and then the others. */
  ghost predicate FirstThenRest(st: Store, capacity: nat, lines: seq<string>, observed: seq<Observed>)
    requires capacity > 0 && |observed| == |lines| > 0
  {
    && (Parse(lines[0]).Asks? ==> Possible(st, Parse(lines[0]).req, observed[0]))
    && var (mid, text) := Execute(st, capacity, lines[0], observed[0]);
    var rest := ServeAll(mid, capacity, lines[1..], observed[1..]);
    && rest.Some?
    && ServeAll(st, capacity, lines, observed) == Some((rest.value.0, [text] + rest.value.1))
  }

  lemma OnlyOne(st: Store, capacity: nat, lines: seq<string>, observed: seq<Observed>)
    requires capacity > 0 && |observed| == |lines| == 1 && ServeAll(st, capacity, lines, observed).Some?
    ensures FirstThenRest(st, capacity, lines, observed)
  {
    assert lines == [lines[0]] && observed == [observed[0]] && lines[1..] == [] && observed[1..] == [];
    ServeOne(st, capacity, lines[0], observed[0]);
    var text := Execute(st, capacity, lines[0], observed[0]).1;
    assert [text] + [] == [text];
  }

  lemma OneMoreServed(st: Store, capacity: nat, lines: seq<string>, observed: seq<Observed>)
    requires capacity > 0 && |observed| == |lines| > 1 && ServeAll(st, capacity, lines, observed).Some?
    requires FirstThenRest(st, capacity, lines[..|lines| - 1], observed[..|lines| - 1])
    ensures FirstThenRest(st, capacity, lines, observed)
  {
    var n := |lines| - 1;
    var (mid, text) := Execute(st, capacity, lines[0], observed[0]);
    LastServed(st, capacity, lines, observed);
    SliceTwice(lines);
    SliceTwice(observed);
    ServeOneMore(mid, capacity, lines[1..n], observed[1..n], lines[n], observed[n]);
    var (before, written) := ServeAll(mid, capacity, lines[1..n], observed[1..n]).value;
    RegroupWords(text, written, [Execute(before, capacity, lines[n], observed[n]).1]);
  }

  lemma SliceTwice<T>(s: seq<T>)
    requires |s| > 1
    ensures var n := |s| - 1; s[..n][1..] == s[1..n] && s[1..] == s[1..n] + [s[n]] && s[..n][0] == s[0]
  {
  }

  lemma {:induction false} ServeFirst(st: Store, capacity: nat, lines: seq<string>, observed: seq<Observed>)
    requires capacity > 0 && |observed| == |lines| > 0 && ServeAll(st, capacity, lines, observed).Some?
    ensures FirstThenRest(st, capacity, lines, observed)
    decreases |lines|
  {
    if |lines| == 1 {
      OnlyOne(st, capacity, lines, observed);
    } else {
      ServeFirst(st, capacity, lines[..|lines| - 1], observed[..|lines| - 1]);
      OneMoreServed(st, capacity, lines, observed);
    }
  }

  lemma {:induction false} ConcatCons(text: string, more: seq<string>)
    ensures Concat([text] + more) == text + Concat(more)
  {
    var all := [text] + more;
    if more == [] {
      assert all == [text] && all[..0] == [];
    } else {
      var n := |more| - 1;
      assert all[..|all| - 1] == [text] + more[..n];
      ConcatCons(text, more[..n]);
      Associative(text, Concat(more[..n]), more[n]);
    }
  }

  lemma StrippedWords(line: string)
    ensures Tokens(StripCr(line)) == Tokens(line)
  {
    if StripCr(line) != line {
      CutLast(line);
      WordsBeforeCr(StripCr(line));
    }
  }

  lemma CutLast(line: string)
    requires StripCr(line) != line
    ensures line == StripCr(line) + ['\r'] + ""
  {
  }

  lemma WordsBeforeCr(s: string)
    ensures Tokens(s + ['\r'] + "") == Tokens(s)
  {
    TokensJoin(s, '\r', "");
    NoWords("");
    NothingBehind(Tokens(s));
  }

  lemma NothingBehind(words: seq<string>)
    ensures words + [] == words
  {
  }

  /** The first command line that the server takes from a command that begins with a letter. */
  lemma FirstCommand(command: string)
    requires command != "" && !IsSpace(command[0])
    ensures var lines := Commands(Wire(command));
      && lines != [] && Tokens(lines[0]) == Tokens(Head(command))
      && ('\n' !in command ==> lines == [command])
  {
    if '\n' in command {
      var p := FirstNewline(command);
      var line, rest := command[..p], Wire(command)[p + 1..];
      assert Wire(command) == line + "\n" + rest by {
        assert Wire(command)[p] == '\n' && Wire(command)[..p] == line;
      }
      assert line[0] == command[0];
      ConsLine(line, rest);
      assert ([line] + RawLines(rest))[0] == line;
      StrippedWords(line);
    } else {
      WireIsOneCommand(command);
    }
  }

  /**
   * The first line's answer is all that the client reads; the other lines are executed all the same.
   * text is that answer, and mid the store it leaves.
   */
  ghost predicate FirstDecides(command: string, capacity: nat, observed: seq<Observed>, mid: Store, text: string,
                               after: Store, response: Received<string>)
    requires capacity > 0
  {
    var lines := Commands(Wire(command));
    && lines != [] && |observed| == |lines|
    && var rest := ServeAll(mid, capacity, lines[1..], observed[1..]);
    && rest.Some? && rest.value.0 == after && response == Response(command, text + Concat(rest.value.1), false)
  }

  lemma FirstServed(st: Store, capacity: nat, command: string, observed: seq<Observed>)
    requires capacity > 0 && command != "" && !IsSpace(command[0])
    requires Exchange(st, capacity, command, observed).Some?
    ensures var lines, (after, response) := Commands(Wire(command)), Exchange(st, capacity, command, observed).value;
      && lines != [] && |observed| == |lines| && Tokens(lines[0]) == Tokens(Head(command))
      && (Parse(lines[0]).Asks? ==> Possible(st, Parse(lines[0]).req, observed[0]))
      && var (mid, text) := Execute(st, capacity, lines[0], observed[0]);
      FirstDecides(command, capacity, observed, mid, text, after, response)
  {
    var lines := Commands(Wire(command));
    FirstCommand(command);
    ServeFirst(st, capacity, lines, observed);
    var (mid, text) := Execute(st, capacity, lines[0], observed[0]);
    ConcatCons(text, ServeAll(mid, capacity, lines[1..], observed[1..]).value.1);
  }

  /** What the client makes of a first answer of one line. */
  lemma FirstRead(command: string, capacity: nat, observed: seq<Observed>, mid: Store, body: string,
                  after: Store, response: Received<string>)
    requires capacity > 0 && !WantsListing(command) && OneLine(body)
    requires FirstDecides(command, capacity, observed, mid, body + CRLF, after, response)
    ensures response == if Short(body) then Got(body) else TooLong
  {
    var lines := Commands(Wire(command));
    ReadLineCrlf(body, Concat(ServeAll(mid, capacity, lines[1..], observed[1..]).value.1), false);
  }

  /** The lines after the first one are executed whatever becomes of it: from mid they lead to after. */
  ghost predicate OthersServed(command: string, capacity: nat, observed: seq<Observed>, mid: Store, after: Store)
    requires capacity > 0
  {
    var lines := Commands(Wire(command));
    && lines != [] && |observed| == |lines|
    && ServeAll(mid, capacity, lines[1..], observed[1..]).Some?
    && ServeAll(mid, capacity, lines[1..], observed[1..]).value.0 == after
  }

  lemma NoOthers(command: string, capacity: nat, observed: seq<Observed>, mid: Store, after: Store)
    requires capacity > 0 && command != "" && !IsSpace(command[0]) && '\n' !in command
    requires OthersServed(command, capacity, observed, mid, after)
    ensures after == mid
  {
    FirstCommand(command);
    assert [command][1..] == [];
  }

  // ---- set_key -----------------------------------------------------------------------------------------

  lemma SetStarts(key: string, value: string, ttl: Option<int>)
    ensures var command := SetCommand(key, value, ttl);
      command != "" && !IsSpace(command[0]) && !WantsListing(command)
  {
    NotAListing(SetCommand(key, value, ttl));
  }

  lemma SetUsageOutcome()
    ensures OneLine("ERROR SET <key> <value> [<ttl>]") && Short("ERROR SET <key> <value> [<ttl>]")
    ensures SetOutcome(Got("ERROR SET <key> <value> [<ttl>]")) == Raised("ERROR SET <key> <value> [<ttl>]")
  {
    assert "ERROR SET <key> <value> [<ttl>]"[..2][0] == 'E' && "OK"[0] == 'O';
  }

  /** The store after the first line of a SET: as before, when it is refused. */
  function SetMid(st: Store, capacity: nat, words: seq<string>, now: Time): Store
    requires capacity > 0
  {
    if |words| < 3 || (|words| > 3 && Stoll(words[3]) == None) then st
    else SetStore(st, capacity, words[1], words[2], if |words| > 3 then Stoll(words[3]) else None, now)
  }

  function SetBody(words: seq<string>): string {
    if |words| < 3 then "ERROR SET <key> <value> [<ttl>]"
    else if |words| > 3 && Stoll(words[3]) == None then "ERROR invalid TTL"
    else "OK"
  }

  lemma SetBodyOutcome(words: seq<string>)
    ensures OneLine(SetBody(words)) && Short(SetBody(words))
    ensures SetOutcome(Got(SetBody(words)))
         == (if |words| < 3 then Raised("ERROR SET <key> <value> [<ttl>]")
             else if |words| > 3 && Stoll(words[3]) == None then Raised("ERROR invalid TTL")
             else Returned(()))
  {
    SetUsageOutcome();
    InvalidTtlOutcome();
    OkOutcome();
  }

  lemma SetBodyText(words: seq<string>)
    ensures SetBody(words) + CRLF
         == if |words| < 3 then "ERROR SET <key> <value> [<ttl>]\r\n"
            else if |words| > 3 && Stoll(words[3]) == None then "ERROR invalid TTL\r\n"
            else "OK\r\n"
  {
    AnswerTexts();
    SetUsageText();
    InvalidTtlText();
  }

  lemma SetExecuted(st: Store, capacity: nat, line: string, obs: Observed)
    requires capacity > 0
    requires var words := Tokens(line); words != [] && Upper(words[0]) == "SET"
    ensures Execute(st, capacity, line, obs)
         == (SetMid(st, capacity, Tokens(line), obs.now), SetBody(Tokens(line)) + CRLF)
  {
    SetLine(st, capacity, line, obs);
    SetBodyText(Tokens(line));
  }

  lemma HeadOfPrefixed(prefix: string, rest: string)
    requires '\n' !in prefix
    ensures Head(prefix + rest) == prefix + Head(rest)
  {
    if '\n' in rest {
      var p := FirstNewline(rest);
      assert (prefix + rest)[..|prefix| + p] == prefix + rest[..p];
      FirstNewlineUnique(prefix + rest, |prefix| + p);
    }
  }

  lemma SetIsDispatched()
    ensures IsWord("SET") && Upper("SET") == "SET" && "SET" + " " == "SET " && '\n' !in "SET "
  {
  }

  lemma HeadOfSet(key: string, value: string, ttl: Option<int>)
    ensures var words := Tokens(Head(SetCommand(key, value, ttl))); words != [] && Upper(words[0]) == "SET"
  {
    var rest := key + " " + value + if ttl.Some? then " " + IntText(ttl.value) else "";
    SetIsDispatched();
    assert SetCommand(key, value, ttl) == "SET " + rest;
    HeadOfPrefixed("SET ", rest);
    TokensOfCons("SET", Head(rest));
  }

  /**
   * set_key for every key, value and TTL.  The server sees the words before the first line feed.  Too
   * few of them, or one in the place of the TTL that is no 64-bit number, and the call raises with
   * this text; else it returns.  A refused SET has done nothing; only what follows a line feed is
   * executed as lines of its own.
   */
  lemma SetExchanged(st: Store, capacity: nat, key: string, value: string, ttl: Option<int>, observed: seq<Observed>)
    requires capacity > 0 && Exchange(st, capacity, SetCommand(key, value, ttl), observed).Some?
    ensures var command := SetCommand(key, value, ttl);
      var words := Tokens(Head(command));
      var (after, response) := Exchange(st, capacity, command, observed).value;
      && SetOutcome(response)
         == (if |words| < 3 then Raised("ERROR SET <key> <value> [<ttl>]")
             else if |words| > 3 && Stoll(words[3]) == None then Raised("ERROR invalid TTL")
             else Returned(()))
      && observed != []
      && OthersServed(command, capacity, observed, SetMid(st, capacity, words, observed[0].now), after)
  {
    var command := SetCommand(key, value, ttl);
    var words := Tokens(Head(command));
    SetStarts(key, value, ttl);
    HeadOfSet(key, value, ttl);
    FirstServed(st, capacity, command, observed);
    SetExecuted(st, capacity, Commands(Wire(command))[0], observed[0]);
    SetBodyOutcome(words);
    var (after, response) := Exchange(st, capacity, command, observed).value;
    FirstRead(command, capacity, observed, SetMid(st, capacity, words, observed[0].now), SetBody(words), after, response);
  }

  // ---- get_key and delete_key ------------------------------------------------------------------------------

  lemma KeyCommands(key: string)
    ensures GetCommand(key) == "GET" + " " + key && DelCommand(key) == "DEL" + " " + key
    ensures IsWord("GET") && Upper("GET") == "GET" && IsWord("DEL") && Upper("DEL") == "DEL"
    ensures '\n' !in "GET" + " " && '\n' !in "DEL" + " "
    ensures !IsSpace(GetCommand(key)[0]) && !IsSpace(DelCommand(key)[0])
  {
    GetIsDispatched(key);
    DelIsDispatched(key);
  }

  lemma HeadOfKey(name: string, key: string)
    requires IsWord(name) && '\n' !in name + " "
    ensures Tokens(Head(name + " " + key)) == [name] + Tokens(Head(key))
  {
    HeadOfPrefixed(name + " ", key);
    TokensOfCons(name, Head(key));
  }

  /** What a GET with these words, behind its name, leaves and answers. */
  function GetMid(st: Store, words: seq<string>, now: Time): Store {
    if words == [] then st else GetStore(st, words[0], now).0
  }

  function GetBody(st: Store, words: seq<string>, now: Time): string {
    if words == [] then "ERROR GET <key>"
    else
      var value := GetStore(st, words[0], now).1;
      if value.Some? then "VALUE " + value.value else "NOT_FOUND"
  }

  lemma GetBodyText(st: Store, words: seq<string>, now: Time)
    ensures GetBody(st, words, now) + CRLF
         == if words == [] then "ERROR GET <key>\r\n"
            else
              var value := GetStore(st, words[0], now).1;
              if value.Some? then "VALUE " + value.value + "\r\n" else "NOT_FOUND\r\n"
  {
    KeyUsageTexts();
    AnswerTexts();
  }

  lemma GetExecuted(st: Store, capacity: nat, line: string, words: seq<string>, obs: Observed)
    requires capacity > 0 && Tokens(line) == ["GET"] + words && Upper("GET") == "GET"
    ensures Execute(st, capacity, line, obs) == (GetMid(st, words, obs.now), GetBody(st, words, obs.now) + CRLF)
  {
    assert words != [] ==> Tokens(line)[1] == words[0];
    GetLine(st, capacity, line, obs);
    GetBodyText(st, words, obs.now);
  }

  lemma GetBodyOutcome(st: Store, words: seq<string>, now: Time)
    requires WordsOnly(st.lru)
    ensures var body := GetBody(st, words, now);
      && OneLine(body)
      && GetOutcome(if Short(body) then Got(body) else TooLong)
         == if words == [] then Raised("ERROR GET <key>") else Fetched(GetStore(st, words[0], now).1)
  {
    KeyUsageOutcomes();
    NotFoundOutcome();
    if words != [] && GetStore(st, words[0], now).1.Some? {
      FoundOutcome(GetStore(st, words[0], now).1.value);
    }
  }

  function DelMid(st: Store, words: seq<string>): Store {
    if words == [] then st else DelStore(st, words[0]).0
  }

  function DelBody(st: Store, words: seq<string>): string {
    if words == [] then "ERROR DEL <key>" else if words[0] in st.lru.entries then "OK" else "NOT_FOUND"
  }

  lemma DelBodyText(st: Store, words: seq<string>)
    ensures DelBody(st, words) + CRLF
         == if words == [] then "ERROR DEL <key>\r\n"
            else if words[0] in st.lru.entries then "OK\r\n"
            else "NOT_FOUND\r\n"
  {
    KeyUsageTexts();
    AnswerTexts();
  }

  lemma DelExecuted(st: Store, capacity: nat, line: string, words: seq<string>, obs: Observed)
    requires capacity > 0 && Tokens(line) == ["DEL"] + words && Upper("DEL") == "DEL"
    ensures Execute(st, capacity, line, obs) == (DelMid(st, words), DelBody(st, words) + CRLF)
  {
    assert words != [] ==> Tokens(line)[1] == words[0];
    DelLine(st, capacity, line, obs);
    DelBodyText(st, words);
  }

  lemma DelBodyOutcome(st: Store, words: seq<string>)
    ensures var body := DelBody(st, words);
      && OneLine(body) && Short(body)
      && DelOutcome(Got(body)) == if words == [] then Raised("ERROR DEL <key>") else Returned(words[0] in st.lru.entries)
  {
    KeyUsageOutcomes();
    NotFoundOutcome();
    OkOutcome();
  }

  lemma KeyUsageOutcomes()
    ensures OneLine("ERROR GET <key>") && Short("ERROR GET <key>") && OneLine("ERROR DEL <key>") && Short("ERROR DEL <key>")
    ensures GetOutcome(Got("ERROR GET <key>")) == Raised("ERROR GET <key>")
    ensures DelOutcome(Got("ERROR DEL <key>")) == Raised("ERROR DEL <key>")
  {
    assert "ERROR GET <key>"[0] == 'E' && "ERROR DEL <key>"[0] == 'E';
    assert "ERROR GET <key>"[..6][0] == 'E' && "VALUE "[0] == 'V' && "NOT_FOUND"[0] == 'N' && "OK"[0] == 'O';
  }

  /** get_key for every key: it raises if and only if there is no word before the first line feed. */
  lemma GetExchanged(st: Store, capacity: nat, key: string, observed: seq<Observed>)
    requires capacity > 0 && WordsOnly(st.lru) && Exchange(st, capacity, GetCommand(key), observed).Some?
    ensures var words := Tokens(Head(key));
      var (after, response) := Exchange(st, capacity, GetCommand(key), observed).value;
      && observed != []
      && GetOutcome(response)
         == (if words == [] then Raised("ERROR GET <key>") else Fetched(GetStore(st, words[0], observed[0].now).1))
      && OthersServed(GetCommand(key), capacity, observed,
                      if words == [] then st else GetStore(st, words[0], observed[0].now).0, after)
  {
    var command, words := GetCommand(key), Tokens(Head(key));
    KeyCommands(key);
    HeadOfKey("GET", key);
    NotAListing(command);
    FirstServed(st, capacity, command, observed);
    var (after, response) := Exchange(st, capacity, command, observed).value;
    var now := observed[0].now;
    GetExecuted(st, capacity, Commands(Wire(command))[0], words, observed[0]);
    GetBodyOutcome(st, words, now);
    FirstRead(command, capacity, observed, GetMid(st, words, now), GetBody(st, words, now), after, response);
  }

  /** So does delete_key. */
  lemma DelExchanged(st: Store, capacity: nat, key: string, observed: seq<Observed>)
    requires capacity > 0 && Exchange(st, capacity, DelCommand(key), observed).Some?
    ensures var words := Tokens(Head(key));
      var (after, response) := Exchange(st, capacity, DelCommand(key), observed).value;
      && observed != []
      && DelOutcome(response)
         == (if words == [] then Raised("ERROR DEL <key>") else Returned(words[0] in st.lru.entries))
      && OthersServed(DelCommand(key), capacity, observed, if words == [] then st else DelStore(st, words[0]).0, after)
  {
    var command, words := DelCommand(key), Tokens(Head(key));
    KeyCommands(key);
    HeadOfKey("DEL", key);
    NotAListing(command);
    FirstServed(st, capacity, command, observed);
    var (after, response) := Exchange(st, capacity, command, observed).value;
    DelExecuted(st, capacity, Commands(Wire(command))[0], words, observed[0]);
    DelBodyOutcome(st, words);
    FirstRead(command, capacity, observed, DelMid(st, words), DelBody(st, words), after, response);
  }

  // ---- Keys and values without a line feed -------------------------------------------------------------------

  lemma OneLineExchange(st: Store, capacity: nat, command: string, obs: Observed)
    requires capacity > 0 && command != "" && !IsSpace(command[0]) && '\n' !in command
    requires Parse(command).Asks? ==> Possible(st, Parse(command).req, obs)
    ensures ClientCall(st, capacity, command, obs).Some?
    ensures Exchange(st, capacity, command, [obs]) == ClientCall(st, capacity, command, obs)
  {
    WireIsOneCommand(command);
    ExchangeOfOne(st, capacity, command, obs);
  }

  lemma HeadOfOneLine(s: string)
    requires '\n' !in s
    ensures Head(s) == s
  {
  }

  function TtlWords(ttl: Option<int>): seq<string> {
    if ttl.Some? then [IntText(ttl.value)] else []
  }

  lemma OneWordMore(before: string, word: string)
    requires IsWord(word)
    ensures Tokens(before + (" " + word)) == Tokens(before) + [word]
  {
    Associative(before, " ", word);
    TokensJoin(before, ' ', word);
    OneWord(word);
  }

  lemma TtlTokens(before: string, ttl: Option<int>)
    ensures Tokens(before + if ttl.Some? then " " + IntText(ttl.value) else "") == Tokens(before) + TtlWords(ttl)
  {
    if ttl.Some? {
      IntTextIsWord(ttl.value);
      OneWordMore(before, IntText(ttl.value));
    } else {
      assert before + "" == before;
      NothingBehind(Tokens(before));
    }
  }

  /** The words of key, value and TTL are the words that follow SET. */
  lemma SetCommandTokens(key: string, value: string, ttl: Option<int>)
    ensures Tokens(SetCommand(key, value, ttl)) == ["SET"] + (Tokens(key) + Tokens(value) + TtlWords(ttl))
  {
    var tail := if ttl.Some? then " " + IntText(ttl.value) else "";
    SetIsDispatched();
    TokensOfCons("SET", key + " " + value + tail);
    TokensJoin(key, ' ', value);
    TtlTokens(key + " " + value, ttl);
    SetText(key, value, tail);
  }

  lemma SetText(key: string, value: string, tail: string)
    ensures "SET " + key + " " + value + tail == "SET" + " " + (key + " " + value + tail)
  {
  }

  lemma SetIsOneLine(key: string, value: string, ttl: Option<int>)
    requires '\n' !in key && '\n' !in value
    ensures '\n' !in SetCommand(key, value, ttl)
  {
    if ttl.Some? {
      IntTextIsWord(ttl.value);
    }
  }

  /**
   * Without a line feed in key and value: the words of key and of value, and the TTL, are what the
   * server sees.  Fewer than two words, or a third one that is no 64-bit number, are refused, and
   * nothing is stored; else the second word is stored under the first one.
   */
  lemma SetOnOneLine(st: Store, capacity: nat, key: string, value: string, ttl: Option<int>, now: Time)
    requires capacity > 0 && '\n' !in key && '\n' !in value
    ensures var words := Tokens(key) + Tokens(value) + (if ttl.Some? then [IntText(ttl.value)] else []);
      var call := ClientCall(st, capacity, SetCommand(key, value, ttl), At(now));
      && call.Some?
      && (call.value.0, SetOutcome(call.value.1))
         == if |words| < 2 then (st, Raised("ERROR SET <key> <value> [<ttl>]"))
            else if |words| > 2 && Stoll(words[2]) == None then (st, Raised("ERROR invalid TTL"))
            else (SetStore(st, capacity, words[0], words[1], if |words| > 2 then Stoll(words[2]) else None, now), Returned(()))
  {
    var command := SetCommand(key, value, ttl);
    SetStarts(key, value, ttl);
    SetIsOneLine(key, value, ttl);
    SetCommandTokens(key, value, ttl);
    HeadOfOneLine(command);
    SetIsDispatched();
    SetWordsMean(Tokens(command));
    OneLineExchange(st, capacity, command, At(now));
    SetExchanged(st, capacity, key, value, ttl, [At(now)]);
    NoOthers(command, capacity, [At(now)], SetMid(st, capacity, Tokens(command), now),
             ClientCall(st, capacity, command, At(now)).value.0);
  }

  lemma KeyIsOneLine(key: string)
    requires '\n' !in key
    ensures '\n' !in GetCommand(key) && '\n' !in DelCommand(key) && Head(key) == key
  {
    KeyCommands(key);
  }

  /** The same for keys: without a word they are refused, else the first word is the key. */
  lemma GetOnOneLine(st: Store, capacity: nat, key: string, now: Time)
    requires capacity > 0 && WordsOnly(st.lru) && '\n' !in key
    ensures var words := Tokens(key);
      var call := ClientCall(st, capacity, GetCommand(key), At(now));
      && call.Some?
      && (call.value.0, GetOutcome(call.value.1))
         == if words == [] then (st, Raised("ERROR GET <key>"))
            else (GetStore(st, words[0], now).0, Fetched(GetStore(st, words[0], now).1))
  {
    var command, words := GetCommand(key), Tokens(key);
    KeyCommands(key);
    KeyIsOneLine(key);
    TokensOfCons("GET", key);
    KeyWordsMean(Tokens(command));
    OneLineExchange(st, capacity, command, At(now));
    GetExchanged(st, capacity, key, [At(now)]);
    NoOthers(command, capacity, [At(now)], if words == [] then st else GetStore(st, words[0], now).0,
             ClientCall(st, capacity, command, At(now)).value.0);
  }

  lemma DelOnOneLine(st: Store, capacity: nat, key: string, now: Time)
    requires capacity > 0 && '\n' !in key
    ensures var words := Tokens(key);
      var call := ClientCall(st, capacity, DelCommand(key), At(now));
      && call.Some?
      && (call.value.0, DelOutcome(call.value.1))
         == if words == [] then (st, Raised("ERROR DEL <key>"))
            else (DelStore(st, words[0]).0, Returned(words[0] in st.lru.entries))
  {
    var command, words := DelCommand(key), Tokens(key);
    KeyCommands(key);
    KeyIsOneLine(key);
    TokensOfCons("DEL", key);
    KeyWordsMean(Tokens(command));
    OneLineExchange(st, capacity, command, At(now));
    DelExchanged(st, capacity, key, [At(now)]);
    NoOthers(command, capacity, [At(now)], if words == [] then st else DelStore(st, words[0]).0,
             ClientCall(st, capacity, command, At(now)).value.0);
  }

  // ---- Calls that are refused ----------------------------------------------------------------------------------

  lemma SomeWords()
    ensures IsWord("k") && IsWord("x") && IsWord("y") && IsWord("hello") && IsWord("world")
  {
  }

  lemma SpacedTokens()
    ensures Tokens("k") == ["k"] && Tokens("hello" + [' '] + "world") == ["hello", "world"]
  {
    SomeWords();
    OneWord("k");
    OneWord("hello");
    OneWord("world");
    TokensJoin("hello", ' ', "world");
  }

  lemma WorldIsNoTtl()
    ensures Stoll("world") == None
  {
    assert IsNumeral("", "", "world");
    StollOfNumeral("", "", "world");
    assert "" + "" + "world" == "world";
  }

  lemma SpacedValue()
    ensures "hello world" == "hello" + [' '] + "world" && '\n' !in "k" && '\n' !in "hello world"
  {
  }

  /** A value of two words: the second one is taken for a TTL. */
  lemma SpacedValueIsRefused(st: Store, capacity: nat, now: Time)
    requires capacity > 0
    ensures var call := ClientCall(st, capacity, SetCommand("k", "hello world", None), At(now));
      call.Some? && call.value.0 == st && SetOutcome(call.value.1) == Raised("ERROR invalid TTL")
  {
    SpacedValue();
    SpacedTokens();
    WorldIsNoTtl();
    SetOnOneLine(st, capacity, "k", "hello world", None, now);
  }

  /** Empty values and keys. */
  lemma EmptyIsRefused(st: Store, capacity: nat, now: Time)
    requires capacity > 0 && WordsOnly(st.lru)
    ensures var call := ClientCall(st, capacity, SetCommand("k", "", None), At(now));
      call.Some? && call.value.0 == st && SetOutcome(call.value.1) == Raised("ERROR SET <key> <value> [<ttl>]")
    ensures var call := ClientCall(st, capacity, GetCommand(""), At(now));
      call.Some? && call.value.0 == st && GetOutcome(call.value.1) == Raised("ERROR GET <key>")
    ensures var call := ClientCall(st, capacity, DelCommand(""), At(now));
      call.Some? && call.value.0 == st && DelOutcome(call.value.1) == Raised("ERROR DEL <key>")
  {
    SpacedValue();
    SpacedTokens();
    SetOnOneLine(st, capacity, "k", "", None, now);
    GetOnOneLine(st, capacity, "", now);
    DelOnOneLine(st, capacity, "", now);
  }

  lemma BrokenSetText()
    ensures SetCommand("k", "\nSET x y", None) == "SET k " + "\n" + "SET x y"
    ensures SetCommand("x", "y", None) == "SET x y" && SetCommand("k", "", None) == "SET k "
    ensures OneLine("SET k ") && OneLine("SET x y")
  {
  }

  lemma BrokenSetHead()
    ensures Head("SET k " + "\n" + "SET x y") == "SET k "
  {
    HeadOfPrefixed("SET k ", "\n" + "SET x y");
    Associative("SET k ", "\n", "SET x y");
    assert FirstNewline("\n" + "SET x y") == 0;
  }

  lemma SecondLineParses()
    ensures Parse("SET x y") == Asks(SetReq("x", "y", None))
  {
    BrokenSetText();
    SomeWords();
    SetCommandParses("x", "y", None);
  }

  /** A SET of an empty value, on one line, has two words. */
  lemma FirstLineParses(line: string)
    requires line == SetCommand("k", "", None)
    ensures |Tokens(line)| == 2 && Parse(line) == SetUsage
  {
    SpacedTokens();
    NoWords("");
    SetIsDispatched();
    SetCommandTokens("k", "", None);
    SetWordsMean(Tokens(line));
  }

  lemma SecondServed(st: Store, capacity: nat, a: string, b: string, key: string, value: string, observed: seq<Observed>)
    requires capacity > 0 && |observed| == 2 && Parse(a) == SetUsage && Parse(b) == Asks(SetReq(key, value, None))
    ensures var served := ServeAll(st, capacity, [a, b], observed);
      && served.Some? && key in served.value.0.lru.entries
      && served.value.0.lru.entries[key] == CacheEntry(value, None)
  {
    ServeOne(st, capacity, a, observed[0]);
    ServeOneMore(st, capacity, [a], [observed[0]], b, observed[1]);
    assert [a] + [b] == [a, b] && [observed[0]] + [observed[1]] == observed;
  }

  lemma BrokenSetSplits()
    ensures var command := SetCommand("k", "\nSET x y", None);
      Commands(Wire(command)) == ["SET k ", "SET x y"] && Head(command) == "SET k "
  {
    BrokenSetText();
    BrokenSetHead();
    TwoLines("SET k ", "SET x y");
  }

  lemma StoredBySecond(st: Store, capacity: nat, key: string, value: string, a: string, b: string,
                       storedKey: string, stored: string, observed: seq<Observed>)
    requires capacity > 0 && |observed| == 2
    requires Commands(Wire(SetCommand(key, value, None))) == [a, b] && Head(SetCommand(key, value, None)) == a
    requires |Tokens(a)| == 2 && Parse(a) == SetUsage && Parse(b) == Asks(SetReq(storedKey, stored, None))
    ensures var call := Exchange(st, capacity, SetCommand(key, value, None), observed);
      && call.Some? && SetOutcome(call.value.1) == Raised("ERROR SET <key> <value> [<ttl>]")
      && storedKey in call.value.0.lru.entries && call.value.0.lru.entries[storedKey] == CacheEntry(stored, None)
  {
    SecondServed(st, capacity, a, b, storedKey, stored, observed);
    SetExchanged(st, capacity, key, value, None, observed);
  }

  /** With a line feed in the value a call can raise and yet have stored something. */
  lemma RefusedAndStored(st: Store, capacity: nat, observed: seq<Observed>)
    requires capacity > 0 && |observed| == 2
    ensures var call := Exchange(st, capacity, SetCommand("k", "\nSET x y", None), observed);
      && call.Some? && SetOutcome(call.value.1) == Raised("ERROR SET <key> <value> [<ttl>]")
      && "x" in call.value.0.lru.entries && call.value.0.lru.entries["x"] == CacheEntry("y", None)
  {
    BrokenSetText();
    FirstLineParses("SET k ");
    SecondLineParses();
    BrokenSetSplits();
    StoredBySecond(st, capacity, "k", "\nSET x y", "SET k ", "SET x y", "x", "y", observed);
  }
}

/** One command line of the text protocol: what it means, and the text of the answer. */
module Protocol {
  import opened CacheModel
  import opened StoreModel
  import opened Text
  import opened Framing

  datatype Command =
    | Asks(req: Request)
    | Empty
    | SetUsage
    | GetUsage
    | DelUsage
    | InvalidTtl
    | Unknown(name: string)

  function Upper(s: string): (r: string)
    ensures |r| == |s|
    ensures forall i :: 0 <= i < |s| ==> r[i] == (if 'a' <= s[i] <= 'z' then 'A' + (s[i] - 'a') else s[i])
  {
    seq(|s|, i requires 0 <= i < |s| => if 'a' <= s[i] <= 'z' then 'A' + (s[i] - 'a') else s[i])
  }

  /** What a tokenized line asks for.  Surplus tokens are ignored. */
  function Interpret(tokens: seq<string>): Command {
    if tokens == [] then Empty else Named(Upper(tokens[0]), tokens)
  }

  function Named(name: string, tokens: seq<string>): Command {
    if name == "SET" then
      if |tokens| < 3 then SetUsage
      else if |tokens| == 3 then Asks(SetReq(tokens[1], tokens[2], None))
      else if Stoll(tokens[3]) == None then InvalidTtl
      else Asks(SetReq(tokens[1], tokens[2], Stoll(tokens[3])))
    else if name == "GET" then
      if |tokens| < 2 then GetUsage else Asks(GetReq(tokens[1]))
    else if name == "DEL" then
      if |tokens| < 2 then DelUsage else Asks(DelReq(tokens[1]))
    else if name == "STATS" then Asks(StatsReq)
    else if name == "KEYS" then Asks(KeysReq)
    else Unknown(name)
  }

  function Parse(line: string): Command {
    Interpret(Tokens(line))
  }

  /** Tokens after the ones a command reads do not matter; but a SET reads a fourth one, if there is one. */
  lemma SurplusIgnored(tokens: seq<string>, surplus: seq<string>)
    requires Interpret(tokens).Asks? && (Interpret(tokens).req.SetReq? ==> |tokens| >= 4)
    ensures Interpret(tokens + surplus) == Interpret(tokens)
  {
    assert forall i :: 0 <= i < |tokens| ==> (tokens + surplus)[i] == tokens[i];
  }

  const CRLF := "\r\n"

  function Field(name: string, n: nat): string {
    "\"" + name + "\":" + Digits(n)
  }

  function Joined(fields: seq<string>): string
    requires fields != []
  {
    if |fields| == 1 then fields[0] else fields[0] + "," + Joined(fields[1..])
  }

  function StatsFields(s: Stats): seq<string> {
    [Field("total_requests", s.requests), Field("hits", s.hits), Field("misses", s.misses),
     Field("bytes_used", s.bytes), Field("active_connections", s.connections)]
  }

  function StatsBody(s: Stats): string {
    "STATS {" + Joined(StatsFields(s)) + "}"
  }

  function TtlText(ttl: Option<nat>): string {
    if ttl.None? then "-1" else Digits(ttl.value)
  }

  function KeyLineBody(l: KeyLine): string {
    l.key + " " + l.value + " " + TtlText(l.ttl)
  }

  function ErrorBody(c: Command): string
    requires !c.Asks?
  {
    match c
    case Empty => "ERROR empty command"
    case SetUsage => "ERROR SET <key> <value> [<ttl>]"
    case GetUsage => "ERROR GET <key>"
    case DelUsage => "ERROR DEL <key>"
    case InvalidTtl => "ERROR invalid TTL"
    case Unknown(name) => "ERROR unknown command '" + name + "'"
  }

  /** The lines of the answer, without their line ends. */
  function Bodies(reply: Reply): seq<string> {
    match reply
    case SetDone => ["OK"]
    case GetDone(value) => [if value.Some? then "VALUE " + value.value else "NOT_FOUND"]
    case DelDone(found) => [if found then "OK" else "NOT_FOUND"]
    case StatsDone(s) => [StatsBody(s)]
    case KeysDone(lines) => KeyBodies(lines) + ["END"]
    case SweepDone => []
  }

  function KeyBodies(lines: seq<KeyLine>): (r: seq<string>)
    ensures |r| == |lines| && forall i :: 0 <= i < |r| ==> r[i] == KeyLineBody(lines[i])
  {
    seq(|lines|, i requires 0 <= i < |lines| => KeyLineBody(lines[i]))
  }

  /** Each body followed by a carriage return and a line feed. */
  function Crlf(bodies: seq<string>): string {
    if bodies == [] then "" else bodies[0] + CRLF + Crlf(bodies[1..])
  }

  /** Carrying out a command on a store, alone: an ill-formed one changes nothing. */
  ghost function Perform(st: Store, capacity: nat, c: Command, obs: Observed): (Store, string)
    requires capacity > 0
    requires c.Asks? ==> Possible(st, c.req, obs)
  {
    if c.Asks? then
      var (after, reply) := Apply(st, capacity, c.req, obs);
      (after, Crlf(Bodies(reply)))
    else (st, Crlf([ErrorBody(c)]))
  }

  ghost function Execute(st: Store, capacity: nat, line: string, obs: Observed): (Store, string)
    requires capacity > 0
    requires Parse(line).Asks? ==> Possible(st, Parse(line).req, obs)
  {
    Perform(st, capacity, Parse(line), obs)
  }

  /** Executing command lines one after the other, and their answers; None if an observation is impossible. */
  ghost function ServeAll(st: Store, capacity: nat, lines: seq<string>, observed: seq<Observed>)
    : Option<(Store, seq<string>)>
    requires capacity > 0 && |observed| == |lines|
  {
    if lines == [] then Some((st, []))
    else
      var n := |lines| - 1;
      var before := ServeAll(st, capacity, lines[..n], observed[..n]);
      if before.None? || (Parse(lines[n]).Asks? && !Possible(before.value.0, Parse(lines[n]).req, observed[n])) then None
      else
        var (after, response) := Execute(before.value.0, capacity, lines[n], observed[n]);
        Some((after, before.value.1 + [response]))
  }

  lemma ServeOneMore(st: Store, capacity: nat, lines: seq<string>, observed: seq<Observed>, line: string, obs: Observed)
    requires capacity > 0 && |observed| == |lines| && ServeAll(st, capacity, lines, observed).Some?
    requires var mid := ServeAll(st, capacity, lines, observed).value.0;
      Parse(line).Asks? ==> Possible(mid, Parse(line).req, obs)
    ensures var (mid, written) := ServeAll(st, capacity, lines, observed).value;
      var (after, response) := Execute(mid, capacity, line, obs);
      ServeAll(st, capacity, lines + [line], observed + [obs]) == Some((after, written + [response]))
  {
    assert (lines + [line])[..|lines|] == lines && (observed + [obs])[..|lines|] == observed;
  }

  /** The last of some lines was executed after the others. */
  lemma LastServed(st: Store, capacity: nat, lines: seq<string>, observed: seq<Observed>)
    requires capacity > 0 && |observed| == |lines| && lines != []
    requires ServeAll(st, capacity, lines, observed).Some?
    ensures var n := |lines| - 1;
      var before := ServeAll(st, capacity, lines[..n], observed[..n]);
      && before.Some? && (Parse(lines[n]).Asks? ==> Possible(before.value.0, Parse(lines[n]).req, observed[n]))
      && var (after, response) := Execute(before.value.0, capacity, lines[n], observed[n]);
      && ServeAll(st, capacity, lines, observed) == Some((after, before.value.1 + [response]))
  {
  }

  lemma ServeOne(st: Store, capacity: nat, line: string, obs: Observed)
    requires capacity > 0
    ensures ServeAll(st, capacity, [line], [obs])
         == if Parse(line).Asks? && !Possible(st, Parse(line).req, obs) then None
            else Some((Execute(st, capacity, line, obs).0, [Execute(st, capacity, line, obs).1]))
  {
    assert [line][..0] == [] && [obs][..0] == [];
    if !Parse(line).Asks? || Possible(st, Parse(line).req, obs) {
      ServeOneMore(st, capacity, [], [], line, obs);
      assert [] + [line] == [line] && [] + [obs] == [obs];
      assert [] + [Execute(st, capacity, line, obs).1] == [Execute(st, capacity, line, obs).1];
    }
  }

  /** Two lines, one after the other. */
  lemma TwoServed(st: Store, capacity: nat, a: string, b: string, observed: seq<Observed>)
    requires capacity > 0 && |observed| == 2 && ServeAll(st, capacity, [a, b], observed).Some?
    ensures Parse(a).Asks? ==> Possible(st, Parse(a).req, observed[0])
    ensures var (mid, first) := Execute(st, capacity, a, observed[0]);
      && (Parse(b).Asks? ==> Possible(mid, Parse(b).req, observed[1]))
      && var (after, second) := Execute(mid, capacity, b, observed[1]);
      ServeAll(st, capacity, [a, b], observed) == Some((after, [first, second]))
  {
    LastServed(st, capacity, [a, b], observed);
    assert [a, b][..1] == [a] && observed[..1] == [observed[0]];
    ServeOne(st, capacity, a, observed[0]);
    var (mid, first) := Execute(st, capacity, a, observed[0]);
    assert [first] + [Execute(mid, capacity, b, observed[1]).1] == [first, Execute(mid, capacity, b, observed[1]).1];
  }

  // ---- What each line does, letter by letter ----------------------------------------------------------

  lemma CrlfOfOne(body: string)
    ensures Crlf([body]) == body + CRLF
  {
    assert Crlf([body]) == body + CRLF + Crlf([]);
  }

  lemma {:induction false} CrlfSnoc(bodies: seq<string>, body: string)
    ensures Crlf(bodies + [body]) == Crlf(bodies) + (body + CRLF)
  {
    if bodies == [] {
      assert bodies + [body] == [body];
      CrlfOfOne(body);
    } else {
      assert (bodies + [body])[1..] == bodies[1..] + [body];
      CrlfSnoc(bodies[1..], body);
      Associative(bodies[0] + CRLF, Crlf(bodies[1..]), body + CRLF);
    }
  }

  /** Carrying out a command that is answered with one line. */
  lemma OneBody(st: Store, capacity: nat, c: Command, obs: Observed, after: Store, body: string)
    requires capacity > 0 && (c.Asks? ==> Possible(st, c.req, obs))
    requires if c.Asks? then Apply(st, capacity, c.req, obs).0 == after && Bodies(Apply(st, capacity, c.req, obs).1) == [body]
             else after == st && ErrorBody(c) == body
    ensures Perform(st, capacity, c, obs) == (after, body + CRLF)
  {
    CrlfOfOne(body);
  }

  /** A line that is refused changes nothing. */
  lemma RefusedLine(st: Store, capacity: nat, line: string, obs: Observed, c: Command, text: string)
    requires capacity > 0 && Parse(line) == c && !c.Asks? && ErrorBody(c) + CRLF == text
    ensures Execute(st, capacity, line, obs) == (st, text)
  {
    OneBody(st, capacity, c, obs, st, ErrorBody(c));
  }

  /** A line that is carried out, and answered with one line. */
  lemma CarriedOut(st: Store, capacity: nat, line: string, obs: Observed, req: Request, body: string, text: string)
    requires capacity > 0 && Parse(line) == Asks(req) && Possible(st, req, obs)
    requires Bodies(Apply(st, capacity, req, obs).1) == [body] && body + CRLF == text
    ensures Execute(st, capacity, line, obs) == (Apply(st, capacity, req, obs).0, text)
  {
    OneBody(st, capacity, Asks(req), obs, Apply(st, capacity, req, obs).0, body);
  }

  lemma AnswerTexts()
    ensures "OK" + CRLF == "OK\r\n" && "NOT_FOUND" + CRLF == "NOT_FOUND\r\n" && "END" + CRLF == "END\r\n"
  {
  }

  lemma SetUsageText()
    ensures ErrorBody(SetUsage) + CRLF == "ERROR SET <key> <value> [<ttl>]\r\n"
  {
  }

  lemma InvalidTtlText()
    ensures ErrorBody(InvalidTtl) + CRLF == "ERROR invalid TTL\r\n"
  {
  }

  lemma KeyUsageTexts()
    ensures ErrorBody(GetUsage) + CRLF == "ERROR GET <key>\r\n" && ErrorBody(DelUsage) + CRLF == "ERROR DEL <key>\r\n"
  {
  }

  lemma OtherTexts(name: string)
    ensures ErrorBody(Empty) + CRLF == "ERROR empty command\r\n"
    ensures ErrorBody(Unknown(name)) + CRLF == "ERROR unknown command '" + name + "'\r\n"
  {
  }

  /** What the words of a SET ask for: too few, or a fourth one that is no TTL, are refused. */
  lemma SetWordsMean(words: seq<string>)
    requires words != [] && Upper(words[0]) == "SET"
    ensures Interpret(words)
         == if |words| < 3 then SetUsage
            else if |words| == 3 then Asks(SetReq(words[1], words[2], None))
            else if Stoll(words[3]) == None then InvalidTtl
            else Asks(SetReq(words[1], words[2], Stoll(words[3])))
  {
  }

  lemma SetLine(st: Store, capacity: nat, line: string, obs: Observed)
    requires capacity > 0
    requires var words := Tokens(line); words != [] && Upper(words[0]) == "SET"
    ensures var words := Tokens(line);
      Execute(st, capacity, line, obs)
      == if |words| < 3 then (st, "ERROR SET <key> <value> [<ttl>]\r\n")
         else if |words| == 3 then (SetStore(st, capacity, words[1], words[2], None, obs.now), "OK\r\n")
         else if Stoll(words[3]) == None then (st, "ERROR invalid TTL\r\n")
         else (SetStore(st, capacity, words[1], words[2], Stoll(words[3]), obs.now), "OK\r\n")
  {
    var words := Tokens(line);
    var c := Interpret(words);
    SetWordsMean(words);
    if c.Asks? {
      AnswerTexts();
      CarriedOut(st, capacity, line, obs, c.req, "OK", "OK\r\n");
    } else if c == SetUsage {
      SetUsageText();
      RefusedLine(st, capacity, line, obs, c, "ERROR SET <key> <value> [<ttl>]\r\n");
    } else {
      InvalidTtlText();
      RefusedLine(st, capacity, line, obs, c, "ERROR invalid TTL\r\n");
    }
  }

  lemma KeyWordsMean(words: seq<string>)
    requires words != []
    ensures Upper(words[0]) == "GET" ==> Interpret(words) == if |words| < 2 then GetUsage else Asks(GetReq(words[1]))
    ensures Upper(words[0]) == "DEL" ==> Interpret(words) == if |words| < 2 then DelUsage else Asks(DelReq(words[1]))
  {
  }

  lemma GetLine(st: Store, capacity: nat, line: string, obs: Observed)
    requires capacity > 0
    requires var words := Tokens(line); words != [] && Upper(words[0]) == "GET"
    ensures var words := Tokens(line);
      Execute(st, capacity, line, obs)
      == if |words| < 2 then (st, "ERROR GET <key>\r\n")
         else var (after, value) := GetStore(st, words[1], obs.now);
           (after, if value.Some? then "VALUE " + value.value + "\r\n" else "NOT_FOUND\r\n")
  {
    var words := Tokens(line);
    KeyWordsMean(words);
    if |words| < 2 {
      KeyUsageTexts();
      RefusedLine(st, capacity, line, obs, GetUsage, "ERROR GET <key>\r\n");
    } else {
      AnswerTexts();
      var value := GetStore(st, words[1], obs.now).1;
      var body := if value.Some? then "VALUE " + value.value else "NOT_FOUND";
      CarriedOut(st, capacity, line, obs, GetReq(words[1]), body, body + CRLF);
    }
  }

  lemma DelLine(st: Store, capacity: nat, line: string, obs: Observed)
    requires capacity > 0
    requires var words := Tokens(line); words != [] && Upper(words[0]) == "DEL"
    ensures var words := Tokens(line);
      Execute(st, capacity, line, obs)
      == if |words| < 2 then (st, "ERROR DEL <key>\r\n")
         else (DelStore(st, words[1]).0, if words[1] in st.lru.entries then "OK\r\n" else "NOT_FOUND\r\n")
  {
    var words := Tokens(line);
    KeyWordsMean(words);
    if |words| < 2 {
      KeyUsageTexts();
      RefusedLine(st, capacity, line, obs, DelUsage, "ERROR DEL <key>\r\n");
    } else {
      AnswerTexts();
      var body := if words[1] in st.lru.entries then "OK" else "NOT_FOUND";
      CarriedOut(st, capacity, line, obs, DelReq(words[1]), body, body + CRLF);
    }
  }

  /** The counters, each under its own name. */
  function StatsText(s: Stats): string {
    "{\"total_requests\":" + Digits(s.requests) + ",\"hits\":" + Digits(s.hits) + ",\"misses\":" + Digits(s.misses)
    + ",\"bytes_used\":" + Digits(s.bytes) + ",\"active_connections\":" + Digits(s.connections) + "}"
  }

  /** STATS changes nothing. */
  lemma StatsLine(st: Store, capacity: nat, line: string, obs: Observed)
    requires capacity > 0
    requires var words := Tokens(line); words != [] && Upper(words[0]) == "STATS"
    ensures Execute(st, capacity, line, obs) == (st, "STATS " + StatsText(Snapshot(st)) + "\r\n")
  {
    StatsBodyText(Snapshot(st));
    OneBody(st, capacity, Asks(StatsReq), obs, st, StatsBody(Snapshot(st)));
  }

  /** Nor does KEYS: a row for each entry listed, then END. */
  lemma KeysLine(st: Store, capacity: nat, line: string, obs: Observed)
    requires capacity > 0 && Possible(st, KeysReq, obs)
    requires var words := Tokens(line); words != [] && Upper(words[0]) == "KEYS"
    ensures Execute(st, capacity, line, obs) == (st, Crlf(KeyBodies(Lines(obs.listing, obs.shown))) + "END\r\n")
  {
    ListingText(KeyBodies(Lines(obs.listing, obs.shown)));
    KeysAnswer(st, capacity, obs);
  }

  lemma KeysAnswer(st: Store, capacity: nat, obs: Observed)
    requires capacity > 0 && Possible(st, KeysReq, obs)
    ensures Perform(st, capacity, Asks(KeysReq), obs) == (st, Crlf(KeyBodies(Lines(obs.listing, obs.shown)) + ["END"]))
  {
  }

  lemma ListingText(rows: seq<string>)
    ensures Crlf(rows + ["END"]) == Crlf(rows) + "END\r\n"
  {
    AnswerTexts();
    CrlfSnoc(rows, "END");
  }

  lemma OtherWordsMean(words: seq<string>)
    requires words != [] && Upper(words[0]) !in ["SET", "GET", "DEL", "STATS", "KEYS"]
    ensures Interpret(words) == Unknown(Upper(words[0]))
  {
    assert ["SET", "GET", "DEL", "STATS", "KEYS"][0] == "SET" && ["SET", "GET", "DEL", "STATS", "KEYS"][1] == "GET";
    assert ["SET", "GET", "DEL", "STATS", "KEYS"][2] == "DEL" && ["SET", "GET", "DEL", "STATS", "KEYS"][3] == "STATS";
    assert ["SET", "GET", "DEL", "STATS", "KEYS"][4] == "KEYS";
  }

  /** Any other line changes nothing, and is answered with an error that names the command in upper case. */
  lemma OtherLine(st: Store, capacity: nat, line: string, obs: Observed)
    requires capacity > 0
    requires var words := Tokens(line); words != [] && Upper(words[0]) !in ["SET", "GET", "DEL", "STATS", "KEYS"]
    ensures Execute(st, capacity, line, obs) == (st, "ERROR unknown command '" + Upper(Tokens(line)[0]) + "'\r\n")
  {
    var name := Upper(Tokens(line)[0]);
    OtherWordsMean(Tokens(line));
    OtherTexts(name);
    RefusedLine(st, capacity, line, obs, Unknown(name), "ERROR unknown command '" + name + "'\r\n");
  }

  /** Nor does a line without words. */
  lemma EmptyLine(st: Store, capacity: nat, line: string, obs: Observed)
    requires capacity > 0 && Tokens(line) == []
    ensures Execute(st, capacity, line, obs) == (st, "ERROR empty command\r\n")
  {
    OtherTexts("");
    RefusedLine(st, capacity, line, obs, Empty, "ERROR empty command\r\n");
  }

  lemma JoinedFive(a: string, b: string, c: string, d: string, e: string)
    ensures Joined([a, b, c, d, e]) == a + "," + (b + "," + (c + "," + (d + "," + e)))
  {
    assert [a, b, c, d, e][1..] == [b, c, d, e] && [b, c, d, e][1..] == [c, d, e];
    assert [c, d, e][1..] == [d, e] && [d, e][1..] == [e];
    assert Joined([d, e]) == d + "," + e;
    assert Joined([c, d, e]) == c + "," + Joined([d, e]);
    assert Joined([b, c, d, e]) == b + "," + Joined([c, d, e]);
  }

  lemma QuotedNames()
    ensures "\"" + "total_requests" + "\":" == "\"total_requests\":"
    ensures "\"" + "hits" + "\":" == "\"hits\":" && "\"" + "misses" + "\":" == "\"misses\":"
    ensures "\"" + "bytes_used" + "\":" == "\"bytes_used\":"
    ensures "\"" + "active_connections" + "\":" == "\"active_connections\":"
  {
  }

  /** Separating commas may be taken to belong to the names that follow them. */
  lemma CommasFirst(a: string, b: string, c: string, d: string, e: string, p: string, q: string, r: string, s: string, t: string)
    ensures "STATS {" + (p + a + "," + (q + b + "," + (r + c + "," + (s + d + "," + (t + e))))) + "}"
         == "STATS " + ("{" + p + a + ("," + q) + b + ("," + r) + c + ("," + s) + d + ("," + t) + e + "}")
  {
  }

  lemma StatsBodyText(s: Stats)
    ensures StatsBody(s) == "STATS " + StatsText(s)
  {
    QuotedNames();
    JoinedFive(Field("total_requests", s.requests), Field("hits", s.hits), Field("misses", s.misses),
               Field("bytes_used", s.bytes), Field("active_connections", s.connections));
    CommasFirst(Digits(s.requests), Digits(s.hits), Digits(s.misses), Digits(s.bytes), Digits(s.connections),
                "\"total_requests\":", "\"hits\":", "\"misses\":", "\"bytes_used\":", "\"active_connections\":");
    NamesWithCommas();
  }

  lemma NamesWithCommas()
    ensures "{" + "\"total_requests\":" == "{\"total_requests\":"
    ensures "," + "\"hits\":" == ",\"hits\":" && "," + "\"misses\":" == ",\"misses\":"
    ensures "," + "\"bytes_used\":" == ",\"bytes_used\":" && "," + "\"active_connections\":" == ",\"active_connections\":"
  {
  }

  // ---- Stores reached through the protocol hold only words -----------------------------------------

  ghost predicate WordsOnly(s: Lru) {
    forall k :: k in s.entries ==> IsWord(k) && IsWord(s.entries[k].value)
  }

  /** A request that comes from a line is about words. */
  lemma ParsedWords(line: string)
    requires Parse(line).Asks?
    ensures var req := Parse(line).req;
      && !req.SweepReq?
      && (req.SetReq? ==> IsWord(req.key) && IsWord(req.value))
      && (req.GetReq? || req.DelReq? ==> IsWord(req.key))
  {
    TokensAreWords(line);
  }

  /** Executing a line, and a sweep, keep a store of words a store of words. */
  lemma ApplyKeepsWords(st: Store, capacity: nat, req: Request, obs: Observed)
    requires capacity > 0 && Possible(st, req, obs) && WordsOnly(st.lru)
    requires req.SetReq? ==> IsWord(req.key) && IsWord(req.value)
    ensures WordsOnly(Apply(st, capacity, req, obs).0.lru)
  {
  }

  lemma ExecuteKeepsWords(st: Store, capacity: nat, line: string, obs: Observed)
    requires capacity > 0 && WordsOnly(st.lru)
    requires Parse(line).Asks? ==> Possible(st, Parse(line).req, obs)
    ensures WordsOnly(Execute(st, capacity, line, obs).0.lru)
  {
    if Parse(line).Asks? {
      ParsedWords(line);
      ApplyKeepsWords(st, capacity, Parse(line).req, obs);
    }
  }

  // ---- Response framing ------------------------------------------------------------------------------

  ghost predicate OneLine(s: string) {
    s != "" && '\r' !in s && '\n' !in s
  }

  lemma UpperIsOneLine(s: string)
    requires IsWord(s)
    ensures OneLine(Upper(s))
  {
    forall i | 0 <= i < |s|
      ensures Upper(s)[i] != '\r' && Upper(s)[i] != '\n'
    {
      assert s[i] in s;
    }
  }

  lemma OneLineBetween(a: string, b: string, c: string)
    requires OneLine(a) && OneLine(b) && OneLine(c)
    ensures OneLine(a + b + c)
  {
  }

  lemma FieldIsOneLine(name: string, n: nat)
    requires OneLine(name)
    ensures OneLine(Field(name, n))
  {
    DigitsAreWords(n);
    OneLineBetween("\"", name, "\":");
    OneLineBetween("\"" + name + "\":", Digits(n), Digits(n));
  }

  lemma {:induction false} JoinedIsOneLine(fields: seq<string>)
    requires fields != [] && forall f :: f in fields ==> OneLine(f)
    ensures OneLine(Joined(fields))
  {
    assert fields[0] in fields;
    assert forall f :: f in fields[1..] ==> f in fields;
    if |fields| > 1 {
      JoinedIsOneLine(fields[1..]);
      OneLineBetween(fields[0], ",", Joined(fields[1..]));
    }
  }

  lemma FieldNamesAreOneLine()
    ensures OneLine("total_requests") && OneLine("hits") && OneLine("misses")
    ensures OneLine("bytes_used") && OneLine("active_connections")
  {
  }

  lemma StatsFieldsAreOneLine(s: Stats)
    ensures forall f :: f in StatsFields(s) ==> OneLine(f)
  {
    FieldNamesAreOneLine();
    FieldIsOneLine("total_requests", s.requests);
    FieldIsOneLine("hits", s.hits);
    FieldIsOneLine("misses", s.misses);
    FieldIsOneLine("bytes_used", s.bytes);
    FieldIsOneLine("active_connections", s.connections);
  }

  lemma StatsIsOneLine(s: Stats)
    ensures OneLine(StatsBody(s))
  {
    StatsFieldsAreOneLine(s);
    JoinedIsOneLine(StatsFields(s));
    OneLineBetween("STATS {", Joined(StatsFields(s)), "}");
  }

  lemma KeyLineIsOneLine(l: KeyLine)
    requires IsWord(l.key) && IsWord(l.value)
    ensures OneLine(KeyLineBody(l))
  {
    if l.ttl.Some? {
      DigitsAreWords(l.ttl.value);
    }
  }

  lemma UnknownName(name: string, tokens: seq<string>)
    ensures Named(name, tokens).Unknown? ==> Named(name, tokens).name == name
  {
  }

  lemma UsageIsOneLine(c: Command)
    requires !c.Asks? && !c.Unknown?
    ensures OneLine(ErrorBody(c))
  {
  }

  lemma UnknownIsOneLine(name: string)
    requires OneLine(name)
    ensures OneLine(ErrorBody(Unknown(name)))
  {
    OneLineBetween("ERROR unknown command '", name, "'");
  }

  lemma ErrorIsOneLine(tokens: seq<string>)
    requires !Interpret(tokens).Asks? && forall t :: t in tokens ==> IsWord(t)
    ensures OneLine(ErrorBody(Interpret(tokens)))
  {
    var c := Interpret(tokens);
    if c.Unknown? {
      UnknownName(Upper(tokens[0]), tokens);
      UpperIsOneLine(tokens[0]);
      UnknownIsOneLine(c.name);
    } else {
      UsageIsOneLine(c);
    }
  }

  lemma ListingIsLines(st: Store, obs: Observed)
    requires WordsOnly(st.lru) && Possible(st, KeysReq, obs)
    ensures forall b :: b in KeyBodies(Lines(obs.listing, obs.shown)) ==> OneLine(b)
  {
    var lines := Lines(obs.listing, obs.shown);
    forall i | 0 <= i < |lines|
      ensures OneLine(KeyBodies(lines)[i])
    {
      KeyLineIsOneLine(lines[i]);
    }
  }

  lemma ReplyIsLines(st: Store, capacity: nat, req: Request, obs: Observed)
    requires capacity > 0 && WordsOnly(st.lru) && Possible(st, req, obs) && !req.SweepReq?
    ensures var bodies := Bodies(Apply(st, capacity, req, obs).1);
      && |bodies| == (if req.KeysReq? then |obs.listing| + 1 else 1)
      && forall b :: b in bodies ==> OneLine(b)
  {
    if req.StatsReq? {
      StatsIsOneLine(Snapshot(st));
    } else if req.KeysReq? {
      ListingIsLines(st, obs);
    }
  }

  /** The lines of an answer as a reader of the stream cuts them: each with its carriage return. */
  function Ended(bodies: seq<string>): (r: seq<string>)
    ensures |r| == |bodies|
  {
    if bodies == [] then [] else [bodies[0] + "\r"] + Ended(bodies[1..])
  }

  lemma {:induction false} EndedLines(bodies: seq<string>)
    requires forall b :: b in bodies ==> OneLine(b)
    ensures NewlineFree(Ended(bodies)) && Crlf(bodies) == Terminated(Ended(bodies))
    ensures forall l :: l in Ended(bodies) ==> |l| > 1 && l[|l| - 1] == '\r' && '\r' !in l[..|l| - 1]
  {
    if bodies != [] {
      assert bodies[0] in bodies;
      assert forall b :: b in bodies[1..] ==> b in bodies;
      EndedLines(bodies[1..]);
      var l := bodies[0] + "\r";
      assert l[..|l| - 1] == bodies[0];
      assert bodies[0] + CRLF == l + "\n";
      assert Ended(bodies)[1..] == Ended(bodies[1..]);
    }
  }

  /** Cutting an answer at its line feeds gives back its lines. */
  lemma CrlfSplits(bodies: seq<string>)
    requires forall b :: b in bodies ==> OneLine(b)
    ensures RawLines(Crlf(bodies)) == Ended(bodies) && Residual(Crlf(bodies)) == ""
  {
    EndedLines(bodies);
    SplitIsUnique(Ended(bodies), "");
    assert Terminated(Ended(bodies)) + "" == Terminated(Ended(bodies));
  }

  /**
   * Response framing: on a store of words every line gets exactly one answer: one CRLF-terminated
   * line, or for KEYS one line per live entry and the END line.  No answer has a line break inside.
   */
  lemma ResponseFraming(st: Store, capacity: nat, line: string, obs: Observed)
    requires capacity > 0 && WordsOnly(st.lru)
    requires Parse(line).Asks? ==> Possible(st, Parse(line).req, obs)
    ensures var c := Parse(line);
      var response := Execute(st, capacity, line, obs).1;
      && Residual(response) == ""
      && |RawLines(response)| == (if c == Asks(KeysReq) then |Live(st.lru, obs.at)| + 1 else 1)
      && forall l :: l in RawLines(response) ==> |l| > 1 && l[|l| - 1] == '\r' && '\r' !in l[..|l| - 1]
  {
    var c := Parse(line);
    if c.Asks? {
      ParsedWords(line);
      ReplyIsLines(st, capacity, c.req, obs);
      CrlfSplits(Bodies(Apply(st, capacity, c.req, obs).1));
      EndedLines(Bodies(Apply(st, capacity, c.req, obs).1));
      if c.req.KeysReq? {
        ListingSize(obs.listing, Live(st.lru, obs.at));
      }
    } else {
      TokensAreWords(line);
      ErrorIsOneLine(Tokens(line));
      CrlfSplits([ErrorBody(c)]);
      EndedLines([ErrorBody(c)]);
    }
  }

  /** A listing that shows each entry once has as many rows as there are entries. */
  lemma {:induction false} ListingSize(listing: seq<(Key, CacheEntry)>, live: map<Key, CacheEntry>)
    requires Lists(listing, live)
    ensures |listing| == |live|
  {
    if listing == [] {
      assert forall k :: k in live ==> (k, live[k]) in listing;
      assert live.Keys == {};
    } else {
      var n := |listing| - 1;
      var rest := live - {listing[n].0};
      forall k | k in rest
        ensures (k, rest[k]) in listing[..n]
      {
        assert (k, live[k]) in listing;
        assert (k, live[k]) != listing[n];
        assert listing == listing[..n] + [listing[n]];
      }
      ListingSize(listing[..n], rest);
      assert live.Keys == rest.Keys + {listing[n].0};
    }
  }
}

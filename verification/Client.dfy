/** The Python client: printing commands, reading responses, parsing the KEYS listing. */
module Client {
  import opened CacheModel
  import opened Text
  import opened Framing
  import opened Protocol

  // ---- Printing commands -----------------------------------------------------------------------------

  function SetCommand(key: string, value: string, ttl: Option<int>): string {
    "SET " + key + " " + value + if ttl.Some? then " " + IntText(ttl.value) else ""
  }

  function GetCommand(key: string): string {
    "GET " + key
  }

  function DelCommand(key: string): string {
    "DEL " + key
  }

  function Wire(command: string): string {
    if |command| >= 2 && command[|command| - 2..] == CRLF then command else command + CRLF
  }

  // ---- Reading responses -----------------------------------------------------------------------------

  /**
   * How reading ends: with a result; because nothing more arrives in time; because a line is longer
   * than the stream reader allows; or not at all.
   */
  datatype Received<+T> = Got(value: T) | TimedOut | TooLong | NeverEnds

  /** The default limit of an asyncio stream reader: the longest line, its line feed not counted. */
  const LINE_LIMIT := 0x1_0000

  /**
   * StreamReader.readline on what has arrived: up to and including a line feed, or all there is at
   * end of file.  `closed` says whether the server has closed the connection.
   */
  function ReadLine(stream: string, closed: bool): (r: Received<(string, string)>)
    ensures r.Got? ==> r.value.0 + r.value.1 == stream && (stream != "" ==> |r.value.1| < |stream|)
  {
    if '\n' in stream then
      var p := FirstNewline(stream);
      if p > LINE_LIMIT then TooLong else Got((stream[..p + 1], stream[p + 1..]))
    else if |stream| > LINE_LIMIT then TooLong
    else if closed then Got((stream, ""))
    else TimedOut
  }

  /** str.rstrip("\r\n") */
  function RStrip(s: string): string {
    if s != "" && (s[|s| - 1] == '\r' || s[|s| - 1] == '\n') then RStrip(s[..|s| - 1]) else s
  }

  /** The lines up to END.  At end of file readline() returns nothing for ever: the loop never ends. */
  function ReadUntilEnd(stream: string, closed: bool): Received<seq<string>>
    decreases |stream|
  {
    if stream == "" then if closed then NeverEnds else TimedOut
    else
      match ReadLine(stream, closed)
      case Got((line, rest)) => if RStrip(line) == "END" then Got([]) else Prefixed([RStrip(line)], ReadUntilEnd(rest, closed))
      case TimedOut => TimedOut
      case TooLong => TooLong
      case NeverEnds => NeverEnds
  }

  function Prefixed(lines: seq<string>, more: Received<seq<string>>): Received<seq<string>> {
    if more.Got? then Got(lines + more.value) else more
  }

  function Join(lines: seq<string>): string {
    if lines == [] then ""
    else if |lines| == 1 then lines[0]
    else lines[0] + "\n" + Join(lines[1..])
  }

  predicate WantsListing(command: string) {
    var stripped := command[Spaces(command)..];
    |stripped| >= 4 && Upper(stripped[..4]) == "KEYS"
  }

  function OneLineResponse(read: Received<(string, string)>): Received<string> {
    match read
    case Got((line, _)) => Got(RStrip(line))
    case TimedOut => TimedOut
    case TooLong => TooLong
    case NeverEnds => NeverEnds
  }

  function ListingResponse(read: Received<seq<string>>): Received<string> {
    match read
    case Got(lines) => Got(Join(lines))
    case TimedOut => TimedOut
    case TooLong => TooLong
    case NeverEnds => NeverEnds
  }

  /** The response to a command, given what the server sends. */
  function Response(command: string, stream: string, closed: bool): Received<string> {
    if WantsListing(command) then ListingResponse(ReadUntilEnd(stream, closed))
    else OneLineResponse(ReadLine(stream, closed))
  }

  lemma PrefixedLaws(lines: seq<string>, line: string, more: Received<seq<string>>)
    ensures Prefixed([], more) == more
    ensures Prefixed(lines, Prefixed([line], more)) == Prefixed(lines + [line], more)
    ensures Prefixed(lines, Got([])) == Got(lines)
  {
    if more.Got? {
      assert [] + more.value == more.value;
      assert lines + ([line] + more.value) == (lines + [line]) + more.value;
    }
    assert lines + [] == lines;
  }

  /** The response-reading part of _send_command. */
  method ReceiveResponse(command: string, stream: string, closed: bool) returns (response: Received<string>)
    ensures response == Response(command, stream, closed)
  {
    if !WantsListing(command) {
      return OneLineResponse(ReadLine(stream, closed));
    }
    var lines: seq<string> := [];
    var rest := stream;
    PrefixedLaws([], "", ReadUntilEnd(stream, closed));
    while true
      invariant ReadUntilEnd(stream, closed) == Prefixed(lines, ReadUntilEnd(rest, closed))
      decreases |rest|
    {
      if rest == "" && closed {
        return NeverEnds;
      }
      var read := ReadLine(rest, closed);
      if !read.Got? {
        return if read.TooLong? then TooLong else TimedOut;
      }
      var (line, more) := read.value;
      var decoded := RStrip(line);
      PrefixedLaws(lines, decoded, ReadUntilEnd(more, closed));
      if decoded == "END" {
        return Got(Join(lines));
      }
      lines, rest := lines + [decoded], more;
    }
  }

  // ---- Interpreting responses --------------------------------------------------------------------------

  /** A client call returns a value, raises CacheClientError with the response, or fails to read one. */
  datatype Outcome<+T> = Returned(value: T) | Raised(response: string) | NotRead

  predicate StartsWith(s: string, prefix: string) {
    |prefix| <= |s| && s[..|prefix|] == prefix
  }

  function SetOutcome(r: Received<string>): Outcome<()> {
    if !r.Got? then NotRead
    else if StartsWith(r.value, "OK") then Returned(())
    else Raised(r.value)
  }

  function GetOutcome(r: Received<string>): Outcome<Option<string>> {
    if !r.Got? then NotRead
    else if StartsWith(r.value, "VALUE ") then Returned(Some(r.value[6..]))
    else if r.value == "NOT_FOUND" then Returned(None)
    else Raised(r.value)
  }

  function DelOutcome(r: Received<string>): Outcome<bool> {
    if !r.Got? then NotRead
    else if r.value == "OK" then Returned(true)
    else if r.value == "NOT_FOUND" then Returned(false)
    else Raised(r.value)
  }

  lemma KeysWantsListing()
    ensures WantsListing("KEYS")
  {
    assert "KEYS"[..4] == "KEYS" && Upper("KEYS") == "KEYS";
  }

  /** Which commands are read until END: those that begin, behind any whitespace, with KEYS in any case. */
  lemma {:induction false} ListingCommands(gap: string, word: string, rest: string)
    requires AllSpace(gap) && |word| == 4 && !IsSpace(word[0])
    ensures WantsListing(gap + word + rest) <==> Upper(word) == "KEYS"
  {
    if gap == "" {
      assert gap + word + rest == word + rest && (word + rest)[0..] == word + rest && (word + rest)[..4] == word;
    } else {
      assert gap[0] in gap;
      assert forall c :: c in gap[1..] ==> c in gap;
      ListingCommands(gap[1..], word, rest);
      assert (gap + word + rest)[1..] == gap[1..] + word + rest;
      assert (gap + word + rest)[Spaces(gap + word + rest)..] == (gap[1..] + word + rest)[Spaces(gap[1..] + word + rest)..];
    }
  }

  // ---- What a well-formed answer is read as --------------------------------------------------------------

  lemma RStripEnds(s: string)
    ensures RStrip(s + "\r") == RStrip(s) && RStrip(s + "\n") == RStrip(s)
  {
    assert (s + "\r")[..|s|] == s && (s + "\n")[..|s|] == s;
  }

  /** What rstrip cuts off is nothing but line ends, and it leaves none. */
  lemma {:induction false} RStripCuts(s: string)
    ensures RStrip(s) <= s && forall c :: c in s[|RStrip(s)|..] ==> c == '\r' || c == '\n'
    ensures RStrip(s) == "" || (RStrip(s)[|RStrip(s)| - 1] != '\r' && RStrip(s)[|RStrip(s)| - 1] != '\n')
  {
    if s != "" && (s[|s| - 1] == '\r' || s[|s| - 1] == '\n') {
      var n := |s| - 1;
      RStripCuts(s[..n]);
      assert s[|RStrip(s)|..] == s[..n][|RStrip(s)|..] + [s[n]];
    }
  }

  lemma RStripKeepsPlain(s: string)
    requires s == "" || (s[|s| - 1] != '\r' && s[|s| - 1] != '\n')
    ensures RStrip(s) == s && RStrip(s + CRLF) == s
  {
    RStripEnds(s);
    RStripEnds(s + "\r");
    assert s + CRLF == (s + "\r") + "\n";
  }

  /** The line fits into the stream reader with its carriage return. */
  predicate Short(body: string) {
    |body| + 1 <= LINE_LIMIT
  }

  lemma ReadLineCrlf(body: string, rest: string, closed: bool)
    requires OneLine(body)
    ensures ReadLine(body + CRLF + rest, closed) == (if Short(body) then Got((body + CRLF, rest)) else TooLong)
    ensures RStrip(body + CRLF) == body
  {
    var s := body + CRLF + rest;
    assert s[..|body| + 1] == body + "\r" && s[|body| + 1] == '\n' && s[|body| + 2..] == rest;
    assert s[..|body| + 2] == body + CRLF;
    FirstNewlineUnique(s, |body| + 1);
    assert body[|body| - 1] in body;
    RStripKeepsPlain(body);
  }

  /** A one-line answer reaches the caller without its line end, exactly when it is not too long. */
  lemma SingleLineResponse(command: string, body: string, closed: bool)
    requires !WantsListing(command) && OneLine(body)
    ensures Response(command, Crlf([body]), closed) == if Short(body) then Got(body) else TooLong
  {
    assert Crlf([body]) == body + CRLF + "";
    ReadLineCrlf(body, "", closed);
  }

  lemma ReadOneMore(body: string, rest: string, closed: bool)
    requires OneLine(body)
    ensures ReadUntilEnd(body + CRLF + rest, closed)
         == if !Short(body) then TooLong
            else if body == "END" then Got([])
            else Prefixed([body], ReadUntilEnd(rest, closed))
  {
    ReadLineCrlf(body, rest, closed);
  }

  lemma CrlfCons(body: string, bodies: seq<string>, rest: string)
    ensures Crlf([body] + bodies) + rest == body + CRLF + (Crlf(bodies) + rest)
  {
    assert ([body] + bodies)[1..] == bodies;
    Associative(body + CRLF, Crlf(bodies), rest);
  }

  /** No line is too long for the stream reader. */
  ghost predicate AllShort(bodies: seq<string>) {
    forall b :: b in bodies ==> Short(b)
  }

  lemma AllShortCons(bodies: seq<string>)
    requires bodies != []
    ensures AllShort(bodies) <==> Short(bodies[0]) && AllShort(bodies[1..])
  {
    assert forall b :: b in bodies <==> b == bodies[0] || b in bodies[1..];
  }

  /** Reading until END stops exactly at the sentinel, whatever follows it, unless a line is too long. */
  lemma {:induction false} ReadStopsAtEnd(bodies: seq<string>, rest: string, closed: bool)
    requires forall b :: b in bodies ==> OneLine(b) && b != "END"
    ensures ReadUntilEnd(Crlf(bodies + ["END"]) + rest, closed) == if AllShort(bodies) then Got(bodies) else TooLong
  {
    if bodies == [] {
      CrlfCons("END", [], rest);
      assert [] + ["END"] == ["END"] + [];
      ReadOneMore("END", Crlf([]) + rest, closed);
    } else {
      assert bodies[0] in bodies;
      assert forall b :: b in bodies[1..] ==> b in bodies;
      ReadStopsAtEnd(bodies[1..], rest, closed);
      AllShortCons(bodies);
      CrlfCons(bodies[0], bodies[1..] + ["END"], rest);
      assert bodies + ["END"] == [bodies[0]] + (bodies[1..] + ["END"]);
      ReadOneMore(bodies[0], Crlf(bodies[1..] + ["END"]) + rest, closed);
      assert bodies == [bodies[0]] + bodies[1..];
    }
  }
}

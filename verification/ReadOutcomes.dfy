/**
 * How reading a response ends, for every stream: what readline cuts the stream into decides it, and
 * a connection closed in the middle of an answer need not be noticed.
 */
module ReadOutcomes {
  import opened CacheModel
  import opened Text
  import opened Framing
  import opened Protocol
  import opened Client

  // ---- Every stream -----------------------------------------------------------------------------------

  /** The lines of a stream, and what follows the last of them. */
  function Pieces(stream: string): (r: seq<string>)
    ensures |r| == |RawLines(stream)| + 1
  {
    RawLines(stream) + [Residual(stream)]
  }

  /** Reading until END goes on after this piece. */
  predicate Quiet(piece: string) {
    |piece| <= LINE_LIMIT && RStrip(piece) != "END"
  }

  ghost predicate AllQuiet(pieces: seq<string>) {
    forall p :: p in pieces ==> Quiet(p)
  }

  function FirstNoisy(pieces: seq<string>): (n: nat)
    ensures n <= |pieces| && (n < |pieces| ==> !Quiet(pieces[n]))
    ensures forall i :: 0 <= i < n ==> Quiet(pieces[i])
  {
    if pieces == [] || !Quiet(pieces[0]) then 0 else 1 + FirstNoisy(pieces[1..])
  }

  function Stripped(pieces: seq<string>): (r: seq<string>)
    ensures |r| == |pieces|
  {
    if pieces == [] then [] else [RStrip(pieces[0])] + Stripped(pieces[1..])
  }

  lemma PiecesCons(stream: string)
    requires '\n' in stream
    ensures var p := FirstNewline(stream);
      Pieces(stream) == [stream[..p]] + Pieces(stream[p + 1..])
  {
    var line, rest := stream[..FirstNewline(stream)], stream[FirstNewline(stream) + 1..];
    SplitUnfold(stream);
    assert Pieces(stream) == ([line] + RawLines(rest)) + [Residual(rest)];
    Regroup(line, RawLines(rest), [Residual(rest)]);
  }

  lemma SplitUnfold(stream: string)
    requires '\n' in stream
    ensures var p := FirstNewline(stream);
      RawLines(stream) == [stream[..p]] + RawLines(stream[p + 1..]) && Residual(stream) == Residual(stream[p + 1..])
  {
    var p := FirstNewline(stream);
    CutAt(stream, p);
    ConsLine(stream[..p], stream[p + 1..]);
  }

  lemma Regroup(a: string, b: seq<string>, c: seq<string>)
    ensures ([a] + b) + c == [a] + (b + c)
  {
  }

  lemma FirstPiece(stream: string)
    ensures '\n' in stream ==> RawLines(stream) != [] && Pieces(stream)[0] == stream[..FirstNewline(stream)]
    ensures '\n' !in stream ==> RawLines(stream) == [] && Pieces(stream)[0] == stream
  {
    if '\n' in stream {
      SplitUnfold(stream);
    }
  }

  lemma StripNewline(stream: string)
    requires '\n' in stream
    ensures RStrip(stream[..FirstNewline(stream) + 1]) == RStrip(stream[..FirstNewline(stream)])
  {
    var p := FirstNewline(stream);
    assert stream[..p + 1] == stream[..p] + "\n";
    RStripEnds(stream[..p]);
  }

  lemma ReadLineStep(stream: string, closed: bool)
    requires '\n' in stream
    ensures var p := FirstNewline(stream);
      ReadUntilEnd(stream, closed)
      == if p > LINE_LIMIT then TooLong
         else if RStrip(stream[..p]) == "END" then Got([])
         else Prefixed([RStrip(stream[..p])], ReadUntilEnd(stream[p + 1..], closed))
  {
    StripNewline(stream);
  }

  lemma ReadLastPiece(stream: string, closed: bool)
    requires '\n' !in stream
    ensures ReadUntilEnd(stream, closed)
         == if |stream| > LINE_LIMIT then TooLong
            else if !closed then TimedOut
            else if RStrip(stream) == "END" then Got([])
            else NeverEnds
  {
  }

  /** How reading until END goes on, if the n-th of the pieces is the first noisy one. */
  function Ending(pieces: seq<string>, closed: bool, n: nat): Received<seq<string>>
    requires n <= |pieces|
  {
    if n == |pieces| then if closed then NeverEnds else TimedOut
    else if |pieces[n]| > LINE_LIMIT then TooLong
    else if n == |pieces| - 1 && !closed then TimedOut
    else Got(Stripped(pieces[..n]))
  }

  lemma FirstNoisyCons(piece: string, pieces: seq<string>)
    ensures FirstNoisy([piece] + pieces) == if Quiet(piece) then 1 + FirstNoisy(pieces) else 0
  {
    assert ([piece] + pieces)[1..] == pieces;
  }

  lemma EndingCons(piece: string, pieces: seq<string>, closed: bool, n: nat)
    requires n <= |pieces| && pieces != []
    ensures Ending([piece] + pieces, closed, n + 1) == Prefixed([RStrip(piece)], Ending(pieces, closed, n))
  {
    assert ([piece] + pieces)[..n + 1] == [piece] + pieces[..n];
    assert ([piece] + pieces[..n])[1..] == pieces[..n];
  }

  /**
   * Reading until END, for every stream: the first noisy piece decides.  If there is none, a closed
   * connection is read from for ever, and an open one until the timeout.
   */
  lemma {:induction false} ReadingEnds(stream: string, closed: bool)
    ensures ReadUntilEnd(stream, closed) == Ending(Pieces(stream), closed, FirstNoisy(Pieces(stream)))
    decreases |stream|
  {
    if '\n' in stream {
      var p := FirstNewline(stream);
      PiecesCons(stream);
      ReadLineStep(stream, closed);
      FirstNoisyCons(stream[..p], Pieces(stream[p + 1..]));
      if Quiet(stream[..p]) {
        ReadingEnds(stream[p + 1..], closed);
        EndingCons(stream[..p], Pieces(stream[p + 1..]), closed, FirstNoisy(Pieces(stream[p + 1..])));
      }
    } else {
      assert Pieces(stream) == [stream];
      FirstNoisyCons(stream, []);
      assert [stream] + [] == [stream];
      ReadLastPiece(stream, closed);
    }
  }

  lemma NoneNoisy(pieces: seq<string>)
    ensures FirstNoisy(pieces) == |pieces| <==> AllQuiet(pieces)
  {
    if FirstNoisy(pieces) < |pieces| {
      assert pieces[FirstNoisy(pieces)] in pieces;
    }
  }

  lemma AllQuietPieces(stream: string)
    ensures AllQuiet(Pieces(stream)) <==> AllQuiet(RawLines(stream)) && Quiet(Residual(stream))
  {
    assert forall p :: p in Pieces(stream) <==> p in RawLines(stream) || p == Residual(stream);
  }

  /**
   * The loop never ends exactly when the server has closed the connection and no piece of what it
   * has sent is END, or over the limit.
   */
  lemma NeverEndsExactly(stream: string, closed: bool)
    ensures ReadUntilEnd(stream, closed) == NeverEnds
       <==> closed && AllQuiet(RawLines(stream)) && Quiet(Residual(stream))
  {
    ReadingEnds(stream, closed);
    NoneNoisy(Pieces(stream));
    AllQuietPieces(stream);
  }

  /** It times out exactly when the connection is open, and neither END nor a line over the limit has come. */
  lemma TimesOutExactly(stream: string, closed: bool)
    ensures ReadUntilEnd(stream, closed) == TimedOut
       <==> !closed && AllQuiet(RawLines(stream)) && |Residual(stream)| <= LINE_LIMIT
  {
    var n := FirstNoisy(Pieces(stream));
    ReadingEnds(stream, closed);
    NoneNoisy(Pieces(stream));
    AllQuietPieces(stream);
    if n < |RawLines(stream)| {
      assert RawLines(stream)[n] in RawLines(stream);
    } else {
      forall l | l in RawLines(stream)
        ensures Quiet(l)
      {
        var i :| 0 <= i < |RawLines(stream)| && RawLines(stream)[i] == l;
        assert Pieces(stream)[i] == l;
      }
    }
  }

  /** Such a stream: a server that goes away after the first row of a listing. */
  lemma CutListingNeverEnds()
    ensures Response("KEYS", "k v -1\r\n", true) == NeverEnds
  {
    CutListingPieces();
    NeverEndsExactly("k v -1\r\n", true);
    KeysWantsListing();
  }

  lemma CutListingPieces()
    ensures RawLines("k v -1\r\n") == ["k v -1\r"] && Residual("k v -1\r\n") == ""
    ensures Quiet("k v -1\r") && Quiet("")
  {
    assert "k v -1\r\n" == "k v -1\r" + "\n" + "";
    ConsLine("k v -1\r", "");
    RowIsQuiet();
  }

  lemma RowIsQuiet()
    ensures Quiet("k v -1\r") && Quiet("")
  {
    RStripEnds("k v -1");
    RStripKeepsPlain("k v -1");
    assert "k v -1"[0] == 'k';
  }

  /**
   * A one-line response, for every stream: the first piece decides, and at end of file a piece of a
   * line passes for a line.
   */
  lemma OneLineEnds(command: string, stream: string, closed: bool)
    requires !WantsListing(command)
    ensures Response(command, stream, closed)
         == if |Pieces(stream)[0]| > LINE_LIMIT then TooLong
            else if RawLines(stream) == [] && !closed then TimedOut
            else Got(RStrip(Pieces(stream)[0]))
  {
    FirstPiece(stream);
    if '\n' in stream {
      StripNewline(stream);
    }
  }

  // ---- Answers cut off by the end of the connection -----------------------------------------------------

  lemma FirstPieceOfCut(body: string, n: nat)
    requires OneLine(body) && n <= |body| + 2
    ensures var text := (body + CRLF)[..n];
      && Pieces(text)[0] == (if n <= |body| then body[..n] else body + "\r")
      && RStrip(Pieces(text)[0]) == (if n <= |body| then body[..n] else body)
  {
    var text := (body + CRLF)[..n];
    assert body[|body| - 1] in body;
    RStripKeepsPlain(body);
    RStripEnds(body);
    if n <= |body| {
      assert text == body[..n];
      assert forall c :: c in body[..n] ==> c in body;
      RStripKeepsCut(body[..n]);
    } else if n == |body| + 1 {
      assert text == body + "\r";
    } else {
      assert text == body + "\r" + "\n" + "";
      ConsLine(body + "\r", "");
    }
  }

  lemma RStripKeepsCut(s: string)
    requires '\r' !in s && '\n' !in s
    ensures RStrip(s) == s
  {
    if s != "" {
      assert s[|s| - 1] in s;
    }
  }

  /** What the client reads when the connection closes after n characters of a one-line answer. */
  function CutTo(body: string, n: nat): Received<string>
    requires n <= |body| + 2
  {
    if n <= |body| then if n > LINE_LIMIT then TooLong else Got(body[..n])
    else if Short(body) then Got(body)
    else TooLong
  }

  lemma CutAnswer(command: string, body: string, n: nat)
    requires !WantsListing(command) && OneLine(body) && n <= |body| + 2
    ensures Response(command, (body + CRLF)[..n], true) == CutTo(body, n)
  {
    FirstPieceOfCut(body, n);
    OneLineEnds(command, (body + CRLF)[..n], true);
  }

  /**
   * A GET answer cut off by the end of the connection is taken for an answer exactly when the cut is
   * behind the word VALUE and its space; the value is then whatever has come of it.
   */
  lemma CutFound(command: string, value: string, n: nat)
    requires !WantsListing(command) && IsWord(value) && n <= |value| + 8
    ensures var body := "VALUE " + value;
      GetOutcome(Response(command, (body + CRLF)[..n], true))
      == if CutTo(body, n).TooLong? then NotRead
         else if n < 6 then Raised(body[..n])
         else Returned(Some(value[..if n - 6 < |value| then n - 6 else |value|]))
  {
    var body := "VALUE " + value;
    CutAnswer(command, body, n);
    assert |"VALUE "| == 6 && body[..6] == "VALUE " && body[6..] == value;
    if n < 6 {
      CutValueIsRaised(body[..n]);
    } else if n <= |body| {
      assert body[..n][..6] == "VALUE " && body[..n][6..] == value[..n - 6];
    } else {
      assert value[..|value|] == value;
    }
  }

  /** Such a cut: of the value "abc" two letters have come, and are returned. */
  lemma CutValueIsReturned()
    ensures GetOutcome(Response("GET k", ("VALUE abc" + CRLF)[..8], true)) == Returned(Some("ab"))
  {
    assert IsWord("abc");
    assert "VALUE " + "abc" == "VALUE abc" && "abc"[..2] == "ab";
    assert Upper("GET "[..4])[0] == 'G' && "GET k"[0..] == "GET k" && "GET k"[..4] == "GET ";
    CutFound("GET k", "abc", 8);
  }

  lemma CutValueIsRaised(text: string)
    requires |text| < 6
    ensures GetOutcome(Got(text)) == Raised(text)
  {
    assert |"NOT_FOUND"| == 9;
  }

  /** Every other one-line answer, cut off, is either whole or raised as an error. */
  lemma CutNotFound(command: string, n: nat)
    requires !WantsListing(command) && n <= 11
    ensures var read := Response(command, ("NOT_FOUND" + CRLF)[..n], true);
      && GetOutcome(read) == (if n < 9 then Raised("NOT_FOUND"[..n]) else Returned(None))
      && DelOutcome(read) == (if n < 9 then Raised("NOT_FOUND"[..n]) else Returned(false))
  {
    NotFoundIsOneLine();
    CutAnswer(command, "NOT_FOUND", n);
    if n < 9 {
      CutNotFoundIsRaised("NOT_FOUND"[..n]);
    } else {
      assert "NOT_FOUND"[..9] == "NOT_FOUND";
      WholeNotFound();
    }
  }

  lemma NotFoundIsOneLine()
    ensures OneLine("NOT_FOUND") && |"NOT_FOUND"| == 9
  {
  }

  lemma CutNotFoundIsRaised(text: string)
    requires |text| < 9 && (text != "" ==> text[0] == 'N')
    ensures GetOutcome(Got(text)) == Raised(text) && DelOutcome(Got(text)) == Raised(text)
  {
    assert |"NOT_FOUND"| == 9;
    if |text| >= 6 {
      assert text[..6][0] == 'N' && "VALUE "[0] == 'V';
    }
  }

  lemma WholeNotFound()
    ensures GetOutcome(Got("NOT_FOUND")) == Returned(None) && DelOutcome(Got("NOT_FOUND")) == Returned(false)
  {
    assert "NOT_FOUND"[..6][0] == 'N' && "VALUE "[0] == 'V';
  }

  lemma CutOk(command: string, n: nat)
    requires !WantsListing(command) && n <= 4
    ensures var read := Response(command, ("OK" + CRLF)[..n], true);
      && SetOutcome(read) == (if n < 2 then Raised("OK"[..n]) else Returned(()))
      && DelOutcome(read) == (if n < 2 then Raised("OK"[..n]) else Returned(true))
  {
    assert OneLine("OK") && |"OK"| == 2;
    CutAnswer(command, "OK", n);
    assert "OK"[..2] == "OK";
  }

  // ---- Listings cut off by the end of the connection ------------------------------------------------------

  lemma {:induction false} StrippedEnded(bodies: seq<string>)
    requires forall b :: b in bodies ==> OneLine(b)
    ensures Stripped(Ended(bodies)) == bodies
  {
    if bodies != [] {
      assert bodies[0] in bodies;
      assert forall b :: b in bodies[1..] ==> b in bodies;
      StrippedEnded(bodies[1..]);
      assert bodies[0][|bodies[0]| - 1] in bodies[0];
      RStripKeepsPlain(bodies[0]);
      RStripEnds(bodies[0]);
    }
  }

  lemma {:induction false} EndedAt(bodies: seq<string>, i: nat)
    requires i < |bodies|
    ensures Ended(bodies)[i] == bodies[i] + "\r" && Ended(bodies)[..i] == Ended(bodies[..i])
  {
    if i > 0 {
      EndedAt(bodies[1..], i - 1);
      assert bodies[..i] == [bodies[0]] + bodies[1..][..i - 1];
      assert bodies[..i][1..] == bodies[1..][..i - 1];
    }
  }

  /** The pieces of a beginning of a stream: lines of the stream, and the beginning of the next one. */
  lemma PiecesOfBeginning(whole: string, n: nat)
    requires n <= |whole|
    ensures var m := |RawLines(whole[..n])|;
      && m <= |RawLines(whole)| && RawLines(whole[..n]) == RawLines(whole)[..m]
      && (m < |RawLines(whole)| ==>
            && |Residual(whole[..n])| <= |RawLines(whole)[m]|
            && Residual(whole[..n]) == RawLines(whole)[m][..|Residual(whole[..n])|])
  {
    var text, tail := whole[..n], whole[n..];
    assert whole == text + tail;
    SplitConcat(text, tail);
    SplitReassembles(text);
    var r := Residual(text) + tail;
    if RawLines(r) != [] {
      BeginningOfFirst(Residual(text), tail);
    }
  }

  lemma BeginningOfFirst(residual: string, tail: string)
    requires '\n' !in residual && '\n' in residual + tail
    ensures var line := RawLines(residual + tail)[0];
      |residual| <= |line| && residual == line[..|residual|]
  {
    var s := residual + tail;
    var p := FirstNewline(s);
    assert forall i :: 0 <= i < |residual| ==> residual[i] in residual && s[i] == residual[i];
    assert s[..p][..|residual|] == residual;
  }

  lemma RowsAreQuiet(bodies: seq<string>)
    requires forall b :: b in bodies ==> OneLine(b) && b != "END" && Short(b)
    ensures AllQuiet(Ended(bodies))
  {
    forall i | 0 <= i < |bodies|
      ensures Quiet(Ended(bodies)[i])
    {
      EndedAt(bodies, i);
      assert bodies[i] in bodies;
      BodyIsQuiet(bodies[i]);
    }
  }

  lemma BodyIsQuiet(body: string)
    requires OneLine(body) && body != "END" && Short(body)
    ensures Quiet(body + "\r")
  {
    assert body[|body| - 1] in body;
    RStripKeepsPlain(body);
    RStripEnds(body);
  }

  lemma {:induction false} EndedSnoc(bodies: seq<string>, body: string)
    ensures Ended(bodies + [body]) == Ended(bodies) + [body + "\r"]
  {
    if bodies == [] {
      assert [] + [body] == [body] && [body][1..] == [];
    } else {
      assert (bodies + [body])[1..] == bodies[1..] + [body];
      EndedSnoc(bodies[1..], body);
    }
  }

  /** The rows of a printed listing, and END, as the client's readline cuts them. */
  lemma ListingPieces(bodies: seq<string>)
    requires forall b :: b in bodies ==> OneLine(b) && b != "END" && Short(b)
    ensures var whole := Crlf(bodies + ["END"]);
      && RawLines(whole) == Ended(bodies) + ["END\r"] && Residual(whole) == ""
      && AllQuiet(Ended(bodies)) && |Ended(bodies)| == |bodies|
  {
    EndIsOneLine();
    CrlfSplits(bodies + ["END"]);
    EndedSnoc(bodies, "END");
    assert "END" + "\r" == "END\r";
    RowsAreQuiet(bodies);
  }

  lemma EndIsOneLine()
    ensures OneLine("END") && RStrip("END\r") == "END" && |"END\r"| == 4
  {
    RStripEnds("END");
    RStripKeepsPlain("END");
    assert "END" + "\r" == "END\r";
  }

  /**
   * A listing cut off by the end of the connection after n characters, m whole lines of it having
   * come.  It is taken for a listing exactly when its own END line has come, with or without its
   * line end, or when the cut leaves of a row just the letters END; the rows that follow are then
   * lost unnoticed.  Otherwise reading never ends.
   */
  lemma CutListing(bodies: seq<string>, n: nat)
    requires forall b :: b in bodies ==> OneLine(b) && b != "END" && Short(b)
    requires n <= |Crlf(bodies + ["END"])|
    ensures var text := Crlf(bodies + ["END"])[..n];
      var m := |RawLines(text)|;
      && m <= |bodies| + 1
      && ReadUntilEnd(text, true)
         == if m == |bodies| + 1 then Got(bodies)
            else if RStrip(Residual(text)) == "END" then Got(bodies[..m])
            else NeverEnds
  {
    var text := Crlf(bodies + ["END"])[..n];
    CutShape(bodies, n);
    CutEnding(bodies, text, |RawLines(text)|);
    ReadingEnds(text, true);
  }

  lemma CutShape(bodies: seq<string>, n: nat)
    requires forall b :: b in bodies ==> OneLine(b) && b != "END" && Short(b)
    requires n <= |Crlf(bodies + ["END"])|
    ensures var text := Crlf(bodies + ["END"])[..n];
      var m := |RawLines(text)|;
      && m <= |bodies| + 1 && |Ended(bodies)| == |bodies| && AllQuiet(Ended(bodies))
      && RawLines(text) == (Ended(bodies) + ["END\r"])[..m]
      && (m <= |bodies| ==> |Residual(text)| <= |(Ended(bodies) + ["END\r"])[m]|)
  {
    ListingPieces(bodies);
    PiecesOfBeginning(Crlf(bodies + ["END"]), n);
  }

  lemma CutEnding(bodies: seq<string>, text: string, m: nat)
    requires forall b :: b in bodies ==> OneLine(b)
    requires m == |RawLines(text)| <= |bodies| + 1 && |Ended(bodies)| == |bodies|
    requires RawLines(text) == (Ended(bodies) + ["END\r"])[..m] && AllQuiet(Ended(bodies))
    requires m <= |bodies| ==> |Residual(text)| <= |(Ended(bodies) + ["END\r"])[m]|
    ensures Ending(Pieces(text), true, FirstNoisy(Pieces(text)))
         == if m == |bodies| + 1 then Got(bodies)
            else if RStrip(Residual(text)) == "END" then Got(bodies[..m])
            else NeverEnds
  {
    EndIsOneLine();
    CutPieces(bodies, text, m);
    if m == |bodies| + 1 {
      assert Pieces(text)[..|bodies|] == Ended(bodies);
      assert Pieces(text)[|bodies|] == "END\r";
      StrippedEnded(bodies);
    } else {
      assert Pieces(text)[..m] == Ended(bodies)[..m];
      CutRows(bodies, m);
    }
  }

  lemma CutRows(bodies: seq<string>, m: nat)
    requires forall b :: b in bodies ==> OneLine(b)
    requires m <= |bodies|
    ensures Stripped(Ended(bodies)[..m]) == bodies[..m]
  {
    if m < |bodies| {
      EndedAt(bodies, m);
    } else {
      assert bodies[..m] == bodies && Ended(bodies)[..m] == Ended(bodies);
    }
    assert forall b :: b in bodies[..m] ==> b in bodies;
    StrippedEnded(bodies[..m]);
  }

  /** Which piece of a cut listing is the first noisy one. */
  lemma CutPieces(bodies: seq<string>, text: string, m: nat)
    requires m == |RawLines(text)| <= |bodies| + 1 && |Ended(bodies)| == |bodies|
    requires RawLines(text) == (Ended(bodies) + ["END\r"])[..m] && AllQuiet(Ended(bodies))
    requires m <= |bodies| ==> |Residual(text)| <= |(Ended(bodies) + ["END\r"])[m]|
    requires RStrip("END\r") == "END" && |"END\r"| == 4
    ensures FirstNoisy(Pieces(text))
         == if m == |bodies| + 1 then |bodies| else if RStrip(Residual(text)) == "END" then m else m + 1
    ensures m <= |bodies| ==> |Residual(text)| <= LINE_LIMIT
  {
    var pieces := Pieces(text);
    forall i | 0 <= i < m && i < |bodies|
      ensures Quiet(pieces[i])
    {
      assert pieces[i] == Ended(bodies)[i] && Ended(bodies)[i] in Ended(bodies);
    }
    if m == |bodies| + 1 {
      assert pieces[|bodies|] == "END\r";
      NoisyAt(pieces, |bodies|);
    } else {
      if m < |bodies| {
        assert Ended(bodies)[m] in Ended(bodies);
      }
      assert pieces[m] == Residual(text);
      NoisyAt(pieces, if RStrip(Residual(text)) == "END" then m else m + 1);
    }
  }

  lemma {:induction false} NoisyAt(pieces: seq<string>, n: nat)
    requires n <= |pieces| && forall i :: 0 <= i < n ==> Quiet(pieces[i])
    requires n < |pieces| ==> !Quiet(pieces[n])
    ensures FirstNoisy(pieces) == n
  {
    if n > 0 {
      assert forall i :: 0 <= i < n - 1 ==> pieces[1..][i] == pieces[i + 1];
      NoisyAt(pieces[1..], n - 1);
    }
  }

  /** A row whose beginning passes for END: the client returns an empty listing. */
  lemma CutRowPassesForEnd()
    ensures Response("KEYS", Crlf(["ENDX v -1", "END"])[..3], true) == Got("")
  {
    var text := Crlf(["ENDX v -1", "END"])[..3];
    assert Crlf(["ENDX v -1", "END"]) == "ENDX v -1" + CRLF + Crlf(["ENDX v -1", "END"][1..]);
    assert text == "END";
    EndIsOneLine();
    RStripKeepsPlain("END");
    ReadLastPiece("END", true);
    KeysWantsListing();
  }
}

/** Cutting a byte stream into command lines, in whatever pieces the stream arrives. */
module Framing {

  /** The position of the first line feed. */
  function FirstNewline(s: string): (p: nat)
    requires '\n' in s
    ensures p < |s| && s[p] == '\n' && '\n' !in s[..p]
  {
    if s[0] == '\n' then 0
    else
      assert s == [s[0]] + s[1..];
      1 + FirstNewline(s[1..])
  }

  /** The complete lines of a stream, without their line feeds. */
  function RawLines(s: string): seq<string>
    decreases |s|
  {
    if '\n' !in s then [] else [s[..FirstNewline(s)]] + RawLines(s[FirstNewline(s) + 1..])
  }

  /** What follows the last line feed. */
  function Residual(s: string): string
    decreases |s|
  {
    if '\n' !in s then s else Residual(s[FirstNewline(s) + 1..])
  }

  /** One trailing carriage return belongs to the line end. */
  function StripCr(line: string): string {
    if line != "" && line[|line| - 1] == '\r' then line[..|line| - 1] else line
  }

  function NonEmptyStripped(lines: seq<string>): seq<string> {
    if lines == [] then []
    else (if StripCr(lines[0]) == "" then [] else [StripCr(lines[0])]) + NonEmptyStripped(lines[1..])
  }

  /** The command lines of a stream: its complete lines, stripped, the empty ones left out. */
  function Commands(s: string): seq<string> {
    NonEmptyStripped(RawLines(s))
  }

  // ---- The split is the right one ----------------------------------------------------------------

  function Terminated(lines: seq<string>): string {
    if lines == [] then "" else lines[0] + "\n" + Terminated(lines[1..])
  }

  ghost predicate NewlineFree(lines: seq<string>) {
    forall l :: l in lines ==> '\n' !in l
  }

  lemma FirstNewlineUnique(s: string, p: nat)
    requires p < |s| && s[p] == '\n' && '\n' !in s[..p]
    ensures '\n' in s && FirstNewline(s) == p
  {
    var q := FirstNewline(s);
    assert forall i :: 0 <= i < p ==> s[..p][i] == s[i];
    assert forall i :: 0 <= i < q ==> s[..q][i] == s[i];
  }

  lemma CutAt(s: string, p: nat)
    requires p < |s| && s[p] == '\n'
    ensures s == s[..p] + "\n" + s[p + 1..]
  {
  }

  /** Cutting off one known line. */
  lemma ConsLine(line: string, rest: string)
    requires '\n' !in line
    ensures RawLines(line + "\n" + rest) == [line] + RawLines(rest)
    ensures Residual(line + "\n" + rest) == Residual(rest)
  {
    var s := line + "\n" + rest;
    assert s[..|line|] == line && s[|line|] == '\n' && s[|line| + 1..] == rest;
    FirstNewlineUnique(s, |line|);
  }

  /** Lines and residual put together again give the stream, and hold no stray line feed. */
  lemma {:induction false} SplitReassembles(s: string)
    ensures Terminated(RawLines(s)) + Residual(s) == s
    ensures NewlineFree(RawLines(s)) && '\n' !in Residual(s)
    decreases |s|
  {
    if '\n' in s {
      var p := FirstNewline(s);
      var line, rest := s[..p], s[p + 1..];
      SplitReassembles(rest);
      CutAt(s, p);
      ConsLine(line, rest);
      assert RawLines(s)[1..] == RawLines(rest);
      Associative(line + "\n", Terminated(RawLines(rest)), Residual(rest));
    }
  }

  lemma Associative(a: string, b: string, c: string)
    ensures (a + b) + c == a + (b + c)
  {
  }

  /** And no other way of cutting has that property. */
  lemma {:induction false} SplitIsUnique(lines: seq<string>, rest: string)
    requires NewlineFree(lines) && '\n' !in rest
    ensures RawLines(Terminated(lines) + rest) == lines && Residual(Terminated(lines) + rest) == rest
  {
    if lines == [] {
      assert Terminated(lines) + rest == rest;
    } else {
      assert lines[0] in lines;
      assert forall l :: l in lines[1..] ==> l in lines;
      SplitIsUnique(lines[1..], rest);
      Associative(lines[0] + "\n", Terminated(lines[1..]), rest);
      ConsLine(lines[0], Terminated(lines[1..]) + rest);
      assert lines == [lines[0]] + lines[1..];
    }
  }

  /** The first line of a stream ends in CR LF or in LF alone; an empty one is no command. */
  lemma FirstOfStream(line: string, rest: string)
    requires '\n' !in line
    ensures Commands(line + "\r\n" + rest) == (if line == "" then [] else [line]) + Commands(rest)
    ensures line == "" || line[|line| - 1] != '\r' ==>
      Commands(line + "\n" + rest) == (if line == "" then [] else [line]) + Commands(rest)
  {
    ConsLine(line, rest);
    ConsLine(line + "\r", rest);
    assert line + "\r\n" + rest == line + "\r" + "\n" + rest;
    assert (line + "\r")[..|line|] == line;
    StrippedFirst(line, RawLines(rest));
    StrippedFirst(line + "\r", RawLines(rest));
  }

  lemma StrippedFirst(line: string, lines: seq<string>)
    ensures NonEmptyStripped([line] + lines)
         == (if StripCr(line) == "" then [] else [StripCr(line)]) + NonEmptyStripped(lines)
  {
    assert ([line] + lines)[1..] == lines;
  }

  // ---- Chunking ----------------------------------------------------------------------------------

  lemma {:induction false} TerminatedConcat(a: seq<string>, b: seq<string>)
    ensures Terminated(a + b) == Terminated(a) + Terminated(b)
  {
    if a == [] {
      assert a + b == b;
    } else {
      assert (a + b)[1..] == a[1..] + b;
      TerminatedConcat(a[1..], b);
    }
  }

  lemma {:induction false} StrippedConcat(a: seq<string>, b: seq<string>)
    ensures NonEmptyStripped(a + b) == NonEmptyStripped(a) + NonEmptyStripped(b)
  {
    if a == [] {
      assert a + b == b;
    } else {
      assert (a + b)[1..] == a[1..] + b;
      StrippedConcat(a[1..], b);
    }
  }

  /** The residual is all that needs remembering between two pieces of a stream. */
  lemma SplitConcat(a: string, b: string)
    ensures RawLines(a + b) == RawLines(a) + RawLines(Residual(a) + b)
    ensures Residual(a + b) == Residual(Residual(a) + b)
    ensures Commands(a + b) == Commands(a) + Commands(Residual(a) + b)
  {
    var rest := Residual(a) + b;
    var lines := RawLines(a) + RawLines(rest);
    SplitReassembles(a);
    SplitReassembles(rest);
    TerminatedConcat(RawLines(a), RawLines(rest));
    Associative(Terminated(RawLines(a)), Residual(a), b);
    Associative(Terminated(RawLines(a)), Terminated(RawLines(rest)), Residual(rest));
    SplitIsUnique(lines, Residual(rest));
    StrippedConcat(RawLines(a), RawLines(rest));
  }

  function Concat(chunks: seq<string>): string {
    if chunks == [] then "" else Concat(chunks[..|chunks| - 1]) + chunks[|chunks| - 1]
  }

  /** Feeding chunks one after the other to a buffer: the lines dispatched, and the buffer left. */
  function Feed(chunks: seq<string>): (seq<string>, string) {
    if chunks == [] then ([], "")
    else
      var (lines, buffer) := Feed(chunks[..|chunks| - 1]);
      var stream := buffer + chunks[|chunks| - 1];
      (lines + Commands(stream), Residual(stream))
  }

  /** Chunking invariance: however a stream is cut up, the same lines are dispatched in the same order. */
  lemma {:induction false} ChunkingInvariance(chunks: seq<string>)
    ensures Feed(chunks) == (Commands(Concat(chunks)), Residual(Concat(chunks)))
  {
    if chunks != [] {
      var n := |chunks| - 1;
      ChunkingInvariance(chunks[..n]);
      SplitConcat(Concat(chunks[..n]), chunks[n]);
    }
  }
}

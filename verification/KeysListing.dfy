/** The client's parser for the KEYS listing, and exactly when it recovers what the server printed. */
module KeysListing {
  import opened CacheModel
  import opened StoreModel
  import opened Text
  import opened Protocol
  import opened Client

  /**
   * The characters at which str.splitlines cuts, in the text that the client has decoded.  Those from
   * U+0085 on are single characters only there; on the wire they are several bytes, none of which
   * the server takes for whitespace or a line end.
   */
  predicate IsBreak(c: char) {
    c == '\n' || c == '\r' || c == '\U{0B}' || c == '\U{0C}' || c == '\U{1C}' || c == '\U{1D}' || c == '\U{1E}'
    || c == '\U{85}' || c == '\U{2028}' || c == '\U{2029}'
  }

  predicate Unbroken(s: string) {
    forall c :: c in s ==> !IsBreak(c)
  }

  function FirstBreak(s: string): (n: nat)
    ensures n <= |s| && (n < |s| ==> IsBreak(s[n]))
    ensures forall i :: 0 <= i < n ==> !IsBreak(s[i])
  {
    if s == "" || IsBreak(s[0]) then 0 else 1 + FirstBreak(s[1..])
  }

  /** str.splitlines: a carriage return with its line feed is one cut, and no empty last line is made. */
  function SplitLines(s: string): seq<string>
    decreases |s|
  {
    if s == "" then []
    else
      var p := FirstBreak(s);
      if p == |s| then [s]
      else
        var after := if s[p] == '\r' && p + 1 < |s| && s[p + 1] == '\n' then p + 2 else p + 1;
        [s[..p]] + SplitLines(s[after..])
  }

  function UpToSpace(s: string): (n: nat)
    ensures n <= |s| && (n < |s| ==> s[n] == ' ')
    ensures forall i :: 0 <= i < n ==> s[i] != ' '
  {
    if s == "" || s[0] == ' ' then 0 else 1 + UpToSpace(s[1..])
  }

  /** line.split(" ", 2) */
  function SplitTwice(line: string): (parts: seq<string>)
    ensures 1 <= |parts| <= 3
  {
    var p := UpToSpace(line);
    if p == |line| then [line]
    else
      var rest := line[p + 1..];
      var q := UpToSpace(rest);
      if q == |rest| then [line[..p], rest] else [line[..p], rest[..q], rest[q + 1..]]
  }

  /** int() on an optional minus sign and decimal digits; anything else raises. */
  function PyInt(s: string): Option<int> {
    var digits := if s != "" && s[0] == '-' then s[1..] else s;
    if digits == "" || exists c :: c in digits && !IsDigit(c) then None
    else Some((if s[0] == '-' then -1 else 1) * ValueOf(digits))
  }

  datatype Item = Item(key: string, value: string, ttlRemaining: Option<int>)

  /** One line of a listing; lines with fewer than two fields are skipped. */
  function ItemOf(line: string): Option<Item> {
    ItemOfParts(SplitTwice(line))
  }

  function ItemOfParts(parts: seq<string>): Option<Item>
    requires |parts| > 0
  {
    if |parts| < 2 then None
    else
      var ttl := PyInt(if |parts| > 2 then parts[2] else "-1");
      Some(Item(parts[0], parts[1], if ttl.None? || ttl.value < 0 then None else ttl))
  }

  function Items(lines: seq<string>): seq<Item> {
    if lines == [] then []
    else Items(lines[..|lines| - 1]) + AsSeq(ItemOf(lines[|lines| - 1]))
  }

  function AsSeq(item: Option<Item>): seq<Item> {
    if item.Some? then [item.value] else []
  }

  lemma ItemsOneMore(lines: seq<string>, i: nat)
    requires i < |lines|
    ensures Items(lines[..i + 1]) == Items(lines[..i]) + AsSeq(ItemOf(lines[i]))
  {
    assert lines[..i + 1][..i] == lines[..i];
  }

  /** The parsing part of list_keys. */
  method ListKeys(response: string) returns (items: seq<Item>)
    ensures items == Items(SplitLines(response))
  {
    var lines := SplitLines(response);
    items := [];
    for i := 0 to |lines|
      invariant items == Items(lines[..i])
    {
      ItemsOneMore(lines, i);
      var item := ItemOf(lines[i]);
      if item.Some? {
        items := items + [item.value];
      }
    }
    assert lines[..|lines|] == lines;
  }

  // ---- Splitting -------------------------------------------------------------------------------------

  lemma {:induction false} FirstBreakOf(line: string, rest: string)
    requires Unbroken(line) && (rest == "" || IsBreak(rest[0]))
    ensures FirstBreak(line + rest) == |line|
  {
    if line == "" {
      assert line + rest == rest;
    } else {
      assert line[0] in line;
      assert forall c :: c in line[1..] ==> c in line;
      assert (line + rest)[1..] == line[1..] + rest;
      FirstBreakOf(line[1..], rest);
    }
  }

  /**
   * splitlines cuts at each of these characters, given by their code points, also right behind another
   * cut; and takes a carriage return with its line feed for one.
   */
  lemma CutAtBreak(line: string, c: char, rest: string)
    requires Unbroken(line)
    requires || 10 <= c as int <= 13 || 28 <= c as int <= 30 || c as int == 0x85 || c as int == 0x2028 || c as int == 0x2029
    requires c == '\r' ==> rest == "" || rest[0] != '\n'
    ensures SplitLines(line + [c] + rest) == [line] + SplitLines(rest)
    ensures SplitLines(line + "\r\n" + rest) == [line] + SplitLines(rest)
  {
    assert IsBreak(c);
    CutOnce(line, [c], rest);
    CutOnce(line, "\r\n", rest);
  }

  lemma CutOnce(line: string, cut: string, rest: string)
    requires Unbroken(line)
    requires cut == "\r\n" || (|cut| == 1 && IsBreak(cut[0]) && (cut[0] == '\r' ==> rest == "" || rest[0] != '\n'))
    ensures SplitLines(line + cut + rest) == [line] + SplitLines(rest)
  {
    var s := line + cut + rest;
    assert s == line + (cut + rest);
    FirstBreakOf(line, cut + rest);
    assert s[..|line|] == line && s[|line|] == cut[0] && s[|line| + |cut|..] == rest;
    assert |cut| == 1 && rest != "" ==> s[|line| + 1] == rest[0];
  }

  lemma SplitOne(line: string)
    requires line != "" && Unbroken(line)
    ensures SplitLines(line) == [line]
  {
    FirstBreakOf(line, "");
    assert line + "" == line;
  }

  /** Splitting undoes joining when no line is empty or has a cut inside. */
  lemma {:induction false} SplitOfJoin(lines: seq<string>)
    requires forall l :: l in lines ==> l != "" && Unbroken(l)
    ensures SplitLines(Join(lines)) == lines
  {
    if lines != [] {
      assert lines[0] in lines;
      assert forall l :: l in lines[1..] ==> l in lines;
      assert lines == [lines[0]] + lines[1..];
      if |lines| == 1 {
        SplitOne(lines[0]);
      } else {
        SplitOfJoin(lines[1..]);
        CutOnce(lines[0], "\n", Join(lines[1..]));
      }
    }
  }

  /** No line that splitlines returns has a cut inside. */
  lemma {:induction false} SplitIsUnbroken(s: string)
    ensures forall l :: l in SplitLines(s) ==> Unbroken(l)
    decreases |s|
  {
    if s != "" {
      var p := FirstBreak(s);
      if p == |s| {
        assert s[..p] == s;
      } else {
        SplitIsUnbroken(s[if s[p] == '\r' && p + 1 < |s| && s[p + 1] == '\n' then p + 2 else p + 1..]);
      }
    }
  }

  ghost predicate UnbrokenItems(items: seq<Item>) {
    forall i :: i in items ==> Unbroken(i.key) && Unbroken(i.value)
  }

  lemma ItemIsUnbroken(line: string)
    requires Unbroken(line)
    ensures UnbrokenItems(AsSeq(ItemOf(line)))
  {
    var p := UpToSpace(line);
    if p < |line| {
      assert forall c :: c in line[..p] ==> c in line;
      var rest := line[p + 1..];
      assert forall c :: c in rest ==> c in line;
      assert forall c :: c in rest[..UpToSpace(rest)] ==> c in rest;
    }
  }

  lemma {:induction false} ItemsAreUnbroken(lines: seq<string>)
    requires forall l :: l in lines ==> Unbroken(l)
    ensures UnbrokenItems(Items(lines))
  {
    if lines != [] {
      var n := |lines| - 1;
      assert lines[n] in lines;
      assert forall l :: l in lines[..n] ==> l in lines;
      ItemsAreUnbroken(lines[..n]);
      ItemIsUnbroken(lines[n]);
      ItemsOneMore(lines, n);
      assert lines[..n + 1] == lines;
    }
  }

  /**
   * Any other line that a response may hold: without a space it is skipped; with one space only, or
   * with a third field that is no number or a negative one, the item has no TTL.
   */
  lemma OtherLines(key: string, value: string, rest: string)
    requires ' ' !in key && ' ' !in value
    ensures ItemOf(key) == None
    ensures ItemOf(key + " " + value) == Some(Item(key, value, None))
    ensures PyInt(rest) == None || PyInt(rest).value < 0 ==>
      ItemOf(key + " " + value + " " + rest) == Some(Item(key, value, None))
    ensures PyInt(rest).Some? && PyInt(rest).value >= 0 ==>
      ItemOf(key + " " + value + " " + rest) == Some(Item(key, value, PyInt(rest)))
  {
    OneField(key);
    TwoFields(key, value);
    ThreeFields(key, value, rest);
    assert PyInt("-1") == Some(-1) by {
      TtlTextIsRead(None);
    }
  }

  lemma OneField(key: string)
    requires ' ' !in key
    ensures SplitTwice(key) == [key]
  {
    UpToSpaceOf(key, "");
    assert key + "" == key;
  }

  lemma TwoFields(key: string, value: string)
    requires ' ' !in key && ' ' !in value
    ensures SplitTwice(key + " " + value) == [key, value]
  {
    var line := key + " " + value;
    assert line == key + (" " + value);
    UpToSpaceOf(key, " " + value);
    assert line[..|key|] == key && line[|key| + 1..] == value;
    UpToSpaceOf(value, "");
    assert value + "" == value;
  }

  /** Digits are a number, and with a minus sign a negative one; the empty text and a letter are none. */
  lemma SomeFields()
    ensures PyInt("120") == Some(120) && PyInt("-5") == Some(-5) && PyInt("") == None && PyInt("x") == None
  {
    SmallNumbers();
    assert "-5"[1..] == "5" && ValueOf("5") == 5;
    assert 'x' in "x" && !IsDigit('x') && "x"[0] != '-';
    assert forall c :: c in "120" ==> IsDigit(c);
  }

  // ---- Printed rows ------------------------------------------------------------------------------------

  lemma {:induction false} UpToSpaceOf(word: string, rest: string)
    requires ' ' !in word && (rest == "" || rest[0] == ' ')
    ensures UpToSpace(word + rest) == |word|
  {
    if word == "" {
      assert word + rest == rest;
    } else {
      assert word[0] in word;
      assert forall c :: c in word[1..] ==> c in word;
      assert (word + rest)[1..] == word[1..] + rest;
      UpToSpaceOf(word[1..], rest);
    }
  }

  lemma TtlTextIsRead(ttl: Option<nat>)
    ensures IsWord(TtlText(ttl)) && Unbroken(TtlText(ttl))
    ensures PyInt(TtlText(ttl)) == Some(if ttl.None? then -1 else ttl.value)
  {
    if ttl.Some? {
      DigitsAreWords(ttl.value);
      ValueOfDigits(ttl.value);
      assert Digits(ttl.value)[0] in Digits(ttl.value);
    } else {
      assert "-1"[1..] == "1";
      assert ValueOf("1") == 1;
    }
  }

  lemma ThreeFields(key: string, value: string, ttl: string)
    requires ' ' !in key && ' ' !in value
    ensures SplitTwice(key + " " + value + " " + ttl) == [key, value, ttl]
  {
    var line, rest := key + " " + value + " " + ttl, value + " " + ttl;
    assert line == key + (" " + rest);
    UpToSpaceOf(key, " " + rest);
    assert line[..|key|] == key && line[|key| + 1..] == rest;
    assert rest == value + (" " + ttl);
    UpToSpaceOf(value, " " + ttl);
    assert rest[..|value|] == value && rest[|value| + 1..] == ttl;
  }

  function Expected(l: KeyLine): Item {
    Item(l.key, l.value, l.ttl)
  }

  lemma RowIsRead(l: KeyLine)
    requires IsWord(l.key) && IsWord(l.value)
    ensures ItemOf(KeyLineBody(l)) == Some(Expected(l))
  {
    TtlTextIsRead(l.ttl);
    ThreeFields(l.key, l.value, TtlText(l.ttl));
    RowParts(l);
  }

  lemma RowParts(l: KeyLine)
    ensures ItemOfParts([l.key, l.value, TtlText(l.ttl)]) == Some(Expected(l))
  {
    TtlTextIsRead(l.ttl);
  }

  lemma RowIsUnbroken(l: KeyLine)
    requires Unbroken(l.key) && Unbroken(l.value)
    ensures KeyLineBody(l) != "" && Unbroken(KeyLineBody(l))
  {
    TtlTextIsRead(l.ttl);
  }

  function ExpectedItems(lines: seq<KeyLine>): (r: seq<Item>)
    ensures |r| == |lines| && forall i :: 0 <= i < |r| ==> r[i] == Expected(lines[i])
  {
    seq(|lines|, i requires 0 <= i < |lines| => Expected(lines[i]))
  }

  lemma SnocRows(lines: seq<KeyLine>)
    requires lines != []
    ensures var n := |lines| - 1;
      && KeyBodies(lines) == KeyBodies(lines[..n]) + [KeyLineBody(lines[n])]
      && ExpectedItems(lines) == ExpectedItems(lines[..n]) + [Expected(lines[n])]
  {
  }

  lemma {:induction false} RowsAreRead(lines: seq<KeyLine>)
    requires WordRows(lines)
    ensures Items(KeyBodies(lines)) == ExpectedItems(lines)
  {
    if lines != [] {
      var n := |lines| - 1;
      assert lines[n] in lines;
      assert forall l :: l in lines[..n] ==> l in lines;
      RowsAreRead(lines[..n]);
      SnocRows(lines);
      RowIsRead(lines[n]);
      assert KeyBodies(lines)[..n] == KeyBodies(lines[..n]);
    }
  }

  ghost predicate WordRows(lines: seq<KeyLine>) {
    forall l :: l in lines ==> IsWord(l.key) && IsWord(l.value)
  }

  ghost predicate UnbrokenRows(lines: seq<KeyLine>) {
    forall l :: l in lines ==> Unbroken(l.key) && Unbroken(l.value)
  }

  lemma RowIsNotEnd(l: KeyLine)
    requires IsWord(l.key) && IsWord(l.value)
    ensures OneLine(KeyLineBody(l)) && KeyLineBody(l) != "END"
  {
    KeyLineIsOneLine(l);
    assert KeyLineBody(l)[|l.key|] == ' ';
    assert ' ' !in "END";
  }

  lemma RowsAreNotEnd(lines: seq<KeyLine>)
    requires WordRows(lines)
    ensures forall b :: b in KeyBodies(lines) ==> OneLine(b) && b != "END"
  {
    forall i | 0 <= i < |lines|
      ensures OneLine(KeyBodies(lines)[i]) && KeyBodies(lines)[i] != "END"
    {
      assert lines[i] in lines;
      RowIsNotEnd(lines[i]);
    }
  }

  /**
   * The client reads a printed listing up to its END line, whatever else is on the stream, unless
   * a row is too long for it.
   */
  lemma ListingIsReceived(lines: seq<KeyLine>, rest: string, closed: bool)
    requires WordRows(lines)
    ensures Response("KEYS", Crlf(Bodies(KeysDone(lines))) + rest, closed)
         == if AllShort(KeyBodies(lines)) then Got(Join(KeyBodies(lines))) else TooLong
  {
    RowsAreNotEnd(lines);
    ReadStopsAtEnd(KeyBodies(lines), rest, closed);
    KeysWantsListing();
  }

  /**
   * The round trip of a listing.  The parser recovers the printed rows, each once and in order,
   * exactly when no key or value contains a character at which splitlines cuts.
   */
  lemma ListingRoundTrip(lines: seq<KeyLine>)
    requires WordRows(lines)
    ensures Items(SplitLines(Join(KeyBodies(lines)))) == ExpectedItems(lines) <==> UnbrokenRows(lines)
  {
    var items := Items(SplitLines(Join(KeyBodies(lines))));
    if UnbrokenRows(lines) {
      forall b | b in KeyBodies(lines)
        ensures b != "" && Unbroken(b)
      {
        var i :| 0 <= i < |lines| && KeyBodies(lines)[i] == b;
        assert lines[i] in lines;
        RowIsUnbroken(lines[i]);
      }
      SplitOfJoin(KeyBodies(lines));
      RowsAreRead(lines);
    }
    if items == ExpectedItems(lines) {
      SplitIsUnbroken(Join(KeyBodies(lines)));
      ItemsAreUnbroken(SplitLines(Join(KeyBodies(lines))));
      forall l | l in lines
        ensures Unbroken(l.key) && Unbroken(l.value)
      {
        var i :| 0 <= i < |lines| && lines[i] == l;
        assert ExpectedItems(lines)[i] in items;
      }
    }
  }

  /** What holds a cut is never among the items of any listing. */
  lemma BrokenIsNeverListed(response: string, item: Item)
    requires item in Items(SplitLines(response))
    ensures Unbroken(item.key) && Unbroken(item.value)
  {
    SplitIsUnbroken(response);
    ItemsAreUnbroken(SplitLines(response));
  }

  /** In particular printable ASCII words always survive. */
  lemma PrintableIsUnbroken(s: string)
    requires forall c :: c in s ==> '!' <= c <= '~'
    ensures Unbroken(s)
  {
  }
}

/** Words, whitespace and decimal numbers, as the server's standard library treats them. */
module Text {
  import opened CacheModel
  import Framing

  /** isspace in the C locale. */
  predicate IsSpace(c: char) {
    c == ' ' || c == '\t' || c == '\n' || c == '\U{0B}' || c == '\U{0C}' || c == '\r'
  }

  predicate IsWord(s: string) {
    s != "" && forall c :: c in s ==> !IsSpace(c)
  }

  // ---- Tokens --------------------------------------------------------------------------------------

  function Spaces(s: string): (n: nat)
    ensures n <= |s| && (n < |s| ==> !IsSpace(s[n]))
    ensures forall i :: 0 <= i < n ==> IsSpace(s[i])
  {
    if s != "" && IsSpace(s[0]) then 1 + Spaces(s[1..]) else 0
  }

  function WordLength(s: string): (n: nat)
    ensures n <= |s| && (n < |s| ==> IsSpace(s[n]))
    ensures forall i :: 0 <= i < n ==> !IsSpace(s[i])
    ensures s != "" && !IsSpace(s[0]) ==> n > 0
  {
    if s != "" && !IsSpace(s[0]) then 1 + WordLength(s[1..]) else 0
  }

  /** The maximal runs of non-space characters. */
  function Tokens(s: string): seq<string>
    decreases |s|
  {
    var r := s[Spaces(s)..];
    if r == "" then []
    else
      var n := WordLength(r);
      [r[..n]] + Tokens(r[n..])
  }

  lemma {:induction false} TokensAreWords(s: string)
    ensures forall t :: t in Tokens(s) ==> IsWord(t)
    decreases |s|
  {
    var r := s[Spaces(s)..];
    if r != "" {
      TokensAreWords(r[WordLength(r)..]);
    }
  }

  lemma {:induction false} WordLengthOf(word: string, rest: string)
    requires forall c :: c in word ==> !IsSpace(c)
    requires rest == "" || IsSpace(rest[0])
    ensures WordLength(word + rest) == |word|
  {
    if word != "" {
      assert word[0] in word;
      assert forall c :: c in word[1..] ==> c in word;
      assert (word + rest)[1..] == word[1..] + rest;
      WordLengthOf(word[1..], rest);
    } else {
      assert word + rest == rest;
    }
  }

  /** Words joined by single spaces. */
  function Spaced(words: seq<string>): string {
    if words == [] then ""
    else if |words| == 1 then words[0]
    else words[0] + " " + Spaced(words[1..])
  }

  lemma TokensOfWordThen(word: string, rest: string)
    requires IsWord(word) && (rest == "" || IsSpace(rest[0]))
    ensures Tokens(word + rest) == [word] + Tokens(rest)
  {
    var s := word + rest;
    assert s[0] in word;
    WordLengthOf(word, rest);
    assert s[..|word|] == word && s[|word|..] == rest && s[0..] == s;
  }

  lemma TokensOfCons(word: string, rest: string)
    requires IsWord(word)
    ensures Tokens(word + " " + rest) == [word] + Tokens(rest)
  {
    assert word + " " + rest == word + (" " + rest);
    TokensSkipChar(' ', rest);
    TokensOfWordThen(word, " " + rest);
  }

  /** Tokenizing undoes joining, for any words. */
  lemma {:induction false} TokensOfSpaced(words: seq<string>)
    requires forall w :: w in words ==> IsWord(w)
    ensures Tokens(Spaced(words)) == words
  {
    if words != [] {
      assert words[0] in words;
      assert forall w :: w in words[1..] ==> w in words;
      if |words| == 1 {
        assert words[0] + "" == words[0] && words == [words[0]];
        TokensOfWordThen(words[0], "");
      } else {
        TokensOfSpaced(words[1..]);
        TokensOfCons(words[0], Spaced(words[1..]));
      }
    }
  }

  // ---- Tokens are the only way to see a string as words between whitespace ----------------------------

  predicate AllSpace(s: string) {
    forall c :: c in s ==> IsSpace(c)
  }

  /** Words with a gap before, between and after them. */
  function Padded(gaps: seq<string>, words: seq<string>): string
    requires |gaps| == |words| + 1
    decreases |words|
  {
    if words == [] then gaps[0] else gaps[0] + (words[0] + Padded(gaps[1..], words[1..]))
  }

  /** Gaps are whitespace, and two words never touch. */
  ghost predicate Separates(gaps: seq<string>, words: seq<string>) {
    && |gaps| == |words| + 1
    && (forall g :: g in gaps ==> AllSpace(g))
    && (forall i :: 0 < i < |words| ==> gaps[i] != "")
  }

  lemma {:induction false} TokensSkipGap(gap: string, s: string)
    requires AllSpace(gap)
    ensures Tokens(gap + s) == Tokens(s)
  {
    if gap == "" {
      assert gap + s == s;
    } else {
      assert gap[0] in gap;
      assert forall c :: c in gap[1..] ==> c in gap;
      TokensSkipGap(gap[1..], s);
      TokensSkipChar(gap[0], gap[1..] + s);
      Framing.Associative([gap[0]], gap[1..], s);
      assert [gap[0]] + gap[1..] == gap;
    }
  }

  lemma TokensSkipChar(c: char, s: string)
    requires IsSpace(c)
    ensures Tokens([c] + s) == Tokens(s)
  {
    assert ([c] + s)[1..] == s;
    assert ([c] + s)[Spaces([c] + s)..] == s[Spaces(s)..];
  }

  lemma SeparatesTail(gaps: seq<string>, words: seq<string>)
    requires Separates(gaps, words) && words != []
    ensures Separates(gaps[1..], words[1..])
    ensures var rest := Padded(gaps[1..], words[1..]); rest == "" || IsSpace(rest[0])
  {
    assert forall g :: g in gaps[1..] ==> g in gaps;
    assert gaps[1] in gaps;
    if gaps[1] != "" {
      assert gaps[1][0] in gaps[1];
    }
  }

  /** However words are separated, tokenizing finds exactly them. */
  lemma {:induction false} TokensOfPadded(gaps: seq<string>, words: seq<string>)
    requires Separates(gaps, words) && forall w :: w in words ==> IsWord(w)
    ensures Tokens(Padded(gaps, words)) == words
    decreases |words|
  {
    assert gaps[0] in gaps;
    if words == [] {
      TokensSkipGap(gaps[0], "");
      assert gaps[0] + "" == gaps[0];
    } else {
      var rest := Padded(gaps[1..], words[1..]);
      assert words[0] in words;
      assert forall w :: w in words[1..] ==> w in words;
      SeparatesTail(gaps, words);
      TokensOfPadded(gaps[1..], words[1..]);
      TokensOfWordThen(words[0], rest);
      TokensSkipGap(gaps[0], words[0] + rest);
    }
  }

  lemma SeparatesCons(gap: string, word: string, gaps: seq<string>, words: seq<string>)
    requires AllSpace(gap) && Separates(gaps, words)
    requires words != [] ==> gaps[0] != ""
    ensures Separates([gap] + gaps, [word] + words)
    ensures Padded([gap] + gaps, [word] + words) == gap + (word + Padded(gaps, words))
  {
    assert ([gap] + gaps)[1..] == gaps && ([word] + words)[1..] == words;
  }

  lemma PaddedStart(gaps: seq<string>, words: seq<string>)
    requires |gaps| == |words| + 1 && words != [] && words[0] != ""
    ensures var s := Padded(gaps, words);
      s != "" && s[0] == if gaps[0] == "" then words[0][0] else gaps[0][0]
  {
  }

  lemma FirstGap(gaps: seq<string>, words: seq<string>)
    requires Separates(gaps, words) && words != [] && IsWord(words[0])
    requires Padded(gaps, words) == "" || IsSpace(Padded(gaps, words)[0])
    ensures gaps[0] != ""
  {
    PaddedStart(gaps, words);
    assert words[0][0] in words[0];
  }

  lemma CutThree(s: string, n: nat, m: nat)
    requires n <= |s| && m <= |s[n..]|
    ensures s == s[..n] + (s[n..][..m] + s[n..][m..])
  {
  }

  lemma WordBeforeGap(gap: string, word: string, rest: string, c: char, b: string)
    requires AllSpace(gap) && IsWord(word) && (rest == "" || IsSpace(rest[0])) && IsSpace(c)
    ensures Tokens(gap + (word + (rest + [c] + b))) == [word] + Tokens(rest + [c] + b)
  {
    assert (rest + [c] + b)[0] == if rest == "" then c else rest[0];
    TokensOfWordThen(word, rest + [c] + b);
    TokensSkipGap(gap, word + (rest + [c] + b));
  }

  lemma TokensUnfold(s: string)
    ensures var r := s[Spaces(s)..];
      Tokens(s) == if r == "" then [] else [r[..WordLength(r)]] + Tokens(r[WordLength(r)..])
  {
  }

  /** Cutting a string at a space, or at one of the controls from tab to carriage return, cuts no word. */
  lemma TokensJoin(a: string, c: char, b: string)
    requires c as int == 32 || 9 <= c as int <= 13
    ensures Tokens(a + [c] + b) == Tokens(a) + Tokens(b)
  {
    TokensAround(a, c, b);
  }

  /** What holds no such character is one word. */
  lemma TokensOfWord(word: string)
    requires word != "" && forall c :: c in word ==> c as int != 32 && !(9 <= c as int <= 13)
    ensures Tokens(word) == [word]
  {
    TokensOfWordThen(word, "");
    assert word + "" == word && [word] + [] == [word];
  }

  lemma {:induction false} TokensAround(a: string, c: char, b: string)
    requires IsSpace(c)
    ensures Tokens(a + [c] + b) == Tokens(a) + Tokens(b)
    decreases |a|
  {
    var n := Spaces(a);
    if n == |a| {
      TokensJoinGap(a, c, b);
    } else {
      var m := WordLength(a[n..]);
      var gap, word, rest := a[..n], a[n..][..m], a[n..][m..];
      TokensAround(rest, c, b);
      CutThree(a, n, m);
      TokensJoinWord(a, gap, word, rest, c, b);
    }
  }

  lemma TokensJoinGap(gap: string, c: char, b: string)
    requires AllSpace(gap) && IsSpace(c)
    ensures Tokens(gap + [c] + b) == Tokens(gap) + Tokens(b)
  {
    assert AllSpace(gap + [c]);
    TokensSkipGap(gap + [c], b);
    NoWords(gap);
    RegroupNothing(Tokens(b));
  }

  lemma NoWords(gap: string)
    requires AllSpace(gap)
    ensures Tokens(gap) == []
  {
    TokensSkipGap(gap, "");
    assert gap + "" == gap;
  }

  lemma RegroupNothing(words: seq<string>)
    ensures [] + words == words
  {
  }

  lemma TokensJoinWord(a: string, gap: string, word: string, rest: string, c: char, b: string)
    requires a == gap + (word + rest) && AllSpace(gap) && IsWord(word) && (rest == "" || IsSpace(rest[0])) && IsSpace(c)
    requires Tokens(rest + [c] + b) == Tokens(rest) + Tokens(b)
    ensures Tokens(a + [c] + b) == Tokens(a) + Tokens(b)
  {
    TokensSkipGap(gap, word + rest);
    TokensOfWordThen(word, rest);
    WordBeforeGap(gap, word, rest, c, b);
    RegroupText(gap, word, rest, [c], b);
    RegroupWords(word, Tokens(rest), Tokens(b));
  }

  lemma RegroupText(gap: string, word: string, rest: string, c: string, b: string)
    ensures gap + (word + rest) + c + b == gap + (word + (rest + c + b))
  {
  }

  lemma RegroupWords(word: string, a: seq<string>, b: seq<string>)
    ensures [word] + (a + b) == ([word] + a) + b
  {
  }

  /** And every string is its tokens with some gaps around them. */
  lemma {:induction false} TokensCover(s: string) returns (gaps: seq<string>)
    ensures Separates(gaps, Tokens(s)) && s == Padded(gaps, Tokens(s))
    decreases |s|
  {
    var n := Spaces(s);
    var r := s[n..];
    TokensUnfold(s);
    if r == "" {
      gaps := [s];
    } else {
      var m := WordLength(r);
      var words := Tokens(r[m..]);
      gaps := TokensCover(r[m..]);
      TokensAreWords(r[m..]);
      if words != [] {
        FirstGap(gaps, words);
      }
      CutThree(s, n, m);
      SeparatesCons(s[..n], r[..m], gaps, words);
      gaps := [s[..n]] + gaps;
    }
  }

  // ---- Numbers -------------------------------------------------------------------------------------

  predicate IsDigit(c: char) {
    '0' <= c <= '9'
  }

  function DigitChar(d: nat): (c: char)
    requires d < 10
    ensures IsDigit(c) && DigitValue(c) == d
  {
    '0' + d as char
  }

  function DigitValue(c: char): nat
    requires IsDigit(c)
  {
    (c - '0') as nat
  }

  /** Decimal digits without leading zeros. */
  function Digits(n: nat): (s: string)
    ensures s != "" && forall c :: c in s ==> IsDigit(c)
  {
    if n < 10 then [DigitChar(n)] else Digits(n / 10) + [DigitChar(n % 10)]
  }

  function Power10(k: nat): nat {
    if k == 0 then 1 else 10 * Power10(k - 1)
  }

  lemma {:induction false} DigitsFit(n: nat, k: nat)
    requires k > 0 && n < Power10(k)
    ensures |Digits(n)| <= k
  {
    if n >= 10 {
      DigitsFit(n / 10, k - 1);
    }
  }

  lemma DigitsLength(n: nat, k: nat)
    requires k == 20 && n < 0x1_0000_0000_0000_0000
    ensures |Digits(n)| <= k
  {
    assert Power10(5) == 100_000;
    assert Power10(10) == 100_000 * Power10(5);
    assert Power10(15) == 100_000 * Power10(10);
    assert Power10(20) == 100_000 * Power10(15);
    DigitsFit(n, 20);
  }

  function ValueOf(digits: string): nat
    requires forall c :: c in digits ==> IsDigit(c)
  {
    if digits == "" then 0
    else ValueOf(digits[..|digits| - 1]) * 10 + DigitValue(digits[|digits| - 1])
  }

  lemma {:induction false} ValueOfDigits(n: nat)
    ensures ValueOf(Digits(n)) == n
  {
    var s := Digits(n);
    if n < 10 {
      assert s[..0] == "";
    } else {
      assert s[..|s| - 1] == Digits(n / 10);
      ValueOfDigits(n / 10);
    }
  }

  function IntText(n: int): string {
    if n < 0 then "-" + Digits(-n) else Digits(n)
  }

  function LeadingDigits(s: string): (n: nat)
    ensures n <= |s| && (n < |s| ==> !IsDigit(s[n]))
    ensures forall i :: 0 <= i < n ==> IsDigit(s[i])
  {
    if s != "" && IsDigit(s[0]) then 1 + LeadingDigits(s[1..]) else 0
  }

  /**
   * std::stoll on a word: an optional sign, then as many digits as there are.  No digits, or a
   * value out of range, is an exception; whatever follows the digits is ignored.
   */
  function Stoll(s: string): Option<int> {
    var negative := s != "" && s[0] == '-';
    var body := if s != "" && (s[0] == '-' || s[0] == '+') then s[1..] else s;
    var digits := body[..LeadingDigits(body)];
    if digits == "" then None
    else
      var v := (if negative then -1 else 1) * ValueOf(digits);
      if Fits64(v) then Some(v) else None
  }

  lemma {:induction false} DigitsThen(digits: string, tail: string)
    requires (forall c :: c in digits ==> IsDigit(c)) && (tail == "" || !IsDigit(tail[0]))
    ensures LeadingDigits(digits + tail) == |digits|
  {
    if digits == "" {
      assert digits + tail == tail;
    } else {
      assert digits[0] in digits;
      assert forall c :: c in digits[1..] ==> c in digits;
      assert (digits + tail)[1..] == digits[1..] + tail;
      DigitsThen(digits[1..], tail);
    }
  }

  /** The number that decimal digits spell, digit by digit. */
  lemma ValueOfOneMore(digits: string, d: char)
    requires (forall c :: c in digits ==> IsDigit(c)) && '0' <= d <= '9'
    ensures ValueOf("") == 0 && ValueOf(digits + [d]) == 10 * ValueOf(digits) + (d as int - '0' as int)
  {
    assert (digits + [d])[..|digits|] == digits;
  }

  /** An optional sign, then all the digits there are, then something else. */
  predicate IsNumeral(sign: string, digits: string, tail: string) {
    && (sign == "" || sign == "-" || sign == "+")
    && (forall c :: c in digits ==> '0' <= c <= '9')
    && (tail == "" || !('0' <= tail[0] <= '9'))
    && (sign == "" && digits == "" && tail != "" ==> tail[0] != '-' && tail[0] != '+')
  }

  /** Every string can be seen that way. */
  lemma NumeralOf(s: string) returns (sign: string, digits: string, tail: string)
    ensures IsNumeral(sign, digits, tail) && s == sign + digits + tail
  {
    sign := if s != "" && (s[0] == '-' || s[0] == '+') then s[..1] else "";
    var body := s[|sign|..];
    var n := LeadingDigits(body);
    digits, tail := body[..n], body[n..];
  }

  /**
   * What std::stoll makes of it: nothing without a digit behind the sign, or when the number that the
   * digits spell is out of the 64-bit range; else that number, whatever follows it.
   */
  lemma StollOfNumeral(sign: string, digits: string, tail: string)
    requires IsNumeral(sign, digits, tail)
    ensures var n: int := ValueOf(digits);
      var v := if sign == "-" then -n else n;
      Stoll(sign + digits + tail)
      == if digits != "" && -9_223_372_036_854_775_808 <= v <= 9_223_372_036_854_775_807 then Some(v) else None
  {
    Framing.Associative(sign, digits, tail);
    NumeralBody(sign, digits, tail);
    SignFirst(sign, digits + tail);
    DigitsThen(digits, tail);
    StollOfBody(sign + digits + tail, sign == "-", digits + tail, digits);
  }

  lemma NumeralBody(sign: string, digits: string, tail: string)
    requires IsNumeral(sign, digits, tail)
    ensures var body := digits + tail;
      body[..|digits|] == digits && (sign == "" && body != "" ==> body[0] != '-' && body[0] != '+')
  {
    assert digits == "" ==> digits + tail == tail;
    assert digits != "" ==> (digits + tail)[0] == digits[0] && digits[0] in digits;
  }

  lemma StollOfBody(s: string, negative: bool, body: string, digits: string)
    requires s != "" && s[0] == '-' <==> negative
    requires body == if s != "" && (s[0] == '-' || s[0] == '+') then s[1..] else s
    requires LeadingDigits(body) == |digits| && body[..|digits|] == digits && forall c :: c in digits ==> IsDigit(c)
    ensures var n: int := ValueOf(digits);
      var v := if negative then -n else n;
      Stoll(s) == if digits != "" && -9_223_372_036_854_775_808 <= v <= 9_223_372_036_854_775_807 then Some(v) else None
  {
  }

  lemma SignFirst(sign: string, body: string)
    requires sign == "" || sign == "-" || sign == "+"
    requires sign == "" && body != "" ==> body[0] != '-' && body[0] != '+'
    ensures var s := sign + body;
      && (s != "" && s[0] == '-' <==> sign == "-")
      && body == if s != "" && (s[0] == '-' || s[0] == '+') then s[1..] else s
  {
    assert sign == "" ==> sign + body == body;
    assert sign != "" ==> (sign + body)[0] == sign[0] && (sign + body)[1..] == body;
  }

  lemma SmallNumbers()
    ensures Digits(7) == "7" && Digits(120) == "120" && ValueOf("7") == 7 && ValueOf("120") == 120
  {
    assert Digits(12) == "12";
    ValueOfDigits(7);
    ValueOfDigits(120);
  }

  /** Three tokens that are taken for a TTL, and two that are not. */
  lemma SomeTtls()
    ensures Stoll("120") == Some(120) && Stoll("-7x") == Some(-7) && Stoll("+7") == Some(7)
    ensures Stoll("x7") == None && Stoll("-") == None
  {
    SmallNumbers();
    SomeNumerals();
    StollOfNumeral("", "120", "");
    StollOfNumeral("-", "7", "x");
    StollOfNumeral("+", "7", "");
    StollOfNumeral("", "", "x7");
    StollOfNumeral("-", "", "");
  }

  lemma SomeNumerals()
    ensures IsNumeral("", "120", "") && IsNumeral("-", "7", "x") && IsNumeral("+", "7", "")
    ensures IsNumeral("", "", "x7") && IsNumeral("-", "", "")
    ensures "" + "120" + "" == "120" && "-" + "7" + "x" == "-7x" && "+" + "7" + "" == "+7"
    ensures "" + "" + "x7" == "x7" && "-" + "" + "" == "-"
  {
  }

  /** A printed integer is read back exactly when it fits into 64 bits. */
  lemma StollOfIntText(n: int)
    ensures Stoll(IntText(n)) == if Fits64(n) then Some(n) else None
  {
    var digits := Digits(if n < 0 then -n else n);
    var sign := if n < 0 then "-" else "";
    ValueOfDigits(if n < 0 then -n else n);
    StollOfNumeral(sign, digits, "");
    assert sign + digits + "" == IntText(n);
  }

  lemma {:induction false} DigitsAreWords(n: nat)
    ensures IsWord(Digits(n))
  {
    assert forall c :: IsDigit(c) ==> !IsSpace(c);
  }

  lemma IntTextIsWord(n: int)
    ensures IsWord(IntText(n))
  {
    assert forall c :: IsDigit(c) ==> !IsSpace(c);
  }
}

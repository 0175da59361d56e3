/** What a string literal means, and which literals are already in canonical form,
    both said about the bytes of the literal alone. */
module JsCanonical {
  import opened Utf8
  import opened JsString

  // ----- What a literal means, one character or escape at a time

  lemma HexDigitsExactly(c: char)
    ensures IsHexDigit(c) <==> c in "0123456789abcdefABCDEF"
    ensures '0' <= c <= '9' ==> HexValue(c) == c as int - 0x30
    ensures 'a' <= c <= 'f' ==> HexValue(c) == c as int - 0x61 + 10
    ensures 'A' <= c <= 'F' ==> HexValue(c) == c as int - 0x41 + 10
  {
  }

  /** The value of the escape letters. */
  lemma EscapeReads(c: char, rest: string)
    requires c != 'u'
    ensures ValidBody(['\\', c] + rest) <==> c in {'"', '\\', '/', 'b', 'f', 'n', 'r', 't'} && ValidBody(rest)
    ensures ValidBody(['\\', c] + rest) ==>
              DecodeBody(['\\', c] + rest) ==
              [match c case 'b' => 8 case 't' => 9 case 'n' => 10 case 'f' => 12 case 'r' => 13 case _ => c as int]
              + DecodeBody(rest)
  {
    var s := ['\\', c] + rest;
    assert s[2..] == rest;
  }

  lemma HexReads(h: string, rest: string)
    requires |h| == 4
    ensures ValidBody("\\u" + h + rest) <==> (forall i :: 0 <= i < 4 ==> IsHexDigit(h[i])) && ValidBody(rest)
    ensures ValidBody("\\u" + h + rest) ==>
              DecodeBody("\\u" + h + rest) ==
              [4096 * HexValue(h[0]) + 256 * HexValue(h[1]) + 16 * HexValue(h[2]) + HexValue(h[3])] + DecodeBody(rest)
  {
    var s := "\\u" + h + rest;
    assert s[2..6] == h && s[6..] == rest;
  }

  /** A character that starts no escape. */
  lemma PlainIsValid(c: char, rest: string)
    requires c != '\\'
    ensures ValidBody([c] + rest) <==> c != '"' && c as int >= 0x20 && ValidBody(rest)
  {
    assert ([c] + rest)[1..] == rest;
  }

  lemma RuneReads(r: int, rest: string)
    requires IsScalar(r) && r >= 0x20 && r != 0x22 && r != 0x5C && ValidBody(rest)
    ensures ValidBody(Encode(r) + rest)
    ensures DecodeBody(Encode(r) + rest) ==
            (if r < 0x10000 then [r] else [0xD800 + (r - 0x10000) / 0x400, 0xDC00 + (r - 0x10000) % 0x400])
            + DecodeBody(rest)
  {
    var s := Encode(r) + rest;
    EncodedIsPlain(r, rest);
    DecodeEncode(r, rest);
    assert s[|Encode(r)|..] == rest;
  }

  /** A byte at which no UTF8-char starts. */
  lemma StrayByteReads(c: char, rest: string)
    requires c as int >= 0x80 && ValidBody(rest)
    requires forall n :: 1 <= n <= |[c] + rest| ==> !IsUtf8Char(([c] + rest)[..n])
    ensures ValidBody([c] + rest) && DecodeBody([c] + rest) == [0xFFFD] + DecodeBody(rest)
  {
    var s := [c] + rest;
    PlainIsValid(c, rest);
    if Size(s) > 0 {
      DecodeIsExact(s);
    }
    assert s[1..] == rest;
  }

  // ----- Canonical literals

  predicate LowerHex(c: char) {
    '0' <= c <= '9' || 'a' <= c <= 'f'
  }

  /** The four digits of an escape that nothing shorter stands for: a control other than
      those with a letter of their own, or a surrogate. */
  predicate NeededHex(h: string)
    requires |h| == 4
  {
    && LowerHex(h[3])
    && (|| (h[0] == '0' && h[1] == '0' && h[2] == '0' && h[3] !in {'8', '9', 'a', 'c', 'd'})
        || (h[0] == '0' && h[1] == '0' && h[2] == '1')
        || (h[0] == 'd' && h[1] in {'8', '9', 'a', 'b', 'c', 'd', 'e', 'f'} && LowerHex(h[2])))
  }

  predicate HighEscape(s: string) {
    |s| >= 6 && s[..3] == "\\ud" && s[3] in {'8', '9', 'a', 'b'}
  }

  predicate LowEscape(s: string) {
    |s| >= 6 && s[..3] == "\\ud" && s[3] in {'c', 'd', 'e', 'f'}
  }

  /** A body that is well-formed UTF-8 and escapes only what it must, each in its one way,
      with no two escapes that make up a surrogate pair. */
  ghost predicate CanonicalBody(s: string)
    decreases |s|
  {
    s == "" ||
    if s[0] == '\\' then
      && |s| >= 2
      && if s[1] == 'u' then
           && |s| >= 6 && NeededHex(s[2..6])
           && !(HighEscape(s) && LowEscape(s[6..]))
           && CanonicalBody(s[6..])
         else s[1] in {'"', '\\', 'b', 'f', 'n', 'r', 't'} && CanonicalBody(s[2..])
    else
      && s[0] != '"' && s[0] as int >= 0x20
      && exists n :: 1 <= n <= |s| && IsUtf8Char(s[..n]) && CanonicalBody(s[n..])
  }

  lemma LowerDigit(x: char)
    requires LowerHex(x)
    ensures IsHexDigit(x) && HexDigit(HexValue(x)) == x
  {
  }

  lemma FourDigits(a: int, b: int, c: int, d: int)
    requires 0 <= a < 16 && 0 <= b < 16 && 0 <= c < 16 && 0 <= d < 16
    ensures var u := 16 * (16 * (16 * a + b) + c) + d;
            u / 16 / 16 / 16 == a && u / 16 / 16 % 16 == b && u / 16 % 16 == c && u % 16 == d
  {
  }

  lemma HexOfParsed(h: string)
    requires |h| == 4 && LowerHex(h[0]) && LowerHex(h[1]) && LowerHex(h[2]) && LowerHex(h[3])
    ensures IsHex4(h) && Hex4(ParseHex4(h)) == h
  {
    hide HexDigit, HexValue, IsHexDigit, LowerHex;
    LowerDigit(h[0]);
    LowerDigit(h[1]);
    LowerDigit(h[2]);
    LowerDigit(h[3]);
    FourDigits(HexValue(h[0]), HexValue(h[1]), HexValue(h[2]), HexValue(h[3]));
  }

  /** The code point a canonical body starts with, and how many bytes it takes. */
  ghost predicate StartsWith(s: string, c: int, n: nat) {
    && IsCodePoint(c) && 1 <= n <= |s|
    && QuotePoint(c) == s[..n] && CanonicalBody(s[n..])
    && (IsHigh(c) ==> !LowEscape(s[n..]))
    && (IsLow(c) ==> LowEscape(s))
  }

  lemma EscapeStarts(s: string) returns (c: int)
    requires CanonicalBody(s) && s != "" && s[0] == '\\' && s[1] != 'u'
    ensures StartsWith(s, c, 2)
  {
    c := match s[1] case 'b' => 8 case 't' => 9 case 'n' => 10 case 'f' => 12 case 'r' => 13 case _ => s[1] as int;
    assert s[..2] == ['\\', s[1]];
  }

  lemma HexStarts(s: string) returns (c: int)
    requires CanonicalBody(s) && s != "" && s[0] == '\\' && s[1] == 'u'
    ensures StartsWith(s, c, 6)
  {
    var h := s[2..6];
    HexOfParsed(h);
    c := ParseHex4(h);
    NeededHexValue(h);
    assert s[..6] == "\\u" + h;
    assert s[3] == h[1] && s[..3] == [s[0], s[1], h[0]];
  }

  lemma NeededHexValue(h: string)
    requires |h| == 4 && NeededHex(h) && IsHex4(h)
    ensures var c := ParseHex4(h);
            && (c < 0x20 || 0xD800 <= c < 0xE000) && c !in {8, 9, 10, 12, 13}
            && (IsHigh(c) <==> h[0] == 'd' && h[1] in {'8', '9', 'a', 'b'})
            && (IsLow(c) <==> h[0] == 'd' && h[1] in {'c', 'd', 'e', 'f'})
  {
  }

  lemma RuneStarts(s: string) returns (c: int, n: nat)
    requires CanonicalBody(s) && s != "" && s[0] != '\\'
    ensures StartsWith(s, c, n)
  {
    n :| 1 <= n <= |s| && IsUtf8Char(s[..n]) && CanonicalBody(s[n..]);
    Utf8CharIsEncoded(s[..n]);
    c :| IsScalar(c) && Encode(c) == s[..n];
    EncodedExactly(c, s[..n]);
    assert s[..n][0] == s[0];
  }

  lemma Starts(s: string) returns (c: int, n: nat)
    requires CanonicalBody(s) && s != ""
    ensures StartsWith(s, c, n)
  {
    if s[0] != '\\' {
      c, n := RuneStarts(s);
    } else if s[1] == 'u' {
      c := HexStarts(s);
      n := 6;
    } else {
      c := EscapeStarts(s);
      n := 2;
    }
  }

  /** Reading a canonical body and quoting it again gives it back. */
  lemma {:induction false} CanonicalIsKept(s: string)
    requires CanonicalBody(s)
    ensures ValidBody(s) && QuoteBody(CodePoints(DecodeBody(s))) == s
    ensures s != "" && DecodeBody(s) != [] && IsLow(DecodeBody(s)[0]) ==> LowEscape(s)
    decreases |s|
  {
    if s != "" {
      hide CanonicalBody, QuotePoint;
      var c, n := Starts(s);
      var rest := s[n..];
      CanonicalIsKept(rest);
      PointRoundTrip(c, rest);
      assert s == QuotePoint(c) + rest;
      assert DecodeBody(s) == Utf16(c) + DecodeBody(rest);
      NextPoint(c, DecodeBody(rest));
      QuoteBodyOf(c, CodePoints(DecodeBody(rest)));
    }
  }

  lemma QuoteBodyOf(c: int, points: seq<int>)
    requires IsCodePoint(c) && forall i :: 0 <= i < |points| ==> IsCodePoint(points[i])
    ensures QuoteBody([c] + points) == QuotePoint(c) + QuoteBody(points)
  {
    assert ([c] + points)[1..] == points;
  }

  lemma NextPoint(c: int, units: seq<int>)
    requires IsCodePoint(c) && Units(units)
    requires IsHigh(c) && units != [] ==> !IsLow(units[0])
    ensures CodePoints(Utf16(c) + units) == [c] + CodePoints(units)
    ensures IsLow(Utf16(c)[0]) <==> IsLow(c)
  {
    var all := Utf16(c) + units;
    if c < 0x10000 {
      assert all[1..] == units;
    } else {
      assert all[2..] == units;
      assert Pair(all[0], all[1]) == c;
    }
  }

  // ----- What is printed is canonical

  predicate Unjoined(points: seq<int>) {
    forall i :: 0 <= i < |points| - 1 ==> !(IsHigh(points[i]) && IsLow(points[i + 1]))
  }

  /** Joining leaves no pair behind. */
  lemma {:induction false} NothingToJoin(units: seq<int>)
    requires Units(units)
    ensures Unjoined(CodePoints(units))
    ensures units != [] && !IsLow(units[0]) ==> !IsLow(CodePoints(units)[0])
  {
    if |units| >= 2 && IsHigh(units[0]) && IsLow(units[1]) {
      NothingToJoin(units[2..]);
      PrependUnjoined(Pair(units[0], units[1]), CodePoints(units[2..]));
    } else if units != [] {
      NothingToJoin(units[1..]);
      PrependUnjoined(units[0], CodePoints(units[1..]));
    }
  }

  lemma PrependUnjoined(c: int, points: seq<int>)
    requires Unjoined(points) && (IsHigh(c) && points != [] ==> !IsLow(points[0]))
    ensures Unjoined([c] + points)
  {
  }

  lemma PrintedHex(c: int)
    requires c < 0x20 || 0xD800 <= c < 0xE000
    requires IsUnit(c) && c !in {8, 9, 10, 12, 13}
    ensures NeededHex(Hex4(c))
    ensures Hex4(c)[0] == 'd' && Hex4(c)[1] in {'8', '9', 'a', 'b'} ==> IsHigh(c)
    ensures Hex4(c)[0] == 'd' && Hex4(c)[1] in {'c', 'd', 'e', 'f'} ==> IsLow(c)
  {
    var h := Hex4(c);
    assert forall d :: 0 <= d < 16 ==> LowerHex(HexDigit(d));
    if c >= 0x20 {
      SurrogateDigits(c);
    } else {
      FourDigits(0, 0, c / 16, c % 16);
    }
  }

  lemma SurrogateDigits(c: int)
    requires 0xD800 <= c < 0xE000
    ensures c / 16 / 16 / 16 == 13 && 8 <= c / 16 / 16 % 16 < 16
    ensures c / 16 / 16 % 16 < 12 ==> IsHigh(c)
    ensures c / 16 / 16 % 16 >= 12 ==> IsLow(c)
  {
  }

  lemma LowPrintsLow(c: int, rest: string)
    requires IsCodePoint(c)
    ensures LowEscape(QuotePoint(c) + rest) ==> IsLow(c)
  {
    var s := QuotePoint(c) + rest;
    if c in {8, 9, 10, 12, 13, 0x22, 0x5C} {
      assert s[1] != 'u';
    } else if c < 0x20 || 0xD800 <= c < 0xE000 {
      PrintedHex(c);
      assert LowEscape(s) ==> s[..3][2] == Hex4(c)[0] && s[3] == Hex4(c)[1];
    } else {
      EncodedExactly(c, Encode(c));
      assert s[0] == Encode(c)[0] != '\\';
      assert |s| >= 3 ==> s[..3][0] == s[0];
    }
  }

  lemma PrintedPoint(c: int, rest: string)
    requires IsCodePoint(c) && CanonicalBody(rest) && (IsHigh(c) ==> !LowEscape(rest))
    ensures CanonicalBody(QuotePoint(c) + rest)
  {
    var q := QuotePoint(c);
    var s := q + rest;
    if c in {8, 9, 10, 12, 13, 0x22, 0x5C} {
      assert s[2..] == rest;
    } else if c < 0x20 || 0xD800 <= c < 0xE000 {
      PrintedHex(c);
      assert s[2..6] == Hex4(c) && s[6..] == rest && s[3] == Hex4(c)[1] && s[2] == Hex4(c)[0];
      assert HighEscape(s) ==> s[..3][2] == 'd';
    } else {
      EncodeIsUtf8Char(c);
      EncodedExactly(c, q);
      assert s[..|q|] == q && s[|q|..] == rest;
    }
  }

  lemma {:induction false} PrintedIsCanonical(points: seq<int>)
    requires forall i :: 0 <= i < |points| ==> IsCodePoint(points[i])
    requires Unjoined(points)
    ensures CanonicalBody(QuoteBody(points))
  {
    if points != [] {
      var rest := points[1..];
      forall i | 0 <= i < |rest| - 1 ensures !(IsHigh(rest[i]) && IsLow(rest[i + 1])) {
        assert rest[i] == points[i + 1] && rest[i + 1] == points[i + 2];
      }
      PrintedIsCanonical(rest);
      if rest != [] {
        LowPrintsLow(rest[0], QuoteBody(rest[1..]));
      }
      PrintedPoint(points[0], QuoteBody(rest));
    }
  }

  // ----- The canonical form

  /** A literal is its own canonical form exactly if it escapes only what it must. */
  lemma CanonicalExactly(token: string)
    requires ValidToken(token)
    ensures CanonicalForm(token) == token <==> CanonicalBody(token[1..|token| - 1])
  {
    var body := token[1..|token| - 1];
    assert token == "\"" + body + "\"";
    if CanonicalBody(body) {
      CanonicalIsKept(body);
    }
    if CanonicalForm(token) == token {
      var points := CodePoints(DecodeToken(token));
      NothingToJoin(DecodeToken(token));
      PrintedIsCanonical(points);
      assert CanonicalForm(token)[1..|token| - 1] == QuoteBody(points);
    }
  }

  /** The canonical form is the one canonical literal that means the same. */
  lemma CanonicalFormExactly(token: string, other: string)
    requires ValidToken(token) && ValidToken(other)
    ensures CanonicalForm(token) == other <==>
            CanonicalBody(other[1..|other| - 1]) && DecodeToken(other) == DecodeToken(token)
  {
    CanonicalExactly(other);
    QuoteRoundTrip(DecodeToken(token));
  }

  lemma {:induction false} PlainTextIsCanonical(s: string)
    requires IsUtf8(s) && forall i :: 0 <= i < |s| ==> s[i] != '\\' && s[i] != '"' && s[i] as int >= 0x20
    ensures CanonicalBody(s)
    decreases |s|
  {
    if s != "" {
      var n :| 1 <= n <= |s| && IsUtf8Char(s[..n]) && IsUtf8(s[n..]);
      PlainTextIsCanonical(s[n..]);
    }
  }

  /** A well-formed literal without escapes is left as it is. */
  lemma PlainLiteralIsKept(s: string)
    requires IsUtf8(s) && forall i :: 0 <= i < |s| ==> s[i] != '\\' && s[i] != '"' && s[i] as int >= 0x20
    ensures ValidToken("\"" + s + "\"") && CanonicalForm("\"" + s + "\"") == "\"" + s + "\""
  {
    var token := "\"" + s + "\"";
    assert token[1..|token| - 1] == s;
    PlainTextIsCanonical(s);
    CanonicalIsKept(s);
  }
}

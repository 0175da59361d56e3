/** Strings as JavaScript reads and prints them: JSON.parse of a string literal to
    UTF-16 code units, and QuoteJSONString (section 25.5.2.3 of ECMA-262). */
module JsString {
  import opened Utf8
  import Text

  // ----- UTF-16

  predicate IsUnit(u: int) {
    0 <= u < 0x10000
  }

  predicate IsHigh(u: int) {
    0xD800 <= u < 0xDC00
  }

  predicate IsLow(u: int) {
    0xDC00 <= u < 0xE000
  }

  predicate Units(units: seq<int>) {
    forall i :: 0 <= i < |units| ==> IsUnit(units[i])
  }

  /** A code point: a scalar value or a lone surrogate. */
  predicate IsCodePoint(c: int) {
    0 <= c <= 0x10FFFF
  }

  /** utf16.AppendRune */
  function Utf16(c: int): (units: seq<int>)
    requires IsCodePoint(c)
    ensures Units(units)
  {
    if c < 0x10000 then [c] else [0xD800 + (c - 0x10000) / 1024, 0xDC00 + (c - 0x10000) % 1024]
  }

  /** utf16.DecodeRune on a surrogate pair */
  function Pair(high: int, low: int): (c: int)
    requires IsHigh(high) && IsLow(low)
    ensures 0x10000 <= c <= 0x10FFFF && Utf16(c) == [high, low]
  {
    0x10000 + 1024 * (high - 0xD800) + (low - 0xDC00)
  }

  /** StringToCodePoints of ECMA-262: pairs are joined, lone surrogates kept. */
  function CodePoints(units: seq<int>): (points: seq<int>)
    requires Units(units)
    ensures forall i :: 0 <= i < |points| ==> IsCodePoint(points[i])
  {
    if units == [] then []
    else if |units| >= 2 && IsHigh(units[0]) && IsLow(units[1]) then
      [Pair(units[0], units[1])] + CodePoints(units[2..])
    else [units[0]] + CodePoints(units[1..])
  }

  function UnitsOf(points: seq<int>): seq<int>
    requires forall i :: 0 <= i < |points| ==> IsCodePoint(points[i])
  {
    if points == [] then [] else Utf16(points[0]) + UnitsOf(points[1..])
  }

  lemma {:induction false} UnitsOfCodePoints(units: seq<int>)
    requires Units(units)
    ensures UnitsOf(CodePoints(units)) == units
  {
    if units == [] {
    } else if |units| >= 2 && IsHigh(units[0]) && IsLow(units[1]) {
      UnitsOfCodePoints(units[2..]);
      assert CodePoints(units)[1..] == CodePoints(units[2..]);
      assert units == [units[0], units[1]] + units[2..];
    } else {
      UnitsOfCodePoints(units[1..]);
      assert CodePoints(units)[1..] == CodePoints(units[1..]);
      assert units == [units[0]] + units[1..];
    }
  }

  // ----- Hexadecimal

  predicate IsHexDigit(c: char) {
    '0' <= c <= '9' || 'a' <= c <= 'f' || 'A' <= c <= 'F'
  }

  function HexValue(c: char): (d: int)
    requires IsHexDigit(c)
    ensures 0 <= d < 16
  {
    if c <= '9' then c as int - '0' as int
    else if c <= 'F' then c as int - 'A' as int + 10
    else c as int - 'a' as int + 10
  }

  /** Lower-case, as "0123456789abcdef"[d]. */
  function HexDigit(d: int): (c: char)
    requires 0 <= d < 16
    ensures IsHexDigit(c) && HexValue(c) == d && c as int < 0x80
  {
    if d < 10 then (d + '0' as int) as char else (d - 10 + 'a' as int) as char
  }

  function Hex4(u: int): (s: string)
    requires IsUnit(u)
    ensures |s| == 4 && IsAscii(s)
  {
    [HexDigit(u / 16 / 16 / 16), HexDigit(u / 16 / 16 % 16), HexDigit(u / 16 % 16), HexDigit(u % 16)]
  }

  predicate IsHex4(s: string) {
    |s| == 4 && IsHexDigit(s[0]) && IsHexDigit(s[1]) && IsHexDigit(s[2]) && IsHexDigit(s[3])
  }

  /** strconv.ParseUint(s, 16, 16) */
  function ParseHex4(s: string): (u: int)
    requires IsHex4(s)
    ensures IsUnit(u)
  {
    16 * (16 * (16 * HexValue(s[0]) + HexValue(s[1])) + HexValue(s[2])) + HexValue(s[3])
  }

  // ----- String literals

  const SIMPLE_ESCAPES := "\"\\/bfnrt"

  /** What may stand between the quotes (section 7 of RFC 8259), on bytes: any
      byte from 0x80 on is taken, whether or not it is well-formed UTF-8. */
  predicate ValidBody(s: string) {
    s == "" ||
    if s[0] == '\\' then
      && |s| >= 2
      && if s[1] == 'u' then |s| >= 6 && IsHex4(s[2..6]) && ValidBody(s[6..])
         else s[1] in SIMPLE_ESCAPES && ValidBody(s[2..])
    else s[0] != '"' && s[0] >= ' ' && ValidBody(s[1..])
  }

  predicate ValidToken(token: string) {
    && |token| >= 2
    && token[0] == '"' && token[|token| - 1] == '"'
    && ValidBody(token[1..|token| - 1])
  }

  /** Bytes from 0x80 on can be dropped from the front. */
  lemma {:induction false} SkipHighBytes(s: string, n: nat)
    requires ValidBody(s) && n <= |s|
    requires forall i :: 0 <= i < n ==> s[i] as int >= 0x80
    ensures ValidBody(s[n..])
  {
    if n == 0 {
      assert s[0..] == s;
    } else {
      SkipHighBytes(s[1..], n - 1);
      assert s[1..][n - 1..] == s[n..];
    }
  }

  /** The code unit a one-letter escape stands for. */
  function Escaped(c: char): (u: int)
    requires c in SIMPLE_ESCAPES
    ensures IsUnit(u)
  {
    if c == 'b' then 0x08 else if c == 'f' then 0x0C else if c == 'n' then 0x0A
    else if c == 'r' then 0x0D else if c == 't' then 0x09 else c as int
  }

  /** The code units of the next character or escape, and how many bytes it takes. */
  function Step(s: string): (step: (seq<int>, nat))
    requires ValidBody(s) && s != ""
    ensures 1 <= step.1 <= |s| && ValidBody(s[step.1..]) && Units(step.0)
  {
    if s[0] != '\\' then
      var (r, size) := DecodeRune(s);
      assert ValidBody(s[size..]) by {
        if size > 1 { SkipHighBytes(s, size); }
      }
      (Utf16(r), size)
    else if s[1] == 'u' then ([ParseHex4(s[2..6])], 6)
    else ([Escaped(s[1])], 2)
  }

  /** JSON.parse of the text between the quotes. */
  function DecodeBody(s: string): (units: seq<int>)
    requires ValidBody(s)
    ensures Units(units)
    decreases |s|
  {
    if s == "" then [] else Step(s).0 + DecodeBody(s[Step(s).1..])
  }

  function DecodeToken(token: string): (units: seq<int>)
    requires ValidToken(token)
    ensures Units(units)
  {
    DecodeBody(token[1..|token| - 1])
  }

  // ----- Quoting

  /** One code point by the table of QuoteJSONString. */
  function QuotePoint(c: int): (s: string)
    requires IsCodePoint(c)
  {
    if c == 0x08 then "\\b"
    else if c == 0x09 then "\\t"
    else if c == 0x0A then "\\n"
    else if c == 0x0C then "\\f"
    else if c == 0x0D then "\\r"
    else if c == 0x22 then "\\\""
    else if c == 0x5C then "\\\\"
    else if c < 0x20 || 0xD800 <= c < 0xE000 then "\\u" + Hex4(c)
    else Encode(c)
  }

  function QuoteBody(points: seq<int>): string
    requires forall i :: 0 <= i < |points| ==> IsCodePoint(points[i])
  {
    if points == [] then "" else QuotePoint(points[0]) + QuoteBody(points[1..])
  }

  /** JSON.stringify of a string, given as code units. */
  function Quote(units: seq<int>): string
    requires Units(units)
  {
    "\"" + QuoteBody(CodePoints(units)) + "\""
  }

  // ----- The same in the source's own form

  /** What is left of a literal's body from an index on. */
  function Rest(token: string, i: nat): string
    requires 1 <= i < |token|
  {
    token[i..|token| - 1]
  }

  /** One turn of the first loop on a character that is not an escape: the rune
      is decoded from all that follows, closing quote included. */
  method ReadRune(token: string, i: nat) returns (units: seq<int>, next: nat)
    requires 1 <= i < |token| - 1 && token[|token| - 1] == '"'
    requires ValidBody(Rest(token, i)) && token[i] != '\\'
    ensures (units, next) == (Step(Rest(token, i)).0, i + Step(Rest(token, i)).1)
  {
    assert token[i..] == Rest(token, i) + "\"";
    DecodeIgnoresAscii(Rest(token, i), '"');
    var (r, size) := DecodeRune(token[i..]);
    units, next := Utf16(r), i + size;
  }

  lemma SliceOfRest(token: string, start: nat)
    requires 1 <= start && start + 6 <= |token| - 1
    ensures Rest(token, start)[2..6] == token[start + 2..start + 6]
  {
    var rest := Rest(token, start);
    assert forall i :: 0 <= i < 4 ==> rest[2..6][i] == rest[2 + i] == token[start + 2..start + 6][i];
  }

  /** One turn of the first loop on an escape. No access is out of range. */
  method ReadEscape(token: string, start: nat) returns (units: seq<int>, next: nat)
    requires 1 <= start < |token| - 1
    requires ValidBody(Rest(token, start)) && token[start] == '\\'
    ensures (units, next) == (Step(Rest(token, start)).0, start + Step(Rest(token, start)).1)
  {
    ghost var rest := Rest(token, start);
    assert rest[0] == token[start] && rest[1] == token[start + 1];
    var i := start;
    var escape := token[i + 1];
    i := i + 2;
    if escape == 'u' {
      assert |rest| >= 6 && i == start + 2;
      SliceOfRest(token, start);
      units := [ParseHex4(token[i..i + 4])];
      i := i + 4;
    } else if escape == 'b' {
      units := [0x08];
    } else if escape == 'f' {
      units := [0x0C];
    } else if escape == 'n' {
      units := [0x0A];
    } else if escape == 'r' {
      units := [0x0D];
    } else if escape == 't' {
      units := [0x09];
    } else {
      units := [escape as int];
    }
    next := i;
  }

  lemma DecodeTurn(token: string, i: nat, before: seq<int>)
    requires 1 <= i < |token| - 1 && ValidBody(Rest(token, i))
    ensures var next := i + Step(Rest(token, i)).1;
            && next <= |token| - 1
            && ValidBody(Rest(token, next))
            && before + DecodeBody(Rest(token, i)) == (before + Step(Rest(token, i)).0) + DecodeBody(Rest(token, next))
  {
  }

  lemma DecodeStarts(token: string)
    requires ValidToken(token)
    ensures |token| >= 2 && ValidBody(Rest(token, 1)) && [] + DecodeBody(Rest(token, 1)) == DecodeToken(token)
    ensures DecodeBody("") == []
  {
  }

  /** First phase: an index walks the literal and code units are appended. */
  method DecodeLoop(token: string) returns (units: seq<int>)
    requires ValidToken(token)
    ensures units == DecodeToken(token)
  {
    hide ValidBody, DecodeBody, DecodeToken, Step;
    units := [];
    var i := 1;
    DecodeStarts(token);
    while i < |token| - 1
      invariant 1 <= i <= |token| - 1
      invariant ValidBody(Rest(token, i))
      invariant units + DecodeBody(Rest(token, i)) == DecodeToken(token)
    {
      var read, next;
      DecodeTurn(token, i, units);
      if token[i] != '\\' {
        read, next := ReadRune(token, i);
      } else {
        read, next := ReadEscape(token, i);
      }
      units := units + read;
      i := next;
    }
    assert Rest(token, i) == "";
  }

  /** What is still to be quoted from an index on. */
  function Unquoted(units: seq<int>, i: nat): string
    requires Units(units) && i <= |units|
  {
    QuoteBody(CodePoints(units[i..]))
  }

  lemma QuoteStep(units: seq<int>, i: nat)
    requires Units(units) && i < |units|
    ensures var joined := i + 1 < |units| && IsHigh(units[i]) && IsLow(units[i + 1]);
            Unquoted(units, i) ==
            if joined then QuotePoint(Pair(units[i], units[i + 1])) + Unquoted(units, i + 2)
            else QuotePoint(units[i]) + Unquoted(units, i + 1)
  {
  }

  /** One code unit that is no surrogate, by the cases of the source. */
  method AppendUnit(dst: string, unit: int) returns (out: string)
    requires IsUnit(unit) && !IsHigh(unit) && !IsLow(unit)
    ensures out == dst + QuotePoint(unit)
  {
    if unit == '"' as int {
      out := dst + "\\\"";
    } else if unit == '\\' as int {
      out := dst + "\\\\";
    } else if unit == 0x08 {
      out := dst + "\\b";
    } else if unit == 0x0C {
      out := dst + "\\f";
    } else if unit == 0x0A {
      out := dst + "\\n";
    } else if unit == 0x0D {
      out := dst + "\\r";
    } else if unit == 0x09 {
      out := dst + "\\t";
    } else if unit < 0x20 {
      out := dst + ['\\', 'u', '0', '0', HexDigit(unit / 16), HexDigit(unit % 16)];
    } else {
      out := dst + Encode(unit);
    }
  }

  lemma SurrogatesQuoted(unit: int, next: int)
    requires IsHigh(unit) || IsLow(unit)
    ensures QuotePoint(unit) == "\\u" + Hex4(unit)
    ensures IsHigh(unit) && IsLow(next) ==>
              IsCodePoint(Pair(unit, next)) && QuotePoint(Pair(unit, next)) == Encode(Pair(unit, next))
  {
  }

  /** One turn of the second loop: a surrogate pair is appended as one rune and a
      lone surrogate as an escape. */
  method QuoteTurn(dst: string, units: seq<int>, i: nat) returns (out: string, next: nat)
    requires Units(units) && i < |units|
    ensures i < next <= |units|
    ensures out + Unquoted(units, next) == dst + Unquoted(units, i)
  {
    hide Unquoted, QuotePoint, Encode, Hex4, Pair;
    QuoteStep(units, i);
    var unit := units[i];
    if IsHigh(unit) || IsLow(unit) {
      SurrogatesQuoted(unit, if i + 1 < |units| then units[i + 1] else unit);
      if unit < 0xDC00 && i + 1 < |units| && IsLow(units[i + 1]) {
        out, next := dst + Encode(Pair(unit, units[i + 1])), i + 2;
        Text.Associative(dst, Encode(Pair(unit, units[i + 1])), Unquoted(units, next));
        return;
      }
      out := dst + ("\\u" + Hex4(unit));
    } else {
      out := AppendUnit(dst, unit);
    }
    next := i + 1;
    Text.Associative(dst, QuotePoint(unit), Unquoted(units, next));
  }

  /** Second phase: the code units are quoted one after the other. */
  method QuoteLoop(dst: string, units: seq<int>) returns (out: string)
    requires Units(units)
    ensures out == dst + Quote(units)
  {
    ghost var whole := dst + "\"" + Unquoted(units, 0);
    out := dst + "\"";
    var i := 0;
    while i < |units|
      invariant 0 <= i <= |units|
      invariant out + Unquoted(units, i) == whole
    {
      out, i := QuoteTurn(out, units, i);
    }
    Quoted(dst, units);
    assert out == whole;
    out := out + "\"";
  }

  lemma Quoted(dst: string, units: seq<int>)
    requires Units(units)
    ensures Unquoted(units, |units|) == ""
    ensures (dst + "\"" + Unquoted(units, 0)) + "\"" == dst + Quote(units)
  {
  }

  /** appendJSStringToken */
  method AppendStringToken(dst: string, token: string) returns (out: string)
    requires ValidToken(token)
    ensures out == dst + Quote(DecodeToken(token))
  {
    var units := DecodeLoop(token);
    out := QuoteLoop(dst, units);
  }

  // ----- Round trip

  lemma EscapeRoundTrip(c: char, rest: string)
    requires c in SIMPLE_ESCAPES && ValidBody(rest)
    ensures ValidBody(['\\', c] + rest)
    ensures Step(['\\', c] + rest) == ([Escaped(c)], 2)
  {
  }

  lemma HexRoundTrip(c: int, rest: string)
    requires IsUnit(c) && ValidBody(rest)
    ensures ValidBody("\\u" + Hex4(c) + rest)
    ensures Step("\\u" + Hex4(c) + rest) == ([c], 6)
  {
  }

  /** One quoted code point, followed by a valid body, is read back as its code units. */
  lemma PointRoundTrip(c: int, rest: string)
    requires IsCodePoint(c) && ValidBody(rest)
    ensures ValidBody(QuotePoint(c) + rest)
    ensures Step(QuotePoint(c) + rest) == (Utf16(c), |QuotePoint(c)|)
  {
    var q := QuotePoint(c);
    if c in {0x08, 0x09, 0x0A, 0x0C, 0x0D, 0x22, 0x5C} {
      assert q == ['\\', q[1]];
      EscapeRoundTrip(q[1], rest);
    } else if c < 0x20 || 0xD800 <= c < 0xE000 {
      HexRoundTrip(c, rest);
    } else {
      EncodedIsPlain(c, rest);
      DecodeEncode(c, rest);
    }
  }

  lemma EncodedIsPlain(c: int, rest: string)
    requires IsScalar(c) && c >= 0x20 && c != 0x22 && c != 0x5C && ValidBody(rest)
    ensures ValidBody(Encode(c) + rest) && Encode(c)[0] != '\\'
  {
    PlainPrefix(Encode(c), rest);
  }

  lemma {:induction false} PlainPrefix(s: string, rest: string)
    requires ValidBody(rest)
    requires forall i :: 0 <= i < |s| ==> s[i] != '\\' && s[i] != '"' && s[i] >= ' '
    ensures ValidBody(s + rest)
  {
    if s == "" {
      assert s + rest == rest;
    } else {
      PlainPrefix(s[1..], rest);
      assert (s + rest)[1..] == s[1..] + rest;
    }
  }

  lemma {:induction false} BodyRoundTrip(points: seq<int>)
    requires forall i :: 0 <= i < |points| ==> IsCodePoint(points[i])
    ensures ValidBody(QuoteBody(points)) && DecodeBody(QuoteBody(points)) == UnitsOf(points)
  {
    if points != [] {
      var first, rest := QuotePoint(points[0]), QuoteBody(points[1..]);
      BodyRoundTrip(points[1..]);
      PointRoundTrip(points[0], rest);
      assert (first + rest)[|first|..] == rest;
      assert first + rest != "";
    }
  }

  /** Quoting gives a string literal that decodes to exactly the units quoted,
      lone and paired surrogates included. */
  lemma QuoteRoundTrip(units: seq<int>)
    requires Units(units)
    ensures ValidToken(Quote(units)) && DecodeToken(Quote(units)) == units
  {
    var body := QuoteBody(CodePoints(units));
    BodyRoundTrip(CodePoints(units));
    UnitsOfCodePoints(units);
    assert Quote(units)[1..|Quote(units)| - 1] == body;
  }

  /** The canonical form of a literal. */
  function CanonicalForm(token: string): string
    requires ValidToken(token)
  {
    Quote(DecodeToken(token))
  }

  lemma CanonicalTwice(token: string)
    requires ValidToken(token)
    ensures ValidToken(CanonicalForm(token)) && CanonicalForm(CanonicalForm(token)) == CanonicalForm(token)
  {
    QuoteRoundTrip(DecodeToken(token));
  }

  /** Two literals share a canonical form exactly when they decode alike. */
  lemma CanonicalIsComplete(a: string, b: string)
    requires ValidToken(a) && ValidToken(b)
    ensures CanonicalForm(a) == CanonicalForm(b) <==> DecodeToken(a) == DecodeToken(b)
  {
    QuoteRoundTrip(DecodeToken(a));
    QuoteRoundTrip(DecodeToken(b));
  }

  // ----- The form of the output

  lemma PointIsUtf8(c: int, rest: string)
    requires IsCodePoint(c) && IsUtf8(rest)
    ensures IsUtf8(QuotePoint(c) + rest)
  {
    if c < 0x20 || 0xD800 <= c < 0xE000 || c == 0x22 || c == 0x5C {
      AsciiThen(QuotePoint(c), rest);
    } else {
      EncodeIsUtf8Char(c);
      Utf8CharThen(Encode(c), rest);
    }
  }

  lemma {:induction false} BodyIsUtf8(points: seq<int>, rest: string)
    requires forall i :: 0 <= i < |points| ==> IsCodePoint(points[i])
    requires IsUtf8(rest)
    ensures IsUtf8(QuoteBody(points) + rest)
  {
    hide IsUtf8, QuotePoint;
    if points == [] {
      assert QuoteBody(points) + rest == rest;
    } else {
      var first, tail := QuotePoint(points[0]), QuoteBody(points[1..]);
      BodyIsUtf8(points[1..], rest);
      PointIsUtf8(points[0], tail + rest);
      assert first + (tail + rest) == QuoteBody(points) + rest;
    }
  }

  /** The output is well-formed UTF-8, even for ill-formed input. */
  lemma QuoteIsUtf8(units: seq<int>)
    requires Units(units)
    ensures IsUtf8(Quote(units))
  {
    var rest := QuoteBody(CodePoints(units)) + "\"";
    AsciiThen("\"", "");
    assert "\"" + "" == "\"";
    BodyIsUtf8(CodePoints(units), "\"");
    AsciiThen("\"", rest);
    assert Quote(units) == "\"" + rest;
  }

  /** Where a scanner that skips escapes finds the closing quote. */
  function ClosingQuote(s: string): nat {
    if s == "" || s[0] == '"' then 0
    else if s[0] == '\\' && |s| >= 2 then 2 + ClosingQuote(s[2..])
    else 1 + ClosingQuote(s[1..])
  }

  lemma {:induction false} ClosingQuotePlain(s: string, n: nat)
    requires n <= |s| && forall i :: 0 <= i < n ==> s[i] != '\\' && s[i] != '"'
    ensures ClosingQuote(s) == n + ClosingQuote(s[n..])
  {
    if n == 0 {
      assert s[0..] == s;
    } else {
      ClosingQuotePlain(s[1..], n - 1);
      assert s[1..][n - 1..] == s[n..];
    }
  }

  /** A valid body ends at the first quote that is not escaped, whatever follows. */
  lemma {:induction false} BodyEndsAtQuote(body: string, rest: string)
    requires ValidBody(body)
    ensures ClosingQuote(body + "\"" + rest) == |body|
    decreases |body|
  {
    var s := body + "\"" + rest;
    if body == "" {
      assert s[0] == '"';
    } else if body[0] != '\\' {
      BodyEndsAtQuote(body[1..], rest);
      assert s[1..] == body[1..] + "\"" + rest;
    } else if body[1] == 'u' {
      BodyEndsAtQuote(body[6..], rest);
      assert s[2..][4..] == body[6..] + "\"" + rest;
      assert s[2..][..4] == body[2..6];
      ClosingQuotePlain(s[2..], 4);
    } else {
      BodyEndsAtQuote(body[2..], rest);
      assert s[2..] == body[2..] + "\"" + rest;
    }
  }

  lemma BodiesEndTogether(p: string, q: string, x: string, y: string)
    requires ValidBody(p) && ValidBody(q) && p + "\"" + x == q + "\"" + y
    ensures p == q && x == y
  {
    BodyEndsAtQuote(p, x);
    BodyEndsAtQuote(q, y);
    var whole := p + "\"" + x;
    assert p == whole[..|p|] == q;
    assert x == whole[|p| + 1..] == y;
  }

  lemma QuoteOpens(body: string, rest: string)
    ensures ("\"" + body + "\"" + rest)[1..] == body + "\"" + rest
  {
  }

  /** Two literals followed by anything agree as a whole only if they agree one by one. */
  lemma QuoteIsPrefixFree(a: seq<int>, b: seq<int>, x: string, y: string)
    requires Units(a) && Units(b) && Quote(a) + x == Quote(b) + y
    ensures a == b && x == y
  {
    var p, q := QuoteBody(CodePoints(a)), QuoteBody(CodePoints(b));
    QuoteOpens(p, x);
    QuoteOpens(q, y);
    BodyRoundTrip(CodePoints(a));
    BodyRoundTrip(CodePoints(b));
    BodiesEndTogether(p, q, x, y);
    QuoteRoundTrip(a);
    QuoteRoundTrip(b);
  }
}

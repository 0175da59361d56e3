/** UTF-8 as Go's unicode/utf8 reads and writes it. A byte slice is a `string`
    that holds one byte per character. */
module Utf8 {

  const REPLACEMENT := 0xFFFD

  /** A Unicode scalar value: any code point but a surrogate. */
  predicate IsScalar(r: int) {
    0 <= r < 0xD800 || 0xE000 <= r <= 0x10FFFF
  }

  function Byte(b: int): (c: char)
    requires 0 <= b < 256
    ensures c as int == b
  {
    b as char
  }

  /** utf8.AppendRune */
  function Encode(r: int): (s: string)
    requires IsScalar(r)
    ensures 1 <= |s| <= 4
  {
    var q := r / 64;
    if r < 0x80 then [Byte(r)]
    else if r < 0x800 then [Byte(0xC0 + q), Byte(0x80 + r % 64)]
    else if r < 0x10000 then [Byte(0xE0 + q / 64), Byte(0x80 + q % 64), Byte(0x80 + r % 64)]
    else [Byte(0xF0 + q / 64 / 64), Byte(0x80 + q / 64 % 64), Byte(0x80 + q % 64), Byte(0x80 + r % 64)]
  }

  /** The byte at an index, or -1 past the end. */
  function At(s: string, i: nat): int {
    if i < |s| then s[i] as int else -1
  }

  predicate IsTail(b: int) {
    0x80 <= b <= 0xBF
  }

  /** The second bytes that may follow a first byte of a longer sequence. */
  predicate MayFollow(first: int, second: int) {
    && IsTail(second)
    && (first == 0xE0 ==> second >= 0xA0)
    && (first == 0xED ==> second <= 0x9F)
    && (first == 0xF0 ==> second >= 0x90)
    && (first == 0xF4 ==> second <= 0x8F)
  }

  /** The length of the well-formed sequence a text starts with, or zero. */
  function Size(s: string): (n: nat)
    ensures n <= 4 && n <= |s|
    ensures forall i :: 1 <= i < n ==> IsTail(s[i] as int)
    ensures n > 1 ==> s[0] as int >= 0x80
  {
    var b := At(s, 0);
    if 0 <= b < 0x80 then 1
    else if !MayFollow(b, At(s, 1)) then 0
    else if 0xC2 <= b <= 0xDF then 2
    else if 0xE0 <= b <= 0xEF && IsTail(At(s, 2)) then 3
    else if 0xF0 <= b <= 0xF4 && IsTail(At(s, 2)) && IsTail(At(s, 3)) then 4
    else 0
  }

  /** utf8.DecodeRune: an ill-formed byte is one replacement character. */
  function DecodeRune(s: string): (res: (int, nat))
    requires s != ""
    ensures IsScalar(res.0) && 1 <= res.1 <= |s|
  {
    var n := Size(s);
    if n == 0 then (REPLACEMENT, 1)
    else if n == 1 then (At(s, 0), 1)
    else if n == 2 then (64 * (At(s, 0) - 0xC0) + (At(s, 1) - 0x80), 2)
    else if n == 3 then (64 * (64 * (At(s, 0) - 0xE0) + (At(s, 1) - 0x80)) + (At(s, 2) - 0x80), 3)
    else (64 * (64 * (64 * (At(s, 0) - 0xF0) + (At(s, 1) - 0x80)) + (At(s, 2) - 0x80)) + (At(s, 3) - 0x80), 4)
  }

  lemma EncodedSize(r: int, rest: string)
    requires IsScalar(r)
    ensures Size(Encode(r) + rest) == |Encode(r)|
  {
  }

  /** Decoding an encoded rune gives the rune, whatever follows. */
  lemma DecodeEncode(r: int, rest: string)
    requires IsScalar(r)
    ensures DecodeRune(Encode(r) + rest) == (r, |Encode(r)|)
  {
    var e := Encode(r);
    EncodedSize(r, rest);
    assert forall i :: 0 <= i < |e| ==> At(e + rest, i) == e[i] as int;
  }

  /** A following byte that is no continuation byte does not change the reading. */
  lemma DecodeIgnoresAscii(s: string, c: char)
    requires s != "" && c as int < 0x80
    ensures DecodeRune(s + [c]) == DecodeRune(s)
  {
  }

  /** One UTF8-char of the grammar in section 4 of RFC 3629. */
  predicate IsUtf8Char(s: string) {
    var b0, b1, b2, b3 := At(s, 0), At(s, 1), At(s, 2), At(s, 3);
    || (|s| == 1 && b0 <= 0x7F)
    || (|s| == 2 && 0xC2 <= b0 <= 0xDF && IsTail(b1))
    || (|s| == 3 && b0 == 0xE0 && 0xA0 <= b1 <= 0xBF && IsTail(b2))
    || (|s| == 3 && 0xE1 <= b0 <= 0xEC && IsTail(b1) && IsTail(b2))
    || (|s| == 3 && b0 == 0xED && 0x80 <= b1 <= 0x9F && IsTail(b2))
    || (|s| == 3 && 0xEE <= b0 <= 0xEF && IsTail(b1) && IsTail(b2))
    || (|s| == 4 && b0 == 0xF0 && 0x90 <= b1 <= 0xBF && IsTail(b2) && IsTail(b3))
    || (|s| == 4 && 0xF1 <= b0 <= 0xF3 && IsTail(b1) && IsTail(b2) && IsTail(b3))
    || (|s| == 4 && b0 == 0xF4 && 0x80 <= b1 <= 0x8F && IsTail(b2) && IsTail(b3))
  }

  /** A text that splits into UTF8-chars. */
  ghost predicate IsUtf8(s: string) {
    s == "" || exists n :: 1 <= n <= |s| && IsUtf8Char(s[..n]) && IsUtf8(s[n..])
  }

  lemma EncodeIsUtf8Char(r: int)
    requires IsScalar(r)
    ensures IsUtf8Char(Encode(r))
  {
  }

  /** The table of section 3 of RFC 3629: which rune a byte sequence spells. */
  predicate SpellsRune(s: string, r: int) {
    || (|s| == 1 && r < 0x80 && s[0] as int == r)
    || (|s| == 2 && 0x80 <= r < 0x800 && 0x80 <= s[1] as int < 0xC0
        && r == 64 * (s[0] as int - 0xC0) + (s[1] as int - 0x80))
    || (|s| == 3 && 0x800 <= r < 0x10000 && 0x80 <= s[1] as int < 0xC0 && 0x80 <= s[2] as int < 0xC0
        && r == 64 * (64 * (s[0] as int - 0xE0) + (s[1] as int - 0x80)) + (s[2] as int - 0x80))
    || (|s| == 4 && 0x10000 <= r
        && 0x80 <= s[1] as int < 0xC0 && 0x80 <= s[2] as int < 0xC0 && 0x80 <= s[3] as int < 0xC0
        && r == 64 * (64 * (64 * (s[0] as int - 0xF0) + (s[1] as int - 0x80)) + (s[2] as int - 0x80))
                + (s[3] as int - 0x80))
  }

  lemma EncodedExactly(r: int, s: string)
    requires 0 <= r < 0xD800 || 0xE000 <= r <= 0x10FFFF
    ensures Encode(r) == s <==> SpellsRune(s, r)
  {
    EncodeSpells(r);
    if SpellsRune(s, r) {
      SpelledOnce(r, s, Encode(r));
    }
  }

  lemma EncodeSpells(r: int)
    requires IsScalar(r)
    ensures SpellsRune(Encode(r), r)
  {
  }

  /** Base 64 digits are unique. */
  lemma SpelledOnce(r: int, s: string, t: string)
    requires SpellsRune(s, r) && SpellsRune(t, r)
    ensures s == t
  {
    if |s| == 2 {
      SameDigits(s[0] as int - 0xC0, s[1] as int - 0x80, t[0] as int - 0xC0, t[1] as int - 0x80);
    } else if |s| == 3 {
      var x, y := 64 * (s[0] as int - 0xE0) + (s[1] as int - 0x80), 64 * (t[0] as int - 0xE0) + (t[1] as int - 0x80);
      SameDigits(x, s[2] as int - 0x80, y, t[2] as int - 0x80);
    } else if |s| == 4 {
      var x, y := 64 * (s[0] as int - 0xF0) + (s[1] as int - 0x80), 64 * (t[0] as int - 0xF0) + (t[1] as int - 0x80);
      SameDigits(64 * x + (s[2] as int - 0x80), s[3] as int - 0x80, 64 * y + (t[2] as int - 0x80), t[3] as int - 0x80);
    }
  }

  lemma SameDigits(q: int, a: int, p: int, b: int)
    requires 0 <= a < 64 && 0 <= b < 64 && 64 * q + a == 64 * p + b
    ensures q == p && a == b
  {
  }

  /** A UTF8-char is the encoding of some scalar value. */
  lemma Utf8CharIsEncoded(s: string)
    ensures IsUtf8Char(s) <==> exists r :: IsScalar(r) && Encode(r) == s
  {
    if IsUtf8Char(s) {
      assert Size(s) == |s| && s[..|s|] == s;
      DecodeIsExact(s);
    }
    if exists r :: IsScalar(r) && Encode(r) == s {
      var r :| IsScalar(r) && Encode(r) == s;
      EncodeIsUtf8Char(r);
    }
  }

  lemma Utf8CharThen(first: string, rest: string)
    requires IsUtf8Char(first) && IsUtf8(rest)
    ensures IsUtf8(first + rest)
  {
    var s := first + rest;
    assert s[..|first|] == first && s[|first|..] == rest;
  }

  predicate IsAscii(s: string) {
    forall i :: 0 <= i < |s| ==> s[i] as int < 0x80
  }

  lemma OneAsciiThen(c: char, rest: string)
    requires c as int < 0x80 && IsUtf8(rest)
    ensures IsUtf8([c] + rest)
  {
    assert IsUtf8Char([c]);
    Utf8CharThen([c], rest);
  }

  lemma SplitFirst(s: string, rest: string)
    requires s != ""
    ensures [s[0]] + (s[1..] + rest) == s + rest
  {
  }

  lemma {:induction false} AsciiThen(ascii: string, rest: string)
    requires IsAscii(ascii) && IsUtf8(rest)
    ensures IsUtf8(ascii + rest)
  {
    if ascii == "" {
      assert ascii + rest == rest;
    } else {
      AsciiThen(ascii[1..], rest);
      OneAsciiThen(ascii[0], ascii[1..] + rest);
      SplitFirst(ascii, rest);
    }
  }

  lemma PrefixBytes(s: string, n: nat)
    requires n <= |s| && n <= 4
    ensures forall i :: 0 <= i < n ==> At(s[..n], i) == At(s, i)
    ensures forall i :: n <= i < 4 ==> At(s[..n], i) == -1
  {
  }

  /** A sequence that is recognised is one UTF8-char, and encoding its rune gives it back. */
  lemma DecodeIsExact(s: string)
    requires s != "" && Size(s) > 0
    ensures IsUtf8Char(s[..Size(s)]) && Encode(DecodeRune(s).0) == s[..Size(s)]
  {
    var n := Size(s);
    PrefixBytes(s, n);
    EncodeGivesBytes(DecodeRune(s).0, s[..n]);
  }

  /** The bytes of a well-formed sequence are those of the rune they spell. */
  lemma EncodeGivesBytes(r: int, s: string)
    requires IsScalar(r) && IsUtf8Char(s) && DecodeRune(s) == (r, |s|)
    ensures Encode(r) == s
  {
    if |s| == 1 {
    } else if |s| == 2 {
      Quotient(At(s, 0) - 0xC0, At(s, 1) - 0x80);
    } else if |s| == 3 {
      Quotient(64 * (At(s, 0) - 0xE0) + (At(s, 1) - 0x80), At(s, 2) - 0x80);
      Quotient(At(s, 0) - 0xE0, At(s, 1) - 0x80);
    } else {
      EncodeGivesFourBytes(r, s);
    }
  }

  lemma EncodeGivesFourBytes(r: int, s: string)
    requires IsScalar(r) && IsUtf8Char(s) && DecodeRune(s) == (r, |s|) && |s| == 4
    ensures Encode(r) == s
  {
    var a, b, c, d := At(s, 0) - 0xF0, At(s, 1) - 0x80, At(s, 2) - 0x80, At(s, 3) - 0x80;
    assert r == 64 * (64 * (64 * a + b) + c) + d;
    Quotient(64 * (64 * a + b) + c, d);
    Quotient(64 * a + b, c);
    Quotient(a, b);
  }

  lemma Quotient(q: int, r: int)
    requires 0 <= r < 64
    ensures (64 * q + r) / 64 == q && (64 * q + r) % 64 == r
  {
  }

  /** A byte is replaced exactly when no UTF8-char starts there. */
  lemma ReplacedExactly(s: string, n: nat)
    requires s != "" && n <= |s| && Size(s) == 0
    ensures !IsUtf8Char(s[..n]) && DecodeRune(s) == (0xFFFD, 1)
  {
  }
}

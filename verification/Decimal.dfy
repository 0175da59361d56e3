/** Decimal digit texts: powers of ten, the number a text denotes, and Itoa. */
module Digits {
  import opened Text

  function Pow10(n: nat): (p: int)
    ensures p > 0
  {
    if n == 0 then 1 else 10 * Pow10(n - 1)
  }

  lemma {:induction false} Pow10Adds(m: nat, n: nat)
    ensures Pow10(m + n) == Pow10(m) * Pow10(n)
  {
    if m > 0 {
      Pow10Adds(m - 1, n);
      assert Pow10(m + n) == 10 * (Pow10(m - 1) * Pow10(n)) == (10 * Pow10(m - 1)) * Pow10(n);
    }
  }

  lemma NegativeProduct(x: int, y: int)
    ensures -(x * y) == -x * y
  {
  }

  /** The number a text of digits denotes. */
  function ToNat(s: string): nat
    requires AllDigits(s)
  {
    if s == "" then 0 else 10 * ToNat(s[..|s| - 1]) + (s[|s| - 1] as int - '0' as int)
  }

  function Zeros(n: nat): (s: string)
    ensures |s| == n && AllDigits(s)
  {
    seq(n, _ => '0')
  }

  lemma ToNatSnoc(s: string, c: char)
    requires AllDigits(s) && IsDigit(c)
    ensures AllDigits(s + [c]) && ToNat(s + [c]) == 10 * ToNat(s) + (c as int - '0' as int)
  {
  }

  /** Positional notation. */
  lemma ToNatExactly(s: string, c: char)
    requires AllDigits(s) && IsDigit(c)
    ensures ToNat("") == 0
    ensures AllDigits(s + [c]) && ToNat(s + [c]) == 10 * ToNat(s) + (c as int - 0x30)
  {
  }

  lemma AllDigitsConcat(s: string, t: string)
    ensures AllDigits(s + t) <==> AllDigits(s) && AllDigits(t)
  {
    if AllDigits(s + t) {
      forall i | 0 <= i < |s| ensures IsDigit(s[i]) { assert (s + t)[i] == s[i]; }
      forall i | 0 <= i < |t| ensures IsDigit(t[i]) { assert (s + t)[|s| + i] == t[i]; }
    }
  }

  lemma ShiftStep(x: int, p: int, y: int, d: int)
    ensures 10 * (x * p + y) + d == x * (10 * p) + (10 * y + d)
  {
  }

  lemma {:induction false} ToNatConcat(s: string, t: string)
    requires AllDigits(s) && AllDigits(t)
    ensures AllDigits(s + t) && ToNat(s + t) == ToNat(s) * Pow10(|t|) + ToNat(t)
  {
    AllDigitsConcat(s, t);
    if t == "" {
      assert s + t == s;
    } else {
      var front, c := t[..|t| - 1], t[|t| - 1];
      ToNatConcat(s, front);
      ToNatSnoc(s + front, c);
      assert s + t == s + front + [c];
      ShiftStep(ToNat(s), Pow10(|front|), ToNat(front), c as int - '0' as int);
    }
  }

  lemma {:induction false} ToNatZeros(n: nat)
    ensures ToNat(Zeros(n)) == 0
  {
    if n > 0 {
      ToNatZeros(n - 1);
      assert Zeros(n)[..n - 1] == Zeros(n - 1);
    }
  }

  lemma {:induction false} ToNatBound(s: string)
    requires AllDigits(s)
    ensures ToNat(s) < Pow10(|s|)
  {
    if s != "" {
      ToNatBound(s[..|s| - 1]);
    }
  }

  /** A text that does not start with zero denotes a number of that many digits. */
  lemma {:induction false} ToNatLeads(s: string)
    requires AllDigits(s) && s != "" && s[0] != '0'
    ensures ToNat(s) >= Pow10(|s| - 1)
  {
    if |s| == 1 {
      assert s[..0] == "";
    } else {
      ToNatLeads(s[..|s| - 1]);
    }
  }

  lemma {:induction false} Pow10Grows(m: int, n: int)
    ensures 0 <= m <= n ==> Pow10(m) <= Pow10(n)
    decreases n
  {
    if 0 <= m < n {
      Pow10Grows(m, n - 1);
    }
  }

  lemma LastDigit(x: int, a: int, y: int, b: int)
    requires 0 <= a <= 9 && 0 <= b <= 9 && 10 * x + a == 10 * y + b
    ensures x == y && a == b
  {
  }

  lemma {:induction false} ToNatSameLength(s: string, t: string)
    requires AllDigits(s) && AllDigits(t) && |s| == |t| && ToNat(s) == ToNat(t)
    ensures s == t
  {
    if s != "" {
      var a, b := s[|s| - 1] as int - '0' as int, t[|t| - 1] as int - '0' as int;
      LastDigit(ToNat(s[..|s| - 1]), a, ToNat(t[..|t| - 1]), b);
      ToNatSameLength(s[..|s| - 1], t[..|t| - 1]);
      assert s == s[..|s| - 1] + [s[|s| - 1]] && t == t[..|t| - 1] + [t[|t| - 1]];
    }
  }

  /** Without leading zeros, equal numbers have equal texts. */
  lemma ToNatInjective(s: string, t: string)
    requires AllDigits(s) && s != "" && s[0] != '0'
    requires AllDigits(t) && t != "" && t[0] != '0'
    requires ToNat(s) == ToNat(t)
    ensures s == t
  {
    ToNatBound(s);
    ToNatBound(t);
    ToNatLeads(s);
    ToNatLeads(t);
    Pow10Grows(|s|, |t| - 1);
    Pow10Grows(|t|, |s| - 1);
    ToNatSameLength(s, t);
  }

  function DigitChar(d: int): (c: char)
    requires 0 <= d <= 9
    ensures IsDigit(c) && c as int == d + '0' as int
  {
    (d + '0' as int) as char
  }

  /** strconv.Itoa on a natural number. */
  function Itoa(n: nat): string {
    if n < 10 then [DigitChar(n)] else Itoa(n / 10) + [DigitChar(n % 10)]
  }

  lemma {:induction false} ItoaDenotes(n: nat)
    ensures AllDigits(Itoa(n)) && Itoa(n) != "" && ToNat(Itoa(n)) == n
    ensures Itoa(n)[0] == '0' ==> Itoa(n) == "0"
  {
    if n < 10 {
      ToNatSnoc("", DigitChar(n));
      assert "" + [DigitChar(n)] == [DigitChar(n)];
    } else {
      ItoaDenotes(n / 10);
      ToNatSnoc(Itoa(n / 10), DigitChar(n % 10));
      assert ToNat("0") == 0 by { ToNatZeros(1); assert Zeros(1) == "0"; }
    }
  }

  lemma ItoaInjective(m: nat, n: nat)
    requires Itoa(m) == Itoa(n)
    ensures m == n
  {
    ItoaDenotes(m);
    ItoaDenotes(n);
  }

  /** strconv.FormatInt in base ten. */
  function FormatInt(z: int): string {
    if z < 0 then "-" + Itoa(-z) else Itoa(z)
  }
}

/** The number syntax of JSON (section 6 of RFC 8259) and what a text of it denotes. */
module JsonNumber {
  import opened Text
  import opened Digits

  datatype Exponent = NoExponent | Exponent(letter: char, sign: string, digits: string)

  datatype Decimal = Decimal(negative: bool, whole: string, fraction: string, exponent: Exponent)

  // ----- Syntax

  predicate WellFormedExponent(e: Exponent) {
    e.NoExponent? || (e.letter in {'e', 'E'} && e.sign in {"", "+", "-"} && e.digits != "" && AllDigits(e.digits))
  }

  predicate WellFormed(d: Decimal) {
    && d.whole != "" && AllDigits(d.whole)
    && (d.whole[0] == '0' ==> d.whole == "0")
    && AllDigits(d.fraction)
    && WellFormedExponent(d.exponent)
  }

  function PrintExponent(e: Exponent): string {
    match e
    case NoExponent => ""
    case Exponent(letter, sign, digits) => [letter] + sign + digits
  }

  function PrintFraction(d: Decimal): string {
    if d.fraction == "" then PrintExponent(d.exponent) else "." + (d.fraction + PrintExponent(d.exponent))
  }

  /** The text of a decimal, part by part as in the grammar. */
  function Print(d: Decimal): string {
    if d.negative then "-" + (d.whole + PrintFraction(d)) else d.whole + PrintFraction(d)
  }

  /** How many digits a text starts with. */
  function DigitRun(s: string): (n: nat)
    ensures n <= |s| && AllDigits(s[..n])
    ensures n < |s| ==> !IsDigit(s[n])
  {
    if s == "" || !IsDigit(s[0]) then 0
    else
      var n := 1 + DigitRun(s[1..]);
      assert forall i :: 1 <= i < n ==> s[i] == s[1..][..n - 1][i - 1];
      n
  }

  lemma DigitRunOf(digits: string, rest: string)
    requires AllDigits(digits) && (rest == "" || !IsDigit(rest[0]))
    ensures DigitRun(digits + rest) == |digits|
    ensures (digits + rest)[..|digits|] == digits && (digits + rest)[|digits|..] == rest
  {
  }

  function ParseExponent(s: string): Option<Exponent> {
    if s == "" then Some(NoExponent)
    else if s[0] !in {'e', 'E'} then None
    else
      var signed := |s| > 1 && s[1] in {'+', '-'};
      var sign := if signed then [s[1]] else "";
      var digits := if signed then s[2..] else s[1..];
      if digits != "" && AllDigits(digits) then Some(Exponent(s[0], sign, digits)) else None
  }

  function ParseTail(negative: bool, whole: string, fraction: string, s: string): Option<Decimal> {
    match ParseExponent(s)
    case None => None
    case Some(e) => Some(Decimal(negative, whole, fraction, e))
  }

  function ParseFraction(negative: bool, whole: string, s: string): Option<Decimal> {
    if s == "" || s[0] != '.' then ParseTail(negative, whole, "", s)
    else
      var rest := s[1..];
      var n := DigitRun(rest);
      if n == 0 then None else ParseTail(negative, whole, rest[..n], rest[n..])
  }

  function ParseWhole(negative: bool, s: string): Option<Decimal> {
    var n := DigitRun(s);
    if n == 0 || (s[0] == '0' && n > 1) then None else ParseFraction(negative, s[..n], s[n..])
  }

  /** A recogniser that reads the text from left to right. */
  function Parse(s: string): Option<Decimal> {
    if s != "" && s[0] == '-' then ParseWhole(true, s[1..]) else ParseWhole(false, s)
  }

  lemma Behead(c: char, rest: string)
    ensures ([c] + rest)[0] == c && ([c] + rest)[1..] == rest
  {
  }

  lemma ParsePrintExponent(e: Exponent)
    requires WellFormedExponent(e)
    ensures ParseExponent(PrintExponent(e)) == Some(e)
  {
  }

  lemma PrintParseExponent(s: string)
    requires ParseExponent(s).Some?
    ensures var e := ParseExponent(s).value; WellFormedExponent(e) && PrintExponent(e) == s
  {
  }

  lemma PrintedExponentStarts(e: Exponent)
    requires WellFormedExponent(e)
    ensures PrintExponent(e) == "" || PrintExponent(e)[0] in {'e', 'E'}
  {
  }

  lemma ParsePrintFraction(d: Decimal)
    requires WellFormed(d)
    ensures ParseFraction(d.negative, d.whole, PrintFraction(d)) == Some(d)
    ensures PrintFraction(d) == "" || !IsDigit(PrintFraction(d)[0])
  {
    var s, e := PrintFraction(d), PrintExponent(d.exponent);
    ParsePrintExponent(d.exponent);
    PrintedExponentStarts(d.exponent);
    if d.fraction == "" {
      assert s == e;
    } else {
      Behead('.', d.fraction + e);
      DigitRunOf(d.fraction, e);
    }
  }

  lemma ParsePrintWhole(d: Decimal)
    requires WellFormed(d)
    ensures ParseWhole(d.negative, d.whole + PrintFraction(d)) == Some(d)
  {
    ParsePrintFraction(d);
    DigitRunOf(d.whole, PrintFraction(d));
    assert (d.whole + PrintFraction(d))[0] == d.whole[0];
  }

  /** Reading back the text of a decimal gives the decimal. */
  lemma ParsePrint(d: Decimal)
    requires WellFormed(d)
    ensures Parse(Print(d)) == Some(d)
  {
    hide ParseWhole, PrintFraction, DigitRun;
    var body := d.whole + PrintFraction(d);
    ParsePrintWhole(d);
    Behead('-', body);
    assert body[0] == d.whole[0];
  }

  lemma PrintParseFraction(negative: bool, whole: string, s: string)
    requires ParseFraction(negative, whole, s).Some?
    ensures var d := ParseFraction(negative, whole, s).value;
            && d.negative == negative && d.whole == whole && AllDigits(d.fraction)
            && WellFormedExponent(d.exponent) && PrintFraction(d) == s
  {
    hide ParseExponent, PrintExponent, DigitRun, WellFormedExponent;
    if s == "" || s[0] != '.' {
      PrintParseExponent(s);
    } else {
      var rest := s[1..];
      var n := DigitRun(rest);
      PrintParseExponent(rest[n..]);
      assert rest == rest[..n] + rest[n..];
      assert s == "." + rest;
    }
  }

  lemma PrintParseWhole(negative: bool, s: string)
    requires ParseWhole(negative, s).Some?
    ensures var d := ParseWhole(negative, s).value;
            WellFormed(d) && d.negative == negative && d.whole + PrintFraction(d) == s
  {
    var n := DigitRun(s);
    PrintParseFraction(negative, s[..n], s[n..]);
    assert s == s[..n] + s[n..];
  }

  /** Whatever is read is well-formed and prints as the text it was read from. */
  lemma PrintParse(s: string)
    requires Parse(s).Some?
    ensures WellFormed(Parse(s).value) && Print(Parse(s).value) == s
  {
    if s != "" && s[0] == '-' {
      PrintParseWhole(true, s[1..]);
      assert s == "-" + s[1..];
    } else {
      PrintParseWhole(false, s);
    }
  }

  // ----- Value

  /** m times ten to the e, for any integer e. */
  function Scaled(m: int, e: int): real
    decreases if e >= 0 then e else -e
  {
    if e == 0 then m as real
    else if e > 0 then 10.0 * Scaled(m, e - 1)
    else Scaled(m, e + 1) / 10.0
  }

  function ExponentValue(e: Exponent): int
    requires WellFormedExponent(e)
  {
    if e.NoExponent? then 0 else if e.sign == "-" then -(ToNat(e.digits) as int) else ToNat(e.digits)
  }

  /** All digits read as one number, the radix point ignored. */
  function Mantissa(d: Decimal): nat
    requires WellFormed(d)
  {
    AllDigitsConcat(d.whole, d.fraction);
    ToNat(d.whole + d.fraction)
  }

  function Signed(negative: bool, n: int): int {
    if negative then -n else n
  }

  /** Where the radix point is, as a power of ten. */
  function Scale(d: Decimal): int
    requires WellFormed(d)
  {
    ExponentValue(d.exponent) - |d.fraction|
  }

  /** The real number a decimal denotes. */
  function Value(d: Decimal): real
    requires WellFormed(d)
  {
    Scaled(Signed(d.negative, Mantissa(d)), Scale(d))
  }

  /** The value, spelled out: sign, all digits, and a power of ten. */
  lemma ValueExactly(d: Decimal)
    requires WellFormed(d)
    ensures AllDigits(d.whole + d.fraction)
    ensures var exponent := if d.exponent.NoExponent? then 0
                            else if d.exponent.sign == "-" then -(ToNat(d.exponent.digits) as int)
                            else ToNat(d.exponent.digits);
            && ExponentValue(d.exponent) == exponent
            && Mantissa(d) == ToNat(d.whole + d.fraction) && Scale(d) == exponent - |d.fraction|
            && Value(d) == Scaled(if d.negative then -(Mantissa(d) as int) else Mantissa(d), Scale(d))
  {
    AllDigitsConcat(d.whole, d.fraction);
  }

  lemma ScaledExactly(m: int, e: int)
    ensures Scaled(m, 0) == m as real
    ensures Scaled(m, e + 1) == 10.0 * Scaled(m, e)
  {
  }

  // ----- Arithmetic of values

  lemma {:induction false} ScaledStep(m: int, e: int)
    ensures Scaled(10 * m, e) == Scaled(m, e + 1)
    decreases if e >= 0 then e else -e
  {
    if e > 0 {
      ScaledStep(m, e - 1);
    } else if e < 0 {
      ScaledStep(m, e + 1);
    }
  }

  lemma {:induction false} ScaledInjective(m: int, n: int, e: int)
    ensures Scaled(m, e) == Scaled(n, e) <==> m == n
    decreases if e >= 0 then e else -e
  {
    if e > 0 {
      ScaledInjective(m, n, e - 1);
    } else if e < 0 {
      ScaledInjective(m, n, e + 1);
    }
  }

  lemma {:induction false} ScaledShift(m: int, e: int, j: nat)
    ensures Scaled(m * Pow10(j), e) == Scaled(m, e + j)
    decreases j
  {
    if j == 0 {
      assert m * 1 == m;
    } else {
      assert m * Pow10(j) == 10 * (m * Pow10(j - 1));
      ScaledStep(m * Pow10(j - 1), e);
      ScaledShift(m, e + 1, j - 1);
    }
  }

  /** Two scaled integers are equal exactly when they are equal over the smaller scale. */
  lemma CompareScaled(m: int, n: int, e: int, j: nat)
    ensures Scaled(m, e) == Scaled(n, e + j) <==> m == n * Pow10(j)
  {
    ScaledShift(n, e, j);
    ScaledInjective(m, n * Pow10(j), e);
  }
}

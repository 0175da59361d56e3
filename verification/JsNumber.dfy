/** Numbers as JavaScript prints them: Number::toString, section 6.1.6.1.20 of
    ECMA-262. The shortest digits that round-trip are taken as given; their
    layout is what is modelled. */
module JsNumber {
  import opened Text
  import opened Digits
  import opened JsonNumber

  /** A float64: the value of a finite one is 0.digits times ten to the `point`. */
  datatype Float =
    | Infinite
    | NotANumber
    | Zero(negative: bool)
    | Finite(negative: bool, digits: string, point: int)

  predicate CanonicalDigits(digits: string) {
    digits != "" && AllDigits(digits) && digits[0] != '0' && digits[|digits| - 1] != '0'
  }

  predicate Canonical(number: Float) {
    number.Finite? ==> CanonicalDigits(number.digits)
  }

  /** The decimal a finite number is printed as, by the four cases of the standard. */
  function Layout(negative: bool, digits: string, n: int): Decimal
    requires CanonicalDigits(digits)
  {
    var k := |digits|;
    if k <= n <= 21 then Decimal(negative, digits + Zeros(n - k), "", NoExponent)
    else if 0 < n <= 21 then Decimal(negative, digits[..n], digits[n..], NoExponent)
    else if -6 < n <= 0 then Decimal(negative, "0", Zeros(-n) + digits, NoExponent)
    else Decimal(negative, digits[..1], digits[1..],
                 if n - 1 >= 0 then Exponent('e', "+", Itoa(n - 1)) else Exponent('e', "-", Itoa(1 - n)))
  }

  function NumberText(number: Float): string
    requires Canonical(number)
  {
    match number
    case Infinite => "null"
    case NotANumber => "null"
    case Zero(_) => "0"
    case Finite(negative, digits, n) => Print(Layout(negative, digits, n))
  }

  /** The source's own steps: every repeat count is nonnegative and every slice
      in range, and the bytes appended are those of the standard's decimal. */
  method AppendNumber(dst: string, number: Float) returns (out: string)
    requires Canonical(number)
    ensures out == dst + NumberText(number)
  {
    match number
    case Infinite => return dst + "null";
    case NotANumber => return dst + "null";
    case Zero(_) => return dst + "0";
    case Finite(negative, digits, n) =>
      LayoutSign(digits, n);
      out := if negative then dst + "-" else dst;
      var text := AppendLayout(digits, n);
      Associative(dst, "-", text);
      out := out + text;
  }

  lemma LayoutSign(digits: string, n: int)
    requires CanonicalDigits(digits)
    ensures Print(Layout(true, digits, n)) == "-" + Print(Layout(false, digits, n))
  {
  }

  method AppendLayout(digits: string, n: int) returns (out: string)
    requires CanonicalDigits(digits)
    ensures out == Print(Layout(false, digits, n))
  {
    var k := |digits|;
    if k <= n && n <= 21 {
      out := digits + Zeros(n - k);
      return;
    }
    if 0 < n && n <= 21 {
      out := digits[..n] + ".";
      out := out + digits[n..];
      assert out == digits[..n] + ("." + (digits[n..] + ""));
      return;
    }
    if -6 < n && n <= 0 {
      out := "0.";
      out := out + Zeros(-n);
      out := out + digits;
      assert out == "0" + ("." + ((Zeros(-n) + digits) + ""));
      return;
    }
    out := AppendScientific(digits, n);
    ScientificIsLayout(digits, n);
  }

  /** One digit, the others after a point, and a signed exponent. */
  function Scientific(digits: string, n: int): string
    requires digits != ""
  {
    (if |digits| > 1 then [digits[0]] + "." + digits[1..] else [digits[0]]) + SignedExponent(n)
  }

  function SignedExponent(n: int): string {
    "e" + (if n - 1 >= 0 then "+" else "") + FormatInt(n - 1)
  }

  method AppendScientific(digits: string, n: int) returns (out: string)
    requires digits != ""
    ensures out == Scientific(digits, n)
  {
    out := [digits[0]];
    if |digits| > 1 {
      out := out + ".";
      out := out + digits[1..];
    }
    ghost var front := out;
    out := out + "e";
    if n - 1 >= 0 {
      out := out + "+";
    }
    out := out + FormatInt(n - 1);
    assert out == front + SignedExponent(n);
  }

  lemma ScientificIsLayout(digits: string, n: int)
    requires CanonicalDigits(digits)
    requires n <= -6 || n > 21
    ensures Print(Layout(false, digits, n)) == Scientific(digits, n)
  {
    var d := Layout(false, digits, n);
    var tail := SignedExponent(n);
    ExponentText(digits, n);
    assert digits[..1] == [digits[0]];
    if |digits| > 1 {
      Associative([digits[0]] + ".", digits[1..], tail);
      Associative([digits[0]], ".", digits[1..] + tail);
    }
  }

  lemma ExponentText(digits: string, n: int)
    requires CanonicalDigits(digits)
    requires n <= -6 || n > 21
    ensures PrintExponent(Layout(false, digits, n).exponent) == SignedExponent(n)
  {
  }

  /** The four layouts, as texts. */
  lemma NumberTextCases(negative: bool, digits: string, n: int)
    requires CanonicalDigits(digits)
    ensures var text := NumberText(Finite(negative, digits, n));
            var sign := if negative then "-" else "";
            var mantissa := if |digits| == 1 then digits else digits[..1] + "." + digits[1..];
            && (|digits| <= n <= 21 ==> text == sign + (digits + seq(n - |digits|, _ => '0')))
            && (0 < n < |digits| && n <= 21 ==> text == sign + (digits[..n] + "." + digits[n..]))
            && (-6 < n <= 0 ==> text == sign + ("0." + seq(-n, _ => '0') + digits))
            && (n > 21 ==> text == sign + (mantissa + ("e+" + Itoa(n - 1))))
            && (n <= -6 ==> text == sign + (mantissa + ("e-" + Itoa(1 - n))))
  {
    LayoutSign(digits, n);
    PositiveCases(digits, n);
  }

  lemma PositiveCases(digits: string, n: int)
    requires CanonicalDigits(digits)
    ensures var text := Print(Layout(false, digits, n));
            var mantissa := if |digits| == 1 then digits else digits[..1] + "." + digits[1..];
            && (|digits| <= n <= 21 ==> text == digits + seq(n - |digits|, _ => '0'))
            && (0 < n < |digits| && n <= 21 ==> text == digits[..n] + "." + digits[n..])
            && (-6 < n <= 0 ==> text == "0." + seq(-n, _ => '0') + digits)
            && (n > 21 ==> text == mantissa + ("e+" + Itoa(n - 1)))
            && (n <= -6 ==> text == mantissa + ("e-" + Itoa(1 - n)))
  {
    hide Print, Layout;
    if n > 21 || n <= -6 {
      ExponentCases(digits, n);
    } else {
      PlainCases(digits, n);
    }
  }

  lemma PlainCases(digits: string, n: int)
    requires CanonicalDigits(digits) && -6 < n <= 21
    ensures var text := Print(Layout(false, digits, n));
            && (|digits| <= n ==> text == digits + seq(n - |digits|, _ => '0'))
            && (0 < n < |digits| ==> text == digits[..n] + "." + digits[n..])
            && (n <= 0 ==> text == "0." + seq(-n, _ => '0') + digits)
  {
    hide Print;
    if n <= 0 {
      assert Zeros(-n) == seq(-n, _ => '0');
      WithPoint("0", Zeros(-n) + digits);
      Associative("0.", Zeros(-n), digits);
    } else if |digits| <= n {
      assert Zeros(n - |digits|) == seq(n - |digits|, _ => '0');
      WithoutPoint(digits + Zeros(n - |digits|));
    } else {
      WithPoint(digits[..n], digits[n..]);
    }
  }

  lemma WithPoint(whole: string, fraction: string)
    requires fraction != ""
    ensures Print(Decimal(false, whole, fraction, NoExponent)) == whole + "." + fraction
  {
    assert fraction + "" == fraction;
    Associative(whole, ".", fraction);
  }

  lemma WithoutPoint(whole: string)
    ensures Print(Decimal(false, whole, "", NoExponent)) == whole
  {
  }

  lemma ExponentCases(digits: string, n: int)
    requires CanonicalDigits(digits) && (n > 21 || n <= -6)
    ensures var mantissa := if |digits| == 1 then digits else digits[..1] + "." + digits[1..];
            Print(Layout(false, digits, n)) == mantissa + (if n > 21 then "e+" + Itoa(n - 1) else "e-" + Itoa(1 - n))
  {
    hide Print, Layout;
    ScientificIsLayout(digits, n);
    assert digits[..1] == [digits[0]];
    assert SignedExponent(n) == (if n > 21 then "e+" + Itoa(n - 1) else "e-" + Itoa(1 - n)) by {
      ExponentSign(n);
    }
  }

  lemma ExponentSign(n: int)
    ensures n >= 1 ==> SignedExponent(n) == "e+" + Itoa(n - 1)
    ensures n <= 0 ==> SignedExponent(n) == "e-" + Itoa(1 - n)
  {
    assert "e" + "+" == "e+" && "e" + "" == "e";
    Associative("e", "-", Itoa(if n <= 0 then 1 - n else 0));
    assert "e" + "-" == "e-";
  }

  /** Zeros lose their sign, and what is no JSON number is null. */
  lemma SpecialTexts(negative: bool)
    ensures NumberText(Zero(negative)) == "0"
    ensures NumberText(Infinite) == "null" && NumberText(NotANumber) == "null"
  {
  }

  // ----- Exactness

  lemma LayoutIsJson(negative: bool, digits: string, n: int)
    requires CanonicalDigits(digits)
    ensures WellFormed(Layout(negative, digits, n))
  {
    if n <= -6 || n > 21 {
      ItoaDenotes(if n - 1 >= 0 then n - 1 else 1 - n);
    }
  }

  lemma PaddedDigits(digits: string, zeros: nat)
    requires AllDigits(digits)
    ensures AllDigits(digits + Zeros(zeros)) && ToNat(digits + Zeros(zeros)) == ToNat(digits) * Pow10(zeros)
    ensures AllDigits(Zeros(zeros) + digits) && ToNat(Zeros(zeros) + digits) == ToNat(digits)
  {
    ToNatConcat(digits, Zeros(zeros));
    ToNatConcat(Zeros(zeros), digits);
    ToNatZeros(zeros);
  }

  /** The digits of a layout, radix point ignored. */
  lemma LayoutDigits(negative: bool, digits: string, n: int)
    requires CanonicalDigits(digits)
    ensures var d := Layout(negative, digits, n);
            d.whole + d.fraction ==
            if |digits| <= n <= 21 then digits + Zeros(n - |digits|)
            else if -6 < n <= 0 then Zeros(1 - n) + digits
            else digits
  {
  }

  lemma LayoutScale(negative: bool, digits: string, n: int)
    requires CanonicalDigits(digits) && WellFormed(Layout(negative, digits, n))
    ensures Scale(Layout(negative, digits, n)) == if |digits| <= n <= 21 then 0 else n - |digits|
    ensures Layout(negative, digits, n).negative == negative
  {
    if n <= -6 || n > 21 {
      ItoaDenotes(if n - 1 >= 0 then n - 1 else 1 - n);
    }
  }

  /** The integer those digits spell. */
  lemma LayoutMantissa(negative: bool, digits: string, n: int)
    requires CanonicalDigits(digits) && WellFormed(Layout(negative, digits, n))
    ensures Mantissa(Layout(negative, digits, n)) ==
            if |digits| <= n <= 21 then ToNat(digits) * Pow10(n - |digits|) else ToNat(digits)
  {
    LayoutDigits(negative, digits, n);
    PaddedDigits(digits, if |digits| <= n then n - |digits| else if n <= 0 then 1 - n else 0);
  }

  lemma SignedProduct(negative: bool, m: nat, j: nat)
    ensures Signed(negative, m * Pow10(j)) == Signed(negative, m) * Pow10(j)
  {
  }

  /** The text of a finite number is a JSON number denoting exactly
      digits times ten to the (n - k). */
  lemma NumberTextIsExact(number: Float)
    requires number.Finite? && Canonical(number)
    ensures var d := Layout(number.negative, number.digits, number.point);
            && WellFormed(d)
            && Parse(NumberText(number)) == Some(d)
            && Value(d) == Scaled(Signed(number.negative, ToNat(number.digits)), number.point - |number.digits|)
  {
    hide Layout, Parse, Print, Mantissa, Scale, ToNat, Pow10, Scaled;
    var d := Layout(number.negative, number.digits, number.point);
    LayoutIsJson(number.negative, number.digits, number.point);
    ParsePrint(d);
    LayoutScale(number.negative, number.digits, number.point);
    LayoutMantissa(number.negative, number.digits, number.point);
    if |number.digits| <= number.point <= 21 {
      var j := number.point - |number.digits|;
      SignedProduct(number.negative, ToNat(number.digits), j);
      ScaledShift(Signed(number.negative, ToNat(number.digits)), 0, j);
    }
  }

  lemma LastDigitOf(digits: string)
    requires CanonicalDigits(digits)
    ensures ToNat(digits) % 10 != 0 && ToNat(digits) > 0
  {
  }

  lemma TrailingZeros(x: int, j: nat)
    ensures j > 0 ==> (x * Pow10(j)) % 10 == 0
    ensures x * Pow10(0) == x
  {
    if j > 0 {
      TenTimes(x, Pow10(j - 1));
    }
  }

  lemma TenTimes(x: int, p: int)
    ensures (x * (10 * p)) % 10 == 0
  {
    assert x * (10 * p) == 10 * (x * p);
  }

  lemma SameSignedNumber(p: bool, q: bool, x: nat, y: nat)
    requires x > 0 && y > 0 && Signed(p, x) == Signed(q, y)
    ensures p == q && x == y
  {
  }

  lemma SameScale(x: int, y: int, j: nat)
    requires x == y * Pow10(j) && x % 10 != 0
    ensures j == 0 && x == y
  {
    TrailingZeros(y, j);
  }

  lemma SignedRemainder(negative: bool, m: nat)
    requires m % 10 != 0
    ensures Signed(negative, m) % 10 != 0
  {
  }

  lemma OrderedFormsAgree(a: Float, b: Float)
    requires a.Finite? && Canonical(a) && b.Finite? && Canonical(b)
    requires a.point - |a.digits| <= b.point - |b.digits|
    requires Scaled(Signed(a.negative, ToNat(a.digits)), a.point - |a.digits|)
          == Scaled(Signed(b.negative, ToNat(b.digits)), b.point - |b.digits|)
    ensures a == b
  {
    var e, j := a.point - |a.digits|, (b.point - |b.digits|) - (a.point - |a.digits|);
    var x, y := Signed(a.negative, ToNat(a.digits)), Signed(b.negative, ToNat(b.digits));
    LastDigitOf(a.digits);
    LastDigitOf(b.digits);
    SignedRemainder(a.negative, ToNat(a.digits));
    CompareScaled(x, y, e, j);
    SameScale(x, y, j);
    SameSignedNumber(a.negative, b.negative, ToNat(a.digits), ToNat(b.digits));
    ToNatInjective(a.digits, b.digits);
  }

  /** No number has two canonical forms. */
  lemma CanonicalFormIsUnique(a: Float, b: Float)
    requires a.Finite? && Canonical(a) && b.Finite? && Canonical(b)
    requires Scaled(Signed(a.negative, ToNat(a.digits)), a.point - |a.digits|)
          == Scaled(Signed(b.negative, ToNat(b.digits)), b.point - |b.digits|)
    ensures a == b
  {
    if a.point - |a.digits| <= b.point - |b.digits| {
      OrderedFormsAgree(a, b);
    } else {
      OrderedFormsAgree(b, a);
    }
  }

  /** Distinct finite numbers never print alike. */
  lemma NumberTextIsInjective(a: Float, b: Float)
    requires a.Finite? && Canonical(a) && b.Finite? && Canonical(b)
    ensures NumberText(a) == NumberText(b) <==> a == b
  {
    if NumberText(a) == NumberText(b) {
      NumberTextIsExact(a);
      NumberTextIsExact(b);
      CanonicalFormIsUnique(a, b);
    }
  }
}

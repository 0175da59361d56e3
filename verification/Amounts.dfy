/** Reading a JSON scalar as text. */
module Wire {
  import opened Text
  import opened JsonTree

  /** An absent field is read as null. */
  function RawString(raw: Json): string {
    match raw
    case Str(text) => TrimSpace(text)
    case Num(text) => text
    case Bool(flag) => if flag then "true" else "false"
    case _ => ""
  }

  /** Texts are trimmed, numbers keep the text they were written in, booleans are spelled
      out, and the rest is blank. */
  lemma RawStringExactly(text: string, fields: map<string, Json>, items: seq<Json>)
    ensures RawString(Str(text)) == TrimSpace(text) && RawString(Num(text)) == text
    ensures RawString(Bool(true)) == "true" && RawString(Bool(false)) == "false"
    ensures RawString(Null) == "" && RawString(Obj(fields)) == "" && RawString(Arr(items)) == ""
  {
  }
}

/** Whole-currency amounts: exact conversion of JSON decimals to int64. */
module Amounts {
  import opened Text
  import opened Digits
  import opened JsonTree
  import opened JsonNumber
  import opened Wire

  const MIN_INT64 := -0x8000_0000_0000_0000
  const MAX_INT64 := 0x7FFF_FFFF_FFFF_FFFF

  predicate InInt64(z: int) {
    MIN_INT64 <= z <= MAX_INT64
  }

  /** strconv.ParseInt(s, 10, 64) */
  function ParseInt(s: string): Option<int> {
    var signed := s != "" && s[0] in {'+', '-'};
    var digits := if signed then s[1..] else s;
    if digits == "" || !AllDigits(digits) then None
    else
      var z := Signed(s[0] == '-', ToNat(digits));
      if InInt64(z) then Some(z) else None
  }

  /** A rational in lowest terms, as far as the caller looks at it. */
  datatype Rat = Unread | Whole(n: int) | Fractional

  function RatOf(d: Decimal): Rat
    requires WellFormed(d)
  {
    var m, e := Mantissa(d), Scale(d);
    if e >= 0 then Whole(Signed(d.negative, m * Pow10(e)))
    else if m % Pow10(-e) == 0 then Whole(Signed(d.negative, m / Pow10(-e)))
    else Fractional
  }

  /** big.Rat reads an exponent as an int64, and refuses exponents beyond a limit except on zero. */
  predicate Readable(d: Decimal, limit: nat)
    requires WellFormed(d)
  {
    && InInt64(ExponentValue(d.exponent))
    && (Mantissa(d) == 0 || 0 - limit <= Scale(d) <= limit)
  }

  /** big.Rat's SetString on a text that passed the JSON number check. */
  function RatSetString(s: string, limit: nat): Rat {
    match Parse(s)
    case None => Unread
    case Some(d) =>
      PrintParse(s);
      if Readable(d, limit) then RatOf(d) else Unread
  }

  /** json.Number takes a JSON number, also inside a JSON string. */
  predicate UnmarshalsToNumber(s: string) {
    || Parse(s).Some?
    || (|s| >= 2 && s[0] == '"' && s[|s| - 1] == '"' && Parse(s[1..|s| - 1]).Some?)
  }

  function ParseAmount(raw: Json, limit: nat): Option<int> {
    var value := RawString(raw);
    if value == "" || !UnmarshalsToNumber(value) then None
    else match ParseInt(value)
      case Some(amount) => Some(amount)
      case None =>
        var ratio := RatSetString(value, limit);
        if ratio.Whole? && InInt64(ratio.n) then Some(ratio.n) else None
  }

  function ParseOptionalAmount(raw: Json, limit: nat): Option<int> {
    if raw.Null? then Some(0) else ParseAmount(raw, limit)
  }

  /** Reads an int of the given width, where a blank string counts as absent. */
  function ParseOptionalInt(raw: Json, limit: nat, maxInt: nat): Option<int> {
    if raw.Null? || (raw.Str? && TrimSpace(raw.text) == "") then Some(0)
    else match ParseAmount(raw, limit)
      case None => None
      case Some(number) => if 0 - maxInt - 1 <= number <= maxInt then Some(number) else None
  }

  // ----- Exactness

  /** The rational is whole exactly when the decimal denotes an integer, and is that integer. */
  lemma RatIsExact(d: Decimal, n: int)
    requires WellFormed(d)
    ensures RatOf(d) == Whole(n) <==> Value(d) == n as real
  {
    var m, e := Signed(d.negative, Mantissa(d)), Scale(d);
    assert n as real == Scaled(n, 0);
    if e >= 0 {
      CompareScaled(n, m, 0, e);
      NegativeProduct(Mantissa(d), Pow10(e));
    } else {
      CompareScaled(m, n, e, -e);
      Divides(Mantissa(d), Pow10(-e), Signed(d.negative, n));
      NegativeProduct(n, Pow10(-e));
    }
  }

  lemma Divides(m: nat, p: int, q: int)
    requires p > 0
    ensures m == q * p <==> m % p == 0 && m / p == q
  {
    if m == q * p {
      DivisionIsUnique(m, p, q, 0);
    }
  }

  lemma DivisionIsUnique(m: int, p: int, q: int, r: int)
    requires p > 0 && 0 <= r < p && m == q * p + r
    ensures m / p == q && m % p == r
  {
    var d := m / p - q;
    assert m == (m / p) * p + m % p;
    assert d * p == r - m % p;
    Multiples(d, p);
  }

  lemma Multiples(d: int, p: int)
    requires p > 0
    ensures d >= 1 ==> d * p >= p
    ensures d <= -1 ==> d * p <= -p
  {
  }

  /** Only a plain integer can take the fast path. */
  lemma FastPathIsPlain(s: string)
    requires Parse(s).Some? && ParseInt(s).Some?
    ensures var d := Parse(s).value;
            && WellFormed(d) && d.fraction == "" && d.exponent == NoExponent
            && ParseInt(s).value == Signed(d.negative, ToNat(d.whole))
  {
    PrintParse(s);
    var d := Parse(s).value;
    var tail := PrintFraction(d);
    if d.negative {
      Behead('-', d.whole + tail);
    } else {
      assert s[0] == d.whole[0];
    }
    ParsePrintFraction(d);
    AllDigitsConcat(d.whole, tail);
    assert tail == "";
    assert d.whole + tail == d.whole;
  }

  /** Where both paths apply they agree. */
  lemma FastPathAgrees(s: string, limit: nat)
    requires Parse(s).Some? && ParseInt(s).Some?
    ensures RatSetString(s, limit) == Whole(ParseInt(s).value)
  {
    FastPathIsPlain(s);
    var d := Parse(s).value;
    assert d.whole + d.fraction == d.whole;
    assert Mantissa(d) * Pow10(0) == Mantissa(d);
  }

  /** What it takes for a text to be read as the amount z: a JSON decimal with that value,
      within int64, and an exponent that big.Rat reads. */
  predicate Denotes(s: string, limit: nat, z: int) {
    match Parse(s)
    case None => false
    case Some(d) =>
      PrintParse(s);
      && -0x8000_0000_0000_0000 <= ExponentValue(d.exponent) <= 0x7FFF_FFFF_FFFF_FFFF
      && (Mantissa(d) == 0 || 0 - limit <= Scale(d) <= limit)
      && Value(d) == z as real
      && -0x8000_0000_0000_0000 <= z <= 0x7FFF_FFFF_FFFF_FFFF
  }

  lemma ReadIsExact(s: string, limit: nat, z: int)
    ensures RatSetString(s, limit) == Whole(z) && InInt64(z) <==> Denotes(s, limit, z)
  {
    if Parse(s).Some? {
      PrintParse(s);
      RatIsExact(Parse(s).value, z);
    }
  }

  lemma QuotedNumberIsNotRead(s: string)
    requires UnmarshalsToNumber(s) && Parse(s).None?
    ensures ParseInt(s).None?
  {
  }

  /** An amount is accepted exactly when its text is a JSON decimal that denotes an
      int64, and the result is that integer. */
  lemma AmountIsExact(raw: Json, limit: nat, z: int)
    ensures ParseAmount(raw, limit) == Some(z) <==> Denotes(RawString(raw), limit, z)
  {
    var value := RawString(raw);
    ReadIsExact(value, limit, z);
    if UnmarshalsToNumber(value) {
      if Parse(value).None? {
        QuotedNumberIsNotRead(value);
      } else if ParseInt(value).Some? {
        FastPathAgrees(value, limit);
      }
    }
  }

  lemma WrittenAmount(amount: int)
    ensures var text := FormatInt(amount);
            && Parse(text) == Some(Decimal(amount < 0, Itoa(if amount < 0 then -amount else amount), "", NoExponent))
            && Trimmed(text) && TrimSpace(text) == text
  {
    hide Itoa, Parse, TrimSpace;
    var text, n := FormatInt(amount), if amount < 0 then -amount else amount;
    var d := Decimal(amount < 0, Itoa(n), "", NoExponent);
    ItoaDenotes(n);
    assert PrintFraction(d) == "" && d.whole + "" == d.whole;
    assert text == Print(d);
    ParsePrint(d);
    assert IsDigit(text[|text| - 1]) && (IsDigit(text[0]) || text[0] == '-');
    TrimSpaceTrims(text);
  }

  lemma WrittenAmountDenotes(amount: int, limit: nat)
    requires InInt64(amount)
    ensures Denotes(FormatInt(amount), limit, amount)
  {
    WrittenAmount(amount);
    var n := if amount < 0 then -amount else amount;
    var d := Decimal(amount < 0, Itoa(n), "", NoExponent);
    ItoaDenotes(n);
    assert d.whole + d.fraction == d.whole;
    assert Mantissa(d) == n && Scale(d) == 0;
  }

  /** Reading an amount the SDK wrote gives the amount, as a number or as a string. */
  lemma AmountRoundTrip(amount: int, limit: nat)
    requires InInt64(amount)
    ensures ParseAmount(Num(FormatInt(amount)), limit) == Some(amount)
    ensures ParseAmount(Str(FormatInt(amount)), limit) == Some(amount)
  {
    hide Denotes, Parse, FormatInt, ParseAmount, TrimSpace, Trimmed;
    WrittenAmount(amount);
    WrittenAmountDenotes(amount, limit);
    AmountIsExact(Num(FormatInt(amount)), limit, amount);
    AmountIsExact(Str(FormatInt(amount)), limit, amount);
  }

  /** What is read where a value is optional: null is zero, and so is a blank text where an
      integer is wanted; everything else is an amount, within the platform's int. */
  lemma OptionalExactly(raw: Json, limit: nat, maxInt: nat)
    ensures ParseOptionalAmount(Null, limit) == Some(0)
    ensures ParseOptionalInt(Null, limit, maxInt) == Some(0)
    ensures raw.Str? && TrimSpace(raw.text) == "" ==>
              ParseOptionalAmount(raw, limit) == None && ParseOptionalInt(raw, limit, maxInt) == Some(0)
    ensures !raw.Null? ==> ParseOptionalAmount(raw, limit) == ParseAmount(raw, limit)
    ensures !raw.Null? && !(raw.Str? && TrimSpace(raw.text) == "") ==>
              forall z :: ParseOptionalInt(raw, limit, maxInt) == Some(z) <==>
                          ParseAmount(raw, limit) == Some(z) && 0 - maxInt - 1 <= z <= maxInt
  {
  }

  /** A value accepted as an amount is accepted as an optional integer exactly when
      it fits the platform's int. */
  lemma OptionalIntFollowsAmount(raw: Json, limit: nat, maxInt: nat)
    requires ParseAmount(raw, limit).Some?
    ensures ParseOptionalInt(raw, limit, maxInt) == ParseAmount(raw, limit) <==>
            0 - maxInt - 1 <= ParseAmount(raw, limit).value <= maxInt
    ensures ParseOptionalAmount(raw, limit) == ParseAmount(raw, limit)
  {
  }
}

/** Line items must add up to the amount, without int64 overflow. */
module Items {
  newtype int64 = x: int | -0x8000_0000_0000_0000 <= x < 0x8000_0000_0000_0000

  const MAX_INT64: int64 := 0x7FFF_FFFF_FFFF_FFFF

  datatype LineItem = LineItem(quantity: int64, unitPrice: int64)

  datatype Verdict = Accepted | NoItems | BadQuantity | BadPrice | Overflow | Mismatch(total: int)

  /** What one line costs, in unbounded arithmetic. */
  function Cost(item: LineItem): int {
    item.unitPrice as int * item.quantity as int
  }

  function Total(items: seq<LineItem>): int {
    if items == [] then 0 else Total(items[..|items| - 1]) + Cost(items[|items| - 1])
  }

  function TotalBefore(items: seq<LineItem>, n: nat): int
    requires n <= |items|
  {
    Total(items[..n])
  }

  predicate Sound(item: LineItem) {
    item.quantity > 0 && item.unitPrice >= 0
  }

  /** The verdict in unbounded arithmetic, the lines before `n` being sound and in
      range: an overflow is exactly a true total beyond int64. */
  function Judge(items: seq<LineItem>, n: nat, amount: int): Verdict
    requires n <= |items|
    decreases |items| - n
  {
    if n == |items| then
      if Total(items) == amount then Accepted else Mismatch(Total(items))
    else if items[n].quantity <= 0 then BadQuantity
    else if items[n].unitPrice < 0 then BadPrice
    else if TotalBefore(items, n + 1) > MAX_INT64 as int then Overflow
    else Judge(items, n + 1, amount)
  }

  lemma Quotient(x: int, q: int, max: int)
    requires q > 0 && x >= 0 && max >= 0
    ensures x > max / q <==> x * q > max
    ensures x * q >= 0 && 0 <= max / q <= max
  {
    var d := max / q;
    assert max == d * q + max % q;
    if x > d {
      ProductGrows(d + 1, x, q);
      ProductGrows(d, x, q);
    } else {
      ProductGrows(x, d, q);
    }
    ProductGrows(0, x, q);
  }

  lemma ProductGrows(x: int, y: int, q: int)
    requires x <= y && q > 0
    ensures x * q <= y * q && (x + 1) * q == x * q + q
  {
  }

  lemma TotalStep(items: seq<LineItem>, n: nat)
    requires n < |items|
    ensures TotalBefore(items, n + 1) == TotalBefore(items, n) + Cost(items[n])
  {
    assert items[..n + 1][..n] == items[..n];
  }

  /** The loop of the source. Every operation is on int64 and none wraps. */
  method ValidateItems(amount: int64, items: seq<LineItem>) returns (verdict: Verdict)
    ensures verdict == if items == [] then NoItems else Judge(items, 0, amount as int)
  {
    if |items| == 0 {
      return NoItems;
    }
    var total: int64 := 0;
    for i := 0 to |items|
      invariant total >= 0 && total as int == TotalBefore(items, i)
      invariant Judge(items, 0, amount as int) == Judge(items, i, amount as int)
    {
      var item := items[i];
      TotalStep(items, i);
      if item.quantity <= 0 {
        return BadQuantity;
      }
      if item.unitPrice < 0 {
        return BadPrice;
      }
      Quotient(item.unitPrice as int, item.quantity as int, MAX_INT64 as int);
      if item.unitPrice > MAX_INT64 / item.quantity {
        return Overflow;
      }
      var lineTotal := item.unitPrice * item.quantity;
      if total > MAX_INT64 - lineTotal {
        return Overflow;
      }
      total := total + lineTotal;
    }
    assert items[..|items|] == items;
    if total != amount {
      return Mismatch(total as int);
    }
    return Accepted;
  }

  lemma {:induction false} SoundTotalsGrow(items: seq<LineItem>, n: nat)
    requires n <= |items| && forall i :: 0 <= i < |items| ==> Sound(items[i])
    ensures TotalBefore(items, n) <= Total(items)
    decreases |items| - n
  {
    if n < |items| {
      TotalStep(items, n);
      Quotient(items[n].unitPrice as int, items[n].quantity as int, 0);
      SoundTotalsGrow(items, n + 1);
    } else {
      assert items[..n] == items;
    }
  }

  predicate LineFits(items: seq<LineItem>, i: nat)
    requires i < |items|
  {
    Sound(items[i]) && TotalBefore(items, i + 1) <= MAX_INT64 as int
  }

  lemma {:induction false} JudgeAccepts(items: seq<LineItem>, n: nat, amount: int)
    requires n <= |items|
    ensures Judge(items, n, amount) == Accepted <==>
            (forall i :: n <= i < |items| ==> LineFits(items, i)) && Total(items) == amount
    decreases |items| - n
  {
    if n < |items| {
      JudgeAccepts(items, n + 1, amount);
      assert Judge(items, n, amount) == Accepted <==> LineFits(items, n) && Judge(items, n + 1, amount) == Accepted;
    }
  }

  predicate Acceptable(items: seq<LineItem>, amount: int64) {
    && items != []
    && (forall i :: 0 <= i < |items| ==> items[i].quantity > 0 && items[i].unitPrice >= 0)
    && Total(items) == amount as int
  }

  lemma TotalExactly(items: seq<LineItem>, item: LineItem)
    ensures Total([]) == 0
    ensures Total(items + [item]) == Total(items) + item.unitPrice as int * item.quantity as int
  {
    var all := items + [item];
    assert all[..|all| - 1] == items;
  }

  /** A line that is refused, the lines before it being fine. */
  predicate Offends(items: seq<LineItem>, i: nat)
    requires i < |items|
  {
    items[i].quantity <= 0 || items[i].unitPrice < 0 || Total(items[..i + 1]) > 0x7FFF_FFFF_FFFF_FFFF
  }

  /** The verdict is that of the first line that offends, and without one it is about the total. */
  lemma {:induction false} VerdictsExactly(items: seq<LineItem>, n: nat, i: nat, amount: int)
    requires n <= i <= |items|
    requires forall j :: n <= j < i ==> !Offends(items, j)
    requires i < |items| ==> Offends(items, i)
    ensures Judge(items, n, amount) ==
            if i == |items| then (if Total(items) == amount then Accepted else Mismatch(Total(items)))
            else if items[i].quantity <= 0 then BadQuantity
            else if items[i].unitPrice < 0 then BadPrice
            else Overflow
    decreases i - n
  {
    if n < i {
      assert !Offends(items, n);
      VerdictsExactly(items, n + 1, i, amount);
    }
  }

  /** Items are accepted exactly when there are some, all are sound and their
      unbounded total is the amount. */
  lemma AcceptedExactly(items: seq<LineItem>, amount: int64)
    requires items != []
    ensures Judge(items, 0, amount as int) == Accepted <==> Acceptable(items, amount)
  {
    JudgeAccepts(items, 0, amount as int);
    if Judge(items, 0, amount as int) == Accepted {
      forall i | 0 <= i < |items| ensures Sound(items[i]) { assert LineFits(items, i); }
    }
    if Acceptable(items, amount) {
      forall i | 0 <= i < |items| ensures LineFits(items, i) {
        SoundTotalsGrow(items, i + 1);
      }
    }
  }

  lemma {:induction false} TotalWithout(items: seq<LineItem>, j: nat)
    requires j < |items|
    ensures Total(items) == Total(items[..j] + items[j + 1..]) + Cost(items[j])
  {
    var last := |items| - 1;
    var rest := items[..j] + items[j + 1..];
    if j == last {
      assert rest == items[..last];
    } else {
      TotalWithout(items[..last], j);
      assert items[..last][..j] + items[..last][j + 1..] == rest[..last - 1];
      assert rest[last - 1] == items[last];
    }
  }

  lemma RemoveAt(items: seq<LineItem>, j: nat)
    requires j < |items|
    ensures multiset(items) == multiset(items[..j] + items[j + 1..]) + multiset{items[j]}
  {
    assert items == items[..j] + ([items[j]] + items[j + 1..]);
  }

  lemma RestIsSame(xs: seq<LineItem>, ys: seq<LineItem>) returns (j: nat)
    requires multiset(xs) == multiset(ys) && xs != []
    ensures j < |ys| && ys[j] == xs[|xs| - 1]
    ensures multiset(xs[..|xs| - 1]) == multiset(ys[..j] + ys[j + 1..])
  {
    var front, x := xs[..|xs| - 1], xs[|xs| - 1];
    assert xs == front + [x];
    assert x in multiset(ys);
    j :| 0 <= j < |ys| && ys[j] == x;
    RemoveAt(ys, j);
    assert multiset(front) == multiset(xs) - multiset{x};
  }

  lemma {:induction false} TotalIgnoresOrder(xs: seq<LineItem>, ys: seq<LineItem>)
    requires multiset(xs) == multiset(ys)
    ensures Total(xs) == Total(ys)
    decreases |xs|
  {
    if xs == [] {
      assert |multiset(xs)| == |multiset(ys)|;
    } else {
      var j := RestIsSame(xs, ys);
      TotalIgnoresOrder(xs[..|xs| - 1], ys[..j] + ys[j + 1..]);
      TotalWithout(ys, j);
    }
  }

  /** The decision does not depend on the order of the lines. */
  lemma AcceptanceIgnoresOrder(xs: seq<LineItem>, ys: seq<LineItem>, amount: int64)
    requires multiset(xs) == multiset(ys)
    ensures Acceptable(xs, amount) <==> Acceptable(ys, amount)
  {
    TotalIgnoresOrder(xs, ys);
    assert forall x :: x in xs <==> x in multiset(xs);
    assert forall y :: y in ys <==> y in multiset(ys);
    assert |multiset(xs)| == |multiset(ys)|;
    if forall i :: 0 <= i < |xs| ==> Sound(xs[i]) {
      forall i | 0 <= i < |ys| ensures Sound(ys[i]) { assert ys[i] in ys; assert ys[i] in xs; }
    }
    if forall i :: 0 <= i < |ys| ==> Sound(ys[i]) {
      forall i | 0 <= i < |xs| ensures Sound(xs[i]) { assert xs[i] in xs; assert xs[i] in ys; }
    }
  }
}

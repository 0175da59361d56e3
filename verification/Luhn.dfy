/** looksLikeCardNumber against the Luhn check of ISO/IEC 7812-1, Annex B. */
module Luhn {
  import opened Text

  function Digit(c: char): (d: int)
    requires IsDigit(c)
    ensures 0 <= d <= 9
  {
    c as int - '0' as int
  }

  /** What one digit adds to the check sum: itself, or the digit sum of its double. */
  function Contribution(d: int, doubled: bool): int {
    if doubled then (2 * d) / 10 + (2 * d) % 10 else d
  }

  /** The check sum: the rightmost digit is not doubled, and then every second one is. */
  function Sum(s: string): int
    requires AllDigits(s)
  {
    if s == "" then 0
    else Contribution(Digit(s[0]), |s| % 2 == 0) + Sum(s[1..])
  }

  predicate Passes(s: string) {
    AllDigits(s) && Sum(s) % 10 == 0
  }

  const GROUPING: set<char> := {' ', '-'}

  /** The text the check looks at. */
  function Candidate(value: string, grouped: bool): string {
    if grouped then Without(TrimSpace(value), GROUPING) else TrimSpace(value)
  }

  predicate LooksLikeCardNumber(value: string, grouped: bool) {
    var s := Candidate(value, grouped);
    13 <= |s| <= 19 && Passes(s)
  }

  /** The check sum digit by digit from the left: every second digit, counted from the
      right, is doubled and cast out nines. */
  lemma SumExactly(c: char, s: string)
    requires IsDigit(c) && AllDigits(s)
    ensures Sum("") == 0
    ensures AllDigits([c] + s)
    ensures var d := c as int - 0x30;
            Sum([c] + s) == Sum(s) + if |s| % 2 == 0 then d else if d < 5 then 2 * d else 2 * d - 9
  {
    hide Contribution;
    var t, d := [c] + s, Digit(c);
    assert t[1..] == s && t[0] == c;
    Undoubled(d);
    ContributionForm(d);
    SumUnfolds(t);
  }

  lemma Undoubled(d: int)
    ensures Contribution(d, false) == d
  {
  }

  lemma SumUnfolds(t: string)
    requires AllDigits(t) && t != ""
    ensures |t| % 2 == 0 <==> (|t| - 1) % 2 != 0
    ensures Sum(t) == Contribution(Digit(t[0]), |t| % 2 == 0) + Sum(t[1..])
  {
  }

  /** Of the plain runs of digits exactly those of 13 to 19 with a sum divisible by ten. */
  lemma DigitsExactly(s: string, grouped: bool)
    requires AllDigits(s)
    ensures LooksLikeCardNumber(s, grouped) <==> 13 <= |s| <= 19 && Sum(s) % 10 == 0
  {
    hide TrimSpace, Without, Sum;
    TrimSpaceTrims(s);
    WithoutKeeps(s, GROUPING);
    assert forall c :: c in s ==> IsDigit(c);
  }

  /** Ungrouped, only runs of digits count, white space around them apart; grouped, spaces
      and hyphens put anywhere do not matter. */
  lemma GroupsExactly(value: string, x: string, c: char, y: string)
    ensures LooksLikeCardNumber(value, false) <==>
            AllDigits(TrimSpace(value)) && LooksLikeCardNumber(TrimSpace(value), false)
    ensures Trimmed(x + y) && c in {' ', '-'} ==>
              (LooksLikeCardNumber(x + [c] + y, true) <==> LooksLikeCardNumber(x + y, true))
  {
    TrimSpaceTrims(value);
    TrimSpaceTrims(TrimSpace(value));
    if Trimmed(x + y) && c in {' ', '-'} {
      SeparatorsAreDropped(x, c, y, GROUPING);
    }
  }

  lemma SumStep(s: string, i: nat)
    requires i < |s| && AllDigits(s[i + 1..]) && IsDigit(s[i])
    ensures AllDigits(s[i..])
    ensures Sum(s[i..]) == Contribution(Digit(s[i]), (|s| - i) % 2 == 0) + Sum(s[i + 1..])
  {
  }

  /** The loop of the source: right to left, toggling `double`, stopping at the
      first character that is not a digit. */
  method IsCardNumber(value: string, grouped: bool) returns (found: bool)
    ensures found == LooksLikeCardNumber(value, grouped)
  {
    var s := TrimSpace(value);
    if grouped {
      s := Without(s, GROUPING);
    }
    if |s| < 13 || |s| > 19 {
      return false;
    }
    found := PassesLoop(s);
  }

  method PassesLoop(s: string) returns (found: bool)
    ensures found == Passes(s)
  {
    var sum, double := 0, false;
    var i := |s| - 1;
    while i >= 0
      invariant -1 <= i < |s|
      invariant AllDigits(s[i + 1..])
      invariant sum == Sum(s[i + 1..])
      invariant double == ((|s| - i) % 2 == 0)
    {
      if !IsDigit(s[i]) {
        return false;
      }
      var digit := Digit(s[i]);
      if double {
        digit := digit * 2;
        if digit > 9 {
          digit := digit - 9;
        }
      }
      SumStep(s, i);
      sum := sum + digit;
      double := !double;
      i := i - 1;
    }
    assert s[0..] == s;
    return sum % 10 == 0;
  }

  lemma ContributionForm(d: int)
    requires 0 <= d <= 9
    ensures Contribution(d, true) == if d < 5 then 2 * d else 2 * d - 9
  {
  }

  lemma NearRemainders(p: int, q: int)
    requires -9 <= p - q <= 9
    ensures p % 10 == q % 10 <==> p == q
  {
  }

  /** Two different digits in one place never contribute alike modulo ten. */
  lemma ContributionDistinguishes(a: int, b: int, doubled: bool)
    requires 0 <= a <= 9 && 0 <= b <= 9
    ensures Contribution(a, doubled) % 10 == Contribution(b, doubled) % 10 <==> a == b
  {
    ContributionForm(a);
    ContributionForm(b);
    NearRemainders(Contribution(a, doubled), Contribution(b, doubled));
  }

  /** Replacing one digit moves the check sum by what that digit contributes. */
  lemma {:induction false} SumUpdate(s: string, i: nat, c: char)
    requires i < |s| && AllDigits(s) && IsDigit(c)
    ensures AllDigits(s[i := c])
    ensures Sum(s[i := c]) - Sum(s) ==
            Contribution(Digit(c), (|s| - i) % 2 == 0) - Contribution(Digit(s[i]), (|s| - i) % 2 == 0)
  {
    var t := s[i := c];
    if i == 0 {
      assert t[1..] == s[1..];
    } else {
      SumUpdate(s[1..], i - 1, c);
      assert t[1..] == s[1..][i - 1 := c];
    }
  }

  lemma SameRemainder(total: int, x: int, y: int)
    requires total % 10 == 0
    ensures (total + x - y) % 10 == 0 <==> x % 10 == y % 10
  {
  }

  /** Changing any single digit of a number that passes makes it fail. */
  lemma SingleDigitErrorIsCaught(s: string, i: nat, c: char)
    requires Passes(s) && i < |s| && IsDigit(c)
    ensures Passes(s[i := c]) <==> c == s[i]
  {
    var doubled := (|s| - i) % 2 == 0;
    SumUpdate(s, i, c);
    ContributionDistinguishes(Digit(c), Digit(s[i]), doubled);
    SameRemainder(Sum(s), Contribution(Digit(c), doubled), Contribution(Digit(s[i]), doubled));
  }

  /** How far the doubled contribution of a digit lies from the digit itself. */
  function Excess(d: int): int {
    Contribution(d, true) - d
  }

  lemma ExcessDistinguishes(x: int, y: int)
    requires 0 <= x <= 9 && 0 <= y <= 9
    ensures Excess(x) % 10 == Excess(y) % 10 <==> x == y || (x == 0 && y == 9) || (x == 9 && y == 0)
  {
    ContributionForm(x);
    ContributionForm(y);
    NearRemainders(Excess(x), Excess(y));
  }

  lemma SumSwap(s: string, i: nat, a: char, b: char)
    requires AllDigits(s) && i + 1 < |s| && s[i] == a && s[i + 1] == b
    ensures AllDigits(s[i := b][i + 1 := a])
    ensures var x, y := Excess(Digit(a)), Excess(Digit(b));
            Sum(s[i := b][i + 1 := a]) == if (|s| - i) % 2 == 0 then Sum(s) + y - x else Sum(s) + x - y
  {
    var t := s[i := b];
    SumUpdate(s, i, b);
    SumUpdate(t, i + 1, a);
    assert (|s| - i) % 2 == 0 <==> (|s| - (i + 1)) % 2 == 1;
  }

  /** Swapping two neighbouring digits of a number that passes is caught
      unless they are equal or are 0 and 9. */
  lemma TranspositionIsCaught(s: string, i: nat)
    requires Passes(s) && i + 1 < |s|
    ensures Passes(s[i := s[i + 1]][i + 1 := s[i]]) <==>
            s[i] == s[i + 1] || (s[i] == '0' && s[i + 1] == '9') || (s[i] == '9' && s[i + 1] == '0')
  {
    var a, b := Digit(s[i]), Digit(s[i + 1]);
    SumSwap(s, i, s[i], s[i + 1]);
    ExcessDistinguishes(a, b);
    SameRemainder(Sum(s), Excess(a), Excess(b));
    SameRemainder(Sum(s), Excess(b), Excess(a));
  }

  /** Ungrouped card numbers are a special case of grouped ones. */
  lemma UngroupedIsGrouped(value: string)
    requires LooksLikeCardNumber(value, false)
    ensures LooksLikeCardNumber(value, true)
  {
    var s := TrimSpace(value);
    WithoutKeeps(s, GROUPING);
    forall c | c in s ensures c !in GROUPING {
      var i :| 0 <= i < |s| && s[i] == c;
    }
  }
}

/** When sanitising an already sanitised payload changes nothing. */
module SanitizerTwice {
  import opened Text
  import opened JsonTree
  import opened Luhn
  import opened Sanitizer
  import opened SanitizerProperties

  // ----- The context of an object before and after

  /** Masking turns a card-like number under a method key into a string, and
      a string there names a method. */
  predicate MasksMethodNumber(key: string, value: Json, mask: Mask) {
    mask != Off && IsMethodKey(key) && value.Num? && LooksLikeCardNumber(value.text, false)
  }

  lemma NamesStartWithLetters(text: string)
    requires FoldsToOneOf(text, CARD_PURPOSES) || FoldsToOneOf(text, CARD_METHODS)
    ensures text != "" && !IsDigit(text[0]) && text[0] !in GROUPING
  {
  }

  lemma CardNamesAreNotNumbers(key: string, text: string)
    requires NamesCard(key, Str(text))
    ensures !LooksLikeCardNumber(text, true) && !LooksLikeCardNumber(text, false)
    ensures !AllDigits(TrimSpace(text))
  {
    NamesStartWithLetters(TrimSpace(text));
    WithoutKeeps(TrimSpace(text), GROUPING);
    assert !IsDigit(Candidate(text, true)[0]);
  }

  lemma MaskedTextNamesNoCard(key: string, text: string, grouped: bool)
    requires LooksLikeCardNumber(text, grouped)
    ensures !NamesCard(key, Str(text)) && TrimSpace(text) != ""
    ensures !NamesCard(key, Str(LastFour(text))) && TrimSpace(LastFour(text)) != ""
  {
    CardNumberLastFour(text, grouped);
    TrimSpaceTrims(LastFour(text));
    WithoutKeeps(TrimSpace(text), GROUPING);
    if NamesCard(key, Str(text)) {
      CardNamesAreNotNumbers(key, text);
    }
    if NamesCard(key, Str(LastFour(text))) {
      CardNamesAreNotNumbers(key, LastFour(text));
    }
  }

  /** One field says the same about the payment method after sanitising,
      except a masked numeric method. */
  lemma FieldKeepsItsMeaning(show: Json -> string, context: Context, key: string, value: Json, mask: Mask)
    ensures var clean := SanitizeField(show, context, key, value, mask);
            && NamesCard(key, clean) == NamesCard(key, value)
            && NamesMethod(key, clean) == (NamesMethod(key, value) || MasksMethodNumber(key, value, mask))
  {
    hide LooksLikeCardNumber, LastFour, NormalizeKey, TrimSpace, FoldsToOneOf;
    KeyKindsAreDisjoint(key);
    if IsMethodKey(key) || NormalizeKey(key) == "purpose" {
      if mask != Off && value.Scalar() {
        var grouped := value.Str? && mask == Grouped;
        if LooksLikeCardNumber(value.text, grouped) {
          MaskedTextNamesNoCard(key, value.text, grouped);
        }
      }
    }
  }

  /** The context of an object after a first pass under a mask. */
  ghost function ContextAfter(fields: map<string, Json>, mask: Mask): Context {
    if ContextOf(fields) == Unknown && exists key :: key in fields && MasksMethodNumber(key, fields[key], mask) then Other
    else ContextOf(fields)
  }

  /** An object's context is unchanged by sanitising, except where it was
      unknown and a numeric method gets masked: then it becomes that of a non-card method. */
  lemma ContextIsKept(show: Json -> string, owner: Json, mask: Mask)
    requires owner.Obj?
    ensures ContextOf(SanitizeFields(show, owner, mask)) == ContextAfter(owner.fields, mask)
    ensures ContextOf(SanitizeFields(show, owner, mask)) == ContextOf(owner.fields) <==>
            ContextOf(owner.fields) != Unknown
            || !(exists key :: key in owner.fields && MasksMethodNumber(key, owner.fields[key], mask))
  {
    var fields, clean := owner.fields, SanitizeFields(show, owner, mask);
    forall key | key in fields
      ensures NamesCard(key, clean[key]) == NamesCard(key, fields[key])
      ensures NamesMethod(key, clean[key]) == (NamesMethod(key, fields[key]) || MasksMethodNumber(key, fields[key], mask))
    {
      FieldKeepsItsMeaning(show, ContextOf(fields), key, fields[key], mask);
    }
    assert (exists key :: key in clean && NamesCard(key, clean[key]))
        == (exists key :: key in fields && NamesCard(key, fields[key]));
    assert (exists key :: key in clean && NamesMethod(key, clean[key]))
        == ((exists key :: key in fields && NamesMethod(key, fields[key]))
            || (exists key :: key in fields && MasksMethodNumber(key, fields[key], mask)));
  }

  // ----- The exact condition

  /** Two passes over one value run under the same mask, except below a paymentInfo
      whose owner was taken for a non-card method by the second pass only. */
  predicate Widens(first: Mask, second: Mask) {
    first == second || (first == Ungrouped && second == Grouped)
  }

  /** What a second pass finds nothing to do on: every text that is reduced has no white
      space at either end of its last four characters, and no text the second pass would
      mask more eagerly is a card number in groups only. */
  ghost predicate Fixed(show: Json -> string, key: string, value: Json, first: Mask, second: Mask)
    decreases value, 1
  {
    if IsSecretKey(key) then true
    else if IsCardNumberKey(key) then value.Null? || Trimmed(LastFour(Sprint(show, value)))
    else match value
      case Obj(fields) => forall k :: k in fields ==> FieldFixed(show, value, k, fields[k], first, second)
      case Arr(items) => forall i :: 0 <= i < |items| ==> Fixed(show, "", items[i], first, second)
      case Str(text) => first != second && LooksLikeCardNumber(text, true) ==> LooksLikeCardNumber(text, false)
      case _ => true
  }

  ghost predicate FieldFixed(show: Json -> string, owner: Json, key: string, value: Json, first: Mask, second: Mask)
    requires owner.Obj?
    decreases value, 2
  {
    var before, after := ContextOf(owner.fields), ContextAfter(owner.fields, first);
    if IsPaymentInfoKey(key) && before == Card && value.Scalar() then Trimmed(LastFour(value.text))
    else Fixed(show, key, value, MaskBelow(before, key, first), MaskBelow(after, key, second))
  }

  lemma MaskedTextIsStable(text: string, grouped: bool, mask: Mask)
    requires LooksLikeCardNumber(text, grouped)
    ensures !LooksLikeCardNumber(LastFour(text), mask == Grouped)
    ensures !LooksLikeCardNumber(LastFour(text), false)
    ensures LastFour(LastFour(text)) == LastFour(text)
  {
    CardNumberLastFour(text, grouped);
    ShortIsNoCardNumber(LastFour(text), mask == Grouped);
    ShortIsNoCardNumber(LastFour(text), false);
    LastFourTwice(text);
  }

  lemma CardScalarTwice(value: Json)
    requires value.Scalar()
    ensures var once := MaskPaymentInfoScalar(value, Card);
            once.Scalar() && (MaskPaymentInfoScalar(once, Card) == once <==> Trimmed(LastFour(value.text)))
  {
    LastFourTwice(value.text);
  }

  lemma ScalarTwice(show: Json -> string, key: string, value: Json, first: Mask, second: Mask)
    requires Widens(first, second) && value.Scalar() && !IsSecretKey(key) && !IsCardNumberKey(key)
    ensures Sanitize(show, key, Sanitize(show, key, value, first), second) == Sanitize(show, key, value, first)
            <==> Fixed(show, key, value, first, second)
  {
    var grouped := value.Str? && first == Grouped;
    if first != Off && LooksLikeCardNumber(value.text, grouped) {
      MaskedTextIsStable(value.text, grouped, second);
    } else if first != second && value.Str? && LooksLikeCardNumber(value.text, true) {
      CardNumberLastFour(value.text, true);
      ShortIsNoCardNumber(LastFour(value.text), true);
    }
  }

  /** A second pass, under the same or a wider mask, changes nothing exactly if the
      payload is fixed. */
  lemma {:induction false} SecondPass(show: Json -> string, key: string, value: Json, first: Mask, second: Mask)
    requires Widens(first, second)
    ensures Sanitize(show, key, Sanitize(show, key, value, first), second) == Sanitize(show, key, value, first)
            <==> Fixed(show, key, value, first, second)
    decreases value, 1
  {
    var once := Sanitize(show, key, value, first);
    if IsSecretKey(key) {
    } else if IsCardNumberKey(key) {
      if value.Null? {
        assert LastFour("") == "";
      } else {
        LastFourTwice(Sprint(show, value));
      }
    } else if value.Obj? {
      ObjectTwice(show, key, value, first, second);
    } else if value.Arr? {
      forall i | 0 <= i < |value.items|
        ensures Sanitize(show, "", once.items[i], second) == once.items[i]
                <==> Fixed(show, "", value.items[i], first, second)
      {
        SecondPass(show, "", value.items[i], first, second);
      }
      var twice := Sanitize(show, key, once, second);
      assert twice.items == once.items <==> forall i :: 0 <= i < |value.items| ==> twice.items[i] == once.items[i];
    } else if value.Scalar() {
      ScalarTwice(show, key, value, first, second);
    }
  }

  lemma {:induction false} ObjectTwice(show: Json -> string, key: string, value: Json, first: Mask, second: Mask)
    requires value.Obj? && !IsSecretKey(key) && !IsCardNumberKey(key) && Widens(first, second)
    ensures Sanitize(show, key, Sanitize(show, key, value, first), second) == Sanitize(show, key, value, first)
            <==> Fixed(show, key, value, first, second)
    decreases value, 0
  {
    hide ContextOf, ContextAfter, SanitizeField, FieldFixed, IsSecretKey, IsCardNumberKey, LooksLikeCardNumber, LastFour;
    var once := SanitizeFields(show, value, first);
    ContextIsKept(show, value, first);
    var twice := SanitizeFields(show, Obj(once), second);
    forall k | k in value.fields
      ensures twice[k] == once[k] <==> FieldFixed(show, value, k, value.fields[k], first, second)
    {
      FieldTwice(show, value, k, value.fields[k], first, second);
    }
    assert twice == once <==> forall k :: k in value.fields ==> twice[k] == once[k];
  }

  lemma {:induction false} FieldTwice(
    show: Json -> string, owner: Json, key: string, value: Json, first: Mask, second: Mask)
    requires owner.Obj? && Widens(first, second)
    ensures var once := SanitizeField(show, ContextOf(owner.fields), key, value, first);
            SanitizeField(show, ContextAfter(owner.fields, first), key, once, second) == once
            <==> FieldFixed(show, owner, key, value, first, second)
    decreases value, 2
  {
    var before, after := ContextOf(owner.fields), ContextAfter(owner.fields, first);
    KeyKindsAreDisjoint(key);
    if IsPaymentInfoKey(key) && before == Card && value.Scalar() {
      CardScalarTwice(value);
    } else {
      var once := Sanitize(show, key, value, MaskBelow(before, key, first));
      FieldIsMasked(show, before, key, value, first);
      SecondPass(show, key, value, MaskBelow(before, key, first), MaskBelow(after, key, second));
      FieldIsMasked(show, after, key, once, second);
    }
  }

  /** Sanitising twice equals sanitising once exactly on the fixed payloads: those where
      no second pass, with its own view of every payment context, finds more to mask. */
  lemma TwiceIsOnce(show: Json -> string, key: string, value: Json, mask: Mask)
    ensures Sanitize(show, key, Sanitize(show, key, value, mask), mask) == Sanitize(show, key, value, mask)
            <==> Fixed(show, key, value, mask, mask)
  {
    SecondPass(show, key, value, mask, mask);
  }

  // ----- Two conditions a caller can check on the payload alone

  predicate PlainSpaces(s: string) {
    forall c :: c in s && IsSpace(c) ==> c == ' '
  }

  /** No text holds white space other than plain spaces. */
  ghost predicate PlainTexts(show: Json -> string, value: Json) {
    PlainSpaces(Sprint(show, value)) &&
    match value
    case Obj(fields) => forall key :: key in fields ==> PlainTexts(show, fields[key])
    case Arr(items) => forall i :: 0 <= i < |items| ==> PlainTexts(show, items[i])
    case _ => true
  }

  /** No method field holds a number. */
  ghost predicate TextMethods(value: Json) {
    match value
    case Obj(fields) =>
      forall key :: key in fields ==> !(IsMethodKey(key) && fields[key].Num?) && TextMethods(fields[key])
    case Arr(items) => forall i :: 0 <= i < |items| ==> TextMethods(items[i])
    case _ => true
  }

  lemma TextMethodsKeepContext(owner: Json, mask: Mask)
    requires owner.Obj? && TextMethods(owner)
    ensures ContextAfter(owner.fields, mask) == ContextOf(owner.fields)
  {
  }

  lemma {:induction false} PlainPayloadsAreFixed(show: Json -> string, key: string, value: Json, mask: Mask)
    requires PlainTexts(show, value) && TextMethods(value)
    ensures Fixed(show, key, value, mask, mask)
    decreases value
  {
    LastFourOfPlainText(Sprint(show, value));
    if value.Obj? {
      TextMethodsKeepContext(value, mask);
      forall k | k in value.fields ensures FieldFixed(show, value, k, value.fields[k], mask, mask) {
        LastFourOfPlainText(Sprint(show, value.fields[k]));
        PlainPayloadsAreFixed(show, k, value.fields[k], MaskBelow(ContextOf(value.fields), k, mask));
      }
    } else if value.Arr? {
      forall i | 0 <= i < |value.items| ensures Fixed(show, "", value.items[i], mask, mask) {
        PlainPayloadsAreFixed(show, "", value.items[i], mask);
      }
    }
  }

  /** Sanitising is idempotent on every payload with plain spacing and textual methods. */
  lemma SanitizingIsIdempotent(show: Json -> string, key: string, value: Json, mask: Mask)
    requires PlainTexts(show, value) && TextMethods(value)
    ensures Sanitize(show, key, Sanitize(show, key, value, mask), mask) == Sanitize(show, key, value, mask)
  {
    PlainPayloadsAreFixed(show, key, value, mask);
    TwiceIsOnce(show, key, value, mask);
  }

  // ----- Both conditions matter

  /** A value under a card-number key whose last four characters start or end
      in white space is reduced again by the second pass. */
  lemma OtherWhiteSpaceMatters(show: Json -> string, root: string, key: string, text: string, mask: Mask)
    requires !IsSecretKey(root) && !IsCardNumberKey(root)
    requires IsCardNumberKey(key) && !Trimmed(LastFour(text))
    ensures var payload := Obj(map[key := Str(text)]);
            && TextMethods(payload)
            && Sanitize(show, root, Sanitize(show, root, payload, mask), mask) != Sanitize(show, root, payload, mask)
  {
    var payload := Obj(map[key := Str(text)]);
    KeyKindsAreDisjoint(key);
    assert key in payload.fields && !FieldFixed(show, payload, key, Str(text), mask, mask);
    TwiceIsOnce(show, root, payload, mask);
  }

  /** Such as any five characters whose second one is a tab or a line break. */
  lemma InnerWhiteSpaceComesFirst(first: char, rest: string)
    requires |rest| == 4 && !IsSpace(first) && !IsSpace(rest[3]) && IsSpace(rest[0])
    requires forall c :: c in [first] + rest ==> c !in GROUPING
    ensures LastFour([first] + rest) == rest && !Trimmed(rest)
  {
    TrimSpaceTrims([first] + rest);
    WithoutKeeps([first] + rest, GROUPING);
    assert ([first] + rest)[1..] == rest;
  }

  /** Inside a card's paymentInfo, masking a numeric method gives the object a
      non-card method, so a grouped number beside it that the first pass left
      alone is masked by the second. */
  lemma NumericMethodMatters(
    show: Json -> string, methodKey: string, infoKey: string, number: string, grouped: string)
    requires IsMethodKey(methodKey) && LooksLikeCardNumber(number, false)
    requires IsPaymentInfoKey(infoKey) && LooksLikeCardNumber(grouped, true) && !LooksLikeCardNumber(grouped, false)
    ensures var inner := Obj(map[methodKey := Num(number), infoKey := Str(grouped)]);
            var payload := Obj(map[methodKey := Str("card"), infoKey := inner]);
            var once := Sanitize(show, "", payload, Off);
            Sanitize(show, "", once, Off) != once
  {
    var inner := Obj(map[methodKey := Num(number), infoKey := Str(grouped)]);
    var payload := Obj(map[methodKey := Str("card"), infoKey := inner]);
    hide LooksLikeCardNumber, LastFour, NormalizeKey, TrimSpace;
    KeyKindsAreDisjoint(methodKey);
    KeyKindsAreDisjoint(infoKey);
    CardPaymentContext(methodKey, inner, infoKey);
    assert ContextOf(inner.fields) == Unknown;
    assert methodKey in inner.fields && MasksMethodNumber(methodKey, inner.fields[methodKey], Grouped);
    assert ContextAfter(inner.fields, Grouped) == Other;
    assert infoKey in inner.fields && !FieldFixed(show, inner, infoKey, Str(grouped), Grouped, Grouped);
    assert infoKey in payload.fields && !FieldFixed(show, payload, infoKey, inner, Off, Off);
    EmptyKey();
    TwiceIsOnce(show, "", payload, Off);
  }

  function FortyTwos(n: nat): string {
    if n == 0 then "" else "42" + FortyTwos(n - 1)
  }

  lemma {:induction false} FortyTwosPass(n: nat)
    ensures |FortyTwos(n)| == 2 * n && AllDigits(FortyTwos(n)) && Sum(FortyTwos(n)) == 10 * n
  {
    if n > 0 {
      var rest := FortyTwos(n - 1);
      FortyTwosPass(n - 1);
      assert FortyTwos(n)[1..] == "2" + rest;
      assert ("2" + rest)[1..] == rest;
    }
  }

  lemma {:induction false} WithoutSplits(s: string, t: string)
    requires AllDigits(s) && AllDigits(t)
    ensures Without(s + " " + t, GROUPING) == s + t
  {
    if s == "" {
      assert (s + " " + t)[1..] == t && s + t == t;
      WithoutKeeps(t, GROUPING);
    } else {
      WithoutSplits(s[1..], t);
      assert (s + " " + t)[1..] == s[1..] + " " + t;
    }
  }

  /** Writing a card number in two groups hides it from the ungrouped check only. */
  lemma GroupingHides(first: string, rest: string)
    requires first != "" && rest != "" && 13 <= |first + rest| <= 19 && Passes(first + rest)
    ensures LooksLikeCardNumber(first + rest, false)
    ensures LooksLikeCardNumber(first + " " + rest, true)
    ensures !LooksLikeCardNumber(first + " " + rest, false)
  {
    var number, grouped := first + rest, first + " " + rest;
    assert IsDigit(number[0]) && IsDigit(number[|number| - 1]);
    TrimSpaceTrims(number);
    assert grouped[0] == number[0] && grouped[|grouped| - 1] == number[|number| - 1];
    TrimSpaceTrims(grouped);
    assert AllDigits(first) by {
      assert forall i :: 0 <= i < |first| ==> first[i] == number[i];
    }
    assert AllDigits(rest) by {
      assert forall i :: 0 <= i < |rest| ==> rest[i] == number[|first| + i];
    }
    WithoutSplits(first, rest);
    assert grouped[|first|] == ' ';
  }

  /** So the numbers NumericMethodMatters asks for exist. */
  lemma CardNumbersExist(n: nat)
    requires 7 <= n <= 9
    ensures LooksLikeCardNumber(FortyTwos(n), false)
    ensures LooksLikeCardNumber("42" + " " + FortyTwos(n - 1), true)
        && !LooksLikeCardNumber("42" + " " + FortyTwos(n - 1), false)
  {
    FortyTwosPass(n);
    FortyTwosPass(n - 1);
    GroupingHides("42", FortyTwos(n - 1));
  }
}

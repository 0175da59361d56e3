/** What the sanitiser guarantees about every payload, whatever its shape. */
module SanitizerProperties {
  import opened Text
  import opened JsonTree
  import opened Luhn
  import opened Sanitizer

  // ----- The last four characters

  lemma LastFourIsBare(s: string)
    ensures |LastFour(s)| <= 4
    ensures forall c :: c in LastFour(s) ==> c in s && c !in GROUPING
  {
    TrimSpaceTrims(s);
    WithoutKeeps(TrimSpace(s), GROUPING);
  }

  /** Reducing a text twice equals reducing it once exactly when the four
      characters kept have no white space at either end. */
  lemma LastFourTwice(s: string)
    ensures LastFour(LastFour(s)) == LastFour(s) <==> Trimmed(LastFour(s))
  {
    var last := LastFour(s);
    LastFourIsBare(s);
    TrimSpaceTrims(last);
    WithoutKeeps(TrimSpace(last), GROUPING);
  }

  lemma LastFourOfPlainText(s: string)
    requires forall c :: c in s && IsSpace(c) ==> c == ' '
    ensures Trimmed(LastFour(s))
  {
    LastFourIsBare(s);
    if LastFour(s) != "" {
      assert LastFour(s)[0] in LastFour(s) && LastFour(s)[|LastFour(s)| - 1] in LastFour(s);
    }
  }

  lemma CardNumberLastFour(s: string, grouped: bool)
    requires LooksLikeCardNumber(s, grouped)
    ensures |LastFour(s)| == 4 && AllDigits(LastFour(s)) && Trimmed(LastFour(s))
  {
    if !grouped {
      UngroupedIsGrouped(s);
    }
    assert AllDigits(Candidate(s, true));
  }

  lemma ShortIsNoCardNumber(s: string, grouped: bool)
    requires |s| <= 4
    ensures !LooksLikeCardNumber(s, grouped)
  {
    TrimSpaceTrims(s);
    WithoutKeeps(TrimSpace(s), GROUPING);
  }

  lemma KeyKindsAreDisjoint(key: string)
    ensures IsPaymentInfoKey(key) ==> !IsSecretKey(key) && !IsCardNumberKey(key) && !IsMethodKey(key)
    ensures IsMethodKey(key) || NormalizeKey(key) == "purpose"
        ==> !IsSecretKey(key) && !IsCardNumberKey(key) && !IsPaymentInfoKey(key)
    ensures IsSecretKey(key) ==> !IsCardNumberKey(key)
  {
  }

  // ----- No secret and no card number survives, at any depth

  /** Every value under a secret key is REDACTED and every value under a
      card-number key is a string of at most four characters, at every depth. */
  ghost predicate SecretsGone(value: Json) {
    match value
    case Obj(fields) =>
      forall key :: key in fields ==>
        && (IsSecretKey(key) ==> fields[key] == Str(REDACTED))
        && (IsCardNumberKey(key) ==> fields[key].Str? && |fields[key].text| <= 4)
        && SecretsGone(fields[key])
    case Arr(items) => forall i :: 0 <= i < |items| ==> SecretsGone(items[i])
    case _ => true
  }

  lemma {:induction false} SanitizedHoldsNoSecrets(show: Json -> string, key: string, value: Json, mask: Mask)
    ensures SecretsGone(Sanitize(show, key, value, mask))
    ensures IsSecretKey(key) ==> Sanitize(show, key, value, mask) == Str(REDACTED)
    ensures IsCardNumberKey(key) ==>
              var clean := Sanitize(show, key, value, mask); clean.Str? && |clean.text| <= 4
    decreases value
  {
    KeyKindsAreDisjoint(key);
    if IsSecretKey(key) {
    } else if IsCardNumberKey(key) {
      if !value.Null? {
        LastFourIsBare(Sprint(show, value));
      }
    } else if value.Obj? {
      forall k | k in value.fields
        ensures var clean := SanitizeField(show, ContextOf(value.fields), k, value.fields[k], mask);
                && (IsSecretKey(k) ==> clean == Str(REDACTED))
                && (IsCardNumberKey(k) ==> clean.Str? && |clean.text| <= 4)
                && SecretsGone(clean)
      {
        KeyKindsAreDisjoint(k);
        SanitizedHoldsNoSecrets(show, k, value.fields[k], mask);
        SanitizedHoldsNoSecrets(show, k, value.fields[k], MaskUnder(ContextOf(value.fields)));
      }
    } else if value.Arr? {
      forall i | 0 <= i < |value.items| ensures SecretsGone(Sanitize(show, "", value.items[i], mask)) {
        SanitizedHoldsNoSecrets(show, "", value.items[i], mask);
      }
    }
  }

  /** No leaf is an ungrouped run of 13 to 19 digits that passes the Luhn check. */
  ghost predicate NoCardNumber(value: Json) {
    match value
    case Obj(fields) => forall key :: key in fields ==> NoCardNumber(fields[key])
    case Arr(items) => forall i :: 0 <= i < |items| ==> NoCardNumber(items[i])
    case Str(text) => !LooksLikeCardNumber(text, false)
    case Num(text) => !LooksLikeCardNumber(text, false)
    case _ => true
  }

  lemma MaskedTextIsNoCardNumber(text: string)
    ensures NoCardNumber(Str(LastFour(text)))
  {
    LastFourIsBare(text);
    ShortIsNoCardNumber(LastFour(text), false);
  }

  /** Once the mask is on, nothing below switches it off. */
  lemma {:induction false} MaskedHoldsNoCardNumber(show: Json -> string, key: string, value: Json, mask: Mask)
    requires mask != Off
    ensures NoCardNumber(Sanitize(show, key, value, mask))
    decreases value, 0
  {
    if IsSecretKey(key) {
      assert NoCardNumber(Str(REDACTED)) by {
        TrimSpaceTrims(REDACTED);
      }
    } else if IsCardNumberKey(key) {
      if value.Null? {
        ShortIsNoCardNumber("", false);
      } else {
        MaskedTextIsNoCardNumber(Sprint(show, value));
      }
    } else if value.Obj? {
      forall k | k in value.fields
        ensures NoCardNumber(SanitizeField(show, ContextOf(value.fields), k, value.fields[k], mask))
      {
        MaskedFieldHoldsNoCardNumber(show, ContextOf(value.fields), k, value.fields[k], mask);
      }
    } else if value.Arr? {
      forall i | 0 <= i < |value.items| ensures NoCardNumber(Sanitize(show, "", value.items[i], mask)) {
        MaskedHoldsNoCardNumber(show, "", value.items[i], mask);
      }
    } else if value.Scalar() {
      MaskedTextIsNoCardNumber(value.text);
      if LooksLikeCardNumber(value.text, false) {
        UngroupedIsGrouped(value.text);
      }
    }
  }

  lemma {:induction false} MaskedFieldHoldsNoCardNumber(
    show: Json -> string, context: Context, key: string, value: Json, mask: Mask)
    requires mask != Off || (IsPaymentInfoKey(key) && context != Other)
    ensures NoCardNumber(SanitizeField(show, context, key, value, mask))
    decreases value, 1
  {
    if IsPaymentInfoKey(key) && context != Other {
      if value.Scalar() {
        MaskedTextIsNoCardNumber(value.text);
      } else {
        MaskedHoldsNoCardNumber(show, key, value, MaskUnder(context));
      }
    } else {
      MaskedHoldsNoCardNumber(show, key, value, mask);
    }
  }

  /** At every depth: where an object does not name a non-card method, what
      became of its paymentInfo holds no ungrouped card number. */
  ghost predicate PaymentInfoMasked(key: string, value: Json, clean: Json)
    decreases value
  {
    if IsSecretKey(key) || IsCardNumberKey(key) then true
    else match value
      case Obj(fields) =>
        && clean.Obj?
        && clean.fields.Keys == fields.Keys
        && forall k :: k in fields ==>
             && (IsPaymentInfoKey(k) && ContextOf(fields) != Other ==> NoCardNumber(clean.fields[k]))
             && PaymentInfoMasked(k, fields[k], clean.fields[k])
      case Arr(items) =>
        && clean.Arr?
        && |clean.items| == |items|
        && forall i :: 0 <= i < |items| ==> PaymentInfoMasked("", items[i], clean.items[i])
      case _ => true
  }

  lemma {:induction false} PaymentInfoIsMasked(show: Json -> string, key: string, value: Json, mask: Mask)
    ensures PaymentInfoMasked(key, value, Sanitize(show, key, value, mask))
    decreases value
  {
    if IsSecretKey(key) || IsCardNumberKey(key) {
    } else if value.Obj? {
      var context := ContextOf(value.fields);
      forall k | k in value.fields
        ensures var clean := SanitizeField(show, context, k, value.fields[k], mask);
                && (IsPaymentInfoKey(k) && context != Other ==> NoCardNumber(clean))
                && PaymentInfoMasked(k, value.fields[k], clean)
      {
        if IsPaymentInfoKey(k) && context != Other {
          MaskedFieldHoldsNoCardNumber(show, context, k, value.fields[k], mask);
        }
        PaymentInfoIsMasked(show, k, value.fields[k], mask);
        PaymentInfoIsMasked(show, k, value.fields[k], MaskUnder(context));
      }
    } else if value.Arr? {
      forall i | 0 <= i < |value.items|
        ensures PaymentInfoMasked("", value.items[i], Sanitize(show, "", value.items[i], mask))
      {
        PaymentInfoIsMasked(show, "", value.items[i], mask);
      }
    }
  }

  /** Apart from the scalar paymentInfo of a card payment, a field is sanitised like
      any other value, under the mask that holds below it. */
  lemma FieldIsMasked(show: Json -> string, context: Context, key: string, value: Json, mask: Mask)
    requires !(IsPaymentInfoKey(key) && context == Card && value.Scalar())
    ensures SanitizeField(show, context, key, value, mask) == Sanitize(show, key, value, MaskBelow(context, key, mask))
  {
    KeyKindsAreDisjoint(key);
  }

  // ----- Card numbers printed in groups

  /** No leaf is a card number, printed in groups or not. */
  ghost predicate NoGroups(value: Json) {
    match value
    case Obj(fields) => forall key :: key in fields ==> NoGroups(fields[key])
    case Arr(items) => forall i :: 0 <= i < |items| ==> NoGroups(items[i])
    case Str(text) => !LooksLikeCardNumber(text, true)
    case Num(text) => !LooksLikeCardNumber(text, true)
    case _ => true
  }

  /** The payloads whose card numbers are all hidden, grouped ones included: a text in
      groups has to stand below a card payment's paymentInfo with no paymentInfo of an
      object that names no method in between, since that one weakens the mask. */
  ghost predicate Hidden(key: string, value: Json, mask: Mask)
    decreases value, 0
  {
    if IsSecretKey(key) || IsCardNumberKey(key) then true
    else match value
      case Obj(fields) => forall k :: k in fields ==> FieldHidden(ContextOf(fields), k, fields[k], mask)
      case Arr(items) => forall i :: 0 <= i < |items| ==> Hidden("", items[i], mask)
      case Str(text) =>
        LooksLikeCardNumber(text, true) ==> mask == Grouped || (mask == Ungrouped && LooksLikeCardNumber(text, false))
      case Num(text) => LooksLikeCardNumber(text, true) ==> mask != Off && LooksLikeCardNumber(text, false)
      case _ => true
  }

  ghost predicate FieldHidden(context: Context, key: string, value: Json, mask: Mask)
    decreases value, 1
  {
    (IsPaymentInfoKey(key) && context == Card && value.Scalar()) || Hidden(key, value, MaskBelow(context, key, mask))
  }

  lemma ReducedTextHasNoGroups(text: string)
    ensures NoGroups(Str(LastFour(text)))
    ensures NoGroups(Str(REDACTED))
  {
    LastFourIsBare(text);
    ShortIsNoCardNumber(LastFour(text), true);
    TrimSpaceTrims(REDACTED);
    WithoutKeeps(TrimSpace(REDACTED), GROUPING);
  }

  /** A sanitised payload shows no card number, grouped or not, exactly if it is one
      that hides them all. */
  lemma {:induction false} GroupsAreHiddenExactly(show: Json -> string, key: string, value: Json, mask: Mask)
    ensures NoGroups(Sanitize(show, key, value, mask)) <==> Hidden(key, value, mask)
    decreases value, 0
  {
    hide NormalizeKey, LastFour, TrimSpace, ContextOf, LooksLikeCardNumber;
    if IsSecretKey(key) || IsCardNumberKey(key) {
      ReducedTextHasNoGroups(if value.Null? then "" else Sprint(show, value));
      ShortIsNoCardNumber("", true);
    } else if value.Obj? {
      var clean := SanitizeFields(show, value, mask);
      forall k | k in value.fields
        ensures NoGroups(clean[k]) <==> FieldHidden(ContextOf(value.fields), k, value.fields[k], mask)
      {
        FieldHiddenExactly(show, ContextOf(value.fields), k, value.fields[k], mask);
      }
    } else if value.Arr? {
      var clean := Sanitize(show, key, value, mask);
      forall i | 0 <= i < |value.items|
        ensures NoGroups(clean.items[i]) <==> Hidden("", value.items[i], mask)
      {
        GroupsAreHiddenExactly(show, "", value.items[i], mask);
      }
    } else if value.Scalar() {
      ReducedTextHasNoGroups(value.text);
      if LooksLikeCardNumber(value.text, false) {
        UngroupedIsGrouped(value.text);
      }
    }
  }

  lemma {:induction false} FieldHiddenExactly(
    show: Json -> string, context: Context, key: string, value: Json, mask: Mask)
    ensures NoGroups(SanitizeField(show, context, key, value, mask)) <==> FieldHidden(context, key, value, mask)
    decreases value, 1
  {
    if IsPaymentInfoKey(key) && context == Card && value.Scalar() {
      ReducedTextHasNoGroups(value.text);
    } else {
      FieldIsMasked(show, context, key, value, mask);
      GroupsAreHiddenExactly(show, key, value, MaskBelow(context, key, mask));
    }
  }

  /** No object at any depth holds a paymentInfo without naming a payment method, and
      no number is a card number with a sign. */
  ghost predicate MethodsNamed(value: Json) {
    match value
    case Obj(fields) =>
      forall key :: key in fields ==>
        && (IsPaymentInfoKey(key) ==> ContextOf(fields) != Unknown)
        && MethodsNamed(fields[key])
    case Arr(items) => forall i :: 0 <= i < |items| ==> MethodsNamed(items[i])
    case Num(text) => LooksLikeCardNumber(text, true) ==> LooksLikeCardNumber(text, false)
    case _ => true
  }

  lemma {:induction false} NamedMethodsHide(key: string, value: Json)
    requires MethodsNamed(value)
    ensures Hidden(key, value, Grouped)
    decreases value
  {
    if value.Obj? {
      forall k | k in value.fields ensures FieldHidden(ContextOf(value.fields), k, value.fields[k], Grouped) {
        NamedMethodsHide(k, value.fields[k]);
      }
    } else if value.Arr? {
      forall i | 0 <= i < |value.items| ensures Hidden("", value.items[i], Grouped) {
        NamedMethodsHide("", value.items[i]);
      }
    }
  }

  /** When the paymentInfo of a card payment shows no card number, even in groups: it does
      not if it is a scalar, nor if every nested paymentInfo has an owner that names its
      method. */
  lemma CardPaymentHidesGroups(show: Json -> string, fields: map<string, Json>, key: string, mask: Mask)
    requires ContextOf(fields) == Card && key in fields && IsPaymentInfoKey(key)
    ensures NoGroups(SanitizeField(show, Card, key, fields[key], mask)) <==>
            fields[key].Scalar() || Hidden(key, fields[key], Grouped)
    ensures MethodsNamed(fields[key]) ==> NoGroups(SanitizeField(show, Card, key, fields[key], mask))
  {
    FieldHiddenExactly(show, Card, key, fields[key], mask);
    if MethodsNamed(fields[key]) {
      NamedMethodsHide(key, fields[key]);
    }
  }

  lemma CardPaymentContext(methodKey: string, inner: Json, infoKey: string)
    requires IsMethodKey(methodKey) && infoKey != methodKey
    ensures ContextOf(map[methodKey := Str("card"), infoKey := inner]) == Card
  {
    var fields := map[methodKey := Str("card"), infoKey := inner];
    assert "card" in CARD_METHODS && TrimSpace("card") == "card" && EqualFold("card", "card");
    assert methodKey in fields && NamesCard(methodKey, fields[methodKey]);
  }

  /** And that condition matters: a paymentInfo nested in a card payment's paymentInfo
      shows a number printed in groups. */
  lemma NestedPaymentInfoShowsGroups(show: Json -> string, methodKey: string, infoKey: string, grouped: string)
    requires IsMethodKey(methodKey) && IsPaymentInfoKey(infoKey)
    requires LooksLikeCardNumber(grouped, true) && !LooksLikeCardNumber(grouped, false)
    ensures var payload := Obj(map[methodKey := Str("card"), infoKey := Obj(map[infoKey := Str(grouped)])]);
            Sanitize(show, "", payload, Off) == payload && !NoGroups(payload)
  {
    hide LooksLikeCardNumber, NormalizeKey, TrimSpace, ContextOf, NoGroups;
    var inner := Obj(map[infoKey := Str(grouped)]);
    var fields := map[methodKey := Str("card"), infoKey := inner];
    KeyKindsAreDisjoint(methodKey);
    CardPaymentContext(methodKey, inner, infoKey);
    NestedTextIsKept(show, infoKey, grouped);
    EmptyKey();
    assert SanitizeFields(show, Obj(fields), Off) == fields;
    GroupsShow(infoKey, grouped, fields);
  }

  lemma EmptyKey()
    ensures !IsSecretKey("") && !IsCardNumberKey("")
  {
    assert NormalizeKey("") == "";
  }

  lemma NestedTextIsKept(show: Json -> string, infoKey: string, grouped: string)
    requires IsPaymentInfoKey(infoKey) && !LooksLikeCardNumber(grouped, false)
    ensures var inner := Obj(map[infoKey := Str(grouped)]); SanitizeField(show, Card, infoKey, inner, Off) == inner
  {
    hide LooksLikeCardNumber, NormalizeKey, TrimSpace, FoldsToOneOf;
    KeyKindsAreDisjoint(infoKey);
    var fields := map[infoKey := Str(grouped)];
    assert ContextOf(fields) == Unknown;
    assert SanitizeFields(show, Obj(fields), Grouped) == fields;
  }

  lemma GroupsShow(infoKey: string, grouped: string, fields: map<string, Json>)
    requires LooksLikeCardNumber(grouped, true)
    requires infoKey in fields && fields[infoKey] == Obj(map[infoKey := Str(grouped)])
    ensures !NoGroups(Obj(fields))
  {
    assert !NoGroups(fields[infoKey].fields[infoKey]);
  }

  /** Outside any paymentInfo, a scalar paymentInfo is kept exactly when its object names
      a non-card method, or names none and the value is no card number, or it is
      a card's text that is already reduced. */
  lemma ReferencesSurvive(show: Json -> string, context: Context, key: string, value: Json)
    requires IsPaymentInfoKey(key) && value.Scalar()
    ensures SanitizeField(show, context, key, value, Off) == value <==>
            || context == Other
            || (context == Unknown && !LooksLikeCardNumber(value.text, false))
            || (context == Card && value == Str(LastFour(value.text)))
  {
    KeyKindsAreDisjoint(key);
    if LooksLikeCardNumber(value.text, false) {
      CardNumberLastFour(value.text, false);
      ShortIsNoCardNumber(LastFour(value.text), false);
    }
  }

  // ----- Frame

  /** Arrays keep their length and order, objects their keys, and every other
      value is kept or becomes a text, except where a secret or card-number key
      collapses the value. */
  ghost predicate SameShape(key: string, value: Json, clean: Json)
    decreases value
  {
    if IsSecretKey(key) || IsCardNumberKey(key) then clean.Str?
    else match value
      case Obj(fields) =>
        && clean.Obj?
        && clean.fields.Keys == fields.Keys
        && forall k :: k in fields ==> SameShape(k, fields[k], clean.fields[k])
      case Arr(items) =>
        && clean.Arr?
        && |clean.items| == |items|
        && forall i :: 0 <= i < |items| ==> SameShape("", items[i], clean.items[i])
      case Str(text) => clean == value || clean == Str(LastFour(text))
      case Num(text) => clean == value || clean == Str(LastFour(text))
      case _ => clean == value
  }

  lemma {:induction false} SanitizingKeepsShape(show: Json -> string, key: string, value: Json, mask: Mask)
    ensures SameShape(key, value, Sanitize(show, key, value, mask))
    decreases value
  {
    hide NormalizeKey, LastFour, ContextOf, LooksLikeCardNumber;
    if IsSecretKey(key) || IsCardNumberKey(key) {
    } else if value.Obj? {
      var context := ContextOf(value.fields);
      forall k | k in value.fields
        ensures SameShape(k, value.fields[k], SanitizeField(show, context, k, value.fields[k], mask))
      {
        KeyKindsAreDisjoint(k);
        SanitizingKeepsShape(show, k, value.fields[k], mask);
        SanitizingKeepsShape(show, k, value.fields[k], MaskUnder(context));
      }
    } else if value.Arr? {
      forall i | 0 <= i < |value.items|
        ensures SameShape("", value.items[i], Sanitize(show, "", value.items[i], mask))
      {
        SanitizingKeepsShape(show, "", value.items[i], mask);
      }
    }
  }

  /** No key at any depth is a secret, card-number or paymentInfo key. */
  ghost predicate NothingToHide(value: Json) {
    match value
    case Obj(fields) =>
      forall key :: key in fields ==>
        !IsSecretKey(key) && !IsCardNumberKey(key) && !IsPaymentInfoKey(key) && NothingToHide(fields[key])
    case Arr(items) => forall i :: 0 <= i < |items| ==> NothingToHide(items[i])
    case _ => true
  }

  lemma {:induction false} SanitizingLeavesTheRestAlone(show: Json -> string, key: string, value: Json)
    requires !IsSecretKey(key) && !IsCardNumberKey(key) && NothingToHide(value)
    ensures Sanitize(show, key, value, Off) == value
    decreases value
  {
    if value.Obj? {
      forall k | k in value.fields
        ensures SanitizeField(show, ContextOf(value.fields), k, value.fields[k], Off) == value.fields[k]
      {
        SanitizingLeavesTheRestAlone(show, k, value.fields[k]);
      }
      assert SanitizeFields(show, value, Off) == value.fields;
    } else if value.Arr? {
      forall i | 0 <= i < |value.items| ensures Sanitize(show, "", value.items[i], Off) == value.items[i] {
        SanitizingLeavesTheRestAlone(show, "", value.items[i]);
      }
    }
  }
}

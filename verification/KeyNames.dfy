/** How the sanitiser recognises keys: which spellings stand for which name, and what
    becomes of the values under them. */
module KeyNames {
  import opened Text
  import opened JsonTree
  import opened Luhn
  import opened Sanitizer
  import opened SanitizerProperties

  // ----- What does not matter about a key

  predicate SameKinds(a: string, b: string) {
    && (IsSecretKey(a) <==> IsSecretKey(b))
    && (IsCardNumberKey(a) <==> IsCardNumberKey(b))
    && (IsMethodKey(a) <==> IsMethodKey(b))
    && (IsPaymentInfoKey(a) <==> IsPaymentInfoKey(b))
  }

  lemma {:induction false} ToLowerConcat(s: string, t: string)
    ensures ToLower(s + t) == ToLower(s) + ToLower(t)
  {
  }

  lemma SeparatorsStay(s: string)
    ensures forall c :: c in {'_', '-', ' '} ==> Lower(c) == c
    ensures forall c :: Lower(c) in {'_', '-', ' '} ==> Lower(c) == c
  {
  }

  /** Lowering a character first or last makes no difference to what is dropped. */
  lemma {:induction false} LowerThenDrop(s: string)
    ensures Without(ToLower(s), {'_', '-', ' '}) == ToLower(Without(s, {'_', '-', ' '}))
  {
    if s != "" {
      LowerThenDrop(s[1..]);
      SeparatorsStay(s);
      assert ToLower(s)[1..] == ToLower(s[1..]);
      assert ToLower([s[0]]) == [Lower(s[0])];
      ToLowerConcat(Without([s[0]], {'_', '-', ' '}), Without(s[1..], {'_', '-', ' '}));
      WithoutOne(s[0], {'_', '-', ' '});
    }
  }

  /** A separator put anywhere into a key. */
  lemma SeparatorsDoNotMatter(x: string, c: char, y: string)
    requires Trimmed(x + y) && c in {'_', '-', ' '}
    ensures SameKinds(x + [c] + y, x + y)
  {
    SeparatorsAreDropped(x, c, y, {'_', '-', ' '});
    LowerThenDrop(TrimSpace(x + [c] + y));
    LowerThenDrop(TrimSpace(x + y));
  }

  /** The case of an ASCII letter. */
  lemma LetterCaseDoesNotMatter(x: string, lower: char, upper: char, y: string)
    requires Trimmed(x + [lower] + y) && 'a' <= lower <= 'z' && upper as int == lower as int - 32
    ensures SameKinds(x + [upper] + y, x + [lower] + y)
  {
    var a, b := x + [upper] + y, x + [lower] + y;
    assert forall i :: 0 <= i < |a| && i != |x| ==> a[i] == b[i];
    assert a[|x|] == upper && b[|x|] == lower;
    TrimSpaceTrims(a);
    TrimSpaceTrims(b);
    assert ToLower(a) == ToLower(b);
  }

  /** White space around a key. */
  lemma PaddingDoesNotMatter(front: string, key: string, back: string)
    requires (forall i :: 0 <= i < |front| ==> IsSpace(front[i])) && (forall i :: 0 <= i < |back| ==> IsSpace(back[i]))
    requires Trimmed(key)
    ensures SameKinds(front + key + back, key)
  {
    TrimSpaceExactly(front, key, back);
    TrimSpaceTrims(key);
  }

  // ----- Which keys are recognised

  /** A character that stands for a lower-case letter of a name. */
  predicate StandsFor(c: char, letter: char) {
    || c == letter
    || ('A' <= c <= 'Z' && c as int + 32 == letter as int)
    || (c == '\U{0130}' && letter == 'i')
    || (c == '\U{212A}' && letter == 'k')
  }

  /** A name spelled with separators anywhere and letters in either case. */
  predicate Respells(key: string, name: string) {
    if key == "" then name == ""
    else if key[0] in {'_', '-', ' '} then Respells(key[1..], name)
    else name != "" && StandsFor(key[0], name[0]) && Respells(key[1..], name[1..])
  }

  predicate IsWord(name: string) {
    forall i :: 0 <= i < |name| ==> 'a' <= name[i] <= 'z'
  }

  lemma {:induction false} SpelledExactly(key: string, name: string)
    requires IsWord(name)
    ensures Without(ToLower(key), {'_', '-', ' '}) == name <==> Respells(key, name)
  {
    if key != "" {
      var rest := Without(ToLower(key[1..]), {'_', '-', ' '});
      SeparatorsStay(key);
      assert ToLower(key)[1..] == ToLower(key[1..]);
      if key[0] in {'_', '-', ' '} {
        SpelledExactly(key[1..], name);
      } else if name != "" {
        SpelledExactly(key[1..], name[1..]);
        assert name == [name[0]] + name[1..];
        assert Lower(key[0]) == name[0] <==> StandsFor(key[0], name[0]);
      }
    }
  }

  /** The key spells one of the names. */
  predicate SpellsOneOf(key: string, names: set<string>) {
    exists name :: name in names && Respells(TrimSpace(key), name)
  }

  lemma OneOf(key: string, names: set<string>)
    requires forall name :: name in names ==> IsWord(name)
    ensures SpellsOneOf(key, names) <==> NormalizeKey(key) in names
  {
    forall name | name in names ensures NormalizeKey(key) == name <==> Respells(TrimSpace(key), name) {
      SpelledExactly(TrimSpace(key), name);
    }
  }

  /** The names of each kind. */
  lemma SecretKeysExactly(key: string)
    ensures IsSecretKey(key) <==>
            SpellsOneOf(key, {"token", "providertoken", "paymenttoken", "accesstoken", "authtoken", "bearer",
                              "cvv", "cvc", "securitycode", "securityvalue", "sk"})
  {
    hide NormalizeKey, SpellsOneOf;
    OneOf(key, {"token", "providertoken", "paymenttoken", "accesstoken", "authtoken", "bearer",
                "cvv", "cvc", "securitycode", "securityvalue", "sk"});
  }

  lemma CardNumberKeysExactly(key: string)
    ensures IsCardNumberKey(key) <==> SpellsOneOf(key, {"cardnum", "cardnumber", "pan", "primaryaccountnumber"})
  {
    hide NormalizeKey, SpellsOneOf;
    OneOf(key, {"cardnum", "cardnumber", "pan", "primaryaccountnumber"});
  }

  lemma ContextKeysExactly(key: string)
    ensures IsMethodKey(key) <==> SpellsOneOf(key, {"paymentmethod", "method"})
    ensures IsPaymentInfoKey(key) <==> SpellsOneOf(key, {"paymentinfo"})
    ensures NormalizeKey(key) == "purpose" <==> SpellsOneOf(key, {"purpose"})
  {
    hide NormalizeKey, SpellsOneOf;
    OneOf(key, {"paymentmethod", "method"});
    OneOf(key, {"paymentinfo"});
    OneOf(key, {"purpose"});
  }

  /** Whatever its spelling, a secret of a payload is redacted and a card number reduced,
      directly under the root or under any other key that is walked into. */
  lemma SpelledSecretsAreHidden(show: Json -> string, root: string, fields: map<string, Json>, key: string, mask: Mask)
    requires key in fields && !IsSecretKey(root) && !IsCardNumberKey(root)
    ensures var clean := Sanitize(show, root, Obj(fields), mask);
            && clean.Obj? && key in clean.fields
            && (SpellsOneOf(key, {"token", "providertoken", "paymenttoken", "accesstoken", "authtoken", "bearer",
                                  "cvv", "cvc", "securitycode", "securityvalue", "sk"}) ==>
                  clean.fields[key] == Str("REDACTED"))
            && (SpellsOneOf(key, {"cardnum", "cardnumber", "pan", "primaryaccountnumber"}) ==>
                  clean.fields[key].Str? && |clean.fields[key].text| <= 4)
  {
    SecretKeysExactly(key);
    CardNumberKeysExactly(key);
    SanitizedHoldsNoSecrets(show, root, Obj(fields), mask);
  }

  lemma {:induction false} SpellsItself(name: string)
    requires IsWord(name)
    ensures Respells(name, name)
  {
    if name != "" {
      SpellsItself(name[1..]);
    }
  }

  /** For instance: a name with an underscore between its words. */
  lemma SnakeCase(x: string, y: string)
    requires IsWord(x + y)
    ensures x + y in {"accesstoken", "providertoken", "securitycode"} ==> IsSecretKey(x + "_" + y)
    ensures x + y in {"cardnum", "cardnumber"} ==> IsCardNumberKey(x + "_" + y)
  {
    hide NormalizeKey;
    assert Trimmed(x + y);
    SeparatorsDoNotMatter(x, '_', y);
    WordIsItsName(x + y);
  }

  lemma WordIsItsName(name: string)
    requires IsWord(name)
    ensures NormalizeKey(name) == name
  {
    TrimSpaceTrims(name);
    SpellsItself(name);
    SpelledExactly(name, name);
  }

  // ----- What an object says about its payment method

  predicate SaysCard(key: string, value: Json) {
    && value.Str?
    && (|| (SpellsOneOf(key, {"purpose"})
            && (|| EqualFold(TrimSpace(value.text), "token")
                || EqualFold(TrimSpace(value.text), "schedule_subscription")
                || EqualFold(TrimSpace(value.text), "subscription_card_changed")))
        || (SpellsOneOf(key, {"paymentmethod", "method"})
            && (EqualFold(TrimSpace(value.text), "card") || EqualFold(TrimSpace(value.text), "applePay"))))
  }

  predicate SaysMethod(key: string, value: Json) {
    value.Str? && SpellsOneOf(key, {"paymentmethod", "method"}) && TrimSpace(value.text) != ""
  }

  lemma SaysExactly(key: string, value: Json)
    ensures NamesCard(key, value) <==> SaysCard(key, value)
    ensures NamesMethod(key, value) <==> SaysMethod(key, value)
  {
    ContextKeysExactly(key);
    if value.Str? {
      var text := TrimSpace(value.text);
      assert FoldsToOneOf(text, CARD_METHODS) <==> EqualFold(text, "card") || EqualFold(text, "applePay");
      assert FoldsToOneOf(text, CARD_PURPOSES) <==>
             || EqualFold(text, "token")
             || EqualFold(text, "schedule_subscription")
             || EqualFold(text, "subscription_card_changed");
    }
  }

  /** Card if any field says so, else other if any method is given, else unknown. */
  lemma ContextExactly(fields: map<string, Json>)
    ensures ContextOf(fields) == Card <==> exists key :: key in fields && SaysCard(key, fields[key])
    ensures ContextOf(fields) == Other <==>
            && !(exists key :: key in fields && SaysCard(key, fields[key]))
            && exists key :: key in fields && SaysMethod(key, fields[key])
  {
    forall key | key in fields
      ensures NamesCard(key, fields[key]) <==> SaysCard(key, fields[key])
      ensures NamesMethod(key, fields[key]) <==> SaysMethod(key, fields[key])
    {
      SaysExactly(key, fields[key]);
    }
  }

  // ----- What masking does to one value

  /** The last four characters of trimmed text without spaces and hyphens. */
  lemma LastFourExactly(s: string)
    requires Trimmed(s) && ' ' !in s && '-' !in s
    ensures LastFour(s) == if |s| <= 4 then s else s[|s| - 4..]
  {
    TrimSpaceTrims(s);
    WithoutKeeps(s, GROUPING);
  }

  /** White space around the text does not matter, nor do spaces and hyphens put anywhere. */
  lemma LastFourIgnores(s: string, x: string, c: char, y: string)
    requires Trimmed(x + y) && c in {' ', '-'}
    ensures LastFour(s) == LastFour(TrimSpace(s))
    ensures LastFour(x + [c] + y) == LastFour(x + y)
  {
    TrimSpaceTrims(s);
    TrimSpaceTrims(TrimSpace(s));
    SeparatorsAreDropped(x, c, y, GROUPING);
  }

  /** Under a key without a meaning of its own a text or number changes exactly if the mask
      is on and it looks like a card number, and then into its last four characters. */
  lemma ScalarsExactly(show: Json -> string, key: string, text: string, mask: Mask)
    requires !IsSecretKey(key) && !IsCardNumberKey(key)
    ensures Sanitize(show, key, Str(text), mask) ==
            if mask != Off && LooksLikeCardNumber(text, mask == Grouped) then Str(LastFour(text)) else Str(text)
    ensures Sanitize(show, key, Num(text), mask) ==
            if mask != Off && LooksLikeCardNumber(text, false) then Str(LastFour(text)) else Num(text)
    ensures Sanitize(show, key, Null, mask) == Null
    ensures forall flag :: Sanitize(show, key, Bool(flag), mask) == Bool(flag)
  {
  }

  /** A run of fewer than 13 or more than 19 digits is kept. */
  lemma OtherLengthsAreKept(show: Json -> string, key: string, digits: string, mask: Mask)
    requires !IsSecretKey(key) && !IsCardNumberKey(key)
    requires AllDigits(digits) && !(13 <= |digits| <= 19)
    ensures Sanitize(show, key, Str(digits), mask) == Str(digits)
    ensures Sanitize(show, key, Num(digits), mask) == Num(digits)
  {
    DigitsExactly(digits, false);
    DigitsExactly(digits, true);
  }

  /** What is kept of a value under a card-number key. */
  lemma CardNumberValues(show: Json -> string, key: string, value: Json, mask: Mask)
    requires SpellsOneOf(key, {"cardnum", "cardnumber", "pan", "primaryaccountnumber"})
    ensures Sanitize(show, key, value, mask) ==
            match value
            case Null => Str("")
            case Bool(flag) => if flag then Str("true") else Str("alse")
            case Num(text) => Str(LastFour(text))
            case Str(text) => Str(LastFour(text))
            case _ => Str(LastFour(show(value)))
  {
    hide NormalizeKey, LastFour, SpellsOneOf;
    CardNumberKeysExactly(key);
    KeyKindsAreDisjoint(key);
    Booleans();
  }

  /** The text of a value that is reduced whatever its kind. */
  lemma SprintExactly(show: Json -> string, text: string)
    ensures Sprint(show, Null) == "<nil>" && Sprint(show, Bool(true)) == "true" && Sprint(show, Bool(false)) == "false"
    ensures Sprint(show, Num(text)) == text && Sprint(show, Str(text)) == text
  {
  }

  lemma Booleans()
    ensures LastFour("") == "" && LastFour("true") == "true" && LastFour("false") == "alse"
  {
    hide LastFour, TrimSpace;
    LastFourExactly("");
    LastFourExactly("true");
    LastFourExactly("false");
    assert "false"[1..] == "alse";
  }
}

/** A decoded JSON value, with numbers kept as the text they were written in. */
module JsonTree {
  datatype Json =
    | Null
    | Bool(flag: bool)
    | Num(text: string)
    | Str(text: string)
    | Arr(items: seq<Json>)
    | Obj(fields: map<string, Json>)
  {
    predicate Scalar() {
      Num? || Str?
    }
  }
}

/** The payload sanitiser: secrets become REDACTED, card numbers keep their last
    four characters, and a paymentInfo subtree is masked by what the object that
    owns it says about its payment method.

    `show` is the text fmt.Sprint gives an array or an object; nothing about it
    is assumed. */
module Sanitizer {
  import opened Text
  import opened JsonTree
  import opened Luhn

  const REDACTED := "REDACTED"

  const SECRET_KEYS: set<string> := {
    "token", "providertoken", "paymenttoken", "accesstoken", "authtoken", "bearer",
    "cvv", "cvc", "securitycode", "securityvalue", "sk"
  }

  const CARD_NUMBER_KEYS: set<string> := {"cardnum", "cardnumber", "pan", "primaryaccountnumber"}

  /** The purposes whose paymentInfo is always card data. */
  const CARD_PURPOSES: set<string> := {"token", "schedule_subscription", "subscription_card_changed"}

  /** Apple Pay settles on a card. */
  const CARD_METHODS: set<string> := {"card", "applePay"}

  const METHOD_KEYS: set<string> := {"paymentmethod", "method"}

  datatype Mask = Off | Ungrouped | Grouped

  datatype Context = Unknown | Card | Other

  function NormalizeKey(key: string): string {
    Without(ToLower(TrimSpace(key)), {'_', '-', ' '})
  }

  predicate IsSecretKey(key: string) {
    NormalizeKey(key) in SECRET_KEYS
  }

  predicate IsCardNumberKey(key: string) {
    NormalizeKey(key) in CARD_NUMBER_KEYS
  }

  predicate IsMethodKey(key: string) {
    NormalizeKey(key) in METHOD_KEYS
  }

  predicate IsPaymentInfoKey(key: string) {
    NormalizeKey(key) == "paymentinfo"
  }

  /** The last four characters, ignoring the separators of a grouped number. */
  function LastFour(value: string): string {
    var s := Without(TrimSpace(value), GROUPING);
    if |s| <= 4 then s else s[|s| - 4..]
  }

  /** fmt.Sprint of anything but null. */
  function Sprint(show: Json -> string, value: Json): string {
    match value
    case Null => "<nil>"
    case Bool(flag) => if flag then "true" else "false"
    case Num(text) => text
    case Str(text) => text
    case _ => show(value)
  }

  // ----- What an object says about its payment method

  predicate FoldsToOneOf(text: string, names: set<string>) {
    exists name :: name in names && EqualFold(text, name)
  }

  predicate NamesCard(key: string, value: Json) {
    && value.Str?
    && (|| (NormalizeKey(key) == "purpose" && FoldsToOneOf(TrimSpace(value.text), CARD_PURPOSES))
        || (IsMethodKey(key) && FoldsToOneOf(TrimSpace(value.text), CARD_METHODS)))
  }

  predicate NamesMethod(key: string, value: Json) {
    value.Str? && IsMethodKey(key) && TrimSpace(value.text) != ""
  }

  /** The order-free meaning: card if any field names card data, else other if
      any method is named, else unknown. */
  function ContextOf(fields: map<string, Json>): Context {
    if exists key :: key in fields && NamesCard(key, fields[key]) then Card
    else if exists key :: key in fields && NamesMethod(key, fields[key]) then Other
    else Unknown
  }

  // ----- The recursion over the tree

  function MaskPaymentInfoScalar(value: Json, context: Context): Json
    requires value.Scalar()
  {
    if context == Card || LooksLikeCardNumber(value.text, false) then Str(LastFour(value.text)) else value
  }

  function MaskUnder(context: Context): Mask {
    if context == Card then Grouped else Ungrouped
  }

  /** The mask that holds below one field of an object. */
  function MaskBelow(context: Context, key: string, mask: Mask): Mask {
    if IsPaymentInfoKey(key) && context != Other then MaskUnder(context) else mask
  }

  function Sanitize(show: Json -> string, key: string, value: Json, mask: Mask): Json
    decreases value, 1
  {
    if IsSecretKey(key) then Str(REDACTED)
    else if IsCardNumberKey(key) then
      if value.Null? then Str("") else Str(LastFour(Sprint(show, value)))
    else match value
      case Obj(fields) => Obj(SanitizeFields(show, value, mask))
      case Arr(items) => Arr(seq(|items|, i requires 0 <= i < |items| => Sanitize(show, "", items[i], mask)))
      case Str(text) =>
        if mask != Off && LooksLikeCardNumber(text, mask == Grouped) then Str(LastFour(text)) else value
      case Num(text) =>
        if mask != Off && LooksLikeCardNumber(text, false) then Str(LastFour(text)) else value
      case _ => value
  }

  function SanitizeFields(show: Json -> string, owner: Json, mask: Mask): map<string, Json>
    requires owner.Obj?
    decreases owner, 0
  {
    var context := ContextOf(owner.fields);
    map key | key in owner.fields :: SanitizeField(show, context, key, owner.fields[key], mask)
  }

  function SanitizeField(show: Json -> string, context: Context, key: string, value: Json, mask: Mask): Json
    decreases value, 2
  {
    if IsPaymentInfoKey(key) && context != Other && value.Scalar() then MaskPaymentInfoScalar(value, context)
    else Sanitize(show, key, value, MaskBelow(context, key, mask))
  }

  // ----- The same in the source's own form: loops over maps in any order

  /** Whatever order the fields are visited in, and despite the early returns,
      the answer is the order-free one. */
  method PaymentContextOf(fields: map<string, Json>) returns (context: Context)
    ensures context == ContextOf(fields)
  {
    context := Unknown;
    var todo := fields.Keys;
    while todo != {}
      invariant todo <= fields.Keys
      invariant forall key :: key in fields && key !in todo ==> !NamesCard(key, fields[key])
      invariant context == Other <==> exists key :: key in fields && key !in todo && NamesMethod(key, fields[key])
      invariant context != Card
      decreases |todo|
    {
      var key :| key in todo;
      todo := todo - {key};
      var value := fields[key];
      if value.Str? {
        var text := TrimSpace(value.text);
        if NormalizeKey(key) == "purpose" {
          if FoldsToOneOf(text, CARD_PURPOSES) {
            return Card;
          }
        } else if IsMethodKey(key) {
          if FoldsToOneOf(text, CARD_METHODS) {
            return Card;
          }
          if text != "" {
            context := Other;
          }
        }
      }
    }
  }

  method SanitizeNode(show: Json -> string, key: string, value: Json, mask: Mask) returns (clean: Json)
    ensures clean == Sanitize(show, key, value, mask)
    decreases value, 1
  {
    if IsSecretKey(key) {
      return Str(REDACTED);
    }
    if IsCardNumberKey(key) {
      if value.Null? {
        return Str("");
      }
      return Str(LastFour(Sprint(show, value)));
    }
    match value
    case Obj(_) =>
      var out := SanitizeObject(show, value, mask);
      clean := Obj(out);
    case Arr(items) =>
      var out: seq<Json> := [];
      for i := 0 to |items|
        invariant |out| == i
        invariant forall j :: 0 <= j < i ==> out[j] == Sanitize(show, "", items[j], mask)
      {
        var item := SanitizeNode(show, "", items[i], mask);
        out := out + [item];
      }
      clean := Arr(out);
    case Str(text) =>
      clean := value;
      if mask != Off {
        var found := IsCardNumber(text, mask == Grouped);
        clean := if found then Str(LastFour(text)) else value;
      }
    case Num(text) =>
      clean := value;
      if mask != Off {
        var found := IsCardNumber(text, false);
        clean := if found then Str(LastFour(text)) else value;
      }
    case _ =>
      clean := value;
  }

  method SanitizeObject(show: Json -> string, owner: Json, mask: Mask) returns (clean: map<string, Json>)
    requires owner.Obj?
    ensures clean == SanitizeFields(show, owner, mask)
    decreases owner, 0
  {
    var fields := owner.fields;
    clean := map[];
    var context := PaymentContextOf(fields);
    var todo := fields.Keys;
    while todo != {}
      invariant todo <= fields.Keys
      invariant clean.Keys == fields.Keys - todo
      invariant forall key :: key in clean ==> clean[key] == SanitizeField(show, context, key, fields[key], mask)
      decreases |todo|
    {
      var key :| key in todo;
      todo := todo - {key};
      var childMask := mask;
      if IsPaymentInfoKey(key) && context != Other {
        if fields[key].Scalar() {
          clean := clean[key := MaskPaymentInfoScalar(fields[key], context)];
          continue;
        }
        childMask := if context == Card then Grouped else Ungrouped;
      }
      var child := SanitizeNode(show, key, fields[key], childMask);
      clean := clean[key := child];
    }
  }
}

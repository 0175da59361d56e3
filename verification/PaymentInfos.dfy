/** The readers of a sanitised callback: times, card and bank details, and line items. */
module PaymentInfos {
  import opened Text
  import opened JsonTree
  import opened Wire
  import opened StructFields
  import Amounts
  import Sanitizer
  import SanitizerProperties

  /** A time is an opaque text. The zero time counts as no time. */
  datatype Reading = Unreadable | NoTime | At(time: string)
  {
    function Seen(): Option<string> {
      if At? then Some(time) else None
    }
  }

  /** What is given about the platform: the exponents big.Rat reads, the largest int, and
      which numbers and texts are times. */
  datatype Platform = Platform(exponents: nat, maxInt: nat, clock: Json -> Reading)
  {
    /** null and blank texts are no time; other values that are neither numbers nor texts
        cannot be read. */
    function Time(raw: Json): Reading {
      if raw.Null? || (raw.Str? && TrimSpace(raw.text) == "") then NoTime
      else if raw.Scalar() then clock(raw)
      else Unreadable
    }

    function Amount(raw: Json): Option<int> {
      Amounts.ParseOptionalAmount(raw, exponents)
    }

    function Count(raw: Json): Option<int> {
      Amounts.ParseOptionalInt(raw, exponents, maxInt)
    }
  }

  /** When a value is a time: never if it is neither a number nor a text, and null and blank
      texts are none. */
  lemma TimesExactly(platform: Platform, raw: Json, time: string)
    ensures raw.Null? ==> platform.Time(raw) == NoTime
    ensures raw.Str? && TrimSpace(raw.text) == "" ==> platform.Time(raw) == NoTime
    ensures raw.Num? || (raw.Str? && TrimSpace(raw.text) != "") ==> platform.Time(raw) == platform.clock(raw)
    ensures raw.Bool? || raw.Arr? || raw.Obj? ==> platform.Time(raw) == Unreadable
    ensures Unreadable.Seen() == None && NoTime.Seen() == None && At(time).Seen() == Some(time)
  {
  }

  /** Amounts and counts are read as the exponents and the int of the platform allow. */
  lemma NumbersExactly(platform: Platform, raw: Json)
    ensures platform.Amount(raw) == Amounts.ParseOptionalAmount(raw, platform.exponents)
    ensures platform.Count(raw) == Amounts.ParseOptionalInt(raw, platform.exponents, platform.maxInt)
  {
  }

  datatype PaymentInfo = PaymentInfo(
    method_: string, text: string, cardLast4: string, cardType: string, cardName: string, bankCode: string,
    bankName: string, account: string, cvsName: string, code: string, expiredAt: Option<string>)

  const EMPTY := PaymentInfo("", "", "", "", "", "", "", "", "", "", None)

  predicate FourDigits(text: string) {
    |text| == 4 && AllDigits(text)
  }

  /** A paymentInfo is absent, a text, or an object with a readable expiry. */
  predicate Readable(platform: Platform, raw: Json) {
    raw.Null? || raw.Str? || (raw.Obj? && !platform.Time(Pick(raw.fields, "expiredAt")).Unreadable?)
  }

  predicate HasCard(info: PaymentInfo) {
    info.cardLast4 != "" || info.cardType != ""
  }

  predicate HasBank(info: PaymentInfo) {
    info.account != "" || info.bankCode != ""
  }

  predicate HasStore(info: PaymentInfo) {
    info.cvsName != "" || info.code != ""
  }

  /** An object that does not name its method is given one by the details it carries. */
  function WithMethod(info: PaymentInfo): (named: PaymentInfo)
    ensures info.method_ != "" ==> named == info
    ensures named == info.(method_ := named.method_)
    ensures named.method_ == "" <==>
              info.method_ == "" && !HasCard(info) && !HasBank(info) && !HasStore(info)
    ensures info.method_ == "" && HasCard(info) ==> named.method_ == "card"
    ensures info.method_ == "" && !HasCard(info) && HasBank(info) ==> named.method_ == "atm"
    ensures info.method_ == "" && !HasCard(info) && !HasBank(info) && HasStore(info) ==> named.method_ == "cvs"
  {
    if info.method_ != "" then info
    else if info.cardLast4 != "" || info.cardType != "" then info.(method_ := "card")
    else if info.account != "" || info.bankCode != "" then info.(method_ := "atm")
    else if info.cvsName != "" || info.code != "" then info.(method_ := "cvs")
    else info
  }

  function DecodePaymentInfo(platform: Platform, raw: Json): (info: Option<PaymentInfo>)
    ensures info.Some? <==> Readable(platform, raw)
    ensures info.Some? ==> |info.value.cardLast4| <= 4
    ensures info.Some? && !raw.Obj? ==> |info.value.text| <= if raw.Str? then |raw.text| else 0
    ensures info.Some? && raw.Str? ==>
              && info.value.text == TrimSpace(raw.text)
              && (info.value.cardLast4 == info.value.text || info.value.cardLast4 == "")
              && (info.value.cardLast4 != "" <==> |info.value.text| == 4 && AllDigits(info.value.text))
    ensures info.Some? && raw.Obj? ==>
              && info.value.text == ""
              && info.value.cardLast4 == Sanitizer.LastFour(RawString(Pick(raw.fields, "cardNum")))
              && info.value.cardType == RawString(Pick(raw.fields, "cardType"))
              && info.value.cardName == RawString(Pick(raw.fields, "cardName"))
              && info.value.bankCode == RawString(Pick(raw.fields, "bankCode"))
              && info.value.bankName == RawString(Pick(raw.fields, "bankName"))
              && info.value.account == RawString(Pick(raw.fields, "account"))
              && info.value.cvsName == RawString(Pick(raw.fields, "cvsName"))
              && info.value.code == RawString(Pick(raw.fields, "code"))
              && info.value.expiredAt == platform.Time(Pick(raw.fields, "expiredAt")).Seen()
              && (RawString(Pick(raw.fields, "method")) != "" ==>
                    info.value.method_ == RawString(Pick(raw.fields, "method")))
              && (RawString(Pick(raw.fields, "method")) == "" ==>
                    info.value == WithMethod(info.value.(method_ := "")))
    ensures info.Some? && !raw.Obj? ==>
              info.value == PaymentInfo("", info.value.text, info.value.cardLast4, "", "", "", "", "", "", "", None)
    ensures info.Some? && raw.Null? ==> info.value.text == "" && info.value.cardLast4 == ""
  {
    match raw
    case Null => Some(EMPTY)
    case Str(value) =>
      var text := TrimSpace(value);
      TrimSpaceTrims(value);
      Some(EMPTY.(text := text, cardLast4 := if FourDigits(text) then text else ""))
    case Obj(fields) =>
      var expiry := platform.Time(Pick(fields, "expiredAt"));
      if expiry.Unreadable? then None
      else
        var text := name => RawString(Pick(fields, name));
        var last4 := Sanitizer.LastFour(RawString(Pick(fields, "cardNum")));
        SanitizerProperties.LastFourIsBare(RawString(Pick(fields, "cardNum")));
        Some(WithMethod(PaymentInfo(
          text("method"), "", last4, text("cardType"), text("cardName"), text("bankCode"), text("bankName"),
          text("account"), text("cvsName"), text("code"), expiry.Seen())))
    case _ => None
  }

  datatype Item = Item(quantity: int, unitPrice: int)

  function ItemFields(raw: Json): Fields {
    if raw.Obj? then raw.fields else map[]
  }

  /** An item needs a price; a missing quantity is zero. */
  predicate ItemReads(platform: Platform, raw: Json) {
    && (raw.Obj? || raw.Null?)
    && Amounts.ParseAmount(Pick(ItemFields(raw), "unitPrice"), platform.exponents).Some?
    && platform.Count(Pick(ItemFields(raw), "quantity")).Some?
  }

  predicate ItemsRead(platform: Platform, raw: Json) {
    raw.Null? || (raw.Arr? && forall i :: 0 <= i < |raw.items| ==> ItemReads(platform, raw.items[i]))
  }

  /** The item an array element stands for. */
  predicate IsItem(platform: Platform, raw: Json, item: Item) {
    && Amounts.ParseAmount(Pick(ItemFields(raw), "unitPrice"), platform.exponents) == Some(item.unitPrice)
    && platform.Count(Pick(ItemFields(raw), "quantity")) == Some(item.quantity)
  }

  method ReadItem(platform: Platform, raw: Json) returns (item: Option<Item>)
    ensures item.Some? <==> ItemReads(platform, raw)
    ensures item.Some? ==> IsItem(platform, raw, item.value)
  {
    if !raw.Obj? && !raw.Null? {
      return None;
    }
    var unitPrice := Amounts.ParseAmount(Pick(ItemFields(raw), "unitPrice"), platform.exponents);
    if unitPrice.None? {
      return None;
    }
    var quantity := platform.Count(Pick(ItemFields(raw), "quantity"));
    if quantity.None? {
      return None;
    }
    return Some(Item(quantity.value, unitPrice.value));
  }

  method ReadItems(platform: Platform, raw: Json) returns (items: Option<seq<Item>>)
    ensures items.Some? <==> ItemsRead(platform, raw)
    ensures items.Some? ==> |items.value| == if raw.Arr? then |raw.items| else 0
    ensures items.Some? && raw.Arr? ==>
              forall i :: 0 <= i < |items.value| ==> IsItem(platform, raw.items[i], items.value[i])
  {
    hide ItemReads, IsItem;
    if raw.Null? {
      return Some([]);
    }
    if !raw.Arr? {
      return None;
    }
    var read: seq<Item> := [];
    for i := 0 to |raw.items|
      invariant |read| == i
      invariant forall j :: 0 <= j < i ==> ItemReads(platform, raw.items[j])
      invariant forall j :: 0 <= j < i ==> IsItem(platform, raw.items[j], read[j])
    {
      var item := ReadItem(platform, raw.items[i]);
      if item.None? {
        return None;
      }
      read := read + [item.value];
    }
    return Some(read);
  }

  /** An item that is null has no price. */
  lemma NullIsNoItem(platform: Platform)
    ensures !ItemReads(platform, Null)
  {
    assert Spellings(map[], "unitPrice") == {};
  }
}

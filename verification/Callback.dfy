/** Reading a webhook body: which callbacks are accepted, when a token is handed
    out, and what is left of card data. The body is an already parsed object. */
module Callback {
  import opened Text
  import opened JsonTree
  import opened Wire
  import opened Sanitizer
  import opened SanitizerProperties
  import opened StructFields
  import opened PaymentInfos
  import Amounts

  /** An absent field is read as null. */
  function Field(fields: Fields, name: string): Json {
    if name in fields then fields[name] else Null
  }

  /** A nonempty string, trimmed. */
  function RequiredString(raw: Json): (text: Option<string>)
    ensures text.Some? ==> text.value != ""
  {
    if raw.Str? && TrimSpace(raw.text) != "" then Some(TrimSpace(raw.text)) else None
  }

  const INVOICE_FIELDS: seq<string> := [
    "merchantId", "id", "chargeId", "invoiceNumber", "invoiceStatus",
    "invoiceDate", "randomNumber", "invoiceAmount", "createdAt"]

  /** What each documented purpose always carries. */
  function RequiredFields(purpose: string): Option<seq<string>> {
    match purpose
    case "charge" => Some(["merchantId", "id"])
    case "token" => Some(["merchantId", "id", "success"])
    case "schedule_subscription" => Some(["merchantId", "id", "success", "subscriptionId"])
    case "subscription_card_changed" => Some(["merchantId", "id", "success", "status", "subscriptionId"])
    case "refund" => Some(["id"])
    case "subscription_cancelled" => Some(["id"])
    case "subscription_retry" => Some(["id"])
    case "invoice_issued" => Some(INVOICE_FIELDS)
    case "invoice_voided" => Some(INVOICE_FIELDS)
    case _ => None
  }

  predicate Known(purpose: string) {
    RequiredFields(purpose).Some?
  }

  predicate HasRequired(fields: Fields, name: string) {
    if name == "success" then !Field(fields, name).Null?
    else if name == "invoiceAmount" then name in fields
    else RequiredString(Field(fields, name)).Some?
  }

  /** The event ID is computed over scalars only. */
  predicate Identifiable(fields: Fields) {
    forall name :: name in {"purpose", "merchantId", "id", "status", "success"} ==>
      !Field(fields, name).Arr? && !Field(fields, name).Obj?
  }

  /** Everything a body must satisfy before its purpose-specific fields are read. */
  predicate Acceptable(merchant: string, fields: Fields) {
    var purpose := RequiredString(Field(fields, "purpose"));
    var success := Field(fields, "success");
    && purpose.Some?
    && (Field(fields, "merchantId").Null? || RequiredString(Field(fields, "merchantId")) == Some(merchant))
    && (Known(purpose.value) ==>
          && (forall i :: 0 <= i < |RequiredFields(purpose.value).value| ==>
                HasRequired(fields, RequiredFields(purpose.value).value[i]))
          && (Field(fields, "status").Null? || RequiredString(Field(fields, "status")).Some?)
          && (success.Null? || success.Bool?))
    && (purpose.value == "token" && success == Bool(true) ==> RequiredString(Field(fields, "token")).Some?)
    && Identifiable(fields)
  }

  predicate IsGiven(raw: Json) {
    raw.Str? && TrimSpace(raw.text) != ""
  }

  /** What is required, field by field. */
  predicate HasItsFields(fields: Fields, purpose: string) {
    && (purpose in {"charge", "token", "schedule_subscription", "subscription_card_changed",
                    "invoice_issued", "invoice_voided"} ==>
          IsGiven(Field(fields, "merchantId")))
    && (purpose in {"charge", "token", "schedule_subscription", "subscription_card_changed", "refund",
                    "subscription_cancelled", "subscription_retry", "invoice_issued", "invoice_voided"} ==>
          && IsGiven(Field(fields, "id"))
          && (Field(fields, "status").Null? || IsGiven(Field(fields, "status")))
          && (Field(fields, "success").Null? || Field(fields, "success").Bool?))
    && (purpose in {"token", "schedule_subscription", "subscription_card_changed"} ==> Field(fields, "success").Bool?)
    && (purpose in {"schedule_subscription", "subscription_card_changed"} ==> IsGiven(Field(fields, "subscriptionId")))
    && (purpose == "subscription_card_changed" ==> IsGiven(Field(fields, "status")))
    && (purpose in {"invoice_issued", "invoice_voided"} ==>
          && IsGiven(Field(fields, "chargeId")) && IsGiven(Field(fields, "invoiceNumber"))
          && IsGiven(Field(fields, "invoiceStatus")) && IsGiven(Field(fields, "invoiceDate"))
          && IsGiven(Field(fields, "randomNumber")) && IsGiven(Field(fields, "createdAt"))
          && "invoiceAmount" in fields)
  }

  lemma RequiredExactly(raw: Json, text: string, fields: Fields, name: string)
    ensures RequiredString(raw) == Some(text) <==> raw.Str? && text == TrimSpace(raw.text) && text != ""
    ensures RequiredString(raw).Some? <==> IsGiven(raw)
    ensures Field(fields, name) == if name in fields then fields[name] else Null
  {
  }

  lemma KnownExactly(purpose: string)
    ensures Known(purpose) <==>
            purpose in {"charge", "token", "schedule_subscription", "subscription_card_changed", "refund",
                        "subscription_cancelled", "subscription_retry", "invoice_issued", "invoice_voided"}
  {
  }

  /** A list of names, name by name. */
  lemma {:induction false} AllOf(fields: Fields, names: seq<string>)
    ensures (forall i :: 0 <= i < |names| ==> HasRequired(fields, names[i])) <==>
            forall name :: name in names ==> HasRequired(fields, name)
  {
  }

  predicate AllRequired(fields: Fields, purpose: string) {
    Known(purpose) ==>
      forall i :: 0 <= i < |RequiredFields(purpose).value| ==> HasRequired(fields, RequiredFields(purpose).value[i])
  }

  predicate RestIsWellTyped(fields: Fields, purpose: string) {
    Known(purpose) ==>
      && (Field(fields, "status").Null? || IsGiven(Field(fields, "status")))
      && (Field(fields, "success").Null? || Field(fields, "success").Bool?)
  }

  /** The table of required fields, read field by field. */
  lemma TableExactly(fields: Fields, purpose: string)
    ensures AllRequired(fields, purpose) && RestIsWellTyped(fields, purpose) <==> HasItsFields(fields, purpose)
  {
    hide AllRequired, RestIsWellTyped, HasItsFields;
    if IsInvoice(purpose) {
      InvoiceFields(fields, purpose);
    } else {
      OtherFields(fields, purpose);
    }
  }

  lemma InvoiceFields(fields: Fields, purpose: string)
    requires IsInvoice(purpose)
    ensures AllRequired(fields, purpose) && RestIsWellTyped(fields, purpose) <==> HasItsFields(fields, purpose)
  {
    hide IsGiven, Field, RequiredFields, HasRequired;
    KnownExactly(purpose);
    RequiredAreGiven(fields);
    AllOf(fields, RequiredFields(purpose).value);
    InvoiceTable(fields, purpose);
  }

  lemma OtherFields(fields: Fields, purpose: string)
    requires !IsInvoice(purpose)
    ensures AllRequired(fields, purpose) && RestIsWellTyped(fields, purpose) <==> HasItsFields(fields, purpose)
  {
    hide IsGiven, Field, RequiredFields, HasRequired;
    KnownExactly(purpose);
    RequiredAreGiven(fields);
    if Known(purpose) {
      AllOf(fields, RequiredFields(purpose).value);
      ShortTables(fields, purpose);
    }
  }

  lemma RequiredAreGiven(fields: Fields)
    ensures forall name :: HasRequired(fields, name) <==>
              if name == "success" then !Field(fields, "success").Null?
              else if name == "invoiceAmount" then "invoiceAmount" in fields
              else IsGiven(Field(fields, name))
  {
  }

  lemma {:induction false} AllOfPrefix(fields: Fields, first: string, rest: seq<string>)
    ensures (forall name :: name in [first] + rest ==> HasRequired(fields, name)) <==>
            HasRequired(fields, first) && forall name :: name in rest ==> HasRequired(fields, name)
  {
    hide HasRequired;
    assert first in [first] + rest;
    assert forall name :: name in [first] + rest <==> name == first || name in rest;
  }

  lemma InvoiceTable(fields: Fields, purpose: string)
    requires IsInvoice(purpose)
    ensures (forall name :: name in RequiredFields(purpose).value ==> HasRequired(fields, name)) <==>
            && HasRequired(fields, "merchantId") && HasRequired(fields, "id") && HasRequired(fields, "chargeId")
            && HasRequired(fields, "invoiceNumber") && HasRequired(fields, "invoiceStatus")
            && HasRequired(fields, "invoiceDate") && HasRequired(fields, "randomNumber")
            && HasRequired(fields, "invoiceAmount") && HasRequired(fields, "createdAt")
  {
    hide HasRequired;
    var last := ["invoiceDate", "randomNumber", "invoiceAmount", "createdAt"];
    var middle := ["chargeId", "invoiceNumber", "invoiceStatus"] + last;
    assert RequiredFields(purpose).value == ["merchantId"] + (["id"] + middle);
    AllOfPrefix(fields, "merchantId", ["id"] + middle);
    AllOfPrefix(fields, "id", middle);
    MiddleOfInvoice(fields, last);
    LastOfInvoice(fields);
  }

  lemma MiddleOfInvoice(fields: Fields, last: seq<string>)
    ensures (forall name :: name in ["chargeId", "invoiceNumber", "invoiceStatus"] + last ==> HasRequired(fields, name)) <==>
            && HasRequired(fields, "chargeId") && HasRequired(fields, "invoiceNumber")
            && HasRequired(fields, "invoiceStatus") && forall name :: name in last ==> HasRequired(fields, name)
  {
    hide HasRequired;
    var names := ["chargeId", "invoiceNumber", "invoiceStatus"] + last;
    assert names == ["chargeId"] + (["invoiceNumber"] + (["invoiceStatus"] + last));
    AllOfPrefix(fields, "chargeId", ["invoiceNumber"] + (["invoiceStatus"] + last));
    AllOfPrefix(fields, "invoiceNumber", ["invoiceStatus"] + last);
    AllOfPrefix(fields, "invoiceStatus", last);
  }

  lemma LastOfInvoice(fields: Fields)
    ensures (forall name :: name in ["invoiceDate", "randomNumber", "invoiceAmount", "createdAt"] ==>
               HasRequired(fields, name)) <==>
            && HasRequired(fields, "invoiceDate") && HasRequired(fields, "randomNumber")
            && HasRequired(fields, "invoiceAmount") && HasRequired(fields, "createdAt")
  {
    hide HasRequired;
    var names := ["invoiceDate", "randomNumber", "invoiceAmount", "createdAt"];
    assert names == ["invoiceDate"] + (["randomNumber"] + (["invoiceAmount"] + (["createdAt"] + [])));
    AllOfPrefix(fields, "invoiceDate", ["randomNumber"] + (["invoiceAmount"] + (["createdAt"] + [])));
    AllOfPrefix(fields, "randomNumber", ["invoiceAmount"] + (["createdAt"] + []));
    AllOfPrefix(fields, "invoiceAmount", ["createdAt"] + []);
    AllOfPrefix(fields, "createdAt", []);
  }

  lemma ShortTables(fields: Fields, purpose: string)
    requires Known(purpose) && !IsInvoice(purpose)
    ensures (forall name :: name in RequiredFields(purpose).value ==> HasRequired(fields, name)) <==>
            && HasRequired(fields, "id")
            && (purpose in {"charge", "token", "schedule_subscription", "subscription_card_changed"} ==>
                  HasRequired(fields, "merchantId"))
            && (purpose in {"token", "schedule_subscription", "subscription_card_changed"} ==>
                  HasRequired(fields, "success"))
            && (purpose in {"schedule_subscription", "subscription_card_changed"} ==>
                  HasRequired(fields, "subscriptionId"))
            && (purpose == "subscription_card_changed" ==> HasRequired(fields, "status"))
  {
    hide HasRequired;
  }

  /** Which bodies pass the first checks. */
  lemma AcceptableExactly(merchant: string, fields: Fields)
    ensures Acceptable(merchant, fields) <==>
            && IsGiven(Field(fields, "purpose"))
            && var purpose := TrimSpace(Field(fields, "purpose").text);
            && (|| Field(fields, "merchantId").Null?
                || (IsGiven(Field(fields, "merchantId")) && TrimSpace(Field(fields, "merchantId").text) == merchant))
            && HasItsFields(fields, purpose)
            && (purpose == "token" && Field(fields, "success") == Bool(true) ==> IsGiven(Field(fields, "token")))
            && forall name :: name in {"purpose", "merchantId", "id", "status", "success"} ==>
                 !Field(fields, name).Arr? && !Field(fields, name).Obj?
  {
    if IsGiven(Field(fields, "purpose")) {
      TableExactly(fields, TrimSpace(Field(fields, "purpose").text));
    }
    hide TrimSpace, HasItsFields;
  }

  /** What the callbacks of one purpose carry beyond the common fields. */
  datatype Detail =
    | NoDetail
    | RefundDetail(originalAmount: int, requestedAt: Option<string>, resolvedAt: Option<string>)
    | CancellationDetail(cancelledAt: Option<string>)
    | RetryDetail(attemptNumber: int, nextRetryAt: Option<string>)
    | InvoiceDetail(invoiceAmount: int, hasAmount: bool, date: Option<string>)

  datatype Payment = Payment(
    amount: int, hasAmount: bool, items: seq<Item>, period: int, numberOfPeriods: int, interval: int, isRetry: bool,
    paymentInfo: PaymentInfo, paidAt: Option<string>, nextChargeAt: Option<string>, startedAt: Option<string>,
    createdAt: Option<string>, detail: Detail)

  const NO_PAYMENT := Payment(0, false, [], 0, 0, 0, false, EMPTY, None, None, None, None, NoDetail)

  datatype Event = Event(
    merchantID: string, purpose: string, success: bool, hasOutcome: bool, id: string, status: string,
    token: string, payment: Payment)

  datatype Result = Accepted(event: Event) | Rejected

  // ----- What a known purpose must be readable in

  predicate IsInvoice(purpose: string) {
    purpose == "invoice_issued" || purpose == "invoice_voided"
  }

  function DetailAmounts(purpose: string): set<string> {
    if purpose == "refund" then {"origAmount"} else if IsInvoice(purpose) then {"invoiceAmount"} else {}
  }

  function DetailCounts(purpose: string): set<string> {
    if purpose == "subscription_retry" then {"retryAttemptNumber"} else {}
  }

  function DetailTimes(purpose: string): set<string> {
    if purpose == "refund" then {"requestedAt", "resolvedAt"}
    else if purpose == "subscription_cancelled" then {"cancelledAt"}
    else if purpose == "subscription_retry" then {"nextRetryAt"}
    else if IsInvoice(purpose) then {"invoiceDate"}
    else {}
  }

  predicate AmountsRead(platform: Platform, names: set<string>, clean: Fields) {
    forall name :: name in names ==> platform.Amount(Pick(clean, name)).Some?
  }

  predicate CountsRead(platform: Platform, names: set<string>, clean: Fields) {
    forall name :: name in names ==> platform.Count(Pick(clean, name)).Some?
  }

  predicate TimesRead(platform: Platform, names: set<string>, clean: Fields) {
    forall name :: name in names ==> !platform.Time(Pick(clean, name)).Unreadable?
  }

  predicate DetailReads(platform: Platform, purpose: string, clean: Fields) {
    && AmountsRead(platform, DetailAmounts(purpose), clean)
    && CountsRead(platform, DetailCounts(purpose), clean)
    && TimesRead(platform, DetailTimes(purpose), clean)
  }

  /** The second field is looked at only if the first is absent. */
  function PaidAt(platform: Platform, clean: Fields): Reading {
    var paid := platform.Time(Pick(clean, "paidAt"));
    if paid.NoTime? then platform.Time(Pick(clean, "occurredAt")) else paid
  }

  lemma PaidAtExactly(platform: Platform, clean: Fields)
    ensures !PaidAt(platform, clean).Unreadable? <==>
            && TimesRead(platform, {"paidAt"}, clean)
            && (platform.Time(Pick(clean, "paidAt")).NoTime? ==> TimesRead(platform, {"occurredAt"}, clean))
    ensures platform.Time(Pick(clean, "paidAt")).At? ==>
              PaidAt(platform, clean).Seen() == platform.Time(Pick(clean, "paidAt")).Seen()
    ensures platform.Time(Pick(clean, "paidAt")).NoTime? ==>
              PaidAt(platform, clean).Seen() == platform.Time(Pick(clean, "occurredAt")).Seen()
  {
    hide Pick, Platform.Time;
  }

  predicate PaymentReads(platform: Platform, clean: Fields) {
    && AmountsRead(platform, {"amount"}, clean)
    && CountsRead(platform, {"period", "numberOfPeriods", "interval"}, clean)
    && TimesRead(platform, {"nextChargeAt", "startedAt", "createdAt"}, clean)
    && TimesRead(platform, {"paidAt"}, clean)
    && (platform.Time(Pick(clean, "paidAt")).NoTime? ==> TimesRead(platform, {"occurredAt"}, clean))
    && (Pick(clean, "isRetry").Null? || Pick(clean, "isRetry").Bool?)
    && ItemsRead(platform, Pick(clean, "productDetails"))
    && Readable(platform, Pick(clean, "paymentInfo"))
  }

  function ReadDetail(platform: Platform, purpose: string, clean: Fields): (detail: Option<Detail>)
    ensures detail.Some? <==> DetailReads(platform, purpose, clean)
    ensures detail.Some? && detail.value.RefundDetail? ==>
              && platform.Amount(Pick(clean, "origAmount")) == Some(detail.value.originalAmount)
              && platform.Time(Pick(clean, "requestedAt")).Seen() == detail.value.requestedAt
              && platform.Time(Pick(clean, "resolvedAt")).Seen() == detail.value.resolvedAt
    ensures detail.Some? && detail.value.CancellationDetail? ==>
              platform.Time(Pick(clean, "cancelledAt")).Seen() == detail.value.cancelledAt
    ensures detail.Some? && detail.value.RetryDetail? ==>
              && platform.Count(Pick(clean, "retryAttemptNumber")) == Some(detail.value.attemptNumber)
              && platform.Time(Pick(clean, "nextRetryAt")).Seen() == detail.value.nextRetryAt
    ensures detail.Some? && detail.value.InvoiceDetail? ==>
              && platform.Amount(Pick(clean, "invoiceAmount")) == Some(detail.value.invoiceAmount)
              && (detail.value.hasAmount <==> !Pick(clean, "invoiceAmount").Null?)
              && platform.Time(Pick(clean, "invoiceDate")).Seen() == detail.value.date
    ensures detail.Some? ==>
              && (detail.value.RefundDetail? <==> purpose == "refund")
              && (detail.value.CancellationDetail? <==> purpose == "subscription_cancelled")
              && (detail.value.RetryDetail? <==> purpose == "subscription_retry")
              && (detail.value.InvoiceDetail? <==> purpose in {"invoice_issued", "invoice_voided"})
  {
    if purpose == "refund" then
      var original := platform.Amount(Pick(clean, "origAmount"));
      var requested := platform.Time(Pick(clean, "requestedAt"));
      var resolved := platform.Time(Pick(clean, "resolvedAt"));
      if original.None? || requested.Unreadable? || resolved.Unreadable? then None
      else Some(RefundDetail(original.value, requested.Seen(), resolved.Seen()))
    else if purpose == "subscription_cancelled" then
      var cancelled := platform.Time(Pick(clean, "cancelledAt"));
      if cancelled.Unreadable? then None else Some(CancellationDetail(cancelled.Seen()))
    else if purpose == "subscription_retry" then
      var attempt, next := platform.Count(Pick(clean, "retryAttemptNumber")), platform.Time(Pick(clean, "nextRetryAt"));
      if attempt.None? || next.Unreadable? then None else Some(RetryDetail(attempt.value, next.Seen()))
    else if IsInvoice(purpose) then
      var raw, date := Pick(clean, "invoiceAmount"), platform.Time(Pick(clean, "invoiceDate"));
      var amount := platform.Amount(raw);
      if amount.None? || date.Unreadable? then None else Some(InvoiceDetail(amount.value, !raw.Null?, date.Seen()))
    else Some(NoDetail)
  }

  /** The items are those of the array, in order. */
  ghost predicate ItemsAre(platform: Platform, raw: Json, items: seq<Item>) {
    && |items| == (if raw.Arr? then |raw.items| else 0)
    && forall i :: 0 <= i < |items| ==> IsItem(platform, raw.items[i], items[i])
  }

  /** The payment says what the sanitised copy says. */
  ghost predicate Reports(platform: Platform, clean: Fields, payment: Payment) {
    && platform.Amount(Pick(clean, "amount")) == Some(payment.amount)
    && (payment.hasAmount <==> !Pick(clean, "amount").Null?)
    && platform.Count(Pick(clean, "period")) == Some(payment.period)
    && platform.Count(Pick(clean, "numberOfPeriods")) == Some(payment.numberOfPeriods)
    && platform.Count(Pick(clean, "interval")) == Some(payment.interval)
    && (payment.isRetry <==> Pick(clean, "isRetry") == Bool(true))
    && DecodePaymentInfo(platform, Pick(clean, "paymentInfo")) == Some(payment.paymentInfo)
    && ItemsAre(platform, Pick(clean, "productDetails"), payment.items)
    && (platform.Time(Pick(clean, "paidAt")).At? ==> payment.paidAt == platform.Time(Pick(clean, "paidAt")).Seen())
    && (platform.Time(Pick(clean, "paidAt")).NoTime? ==> payment.paidAt == platform.Time(Pick(clean, "occurredAt")).Seen())
    && payment.nextChargeAt == platform.Time(Pick(clean, "nextChargeAt")).Seen()
    && payment.startedAt == platform.Time(Pick(clean, "startedAt")).Seen()
    && payment.createdAt == platform.Time(Pick(clean, "createdAt")).Seen()
  }

  // ----- The parser's purposes and the sanitiser's

  lemma FoldedLetter(c: char, letter: char)
    requires 'a' <= letter <= 'z' && letter != 's' && Fold(c) == letter
    ensures Lower(c) == letter && !IsSpace(c)
  {
  }

  predicate LowerCase(key: string) {
    forall i :: 0 <= i < |key| ==> 'a' <= key[i] <= 'z'
  }

  lemma {:induction false} NothingToRemove(s: string)
    requires LowerCase(s)
    ensures Without(s, {'_', '-', ' '}) == s
  {
    if s != "" {
      NothingToRemove(s[1..]);
    }
  }

  lemma NormalizedAs(key: string, lower: string)
    requires |key| == |lower| && LowerCase(lower)
    requires forall i :: 0 <= i < |key| ==> Lower(key[i]) == lower[i] && !IsSpace(key[i])
    ensures NormalizeKey(key) == lower
  {
    TrimSpaceTrims(key);
    assert ToLower(key) == lower;
    NothingToRemove(lower);
  }

  lemma LowerCaseKey(key: string)
    requires LowerCase(key)
    ensures NormalizeKey(key) == key
  {
    NormalizedAs(key, key);
  }

  /** Every spelling a struct field matches is one the sanitiser recognises. */
  lemma SpellingIsRecognised(key: string)
    requires Spells(key, "paymentInfo")
    ensures IsPaymentInfoKey(key)
  {
    var name, lower := "paymentInfo", "paymentinfo";
    forall i: nat | i < |lower| ensures lower[i] == Fold(name[i]) != 's' && 'a' <= lower[i] <= 'z' {}
    SpelledAs(key, name, lower);
  }

  lemma SpelledAs(key: string, name: string, lower: string)
    requires Spells(key, name) && |lower| == |name| && LowerCase(lower)
    requires forall i :: 0 <= i < |lower| ==> lower[i] == Fold(name[i]) != 's'
    ensures NormalizeKey(key) == lower
  {
    forall i: nat | i < |key| ensures Lower(key[i]) == lower[i] && !IsSpace(key[i]) {
      EqualFoldAt(key, name, i);
      FoldedLetter(key[i], lower[i]);
    }
    NormalizedAs(key, lower);
  }

  lemma PurposeKey()
    ensures NormalizeKey("purpose") == "purpose"
  {
    LowerCaseKey("purpose");
  }

  /** Whatever purpose the parser takes for card data only, the sanitiser does too. */
  lemma CardPurposeIsCardContext(fields: Fields)
    requires RequiredString(Field(fields, "purpose")).Some?
    requires RequiredString(Field(fields, "purpose")).value in CARD_PURPOSES
    ensures ContextOf(fields) == Card
  {
    PurposeKey();
    var text := TrimSpace(fields["purpose"].text);
    assert EqualFold(text, text);
    assert FoldsToOneOf(text, CARD_PURPOSES);
    assert NamesCard("purpose", fields["purpose"]);
  }

  /** Under a card purpose every spelling of a scalar paymentInfo is reduced to four characters. */
  lemma CardPaymentInfoIsReduced(show: Json -> string, fields: Fields, key: string)
    requires ContextOf(fields) == Card && key in fields && IsPaymentInfoKey(key)
    ensures var clean := SanitizeField(show, Card, key, fields[key], Off); clean.Str? ==> |clean.text| <= 4
  {
    KeyKindsAreDisjoint(key);
    if fields[key].Scalar() {
      LastFourIsBare(fields[key].text);
    }
  }

  lemma SanitizedRoot(show: Json -> string, fields: Fields)
    ensures Sanitize(show, "", Obj(fields), Off) == Obj(SanitizeFields(show, Obj(fields), Off))
  {
  }

  /** So what is read from the sanitised copy under a card purpose is reduced. */
  lemma CleanPaymentInfo(show: Json -> string, fields: Fields)
    requires ContextOf(fields) == Card
    ensures var raw := Pick(SanitizeFields(show, Obj(fields), Off), "paymentInfo"); raw.Str? ==> |raw.text| <= 4
  {
    var clean := SanitizeFields(show, Obj(fields), Off);
    if Spellings(clean, "paymentInfo") != {} {
      var key :| key in clean && Spells(key, "paymentInfo") && Pick(clean, "paymentInfo") == clean[key];
      SpellingIsRecognised(key);
      CardPaymentInfoIsReduced(show, fields, key);
    }
  }

  lemma CardPaymentIsShort(show: Json -> string, platform: Platform, fields: Fields, payment: Payment)
    requires ContextOf(fields) == Card && Reports(platform, SanitizeFields(show, Obj(fields), Off), payment)
    ensures |payment.paymentInfo.text| <= 4 && |payment.paymentInfo.cardLast4| <= 4
  {
    CleanPaymentInfo(show, fields);
  }

  // ----- Amounts are not masked

  const AMOUNTS: set<string> := {"amount", "origAmount", "invoiceAmount"}

  lemma AmountSpellings(key: string, name: string)
    requires name in AMOUNTS && Spells(key, name)
    ensures NormalizeKey(key) in {"amount", "origamount", "invoiceamount"}
  {
    var lower := if name == "amount" then "amount" else if name == "origAmount" then "origamount" else "invoiceamount";
    forall i: nat | i < |lower| ensures lower[i] == Fold(name[i]) != 's' && 'a' <= lower[i] <= 'z' {}
    SpelledAs(key, name, lower);
  }

  lemma OrdinaryFieldIsKept(show: Json -> string, context: Context, key: string, value: Json)
    requires !IsSecretKey(key) && !IsCardNumberKey(key) && !IsPaymentInfoKey(key)
    ensures var clean := SanitizeField(show, context, key, value, Off);
            clean == value || (value.Obj? && clean.Obj?) || (value.Arr? && clean.Arr?)
  {
  }

  lemma ContainersAreNoAmounts(platform: Platform, raw: Json)
    requires raw.Obj? || raw.Arr?
    ensures platform.Amount(raw).None?
  {
  }

  /** Every amount reads the same in the sanitised copy as in the body. */
  lemma AmountsSurvive(show: Json -> string, platform: Platform, fields: Fields, name: string)
    requires name in AMOUNTS
    ensures platform.Amount(Pick(SanitizeFields(show, Obj(fields), Off), name)) == platform.Amount(Pick(fields, name))
  {
    hide NormalizeKey, TrimSpace, ContextOf, Sanitize, Amounts.ParseAmount;
    var clean := SanitizeFields(show, Obj(fields), Off);
    assert Spellings(clean, name) == Spellings(fields, name);
    if Spellings(fields, name) != {} {
      var key := Last(Spellings(fields, name));
      AmountSpellings(key, name);
      OrdinaryFieldIsKept(show, ContextOf(fields), key, fields[key]);
      assert Pick(clean, name) == clean[key] && Pick(fields, name) == fields[key];
      if clean[key] != fields[key] {
        ContainersAreNoAmounts(platform, clean[key]);
        ContainersAreNoAmounts(platform, fields[key]);
      }
    }
  }

  // ----- ParseWebhook

  /** The checks that come first, in the order of the source. */
  method Precheck(merchant: string, fields: Fields) returns (event: Option<Event>)
    ensures event.Some? <==> Acceptable(merchant, fields)
    ensures event.Some? ==>
              && RequiredString(Field(fields, "purpose")) == Some(event.value.purpose)
              && (event.value.success <==> Field(fields, "success") == Bool(true))
              && (event.value.hasOutcome <==> Field(fields, "success").Bool?)
              && event.value.token == (if event.value.purpose == "token" && event.value.success
                                       then TrimSpace(Field(fields, "token").text) else "")
              && event.value.id == RawString(Field(fields, "id"))
              && event.value.status == RawString(Field(fields, "status"))
              && event.value.merchantID == (if Field(fields, "merchantId").Null? then "" else merchant)
              && event.value.payment == NO_PAYMENT
  {
    var purpose := RequiredString(Field(fields, "purpose"));
    if purpose.None? {
      return None;
    }
    var merchantID := "";
    if !Field(fields, "merchantId").Null? {
      var named := RequiredString(Field(fields, "merchantId"));
      if named.None? || named.value != merchant {
        return None;
      }
      merchantID := named.value;
    }
    var complete := HasAllRequired(fields, purpose.value);
    if !complete {
      return None;
    }
    if Known(purpose.value) && !Field(fields, "status").Null? && RequiredString(Field(fields, "status")).None? {
      return None;
    }
    var outcome := Field(fields, "success");
    var hasOutcome := outcome.Bool?;
    var success := hasOutcome && outcome.flag;
    if !hasOutcome && !outcome.Null? && Known(purpose.value) {
      return None;
    }
    var token := "";
    if purpose.value == "token" && success {
      var sent := RequiredString(Field(fields, "token"));
      if sent.None? {
        return None;
      }
      token := sent.value;
    }
    if !Identifiable(fields) {
      return None;
    }
    return Some(Event(merchantID, purpose.value, success, hasOutcome, RawString(Field(fields, "id")),
                      RawString(Field(fields, "status")), token, NO_PAYMENT));
  }

  method HasAllRequired(fields: Fields, purpose: string) returns (complete: bool)
    ensures complete <==> (Known(purpose) ==>
              forall i :: 0 <= i < |RequiredFields(purpose).value| ==> HasRequired(fields, RequiredFields(purpose).value[i]))
  {
    if !Known(purpose) {
      return true;
    }
    var names := RequiredFields(purpose).value;
    for i := 0 to |names|
      invariant forall j :: 0 <= j < i ==> HasRequired(fields, names[j])
    {
      if !HasRequired(fields, names[i]) {
        return false;
      }
    }
    return true;
  }

  /** A payment whose numbers have been read. */
  method ReadNumbers(platform: Platform, clean: Fields) returns (payment: Option<Payment>)
    ensures payment.Some? <==>
              && AmountsRead(platform, {"amount"}, clean)
              && CountsRead(platform, {"period", "numberOfPeriods", "interval"}, clean)
    ensures payment.Some? ==>
              && platform.Amount(Pick(clean, "amount")) == Some(payment.value.amount)
              && (payment.value.hasAmount <==> !Pick(clean, "amount").Null?)
              && platform.Count(Pick(clean, "period")) == Some(payment.value.period)
              && platform.Count(Pick(clean, "numberOfPeriods")) == Some(payment.value.numberOfPeriods)
              && platform.Count(Pick(clean, "interval")) == Some(payment.value.interval)
  {
    hide Pick, Amounts.ParseOptionalAmount, Amounts.ParseOptionalInt;
    var amount := platform.Amount(Pick(clean, "amount"));
    var period := platform.Count(Pick(clean, "period"));
    var numberOfPeriods := platform.Count(Pick(clean, "numberOfPeriods"));
    var interval := platform.Count(Pick(clean, "interval"));
    if amount.None? || period.None? || numberOfPeriods.None? || interval.None? {
      return None;
    }
    return Some(NO_PAYMENT.(
      amount := amount.value, hasAmount := !Pick(clean, "amount").Null?, period := period.value,
      numberOfPeriods := numberOfPeriods.value, interval := interval.value));
  }

  method ReadTimes(platform: Platform, clean: Fields, numbers: Payment) returns (payment: Option<Payment>)
    ensures payment.Some? <==>
              TimesRead(platform, {"nextChargeAt", "startedAt", "createdAt"}, clean) && !PaidAt(platform, clean).Unreadable?
    ensures payment.Some? ==>
              && payment.value == numbers.(
                   paidAt := payment.value.paidAt, nextChargeAt := payment.value.nextChargeAt,
                   startedAt := payment.value.startedAt, createdAt := payment.value.createdAt)
              && payment.value.paidAt == PaidAt(platform, clean).Seen()
              && payment.value.nextChargeAt == platform.Time(Pick(clean, "nextChargeAt")).Seen()
              && payment.value.startedAt == platform.Time(Pick(clean, "startedAt")).Seen()
              && payment.value.createdAt == platform.Time(Pick(clean, "createdAt")).Seen()
  {
    hide Pick, PaidAt;
    var paidAt := PaidAt(platform, clean);
    var next := platform.Time(Pick(clean, "nextChargeAt"));
    var started := platform.Time(Pick(clean, "startedAt"));
    var created := platform.Time(Pick(clean, "createdAt"));
    if paidAt.Unreadable? || next.Unreadable? || started.Unreadable? || created.Unreadable? {
      return None;
    }
    return Some(numbers.(
      paidAt := paidAt.Seen(), nextChargeAt := next.Seen(), startedAt := started.Seen(), createdAt := created.Seen()));
  }

  /** The fields that every known purpose has. */
  method ReadPayment(platform: Platform, clean: Fields) returns (payment: Option<Payment>)
    ensures payment.Some? <==> PaymentReads(platform, clean)
    ensures payment.Some? ==> Reports(platform, clean, payment.value)
  {
    hide Pick, AmountsRead, CountsRead, TimesRead, PaidAt, ItemsRead, Readable, IsItem, DecodePaymentInfo;
    hide Amounts.ParseOptionalAmount, Amounts.ParseOptionalInt;
    var retry := Pick(clean, "isRetry");
    if !retry.Null? && !retry.Bool? {
      return None;
    }
    payment := ReadNumbers(platform, clean);
    var items := ReadItems(platform, Pick(clean, "productDetails"));
    if payment.None? || items.None? {
      return None;
    }
    var info := DecodePaymentInfo(platform, Pick(clean, "paymentInfo"));
    if info.None? {
      return None;
    }
    PaidAtExactly(platform, clean);
    payment := ReadTimes(platform, clean, payment.value.(
      items := items.value, isRetry := retry == Bool(true), paymentInfo := info.value));
  }

  method ParseWebhook(show: Json -> string, platform: Platform, merchant: string, fields: Fields)
    returns (result: Result)
    ensures result.Accepted? <==>
              && Acceptable(merchant, fields)
              && var purpose := RequiredString(Field(fields, "purpose")).value;
                 var clean := SanitizeFields(show, Obj(fields), Off);
                 Known(purpose) ==> PaymentReads(platform, clean) && DetailReads(platform, purpose, clean)
    ensures result.Accepted? ==>
              && RequiredString(Field(fields, "purpose")) == Some(result.event.purpose)
              && result.event.id == RawString(Field(fields, "id"))
              && result.event.status == RawString(Field(fields, "status"))
              && result.event.merchantID == (if Field(fields, "merchantId").Null? then "" else merchant)
              && (result.event.hasOutcome <==> Field(fields, "success").Bool?)
              && (result.event.token != "" ==> RequiredString(Field(fields, "token")) == Some(result.event.token))
              && (result.event.success <==> Field(fields, "success") == Bool(true))
              && (result.event.success ==> result.event.hasOutcome)
              && (result.event.token != "" <==> result.event.purpose == "token" && result.event.success)
              && (result.event.purpose in CARD_PURPOSES ==>
                    && result.event.hasOutcome
                    && (|result.event.payment.paymentInfo.text| <= 4)
                    && |result.event.payment.paymentInfo.cardLast4| <= 4)
    ensures result.Accepted? && Known(result.event.purpose) ==>
              && Reports(platform, SanitizeFields(show, Obj(fields), Off), result.event.payment)
              && ReadDetail(platform, result.event.purpose, SanitizeFields(show, Obj(fields), Off))
                 == Some(result.event.payment.detail)
              && platform.Amount(Pick(fields, "amount")) == Some(result.event.payment.amount)
  {
    hide Pick, PaymentReads, DetailReads, ReadDetail, Reports, Acceptable, RequiredFields, Field, IsGiven;
    hide Sanitize, SanitizeFields, NormalizeKey, TrimSpace, Amounts.ParseOptionalAmount, Amounts.ParseOptionalInt;
    var event := Precheck(merchant, fields);
    if event.None? {
      return Rejected;
    }
    WhatAcceptedBodiesHave(merchant, fields, event.value.purpose);
    var redacted := SanitizeNode(show, "", Obj(fields), Off);
    SanitizedRoot(show, fields);
    if !Known(event.value.purpose) {
      return Accepted(event.value);
    }
    var payment := ReadPayment(platform, redacted.fields);
    if payment.None? {
      return Rejected;
    }
    var detail := ReadDetail(platform, event.value.purpose, redacted.fields);
    if detail.None? {
      return Rejected;
    }
    AmountsSurvive(show, platform, fields, "amount");
    if event.value.purpose in CARD_PURPOSES {
      CardPurposeIsCardContext(fields);
      CardPaymentIsShort(show, platform, fields, payment.value);
    }
    ReportsWithDetail(platform, redacted.fields, payment.value, detail.value);
    return Accepted(event.value.(payment := payment.value.(detail := detail.value)));
  }

  lemma ReportsWithDetail(platform: Platform, clean: Fields, payment: Payment, detail: Detail)
    requires Reports(platform, clean, payment)
    ensures Reports(platform, clean, payment.(detail := detail))
    ensures platform.Amount(Pick(clean, "amount")) == Some(payment.amount)
  {
  }

  /** The card-only purposes always carry an outcome, and a successful token event a token. */
  lemma WhatAcceptedBodiesHave(merchant: string, fields: Fields, purpose: string)
    requires Acceptable(merchant, fields) && RequiredString(Field(fields, "purpose")) == Some(purpose)
    ensures purpose in CARD_PURPOSES ==> Field(fields, "success").Bool?
    ensures purpose == "token" && Field(fields, "success") == Bool(true) ==>
              RequiredString(Field(fields, "token")) == Some(TrimSpace(Field(fields, "token").text))
  {
    AcceptableExactly(merchant, fields);
  }
}

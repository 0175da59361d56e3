# A verified model of the Oen payment SDK

This project models the parts of the Go SDK for Oen Tech payments that hold real
algorithms, and proves properties of them for all inputs and all runs.

| file | models |
|---|---|
| `Utf8.dfy`, `JsString.dfy`, `JsCanonical.dfy`, `Decimal.dfy`, `JsNumber.dfy`, `EventId.dfy` | the JavaScript-compatible text behind a webhook's event ID: reading a JSON string literal to UTF-16 code units, QuoteJSONString (section 25.5.2.3 of ECMA-262), Number::toString (section 6.1.6.1.20 of ECMA-262), and the framing of the five identity fields |
| `Signature.dfy` | the `OenPay-Signature` header: splitting, the scan of its parts, freshness, the signed message |
| `Luhn.dfy`, `Sanitizer.dfy`, `SanitizerProperties.dfy`, `SanitizerTwice.dfy`, `KeyNames.dfy` | the payload sanitiser over JSON trees |
| `StructFields.dfy`, `PaymentInfos.dfy`, `Callback.dfy` | which webhook bodies are accepted, what is read from the sanitised copy, when a token is handed out, what is left of card data |
| `Amounts.dfy` | exact conversion of JSON decimals to int64, and the overflow-guarded sum of line items |
| `Outcomes.dfy` | classification of HTTP answers and the outcome of a token charge |
| `Ledger.dfy`, `Routes.dfy`, `Replies.dfy`, `Provider.dfy` | the programmable fake provider: an append-only book, and the class that refines it with indexes updated in place |
| `Interleaving.dfy` | concurrent requests against the fake as interleaved locked sections and writes |
| `Text.dfy` | trimming, case folding and separator removal |

Where the program works by steps (loops, fields updated under a mutex) the model is a
method or a class, proved against a function; the lemmas are about that function.
Go maps are visited by picking any remaining key, so a method that is proved equal to a
function gives that answer for every iteration order.

How Go's data is represented:

- A Go byte slice in the canonicaliser is a `string` with one byte per character. Elsewhere
  a `string` is valid UTF-8 text with one `char` per rune, as `encoding/json` delivers it.
  `looksLikeCardNumber` counts bytes, but a text with any non-ASCII character is refused
  under either count.
- Case folding is written out for the characters that can fold to ASCII (including U+0130,
  U+0131, U+017F and U+212A); all other characters can never meet the ASCII names they are
  compared with.
- `fmt.Sprint` of an array or object, the keyed hash, the clock, the reading of a time and the
  exponent limit of `big.Rat` are parameters, and every result holds for all of them.
- The int64 arithmetic of `validateItems` uses a bounded type, so a wrap-around would not verify.

Some results are about where the code does not do what one might expect.

- Sanitising twice is not always sanitising once. `SanitizerTwice.TwiceIsOnce` gives the exact
  condition for every payload; `OtherWhiteSpaceMatters` and `NumericMethodMatters` show the two
  ways it fails.
- A card payment does not hide every number printed in groups: a nested paymentInfo whose own
  object names no method weakens the mask. `SanitizerProperties.GroupsAreHiddenExactly` gives
  the exact condition, `NestedPaymentInfoShowsGroups` a payload.
- A request that is past its check is still answered after its endpoint hangs.
  `Interleaving.AnsweredWhileHungExactly` says which requests can be.
- A response queued by hand can hide a charge, even one with an informational status, which
  ends in a 200. `Interleaving.ScriptedRefusalHidesACharge` says when a call does,
  `HidingResponses` which responses can.
- A value accepted as an amount is accepted as an optional integer only if it also fits the
  platform's `int` (`Amounts.OptionalIntFollowsAmount`).

## Model

| member | source | states |
|---|---|---|
| Utf8.DecodeEncode | webhook.go:755-757 | decoding an encoded rune gives the rune and its length, whatever bytes follow |
| Utf8.DecodeIsExact | webhook.go:755-757 | a sequence the decoder recognises is one UTF8-char of section 4 of RFC 3629, and encoding its rune gives the same bytes |
| Utf8.ReplacedExactly | webhook.go:748-750 | a byte becomes U+FFFD, alone, when no UTF8-char starts at it |
| Utf8.EncodedExactly | webhook.go:795-817 | a rune is encoded as the bytes that spell it in the table of section 3 of RFC 3629 |
| JsString.UnitsOfCodePoints | webhook.go:784-795 | splitting code units into code points, joining pairs and keeping lone surrogates, loses nothing |
| JsString.ReadRune | webhook.go:753-759 | one turn of the first loop on a rune: reading past the closing quote is harmless and consumes what the body alone would |
| JsString.ReadEscape | webhook.go:760-779 | one turn of the first loop on an escape, with every index in range |
| JsString.DecodeLoop | webhook.go:752-780 | the first loop ends and gives the code units of the literal, for every valid JSON string token, ill-formed UTF-8 included |
| JsString.QuoteTurn | webhook.go:784-817 | one turn of the second loop writes the next code point as QuoteJSONString does |
| JsString.QuoteLoop | webhook.go:782-818 | the second loop appends QuoteJSONString of the code units, as defined over code points |
| JsString.AppendStringToken | webhook.go:745-819 | the whole function appends the canonical form of the literal, which `JsCanonical.CanonicalFormExactly` determines |
| JsString.QuoteRoundTrip | webhook.go:745-819 | the output is a valid JSON string literal that decodes to exactly the units encoded, lone and paired surrogates included |
| JsString.CanonicalTwice | webhook.go:745-819 | canonicalising twice is canonicalising once |
| JsString.CanonicalIsComplete | webhook.go:745-819 | two literals share a canonical form if and only if they decode to the same units |
| JsCanonical.EscapeReads | webhook.go:760-779 | each escape letter is valid and stands for its code unit, and no other letter does |
| JsCanonical.HexReads | webhook.go:763-766 | a \u escape takes four hexadecimal digits, most significant first |
| JsCanonical.RuneReads | webhook.go:753-759 | a character that is not escaped stands for its one or two code units |
| JsCanonical.StrayByteReads | webhook.go:748-757 | a byte at which no UTF8-char starts stands for U+FFFD |
| JsCanonical.CanonicalExactly | webhook.go:782-818 | a literal is its own canonical form if and only if it is well-formed UTF-8 and escapes only quotes, backslashes, controls and lone surrogates, each in its one way |
| JsCanonical.CanonicalFormExactly | webhook.go:745-819 | the canonical form is the one literal of that kind that decodes to the same units |
| JsCanonical.PlainLiteralIsKept | webhook.go:814-815 | a well-formed literal without escapes is left as it is |
| JsString.QuoteIsUtf8 | webhook.go:782-818 | the output is well-formed UTF-8 for every input |
| JsString.BodyEndsAtQuote | webhook.go:783-818 | a valid literal ends at its first unescaped quote, whatever follows |
| JsString.QuoteIsPrefixFree | webhook.go:783-818 | two quoted strings followed by anything agree as a whole only if the strings and the rests agree |
| JsonNumber.ParsePrint | wire.go:86-91 | reading the text of any decimal of the JSON number grammar (section 6 of RFC 8259) gives the decimal back |
| JsonNumber.PrintParse | wire.go:86-91 | whatever is read is a decimal of the grammar and prints as the text read |
| JsNumber.AppendNumber | webhook.go:824-859 | the source's four layouts, with nonnegative repeat counts and slices in range, write the decimal the standard prescribes |
| JsNumber.AppendLayout | webhook.go:839-848 | the three layouts without an exponent and the scientific one, chosen as in the source |
| JsNumber.AppendScientific | webhook.go:850-858 | first digit, point and further digits only if there are any, signed exponent |
| JsNumber.NumberTextCases | webhook.go:831-858 | the texts of the four layouts, with their bounds of 21 and -6 |
| JsNumber.SpecialTexts | webhook.go:825-829 | zeros print as 0, infinities and NaN as null |
| JsNumber.NumberTextIsExact | webhook.go:821-859 | the text is a JSON number denoting exactly digits × 10^(n-k) |
| JsNumber.CanonicalFormIsUnique | webhook.go:821-838 | a number has one sign, digit string and exponent |
| JsNumber.NumberTextIsInjective | webhook.go:821-859 | two finite numbers print alike if and only if sign, digits and exponent agree |
| EventId.WriteFields | webhook.go:719-740 | the loop over the fields writes the elements of the array so far and stops at the first object or array |
| EventId.FieldsText | webhook.go:718-743 | the text is the JSON array of the JavaScript values if no field is an object or array, and otherwise the first such field is refused |
| EventId.IdentityText | webhook.go:718-743 | for purpose, merchantId, id, status and success: the text is the array of the five, or the first that is an object or array is refused |
| EventId.TextsExactly | webhook.go:721-739 | the text of each kind of field |
| EventId.SameFieldExactly | webhook.go:721-739 | which fields have the same JavaScript value |
| EventId.ValueEndsTogether | webhook.go:721-739 | a value followed by a comma or bracket is determined by the text: strings with commas, quotes or brackets never blur a boundary |
| EventId.ElementsAreInjective | webhook.go:719-742 | two arrays with the same text are equal |
| EventId.EventTextIsUnambiguous | webhook.go:712-743 | two bodies give the same text to hash if and only if purpose, merchantId, id, status and success have equal JavaScript values |
| Signature.SplitJoined | webhook.go:390 | splitting a header joined by a comma gives the parts of both halves |
| Signature.Scan | webhook.go:388-408 | the loop reports a t part after one with a value, and otherwise gives the last t value and all well-formed v1 values |
| Signature.VerifyWebhookSignature | webhook.go:378-432 | the method reaches the verdict defined over the parts of the header |
| Signature.AcceptedExactly | webhook.go:378-432 | accepted if and only if a secret is set, no t value but the last is nonempty, that one is an unsigned int64 within tolerance, and some well-formed v1 value is the keyed hash of t.body |
| Signature.VerdictsExactly | webhook.go:378-432 | which check refuses a header: configuration, second timestamp, timestamp, signatures, age, hash, in that order |
| Signature.TimestampsParse | webhook.go:409-412 | the timestamp check accepts exactly unsigned decimal int64 texts |
| Signature.FreshnessIsExact | webhook.go:416-420 | with a tolerance below the largest duration, a stamp of s seconds is fresh if and only if now - s * 1000000000 is within it |
| Signature.PartExactly | webhook.go:391-407 | a part, trimmed, is a timestamp exactly as t=value, a candidate exactly as v1= with 64 hex digits, and is ignored otherwise |
| Signature.HexExactly | webhook.go:403-406 | a v1 value decodes if and only if it is an even number of hex digits |
| Signature.HexBytes | webhook.go:403-406 | the bytes a v1 value decodes to |
| Signature.JunkIsIgnored | webhook.go:390-408 | inserting unknown or malformed parts at the front, at the end or anywhere between changes nothing about the verdict |
| Signature.OrderIsIgnored | webhook.go:390-408 | with one t part, permuting the parts does not change the verdict |
| Signature.MessageIsUnambiguous | webhook.go:422-426 | two timestamp and body pairs give the same signed message if and only if they are equal |
| Signature.GenuineHeaderIsAccepted | webhook.go:368-432 | the header "t=" s ",v1=" hex written for a message is accepted for a body if and only if now - s * 1000000000 is within tolerance and the keyed hashes of s "." body agree |
| Luhn.IsCardNumber | sanitize.go:213-238 | the method decides the Luhn check on the trimmed, possibly ungrouped text of 13 to 19 digits |
| Luhn.PassesLoop | sanitize.go:221-237 | the right-to-left toggling loop computes the check sum of ISO/IEC 7812-1 Annex B, and fails on any character that is no digit |
| Luhn.SumExactly | sanitize.go:221-237 | the check sum digit by digit |
| Luhn.DigitsExactly | sanitize.go:213-238 | of the runs of digits exactly those of 13 to 19 whose sum is divisible by ten |
| Luhn.GroupsExactly | sanitize.go:207-216 | spaces and hyphens put anywhere do not matter when groups are allowed, and only runs of digits count when they are not |
| Luhn.SingleDigitErrorIsCaught | sanitize.go:207-238 | replacing one digit of a number that passes keeps it passing if and only if the digit is the same |
| Luhn.TranspositionIsCaught | sanitize.go:207-238 | swapping two neighbouring digits of a number that passes is caught unless they are equal or are 0 and 9 |
| Luhn.UngroupedIsGrouped | sanitize.go:207-216 | what is a card number ungrouped is one when groups are allowed |
| Sanitizer.PaymentContextOf | sanitize.go:158-186 | for every iteration order: card if any field names card data, else other if any method is named, else unknown |
| Sanitizer.SanitizeNode | sanitize.go:89-143 | the recursive walk gives the order-free result |
| Sanitizer.SanitizeObject | sanitize.go:101-123 | the loop over an object's fields gives the order-free result for every iteration order |
| KeyNames.SeparatorsDoNotMatter | sanitize.go:240-246 | putting an underscore, hyphen or space anywhere into a key changes nothing about its kind |
| KeyNames.LetterCaseDoesNotMatter | sanitize.go:240-246 | nor does the case of a letter |
| KeyNames.SecretKeysExactly | sanitize.go:248-258 | the secret keys are the spellings of the eleven names |
| KeyNames.CardNumberKeysExactly | sanitize.go:260-267 | the card-number keys are the spellings of the four names |
| KeyNames.ContextKeysExactly | sanitize.go:158-186 | and so for method, paymentInfo and purpose |
| KeyNames.SpelledSecretsAreHidden | sanitize.go:89-98 | under every spelling of a secret name the value becomes REDACTED, and of a card-number name a string of at most four characters |
| KeyNames.ContextExactly | sanitize.go:158-186 | which objects name card data and which another method |
| KeyNames.ScalarsExactly | sanitize.go:130-139 | a text or number changes if and only if the mask is on and it looks like a card number |
| KeyNames.OtherLengthsAreKept | sanitize.go:207-216 | a run of fewer than 13 or more than 19 digits is kept |
| KeyNames.CardNumberValues | sanitize.go:92-98 | what is kept under a card-number key, kind by kind |
| KeyNames.LastFourExactly | sanitize.go:269-278 | the last four characters |
| SanitizerProperties.LastFourTwice | sanitize.go:269-278 | reducing a text twice is reducing it once if and only if the four characters kept have no white space at an end |
| SanitizerProperties.CardNumberLastFour | sanitize.go:269-278 | a card number is reduced to four digits |
| SanitizerProperties.SanitizedHoldsNoSecrets | sanitize.go:89-98 | at every depth, values under secret keys are REDACTED and values under card-number keys are strings of at most four characters |
| SanitizerProperties.MaskedHoldsNoCardNumber | sanitize.go:71-143 | once the mask is on, no leaf below is an ungrouped card number: nothing nested switches it off |
| SanitizerProperties.PaymentInfoIsMasked | sanitize.go:106-121 | at every depth, the paymentInfo of an object that names no non-card method holds no ungrouped card number |
| SanitizerProperties.GroupsAreHiddenExactly | sanitize.go:71-143 | a sanitised payload shows no card number, in groups or not, if and only if each one stands under a mask that covers it: the grouped mask of a card payment with no paymentInfo of an object naming no method in between |
| SanitizerProperties.CardPaymentHidesGroups | sanitize.go:106-121 | the paymentInfo of a card payment shows no card number, even in groups, if and only if it is a scalar or hides them all; naming the method beside every nested paymentInfo is enough |
| SanitizerProperties.NestedPaymentInfoShowsGroups | sanitize.go:111-119 | a paymentInfo nested in a card payment's paymentInfo keeps a number printed in groups |
| SanitizerProperties.ReferencesSurvive | sanitize.go:188-205 | outside any paymentInfo, a scalar paymentInfo is kept if and only if the method is non-card, or unknown and the value no card number, or the text is already reduced |
| SanitizerProperties.SanitizingKeepsShape | sanitize.go:100-142 | arrays keep length and order and objects their keys wherever a value is not collapsed; other values are kept or reduced |
| SanitizerProperties.SanitizingLeavesTheRestAlone | sanitize.go:89-143 | a tree without secret, card-number and paymentInfo keys is returned unchanged |
| SanitizerTwice.ContextIsKept | sanitize.go:158-186 | an object's payment context survives sanitising if and only if it was not unknown or no numeric method is masked; otherwise it becomes that of a non-card method |
| SanitizerTwice.SecondPass | sanitize.go:89-143 | the exact condition for a second pass under the same or a wider mask to change nothing |
| SanitizerTwice.TwiceIsOnce | sanitize.go:89-143 | for every payload: sanitising twice is sanitising once if and only if reduced texts have no white space at their ends and no text is a card number in groups where only the second pass, with its own view of the contexts, masks groups |
| SanitizerTwice.SanitizingIsIdempotent | sanitize.go:89-143 | it is idempotent on payloads without white space other than plain spaces and without numeric methods |
| SanitizerTwice.OtherWhiteSpaceMatters | sanitize.go:269-278 | a value under a card-number key whose last four characters have white space at an end is changed by the second pass |
| SanitizerTwice.InnerWhiteSpaceComesFirst | sanitize.go:269-278 | such values are, for instance, any five characters whose second is a tab |
| SanitizerTwice.NumericMethodMatters | sanitize.go:106-139 | below a card payment a masked numeric method changes the context of its object, so the second pass over the whole payload masks a grouped number that the first kept |
| SanitizerTwice.CardNumbersExist | sanitize.go:213-238 | there are numbers of the kind that lemma asks for |
| Callback.SpellingIsRecognised | webhook.go:285-296 | every spelling of paymentInfo that a struct field matches is one the sanitiser recognises |
| Callback.CardPurposeIsCardContext | sanitize.go:166-174 | every purpose the parser takes for card data only, the sanitiser takes for card data |
| Callback.Precheck | webhook.go:444-514 | the first checks accept exactly the acceptable bodies; the event has the body's id and status, the merchant if the body names one, the outcome, and the token of a successful token event |
| Callback.AcceptableExactly | webhook.go:95-113 | which fields each purpose requires, read field by field |
| PaymentInfos.DecodePaymentInfo | types.go:505-545 | null, a string or an object with a readable expiry is accepted and anything else refused; a text is kept trimmed, and is a card's last four only if it is four digits; of an object every detail is read, and of the card number at most four characters |
| PaymentInfos.WithMethod | types.go:534-543 | the method an object names is kept; one that names none is a card, atm or cvs payment by the first kind of detail it carries, and none without any |
| PaymentInfos.ReadItems | webhook.go:687-710 | the items are read if and only if each is an object with an amount as price and a quantity that is an integer or absent; they are those of the array, in order |
| Callback.AmountsSurvive | webhook.go:517-519 | every amount reads the same in the sanitised copy as in the body |
| Callback.ReadPayment | webhook.go:532-617 | the common fields are read if and only if the amount, the counts, the times, the items and the paymentInfo can be, and say what the copy says |
| Callback.ReadDetail | webhook.go:623-677 | the detail of a purpose is read if and only if each of its amounts, counts and times can be, and each value stands in its own field |
| Callback.ParseWebhook | webhook.go:440-677 | a body is accepted if and only if it passes the first checks and, on a known purpose, every number, time, item and detail of the sanitised copy can be read; the event reports those values, and the amount as in the body itself; it has a token if and only if its purpose is token and it succeeded; success implies an outcome; card-only purposes have an outcome and at most four characters of card data |
| Amounts.RatIsExact | wire.go:95-99 | the rational is whole if and only if the decimal denotes an integer, and is that integer |
| Amounts.FastPathAgrees | wire.go:92-99 | where ParseInt succeeds the rational path gives the same integer |
| Amounts.AmountIsExact | wire.go:78-100 | a value is read as the amount z if and only if its text is a JSON decimal denoting z, z is an int64 and the exponent is one the rational reads |
| Amounts.AmountRoundTrip | types.go:18 | every int64 amount written by String is read back, as a JSON number and as a JSON string |
| Amounts.OptionalIntFollowsAmount | wire.go:60-76 | a readable amount is the same as an optional integer if and only if it fits the platform's int |
| Amounts.OptionalExactly | wire.go:60-107 | null is zero, a blank text is a zero integer but no amount, and what is beyond the platform's int is refused |
| Items.ValidateItems | validate.go:39-65 | in int64 arithmetic that never wraps: the verdict of the unbounded judgement, so an overflow is reported exactly when the true total leaves int64 |
| Items.AcceptedExactly | validate.go:36-65 | items are accepted if and only if there are some, every quantity is positive, no price is negative and the unbounded total is the amount |
| Items.VerdictsExactly | validate.go:39-65 | the verdict is that of the first line that offends, and without one it is about the total |
| Items.AcceptanceIgnoresOrder | validate.go:36-65 | acceptance does not depend on the order of the lines |
| Outcomes.RateLimitedWritesAreUnknown | errors.go:281-294 | a 429 matches ErrUnknownOutcome if and only if the method is neither GET nor HEAD or the decoding error does |
| Outcomes.KindOfSettlingCode | errors.go:351-375 | a code settles a request if and only if it is I0001, K0001 or of the T, V or A family; S0000 never does |
| Outcomes.KindsExactly | errors.go:347-375 | the kind of every code |
| Outcomes.DecodedKinds | errors.go:280-345 | the error of every status and envelope |
| Outcomes.ChargedExactly | charge.go:99-118 | a charge is reported if and only if a 2xx success envelope with an id arrived |
| Outcomes.RefusedExactly | errors.go:280-375 | ChargeToken, and likewise SubscribeToken, ends in an error that does not match ErrUnknownOutcome if and only if a readable envelope with a settling code arrived under a 2xx status or a 4xx status other than 429 |
| Ledger.NumberedIsInjective | oentest/server.go:414-421 | the identifiers base, base-2, base-3 and so on are distinct |
| Ledger.RunIdentifiersAreDistinct | oentest/server.go:405-477 | after every run no two charges and no two subscriptions share an identifier |
| Ledger.RunExtends | oentest/server.go:405-527 | in every run entries are only added at the end, keep their place and fixed fields, and are never un-refunded or un-cancelled |
| Ledger.AppliesExactly | oentest/server.go:405-527 | what each operation writes and what it leaves alone, field by field |
| Ledger.OfOrderFinds | oentest/server.go:543-557 | a charge is found under its own order and under no other |
| Ledger.FoundExactlyOnce | oentest/server.go:543-557 | and there exactly once |
| Ledger.ByIdRefund | oentest/server.go:488-498 | refunding rewrites one entry of the by-ID index, or none |
| Ledger.OfOrderRefund | oentest/server.go:543-557 | refunding changes neither which charges an order has nor their order |
| Replies.FirstReadyIsFirst | oentest/server.go:305-318 | the key chosen is the first of the lookup keys with a response waiting, and none is chosen if and only if none waits |
| Replies.WrittenExactly | oentest/server.go:580-604 | what arrives for every status and body |
| Routes.LookupKeysExactly | oentest/server.go:606-613 | the four keys, most specific first |
| Routes.RouteKeysExactly | oentest/server.go:639-652 | the route of the four families of paths, and of all others |
| Routes.PathsExactly | oentest/server.go:623-637 | paths lose their query and one slash at the end, and are rooted |
| Routes.RoutesExactly | oentest/server.go:351-391 | which endpoints have a default answer |
| Provider.Server.constructor | oentest/server.go:103-124 | a new server refines the empty book |
| Provider.Server.IndexSize | oentest/server.go:414-446 | the by-ID index holds exactly chargeCount entries |
| Provider.Server.RecordCharge | oentest/server.go:405-448 | both indexes and the counter follow the book with one charge appended: charged, not refunded, with the next identifiers and what the order says |
| Provider.Server.NewSubscription | oentest/server.go:450-477 | the subscription index follows the book with one subscription appended: ongoing, with the next identifier and what the order says |
| Provider.Server.RefundResponse | oentest/server.go:479-500 | a known charge becomes refunded with this amount and time and is returned so, all others are unchanged; an unknown one changes nothing |
| Provider.Server.TransactionResponse | oentest/server.go:502-510 | a charge is returned in its current state, and an unknown identifier is not found |
| Provider.Server.SubscriptionResponse | oentest/server.go:512-527 | a known subscription is returned, cancelled first if asked to, and all others are unchanged; an unknown one is not found |
| Provider.Server.OrderTransactions | oentest/server.go:543-557 | the answer is exactly that order's charges, in charge order, each in its current state |
| Provider.Server.AllTransactions | oentest/server.go:559-567 | for every iteration order the answer holds every charge exactly once |
| Provider.Server.QueueResponse | oentest/server.go:135-140 | responses are added behind those already queued for the normalised key |
| Provider.Server.NextResponse | oentest/server.go:305-318 | the oldest response is handed out and removed under the first of method and path, path, method and route, route that has one waiting; nothing else changes |
| Provider.Server.IsBlocked | oentest/server.go:320-329 | a request is blocked if and only if its method and path, path, method and route, or route is |
| Interleaving.StepKeepsQueues | oentest/server.go:305-318 | every locked section keeps: handed out, then still queued, is what was filed, in order |
| Interleaving.StepKeepsDeliveries | oentest/server.go:305-318 | every locked section keeps: each response handed out has one request, and no two requests share one |
| Interleaving.StepKeepsCalls | oentest/server.go:260-297 | every locked section keeps what each request holds: its own queued response, an existing subscription, a recorded charge of its own order |
| Interleaving.StepKeepsOwnCharges | oentest/server.go:361-371 | every locked section keeps: no two requests recorded the same charge |
| Interleaving.RunKeepsInv | oentest/server.go:260-318 | all of this holds after every interleaving |
| Interleaving.NextStepExactly | oentest/server.go:260-297 | the one kind of step each phase of a request waits for |
| Interleaving.NoRequestIsStuck | oentest/server.go:260-297 | a request can take a next step if and only if it is neither answered nor dropped |
| Interleaving.CheckSteps | oentest/server.go:272-296 | the check of the token, of what is hung, and the write |
| Interleaving.PickSteps | oentest/server.go:281-288 | which response a request is handed, and when it charges for one |
| Interleaving.RecordSteps | oentest/server.go:361-371 | what a charge and a subscription record and answer |
| Interleaving.QueuedResponsesAreDelivered | oentest/server.go:260-318 | in every reachable state no queued response is lost or delivered twice, order is kept for every key, and a charge that names a subscription names one that exists |
| Interleaving.AnsweredWithItsOwn | oentest/server.go:281-296 | a request that was handed a queued response is answered with that one |
| Interleaving.HungEndpointIsSilent | oentest/server.go:281-296 | as long as an endpoint is hung a request it covers is answered only if it was past its check when the hang began, and then as decided there, or if it bears a bad token |
| Interleaving.AnsweredWhileHungExactly | oentest/server.go:281-296 | of the requests under way when an endpoint hangs, one can still be answered if and only if it is past its check or about to fail on a bad token |
| Interleaving.FailedChargeIsUnknown | oentest/server.go:164-168 | every answer to a ChargeThenFail of status 200 to 599 matches ErrUnknownOutcome, for ChargeToken and SubscribeToken |
| Interleaving.NoRefusalHidesACharge | oentest/server.go:281-296 | in every interleaving, a ChargeToken call whose charge was recorded succeeds naming it or matches ErrUnknownOutcome, and the order shows the charge exactly once |
| Interleaving.NoRefusalHidesASubscription | oentest/server.go:364-371 | the same for SubscribeToken: a call whose first charge was recorded succeeds naming an existing subscription and its charge, or matches ErrUnknownOutcome, and the order shows the charge exactly once |
| Interleaving.ScriptedRefusalHidesACharge | oentest/server.go:281-296 | in every interleaving and for any queued responses: a ChargeToken or SubscribeToken call whose charge was recorded ends in a settled refusal if and only if it was handed a queued response that refuses and all of it arrived; the order shows the charge exactly once all the same |
| Interleaving.HidingResponses | oentest/server.go:580-604 | there is a run in which a queued response hides a charge if and only if the response records one, does not block, and carries a settling code with a body and a final status of 200 to 299, or 400 to 499 other than 429; an informational status ends in a 200 |

## Left out

- HTTP transport, redirects, timeouts and logging: a lost answer is one open outcome of a request (`Interleaving.MayReceive`).
- `encoding/json`: the models start from a valid token, a parsed tree or a decoded envelope, with duplicate keys already resolved.
- `SanitizeJSON` and `SanitizeMetadata`: decoding and encoding around the modelled walk.
- SHA-256, HMAC and the hex digest of the event ID: injectivity ends at the text that is hashed.
- The shortest-digit choice of `strconv.FormatFloat` and the rounding of `ParseFloat`: canonical digits and exponent, zero or out of range are given.
- The internals of `big.Rat`: exact rationals, with its exponent limit a parameter.
- Dates, locations and URLs: which numbers and texts are times is a parameter.
- Callback.ParseWebhook: fields that are copied as text, such as the order and customer, are not part of the event.
- PaymentInfos.ReadItems: a body with several spellings of productDetails, whose arrays encoding/json would merge, is read by the last one.
- `time.Unix` wraps for seconds near the end of int64: the model subtracts exactly and saturates, which decides alike for every tolerance below the largest duration.
- `VerifyWebhook`: the comparison with the event-ID header and the delivery attempt are single checks around the two modelled functions.
- The fake's request log, its page tokens, `SetPaymentInfo` and the constant fields `fee` and `period` of its records.
- Provider.Server.RecordCharge: the request body is given decoded, and the time stamp is an opaque text.
- Interleaving.StepKeepsCalls: the default answers of endpoints other than the two token charges are left open, because what queries return is proved of the class.
- The headers of a queued response: one that changes how the body is read, such as Content-Length, is not modelled.
- Sockets in the fake: a hang is a request that is never answered, and a delay is whatever other steps come before its write.
- Request builders, idempotency keys, the code and error catalogues: field copying, single checks and finite tables.
- The `subscription` package: its signature loop and classifier repeat the shapes modelled here.

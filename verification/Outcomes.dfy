/** What one response means to the caller: classification of HTTP answers, and
    the outcome of a token charge. */
module Outcomes {
  import opened Text
  import opened JsonTree
  import opened Wire

  datatype Kind =
    | Declined
    | InvalidRequest
    | Unauthorized
    | TransactionState
    | RateLimited
    | UnknownOutcome
    | InvalidInput
    | InvalidSignature

  /** A Go error tree. Each sentinel of the package stands for one kind. */
  datatype Error =
    | Nil
    | Plain
    | Sentinel(kind: Kind)
    | Joined(errs: seq<Error>)
    | Api(kind: Kind, status: int, code: string, err: Error)

  /** errors.Is against the sentinel of a kind: the error's own Is method first,
      and then whatever it unwraps to. */
  predicate Is(err: Error, target: Kind) {
    match err
    case Nil => false
    case Plain => false
    case Sentinel(kind) => kind == target
    case Joined(errs) => exists i :: 0 <= i < |errs| && Is(errs[i], target)
    case Api(kind, _, _, inner) => kind == target || Is(inner, target)
  }

  /** errors.Join drops nil errors. */
  function Join(a: Error, b: Error): Error {
    if a.Nil? && b.Nil? then Nil
    else if a.Nil? then Joined([b])
    else if b.Nil? then Joined([a])
    else Joined([a, b])
  }

  datatype Envelope = Envelope(code: Json, data: Json)

  function NormalizeCode(code: string): string {
    ToUpper(TrimSpace(code))
  }

  /** The documented codes first, the code's letter second. */
  function ProviderKind(code: string): Kind {
    var normalized := NormalizeCode(code);
    if normalized == "I0001" then InvalidRequest
    else if normalized == "F0001" then UnknownOutcome
    else if normalized == "V0002" then TransactionState
    else if normalized == "K0001" then Declined
    else if HasPrefix(normalized, "T") then Declined
    else if HasPrefix(normalized, "V") then InvalidRequest
    else if HasPrefix(normalized, "A") then Unauthorized
    else UnknownOutcome
  }

  function EnvelopeCode(env: Option<Envelope>): string {
    if env.None? then "" else RawString(env.value.code)
  }

  function Classify(method_: string, status: int, env: Option<Envelope>, decodeErr: Error): Option<Error> {
    var code := EnvelopeCode(env);
    if status == 429 then
      var cause := if method_ != "GET" && method_ != "HEAD" then Join(decodeErr, Sentinel(UnknownOutcome)) else decodeErr;
      Some(Api(RateLimited, status, code, cause))
    else if status >= 500 then Some(Api(UnknownOutcome, status, code, Plain))
    else if status >= 400 then
      if !decodeErr.Nil? || env.None? || code == "" then Some(Api(UnknownOutcome, status, "", Plain))
      else Some(Api(ProviderKind(code), status, code, Nil))
    else if status < 200 || status >= 300 then Some(Api(UnknownOutcome, status, "", Plain))
    else if !decodeErr.Nil? then Some(Api(UnknownOutcome, status, "", decodeErr))
    else if env.None? || code == "" then Some(Api(UnknownOutcome, status, "", Plain))
    else if NormalizeCode(code) == "S0000" then None
    else Some(Api(ProviderKind(code), status, code, Nil))
  }

  // ----- One token charge

  /** What comes back over the wire: nothing, a status whose body cannot be read,
      or a status and a body that is or is not a JSON envelope. */
  datatype Answer = Lost | Unreadable(status: int) | NotJson(status: int) | Decoded(status: int, env: Envelope)

  datatype Result<T> = Done(value: T) | Failed(err: Error)

  function UnknownResponse<T>(status: int): Result<T> {
    Failed(Api(UnknownOutcome, status, "", Plain))
  }

  /** What the client makes of the answer to a write: a status and the data of a success
      envelope, or an error. */
  function Post(answer: Answer): Result<(int, Json)> {
    match answer
    case Lost => UnknownResponse(0)
    case Unreadable(status) =>
      if status == 429 then Failed(Classify("POST", status, None, Plain).value) else UnknownResponse(status)
    case NotJson(status) =>
      var classified := Classify("POST", status, Some(Envelope(Null, Null)), Plain);
      if classified.Some? then Failed(classified.value) else UnknownResponse(status)
    case Decoded(status, env) =>
      match Classify("POST", status, Some(env), Nil)
      case Some(err) => Failed(err)
      case None => Done((status, env.data))
  }

  /** A field of the data, or nothing. Struct decoding folds the case of keys; which of
      several spellings is read is left open. */
  ghost function DataField(data: Json, name: string): string
    requires data.Obj?
  {
    if exists key :: key in data.fields && EqualFold(key, name) then
      var key :| key in data.fields && EqualFold(key, name);
      RawString(data.fields[key])
    else ""
  }

  /** ChargeToken once its request has been sent: the transaction. */
  ghost function ChargeToken(answer: Answer): Result<string> {
    match Post(answer)
    case Failed(err) => Failed(err)
    case Done((status, data)) =>
      if !data.Obj? || DataField(data, "id") == "" then UnknownResponse(status)
      else Done(DataField(data, "id"))
  }

  /** SubscribeToken once its request has been sent: the subscription and its first transaction. */
  ghost function SubscribeToken(answer: Answer): Result<(string, string)> {
    match Post(answer)
    case Failed(err) => Failed(err)
    case Done((status, data)) =>
      if !data.Obj? || DataField(data, "subscriptionId") == "" then UnknownResponse(status)
      else Done((DataField(data, "subscriptionId"), DataField(data, "transactionId")))
  }

  /** A failure the caller may take as final: it does not match ErrUnknownOutcome. */
  ghost predicate SettledRefusal<T>(result: Result<T>) {
    result.Failed? && !Is(result.err, UnknownOutcome)
  }

  /** The codes that settle a request: I0001, K0001 and the T, V and A families. */
  predicate SettlingCode(code: string) {
    var normalized := NormalizeCode(code);
    || normalized in {"I0001", "K0001"}
    || HasPrefix(normalized, "T") || HasPrefix(normalized, "V") || HasPrefix(normalized, "A")
  }

  lemma KindOfSettlingCode(code: string)
    ensures ProviderKind(code) != UnknownOutcome <==> SettlingCode(code)
    ensures NormalizeCode(code) == "S0000" ==> !SettlingCode(code)
    ensures code == "" ==> !SettlingCode(code)
  {
  }

  lemma LeafKind(kind: Kind, status: int, code: string, inner: Error)
    requires inner.Nil? || inner.Plain?
    ensures Is(Api(kind, status, code, inner), UnknownOutcome) <==> kind == UnknownOutcome
  {
  }

  /** A 429 leaves open what became of any request but a GET or HEAD, and says nothing
      beyond the decoding error about those. */
  lemma RateLimitedWritesAreUnknown(method_: string, decodeErr: Error, env: Option<Envelope>)
    ensures Classify(method_, 429, env, decodeErr).Some?
    ensures Is(Classify(method_, 429, env, decodeErr).value, RateLimited)
    ensures Is(Classify(method_, 429, env, decodeErr).value, UnknownOutcome) <==>
            method_ !in {"GET", "HEAD"} || Is(decodeErr, UnknownOutcome)
  {
    var write := method_ != "GET" && method_ != "HEAD";
    var cause := if write then Join(decodeErr, Sentinel(UnknownOutcome)) else decodeErr;
    JoinMatches(decodeErr, UnknownOutcome);
    assert Classify(method_, 429, env, decodeErr) == Some(Api(RateLimited, 429, EnvelopeCode(env), cause));
  }

  lemma JoinMatches(err: Error, kind: Kind)
    ensures Is(Join(err, Sentinel(kind)), kind)
  {
    var errs := Join(err, Sentinel(kind)).errs;
    assert errs[|errs| - 1] == Sentinel(kind);
  }

  /** A readable envelope with a settling code, under a 2xx status or a 4xx status other than 429. */
  predicate RefusalArrived(answer: Answer) {
    && answer.Decoded?
    && (200 <= answer.status < 300 || 400 <= answer.status < 500)
    && answer.status != 429
    && SettlingCode(RawString(answer.env.code))
  }

  /** A token charge or subscription ends in a settled refusal exactly when one arrived. */
  lemma RefusedExactly(answer: Answer)
    ensures SettledRefusal(ChargeToken(answer)) <==> RefusalArrived(answer)
    ensures SettledRefusal(SubscribeToken(answer)) <==> RefusalArrived(answer)
  {
    PostRefusedExactly(answer);
  }

  lemma PostRefusedExactly(answer: Answer)
    ensures SettledRefusal(Post(answer)) <==> RefusalArrived(answer)
  {
    RateLimitedWritesAreUnknown("POST", Plain, None);
    RateLimitedWritesAreUnknown("POST", Plain, Some(Envelope(Null, Null)));
    if answer.Decoded? {
      var code := RawString(answer.env.code);
      RateLimitedWritesAreUnknown("POST", Nil, Some(answer.env));
      KindOfSettlingCode(code);
      LeafKind(ProviderKind(code), answer.status, code, Nil);
      LeafKind(UnknownOutcome, answer.status, code, Plain);
      LeafKind(UnknownOutcome, answer.status, "", Plain);
    }
  }

  // ----- The kind of every answer

  /** Which kind a code is given: the documented codes and the families, by the code in
      upper case without white space around it. */
  lemma KindsExactly(code: string)
    ensures var c, kind := ToUpper(TrimSpace(code)), ProviderKind(code);
            && (kind == Declined <==> c == "K0001" || (c != "" && c[0] == 'T'))
            && (kind == TransactionState <==> c == "V0002")
            && (kind == InvalidRequest <==> c == "I0001" || (c != "" && c[0] == 'V' && c != "V0002"))
            && (kind == Unauthorized <==> c != "" && c[0] == 'A')
            && (kind == UnknownOutcome <==> c !in {"K0001", "I0001"} && (c == "" || c[0] !in {'T', 'V', 'A'}))
  {
    var c := NormalizeCode(code);
    assert c != "" ==> c[..1] == [c[0]];
  }

  /** What becomes of a status and an envelope whose body could be decoded. */
  lemma DecodedKinds(method_: string, status: int, env: Envelope)
    ensures var code, result := RawString(env.code), Classify(method_, status, Some(env), Nil);
            && (result.None? <==> 200 <= status < 300 && code != "" && ToUpper(TrimSpace(code)) == "S0000")
            && (result.Some? ==> result.value.Api? && result.value.status == status)
            && (result.Some? && status == 429 ==> result.value.kind == RateLimited && result.value.code == code)
            && (result.Some? && status != 429 && (200 <= status < 300 || 400 <= status < 500) && code != "" ==>
                  result.value == Api(ProviderKind(code), status, code, Nil))
            && (result.Some? && status != 429 && !((200 <= status < 300 || 400 <= status < 500) && code != "") ==>
                  && result.value.kind == UnknownOutcome
                  && result.value.code == (if status >= 500 then code else ""))
  {
  }

  /** And if it could not. */
  lemma UndecodedKinds(method_: string, status: int, env: Option<Envelope>, decodeErr: Error)
    requires env.None? || !decodeErr.Nil?
    ensures var result := Classify(method_, status, env, decodeErr);
            && result.Some? && result.value.Api? && result.value.status == status
            && result.value.kind == (if status == 429 then RateLimited else UnknownOutcome)
  {
  }

  /** What a caller learns from an answer that carries no envelope. */
  lemma PostExactly(status: int)
    ensures Post(Lost) == Failed(Api(UnknownOutcome, 0, "", Plain))
    ensures Post(Unreadable(status)).Failed? && Post(NotJson(status)).Failed?
    ensures var kind := if status == 429 then RateLimited else UnknownOutcome;
            && Post(Unreadable(status)).err.Api? && Post(Unreadable(status)).err.kind == kind
            && Post(NotJson(status)).err.Api? && Post(NotJson(status)).err.kind == kind
  {
  }

  /** errors.Is, one layer at a time. */
  lemma IsExactly(target: Kind, kind: Kind, status: int, code: string, inner: Error)
    ensures !Is(Nil, target) && !Is(Plain, target)
    ensures Is(Sentinel(kind), target) <==> kind == target
    ensures Is(Api(kind, status, code, inner), target) <==> kind == target || Is(inner, target)
  {
  }

  lemma JoinExactly(first: Error, second: Error, target: Kind)
    ensures Is(Join(first, second), target) <==> Is(first, target) || Is(second, target)
  {
    if !first.Nil? && !second.Nil? {
      OneOfTwo([first, second], target);
    } else if !first.Nil? {
      OneOfOne([first], target);
    } else if !second.Nil? {
      OneOfOne([second], target);
    }
  }

  lemma OneOfOne(errs: seq<Error>, target: Kind)
    requires |errs| == 1
    ensures Is(Joined(errs), target) <==> Is(errs[0], target)
  {
  }

  lemma OneOfTwo(errs: seq<Error>, target: Kind)
    requires |errs| == 2
    ensures Is(Joined(errs), target) <==> Is(errs[0], target) || Is(errs[1], target)
  {
  }

  /** A charge is reported exactly by a 2xx success envelope whose data has an id. */
  lemma ChargedExactly(answer: Answer, id: string)
    ensures ChargeToken(answer) == Done(id) <==>
            && answer.Decoded? && 200 <= answer.status < 300
            && ToUpper(TrimSpace(RawString(answer.env.code))) == "S0000"
            && answer.env.data.Obj? && id != "" && DataField(answer.env.data, "id") == id
  {
    if answer.Decoded? {
      DecodedKinds("POST", answer.status, answer.env);
      BlankIsNoSuccess();
    }
  }

  lemma SubscribedExactly(answer: Answer, plan: string, id: string)
    ensures SubscribeToken(answer) == Done((plan, id)) <==>
            && answer.Decoded? && 200 <= answer.status < 300
            && ToUpper(TrimSpace(RawString(answer.env.code))) == "S0000"
            && answer.env.data.Obj? && plan != "" && DataField(answer.env.data, "subscriptionId") == plan
            && DataField(answer.env.data, "transactionId") == id
  {
    if answer.Decoded? {
      DecodedKinds("POST", answer.status, answer.env);
      BlankIsNoSuccess();
    }
  }

  lemma BlankIsNoSuccess()
    ensures ToUpper(TrimSpace("")) == ""
  {
  }
}

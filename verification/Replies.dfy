/** Queued and default responses of the fake provider. */
module Replies {
  import opened Text
  import opened JsonTree
  import opened Ledger
  import opened Outcomes
  import Routes

  /** The data of an envelope. Only what the client reads of a charge or a
      subscription is spelled out. */
  datatype Data =
    | NoData
    | ChargeData(id: string, authCode: string)
    | PlanData(subscriptionId: string, transactionId: string, authCode: string)
    | OneTransaction(transaction: Transaction)
    | Transactions(transactions: seq<Transaction>)
    | OneSubscription(subscription: Subscription)
    | Page
    | Any(json: Json)

  /** A body written verbatim. */
  datatype Body = Garbage | Literal(env: Envelope)

  datatype Response = Response(
    status: int, code: string, message: string, data: Data, body: Option<Body>, block: bool, recordCharge: bool)

  function Success(data: Data): Response {
    Response(0, "S0000", "", data, None, false, false)
  }

  const NOT_FOUND := Response(0, "V0002", "not found", NoData, None, false, false)

  /** ChargeThenFail: a charge that is recorded and then fails to be reported. */
  function ChargeThenFail(status: int): Response {
    Response(status, "", "", NoData, None, false, true)
  }

  /** The data as the client decodes it; the shapes no charge result has are
      objects without an id. */
  function Rendered(data: Data): Json {
    match data
    case NoData => Null
    case ChargeData(id, authCode) => Obj(map["id" := Str(id), "authCode" := Str(authCode)])
    case Any(json) => json
    case PlanData(plan, id, authCode) =>
      Obj(map["subscriptionId" := Str(plan), "transactionId" := Str(id), "authCode" := Str(authCode)])
    case OneTransaction(t) => Obj(map["id" := Str(t.id)])
    case OneSubscription(p) => Obj(map["id" := Str(p.id)])
    case _ => Obj(map[])
  }

  /** net/http panics on writing any other status. */
  predicate CanBeSent(status: int) {
    status == 0 || 100 <= status <= 999
  }

  /** The status that ends the exchange. Informational headers do not: the body written
      after them is sent under an implicit 200. */
  function FinalStatus(status: int): int {
    if status == 0 || (100 <= status < 200 && status != 101) then 200 else status
  }

  /** No body is sent with these statuses. */
  predicate Bodiless(status: int) {
    status in {101, 204, 304}
  }

  /** writeResponse, as the client receives it when nothing is lost on the way. */
  function Written(response: Response): Answer {
    var status := FinalStatus(response.status);
    if !CanBeSent(response.status) then Lost
    else if Bodiless(status) then NotJson(status)
    else match response.body
      case Some(Garbage) => NotJson(status)
      case Some(Literal(env)) => Decoded(status, env)
      case None =>
        Decoded(status, Envelope(Str(if response.code == "" then "S0000" else response.code), Rendered(response.data)))
  }

  // ----- Queues

  type Queues = map<string, seq<Response>>

  function Queue(queues: Queues, key: string): seq<Response> {
    if key in queues then queues[key] else []
  }

  function Enqueue(queues: Queues, key: string, responses: seq<Response>): Queues {
    queues[key := Queue(queues, key) + responses]
  }

  /** The first key with a response waiting. */
  function FirstReady(queues: Queues, keys: seq<string>): (ready: Option<string>)
    ensures ready.Some? ==> ready.value in keys && Queue(queues, ready.value) != []
  {
    if keys == [] then None
    else if Queue(queues, keys[0]) != [] then Some(keys[0])
    else FirstReady(queues, keys[1..])
  }

  lemma {:induction false} FirstReadyIsFirst(queues: Queues, keys: seq<string>)
    ensures FirstReady(queues, keys).None? <==> forall i :: 0 <= i < |keys| ==> Queue(queues, keys[i]) == []
    ensures FirstReady(queues, keys).Some? ==>
              exists i :: 0 <= i < |keys| && keys[i] == FirstReady(queues, keys).value
                          && Queue(queues, keys[i]) != []
                          && forall j :: 0 <= j < i ==> Queue(queues, keys[j]) == []
  {
    if keys != [] {
      if Queue(queues, keys[0]) == [] {
        FirstReadyIsFirst(queues, keys[1..]);
        var rest := FirstReady(queues, keys[1..]);
        if rest.Some? {
          var i :| 0 <= i < |keys[1..]| && keys[1..][i] == rest.value && Queue(queues, keys[1..][i]) != []
                   && forall j :: 0 <= j < i ==> Queue(queues, keys[1..][j]) == [];
          forall j | 0 <= j < i + 1 ensures Queue(queues, keys[j]) == [] {
            if j > 0 {
              assert keys[j] == keys[1..][j - 1];
            }
          }
          assert keys[i + 1] == keys[1..][i];
        } else {
          forall i | 0 <= i < |keys| ensures Queue(queues, keys[i]) == [] {
            if i > 0 {
              assert keys[i] == keys[1..][i - 1];
            }
          }
        }
      }
    }
  }

  // ----- Which response a request is handed

  /** A response waits under the key. */
  predicate Waits(queues: Queues, key: string) {
    key in queues && queues[key] != []
  }

  /** The oldest one is handed out and removed, and nothing else changes. */
  predicate Takes(before: Queues, key: string, response: Option<Response>, after: Queues)
    requires Waits(before, key)
  {
    response == Some(before[key][0]) && after == before[key := before[key][1..]]
  }

  lemma TakesTheFirst(queues: Queues, method_: string, path: string)
    ensures var ready, route := FirstReady(queues, Routes.LookupKeys(method_, path)), Routes.RouteKey(path);
            if Waits(queues, method_ + " " + path) then ready == Some(method_ + " " + path)
            else if Waits(queues, path) then ready == Some(path)
            else if Waits(queues, method_ + " " + route) then ready == Some(method_ + " " + route)
            else if Waits(queues, route) then ready == Some(route)
            else ready == None
  {
    hide Routes.RouteKey;
    var keys := Routes.LookupKeys(method_, path);
    Routes.LookupKeysExactly(method_, path);
    assert keys == [keys[0]] + ([keys[1]] + ([keys[2]] + [keys[3]]));
    FirstOf(queues, keys[0], [keys[1]] + ([keys[2]] + [keys[3]]));
    FirstOf(queues, keys[1], [keys[2]] + [keys[3]]);
    FirstOf(queues, keys[2], [keys[3]]);
    FirstOf(queues, keys[3], []);
    assert [keys[3]] + [] == [keys[3]];
  }

  lemma FirstOf(queues: Queues, key: string, rest: seq<string>)
    ensures FirstReady(queues, [key] + rest) == if Waits(queues, key) then Some(key) else FirstReady(queues, rest)
  {
    assert ([key] + rest)[1..] == rest;
  }

  // ----- What the client receives

  /** The status that arrives: 200 for none and for informational ones, which do not end
      the exchange; no body follows 101, 204 and 304; other statuses cannot be written. */
  lemma WrittenExactly(response: Response)
    ensures var status := response.status;
            && (status != 0 && !(100 <= status <= 999) ==> Written(response) == Lost)
            && (status in {101, 204, 304} ==> Written(response) == NotJson(status))
            && (status == 0 || status == 100 || 102 <= status < 200 || status == 200 ==>
                  Written(response) == Written(response.(status := 200)))
            && (200 <= status <= 999 && status !in {204, 304} ==>
                  match response.body
                  case Some(Garbage) => Written(response) == NotJson(status)
                  case Some(Literal(env)) => Written(response) == Decoded(status, env)
                  case None =>
                    Written(response) ==
                    Decoded(status, Envelope(Str(if response.code == "" then "S0000" else response.code),
                                             Rendered(response.data))))
  {
  }

  /** The answers the fake gives by default, and the charge that fails to be reported. */
  lemma DefaultAnswers(id: string, authCode: string, plan: string, status: int)
    ensures Written(Success(ChargeData(id, authCode))) ==
            Decoded(200, Envelope(Str("S0000"), Obj(map["id" := Str(id), "authCode" := Str(authCode)])))
    ensures Written(Success(PlanData(plan, id, authCode))) ==
            Decoded(200, Envelope(Str("S0000"), Obj(map["subscriptionId" := Str(plan), "transactionId" := Str(id),
                                                        "authCode" := Str(authCode)])))
    ensures Written(NOT_FOUND) == Decoded(200, Envelope(Str("V0002"), Null))
    ensures ChargeThenFail(status).recordCharge && !ChargeThenFail(status).block
    ensures 200 <= status <= 599 && status !in {204, 304} ==>
              Written(ChargeThenFail(status)) == Decoded(status, Envelope(Str("S0000"), Null))
  {
  }

  /** Queueing, key by key. */
  lemma QueuesExactly(queues: Queues, key: string, responses: seq<Response>, other: string)
    ensures Queue(queues, key) == if key in queues then queues[key] else []
    ensures Queue(Enqueue(queues, key, responses), key) == Queue(queues, key) + responses
    ensures other != key ==> Queue(Enqueue(queues, key, responses), other) == Queue(queues, other)
  {
  }
}

/** Concurrent requests against the fake provider: every request is a sequence of
    locked sections and one write of its answer outside the lock, and the steps of
    different requests interleave freely. */
module Interleaving {
  import opened Text
  import opened JsonTree
  import opened Wire
  import opened Outcomes
  import opened Ledger
  import opened Replies
  import Routes

  datatype Request = Request(method_: string, path: string, bearer: bool, order: Order, reason: string)

  /** Where a request stands between two steps. A request that is Writing has left its last
      locked section, and may sleep before it writes. */
  datatype Phase =
    | Arrived
    | Admitted
    | Picked(queued: Option<Response>)
    | Planned(queued: Option<Response>, plan: string)
    | Ready(response: Response)
    | Writing(response: Response)
    | Sent(response: Response)
    | Dropped

  /** `source` says which queued response the request was handed: a key and the
      position among all responses ever filed under it. `charge` is the charge the
      request recorded. */
  datatype Call = Call(request: Request, phase: Phase, source: Option<(string, nat)>, charge: Option<string>)

  /** `filed` and `handed` are the history of the queues. */
  datatype State = State(
    book: Book, queues: Queues, filed: Queues, handed: Queues, blocked: set<string>, checkToken: bool, calls: seq<Call>)

  const INITIAL := State(EMPTY, map[], map[], map[], {}, true, [])

  /** One step of a request, or one call of the test that owns the server. The default answer
      of an endpoint that records no charge is left open here: what queries return is
      proved of the provider's own methods. */
  datatype Event =
    | QueueResponse(endpoint: string, responses: seq<Response>)
    | Hang(endpoint: string)
    | Unhang(endpoint: string)
    | AcceptAnyToken
    | Arrive(request: Request)
    | Authorize(call: nat)
    | Pick(call: nat)
    | MakePlan(call: nat, now: string, next: string)
    | RecordCharge(call: nat, card: Option<(string, string)>, now: string)
    | AnswerOther(call: nat, answer: Response, now: string)
    | CheckHung(call: nat)
    | Write(call: nat)

  function RouteOf(call: Call): Routes.Route {
    Routes.RouteOf(call.request.method_, call.request.path)
  }

  predicate Enabled(s: State, e: Event) {
    match e
    case Authorize(i) => i < |s.calls| && s.calls[i].phase.Arrived?
    case Pick(i) => i < |s.calls| && s.calls[i].phase.Admitted?
    case MakePlan(i, _, _) => i < |s.calls| && s.calls[i].phase.Picked? && RouteOf(s.calls[i]).TokenSubscription?
    case RecordCharge(i, _, _) =>
      i < |s.calls| && (s.calls[i].phase.Planned? || (s.calls[i].phase.Picked? && RouteOf(s.calls[i]).TokenCharge?))
    case AnswerOther(i, answer, _) =>
      !answer.recordCharge && i < |s.calls| && s.calls[i].phase.Picked?
      && !RouteOf(s.calls[i]).TokenCharge? && !RouteOf(s.calls[i]).TokenSubscription?
    case CheckHung(i) => i < |s.calls| && s.calls[i].phase.Ready?
    case Write(i) => i < |s.calls| && s.calls[i].phase.Writing?
    case _ => true
  }

  const UNAUTHORIZED := Response(401, "A0001", "unauthorized", NoData, None, false, false)

  /** A queued response replaces the default one. */
  function Reply(queued: Option<Response>, default_: Response): Response {
    if queued.Some? then queued.value else default_
  }

  function AfterPick(queued: Option<Response>): Phase {
    if queued.Some? && !queued.value.recordCharge then Ready(queued.value) else Picked(queued)
  }

  function PickStep(s: State, i: nat): State
    requires i < |s.calls|
  {
    var call := s.calls[i];
    match FirstReady(s.queues, Routes.LookupKeys(call.request.method_, call.request.path))
    case None => s.(calls := s.calls[i := call.(phase := AfterPick(None))])
    case Some(key) =>
      var waiting := Queue(s.queues, key);
      s.(queues := s.queues[key := waiting[1..]],
         handed := Enqueue(s.handed, key, [waiting[0]]),
         calls := s.calls[i := call.(phase := AfterPick(Some(waiting[0])), source := Some((key, |Queue(s.handed, key)|)))])
  }

  function RecordStep(bases: Bases, s: State, i: nat, card: Option<(string, string)>, now: string): State
    requires Enabled(s, RecordCharge(i, card, now))
  {
    var call := s.calls[i];
    var plan := if call.phase.Planned? then Some(call.phase.plan) else None;
    var order := call.request.order.(action := if call.phase.Planned? then "subscription" else "onetime");
    var book := Apply(bases, s.book, AddCharge(order, card, plan, now));
    var id := Numbered(bases.transactionHID, |book.charges|);
    var data := if call.phase.Planned? then PlanData(call.phase.plan, id, bases.authCode)
                else ChargeData(id, bases.authCode);
    s.(book := book,
       calls := s.calls[i := call.(phase := Ready(Reply(call.phase.queued, Success(data))), charge := Some(id))])
  }

  /** What a default answer other than a charge or a subscription does to the book. */
  function OtherEffect(bases: Bases, book: Book, route: Routes.Route, request: Request, now: string): Book {
    match route
    case Refund(id) => Apply(bases, book, Ledger.Refund(id, request.order.amount, request.reason, now))
    case CancelSubscription(id) => Apply(bases, book, Cancel(id, request.reason, now))
    case _ => book
  }

  function Step(bases: Bases, s: State, e: Event): State
    requires Enabled(s, e)
  {
    match e
    case QueueResponse(endpoint, responses) =>
      var key := Routes.NormalizeKey(endpoint);
      s.(queues := Enqueue(s.queues, key, responses), filed := Enqueue(s.filed, key, responses))
    case Hang(endpoint) => s.(blocked := s.blocked + {Routes.NormalizeKey(endpoint)})
    case Unhang(endpoint) => s.(blocked := s.blocked - {Routes.NormalizeKey(endpoint)})
    case AcceptAnyToken => s.(checkToken := false)
    case Arrive(request) => s.(calls := s.calls + [Call(request, Arrived, None, None)])
    case Authorize(i) =>
      var call := s.calls[i];
      var phase := if s.checkToken && !call.request.bearer then Writing(UNAUTHORIZED) else Admitted;
      s.(calls := s.calls[i := call.(phase := phase)])
    case Pick(i) => PickStep(s, i)
    case MakePlan(i, now, next) =>
      var call := s.calls[i];
      var book := Apply(bases, s.book, AddPlan(call.request.order, now, next));
      s.(book := book,
         calls := s.calls[i := call.(phase := Planned(call.phase.queued, Numbered(bases.subscriptionID, |book.plans|)))])
    case RecordCharge(i, card, now) => RecordStep(bases, s, i, card, now)
    case AnswerOther(i, answer, now) =>
      var call := s.calls[i];
      s.(book := OtherEffect(bases, s.book, RouteOf(call), call.request, now),
         calls := s.calls[i := call.(phase := Ready(Reply(call.phase.queued, answer)))])
    case CheckHung(i) =>
      var call := s.calls[i];
      var keys := Routes.LookupKeys(call.request.method_, call.request.path);
      var hangs := call.phase.response.block || exists key :: key in keys && key in s.blocked;
      s.(calls := s.calls[i := call.(phase := if hangs then Dropped else Writing(call.phase.response))])
    case Write(i) =>
      var call := s.calls[i];
      s.(calls := s.calls[i := call.(phase := Sent(call.phase.response))])
  }

  /** A run: any sequence of enabled steps. */
  predicate IsRun(bases: Bases, s: State, events: seq<Event>)
    decreases |events|
  {
    events == [] || (Enabled(s, events[0]) && IsRun(bases, Step(bases, s, events[0]), events[1..]))
  }

  function After(bases: Bases, s: State, events: seq<Event>): State
    requires IsRun(bases, s, events)
    decreases |events|
  {
    if events == [] then s else After(bases, Step(bases, s, events[0]), events[1..])
  }

  // ----- Every step, exactly

  /** What the test that owns the server does. */
  lemma OwnerSteps(bases: Bases, s: State, e: Event)
    requires Enabled(s, e)
    ensures var t := Step(bases, s, e);
            match e
            case QueueResponse(endpoint, responses) =>
              var key := Routes.NormalizeKey(endpoint);
              && Queue(t.queues, key) == Queue(s.queues, key) + responses
              && Queue(t.filed, key) == Queue(s.filed, key) + responses
              && t == s.(queues := t.queues, filed := t.filed)
              && forall other :: other != key ==>
                   Queue(t.queues, other) == Queue(s.queues, other) && Queue(t.filed, other) == Queue(s.filed, other)
            case Hang(endpoint) => t == s.(blocked := s.blocked + {Routes.NormalizeKey(endpoint)})
            case Unhang(endpoint) => t == s.(blocked := s.blocked - {Routes.NormalizeKey(endpoint)})
            case AcceptAnyToken => t == s.(checkToken := false)
            case Arrive(request) => t == s.(calls := s.calls + [Call(request, Arrived, None, None)])
            case _ => t.filed == s.filed && t.blocked == s.blocked && t.checkToken == s.checkToken
  {
  }

  /** The check of the token, of what is hung, and the write. */
  lemma CheckSteps(bases: Bases, s: State, e: Event)
    requires Enabled(s, e) && (e.Authorize? || e.CheckHung? || e.Write?)
    ensures var before, after := s.calls[e.call], Step(bases, s, e).calls[e.call];
            var path, method_ := before.request.path, before.request.method_;
            && after == before.(phase := after.phase)
            && Step(bases, s, e) == s.(calls := s.calls[e.call := after])
            && (e.Authorize? ==>
                  && before.phase.Arrived?
                  && after.phase == if s.checkToken && !before.request.bearer
                                    then Writing(Response(401, "A0001", "unauthorized", NoData, None, false, false))
                                    else Admitted)
            && (e.CheckHung? ==>
                  && before.phase.Ready?
                  && (after.phase == Dropped || after.phase == Writing(before.phase.response))
                  && (after.phase == Dropped <==>
                        || before.phase.response.block
                        || method_ + " " + path in s.blocked || path in s.blocked
                        || method_ + " " + Routes.RouteKey(path) in s.blocked || Routes.RouteKey(path) in s.blocked))
            && (e.Write? ==> before.phase.Writing? && after.phase == Sent(before.phase.response))
  {
    var request := s.calls[e.call].request;
    var keys := Routes.LookupKeys(request.method_, request.path);
    Routes.LookupKeysExactly(request.method_, request.path);
    assert keys == [keys[0], keys[1], keys[2], keys[3]];
  }

  /** The one kind of step that each phase of a request waits for. */
  lemma NextStepExactly(s: State, i: nat, e: Event)
    requires i < |s.calls| && Actor(e) == Some(i)
    ensures Enabled(s, e) <==>
            var route := Routes.RouteOf(s.calls[i].request.method_, s.calls[i].request.path);
            match s.calls[i].phase
            case Arrived => e.Authorize?
            case Admitted => e.Pick?
            case Picked(_) =>
              if route.TokenSubscription? then e.MakePlan?
              else if route.TokenCharge? then e.RecordCharge?
              else e.AnswerOther? && !e.answer.recordCharge
            case Planned(_, _) => e.RecordCharge?
            case Ready(_) => e.CheckHung?
            case Writing(_) => e.Write?
            case Sent(_) => false
            case Dropped => false
  {
    hide Routes.RouteOf;
  }

  /** A request that is neither answered nor dropped can always take its next step. */
  lemma NoRequestIsStuck(s: State, i: nat)
    requires i < |s.calls|
    ensures !s.calls[i].phase.Sent? && !s.calls[i].phase.Dropped? <==> exists e :: Actor(e) == Some(i) && Enabled(s, e)
  {
    hide Enabled, Routes.RouteOf;
    forall e | Actor(e) == Some(i) ensures Enabled(s, e) ==> !s.calls[i].phase.Sent? && !s.calls[i].phase.Dropped? {
      NextStepExactly(s, i, e);
    }
    if !s.calls[i].phase.Sent? && !s.calls[i].phase.Dropped? {
      var route := Routes.RouteOf(s.calls[i].request.method_, s.calls[i].request.path);
      var e := match s.calls[i].phase
        case Arrived => Authorize(i)
        case Admitted => Pick(i)
        case Picked(_) =>
          if route.TokenSubscription? then MakePlan(i, "", "")
          else if route.TokenCharge? then RecordCharge(i, None, "")
          else AnswerOther(i, NOT_FOUND, "")
        case Planned(_, _) => RecordCharge(i, None, "")
        case Ready(_) => CheckHung(i)
        case _ => Write(i);
      NextStepExactly(s, i, e);
      assert Actor(e) == Some(i) && Enabled(s, e);
    }
  }

  /** What a request is handed: the oldest response under the first of its four keys, for
      which it charges only if the response says so; or none. */
  lemma PickSteps(bases: Bases, s: State, i: nat)
    requires Enabled(s, Pick(i))
    ensures var t, request, route := PickStep(s, i), s.calls[i].request, Routes.RouteKey(s.calls[i].request.path);
            if Waits(s.queues, request.method_ + " " + request.path)
            then Hands(s, i, request.method_ + " " + request.path, t)
            else if Waits(s.queues, request.path) then Hands(s, i, request.path, t)
            else if Waits(s.queues, request.method_ + " " + route) then Hands(s, i, request.method_ + " " + route, t)
            else if Waits(s.queues, route) then Hands(s, i, route, t)
            else t == s.(calls := s.calls[i := s.calls[i].(phase := Picked(None))])
  {
    hide Routes.RouteKey, Routes.LookupKeys;
    TakesTheFirst(s.queues, s.calls[i].request.method_, s.calls[i].request.path);
  }

  predicate Hands(s: State, i: nat, key: string, t: State)
    requires i < |s.calls| && Waits(s.queues, key)
  {
    var response := s.queues[key][0];
    && t == s.(queues := t.queues, handed := t.handed, calls := t.calls)
    && t.queues == s.queues[key := s.queues[key][1..]]
    && t.handed == s.handed[key := Queue(s.handed, key) + [response]]
    && t.calls == s.calls[i := s.calls[i].(
                    phase := if response.recordCharge then Picked(Some(response)) else Ready(response),
                    source := Some((key, |Queue(s.handed, key)|)))]
  }

  /** A recorded charge: by which request, and what it answers. */
  lemma RecordSteps(bases: Bases, s: State, e: Event)
    requires Enabled(s, e) && (e.RecordCharge? || e.MakePlan?)
    ensures var t := Step(bases, s, e);
            var before, after := s.calls[e.call], t.calls[e.call];
            && t == s.(book := t.book, calls := s.calls[e.call := after])
            && (e.MakePlan? ==>
                  && t.book.charges == s.book.charges && |t.book.plans| == |s.book.plans| + 1
                  && var plan := t.book.plans[|s.book.plans|];
                  && IsNewPlan(bases, |t.book.plans|, plan, AddPlan(before.request.order, e.now, e.next))
                  && after == before.(phase := Planned(before.phase.queued, plan.id)))
            && (e.RecordCharge? ==>
                  && t.book.plans == s.book.plans && |t.book.charges| == |s.book.charges| + 1
                  && var charge := t.book.charges[|s.book.charges|];
                  && charge.orderId == before.request.order.orderId && charge.amount == before.request.order.amount
                  && charge.status == "charged" && charge.refundAmount == 0 && charge.createdAt == e.now
                  && charge.action == (if before.phase.Planned? then "subscription" else "onetime")
                  && charge.subscriptionId == (if before.phase.Planned? then Some(before.phase.plan) else None)
                  && after.charge == Some(charge.id) && after == before.(phase := after.phase, charge := after.charge)
                  && after.phase == Ready(
                       if before.phase.queued.Some? then before.phase.queued.value
                       else Response(0, "S0000", "",
                                     if before.phase.Planned? then PlanData(before.phase.plan, charge.id, bases.authCode)
                                     else ChargeData(charge.id, bases.authCode),
                                     None, false, false)))
  {
    StepBook(bases, s, e);
    AppliesExactly(bases, s.book, OpOf(bases, s, e).value);
  }

  // ----- Queues: nothing lost, nothing delivered twice

  /** For every key, what was handed out and then what is still waiting is what was
      filed, in order. */
  ghost predicate QueuesAdd(s: State) {
    forall key :: Queue(s.handed, key) + Queue(s.queues, key) == Queue(s.filed, key)
  }

  /** The request holds the response at the position it was handed. */
  predicate SourceOk(s: State, call: Call) {
    call.source.Some? ==>
      var (key, n) := call.source.value;
      n < |Queue(s.handed, key)|
  }

  /** Every request was handed a response of its own. */
  ghost predicate Deliveries(s: State) {
    && (forall i :: 0 <= i < |s.calls| ==> SourceOk(s, s.calls[i]))
    && (forall i, j :: 0 <= i < j < |s.calls| && s.calls[i].source.Some? ==> s.calls[i].source != s.calls[j].source)
    && (forall i :: 0 <= i < |s.calls| && s.calls[i].phase in {Arrived, Admitted} ==> s.calls[i].source.None?)
  }

  /** And every response handed out went to a request. */
  ghost predicate Delivered(s: State) {
    forall key, n :: 0 <= n < |Queue(s.handed, key)| ==> HasOwner(s, key, n)
  }

  predicate HasOwner(s: State, key: string, n: nat) {
    exists i :: 0 <= i < |s.calls| && s.calls[i].source == Some((key, n))
  }

  lemma PickedResponse(queues: Queues, handed: Queues, filed: Queues, key: string)
    requires Queue(handed, key) + Queue(queues, key) == Queue(filed, key) && Queue(queues, key) != []
    ensures Queue(handed, key) + [Queue(queues, key)[0]] + Queue(queues, key)[1..] == Queue(filed, key)
    ensures Queue(filed, key)[|Queue(handed, key)|] == Queue(queues, key)[0]
  {
  }

  lemma FilingKeepsQueues(s: State, key: string, responses: seq<Response>, other: string)
    requires Queue(s.handed, other) + Queue(s.queues, other) == Queue(s.filed, other)
    ensures Queue(s.handed, other) + Queue(Enqueue(s.queues, key, responses), other)
         == Queue(Enqueue(s.filed, key, responses), other)
  {
  }

  lemma PickingKeepsQueues(s: State, i: nat, key: string)
    requires i < |s.calls|
    requires Queue(s.handed, key) + Queue(s.queues, key) == Queue(s.filed, key)
    ensures var t := PickStep(s, i); Queue(t.handed, key) + Queue(t.queues, key) == Queue(t.filed, key)
  {
    var call := s.calls[i];
    if FirstReady(s.queues, Routes.LookupKeys(call.request.method_, call.request.path)) == Some(key) {
      PickedResponse(s.queues, s.handed, s.filed, key);
    }
  }

  lemma StepKeepsQueues(bases: Bases, s: State, e: Event)
    requires Enabled(s, e) && QueuesAdd(s)
    ensures QueuesAdd(Step(bases, s, e))
  {
    if e.QueueResponse? {
      forall key { FilingKeepsQueues(s, Routes.NormalizeKey(e.endpoint), e.responses, key); }
    } else if e.Pick? {
      forall key { PickingKeepsQueues(s, e.call, key); }
    }
  }

  /** A step that hands out nothing: requests keep their source and new ones have none. */
  predicate HandsOutNothing(s: State, t: State) {
    && t.handed == s.handed
    && |s.calls| <= |t.calls|
    && (forall i :: 0 <= i < |s.calls| ==> t.calls[i].source == s.calls[i].source)
    && (forall i :: 0 <= i < |s.calls| && t.calls[i].phase in {Arrived, Admitted} ==>
          s.calls[i].phase in {Arrived, Admitted})
    && (forall i :: |s.calls| <= i < |t.calls| ==> t.calls[i].source.None?)
  }

  lemma OtherStepsHandOutNothing(bases: Bases, s: State, e: Event)
    requires Enabled(s, e) && !e.Pick?
    ensures HandsOutNothing(s, Step(bases, s, e))
  {
  }

  lemma QuietStepKeepsDeliveries(s: State, t: State)
    requires HandsOutNothing(s, t) && Deliveries(s)
    ensures Deliveries(t)
  {
  }

  lemma QuietStepKeepsDelivered(s: State, t: State)
    requires HandsOutNothing(s, t) && Delivered(s)
    ensures Delivered(t)
  {
    forall key, n: nat | n < |Queue(t.handed, key)| ensures HasOwner(t, key, n) {
      assert HasOwner(s, key, n);
      var i :| 0 <= i < |s.calls| && s.calls[i].source == Some((key, n));
      assert t.calls[i].source == Some((key, n));
    }
  }

  /** What a request picks up is new. */
  lemma PickIsNew(s: State, i: nat)
    requires i < |s.calls| && Deliveries(s)
    ensures forall j :: 0 <= j < |s.calls| && s.calls[j].source.Some? ==>
              s.calls[j].source != PickStep(s, i).calls[i].source || PickStep(s, i).calls[i].source == s.calls[i].source
  {
  }

  lemma PickKeepsSources(s: State, i: nat)
    requires i < |s.calls| && Deliveries(s)
    ensures forall j :: 0 <= j < |s.calls| ==> SourceOk(PickStep(s, i), PickStep(s, i).calls[j])
  {
  }

  lemma PickFrame(s: State, i: nat)
    requires i < |s.calls|
    ensures |PickStep(s, i).calls| == |s.calls|
    ensures forall j :: 0 <= j < |s.calls| && j != i ==> PickStep(s, i).calls[j] == s.calls[j]
    ensures PickStep(s, i).calls[i].phase !in {Arrived, Admitted}
  {
  }

  lemma PickKeepsDeliveries(s: State, i: nat)
    requires i < |s.calls| && s.calls[i].phase.Admitted? && Deliveries(s)
    ensures Deliveries(PickStep(s, i))
  {
    hide PickStep;
    PickIsNew(s, i);
    PickKeepsSources(s, i);
    PickFrame(s, i);
  }

  lemma PickKeepsDelivered(s: State, i: nat)
    requires i < |s.calls| && s.calls[i].source.None? && Delivered(s)
    ensures Delivered(PickStep(s, i))
  {
    var t := PickStep(s, i);
    forall key, n: nat | n < |Queue(t.handed, key)| ensures HasOwner(t, key, n) {
      if n < |Queue(s.handed, key)| {
        assert HasOwner(s, key, n);
        var j :| 0 <= j < |s.calls| && s.calls[j].source == Some((key, n));
        assert t.calls[j].source == Some((key, n));
      } else {
        assert t.calls[i].source == Some((key, n));
      }
    }
  }

  lemma StepKeepsDeliveries(bases: Bases, s: State, e: Event)
    requires Enabled(s, e) && Deliveries(s) && Delivered(s)
    ensures Deliveries(Step(bases, s, e)) && Delivered(Step(bases, s, e))
  {
    if e.Pick? {
      PickKeepsDeliveries(s, e.call);
      PickKeepsDelivered(s, e.call);
    } else {
      OtherStepsHandOutNothing(bases, s, e);
      QuietStepKeepsDeliveries(s, Step(bases, s, e));
      QuietStepKeepsDelivered(s, Step(bases, s, e));
    }
  }

  // ----- Charges

  predicate PlanExists(book: Book, id: string) {
    exists k :: 0 <= k < |book.plans| && book.plans[k].id == id
  }

  predicate Holds(book: Book, id: string, orderId: string) {
    exists k :: 0 <= k < |book.charges| && book.charges[k].id == id && book.charges[k].orderId == orderId
  }

  /** Every charge that names a subscription names one that exists. */
  predicate NamesPlans(book: Book) {
    forall k :: 0 <= k < |book.charges| && book.charges[k].subscriptionId.Some? ==>
      PlanExists(book, book.charges[k].subscriptionId.value)
  }

  lemma PlansPersist(a: Book, b: Book, id: string)
    requires Extends(a, b) && PlanExists(a, id)
    ensures PlanExists(b, id)
  {
  }

  lemma ChargesPersist(a: Book, b: Book, id: string, orderId: string)
    requires Extends(a, b) && Holds(a, id, orderId)
    ensures Holds(b, id, orderId)
  {
  }

  lemma NamesPlansKept(bases: Bases, book: Book, op: Op)
    requires NamesPlans(book)
    requires op.AddCharge? && op.subscriptionId.Some? ==> PlanExists(book, op.subscriptionId.value)
    ensures NamesPlans(Apply(bases, book, op))
  {
    var after := Apply(bases, book, op);
    ApplyExtends(bases, book, op);
    forall k | 0 <= k < |after.charges| && after.charges[k].subscriptionId.Some?
      ensures PlanExists(after, after.charges[k].subscriptionId.value)
    {
      if k < |book.charges| {
        assert Fixed(book.charges[k]) == Fixed(after.charges[k]);
      }
      PlansPersist(book, after, after.charges[k].subscriptionId.value);
    }
  }

  // ----- What every request keeps

  /** The response a request carries. */
  function Carried(phase: Phase): Option<Response> {
    match phase
    case Picked(queued) => queued
    case Planned(queued, _) => queued
    case Ready(response) => Some(response)
    case Writing(response) => Some(response)
    case Sent(response) => Some(response)
    case _ => None
  }

  /** The answer of the request is decided: nothing can hold it back any more. */
  predicate Answering(phase: Phase) {
    phase.Writing? || phase.Sent?
  }

  /** A request carries the response it was handed, and a request that works on the
      book for a queued response was told to record a charge. */
  predicate CarriesItsOwn(handed: Queues, call: Call) {
    && (call.source.Some? ==>
          var (key, n) := call.source.value;
          && n < |Queue(handed, key)|
          && (call.phase.Dropped? || Carried(call.phase) == Some(Queue(handed, key)[n]))
          && (call.charge.Some? ==> Queue(handed, key)[n].recordCharge))
    && (call.phase.Picked? || call.phase.Planned? ==>
          && call.charge.None?
          && (call.source.None? <==> call.phase.queued.None?)
          && (call.phase.queued.Some? ==> call.phase.queued.value.recordCharge))
    && (Answering(call.phase) ==> !call.phase.response.block)
  }

  /** What a request holds on to is in the book, and without a queued response a
      token charge answers with the charge it recorded. */
  predicate BookedItsOwn(bases: Bases, book: Book, call: Call) {
    && (call.phase.Planned? ==> PlanExists(book, call.phase.plan) && RouteOf(call).TokenSubscription?)
    && (call.charge.Some? ==>
          && (call.phase.Ready? || Answering(call.phase) || call.phase.Dropped?)
          && Holds(book, call.charge.value, call.request.order.orderId)
          && (call.source.None? && !call.phase.Dropped? && RouteOf(call).TokenCharge? ==>
                Carried(call.phase) == Some(Success(ChargeData(call.charge.value, bases.authCode))))
          && (call.source.None? && !call.phase.Dropped? && RouteOf(call).TokenSubscription? ==>
                NamesItsPlan(bases, book, call.charge.value, Carried(call.phase))))
  }

  /** The charge belongs to the subscription, and the subscription exists. */
  predicate ChargedFor(book: Book, charge: string, plan: string) {
    && PlanExists(book, plan)
    && exists k :: 0 <= k < |book.charges| && book.charges[k].id == charge && book.charges[k].subscriptionId == Some(plan)
  }

  /** The default answer to a token subscription. */
  predicate NamesItsPlan(bases: Bases, book: Book, charge: string, response: Option<Response>) {
    && response.Some? && response.value.data.PlanData?
    && var plan := response.value.data.subscriptionId;
       response.value == Success(PlanData(plan, charge, bases.authCode)) && ChargedFor(book, charge, plan)
  }

  lemma ChargedForPersists(a: Book, b: Book, charge: string, plan: string)
    requires Extends(a, b) && ChargedFor(a, charge, plan)
    ensures ChargedFor(b, charge, plan)
  {
    PlansPersist(a, b, plan);
    var k :| 0 <= k < |a.charges| && a.charges[k].id == charge && a.charges[k].subscriptionId == Some(plan);
    assert Fixed(a.charges[k]) == Fixed(b.charges[k]);
  }

  predicate CallOk(bases: Bases, book: Book, handed: Queues, call: Call) {
    CarriesItsOwn(handed, call) && BookedItsOwn(bases, book, call)
  }

  ghost predicate CallsOk(bases: Bases, s: State) {
    forall i :: 0 <= i < |s.calls| ==> CallOk(bases, s.book, s.handed, s.calls[i])
  }

  /** No two requests recorded the same charge. */
  predicate OwnCharges(s: State) {
    forall i, j :: 0 <= i < j < |s.calls| && s.calls[i].charge.Some? ==> s.calls[i].charge != s.calls[j].charge
  }

  ghost predicate Grows(a: Queues, b: Queues) {
    forall key :: Queue(a, key) <= Queue(b, key)
  }

  lemma CallOkPersists(bases: Bases, book: Book, handed: Queues, book': Book, handed': Queues, call: Call)
    requires CallOk(bases, book, handed, call) && Extends(book, book') && Grows(handed, handed')
    ensures CallOk(bases, book', handed', call)
  {
    if call.source.Some? {
      assert Queue(handed, call.source.value.0) <= Queue(handed', call.source.value.0);
    }
    if call.phase.Planned? {
      PlansPersist(book, book', call.phase.plan);
    }
    if call.charge.Some? {
      ChargesPersist(book, book', call.charge.value, call.request.order.orderId);
      var response := Carried(call.phase);
      if NamesItsPlan(bases, book, call.charge.value, response) {
        ChargedForPersists(book, book', call.charge.value, response.value.data.subscriptionId);
      }
    }
  }

  /** The request a step is about, if any. */
  function Actor(e: Event): Option<nat> {
    match e
    case Authorize(i) => Some(i)
    case Pick(i) => Some(i)
    case MakePlan(i, _, _) => Some(i)
    case RecordCharge(i, _, _) => Some(i)
    case AnswerOther(i, _, _) => Some(i)
    case CheckHung(i) => Some(i)
    case Write(i) => Some(i)
    case _ => None
  }

  lemma StepFrame(bases: Bases, s: State, e: Event)
    requires Enabled(s, e)
    ensures var t := Step(bases, s, e);
            && |s.calls| <= |t.calls|
            && (forall i :: 0 <= i < |s.calls| && Actor(e) != Some(i) ==> t.calls[i] == s.calls[i])
            && (forall i :: |s.calls| <= i < |t.calls| ==> e.Arrive? && t.calls[i] == Call(e.request, Arrived, None, None))
            && (Actor(e).Some? ==> Actor(e).value < |s.calls|)
  {
  }

  lemma StepGrows(bases: Bases, s: State, e: Event)
    requires Enabled(s, e)
    ensures Grows(s.handed, Step(bases, s, e).handed)
  {
  }

  /** What a step does to the book. */
  function OpOf(bases: Bases, s: State, e: Event): Option<Op>
    requires Enabled(s, e)
  {
    match e
    case MakePlan(i, now, next) => Some(AddPlan(s.calls[i].request.order, now, next))
    case RecordCharge(i, card, now) =>
      var phase := s.calls[i].phase;
      Some(AddCharge(s.calls[i].request.order.(action := if phase.Planned? then "subscription" else "onetime"), card,
                     if phase.Planned? then Some(phase.plan) else None, now))
    case AnswerOther(i, _, now) =>
      (match RouteOf(s.calls[i])
       case Refund(id) => Some(Ledger.Refund(id, s.calls[i].request.order.amount, s.calls[i].request.reason, now))
       case CancelSubscription(id) => Some(Cancel(id, s.calls[i].request.reason, now))
       case _ => None)
    case _ => None
  }

  lemma StepBook(bases: Bases, s: State, e: Event)
    requires Enabled(s, e)
    ensures Step(bases, s, e).book ==
            if OpOf(bases, s, e).Some? then Apply(bases, s.book, OpOf(bases, s, e).value) else s.book
  {
  }

  lemma StepExtends(bases: Bases, s: State, e: Event)
    requires Enabled(s, e)
    ensures Extends(s.book, Step(bases, s, e).book)
  {
    StepBook(bases, s, e);
    if OpOf(bases, s, e).Some? {
      ApplyExtends(bases, s.book, OpOf(bases, s, e).value);
    }
  }

  lemma PickedCallOk(bases: Bases, s: State, i: nat)
    requires i < |s.calls| && s.calls[i].phase.Admitted? && s.calls[i].source.None?
    requires CallOk(bases, s.book, s.handed, s.calls[i])
    ensures CallOk(bases, s.book, PickStep(s, i).handed, PickStep(s, i).calls[i])
  {
    hide Routes.LookupKeys, Routes.RouteOf, FirstReady, Holds, PlanExists;
  }

  lemma RecordedCallOk(bases: Bases, s: State, e: Event)
    requires e.RecordCharge? && Enabled(s, e) && WellNumbered(bases, s.book)
    requires CallOk(bases, s.book, s.handed, s.calls[e.call])
    ensures var t := Step(bases, s, e); CallOk(bases, t.book, t.handed, t.calls[e.call])
  {
    var t := Step(bases, s, e);
    var n := |s.book.charges|;
    if s.calls[e.call].phase.Planned? {
      PlansPersist(s.book, t.book, s.calls[e.call].phase.plan);
      assert t.book.charges[n].subscriptionId == Some(s.calls[e.call].phase.plan);
    }
    assert t.book.charges[n].id == t.calls[e.call].charge.value;
    assert t.book.charges[n].orderId == t.calls[e.call].request.order.orderId;
  }

  lemma PlannedCallOk(bases: Bases, s: State, e: Event)
    requires e.MakePlan? && Enabled(s, e)
    requires CallOk(bases, s.book, s.handed, s.calls[e.call])
    ensures var t := Step(bases, s, e); CallOk(bases, t.book, t.handed, t.calls[e.call])
  {
    var t := Step(bases, s, e);
    assert t.book.plans[|s.book.plans|].id == t.calls[e.call].phase.plan;
  }

  lemma ActorOk(bases: Bases, s: State, e: Event)
    requires Enabled(s, e) && WellNumbered(bases, s.book) && Deliveries(s) && Actor(e).Some?
    requires CallOk(bases, s.book, s.handed, s.calls[Actor(e).value])
    ensures var t := Step(bases, s, e); CallOk(bases, t.book, t.handed, t.calls[Actor(e).value])
  {
    hide Routes.LookupKeys, Routes.RouteOf;
    match e
    case Pick(i) => PickedCallOk(bases, s, i);
    case RecordCharge(_, _, _) => RecordedCallOk(bases, s, e);
    case MakePlan(_, _, _) => PlannedCallOk(bases, s, e);
    case AnswerOther(i, _, _) =>
      StepExtends(bases, s, e);
    case CheckHung(i) =>
    case Write(i) =>
    case Authorize(i) =>
  }

  lemma StepKeepsCalls(bases: Bases, s: State, e: Event)
    requires Enabled(s, e) && WellNumbered(bases, s.book) && Deliveries(s) && CallsOk(bases, s)
    ensures CallsOk(bases, Step(bases, s, e))
  {
    var t := Step(bases, s, e);
    StepFrame(bases, s, e);
    StepExtends(bases, s, e);
    StepGrows(bases, s, e);
    forall i | 0 <= i < |t.calls| ensures CallOk(bases, t.book, t.handed, t.calls[i]) {
      if Actor(e) == Some(i) {
        ActorOk(bases, s, e);
      } else if i < |s.calls| {
        CallOkPersists(bases, s.book, s.handed, t.book, t.handed, s.calls[i]);
      }
    }
  }

  /** A new charge is nobody else's. */
  lemma NewChargeIsOwn(bases: Bases, s: State, i: nat)
    requires WellNumbered(bases, s.book) && CallsOk(bases, s)
    requires i < |s.calls| && s.calls[i].charge.Some?
    ensures s.calls[i].charge.value != Numbered(bases.transactionHID, |s.book.charges| + 1)
  {
    assert CallOk(bases, s.book, s.handed, s.calls[i]);
    var k :| 0 <= k < |s.book.charges| && s.book.charges[k].id == s.calls[i].charge.value;
    NumberedIsInjective(bases.transactionHID, k + 1, |s.book.charges| + 1);
  }

  lemma RecordedCharge(bases: Bases, s: State, e: Event)
    requires e.RecordCharge? && Enabled(s, e)
    ensures Step(bases, s, e).calls[e.call].charge == Some(Numbered(bases.transactionHID, |s.book.charges| + 1))
  {
  }

  lemma StepKeepsOwnCharges(bases: Bases, s: State, e: Event)
    requires Enabled(s, e) && WellNumbered(bases, s.book) && CallsOk(bases, s) && OwnCharges(s)
    ensures OwnCharges(Step(bases, s, e))
  {
    hide Step, CallsOk;
    StepFrame(bases, s, e);
    if e.RecordCharge? {
      RecordedCharge(bases, s, e);
      forall i: nat | i < |s.calls| && s.calls[i].charge.Some?
        ensures s.calls[i].charge.value != Numbered(bases.transactionHID, |s.book.charges| + 1)
      {
        NewChargeIsOwn(bases, s, i);
      }
    } else {
      ChargesAreKept(bases, s, e);
    }
  }

  lemma ChargesAreKept(bases: Bases, s: State, e: Event)
    requires Enabled(s, e) && !e.RecordCharge?
    ensures forall i :: 0 <= i < |s.calls| ==> Step(bases, s, e).calls[i].charge == s.calls[i].charge
  {
  }

  // ----- Every reachable state

  ghost predicate Inv(bases: Bases, s: State) {
    && WellNumbered(bases, s.book)
    && NamesPlans(s.book)
    && QueuesAdd(s)
    && Deliveries(s)
    && Delivered(s)
    && CallsOk(bases, s)
    && OwnCharges(s)
  }

  lemma StepKeepsBook(bases: Bases, s: State, e: Event)
    requires Enabled(s, e) && WellNumbered(bases, s.book) && NamesPlans(s.book) && CallsOk(bases, s)
    ensures WellNumbered(bases, Step(bases, s, e).book) && NamesPlans(Step(bases, s, e).book)
  {
    StepBook(bases, s, e);
    if OpOf(bases, s, e).Some? {
      if e.RecordCharge? {
        assert CallOk(bases, s.book, s.handed, s.calls[e.call]);
      }
      ApplyKeepsNumbering(bases, s.book, OpOf(bases, s, e).value);
      NamesPlansKept(bases, s.book, OpOf(bases, s, e).value);
    }
  }

  lemma StepKeepsInv(bases: Bases, s: State, e: Event)
    requires Enabled(s, e) && Inv(bases, s)
    ensures Inv(bases, Step(bases, s, e))
  {
    hide WellNumbered, NamesPlans, QueuesAdd, Deliveries, Delivered, CallsOk, OwnCharges, Step;
    StepKeepsBook(bases, s, e);
    StepKeepsQueues(bases, s, e);
    StepKeepsDeliveries(bases, s, e);
    StepKeepsCalls(bases, s, e);
    StepKeepsOwnCharges(bases, s, e);
  }

  /** The invariant holds after every run, whatever the interleaving. */
  lemma {:induction false} RunKeepsInv(bases: Bases, s: State, events: seq<Event>)
    requires IsRun(bases, s, events) && Inv(bases, s)
    ensures Inv(bases, After(bases, s, events))
    decreases |events|
  {
    hide Inv, Step;
    if events != [] {
      StepKeepsInv(bases, s, events[0]);
      RunKeepsInv(bases, Step(bases, s, events[0]), events[1..]);
    }
  }

  lemma InitialInv(bases: Bases)
    ensures Inv(bases, INITIAL)
  {
  }

  /** In every reachable state: for every key, the responses handed out followed by
      those still waiting are the responses filed, in order; each was handed to one
      request and no two requests share one; and every charge that names a
      subscription names one that exists. */
  lemma QueuedResponsesAreDelivered(bases: Bases, events: seq<Event>)
    requires IsRun(bases, INITIAL, events)
    ensures var s := After(bases, INITIAL, events);
            && (forall key :: Queue(s.handed, key) + Queue(s.queues, key) == Queue(s.filed, key))
            && (forall key, n: nat :: n < |Queue(s.handed, key)| ==> HasOwner(s, key, n))
            && (forall i, j :: 0 <= i < j < |s.calls| && s.calls[i].source.Some? ==> s.calls[i].source != s.calls[j].source)
            && NamesPlans(s.book)
  {
    InitialInv(bases);
    RunKeepsInv(bases, INITIAL, events);
  }

  /** A request that has been answered was answered with the very response it was
      handed, if it was handed one. */
  lemma AnsweredWithItsOwn(bases: Bases, events: seq<Event>, i: nat)
    requires IsRun(bases, INITIAL, events) && i < |After(bases, INITIAL, events).calls|
    ensures var s := After(bases, INITIAL, events); var call := s.calls[i];
            call.phase.Sent? && call.source.Some? ==>
              var (key, n) := call.source.value;
              n < |Queue(s.filed, key)| && call.phase.response == Queue(s.filed, key)[n]
  {
    var s := After(bases, INITIAL, events);
    InitialInv(bases);
    RunKeepsInv(bases, INITIAL, events);
    var call := s.calls[i];
    assert CallOk(bases, s.book, s.handed, call);
    if call.source.Some? {
      var key := call.source.value.0;
      assert Queue(s.handed, key) + Queue(s.queues, key) == Queue(s.filed, key);
    }
  }

  // ----- A hung endpoint answers nothing

  function KeysOf(call: Call): seq<string> {
    Routes.LookupKeys(call.request.method_, call.request.path)
  }

  predicate StaysHung(events: seq<Event>, key: string) {
    forall i :: 0 <= i < |events| && events[i].Unhang? ==> Routes.NormalizeKey(events[i].endpoint) != key
  }

  /** The request still has its check of the token before it, and will fail it. */
  predicate WillBeRefused(s: State, i: nat)
    requires i < |s.calls|
  {
    s.checkToken && s.calls[i].phase.Arrived? && !s.calls[i].request.bearer
  }

  /** From one state to a later one, whatever answer was decided for a request to the
      endpoint was decided before, or refuses a bad token. */
  predicate CallStaysSilent(s: State, t: State, key: string, i: nat)
    requires i < |t.calls|
  {
    var after := t.calls[i];
    && (i < |s.calls| ==>
          && s.calls[i].request == after.request
          && (after.phase.Arrived? ==> s.calls[i].phase.Arrived?))
    && (key in KeysOf(after) && Answering(after.phase) ==>
          || (i < |s.calls| && Answering(s.calls[i].phase) && s.calls[i].phase.response == after.phase.response)
          || (&& s.checkToken && !after.request.bearer && after.phase.response == UNAUTHORIZED
              && (i < |s.calls| ==> s.calls[i].phase.Arrived?)))
  }

  predicate StaysSilent(s: State, t: State, key: string) {
    && |s.calls| <= |t.calls|
    && (t.checkToken ==> s.checkToken)
    && forall i :: 0 <= i < |t.calls| ==> CallStaysSilent(s, t, key, i)
  }

  lemma SilenceIsTransitive(s: State, t: State, u: State, key: string)
    requires StaysSilent(s, t, key) && StaysSilent(t, u, key)
    ensures StaysSilent(s, u, key)
  {
    forall i | 0 <= i < |u.calls| ensures CallStaysSilent(s, u, key, i) {
      assert CallStaysSilent(t, u, key, i);
      if i < |t.calls| {
        assert CallStaysSilent(s, t, key, i);
      }
    }
  }

  lemma StepStaysSilent(bases: Bases, s: State, e: Event, key: string)
    requires Enabled(s, e) && key in s.blocked
    requires e.Unhang? ==> Routes.NormalizeKey(e.endpoint) != key
    ensures key in Step(bases, s, e).blocked && StaysSilent(s, Step(bases, s, e), key)
  {
    var t := Step(bases, s, e);
    StepFrame(bases, s, e);
    forall i | 0 <= i < |t.calls| ensures CallStaysSilent(s, t, key, i) {
      if Actor(e) == Some(i) {
        ActorStaysSilent(bases, s, e, key);
      }
    }
  }

  /** Only Authorize and CheckHung decide on an answer, and CheckHung looks at what is hung. */
  lemma ActorStaysSilent(bases: Bases, s: State, e: Event, key: string)
    requires Enabled(s, e) && Actor(e).Some? && key in s.blocked
    ensures var i := Actor(e).value;
            i < |s.calls| && i < |Step(bases, s, e).calls| && CallStaysSilent(s, Step(bases, s, e), key, i)
  {
    hide Routes.LookupKeys, Routes.RouteOf, FirstReady, Apply, OtherEffect;
  }

  lemma {:induction false} RunStaysSilent(bases: Bases, s: State, events: seq<Event>, key: string)
    requires IsRun(bases, s, events) && key in s.blocked && StaysHung(events, key)
    ensures StaysSilent(s, After(bases, s, events), key)
    decreases |events|
  {
    hide Step;
    if events != [] {
      hide StaysSilent;
      var t := Step(bases, s, events[0]);
      StepStaysSilent(bases, s, events[0], key);
      assert forall i :: 0 <= i < |events[1..]| ==> events[1..][i] == events[i + 1];
      RunStaysSilent(bases, t, events[1..], key);
      SilenceIsTransitive(s, t, After(bases, s, events), key);
    }
  }

  /** As long as an endpoint is hung, whatever is queued for it and whatever else happens:
      a request it covers is answered only if it was past its check when the endpoint
      hung, and then as decided there, or if it bears a bad token. */
  lemma HungEndpointIsSilent(bases: Bases, s: State, events: seq<Event>, key: string, i: nat)
    requires IsRun(bases, s, events) && key in s.blocked && StaysHung(events, key)
    requires i < |After(bases, s, events).calls| && key in KeysOf(After(bases, s, events).calls[i])
    ensures var after := After(bases, s, events).calls[i];
            after.phase.Sent? ==>
              || (i < |s.calls| && Answering(s.calls[i].phase) && s.calls[i].phase.response == after.phase.response)
              || (s.checkToken && !after.request.bearer && after.phase.response == UNAUTHORIZED)
  {
    RunStaysSilent(bases, s, events, key);
    assert CallStaysSilent(s, After(bases, s, events), key, i);
  }

  ghost predicate AnsweredIn(bases: Bases, s: State, events: seq<Event>, i: nat) {
    IsRun(bases, s, events) && i < |After(bases, s, events).calls| && After(bases, s, events).calls[i].phase.Sent?
  }

  /** Of the requests that are under way when an endpoint hangs, exactly those past their
      check, and those about to fail on a bad token, can still be answered. */
  lemma AnsweredWhileHungExactly(bases: Bases, s: State, key: string, i: nat)
    requires key in s.blocked && i < |s.calls| && key in KeysOf(s.calls[i])
    ensures (exists events :: StaysHung(events, key) && AnsweredIn(bases, s, events, i)) <==>
            Answering(s.calls[i].phase) || WillBeRefused(s, i)
  {
    if events :| StaysHung(events, key) && AnsweredIn(bases, s, events, i) {
      RunStaysSilent(bases, s, events, key);
      assert CallStaysSilent(s, After(bases, s, events), key, i);
    }
    if s.calls[i].phase.Sent? {
      assert StaysHung([], key) && AnsweredIn(bases, s, [], i);
    } else if s.calls[i].phase.Writing? {
      WriteAnswers(bases, s, i);
      assert StaysHung([Write(i)], key);
    } else if WillBeRefused(s, i) {
      var t := Step(bases, s, Authorize(i));
      WriteAnswers(bases, t, i);
      var events := [Authorize(i), Write(i)];
      assert events[1..] == [Write(i)];
      assert StaysHung(events, key) && AnsweredIn(bases, s, events, i);
    }
  }

  lemma WriteAnswers(bases: Bases, s: State, i: nat)
    requires i < |s.calls| && s.calls[i].phase.Writing?
    ensures AnsweredIn(bases, s, [Write(i)], i)
  {
    var events := [Write(i)];
    assert events[1..] == [];
    assert IsRun(bases, Step(bases, s, Write(i)), []);
  }

  // ----- No settled refusal hides a charge

  /** Responses that record a charge come from ChargeThenFail alone, with a status
      from 200 to 599. */
  predicate Tame(response: Response) {
    response.recordCharge ==> 200 <= response.status <= 599 && response == ChargeThenFail(response.status)
  }

  predicate TameEvents(events: seq<Event>) {
    forall i :: 0 <= i < |events| && events[i].QueueResponse? ==>
      forall j :: 0 <= j < |events[i].responses| ==> Tame(events[i].responses[j])
  }

  ghost predicate TameQueues(queues: Queues) {
    forall key, n :: 0 <= n < |Queue(queues, key)| ==> Tame(Queue(queues, key)[n])
  }

  lemma TameFiling(filed: Queues, key: string, responses: seq<Response>)
    requires TameQueues(filed) && forall j :: 0 <= j < |responses| ==> Tame(responses[j])
    ensures TameQueues(Enqueue(filed, key, responses))
  {
    var after := Enqueue(filed, key, responses);
    forall other, n | 0 <= n < |Queue(after, other)| ensures Tame(Queue(after, other)[n]) {
      if other == key && n >= |Queue(filed, key)| {
        assert Queue(after, key)[n] == responses[n - |Queue(filed, key)|];
      } else {
        assert Queue(after, other)[n] == Queue(filed, other)[n];
      }
    }
  }

  lemma StepFiles(bases: Bases, s: State, e: Event)
    requires Enabled(s, e)
    ensures Step(bases, s, e).filed ==
            if e.QueueResponse? then Enqueue(s.filed, Routes.NormalizeKey(e.endpoint), e.responses) else s.filed
  {
  }

  lemma {:induction false} TameRun(bases: Bases, s: State, events: seq<Event>)
    requires IsRun(bases, s, events) && TameQueues(s.filed) && TameEvents(events)
    ensures TameQueues(After(bases, s, events).filed)
    decreases |events|
  {
    hide Step, TameQueues;
    if events != [] {
      var e, rest := events[0], events[1..];
      StepFiles(bases, s, e);
      if e.QueueResponse? {
        TameFiling(s.filed, Routes.NormalizeKey(e.endpoint), e.responses);
      }
      forall i | 0 <= i < |rest| && rest[i].QueueResponse?
        ensures forall j :: 0 <= j < |rest[i].responses| ==> Tame(rest[i].responses[j])
      {
        assert rest[i] == events[i + 1];
      }
      TameRun(bases, Step(bases, s, e), rest);
    }
  }

  /** What the client may see of a request: what was written, or only its status,
      or nothing. A request that is unanswered or dropped shows nothing. */
  predicate MayReceive(call: Call, answer: Answer) {
    || answer == Lost
    || (call.phase.Sent?
        && (|| answer == Written(call.phase.response)
            || (CanBeSent(call.phase.response.status) && answer == Unreadable(FinalStatus(call.phase.response.status)))))
  }

  /** A charge that is reported as failed never looks settled. */
  lemma FailedChargeIsUnknown(status: int, answer: Answer)
    requires 200 <= status <= 599
    requires answer in {Lost, Unreadable(status), Written(ChargeThenFail(status))}
    ensures ChargeToken(answer).Failed? && Is(ChargeToken(answer).err, UnknownOutcome)
    ensures SubscribeToken(answer).Failed? && Is(SubscribeToken(answer).err, UnknownOutcome)
  {
    hide ChargeToken, SubscribeToken, SettlingCode, TrimSpace;
    RefusedExactly(answer);
    SuccessCode();
    KindOfSettlingCode("S0000");
    if ChargeToken(answer).Done? {
      ChargedExactly(answer, ChargeToken(answer).value);
    }
    if SubscribeToken(answer).Done? {
      SubscribedExactly(answer, SubscribeToken(answer).value.0, SubscribeToken(answer).value.1);
    }
  }

  lemma SuccessCode()
    ensures TrimSpace("S0000") == "S0000" && NormalizeCode("S0000") == "S0000"
  {
  }

  lemma FieldOf(fields: map<string, Json>, name: string, text: string)
    requires name in fields && fields[name] == Str(text) && Trimmed(text)
    requires forall key :: key in fields && EqualFold(key, name) ==> key == name
    ensures DataField(Obj(fields), name) == text
  {
    TrimSpaceTrims(text);
    assert EqualFold(name, name);
  }

  /** A charge that is reported names the transaction. */
  lemma ReportedChargeIsNamed(id: string, authCode: string)
    requires id != "" && Trimmed(id)
    ensures ChargeToken(Written(Success(ChargeData(id, authCode)))) == Done(id)
  {
    SuccessCode();
    var fields := Rendered(ChargeData(id, authCode)).fields;
    assert |"authCode"| != |"id"|;
    FieldOf(fields, "id", id);
  }

  /** And one that is reported for a subscription names both. */
  lemma ReportedPlanIsNamed(plan: string, id: string, authCode: string)
    requires plan != "" && Trimmed(plan) && Trimmed(id)
    ensures SubscribeToken(Written(Success(PlanData(plan, id, authCode)))) == Done((plan, id))
  {
    SuccessCode();
    var fields := Rendered(PlanData(plan, id, authCode)).fields;
    assert |"authCode"| == 8 && |"transactionId"| == 13 && |"subscriptionId"| == 14;
    FieldOf(fields, "subscriptionId", plan);
    FieldOf(fields, "transactionId", id);
  }

  lemma NumberedIsTrimmed(base: string, n: nat)
    requires base != "" && Trimmed(base)
    ensures Numbered(base, n) != "" && Trimmed(Numbered(base, n))
  {
  }

  ghost predicate Unknown<T>(result: Result<T>) {
    result.Failed? && Is(result.err, UnknownOutcome)
  }

  predicate RecordsCharges(call: Call) {
    RouteOf(call).TokenCharge? || RouteOf(call).TokenSubscription?
  }

  /** The client call that sent the request ends in a settled refusal. */
  ghost predicate EndsRefused(call: Call, answer: Answer) {
    if RouteOf(call).TokenCharge? then SettledRefusal(ChargeToken(answer)) else SettledRefusal(SubscribeToken(answer))
  }

  /** A response that the client takes for a settled refusal: a settling code in a body that
      can be read, the final status being 2xx, or 4xx other than 429. */
  predicate Refuses(response: Response) {
    var status := FinalStatus(response.status);
    && (200 <= status < 300 || 400 <= status < 500) && status != 204 && status != 429
    && match response.body
       case None => SettlingCode(response.code)
       case Some(Garbage) => false
       case Some(Literal(env)) => SettlingCode(RawString(env.code))
  }

  /** Trimming a code first changes nothing, and no code counts as a success. */
  lemma SentCode(code: string)
    ensures SettlingCode(RawString(Str(if code == "" then "S0000" else code))) <==> SettlingCode(code)
  {
    TrimSpaceTrims(code);
    TrimSpaceTrims(TrimSpace(code));
    SuccessCode();
    KindOfSettlingCode("S0000");
    KindOfSettlingCode("");
  }

  lemma RefusesExactly(response: Response)
    ensures RefusalArrived(Written(response)) <==> Refuses(response)
  {
    hide SettlingCode, RawString, Rendered;
    SentCode(response.code);
  }

  lemma RefusedCharge(bases: Bases, s: State, call: Call, answer: Answer)
    requires CallOk(bases, s.book, s.handed, call)
    requires RecordsCharges(call) && call.charge.Some? && MayReceive(call, answer)
    ensures EndsRefused(call, answer) <==>
            && call.phase.Sent? && call.source.Some?
            && answer == Written(call.phase.response) && Refuses(call.phase.response)
  {
    RefusedExactly(answer);
    if answer.Decoded? {
      RefusesExactly(call.phase.response);
      SuccessCode();
      KindOfSettlingCode("S0000");
    }
  }

  lemma ChargeOutcome(bases: Bases, s: State, call: Call, answer: Answer)
    requires bases.transactionHID != "" && Trimmed(bases.transactionHID)
    requires WellNumbered(bases, s.book) && QueuesAdd(s) && TameQueues(s.filed) && CallOk(bases, s.book, s.handed, call)
    requires RouteOf(call).TokenCharge? && call.charge.Some? && MayReceive(call, answer)
    ensures ChargeToken(answer) == Done(call.charge.value) || Unknown(ChargeToken(answer))
  {
    RecordedIsFound(bases, s.book, call);
    RefusedCharge(bases, s, call, answer);
    if answer != Lost {
      if call.source.Some? {
        HandedIsTame(s, call);
        FailedChargeIsUnknown(call.phase.response.status, answer);
      } else {
        ReportedChargeIsNamed(call.charge.value, bases.authCode);
      }
    }
  }

  /** The subscription and the charge that were reported are those that were made. */
  ghost predicate ReportsPlan(book: Book, result: Result<(string, string)>, charge: string) {
    result.Done? && result.value.1 == charge && ChargedFor(book, charge, result.value.0)
  }

  lemma PlanIsTrimmed(bases: Bases, book: Book, plan: string)
    requires bases.subscriptionID != "" && Trimmed(bases.subscriptionID)
    requires WellNumbered(bases, book) && PlanExists(book, plan)
    ensures plan != "" && Trimmed(plan)
  {
    var k :| 0 <= k < |book.plans| && book.plans[k].id == plan;
    NumberedIsTrimmed(bases.subscriptionID, k + 1);
  }

  lemma PlanOutcome(bases: Bases, s: State, call: Call, answer: Answer)
    requires bases.transactionHID != "" && Trimmed(bases.transactionHID)
    requires bases.subscriptionID != "" && Trimmed(bases.subscriptionID)
    requires WellNumbered(bases, s.book) && QueuesAdd(s) && TameQueues(s.filed) && CallOk(bases, s.book, s.handed, call)
    requires RouteOf(call).TokenSubscription? && call.charge.Some? && MayReceive(call, answer)
    ensures ReportsPlan(s.book, SubscribeToken(answer), call.charge.value) || Unknown(SubscribeToken(answer))
  {
    hide WellNumbered, QueuesAdd, TameQueues, ChargeToken;
    RecordedIsFound(bases, s.book, call);
    RefusedCharge(bases, s, call, answer);
    if answer != Lost {
      if call.source.Some? {
        HandedIsTame(s, call);
        FailedChargeIsUnknown(call.phase.response.status, answer);
      } else {
        var plan := call.phase.response.data.subscriptionId;
        PlanIsTrimmed(bases, s.book, plan);
        ReportedPlanIsNamed(plan, call.charge.value, bases.authCode);
      }
    }
  }

  lemma ReachableCall(bases: Bases, events: seq<Event>, i: nat)
    requires IsRun(bases, INITIAL, events) && i < |After(bases, INITIAL, events).calls|
    ensures var s := After(bases, INITIAL, events);
            WellNumbered(bases, s.book) && QueuesAdd(s) && CallOk(bases, s.book, s.handed, s.calls[i])
  {
    InitialInv(bases);
    RunKeepsInv(bases, INITIAL, events);
  }

  /** In every interleaving: a ChargeToken call whose charge was recorded ends in success,
      naming that charge, or in an error that matches ErrUnknownOutcome; and the
      order then shows the charge exactly once. */
  lemma NoRefusalHidesACharge(bases: Bases, events: seq<Event>, i: nat, answer: Answer)
    requires bases.transactionHID != "" && Trimmed(bases.transactionHID)
    requires IsRun(bases, INITIAL, events) && TameEvents(events)
    requires i < |After(bases, INITIAL, events).calls|
    requires var call := After(bases, INITIAL, events).calls[i];
             RouteOf(call).TokenCharge? && call.charge.Some? && MayReceive(call, answer)
    ensures var s := After(bases, INITIAL, events); var call := s.calls[i];
            && (ChargeToken(answer) == Done(call.charge.value) || Unknown(ChargeToken(answer)))
            && Count(OfOrder(s.book.charges, call.request.order.orderId), call.charge.value) == 1
  {
    hide IsRun, After, TameQueues, QueuesAdd, WellNumbered, CarriesItsOwn, MayReceive, ChargeToken, OfOrder, Count;
    var s := After(bases, INITIAL, events);
    ReachableCall(bases, events, i);
    TameInitially();
    TameRun(bases, INITIAL, events);
    ChargeOutcome(bases, s, s.calls[i], answer);
    RecordedIsFound(bases, s.book, s.calls[i]);
  }

  /** The same for SubscribeToken, over its two locked sections: a call whose first charge
      was recorded names the subscription that was made and that charge, or matches
      ErrUnknownOutcome. */
  lemma NoRefusalHidesASubscription(bases: Bases, events: seq<Event>, i: nat, answer: Answer)
    requires bases.transactionHID != "" && Trimmed(bases.transactionHID)
    requires bases.subscriptionID != "" && Trimmed(bases.subscriptionID)
    requires IsRun(bases, INITIAL, events) && TameEvents(events)
    requires i < |After(bases, INITIAL, events).calls|
    requires var call := After(bases, INITIAL, events).calls[i];
             RouteOf(call).TokenSubscription? && call.charge.Some? && MayReceive(call, answer)
    ensures var s := After(bases, INITIAL, events); var call := s.calls[i];
            && (ReportsPlan(s.book, SubscribeToken(answer), call.charge.value) || Unknown(SubscribeToken(answer)))
            && Count(OfOrder(s.book.charges, call.request.order.orderId), call.charge.value) == 1
  {
    hide IsRun, After, TameQueues, QueuesAdd, WellNumbered, CarriesItsOwn, MayReceive, SubscribeToken, OfOrder, Count;
    var s := After(bases, INITIAL, events);
    ReachableCall(bases, events, i);
    TameInitially();
    TameRun(bases, INITIAL, events);
    PlanOutcome(bases, s, s.calls[i], answer);
    RecordedIsFound(bases, s.book, s.calls[i]);
  }

  lemma TameInitially()
    ensures TameQueues(INITIAL.filed)
  {
  }

  /** A request that recorded a charge for a queued response answers with a failed charge. */
  lemma HandedIsTame(s: State, call: Call)
    requires TameQueues(s.filed) && QueuesAdd(s) && CarriesItsOwn(s.handed, call)
    requires call.source.Some? && call.charge.Some? && call.phase.Sent?
    ensures 200 <= call.phase.response.status <= 599
    ensures call.phase.response == ChargeThenFail(call.phase.response.status)
  {
    var (key, n) := call.source.value;
    assert Queue(s.handed, key) + Queue(s.queues, key) == Queue(s.filed, key);
    assert Tame(Queue(s.filed, key)[n]);
  }

  lemma RecordedIsFound(bases: Bases, book: Book, call: Call)
    requires bases.transactionHID != "" && Trimmed(bases.transactionHID)
    requires WellNumbered(bases, book) && BookedItsOwn(bases, book, call) && call.charge.Some?
    ensures Count(OfOrder(book.charges, call.request.order.orderId), call.charge.value) == 1
    ensures call.charge.value != "" && Trimmed(call.charge.value)
  {
    IdentifiersAreDistinct(bases, book);
    var k :| 0 <= k < |book.charges| && book.charges[k].id == call.charge.value
             && book.charges[k].orderId == call.request.order.orderId;
    FoundExactlyOnce(book.charges, k);
    NumberedIsTrimmed(bases.transactionHID, k + 1);
  }

  /** Without that condition on the queued responses, in every interleaving: a ChargeToken or
      SubscribeToken call whose charge was recorded ends in a settled refusal exactly if it was handed a
      queued response that refuses, and all of it arrived. The order shows the charge
      all the same. */
  lemma ScriptedRefusalHidesACharge(bases: Bases, events: seq<Event>, i: nat, answer: Answer)
    requires bases.transactionHID != "" && Trimmed(bases.transactionHID)
    requires IsRun(bases, INITIAL, events) && i < |After(bases, INITIAL, events).calls|
    requires var call := After(bases, INITIAL, events).calls[i];
             RecordsCharges(call) && call.charge.Some? && MayReceive(call, answer)
    ensures var s := After(bases, INITIAL, events); var call := s.calls[i];
            && (EndsRefused(call, answer) <==>
                  && call.phase.Sent? && call.source.Some?
                  && answer == Written(call.phase.response) && Refuses(call.phase.response))
            && Count(OfOrder(s.book.charges, call.request.order.orderId), call.charge.value) == 1
  {
    hide IsRun, After, QueuesAdd, WellNumbered, CarriesItsOwn, MayReceive, Refuses, OfOrder, Count, EndsRefused;
    var s := After(bases, INITIAL, events);
    ReachableCall(bases, events, i);
    RefusedCharge(bases, s, s.calls[i], answer);
    RecordedIsFound(bases, s.book, s.calls[i]);
  }

  // ----- Which queued responses can hide a charge

  /** After the run, a token charge has been recorded for this queued response and the
      caller was told that it was refused. */
  ghost predicate HiddenIn(bases: Bases, events: seq<Event>, response: Response) {
    && IsRun(bases, INITIAL, events)
    && var calls := After(bases, INITIAL, events).calls;
       exists i :: 0 <= i < |calls| && HidesItsCharge(calls[i], response)
  }

  ghost predicate HidesItsCharge(call: Call, response: Response) {
    && RouteOf(call).TokenCharge? && call.charge.Some?
    && call.source.Some? && call.phase == Sent(response)
    && SettledRefusal(ChargeToken(Written(response)))
  }

  const CHARGE_PATH := "/token/transactions"

  /** One charge that is handed the response, from its arrival to its answer. */
  function OneCharge(order: Order, response: Response): seq<Event> {
    [QueueResponse(CHARGE_PATH, [response]), Arrive(Request("POST", CHARGE_PATH, true, order, "")),
     Authorize(0), Pick(0), RecordCharge(0, None, ""), CheckHung(0), Write(0)]
  }

  lemma ChargePathIsItsKey()
    ensures Routes.NormalizeKey(CHARGE_PATH) == CHARGE_PATH
  {
    hide Routes.NormalizeKey;
    Routes.PlainPathIsItsKey(CHARGE_PATH);
  }

  lemma ChargePathIsAChargeRoute()
    ensures Routes.RouteOf("POST", CHARGE_PATH).TokenCharge?
  {
  }

  lemma FirstReadyIsSecond(queues: Queues, keys: seq<string>)
    requires |keys| > 1 && keys[0] != keys[1] && queues.Keys == {keys[1]} && queues[keys[1]] != []
    ensures FirstReady(queues, keys) == Some(keys[1])
  {
    assert FirstReady(queues, keys[1..]) == Some(keys[1]);
  }

  lemma RunStarts(bases: Bases, s: State, e: Event, rest: seq<Event>)
    requires Enabled(s, e) && IsRun(bases, Step(bases, s, e), rest)
    ensures IsRun(bases, s, [e] + rest) && After(bases, s, [e] + rest) == After(bases, Step(bases, s, e), rest)
  {
    assert ([e] + rest)[1..] == rest;
  }

  /** The only queued response is handed to the request. */
  lemma PicksTheOne(s: State, call: Call, path: string, response: Response)
    requires call.request.path == path && response.recordCharge
    requires s.calls == [call] && s.queues == map[path := [response]] && s.handed == map[]
    ensures PickStep(s, 0).calls == [call.(phase := Picked(Some(response)), source := Some((path, 0)))]
    ensures PickStep(s, 0).blocked == s.blocked
  {
    hide Routes.RouteKey;
    var keys := Routes.LookupKeys(call.request.method_, path);
    assert |keys[0]| > |path|;
    FirstReadyIsSecond(s.queues, keys);
  }

  /** From there to the answer. */
  lemma AnswersTheOne(bases: Bases, s: State, call: Call, response: Response)
    requires s.calls == [call] && call.phase == Picked(Some(response)) && RouteOf(call).TokenCharge?
    requires s.blocked == {} && !response.block
    ensures var events := [RecordCharge(0, None, ""), CheckHung(0), Write(0)];
            && IsRun(bases, s, events)
            && var calls := After(bases, s, events).calls;
               |calls| == 1 && calls[0].charge.Some? && calls[0] == call.(phase := Sent(response), charge := calls[0].charge)
  {
    hide Routes.LookupKeys, Routes.RouteOf, Apply, Numbered;
    var t := Step(bases, s, RecordCharge(0, None, ""));
    var u := Step(bases, t, CheckHung(0));
    RunStarts(bases, u, Write(0), []);
    RunStarts(bases, t, CheckHung(0), [Write(0)]);
    RunStarts(bases, s, RecordCharge(0, None, ""), [CheckHung(0), Write(0)]);
    assert [RecordCharge(0, None, "")] + [CheckHung(0), Write(0)] == [RecordCharge(0, None, ""), CheckHung(0), Write(0)];
  }

  /** The first three steps: the response is queued, and the request arrives and is let in. */
  lemma AdmitsTheOne(bases: Bases, order: Order, response: Response) returns (s: State)
    ensures var events := OneCharge(order, response);
            && Enabled(INITIAL, events[0])
            && Enabled(Step(bases, INITIAL, events[0]), events[1])
            && Enabled(Step(bases, Step(bases, INITIAL, events[0]), events[1]), events[2])
            && s == Step(bases, Step(bases, Step(bases, INITIAL, events[0]), events[1]), events[2])
    ensures s.calls == [Call(Request("POST", CHARGE_PATH, true, order, ""), Admitted, None, None)]
    ensures s.queues == map[CHARGE_PATH := [response]] && s.handed == map[] && s.blocked == {}
  {
    hide Routes.NormalizeKey;
    ChargePathIsItsKey();
    var events := OneCharge(order, response);
    s := Step(bases, Step(bases, Step(bases, INITIAL, events[0]), events[1]), events[2]);
    assert Queue(INITIAL.queues, CHARGE_PATH) + [response] == [response];
  }

  lemma OneChargeIsHidden(bases: Bases, order: Order, response: Response)
    requires response.recordCharge && !response.block && Refuses(response)
    ensures HiddenIn(bases, OneCharge(order, response), response)
  {
    hide Refuses, ChargeToken, Routes.LookupKeys, Routes.RouteOf, Written, SettledRefusal, Step, Enabled, IsRun, After;
    RefusedExactly(Written(response));
    RefusesExactly(response);
    ChargePathIsAChargeRoute();
    var events := OneCharge(order, response);
    var s3 := AdmitsTheOne(bases, order, response);
    PicksTheOne(s3, s3.calls[0], CHARGE_PATH, response);
    PickIsAStep(bases, s3);
    var s4 := PickStep(s3, 0);
    AnswersTheOne(bases, s4, s4.calls[0], response);
    assert events[4..] == [RecordCharge(0, None, ""), CheckHung(0), Write(0)];
    RunIsHidden(bases, order, response, s3, s4);
    var calls := After(bases, INITIAL, events).calls;
    assert RouteOf(calls[0]) == Routes.RouteOf("POST", CHARGE_PATH);
    assert HidesItsCharge(calls[0], response);
  }

  lemma PickIsAStep(bases: Bases, s: State)
    requires |s.calls| == 1 && s.calls[0].phase.Admitted?
    ensures Enabled(s, Pick(0)) && Step(bases, s, Pick(0)) == PickStep(s, 0)
  {
  }

  lemma RunIsHidden(bases: Bases, order: Order, response: Response, s3: State, s4: State)
    requires var events := OneCharge(order, response);
             && Enabled(INITIAL, events[0])
             && Enabled(Step(bases, INITIAL, events[0]), events[1])
             && Enabled(Step(bases, Step(bases, INITIAL, events[0]), events[1]), events[2])
             && s3 == Step(bases, Step(bases, Step(bases, INITIAL, events[0]), events[1]), events[2])
             && Enabled(s3, events[3]) && s4 == Step(bases, s3, events[3]) && IsRun(bases, s4, events[4..])
    ensures var events := OneCharge(order, response);
            IsRun(bases, INITIAL, events) && After(bases, INITIAL, events) == After(bases, s4, events[4..])
  {
    hide Step, Enabled, IsRun, After;
    var events := OneCharge(order, response);
    var s1 := Step(bases, INITIAL, events[0]);
    var s2 := Step(bases, s1, events[1]);
    assert [events[3]] + events[4..] == events[3..] && [events[2]] + events[3..] == events[2..];
    assert [events[1]] + events[2..] == events[1..] && [events[0]] + events[1..] == events;
    RunStarts(bases, s3, events[3], events[4..]);
    RunStarts(bases, s2, events[2], events[3..]);
    RunStarts(bases, s1, events[1], events[2..]);
    RunStarts(bases, INITIAL, events[0], events[1..]);
  }

  /** A queued response can hide a charge exactly if it records one, does not block and refuses. */
  lemma HidingResponses(bases: Bases, response: Response)
    ensures (exists events :: HiddenIn(bases, events, response)) <==>
            response.recordCharge && !response.block && Refuses(response)
  {
    RefusedExactly(Written(response));
    RefusesExactly(response);
    if events :| HiddenIn(bases, events, response) {
      var s := After(bases, INITIAL, events);
      var i :| 0 <= i < |s.calls| && HidesItsCharge(s.calls[i], response);
      ReachableCall(bases, events, i);
    }
    if response.recordCharge && !response.block && Refuses(response) {
      OneChargeIsHidden(bases, Order("", 0, 0, ""), response);
    }
  }
}

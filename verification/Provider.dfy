/** The fake provider as the source keeps it: indexes and queues updated in place
    under one mutex. Each method is one locked section, and each refines the
    append-only book. */
module Provider {
  import opened Text
  import opened Digits
  import opened Ledger
  import opened Replies
  import Routes

  type Index = map<string, Transaction>
  type Orders = map<string, seq<Transaction>>

  function Stored(orders: Orders, orderId: string): seq<Transaction> {
    if orderId in orders then orders[orderId] else []
  }

  /** The indexes over the charges of a book. */
  ghost predicate IndexesCharges(bases: Bases, book: Book, count: int, index: Index, orders: Orders) {
    && WellNumbered(bases, book)
    && count == |book.charges|
    && index == ById(book.charges)
    && forall orderId :: Ids(Stored(orders, orderId)) == Ids(OfOrder(book.charges, orderId))
  }

  lemma IdsSnoc(charges: seq<Transaction>, t: Transaction)
    ensures Ids(charges + [t]) == Ids(charges) + [t.id]
  {
  }

  /** Recording a charge in both indexes is recording it in the book. */
  lemma IndexesAfterCharge(bases: Bases, book: Book, index: Index, orders: Orders, op: Op, t: Transaction)
    requires IndexesCharges(bases, book, |book.charges|, index, orders) && op.AddCharge?
    requires t == NewCharge(bases, |book.charges| + 1, op.order, op.card, op.subscriptionId, op.now)
    ensures IndexesCharges(bases, Apply(bases, book, op), |book.charges| + 1, index[t.id := t],
                           orders[t.orderId := Stored(orders, t.orderId) + [t]])
    ensures Apply(bases, book, op).charges == book.charges + [t]
  {
    var orders' := orders[t.orderId := Stored(orders, t.orderId) + [t]];
    ApplyKeepsNumbering(bases, book, op);
    ByIdSnoc(book.charges, t);
    forall orderId ensures Ids(Stored(orders', orderId)) == Ids(OfOrder(book.charges + [t], orderId)) {
      var found := OfOrder(book.charges, orderId);
      OfOrderSnoc(book.charges, t, orderId);
      assert Ids(Stored(orders, orderId)) == Ids(found);
      if t.orderId == orderId {
        IdsSnoc(found, t);
        IdsSnoc(Stored(orders, orderId), t);
      } else {
        assert found + [] == found;
      }
    }
  }

  lemma CountsCharges(bases: Bases, book: Book, count: int, index: Index, orders: Orders)
    requires IndexesCharges(bases, book, count, index, orders)
    ensures count == |book.charges|
  {
  }

  lemma PlanIndexAfter(bases: Bases, book: Book, op: Op, p: Subscription)
    requires WellNumbered(bases, book) && op.AddPlan?
    requires p == NewPlan(bases, |book.plans| + 1, op.order, op.now, op.next)
    ensures WellNumbered(bases, Apply(bases, book, op))
    ensures PlansById(Apply(bases, book, op).plans) == PlansById(book.plans)[p.id := p]
  {
  }

  lemma IndexesAfterRefund(bases: Bases, book: Book, index: Index, orders: Orders, op: Op)
    requires IndexesCharges(bases, book, |book.charges|, index, orders) && op.Refund?
    ensures IndexesCharges(bases, Apply(bases, book, op), |book.charges|,
                           if op.id in index then index[op.id := Refunded(index[op.id], op.amount, op.reason, op.now)] else index,
                           orders)
  {
    ApplyKeepsNumbering(bases, book, op);
    ByIdRefund(book.charges, op.id, op.amount, op.reason, op.now);
    forall orderId ensures Ids(Stored(orders, orderId)) == Ids(OfOrder(Apply(bases, book, op).charges, orderId)) {
      OfOrderRefund(book.charges, op.id, op.amount, op.reason, op.now, orderId);
    }
  }

  /** What the index says about one identifier. */
  lemma IndexIsCurrent(bases: Bases, book: Book, id: string)
    requires WellNumbered(bases, book)
    ensures id in ById(book.charges) <==> Known(book, id)
    ensures forall i :: 0 <= i < |book.charges| && book.charges[i].id == id ==>
              id in ById(book.charges) && ById(book.charges)[id] == book.charges[i]
  {
    IdentifiersAreDistinct(bases, book);
    ByIdHoldsOnly(book.charges, id);
    forall i | 0 <= i < |book.charges| && book.charges[i].id == id
      ensures id in ById(book.charges) && ById(book.charges)[id] == book.charges[i]
    {
      ByIdHolds(book.charges, i);
    }
  }

  predicate Known(book: Book, id: string) {
    exists i :: 0 <= i < |book.charges| && book.charges[i].id == id
  }

  predicate KnownPlan(book: Book, id: string) {
    exists i :: 0 <= i < |book.plans| && book.plans[i].id == id
  }

  lemma PlanIndexIsCurrent(bases: Bases, book: Book, id: string)
    requires WellNumbered(bases, book)
    ensures id in PlansById(book.plans) <==> KnownPlan(book, id)
    ensures forall i :: 0 <= i < |book.plans| && book.plans[i].id == id ==>
              id in PlansById(book.plans) && PlansById(book.plans)[id] == book.plans[i]
  {
    IdentifiersAreDistinct(bases, book);
    PlansByIdHoldsOnly(book.plans, id);
    forall i | 0 <= i < |book.plans| && book.plans[i].id == id
      ensures id in PlansById(book.plans) && PlansById(book.plans)[id] == book.plans[i]
    {
      PlansByIdHolds(book.plans, i);
    }
  }

  /** An unknown identifier leaves the book alone. */
  lemma UnknownChangesNothing(bases: Bases, book: Book, op: Op)
    requires (op.Refund? && !Known(book, op.id)) || (op.Cancel? && !KnownPlan(book, op.id))
    ensures Apply(bases, book, op) == book
  {
  }

  /** What is stored under an order names its charges in charge order, and the by-ID
      index has their current state. */
  lemma StoredNamesCurrent(charges: seq<Transaction>, stored: seq<Transaction>, orderId: string, i: nat)
    requires DistinctCharges(charges)
    requires Ids(stored) == Ids(OfOrder(charges, orderId)) && i < |stored|
    ensures i < |OfOrder(charges, orderId)|
    ensures stored[i].id in ById(charges) && ById(charges)[stored[i].id] == OfOrder(charges, orderId)[i]
  {
    var found := OfOrder(charges, orderId);
    assert |Ids(stored)| == |Ids(found)|;
    assert Ids(stored)[i] == Ids(found)[i];
    OfOrderFinds(charges, orderId);
    assert found[i] in charges;
    var k :| 0 <= k < |charges| && charges[k] == found[i];
    ByIdHolds(charges, k);
  }

  /** The first identifier is the base, and later ones carry their number. */
  method Mint(base: string, n: nat) returns (id: string)
    ensures id == Numbered(base, n)
  {
    id := base;
    if n > 1 {
      id := id + "-" + Itoa(n);
    }
  }

  class Server {
    const bases: Bases
    var card: Option<(string, string)>
    var chargeCount: int
    var transactionsByID: map<string, Transaction>
    var transactionsByOrder: map<string, seq<Transaction>>
    var subscriptions: map<string, Subscription>
    var responses: Queues
    var blocked: set<string>
    ghost var book: Book

    ghost predicate Valid()
      reads this
    {
      && IndexesCharges(bases, book, chargeCount, transactionsByID, transactionsByOrder)
      && subscriptions == PlansById(book.plans)
    }

    constructor (bases: Bases, card: Option<(string, string)>)
      ensures Valid() && this.bases == bases && this.card == card
      ensures book == EMPTY && responses == map[] && blocked == {}
    {
      this.bases, this.card := bases, card;
      chargeCount, transactionsByID, transactionsByOrder, subscriptions := 0, map[], map[], map[];
      responses, blocked := map[], {};
      book := EMPTY;
    }

    /** The by-ID index holds exactly chargeCount entries. */
    lemma IndexSize()
      requires Valid()
      ensures |transactionsByID| == chargeCount
      ensures |subscriptions| == |book.plans|
    {
      IdentifiersAreDistinct(bases, book);
      ByIdSize(book.charges);
      PlansByIdSize(book.plans);
    }

    method RecordCharge(order: Order, subscriptionId: Option<string>, now: string)
      returns (hid: string, transactionID: string, authCode: string)
      requires Valid()
      modifies this`chargeCount, this`transactionsByID, this`transactionsByOrder, this`book
      ensures Valid() && book == Apply(bases, old(book), AddCharge(order, card, subscriptionId, now))
      ensures book.plans == old(book).plans && |book.charges| == |old(book).charges| + 1
      ensures book.charges[..|old(book).charges|] == old(book).charges
      ensures IsNewCharge(bases, |book.charges|, book.charges[|book.charges| - 1],
                          AddCharge(order, card, subscriptionId, now))
      ensures hid == book.charges[|book.charges| - 1].id
      ensures transactionID == book.charges[|book.charges| - 1].transactionId
      ensures authCode == bases.authCode
    {
      hide Apply, IsNewCharge, IndexesCharges, Stored, Numbered;
      AppliesExactly(bases, book, AddCharge(order, card, subscriptionId, now));
      assert chargeCount == |book.charges| by {
        CountsCharges(bases, book, chargeCount, transactionsByID, transactionsByOrder);
      }
      chargeCount := chargeCount + 1;
      hid := Mint(bases.transactionHID, chargeCount);
      transactionID := Mint(bases.transactionID, chargeCount);
      var transaction := Transaction(hid, transactionID, order.action, order.amount, "charged", order.orderId,
                                     bases.authCode, now, card, subscriptionId, 0, None, None);
      ghost var op := AddCharge(order, card, subscriptionId, now);
      IndexesAfterCharge(bases, book, transactionsByID, transactionsByOrder, op, transaction);
      transactionsByID := transactionsByID[hid := transaction];
      transactionsByOrder := transactionsByOrder[order.orderId := Stored(transactionsByOrder, order.orderId) + [transaction]];
      book := Apply(bases, book, op);
      authCode := bases.authCode;
    }

    method NewSubscription(order: Order, now: string, next: string) returns (id: string)
      requires Valid()
      modifies this`subscriptions, this`book
      ensures Valid() && book == Apply(bases, old(book), AddPlan(order, now, next))
      ensures book.charges == old(book).charges && |book.plans| == |old(book).plans| + 1
      ensures book.plans[..|old(book).plans|] == old(book).plans
      ensures IsNewPlan(bases, |book.plans|, book.plans[|book.plans| - 1], AddPlan(order, now, next))
      ensures id == book.plans[|book.plans| - 1].id
    {
      AppliesExactly(bases, book, AddPlan(order, now, next));
      IndexSize();
      id := Mint(bases.subscriptionID, |subscriptions| + 1);
      var plan := Subscription(id, "ongoing", order.amount, order.numberOfPeriods, order.orderId, now, Some(next), None, None);
      ghost var op := AddPlan(order, now, next);
      PlanIndexAfter(bases, book, op, plan);
      subscriptions := subscriptions[id := plan];
      book := Apply(bases, book, op);
    }

    /** An unknown transaction is reported and nothing changes. */
    method RefundResponse(hid: string, amount: int, reason: string, now: string) returns (response: Response)
      requires Valid()
      modifies this`transactionsByID, this`book
      ensures Valid() && book == Apply(bases, old(book), Ledger.Refund(hid, amount, reason, now))
      ensures book.plans == old(book).plans && |book.charges| == |old(book).charges|
      ensures forall i :: 0 <= i < |book.charges| && old(book).charges[i].id == hid ==>
                IsRefundOf(old(book).charges[i], book.charges[i], Ledger.Refund(hid, amount, reason, now))
      ensures forall i :: 0 <= i < |book.charges| && old(book).charges[i].id != hid ==>
                book.charges[i] == old(book).charges[i]
      ensures !Known(old(book), hid) ==> response == NOT_FOUND && book == old(book)
      ensures forall i :: 0 <= i < |book.charges| && book.charges[i].id == hid ==>
                response == Success(OneTransaction(book.charges[i]))
    {
      ghost var op := Ledger.Refund(hid, amount, reason, now);
      AppliesExactly(bases, book, op);
      IndexIsCurrent(bases, book, hid);
      IndexesAfterRefund(bases, book, transactionsByID, transactionsByOrder, op);
      IndexIsCurrent(bases, Apply(bases, book, op), hid);
      if hid !in transactionsByID {
        UnknownChangesNothing(bases, book, op);
        return NOT_FOUND;
      }
      var transaction := transactionsByID[hid];
      transaction := transaction.(status := "refunded", refundAmount := amount, refundedAt := Some(now));
      if reason != "" {
        transaction := transaction.(note := Some(reason));
      }
      transactionsByID := transactionsByID[hid := transaction];
      book := Apply(bases, book, op);
      response := Success(OneTransaction(transaction));
    }

    method TransactionResponse(id: string) returns (response: Response)
      requires Valid()
      ensures !Known(book, id) ==> response == NOT_FOUND
      ensures forall i :: 0 <= i < |book.charges| && book.charges[i].id == id ==>
                response == Success(OneTransaction(book.charges[i]))
    {
      IndexIsCurrent(bases, book, id);
      if id !in transactionsByID {
        return NOT_FOUND;
      }
      return Success(OneTransaction(transactionsByID[id]));
    }

    method SubscriptionResponse(id: string, cancel: bool, reason: string, now: string) returns (response: Response)
      requires Valid()
      modifies this`subscriptions, this`book
      ensures Valid() && book == if cancel then Apply(bases, old(book), Ledger.Cancel(id, reason, now)) else old(book)
      ensures book.charges == old(book).charges && |book.plans| == |old(book).plans|
      ensures forall i :: 0 <= i < |book.plans| ==>
                if cancel && old(book).plans[i].id == id
                then IsCancelOf(old(book).plans[i], book.plans[i], Ledger.Cancel(id, reason, now))
                else book.plans[i] == old(book).plans[i]
      ensures !KnownPlan(old(book), id) ==> response == NOT_FOUND && book == old(book)
      ensures forall i :: 0 <= i < |book.plans| && book.plans[i].id == id ==>
                response == Success(OneSubscription(book.plans[i]))
    {
      ghost var op := Ledger.Cancel(id, reason, now);
      AppliesExactly(bases, book, op);
      PlanIndexIsCurrent(bases, book, id);
      PlansByIdCancel(book.plans, id, reason, now);
      ApplyKeepsNumbering(bases, book, op);
      PlanIndexIsCurrent(bases, Apply(bases, book, op), id);
      if id !in subscriptions {
        UnknownChangesNothing(bases, book, op);
        return NOT_FOUND;
      }
      var subscription := subscriptions[id];
      if cancel {
        subscription := subscription.(status := "cancelled", cancelledAt := Some(now), reason := Some(reason), nextChargeAt := None);
        subscriptions := subscriptions[id := subscription];
        book := Apply(bases, book, op);
      }
      response := Success(OneSubscription(subscription));
    }

    /** An order query returns exactly that order's charges, in charge order, each in
        its current state. */
    method OrderTransactions(orderId: string) returns (transactions: seq<Transaction>)
      requires Valid()
      ensures transactions == OfOrder(book.charges, orderId)
    {
      IdentifiersAreDistinct(bases, book);
      var stored := Stored(transactionsByOrder, orderId);
      assert |Ids(stored)| == |Ids(OfOrder(book.charges, orderId))|;
      transactions := [];
      for i := 0 to |stored|
        invariant |transactions| == i
        invariant forall j :: 0 <= j < i ==> transactions[j] == OfOrder(book.charges, orderId)[j]
      {
        StoredNamesCurrent(book.charges, stored, orderId, i);
        var transaction := stored[i];
        if transaction.id in transactionsByID {
          transaction := transactionsByID[transaction.id];
        }
        transactions := transactions + [transaction];
      }
    }

    /** The whole index, in whatever order it is visited. */
    method AllTransactions() returns (transactions: seq<Transaction>)
      requires Valid()
      ensures multiset(transactions) == multiset(book.charges)
    {
      transactions := [];
      var todo := transactionsByID.Keys;
      ghost var charges := book.charges;
      IdentifiersAreDistinct(bases, book);
      ByIdSize(charges);
      while todo != {}
        invariant todo <= transactionsByID.Keys
        invariant |transactions| + |todo| == |charges|
        invariant forall i :: 0 <= i < |transactions| ==>
                    transactions[i].id in transactionsByID && transactions[i].id !in todo
                    && transactionsByID[transactions[i].id] == transactions[i]
        invariant DistinctCharges(transactions)
        decreases |todo|
      {
        var id :| id in todo;
        ByIdHoldsOnly(charges, id);
        todo := todo - {id};
        transactions := transactions + [transactionsByID[id]];
      }
      SameCharges(transactions, charges);
    }

    // ----- Queued responses and hangs

    method QueueResponse(endpoint: string, queued: seq<Response>)
      modifies this`responses
      ensures var key := Routes.NormalizeKey(endpoint);
              responses == old(responses)[key := (if key in old(responses) then old(responses)[key] else []) + queued]
    {
      var key := Routes.NormalizeKey(endpoint);
      responses := responses[key := Queue(responses, key) + queued];
    }

    /** The oldest response of the most specific key that has one waiting: method and path,
        path, method and route, route. */
    method NextResponse(method_: string, path: string) returns (response: Option<Response>)
      modifies this`responses
      ensures var before, route := old(responses), Routes.RouteKey(path);
              if Waits(before, method_ + " " + path) then Takes(before, method_ + " " + path, response, responses)
              else if Waits(before, path) then Takes(before, path, response, responses)
              else if Waits(before, method_ + " " + route) then Takes(before, method_ + " " + route, response, responses)
              else if Waits(before, route) then Takes(before, route, response, responses)
              else response == None && responses == before
    {
      TakesTheFirst(responses, method_, path);
      var keys := Routes.LookupKeys(method_, path);
      assert keys[0..] == keys;
      for i := 0 to |keys|
        invariant responses == old(responses)
        invariant FirstReady(responses, keys) == FirstReady(responses, keys[i..])
      {
        assert keys[i..][1..] == keys[i + 1..];
        var queued := Queue(responses, keys[i]);
        if |queued| == 0 {
          continue;
        }
        response := Some(queued[0]);
        responses := responses[keys[i] := queued[1..]];
        return;
      }
      return None;
    }

    method Hang(endpoint: string)
      modifies this`blocked
      ensures blocked == old(blocked) + {Routes.NormalizeKey(endpoint)}
    {
      blocked := blocked + {Routes.NormalizeKey(endpoint)};
    }

    method Unhang(endpoint: string)
      modifies this`blocked
      ensures blocked == old(blocked) - {Routes.NormalizeKey(endpoint)}
    {
      blocked := blocked - {Routes.NormalizeKey(endpoint)};
    }

    method IsBlocked(method_: string, path: string) returns (found: bool)
      ensures found <==>
              || method_ + " " + path in blocked
              || path in blocked
              || method_ + " " + Routes.RouteKey(path) in blocked
              || Routes.RouteKey(path) in blocked
    {
      var keys := Routes.LookupKeys(method_, path);
      Routes.LookupKeysExactly(method_, path);
      assert keys == [keys[0], keys[1], keys[2], keys[3]];
      for i := 0 to |keys|
        invariant forall j :: 0 <= j < i ==> keys[j] !in blocked
      {
        if keys[i] in blocked {
          return true;
        }
      }
      return false;
    }
  }

  /** As many distinct charges of a log as it has are all of them. */
  lemma {:induction false} SameCharges(xs: seq<Transaction>, charges: seq<Transaction>)
    requires DistinctCharges(xs) && DistinctCharges(charges) && |xs| == |charges|
    requires forall i :: 0 <= i < |xs| ==> xs[i].id in ById(charges) && ById(charges)[xs[i].id] == xs[i]
    ensures multiset(xs) == multiset(charges)
  {
    assert forall i :: 0 <= i < |xs| ==> xs[i] in charges by {
      forall i | 0 <= i < |xs| ensures xs[i] in charges {
        ByIdHoldsOnly(charges, xs[i].id);
      }
    }
    AllOfThem(xs, charges);
  }

  lemma InTheRest(ys: seq<Transaction>, k: nat, t: Transaction)
    requires k < |ys| && t in ys && t != ys[k]
    ensures t in ys[..k] + ys[k + 1..]
  {
    var j :| 0 <= j < |ys| && ys[j] == t;
    assert (ys[..k] + ys[k + 1..])[if j < k then j else j - 1] == t;
  }

  lemma {:induction false} AllOfThem(xs: seq<Transaction>, ys: seq<Transaction>)
    requires DistinctCharges(xs) && |xs| == |ys|
    requires forall i :: 0 <= i < |xs| ==> xs[i] in ys
    ensures multiset(xs) == multiset(ys)
    decreases |xs|
  {
    if xs != [] {
      var front, x := xs[..|xs| - 1], xs[|xs| - 1];
      var k :| 0 <= k < |ys| && ys[k] == x;
      var rest := ys[..k] + ys[k + 1..];
      forall i | 0 <= i < |front| ensures front[i] in rest {
        assert front[i] == xs[i] && xs[i].id != x.id;
        InTheRest(ys, k, xs[i]);
      }
      AllOfThem(front, rest);
      assert xs == front + [x] && ys == ys[..k] + ([x] + ys[k + 1..]);
    }
  }
}

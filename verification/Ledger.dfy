/** What the fake provider means: an append-only log of charges and one of
    subscriptions, whose entries change state but never go away. */
module Ledger {
  import opened Text
  import opened Digits

  datatype Transaction = Transaction(
    id: string, transactionId: string, action: string, amount: int, status: string, orderId: string,
    authCode: string, createdAt: string, card: Option<(string, string)>, subscriptionId: Option<string>,
    refundAmount: int, refundedAt: Option<string>, note: Option<string>)

  datatype Subscription = Subscription(
    id: string, status: string, amount: int, numberOfPeriods: int, orderId: string, startedAt: string,
    nextChargeAt: Option<string>, cancelledAt: Option<string>, reason: Option<string>)

  datatype Book = Book(charges: seq<Transaction>, plans: seq<Subscription>)

  const EMPTY := Book([], [])

  /** The identifiers a server counts up from. */
  datatype Bases = Bases(transactionHID: string, transactionID: string, subscriptionID: string, authCode: string)

  // ----- Identifiers

  /** The n-th identifier: the base itself, and then base-2, base-3 and so on. */
  function Numbered(base: string, n: nat): string {
    if n <= 1 then base else base + "-" + Itoa(n)
  }

  lemma NumberedIsInjective(base: string, m: nat, n: nat)
    requires m >= 1 && n >= 1
    ensures Numbered(base, m) == Numbered(base, n) <==> m == n
  {
    if m > 1 && n > 1 && Numbered(base, m) == Numbered(base, n) {
      assert (base + "-" + Itoa(m))[|base| + 1..] == Itoa(m);
      assert (base + "-" + Itoa(n))[|base| + 1..] == Itoa(n);
      ItoaInjective(m, n);
    }
  }

  // ----- Operations

  datatype Order = Order(orderId: string, amount: int, numberOfPeriods: int, action: string)

  function NewCharge(bases: Bases, n: nat, order: Order, card: Option<(string, string)>,
                     subscriptionId: Option<string>, now: string): Transaction {
    Transaction(Numbered(bases.transactionHID, n), Numbered(bases.transactionID, n), order.action, order.amount,
                "charged", order.orderId, bases.authCode, now, card, subscriptionId, 0, None, None)
  }

  function NewPlan(bases: Bases, n: nat, order: Order, now: string, next: string): Subscription {
    Subscription(Numbered(bases.subscriptionID, n), "ongoing", order.amount, order.numberOfPeriods, order.orderId,
                 now, Some(next), None, None)
  }

  function Refunded(t: Transaction, amount: int, reason: string, now: string): Transaction {
    t.(status := "refunded", refundAmount := amount, refundedAt := Some(now),
       note := if reason != "" then Some(reason) else t.note)
  }

  function Cancelled(p: Subscription, reason: string, now: string): Subscription {
    p.(status := "cancelled", cancelledAt := Some(now), reason := Some(reason), nextChargeAt := None)
  }

  function RefundAll(charges: seq<Transaction>, id: string, amount: int, reason: string, now: string): seq<Transaction> {
    seq(|charges|, i requires 0 <= i < |charges| =>
      if charges[i].id == id then Refunded(charges[i], amount, reason, now) else charges[i])
  }

  function CancelAll(plans: seq<Subscription>, id: string, reason: string, now: string): seq<Subscription> {
    seq(|plans|, i requires 0 <= i < |plans| =>
      if plans[i].id == id then Cancelled(plans[i], reason, now) else plans[i])
  }

  datatype Op =
    | AddCharge(order: Order, card: Option<(string, string)>, subscriptionId: Option<string>, now: string)
    | AddPlan(order: Order, now: string, next: string)
    | Refund(id: string, amount: int, reason: string, now: string)
    | Cancel(id: string, reason: string, now: string)

  function Apply(bases: Bases, book: Book, op: Op): Book {
    match op
    case AddCharge(order, card, subscriptionId, now) =>
      book.(charges := book.charges + [NewCharge(bases, |book.charges| + 1, order, card, subscriptionId, now)])
    case AddPlan(order, now, next) =>
      book.(plans := book.plans + [NewPlan(bases, |book.plans| + 1, order, now, next)])
    case Refund(id, amount, reason, now) => book.(charges := RefundAll(book.charges, id, amount, reason, now))
    case Cancel(id, reason, now) => book.(plans := CancelAll(book.plans, id, reason, now))
  }

  /** The identifiers of the n-th entry. */
  lemma NumbersExactly(base: string, n: nat)
    ensures n <= 1 ==> Numbered(base, n) == base
    ensures n > 1 ==> Numbered(base, n) == base + "-" + Itoa(n)
  {
  }

  /** A charge is added at the end, as charged and not refunded, with what the order says. */
  predicate IsNewCharge(bases: Bases, n: nat, t: Transaction, op: Op)
    requires op.AddCharge?
  {
    && t.id == (if n == 1 then bases.transactionHID else bases.transactionHID + "-" + Itoa(n))
    && t.transactionId == (if n == 1 then bases.transactionID else bases.transactionID + "-" + Itoa(n))
    && t.action == op.order.action && t.amount == op.order.amount && t.orderId == op.order.orderId
    && t.status == "charged" && t.authCode == bases.authCode && t.createdAt == op.now
    && t.card == op.card && t.subscriptionId == op.subscriptionId
    && t.refundAmount == 0 && t.refundedAt == None && t.note == None
  }

  predicate IsNewPlan(bases: Bases, n: nat, p: Subscription, op: Op)
    requires op.AddPlan?
  {
    && p.id == (if n == 1 then bases.subscriptionID else bases.subscriptionID + "-" + Itoa(n))
    && p.status == "ongoing" && p.amount == op.order.amount && p.numberOfPeriods == op.order.numberOfPeriods
    && p.orderId == op.order.orderId && p.startedAt == op.now && p.nextChargeAt == Some(op.next)
    && p.cancelledAt == None && p.reason == None
  }

  /** The same charge, refunded with this amount at this time; the note is kept unless a
      reason is given. */
  predicate IsRefundOf(t: Transaction, r: Transaction, op: Op)
    requires op.Refund?
  {
    && Fixed(r) == Fixed(t)
    && r.status == "refunded" && r.refundAmount == op.amount && r.refundedAt == Some(op.now)
    && (op.reason != "" ==> r.note == Some(op.reason))
    && (op.reason == "" ==> r.note == t.note)
  }

  predicate IsCancelOf(p: Subscription, c: Subscription, op: Op)
    requires op.Cancel?
  {
    && FixedPlan(c) == FixedPlan(p)
    && c.status == "cancelled" && c.cancelledAt == Some(op.now) && c.reason == Some(op.reason) && c.nextChargeAt == None
  }

  /** What each operation does to the book. */
  lemma AppliesExactly(bases: Bases, book: Book, op: Op)
    ensures var after := Apply(bases, book, op);
            && (!op.AddPlan? && !op.Cancel? ==> after.plans == book.plans)
            && (!op.AddCharge? && !op.Refund? ==> after.charges == book.charges)
            && (op.AddCharge? ==>
                  && |after.charges| == |book.charges| + 1 && after.charges[..|book.charges|] == book.charges
                  && IsNewCharge(bases, |after.charges|, after.charges[|book.charges|], op))
            && (op.AddPlan? ==>
                  && |after.plans| == |book.plans| + 1 && after.plans[..|book.plans|] == book.plans
                  && IsNewPlan(bases, |after.plans|, after.plans[|book.plans|], op))
    ensures var after := Apply(bases, book, op);
            && (op.Refund? ==>
                  && |after.charges| == |book.charges|
                  && forall i :: 0 <= i < |book.charges| ==>
                       if book.charges[i].id == op.id then IsRefundOf(book.charges[i], after.charges[i], op)
                       else after.charges[i] == book.charges[i])
            && (op.Cancel? ==>
                  && |after.plans| == |book.plans|
                  && forall i :: 0 <= i < |book.plans| ==>
                       if book.plans[i].id == op.id then IsCancelOf(book.plans[i], after.plans[i], op)
                       else after.plans[i] == book.plans[i])
  {
  }

  function Run(bases: Bases, book: Book, ops: seq<Op>): Book
    decreases |ops|
  {
    if ops == [] then book else Run(bases, Apply(bases, book, ops[0]), ops[1..])
  }

  // ----- Every run keeps the numbering

  predicate WellNumbered(bases: Bases, book: Book) {
    && (forall i :: 0 <= i < |book.charges| ==> book.charges[i].id == Numbered(bases.transactionHID, i + 1))
    && (forall i :: 0 <= i < |book.plans| ==> book.plans[i].id == Numbered(bases.subscriptionID, i + 1))
  }

  lemma ApplyKeepsNumbering(bases: Bases, book: Book, op: Op)
    requires WellNumbered(bases, book)
    ensures WellNumbered(bases, Apply(bases, book, op))
  {
  }

  lemma {:induction false} RunKeepsNumbering(bases: Bases, book: Book, ops: seq<Op>)
    requires WellNumbered(bases, book)
    ensures WellNumbered(bases, Run(bases, book, ops))
    decreases |ops|
  {
    if ops != [] {
      ApplyKeepsNumbering(bases, book, ops[0]);
      RunKeepsNumbering(bases, Apply(bases, book, ops[0]), ops[1..]);
    }
  }

  predicate DistinctCharges(charges: seq<Transaction>) {
    forall i, j :: 0 <= i < j < |charges| ==> charges[i].id != charges[j].id
  }

  predicate DistinctPlans(plans: seq<Subscription>) {
    forall i, j :: 0 <= i < j < |plans| ==> plans[i].id != plans[j].id
  }

  /** No two charges and no two subscriptions share an identifier. */
  lemma IdentifiersAreDistinct(bases: Bases, book: Book)
    requires WellNumbered(bases, book)
    ensures DistinctCharges(book.charges) && DistinctPlans(book.plans)
  {
    forall i, j | 0 <= i < j < |book.charges| ensures book.charges[i].id != book.charges[j].id {
      NumberedIsInjective(bases.transactionHID, i + 1, j + 1);
    }
    forall i, j | 0 <= i < j < |book.plans| ensures book.plans[i].id != book.plans[j].id {
      NumberedIsInjective(bases.subscriptionID, i + 1, j + 1);
    }
  }

  /** After any run from an empty book. */
  lemma RunIdentifiersAreDistinct(bases: Bases, ops: seq<Op>)
    ensures DistinctCharges(Run(bases, EMPTY, ops).charges) && DistinctPlans(Run(bases, EMPTY, ops).plans)
  {
    RunKeepsNumbering(bases, EMPTY, ops);
    IdentifiersAreDistinct(bases, Run(bases, EMPTY, ops));
  }

  // ----- Append-only

  /** What never changes about a charge. */
  function Fixed(t: Transaction): Transaction {
    t.(status := "", refundAmount := 0, refundedAt := None, note := None)
  }

  /** What never changes about a subscription. */
  function FixedPlan(p: Subscription): Subscription {
    p.(status := "", nextChargeAt := None, cancelledAt := None, reason := None)
  }

  predicate Extends(before: Book, after: Book) {
    && |before.charges| <= |after.charges|
    && (forall i :: 0 <= i < |before.charges| ==> Fixed(before.charges[i]) == Fixed(after.charges[i]))
    && (forall i :: 0 <= i < |before.charges| && before.charges[i].status == "refunded"
           ==> after.charges[i].status == "refunded")
    && |before.plans| <= |after.plans|
    && (forall i :: 0 <= i < |before.plans| ==> FixedPlan(before.plans[i]) == FixedPlan(after.plans[i]))
    && (forall i :: 0 <= i < |before.plans| && before.plans[i].status == "cancelled"
           ==> after.plans[i].status == "cancelled")
  }

  lemma ApplyExtends(bases: Bases, book: Book, op: Op)
    ensures Extends(book, Apply(bases, book, op))
  {
  }

  lemma ExtendsIsTransitive(a: Book, b: Book, c: Book)
    requires Extends(a, b) && Extends(b, c)
    ensures Extends(a, c)
  {
  }

  /** In every run charges and subscriptions are only ever added at the end; what is
      there keeps its place and its fixed fields, and a refund or a
      cancellation is never undone. */
  lemma {:induction false} RunExtends(bases: Bases, book: Book, ops: seq<Op>)
    ensures Extends(book, Run(bases, book, ops))
    decreases |ops|
  {
    if ops != [] {
      ApplyExtends(bases, book, ops[0]);
      RunExtends(bases, Apply(bases, book, ops[0]), ops[1..]);
      ExtendsIsTransitive(book, Apply(bases, book, ops[0]), Run(bases, book, ops));
    }
  }

  // ----- Queries

  /** The charges of one order, in charge order. */
  function OfOrder(charges: seq<Transaction>, orderId: string): seq<Transaction> {
    if charges == [] then []
    else
      var last := charges[|charges| - 1];
      OfOrder(charges[..|charges| - 1], orderId) + if last.orderId == orderId then [last] else []
  }

  function Ids(charges: seq<Transaction>): seq<string> {
    seq(|charges|, i requires 0 <= i < |charges| => charges[i].id)
  }

  lemma OfOrderSnoc(charges: seq<Transaction>, t: Transaction, orderId: string)
    ensures OfOrder(charges + [t], orderId) == OfOrder(charges, orderId) + if t.orderId == orderId then [t] else []
  {
  }

  /** Every charge is found under its own order and under no other. */
  lemma {:induction false} OfOrderFinds(charges: seq<Transaction>, orderId: string)
    ensures forall t :: t in OfOrder(charges, orderId) <==> t in charges && t.orderId == orderId
  {
    if charges != [] {
      var n := |charges| - 1;
      OfOrderFinds(charges[..n], orderId);
      assert charges == charges[..n] + [charges[n]];
    }
  }

  /** How often an identifier occurs. */
  function Count(charges: seq<Transaction>, id: string): nat {
    if charges == [] then 0
    else Count(charges[..|charges| - 1], id) + if charges[|charges| - 1].id == id then 1 else 0
  }

  lemma {:induction false} CountAbsent(charges: seq<Transaction>, id: string)
    requires forall i :: 0 <= i < |charges| ==> charges[i].id != id
    ensures Count(charges, id) == 0
  {
    if charges != [] {
      CountAbsent(charges[..|charges| - 1], id);
    }
  }

  lemma CountSnoc(charges: seq<Transaction>, t: Transaction, id: string)
    ensures Count(charges + [t], id) == Count(charges, id) + if t.id == id then 1 else 0
  {
  }

  /** A recorded charge is found by its order exactly once. */
  lemma {:induction false} FoundExactlyOnce(charges: seq<Transaction>, k: nat)
    requires k < |charges|
    requires DistinctCharges(charges)
    ensures Count(OfOrder(charges, charges[k].orderId), charges[k].id) == 1
  {
    var n, t := |charges| - 1, charges[k];
    var front := charges[..n];
    assert charges == front + [charges[n]];
    OfOrderSnoc(front, charges[n], t.orderId);
    if k == n {
      OfOrderFinds(front, t.orderId);
      var before := OfOrder(front, t.orderId);
      forall i | 0 <= i < |before| ensures before[i].id != t.id {
        assert before[i] in front;
      }
      CountAbsent(before, t.id);
    } else {
      FoundExactlyOnce(front, k);
    }
    var found := OfOrder(front, t.orderId);
    assert found + [] == found;
    CountSnoc(found, charges[n], t.id);
  }

  // ----- The by-ID index

  function ById(charges: seq<Transaction>): map<string, Transaction> {
    if charges == [] then map[]
    else ById(charges[..|charges| - 1])[charges[|charges| - 1].id := charges[|charges| - 1]]
  }

  function PlansById(plans: seq<Subscription>): map<string, Subscription> {
    if plans == [] then map[]
    else PlansById(plans[..|plans| - 1])[plans[|plans| - 1].id := plans[|plans| - 1]]
  }

  lemma {:induction false} ByIdHoldsOnly(charges: seq<Transaction>, id: string)
    ensures id in ById(charges) ==> ById(charges)[id] in charges && ById(charges)[id].id == id
  {
    if charges != [] && id != charges[|charges| - 1].id {
      ByIdHoldsOnly(charges[..|charges| - 1], id);
    }
  }

  lemma {:induction false} ByIdHolds(charges: seq<Transaction>, i: nat)
    requires DistinctCharges(charges) && i < |charges|
    ensures charges[i].id in ById(charges) && ById(charges)[charges[i].id] == charges[i]
  {
    var n := |charges| - 1;
    if i < n {
      ByIdHolds(charges[..n], i);
    }
  }

  /** The index has exactly one entry a charge. */
  lemma {:induction false} ByIdSize(charges: seq<Transaction>)
    requires DistinctCharges(charges)
    ensures |ById(charges)| == |charges|
  {
    if charges != [] {
      var front, last := charges[..|charges| - 1], charges[|charges| - 1];
      ByIdSize(front);
      ByIdHoldsOnly(front, last.id);
      assert last.id !in ById(front);
    }
  }

  lemma {:induction false} PlansByIdHoldsOnly(plans: seq<Subscription>, id: string)
    ensures id in PlansById(plans) ==> PlansById(plans)[id] in plans && PlansById(plans)[id].id == id
  {
    if plans != [] && id != plans[|plans| - 1].id {
      PlansByIdHoldsOnly(plans[..|plans| - 1], id);
    }
  }

  lemma {:induction false} PlansByIdHolds(plans: seq<Subscription>, i: nat)
    requires DistinctPlans(plans) && i < |plans|
    ensures plans[i].id in PlansById(plans) && PlansById(plans)[plans[i].id] == plans[i]
  {
    var n := |plans| - 1;
    if i < n {
      PlansByIdHolds(plans[..n], i);
    }
  }

  lemma {:induction false} PlansByIdSize(plans: seq<Subscription>)
    requires DistinctPlans(plans)
    ensures |PlansById(plans)| == |plans|
  {
    if plans != [] {
      var front, last := plans[..|plans| - 1], plans[|plans| - 1];
      PlansByIdSize(front);
      PlansByIdHoldsOnly(front, last.id);
      assert last.id !in PlansById(front);
    }
  }

  // ----- The indexes follow the operations

  lemma ByIdSnoc(charges: seq<Transaction>, t: Transaction)
    ensures ById(charges + [t]) == ById(charges)[t.id := t]
  {
  }

  /** Refunding rewrites one entry of the index, or none. */
  lemma {:induction false} ByIdRefund(charges: seq<Transaction>, id: string, amount: int, reason: string, now: string)
    ensures ById(RefundAll(charges, id, amount, reason, now)) ==
            if id in ById(charges) then ById(charges)[id := Refunded(ById(charges)[id], amount, reason, now)]
            else ById(charges)
  {
    if charges != [] {
      var n := |charges| - 1;
      ByIdRefund(charges[..n], id, amount, reason, now);
      assert RefundAll(charges, id, amount, reason, now)[..n] == RefundAll(charges[..n], id, amount, reason, now);
    }
  }

  lemma {:induction false} PlansByIdCancel(plans: seq<Subscription>, id: string, reason: string, now: string)
    ensures PlansById(CancelAll(plans, id, reason, now)) ==
            if id in PlansById(plans) then PlansById(plans)[id := Cancelled(PlansById(plans)[id], reason, now)]
            else PlansById(plans)
  {
    if plans != [] {
      var n := |plans| - 1;
      PlansByIdCancel(plans[..n], id, reason, now);
      assert CancelAll(plans, id, reason, now)[..n] == CancelAll(plans[..n], id, reason, now);
    }
  }

  /** Refunding keeps every order's identifiers and their order. */
  lemma {:induction false} OfOrderRefund(
    charges: seq<Transaction>, id: string, amount: int, reason: string, now: string, orderId: string)
    ensures OfOrder(RefundAll(charges, id, amount, reason, now), orderId)
         == RefundAll(OfOrder(charges, orderId), id, amount, reason, now)
  {
    if charges != [] {
      var n := |charges| - 1;
      OfOrderRefund(charges[..n], id, amount, reason, now, orderId);
      assert RefundAll(charges, id, amount, reason, now)[..n] == RefundAll(charges[..n], id, amount, reason, now);
      RefundAllSnoc(OfOrder(charges[..n], orderId), charges[n], id, amount, reason, now);
      assert OfOrder(charges[..n], orderId) + [] == OfOrder(charges[..n], orderId);
    }
  }

  lemma RefundAllSnoc(charges: seq<Transaction>, t: Transaction, id: string, amount: int, reason: string, now: string)
    ensures RefundAll(charges + [t], id, amount, reason, now)
         == RefundAll(charges, id, amount, reason, now)
            + [if t.id == id then Refunded(t, amount, reason, now) else t]
  {
  }
}

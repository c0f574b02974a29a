/**
 * Credit purchases through the payment gateway
 * (controllers/paymentController.js). A purchase is a transaction row that
 * starts `pending` and is settled either by the browser's verification call
 * or by the gateway's webhook. HMAC-SHA256 (RFC 2104) is a function
 * parameter; the gateway's order and payment lookups are outcomes.
 */
module PaymentController {
  import opened Wrappers
  import Js
  import Http
  import UserModel
  import Seqs
  import Db

  /** One package of credits; prices are in rupees and dollars. */
  datatype Package = Package(credits: nat, price: nat, priceUSD: nat, name: string)

  const CreditPackages: seq<(string, Package)> := [
    ("starter", Package(100, 800, 10, "Starter")),
    ("pro", Package(500, 3200, 40, "Pro")),
    ("business", Package(1000, 5600, 70, "Business")),
    ("enterprise", Package(5000, 24000, 300, "Enterprise"))]

  /** A package as `getPackages` lists it: its fields with its id attached. */
  datatype PackageListing = PackageListing(id: string, credits: nat, price: nat, priceUSD: nat, name: string)

  function Listings(packages: seq<(string, Package)>): (r: seq<PackageListing>)
    ensures |r| == |packages|
    ensures forall i :: 0 <= i < |r| ==>
              r[i] == PackageListing(packages[i].0, packages[i].1.credits, packages[i].1.price,
                                     packages[i].1.priceUSD, packages[i].1.name)
  {
    if packages == [] then []
    else
      var (id, p) := packages[0];
      [PackageListing(id, p.credits, p.price, p.priceUSD, p.name)] + Listings(packages[1..])
  }

  /** `getPackages`: every package, in table order, each with its id. */
  function GetPackages(): (r: seq<PackageListing>)
    ensures |r| == |CreditPackages|
    ensures forall i :: 0 <= i < |r| ==> r[i].id == CreditPackages[i].0
    ensures forall i, j :: 0 <= i < j < |r| ==> r[i].id != r[j].id
    ensures forall i :: 0 <= i < |r| ==>
              Seqs.Lookup(CreditPackages, r[i].id) == Some(Package(r[i].credits, r[i].price, r[i].priceUSD, r[i].name))
  {
    PackageIdsDistinct();
    PackagesFound();
    Listings(CreditPackages)
  }

  /** Each package's id finds that package. */
  lemma PackagesFound()
    ensures forall i :: 0 <= i < |CreditPackages| ==> Seqs.Lookup(CreditPackages, CreditPackages[i].0) == Some(CreditPackages[i].1)
  {
    PackageIdsDistinct();
    forall i | 0 <= i < |CreditPackages|
      ensures Seqs.Lookup(CreditPackages, CreditPackages[i].0) == Some(CreditPackages[i].1)
    {
      var j := Seqs.LookupIndex(CreditPackages, CreditPackages[i].0);
      assert j == i;
    }
  }

  /** No two packages share an id. */
  lemma PackageIdsDistinct()
    ensures forall i, j :: 0 <= i < j < |CreditPackages| ==> CreditPackages[i].0 != CreditPackages[j].0
  {
    assert |CreditPackages[0].0| == 7 && |CreditPackages[1].0| == 3;
    assert |CreditPackages[2].0| == 8 && |CreditPackages[3].0| == 10;
  }

  datatype Status = Pending | Success | Failed | Refunded

  datatype Transaction = Transaction(
    id: nat,
    userId: nat,
    orderId: string,
    paymentId: Option<string>,
    amount: nat,                // in rupees
    currency: string,
    credits: nat,
    status: Status,
    paymentMethod: Option<string>,
    paymentGateway: string,
    failureReason: Option<string>)

  /** What the gateway reports for a payment. */
  datatype GatewayPayment = GatewayPayment(status: string, paymentMethod: string)

  /** The order sent to the gateway: the price in paise, always in rupees. */
  datatype OrderRequest = OrderRequest(amount: nat, currency: string, credits: nat, packageName: string)

  function OrderFor(p: Package): (o: OrderRequest)
    ensures o.amount == p.price * 100 && o.currency == "INR" && o.credits == p.credits
  {
    OrderRequest(p.price * 100, "INR", p.credits, p.name)
  }

  /** The pending row stored for a new order; the amount goes back to rupees. */
  function PendingTransaction(id: nat, userId: nat, orderId: string, o: OrderRequest): (t: Transaction)
    ensures t.status == Pending && t.credits == o.credits
    ensures o.amount % 100 == 0 ==> t.amount * 100 == o.amount
    ensures t.orderId == orderId && t.userId == userId && t.paymentId.None? && t.failureReason.None?
  {
    Transaction(id, userId, orderId, None, o.amount / 100, o.currency, o.credits, Pending, None, "razorpay", None)
  }

  /** A well-formed package yields a stored amount equal to its price. */
  lemma PendingAmountIsPrice(id: nat, userId: nat, orderId: string, p: Package)
    ensures PendingTransaction(id, userId, orderId, OrderFor(p)).amount == p.price
  {
  }

  /**
   * What a verification call does to its transaction, as written: an invalid
   * signature fails it; otherwise the gateway's answer decides, and a
   * captured payment grants the transaction's credits. `grant` is the number
   * of credits to add to the caller. `GatewayUnavailable` is a payment
   * fetch that threw: the transaction is left as it was, and the call is
   * answered 500 (`Settled`). `MarkedFailed` is the outcome of a
   * `payment.failed` webhook event that marked its transaction failed.
   */
  datatype VerifyOutcome =
    | InvalidSignature | GatewayUnavailable | NotCaptured(gatewayStatus: string) | Captured | AlreadyProcessed
    | MarkedFailed

  datatype Settlement = Settlement(tx: Transaction, grant: Option<nat>, outcome: VerifyOutcome)

  function VerifyAsWritten(tx: Transaction, paymentId: string, signatureOk: bool,
                           payment: Http.Outcome<GatewayPayment>): (s: Settlement)
    ensures s.grant.Some? <==> signatureOk && payment.Ok? && payment.body.status == "captured"
    ensures s.grant.Some? ==> s.grant.value == tx.credits && s.tx.status == Success
    ensures !signatureOk ==> s.tx == tx.(status := Failed, failureReason := Some("Invalid signature"))
    ensures signatureOk && !payment.Ok? ==> s.tx == tx
    ensures signatureOk && payment.Ok? && payment.body.status == "captured" ==>
              s.tx == tx.(paymentId := Some(paymentId), paymentMethod := Some(payment.body.paymentMethod),
                          status := Success)
    ensures signatureOk && payment.Ok? && payment.body.status != "captured" ==>
              s.tx == tx.(paymentId := Some(paymentId), paymentMethod := Some(payment.body.paymentMethod),
                          status := Failed, failureReason := Some(payment.body.status))
  {
    if !signatureOk then
      Settlement(tx.(status := Failed, failureReason := Some("Invalid signature")), None, InvalidSignature)
    else match payment
      case Ok(p) =>
        var updated := tx.(paymentId := Some(paymentId), paymentMethod := Some(p.paymentMethod));
        if p.status == "captured" then Settlement(updated.(status := Success), Some(tx.credits), Captured)
        else Settlement(updated.(status := Failed, failureReason := Some(p.status)), None, NotCaptured(p.status))
      case _ => Settlement(tx, None, GatewayUnavailable)
  }

  /**
   * The same call with the webhook's guard, checked before anything else: a
   * transaction already settled as paid is left alone whatever the
   * signature, so no call can demote it and have it credited again.
   */
  function VerifyGuarded(tx: Transaction, paymentId: string, signatureOk: bool,
                         payment: Http.Outcome<GatewayPayment>): (s: Settlement)
    ensures tx.status == Success ==> s == Settlement(tx, None, AlreadyProcessed)
    ensures tx.status != Success ==> s == VerifyAsWritten(tx, paymentId, signatureOk, payment)
  {
    if tx.status == Success then Settlement(tx, None, AlreadyProcessed)
    else VerifyAsWritten(tx, paymentId, signatureOk, payment)
  }

  /** As written, replaying a successful verification grants the credits a second time. */
  lemma VerifyAsWrittenCreditsTwice(tx: Transaction, paymentId: string, payMethod: string)
    requires tx.credits > 0
    ensures var payment := Http.Ok(GatewayPayment("captured", payMethod));
            var first := VerifyAsWritten(tx, paymentId, true, payment);
            var second := VerifyAsWritten(first.tx, paymentId, true, payment);
            && first.grant == Some(tx.credits)
            && first.tx.status == Success
            && second.grant == Some(tx.credits)
  {
  }

  /** With the guard, a call that grants credits leaves the transaction paid, and any later call, valid signature or not, leaves it as it is and grants nothing. */
  lemma VerifyGuardedCreditsOnce(tx: Transaction, paymentId: string, signatureOk: bool,
                                 payment: Http.Outcome<GatewayPayment>,
                                 paymentId2: string, signatureOk2: bool,
                                 payment2: Http.Outcome<GatewayPayment>)
    ensures var first := VerifyGuarded(tx, paymentId, signatureOk, payment);
            first.grant.Some? ==>
              && first.tx.status == Success
              && VerifyGuarded(first.tx, paymentId2, signatureOk2, payment2) == Settlement(first.tx, None, AlreadyProcessed)
  {
  }

  /** The payload of a webhook event. */
  datatype PaymentEntity = PaymentEntity(orderId: string, id: string, paymentMethod: string, errorDescription: Option<string>)

  /** What the webhook does to the transaction of its order. */
  datatype WebhookOutcome = BadSignature | TxMissing | AlreadyDone | Processed | ProcessingFailed

  function WebhookCaptured(tx: Transaction, payload: PaymentEntity): (s: Settlement)
    ensures tx.status == Success ==> s.tx == tx && s.grant.None?
    ensures tx.status != Success ==>
              s.tx == tx.(paymentId := Some(payload.id), status := Success, paymentMethod := Some(payload.paymentMethod))
              && s.grant == Some(tx.credits)
  {
    if tx.status == Success then Settlement(tx, None, AlreadyProcessed)
    else Settlement(tx.(paymentId := Some(payload.id), status := Success, paymentMethod := Some(payload.paymentMethod)),
                    Some(tx.credits), Captured)
  }

  /** A `payment.failed` event: the reason is the gateway's description, or 'Payment failed'. */
  function WebhookFailed(tx: Transaction, payload: PaymentEntity): (t: Transaction)
    ensures t == tx.(status := Failed, failureReason := t.failureReason)
    ensures t.failureReason == Some(if payload.errorDescription.Some? && payload.errorDescription.value != ""
                                     then payload.errorDescription.value else "Payment failed")
  {
    tx.(status := Failed,
        failureReason := Some(if payload.errorDescription.Some? && payload.errorDescription.value != ""
                              then payload.errorDescription.value else "Payment failed"))
  }

  /**
   * The `payment.failed` branch with the guard `payment.captured` has: a
   * transaction already settled as paid is left alone.
   */
  function WebhookFailedGuarded(tx: Transaction, payload: PaymentEntity): (t: Transaction)
    ensures tx.status == Success ==> t == tx
    ensures tx.status != Success ==> t == WebhookFailed(tx, payload)
  {
    if tx.status == Success then tx else WebhookFailed(tx, payload)
  }

  /** As written, a `payment.failed` event after `payment.captured` demotes the paid transaction, and a replayed `payment.captured` then grants its credits a second time. */
  lemma WebhookFailedReopensPaid(tx: Transaction, captured: PaymentEntity, failed: PaymentEntity)
    requires tx.status != Success && tx.credits > 0
    ensures var first := WebhookCaptured(tx, captured);
            var second := WebhookCaptured(WebhookFailed(first.tx, failed), captured);
            && first.grant == Some(tx.credits)
            && second.grant == Some(tx.credits)
  {
  }

  /** A repeated `payment.captured` event changes nothing and grants nothing. */
  lemma WebhookCapturedIdempotent(tx: Transaction, payload: PaymentEntity, payload2: PaymentEntity)
    ensures var first := WebhookCaptured(tx, payload);
            WebhookCaptured(first.tx, payload2) == Settlement(first.tx, None, AlreadyProcessed)
  {
  }

  /** One event on a transaction: a verification call, or a webhook event whose signature matched. */
  datatype PaymentEvent =
    | VerifyCall(paymentId: string, signatureOk: bool, payment: Http.Outcome<GatewayPayment>)
    | CapturedEvent(captured: PaymentEntity)
    | FailedEvent(failed: PaymentEntity)

  /** What one event does to its transaction, with the guards. */
  function Apply(tx: Transaction, e: PaymentEvent): (s: Settlement)
    ensures s.tx.credits == tx.credits
    ensures s.grant == (if tx.status != Success && s.tx.status == Success then Some(tx.credits) else None)
    ensures e.FailedEvent? ==> s.outcome == (if tx.status == Success then AlreadyProcessed else MarkedFailed)
  {
    match e
    case VerifyCall(paymentId, signatureOk, payment) => VerifyGuarded(tx, paymentId, signatureOk, payment)
    case CapturedEvent(p) => WebhookCaptured(tx, p)
    case FailedEvent(p) =>
      Settlement(WebhookFailedGuarded(tx, p), None, if tx.status == Success then AlreadyProcessed else MarkedFailed)
  }

  /** The transaction after a run of events, and the credits the run granted in all. */
  function Run(tx: Transaction, events: seq<PaymentEvent>): (Transaction, nat)
    decreases |events|
  {
    if events == [] then (tx, 0)
    else
      var s := Apply(tx, events[0]);
      var (last, granted) := Run(s.tx, events[1..]);
      (last, granted + (if s.grant.Some? then s.grant.value else 0))
  }

  /** Paid is final: once settled as paid, a run keeps the transaction paid and grants nothing. */
  lemma {:induction false} PaidStaysPaid(tx: Transaction, events: seq<PaymentEvent>)
    requires tx.status == Success
    ensures Run(tx, events) == (tx, 0)
    decreases |events|
  {
    if events != [] {
      PaidStaysPaid(Apply(tx, events[0]).tx, events[1..]);
    }
  }

  /**
   * Whatever the order and number of verification calls and webhook events,
   * a transaction's credits are granted exactly once if the run leaves it
   * paid when it was not before, and not at all otherwise.
   */
  lemma {:induction false} RunGrantsOnce(tx: Transaction, events: seq<PaymentEvent>)
    ensures var (last, granted) := Run(tx, events);
            granted == (if tx.status != Success && last.status == Success then tx.credits else 0)
    decreases |events|
  {
    if events == [] {
    } else if tx.status == Success {
      PaidStaysPaid(tx, events);
    } else {
      var s := Apply(tx, events[0]);
      if s.tx.status == Success {
        PaidStaysPaid(s.tx, events[1..]);
      } else {
        RunGrantsOnce(s.tx, events[1..]);
      }
    }
  }

  predicate UniqueOrders(txs: seq<Transaction>) {
    forall i, j :: 0 <= i < j < |txs| ==> txs[i].orderId != txs[j].orderId
  }

  /** `findOne({ where: { orderId[, userId] } })`. */
  function FindTransaction(txs: seq<Transaction>, orderId: string, userId: Option<nat>): (r: Option<nat>)
    ensures r.Some? ==> r.value < |txs| && txs[r.value].orderId == orderId
    ensures r.Some? && userId.Some? ==> txs[r.value].userId == userId.value
    ensures r.None? <==> forall j :: 0 <= j < |txs| ==>
              !(txs[j].orderId == orderId && (userId.None? || txs[j].userId == userId.value))
  {
    if txs == [] then None
    else if txs[0].orderId == orderId && (userId.None? || txs[0].userId == userId.value) then Some(0)
    else match FindTransaction(txs[1..], orderId, userId)
      case None => None
      case Some(k) => Some(k + 1)
  }

  datatype OrderReply =
    | Unauthenticated      // 401 'User not authenticated'
    | GatewayNotConfigured // 500 'Payment gateway not configured. Please contact support.'
    | InvalidPackage       // 400 'Invalid package selected'
    | OrderFailed          // 500 'Failed to create payment order'
    | StoreFailed          // 500 'Failed to create transaction in database'
    | OrderCreated(orderId: string, amount: nat, currency: string, credits: nat, packageName: string, key: string)

  /**
   * How a `payment.captured` event for transaction `k` leaves the ledger and
   * the users: a transaction already paid is left alone; otherwise the
   * owner, if there is one, is credited first, and a balance the INTEGER
   * column cannot hold fails with 500 and saves nothing; else the
   * transaction is saved as paid.
   */
  ghost predicate CapturedAs(txs: seq<Transaction>, txs': seq<Transaction>,
                             rows: seq<UserModel.User>, rows': seq<UserModel.User>,
                             k: nat, payload: PaymentEntity, outcome: WebhookOutcome)
    requires k < |txs|
  {
    var s := WebhookCaptured(txs[k], payload);
    var owner := UserModel.FindByPk(rows, txs[k].userId);
    if s.grant.Some? && owner.Some? && !Db.IsInteger(rows[owner.value].credits + s.grant.value) then
      outcome == ProcessingFailed && txs' == txs && rows' == rows
    else
      && txs' == txs[k := s.tx]
      && outcome == (if txs[k].status == Success then AlreadyDone else Processed)
      && (s.grant.None? || owner.None? ==> rows' == rows)
      && (s.grant.Some? && owner.Some? ==>
            rows' == rows[owner.value := rows[owner.value].(credits := rows[owner.value].credits + s.grant.value)])
  }

  datatype VerifyReply =
    | TransactionNotFound  // 404
    | VerifyFailed         // 500 'Failed to verify payment'
    | Verified(outcome: VerifyOutcome, balance: Option<int>)

  datatype WebhookReply = WebhookReply(outcome: WebhookOutcome)

  /**
   * How `verifyPayment` leaves the ledger, the users and its reply once
   * transaction `k` is settled as `s` for user row `u`. A gateway fetch
   * that throws reaches the catch: 500, nothing saved. Credits are added
   * before the transaction is saved, so a grant the INTEGER column cannot
   * hold also fails with 500 and saves nothing. Otherwise the transaction
   * is saved and the grant, if any, added to the user's balance.
   */
  ghost predicate Settled(txs: seq<Transaction>, txs': seq<Transaction>,
                          rows: seq<UserModel.User>, rows': seq<UserModel.User>,
                          k: nat, u: nat, s: Settlement, reply: VerifyReply)
    requires k < |txs| && u < |rows|
  {
    if s.outcome == GatewayUnavailable || (s.grant.Some? && !Db.IsInteger(rows[u].credits + s.grant.value)) then
      reply == VerifyFailed && txs' == txs && rows' == rows
    else
      && reply.Verified?
      && txs' == txs[k := s.tx]
      && reply.outcome == s.outcome
      && (s.grant.None? ==> rows' == rows && reply.balance.None?)
      && (s.grant.Some? ==>
            rows' == rows[u := rows[u].(credits := rows[u].credits + s.grant.value)]
            && reply.balance == Some(rows[u].credits + s.grant.value))
  }

  /** A gateway fetch that fails, with a valid signature, is answered 500 and saves nothing. */
  lemma GatewayFailureAnswers500(txs: seq<Transaction>, txs': seq<Transaction>,
                                 rows: seq<UserModel.User>, rows': seq<UserModel.User>,
                                 k: nat, u: nat, paymentId: string, payment: Http.Outcome<GatewayPayment>,
                                 reply: VerifyReply)
    requires k < |txs| && u < |rows| && !payment.Ok?
    requires Settled(txs, txs', rows, rows', k, u, VerifyAsWritten(txs[k], paymentId, true, payment), reply)
    ensures reply == VerifyFailed && txs' == txs && rows' == rows
  {
  }

  class PaymentLedger {
    var txs: seq<Transaction>
    var nextId: nat

    ghost predicate Valid()
      reads this
    {
      UniqueOrders(txs) && forall i :: 0 <= i < |txs| ==> txs[i].id < nextId
    }

    constructor ()
      ensures Valid() && txs == []
    {
      txs := [];
      nextId := 0;
    }

    /**
     * `createOrder`: the caller, then the gateway credentials, then the
     * package are checked; then the gateway order is placed and a pending
     * transaction stored for it.
     */
    method CreateOrder(user: Option<UserModel.User>, keyId: Option<string>, keySecret: Option<string>,
                       packageId: string, order: Http.Outcome<string>) returns (reply: OrderReply)
      requires Valid()
      modifies this
      ensures Valid()
      ensures user.None? ==> reply == Unauthenticated
      ensures user.Some? && !(Http.IsSet(keyId) && Http.IsSet(keySecret)) ==> reply == GatewayNotConfigured
      ensures user.Some? && Http.IsSet(keyId) && Http.IsSet(keySecret) && Seqs.Lookup(CreditPackages, packageId).None? ==>
                reply == InvalidPackage
      ensures var known := user.Some? && Http.IsSet(keyId) && Http.IsSet(keySecret)
                           && Seqs.Lookup(CreditPackages, packageId).Some?;
              && (known && !order.Ok? ==> reply == OrderFailed)
              && (known && order.Ok? && FindTransaction(old(txs), order.body, None).Some? ==> reply == StoreFailed)
              && (known && order.Ok? && FindTransaction(old(txs), order.body, None).None? ==>
                    reply.OrderCreated? && reply.orderId == order.body && reply.key == keyId.value
                    && reply.packageName == Seqs.Lookup(CreditPackages, packageId).value.name)
      ensures !reply.OrderCreated? ==> txs == old(txs)
      ensures reply.OrderCreated? ==>
                && user.Some? && order == Http.Ok(reply.orderId)
                && Seqs.Lookup(CreditPackages, packageId).Some?
                && var o := OrderFor(Seqs.Lookup(CreditPackages, packageId).value);
                   && reply.amount == o.amount && reply.credits == o.credits && reply.currency == "INR"
                   && txs == old(txs) + [PendingTransaction(old(nextId), user.value.id, reply.orderId, o)]
    {
      if user.None? {
        return Unauthenticated;
      }
      if !(Http.IsSet(keyId) && Http.IsSet(keySecret)) {
        return GatewayNotConfigured;
      }
      var selected := Seqs.Lookup(CreditPackages, packageId);
      if selected.None? {
        return InvalidPackage;
      }
      var o := OrderFor(selected.value);
      if !order.Ok? {
        return OrderFailed;
      }
      if FindTransaction(txs, order.body, None).Some? {
        return StoreFailed;
      }
      txs := txs + [PendingTransaction(nextId, user.value.id, order.body, o)];
      nextId := nextId + 1;
      reply := OrderCreated(order.body, o.amount, o.currency, o.credits, o.packageName, keyId.value);
    }

    /**
     * `verifyPayment` as written: the caller's transaction for the order is
     * settled by `VerifyAsWritten`, and a captured payment adds its credits
     * to the caller even when the transaction was already paid.
     */
    method VerifyPaymentAsWritten(users: UserModel.UserTable, userId: nat, orderId: string, paymentId: string,
                                  signature: string, keySecret: string, hmac: (string, string) -> string,
                                  payment: Http.Outcome<GatewayPayment>) returns (reply: VerifyReply)
      requires Valid() && users.Valid()
      requires UserModel.FindByPk(users.rows, userId).Some?
      modifies this, users
      ensures Valid() && users.Valid()
      ensures reply == TransactionNotFound <==> FindTransaction(old(txs), orderId, Some(userId)).None?
      ensures reply == TransactionNotFound ==> txs == old(txs) && users.rows == old(users.rows)
      ensures reply != TransactionNotFound ==>
                var k := FindTransaction(old(txs), orderId, Some(userId)).value;
                var s := VerifyAsWritten(old(txs)[k], paymentId, signature == hmac(keySecret, orderId + "|" + paymentId), payment);
                var u := UserModel.FindByPk(old(users.rows), userId).value;
                Settled(old(txs), txs, old(users.rows), users.rows, k, u, s, reply)
    {
      var found := FindTransaction(txs, orderId, Some(userId));
      if found.None? {
        return TransactionNotFound;
      }
      var k := found.value;
      var s := VerifyAsWritten(txs[k], paymentId, signature == hmac(keySecret, orderId + "|" + paymentId), payment);
      reply := Settle(users, userId, k, s);
    }

    /** `verifyPayment` with the webhook's guard: settled by `VerifyGuarded`. */
    method VerifyPayment(users: UserModel.UserTable, userId: nat, orderId: string, paymentId: string,
                         signature: string, keySecret: string, hmac: (string, string) -> string,
                         payment: Http.Outcome<GatewayPayment>) returns (reply: VerifyReply)
      requires Valid() && users.Valid()
      requires UserModel.FindByPk(users.rows, userId).Some?
      modifies this, users
      ensures Valid() && users.Valid()
      ensures reply == TransactionNotFound <==> FindTransaction(old(txs), orderId, Some(userId)).None?
      ensures reply == TransactionNotFound ==> txs == old(txs) && users.rows == old(users.rows)
      ensures reply != TransactionNotFound ==>
                var k := FindTransaction(old(txs), orderId, Some(userId)).value;
                var s := VerifyGuarded(old(txs)[k], paymentId, signature == hmac(keySecret, orderId + "|" + paymentId), payment);
                var u := UserModel.FindByPk(old(users.rows), userId).value;
                Settled(old(txs), txs, old(users.rows), users.rows, k, u, s, reply)
    {
      var found := FindTransaction(txs, orderId, Some(userId));
      if found.None? {
        return TransactionNotFound;
      }
      var k := found.value;
      var s := VerifyGuarded(txs[k], paymentId, signature == hmac(keySecret, orderId + "|" + paymentId), payment);
      reply := Settle(users, userId, k, s);
    }

    /** `transaction.save()`: row `k` takes the new values, keeping its order and id. */
    method Save(k: nat, tx: Transaction)
      requires Valid() && k < |txs| && tx.orderId == txs[k].orderId && tx.id == txs[k].id
      modifies this
      ensures Valid() && txs == old(txs)[k := tx]
    {
      txs := txs[k := tx];
    }

    /** Stores a settled transaction and adds its grant, if any, to the caller.
        Credits are added first: when the new balance does not fit the
        INTEGER column that save throws, the reply is 500 and the
        transaction is not saved. */
    method Settle(users: UserModel.UserTable, userId: nat, k: nat, s: Settlement) returns (reply: VerifyReply)
      requires Valid() && users.Valid() && k < |txs|
      requires s.tx.orderId == txs[k].orderId && s.tx.id == txs[k].id
      requires UserModel.FindByPk(users.rows, userId).Some?
      modifies this, users
      ensures Valid() && users.Valid() && reply != TransactionNotFound
      ensures Settled(old(txs), txs, old(users.rows), users.rows, k,
                      UserModel.FindByPk(old(users.rows), userId).value, s, reply)
    {
      if s.outcome == GatewayUnavailable {
        return VerifyFailed;
      }
      var balance: Option<int> := None;
      if s.grant.Some? {
        var u := UserModel.FindByPk(users.rows, userId).value;
        var b := users.AddCredits(u, s.grant.value);
        if b.Err? {
          return VerifyFailed;
        }
        balance := Some(b.value);
      }
      Save(k, s.tx);
      reply := Verified(s.outcome, balance);
    }

    /** The `payment.captured` branch of `handleWebhook`, once the signature matched. */
    method WebhookCapture(users: UserModel.UserTable, payload: PaymentEntity) returns (outcome: WebhookOutcome)
      requires Valid() && users.Valid()
      modifies this, users
      ensures Valid() && users.Valid()
      ensures outcome != BadSignature
      ensures match FindTransaction(old(txs), payload.orderId, None)
                case None => outcome == TxMissing && txs == old(txs) && users.rows == old(users.rows)
                case Some(k) => CapturedAs(old(txs), txs, old(users.rows), users.rows, k, payload, outcome)
    {
      var found := FindTransaction(txs, payload.orderId, None);
      if found.None? {
        return TxMissing;
      }
      var k := found.value;
      if txs[k].status == Success {
        return AlreadyDone;
      }
      var s := WebhookCaptured(txs[k], payload);
      var owner := UserModel.FindByPk(users.rows, txs[k].userId);
      if owner.Some? {
        var u := owner.value;
        var added := users.AddCredits(u, s.grant.value);
        if added.Err? {
          assert !Db.IsInteger(old(users.rows)[u].credits + s.grant.value);
          return ProcessingFailed;
        }
        assert users.rows == old(users.rows)[u := old(users.rows)[u].(credits := old(users.rows)[u].credits + s.grant.value)];
      }
      Save(k, s.tx);
      outcome := Processed;
    }

    /**
     * `handleWebhook`: an event whose signature does not match the HMAC of
     * its body under the webhook secret (or else the key secret) is refused;
     * `payment.captured` settles the order's transaction once and credits its
     * owner, `payment.failed` marks it failed unless it is already paid
     * (`WebhookFailedGuarded`), other events change nothing.
     */
    method HandleWebhook(users: UserModel.UserTable, rawBody: string, signature: Option<string>,
                         webhookSecret: Option<string>, keySecret: string, hmac: (string, string) -> string,
                         event: string, payload: PaymentEntity) returns (reply: WebhookReply)
      requires Valid() && users.Valid()
      modifies this, users
      ensures Valid() && users.Valid()
      ensures var secret := if Http.IsSet(webhookSecret) then webhookSecret.value else keySecret;
              signature != Some(hmac(secret, rawBody)) <==> reply.outcome == BadSignature
      ensures reply.outcome == BadSignature ==> txs == old(txs) && users.rows == old(users.rows)
      ensures reply.outcome != BadSignature && event == "payment.captured" ==>
                match FindTransaction(old(txs), payload.orderId, None)
                case None => reply.outcome == TxMissing && txs == old(txs) && users.rows == old(users.rows)
                case Some(k) => CapturedAs(old(txs), txs, old(users.rows), users.rows, k, payload, reply.outcome)
      ensures reply.outcome != BadSignature && event == "payment.failed" ==>
                && users.rows == old(users.rows) && reply.outcome == Processed
                && match FindTransaction(old(txs), payload.orderId, None)
                   case None => txs == old(txs)
                   case Some(k) => txs == old(txs)[k := WebhookFailedGuarded(old(txs)[k], payload)]
      ensures reply.outcome != BadSignature && event != "payment.captured" && event != "payment.failed" ==>
                txs == old(txs) && users.rows == old(users.rows) && reply.outcome == Processed
    {
      var secret := if Http.IsSet(webhookSecret) then webhookSecret.value else keySecret;
      if signature != Some(hmac(secret, rawBody)) {
        return WebhookReply(BadSignature);
      }
      if event == "payment.captured" {
        var outcome := WebhookCapture(users, payload);
        reply := WebhookReply(outcome);
      } else if event == "payment.failed" {
        var found := FindTransaction(txs, payload.orderId, None);
        if found.Some? {
          var k := found.value;
          Save(k, WebhookFailedGuarded(txs[k], payload));
        }
        reply := WebhookReply(Processed);
      } else {
        reply := WebhookReply(Processed);
      }
    }
  }
}

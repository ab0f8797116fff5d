/** The payment routes as a state machine over the store: `/pay` creates a PENDING
    payment before calling the gateway, `/redirect` reports the outcome and the days left,
    and `/callback` writes the gateway's verdict onto the payment and extends the
    subscription. Each handler is one sequential step over the store. */
module PaymentRoutes {
  import opened Common
  import opened Store
  import Telebirr

  // ---------------------------------------------------------------- order ids

  /** `s.slice(-6)`: the last six characters, or all of a shorter string. */
  function Last6(s: string): (r: string)
    ensures |r| == (if |s| < 6 then |s| else 6)
    ensures r == s[|s| - |r|..]
  {
    if |s| <= 6 then s else s[|s| - 6..]
  }

  /** The order id of a payment started at `nowMs` by `userId`. */
  function OrderIdFor(nowMs: nat, userId: string): string {
    "ORDER_" + NatToString(nowMs) + "_" + Last6(userId)
  }

  /** The order id is "ORDER_", the decimal timestamp, "_" and the user id's tail. */
  lemma OrderIdShape(nowMs: nat, userId: string)
    ensures StartsWith(OrderIdFor(nowMs, userId), "ORDER_" + NatToString(nowMs) + "_")
    ensures OrderIdFor(nowMs, userId)[|OrderIdFor(nowMs, userId)| - |Last6(userId)|..] == Last6(userId)
  {
    var a := OrderIdFor(nowMs, userId);
    var p := "ORDER_" + NatToString(nowMs) + "_";
    assert a == p + Last6(userId);
    assert a[..|p|] == p;
    assert a[|p|..] == Last6(userId);
  }

  lemma CancelAround(p: string, x: string, y: string, t: string)
    requires p + x + t == p + y + t
    ensures x == y
  {
    assert |x| == |y|;
    forall k | 0 <= k < |x| ensures x[k] == y[k] {
      assert x[k] == (p + x + t)[|p| + k];
      assert y[k] == (p + y + t)[|p| + k];
    }
  }

  /** Two order ids of one user differ exactly when their timestamps do. */
  lemma OrderIdInjective(nowMs: nat, other: nat, userId: string)
    ensures OrderIdFor(nowMs, userId) == OrderIdFor(other, userId) <==> nowMs == other
  {
    var t := "_" + Last6(userId);
    assert OrderIdFor(nowMs, userId) == "ORDER_" + NatToString(nowMs) + t;
    assert OrderIdFor(other, userId) == "ORDER_" + NatToString(other) + t;
    if OrderIdFor(nowMs, userId) == OrderIdFor(other, userId) {
      CancelAround("ORDER_", NatToString(nowMs), NatToString(other), t);
      DigitsValueOfNatToString(nowMs);
      DigitsValueOfNatToString(other);
    }
  }

  /** Every order id the route creates holds an underscore, which the gateway's
      sanitised `merch_order_id` never does. */
  lemma OrderIdHasUnderscore(nowMs: nat, userId: string)
    ensures '_' in OrderIdFor(nowMs, userId)
    ensures '_' !in Telebirr.MerchOrderId(OrderIdFor(nowMs, userId))
  {
    var o := OrderIdFor(nowMs, userId);
    assert o[5] == '_';
    var m := Telebirr.MerchOrderId(o);
    assert forall k :: 0 <= k < |m| ==> m[k] != '_';
  }

  // ---------------------------------------------------------------- /pay

  const DefaultFrontendUrl: string := "http://localhost:5173"

  /** The authenticated user, the body's planId, the instant and FRONTEND_URL. */
  datatype PayInput = PayInput(planId: Option<string>, userId: string, nowMs: nat, frontendUrl: Option<string>)

  datatype PayFailure = DuplicateOrder | Gateway(error: Telebirr.OrderError)

  datatype PayReply =
    | PayOk(orderId: string, checkoutUrl: string, prepayId: string)
    | PayRejected(status: int, message: string)
    | PayFailed(cause: PayFailure)

  /** The pre-order request: amount the plan's price, return and cancel pages under the
      frontend URL (`||` default). */
  function PayRequest(input: PayInput, plan: Plan, orderId: string): Telebirr.PaymentRequest
    requires input.planId.Some?
  {
    var base := OrElse(input.frontendUrl, DefaultFrontendUrl);
    Telebirr.PaymentRequest(orderId, plan.price, input.userId, input.planId.value,
                            base + "/payment/success", base + "/payment/cancel")
  }

  /** The PENDING record `/pay` creates before it calls the gateway. */
  function PendingRecord(id: nat, orderId: string, input: PayInput, plan: Plan): Payment {
    Payment(id, orderId, input.userId, plan.id, plan.price, Pending, input.nowMs, None, None)
  }

  /** The gateway's answer to a pre-order request. */
  type GatewayCall = Telebirr.PaymentRequest -> Result<Telebirr.Checkout, Telebirr.OrderError>

  /** The gateway `/pay` calls: Telebirr's `createPayment` under the service and effects. */
  function TelebirrGateway(svc: Telebirr.Service, fx: Telebirr.Effects): GatewayCall
    requires Telebirr.ValidEffects(fx)
  {
    (req: Telebirr.PaymentRequest) => Telebirr.CreatePayment(svc, req, fx)
  }

  /** The checks `/pay` makes before it writes: the plan to charge for, or the refusal. */
  function PayCheck(ps: seq<Payment>, plans: seq<Plan>, input: PayInput): (r: Result<Plan, PayReply>)
    ensures r.Ok? ==> input.planId.Some?
  {
    if !Truthy(input.planId) then Err(PayRejected(400, "Plan ID is required"))
    else
      match FindPlan(plans, input.planId.value)
      case None => Err(PayRejected(404, "Subscription plan not found"))
      case Some(plan) =>
        if plan.price == 0 then Err(PayRejected(400, "Cannot process payment for free plan"))
        else if FindPayment(ps, OrderIdFor(input.nowMs, input.userId)).Some? then Err(PayFailed(DuplicateOrder))
        else Ok(plan)
  }

  /** The payments, the next record id and the reply after `/pay`. */
  function PayEffect(ps: seq<Payment>, nextId: nat, plans: seq<Plan>, input: PayInput, gateway: GatewayCall)
    : (seq<Payment>, nat, PayReply)
  {
    match PayCheck(ps, plans, input)
    case Err(reply) => (ps, nextId, reply)
    case Ok(plan) =>
      var orderId := OrderIdFor(input.nowMs, input.userId);
      AfterGateway(ps + [PendingRecord(nextId, orderId, input, plan)], nextId + 1,
                   gateway(PayRequest(input, plan, orderId)))
  }

  /** The store and reply once the gateway has answered: the prepay id is written onto
      the record just created, or the error is passed on with the record left as it is. */
  function AfterGateway(ps: seq<Payment>, nextId: nat, outcome: Result<Telebirr.Checkout, Telebirr.OrderError>)
    : (seq<Payment>, nat, PayReply)
    requires |ps| > 0
  {
    match outcome
    case Err(e) => (ps, nextId, PayFailed(Gateway(e)))
    case Ok(c) =>
      var last := ps[|ps| - 1];
      (ps[|ps| - 1 := last.(prepayId := Some(c.prepayId))], nextId, PayOk(last.orderId, c.checkoutUrl, c.prepayId))
  }

  /** A missing planId, an unknown plan and a free plan are refused with 400, 404 and 400,
      and no payment is recorded. */
  lemma PayRejections(ps: seq<Payment>, nextId: nat, plans: seq<Plan>, input: PayInput,
                      gateway: GatewayCall)
    ensures !Truthy(input.planId) ==> PayEffect(ps, nextId, plans, input, gateway).2 == PayRejected(400, "Plan ID is required")
    ensures Truthy(input.planId) && FindPlan(plans, input.planId.value).None? ==>
              PayEffect(ps, nextId, plans, input, gateway).2.PayRejected?
              && PayEffect(ps, nextId, plans, input, gateway).2.status == 404
    ensures Truthy(input.planId) && FindPlan(plans, input.planId.value).Some?
            && FindPlan(plans, input.planId.value).value.price == 0 ==>
              PayEffect(ps, nextId, plans, input, gateway).2.PayRejected?
              && PayEffect(ps, nextId, plans, input, gateway).2.status == 400
    ensures PayEffect(ps, nextId, plans, input, gateway).2.PayRejected? ==>
              PayEffect(ps, nextId, plans, input, gateway).0 == ps
              && PayEffect(ps, nextId, plans, input, gateway).1 == nextId
  {
  }

  /** Once the checks pass, exactly one payment is appended: PENDING, for the plan's price,
      under the fresh order id. When the gateway call fails it keeps no prepay id; when it
      succeeds it carries the prepay id the reply returns. Nothing else changes. */
  lemma PayRecordsPending(ps: seq<Payment>, nextId: nat, plans: seq<Plan>, input: PayInput,
                          gateway: GatewayCall)
    requires Truthy(input.planId) && FindPlan(plans, input.planId.value).Some?
    requires FindPlan(plans, input.planId.value).value.price != 0
    requires FindPayment(ps, OrderIdFor(input.nowMs, input.userId)).None?
    ensures var (ps', id', reply) := PayEffect(ps, nextId, plans, input, gateway);
            var plan := FindPlan(plans, input.planId.value).value;
            && |ps'| == |ps| + 1 && ps'[..|ps|] == ps && id' == nextId + 1
            && ps'[|ps|].status == Pending && ps'[|ps|].amount == plan.price && ps'[|ps|].planId == plan.id
            && ps'[|ps|].orderId == OrderIdFor(input.nowMs, input.userId) && ps'[|ps|].userId == input.userId
            && (reply.PayFailed? ==> ps'[|ps|].prepayId == None)
            && (reply.PayOk? ==> ps'[|ps|].prepayId == Some(reply.prepayId)
                                 && reply.orderId == ps'[|ps|].orderId)
  {
    var plan := FindPlan(plans, input.planId.value).value;
    var orderId := OrderIdFor(input.nowMs, input.userId);
    var record := PendingRecord(nextId, orderId, input, plan);
    match gateway(PayRequest(input, plan, orderId))
    case Err(e) =>
      assert (ps + [record])[..|ps|] == ps;
    case Ok(c) =>
      assert (ps + [record.(prepayId := Some(c.prepayId))])[..|ps|] == ps;
  }

  /** The gateway stage changes no order id and adds no record. */
  lemma AfterGatewayKeepsOrderIds(ps: seq<Payment>, nextId: nat, outcome: Result<Telebirr.Checkout, Telebirr.OrderError>)
    requires |ps| > 0
    ensures |AfterGateway(ps, nextId, outcome).0| == |ps|
    ensures forall k :: 0 <= k < |ps| ==> AfterGateway(ps, nextId, outcome).0[k].orderId == ps[k].orderId
  {
  }

  /** `/pay` keeps the order ids unique: a colliding order id is refused. */
  lemma PayKeepsUniqueOrderIds(ps: seq<Payment>, nextId: nat, plans: seq<Plan>, input: PayInput,
                               gateway: GatewayCall)
    requires UniqueOrderIds(ps)
    ensures UniqueOrderIds(PayEffect(ps, nextId, plans, input, gateway).0)
  {
    match PayCheck(ps, plans, input)
    case Err(_) =>
    case Ok(plan) =>
      var orderId := OrderIdFor(input.nowMs, input.userId);
      var created := ps + [PendingRecord(nextId, orderId, input, plan)];
      assert UniqueOrderIds(created);
      var outcome := gateway(PayRequest(input, plan, orderId));
      AfterGatewayKeepsOrderIds(created, nextId + 1, outcome);
  }

  /** The `/pay` handler over the store. */
  method Pay(db: Db, input: PayInput, svc: Telebirr.Service, fx: Telebirr.Effects) returns (reply: PayReply)
    requires db.Valid() && Telebirr.ValidEffects(fx)
    modifies db`payments, db`nextPaymentId
    ensures db.Valid()
    ensures (db.payments, db.nextPaymentId, reply)
            == PayEffect(old(db.payments), old(db.nextPaymentId), db.plans, input, TelebirrGateway(svc, fx))
  {
    var ps, nextId := db.payments, db.nextPaymentId;
    var check := PayCheck(ps, db.plans, input);
    if check.Err? {
      return check.error;
    }
    var plan := check.value;
    var orderId := OrderIdFor(input.nowMs, input.userId);
    var record := PendingRecord(nextId, orderId, input, plan);
    db.AddPayment(record);
    var outcome := TelebirrGateway(svc, fx)(PayRequest(input, plan, orderId));
    PayEffectPasses(ps, nextId, db.plans, input, TelebirrGateway(svc, fx), plan);
    reply := RecordGatewayOutcome(db, outcome);
  }

  lemma PayEffectPasses(ps: seq<Payment>, nextId: nat, plans: seq<Plan>, input: PayInput,
                        gateway: GatewayCall, plan: Plan)
    requires PayCheck(ps, plans, input) == Ok(plan)
    ensures PayEffect(ps, nextId, plans, input, gateway)
            == AfterGateway(ps + [PendingRecord(nextId, OrderIdFor(input.nowMs, input.userId), input, plan)], nextId + 1,
                            gateway(PayRequest(input, plan, OrderIdFor(input.nowMs, input.userId))))
  {
  }

  /** The prepay id write after the gateway call, onto the record `/pay` just created. */
  method RecordGatewayOutcome(db: Db, outcome: Result<Telebirr.Checkout, Telebirr.OrderError>)
    returns (reply: PayReply)
    requires db.Valid() && |db.payments| > 0
    modifies db`payments
    ensures db.Valid()
    ensures (db.payments, db.nextPaymentId, reply) == AfterGateway(old(db.payments), db.nextPaymentId, outcome)
  {
    match outcome
    case Err(e) =>
      reply := PayFailed(Gateway(e));
    case Ok(c) =>
      var last := db.payments[|db.payments| - 1];
      db.payments := db.payments[|db.payments| - 1 := last.(prepayId := Some(c.prepayId))];
      reply := PayOk(last.orderId, c.checkoutUrl, c.prepayId);
  }

  // ---------------------------------------------------------------- /redirect

  /** max(0, ceil((endDate - now) / one day)). */
  function DaysRemaining(endDate: int, now: int): (days: nat)
  {
    var d := Max(0, CeilDiv(endDate - now, DayMs));
    d
  }

  /** Days remaining is positive exactly while the subscription runs, and is then the
      least whole number of days covering the time left. */
  lemma DaysRemainingSpec(endDate: int, now: int)
    ensures DaysRemaining(endDate, now) > 0 <==> endDate > now
    ensures endDate > now ==> (DaysRemaining(endDate, now) - 1) * DayMs < endDate - now
                              <= DaysRemaining(endDate, now) * DayMs
  {
    var q := CeilDiv(endDate - now, DayMs);
    assert q * DayMs - DayMs < endDate - now <= q * DayMs;
    if endDate > now {
      assert q > 0;
    } else {
      assert q <= 0;
    }
  }

  datatype RedirectReply =
    | RedirectRejected(status: int, message: string)
    | RedirectOk(success: bool, subscriptionId: string, subscriptionStatus: SubscriptionStatus,
                 plan: Option<Plan>, daysRemaining: nat)

  /** The `/redirect` reply: it reads the store and writes nothing. */
  function Redirect(ps: seq<Payment>, ss: seq<Subscription>, plans: seq<Plan>,
                    merchOrderId: Option<string>, tradeStatus: Option<string>, now: int): RedirectReply
  {
    if !Truthy(merchOrderId) || !Truthy(tradeStatus) then RedirectRejected(400, "Missing params")
    else
      match FindPayment(ps, merchOrderId.value)
      case None => RedirectRejected(404, "Payment not found")
      case Some(i) =>
        match FindSubscription(ss, ps[i].userId)
        case None => RedirectRejected(404, "Subscription not found")
        case Some(j) =>
          var s := ss[j];
          RedirectOk(tradeStatus == Some("TRADE_SUCCESS"), s.id, s.status, FindPlan(plans, s.planId),
                     DaysRemaining(s.endDate, now))
  }

  /** Missing parameters give 400, an unknown order 404 "Payment not found" and a payer
      without a subscription 404 "Subscription not found"; every other request is
      answered, `success` holding exactly for TRADE_SUCCESS, with the payer's own
      subscription, its plan and its days remaining. */
  lemma RedirectSpec(ps: seq<Payment>, ss: seq<Subscription>, plans: seq<Plan>,
                     merchOrderId: Option<string>, tradeStatus: Option<string>, now: int)
    ensures var r := Redirect(ps, ss, plans, merchOrderId, tradeStatus, now);
            && (!Truthy(merchOrderId) || !Truthy(tradeStatus) ==> r == RedirectRejected(400, "Missing params"))
            && (Truthy(merchOrderId) && Truthy(tradeStatus) && FindPayment(ps, merchOrderId.value).None?
                ==> r == RedirectRejected(404, "Payment not found"))
            && (Truthy(merchOrderId) && Truthy(tradeStatus) && FindPayment(ps, merchOrderId.value).Some?
                && FindSubscription(ss, ps[FindPayment(ps, merchOrderId.value).value].userId).None?
                ==> r == RedirectRejected(404, "Subscription not found"))
            && (Truthy(merchOrderId) && Truthy(tradeStatus) && FindPayment(ps, merchOrderId.value).Some?
                && FindSubscription(ss, ps[FindPayment(ps, merchOrderId.value).value].userId).Some?
                ==> r.RedirectOk?)
            && (r.RedirectOk? ==>
                  (r.success <==> tradeStatus == Some("TRADE_SUCCESS"))
                  && exists i, j :: 0 <= i < |ps| && 0 <= j < |ss| && ps[i].orderId == merchOrderId.value
                                    && ss[j].userId == ps[i].userId && r.subscriptionId == ss[j].id
                                    && r.subscriptionStatus == ss[j].status
                                    && r.plan == FindPlan(plans, ss[j].planId)
                                    && r.daysRemaining == DaysRemaining(ss[j].endDate, now))
  {
    var r := Redirect(ps, ss, plans, merchOrderId, tradeStatus, now);
    if r.RedirectOk? {
      var i := FindPayment(ps, merchOrderId.value).value;
      var j := FindSubscription(ss, ps[i].userId).value;
      assert ps[i].orderId == merchOrderId.value && ss[j].userId == ps[i].userId;
    }
  }

  /** In a well-formed store, a redirect naming the order of the `i`-th payment, whose
      payer holds the `j`-th subscription, reports that subscription. */
  lemma RedirectFindsPayer(ps: seq<Payment>, ss: seq<Subscription>, plans: seq<Plan>,
                           i: nat, j: nat, tradeStatus: string, now: int)
    requires UniqueOrderIds(ps) && UniqueSubscribers(ss)
    requires i < |ps| && j < |ss| && ss[j].userId == ps[i].userId
    requires ps[i].orderId != "" && tradeStatus != ""
    ensures Redirect(ps, ss, plans, Some(ps[i].orderId), Some(tradeStatus), now)
            == RedirectOk(tradeStatus == "TRADE_SUCCESS", ss[j].id, ss[j].status,
                          FindPlan(plans, ss[j].planId), DaysRemaining(ss[j].endDate, now))
  {
    FindPaymentUnique(ps, i);
    FindSubscriptionUnique(ss, j);
  }

  // ---------------------------------------------------------------- /callback

  /** The body fields the callback reads. */
  datatype CallbackInput = CallbackInput(merchOrderId: Option<string>, tradeStatus: Option<string>,
                                         transId: Option<string>, totalAmount: Option<string>)

  datatype CallbackReply = CallbackOk | CallbackRejected(status: int, message: string)

  predicate IsCompleted(tradeStatus: Option<string>) {
    tradeStatus == Some("Completed")
  }

  function NewStatus(tradeStatus: Option<string>): PaymentStatus {
    if IsCompleted(tradeStatus) then Completed else Failed
  }

  /** The payment after the status write. An absent `trans_id` leaves the stored
      transaction id as it was. */
  function Recorded(p: Payment, input: CallbackInput): Payment {
    p.(status := NewStatus(input.tradeStatus), txId := if input.transId.Some? then input.transId else p.txId)
  }

  /** parseFloat(total_amount) in hundredths; an absent amount is NaN, which no price equals. */
  function AmountOf(totalAmount: Option<string>): Option<int> {
    match totalAmount
    case None => None
    case Some(s) => Telebirr.ParseAmount(s)
  }

  function PlanForAmount(plans: seq<Plan>, amount: Option<int>): Option<Plan> {
    match amount
    case None => None
    case Some(a) => FindPlanByPrice(plans, a)
  }

  /** The subscription after a completed payment: the matched plan, ACTIVE, ending
      durationDays after now. */
  function Extended(s: Subscription, plan: Plan, now: int): Subscription {
    s.(planId := plan.id, status := Active, endDate := now + plan.durationDays * DayMs)
  }

  /** The payments, the subscriptions and the reply after `/callback` at `now`. The
      signature is not checked, and the status is written whatever it was before. */
  function CallbackEffect(ps: seq<Payment>, ss: seq<Subscription>, plans: seq<Plan>,
                          input: CallbackInput, now: int): (seq<Payment>, seq<Subscription>, CallbackReply)
  {
    if !Truthy(input.merchOrderId) then (ps, ss, CallbackRejected(400, "Missing orderId"))
    else
      match FindPayment(ps, input.merchOrderId.value)
      case None => (ps, ss, CallbackRejected(404, "Payment not found"))
      case Some(i) =>
        var written := ps[i := Recorded(ps[i], input)];
        if !IsCompleted(input.tradeStatus) then (written, ss, CallbackOk)
        else
          match FindSubscription(ss, ps[i].userId)
          case None => (written, ss, CallbackRejected(404, "No subscription found"))
          case Some(j) =>
            match PlanForAmount(plans, AmountOf(input.totalAmount))
            case None => (written, ss, CallbackRejected(404, "Subscription plan not found"))
            case Some(plan) => (written, ss[j := Extended(ss[j], plan, now)], CallbackOk)
  }

  /** A missing order id gives 400 and an unknown one 404, and neither writes anything. */
  lemma CallbackRejectsWithoutWrite(ps: seq<Payment>, ss: seq<Subscription>, plans: seq<Plan>,
                                    input: CallbackInput, now: int)
    requires !Truthy(input.merchOrderId) || FindPayment(ps, input.merchOrderId.value).None?
    ensures CallbackEffect(ps, ss, plans, input, now).0 == ps
    ensures CallbackEffect(ps, ss, plans, input, now).1 == ss
    ensures CallbackEffect(ps, ss, plans, input, now).2
            == if !Truthy(input.merchOrderId) then CallbackRejected(400, "Missing orderId")
               else CallbackRejected(404, "Payment not found")
  {
  }

  /** For a known order only that payment changes: it becomes COMPLETED exactly when the
      trade status is "Completed" and FAILED otherwise, whatever its status was, with its
      other fields kept. */
  lemma CallbackStatus(ps: seq<Payment>, ss: seq<Subscription>, plans: seq<Plan>,
                       input: CallbackInput, now: int, i: nat)
    requires UniqueOrderIds(ps) && i < |ps|
    requires Truthy(input.merchOrderId) && ps[i].orderId == input.merchOrderId.value
    ensures var ps' := CallbackEffect(ps, ss, plans, input, now).0;
            && |ps'| == |ps|
            && (forall k :: 0 <= k < |ps| && k != i ==> ps'[k] == ps[k])
            && (ps'[i].status == Completed <==> input.tradeStatus == Some("Completed"))
            && (ps'[i].status != Completed ==> ps'[i].status == Failed)
            && ps'[i] == ps[i].(status := ps'[i].status, txId := ps'[i].txId)
            && (input.transId.Some? ==> ps'[i].txId == input.transId)
            && (input.transId.None? ==> ps'[i].txId == ps[i].txId)
  {
    var r := FindPayment(ps, input.merchOrderId.value);
    assert r == Some(i);
  }

  /** The stored status is never consulted: a callback leaves the same store whatever the
      payment's status was, so a later failed callback turns COMPLETED into FAILED. */
  lemma CallbackIgnoresCurrentStatus(ps: seq<Payment>, ss: seq<Subscription>, plans: seq<Plan>,
                                     input: CallbackInput, now: int, i: nat, st: PaymentStatus)
    requires UniqueOrderIds(ps) && i < |ps|
    requires Truthy(input.merchOrderId) && ps[i].orderId == input.merchOrderId.value
    ensures CallbackEffect(ps[i := ps[i].(status := st)], ss, plans, input, now)
            == CallbackEffect(ps, ss, plans, input, now)
    ensures ps[i].status == Completed && !IsCompleted(input.tradeStatus) ==>
              CallbackEffect(ps, ss, plans, input, now).0[i].status == Failed
  {
    var qs := ps[i := ps[i].(status := st)];
    assert UniqueOrderIds(qs);
    FindPaymentUnique(ps, i);
    FindPaymentUnique(qs, i);
    assert qs[i := Recorded(qs[i], input)] == ps[i := Recorded(ps[i], input)];
  }

  /** A completed callback for a payer with a subscription, whose amount matches a plan,
      makes that subscription ACTIVE on the plan until now + durationDays, counted from
      now and not from the old end date; other subscriptions are untouched. */
  lemma CallbackExtendsFromNow(ps: seq<Payment>, ss: seq<Subscription>, plans: seq<Plan>,
                               input: CallbackInput, now: int, i: nat, j: nat)
    requires UniqueOrderIds(ps) && UniqueSubscribers(ss) && i < |ps| && j < |ss|
    requires Truthy(input.merchOrderId) && ps[i].orderId == input.merchOrderId.value
    requires IsCompleted(input.tradeStatus) && ss[j].userId == ps[i].userId
    ensures var (_, ss', reply) := CallbackEffect(ps, ss, plans, input, now);
            && |ss'| == |ss|
            && (forall k :: 0 <= k < |ss| && k != j ==> ss'[k] == ss[k])
            && (reply == CallbackOk <==> PlanForAmount(plans, AmountOf(input.totalAmount)).Some?)
            && (reply == CallbackOk ==>
                  var plan := PlanForAmount(plans, AmountOf(input.totalAmount)).value;
                  && plan in plans && Some(plan.price) == AmountOf(input.totalAmount)
                  && ss'[j] == ss[j].(planId := plan.id, status := Active,
                                      endDate := now + plan.durationDays * DayMs))
            && (reply != CallbackOk ==> ss' == ss)
  {
    assert FindPayment(ps, input.merchOrderId.value) == Some(i);
    var r := FindSubscription(ss, ps[i].userId);
    assert r == Some(j);
  }

  /** A completed callback whose payer has no subscription still writes the status, then
      answers 404. */
  lemma CallbackWritesBeforeSubscriptionCheck(ps: seq<Payment>, ss: seq<Subscription>, plans: seq<Plan>,
                                              input: CallbackInput, now: int, i: nat)
    requires UniqueOrderIds(ps) && i < |ps|
    requires Truthy(input.merchOrderId) && ps[i].orderId == input.merchOrderId.value
    requires IsCompleted(input.tradeStatus) && FindSubscription(ss, ps[i].userId).None?
    ensures CallbackEffect(ps, ss, plans, input, now)
            == (ps[i := Recorded(ps[i], input)], ss, CallbackRejected(404, "No subscription found"))
  {
    assert FindPayment(ps, input.merchOrderId.value) == Some(i);
  }

  /** Repeating a completed callback is not idempotent: the second one extends the
      subscription again, from its own instant. */
  lemma CallbackRepeatExtendsAgain(ps: seq<Payment>, ss: seq<Subscription>, plans: seq<Plan>,
                                   input: CallbackInput, now1: int, now2: int, i: nat, j: nat, plan: Plan)
    requires UniqueOrderIds(ps) && UniqueSubscribers(ss) && i < |ps| && j < |ss|
    requires Truthy(input.merchOrderId) && ps[i].orderId == input.merchOrderId.value
    requires IsCompleted(input.tradeStatus) && ss[j].userId == ps[i].userId
    requires PlanForAmount(plans, AmountOf(input.totalAmount)) == Some(plan)
    ensures var (ps1, ss1, reply1) := CallbackEffect(ps, ss, plans, input, now1);
            var (_, ss2, reply2) := CallbackEffect(ps1, ss1, plans, input, now2);
            && reply1 == CallbackOk && reply2 == CallbackOk
            && |ss1| == |ss| && |ss2| == |ss|
            && ss1[j].endDate == now1 + plan.durationDays * DayMs
            && ss2[j].endDate == now2 + plan.durationDays * DayMs
            && (now1 != now2 && plan.durationDays > 0 ==> ss2 != ss1)
  {
    CallbackExtendsFromNow(ps, ss, plans, input, now1, i, j);
    var (ps1, ss1, _) := CallbackEffect(ps, ss, plans, input, now1);
    CallbackStatus(ps, ss, plans, input, now1, i);
    assert ps1[i].orderId == ps[i].orderId && ps1[i].userId == ps[i].userId;
    assert UniqueOrderIds(ps1);
    assert UniqueSubscribers(ss1);
    CallbackExtendsFromNow(ps1, ss1, plans, input, now2, i, j);
  }

  /** A callback keeps order ids and subscribers unique. */
  lemma CallbackKeepsValid(ps: seq<Payment>, ss: seq<Subscription>, plans: seq<Plan>,
                           input: CallbackInput, now: int)
    requires UniqueOrderIds(ps) && UniqueSubscribers(ss)
    ensures UniqueOrderIds(CallbackEffect(ps, ss, plans, input, now).0)
    ensures UniqueSubscribers(CallbackEffect(ps, ss, plans, input, now).1)
  {
  }

  /** When the gateway echoes the sanitised `merch_order_id` it was sent, no payment the
      route created has that id (each holds an underscore), so the callback answers 404 and
      writes nothing. */
  lemma CallbackWithSanitisedIdNotFound(ps: seq<Payment>, ss: seq<Subscription>, plans: seq<Plan>,
                                        input: CallbackInput, now: int, nowMs: nat, userId: string)
    requires forall k :: 0 <= k < |ps| ==> '_' in ps[k].orderId
    requires input.merchOrderId == Some(Telebirr.MerchOrderId(OrderIdFor(nowMs, userId)))
    requires Truthy(input.merchOrderId)
    ensures CallbackEffect(ps, ss, plans, input, now) == (ps, ss, CallbackRejected(404, "Payment not found"))
  {
    var m := input.merchOrderId.value;
    OrderIdHasUnderscore(nowMs, userId);
    assert forall k :: 0 <= k < |ps| ==> ps[k].orderId != m;
  }

  /** The same holds for `/redirect`: the echoed id names no payment, so it answers 404. */
  lemma RedirectWithSanitisedIdNotFound(ps: seq<Payment>, ss: seq<Subscription>, plans: seq<Plan>,
                                        tradeStatus: string, now: int, nowMs: nat, userId: string)
    requires forall k :: 0 <= k < |ps| ==> '_' in ps[k].orderId
    requires tradeStatus != ""
    ensures var m := Telebirr.MerchOrderId(OrderIdFor(nowMs, userId));
            m != "" ==> Redirect(ps, ss, plans, Some(m), Some(tradeStatus), now) == RedirectRejected(404, "Payment not found")
  {
    var m := Telebirr.MerchOrderId(OrderIdFor(nowMs, userId));
    OrderIdHasUnderscore(nowMs, userId);
    assert forall k :: 0 <= k < |ps| ==> ps[k].orderId != m;
  }

  // ---------------------------------------------------------------- echoed ids, corrected

  /** The last payment whose sanitised order id is the `merch_order_id` the gateway echoes:
      the look-up the gateway's own id calls for. */
  function FindEchoed(ps: seq<Payment>, merchOrderId: string): (r: Option<nat>)
    ensures r.Some? ==> r.value < |ps| && Telebirr.MerchOrderId(ps[r.value].orderId) == merchOrderId
    ensures r.None? ==> forall k :: 0 <= k < |ps| ==> Telebirr.MerchOrderId(ps[k].orderId) != merchOrderId
    decreases |ps|
  {
    if |ps| == 0 then None
    else if Telebirr.MerchOrderId(ps[|ps| - 1].orderId) == merchOrderId then Some(|ps| - 1)
    else FindEchoed(ps[..|ps| - 1], merchOrderId)
  }

  /** No two payments share a sanitised order id. */
  predicate UniqueMerchOrderIds(ps: seq<Payment>) {
    forall k, l :: 0 <= k < l < |ps| ==> Telebirr.MerchOrderId(ps[k].orderId) != Telebirr.MerchOrderId(ps[l].orderId)
  }

  /** `/callback` with the echoed id resolved through its sanitised form: the handler runs
      on the order id of the payment the echoed id was made from, or on the echoed id
      itself when no payment sanitises to it. */
  function CallbackEchoed(ps: seq<Payment>, ss: seq<Subscription>, plans: seq<Plan>,
                          input: CallbackInput, now: int): (seq<Payment>, seq<Subscription>, CallbackReply)
  {
    if !Truthy(input.merchOrderId) then CallbackEffect(ps, ss, plans, input, now)
    else
      match FindEchoed(ps, input.merchOrderId.value)
      case None => CallbackEffect(ps, ss, plans, input, now)
      case Some(i) => CallbackEffect(ps, ss, plans, input.(merchOrderId := Some(ps[i].orderId)), now)
  }

  /** `/redirect` with the echoed id resolved through its sanitised form. */
  function RedirectEchoed(ps: seq<Payment>, ss: seq<Subscription>, plans: seq<Plan>,
                          merchOrderId: Option<string>, tradeStatus: Option<string>, now: int): RedirectReply
  {
    if !Truthy(merchOrderId) then Redirect(ps, ss, plans, merchOrderId, tradeStatus, now)
    else
      match FindEchoed(ps, merchOrderId.value)
      case None => Redirect(ps, ss, plans, merchOrderId, tradeStatus, now)
      case Some(i) => Redirect(ps, ss, plans, Some(ps[i].orderId), tradeStatus, now)
  }

  /** The sanitised id of a stored order always finds a payment carrying it, and with
      unique sanitised ids exactly that order. */
  lemma EchoedIdFindsPayment(ps: seq<Payment>, i: nat)
    requires i < |ps|
    ensures FindEchoed(ps, Telebirr.MerchOrderId(ps[i].orderId)).Some?
    ensures UniqueMerchOrderIds(ps) ==> FindEchoed(ps, Telebirr.MerchOrderId(ps[i].orderId)) == Some(i)
  {
  }

  /** Helper for the two lemmas below: sanitising only drops characters, so a non-empty
      sanitised id comes from a non-empty order id. */
  lemma EchoedIdNonEmpty(orderId: string)
    requires Telebirr.MerchOrderId(orderId) != ""
    ensures orderId != ""
  {
  }

  /** With unique ids, a callback echoing the sanitised id of the `i`-th payment acts as
      the handler does on that payment's own order id, so every property proved of a known
      order carries over; an id no payment sanitises to still answers 404 and writes
      nothing. */
  lemma CallbackEchoedSpec(ps: seq<Payment>, ss: seq<Subscription>, plans: seq<Plan>,
                           input: CallbackInput, now: int, i: nat)
    requires UniqueOrderIds(ps) && UniqueMerchOrderIds(ps) && i < |ps|
    requires input.merchOrderId == Some(Telebirr.MerchOrderId(ps[i].orderId)) && Truthy(input.merchOrderId)
    ensures CallbackEchoed(ps, ss, plans, input, now)
            == CallbackEffect(ps, ss, plans, input.(merchOrderId := Some(ps[i].orderId)), now)
    ensures var ps' := CallbackEchoed(ps, ss, plans, input, now).0;
            |ps'| == |ps| && (ps'[i].status == Completed <==> IsCompleted(input.tradeStatus))
            && (forall k :: 0 <= k < |ps| && k != i ==> ps'[k] == ps[k])
  {
    EchoedIdFindsPayment(ps, i);
    EchoedIdNonEmpty(ps[i].orderId);
    CallbackStatus(ps, ss, plans, input.(merchOrderId := Some(ps[i].orderId)), now, i);
  }

  /** An id no payment sanitises to gives the as-written 404 and no write. */
  lemma CallbackEchoedUnknown(ps: seq<Payment>, ss: seq<Subscription>, plans: seq<Plan>,
                              input: CallbackInput, now: int)
    requires Truthy(input.merchOrderId)
    requires FindEchoed(ps, input.merchOrderId.value).None? && FindPayment(ps, input.merchOrderId.value).None?
    ensures CallbackEchoed(ps, ss, plans, input, now) == (ps, ss, CallbackRejected(404, "Payment not found"))
  {
  }

  /** With unique ids, a redirect echoing the sanitised id of the `i`-th payment, whose
      payer holds the `j`-th subscription, reports that subscription. */
  lemma RedirectEchoedFindsPayer(ps: seq<Payment>, ss: seq<Subscription>, plans: seq<Plan>,
                                 i: nat, j: nat, tradeStatus: string, now: int)
    requires UniqueOrderIds(ps) && UniqueMerchOrderIds(ps) && UniqueSubscribers(ss)
    requires i < |ps| && j < |ss| && ss[j].userId == ps[i].userId
    requires Telebirr.MerchOrderId(ps[i].orderId) != "" && tradeStatus != ""
    ensures RedirectEchoed(ps, ss, plans, Some(Telebirr.MerchOrderId(ps[i].orderId)), Some(tradeStatus), now)
            == RedirectOk(tradeStatus == "TRADE_SUCCESS", ss[j].id, ss[j].status,
                          FindPlan(plans, ss[j].planId), DaysRemaining(ss[j].endDate, now))
  {
    EchoedIdFindsPayment(ps, i);
    EchoedIdNonEmpty(ps[i].orderId);
    RedirectFindsPayer(ps, ss, plans, i, j, tradeStatus, now);
  }

  /** The `/callback` handler over the store. */
  method Callback(db: Db, input: CallbackInput, now: int) returns (reply: CallbackReply)
    requires db.Valid()
    modifies db`payments, db`subscriptions
    ensures db.Valid()
    ensures (db.payments, db.subscriptions, reply)
            == CallbackEffect(old(db.payments), old(db.subscriptions), db.plans, input, now)
  {
    CallbackKeepsValid(db.payments, db.subscriptions, db.plans, input, now);
    if !Truthy(input.merchOrderId) {
      return CallbackRejected(400, "Missing orderId");
    }
    var found := FindPayment(db.payments, input.merchOrderId.value);
    if found.None? {
      return CallbackRejected(404, "Payment not found");
    }
    var i := found.value;
    var payment := db.payments[i];
    db.payments := db.payments[i := Recorded(payment, input)];
    if !IsCompleted(input.tradeStatus) {
      return CallbackOk;
    }
    var sub := FindSubscription(db.subscriptions, payment.userId);
    if sub.None? {
      return CallbackRejected(404, "No subscription found");
    }
    var plan := PlanForAmount(db.plans, AmountOf(input.totalAmount));
    if plan.None? {
      return CallbackRejected(404, "Subscription plan not found");
    }
    var j := sub.value;
    db.subscriptions := db.subscriptions[j := Extended(db.subscriptions[j], plan.value, now)];
    reply := CallbackOk;
  }
}

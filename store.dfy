/** The database the backend works on, held in memory: users, subscription plans,
    payments, subscriptions and settings, with the uniqueness constraints the queries
    rely on, and the bulk updates and deletes the scheduled jobs run. Times are integer
    milliseconds; amounts are integers in hundredths. */
module Store {
  import opened Common

  datatype PaymentStatus = Pending | Completed | Failed | Cancelled

  datatype SubscriptionStatus = Active | Expired | Cancelled

  datatype User = User(id: string, email: string, name: string, passwordHash: string, role: string,
                       resetToken: Option<string>, resetExpiry: Option<int>)

  datatype Plan = Plan(id: string, name: string, price: int, durationDays: nat, deviceLimit: nat)

  datatype Payment = Payment(id: nat, orderId: string, userId: string, planId: string, amount: int,
                             status: PaymentStatus, createdAt: int,
                             prepayId: Option<string>, txId: Option<string>)

  datatype Subscription = Subscription(id: string, userId: string, planId: string,
                                       status: SubscriptionStatus, endDate: int)

  datatype Setting = Setting(key: string, value: string)

  /** A tracked device and the user who owns it. */
  datatype Device = Device(id: string, userId: string, isActive: bool)

  /** The enum names a query filter is matched against; other text is refused. */
  function ParsePaymentStatus(name: string): (r: Option<PaymentStatus>)
    ensures r.Some? ==> PaymentStatusName(r.value) == name
  {
    if name == "PENDING" then Some(Pending)
    else if name == "COMPLETED" then Some(Completed)
    else if name == "FAILED" then Some(Failed)
    else if name == "CANCELLED" then Some(PaymentStatus.Cancelled)
    else None
  }

  function PaymentStatusName(s: PaymentStatus): string {
    match s
    case Pending => "PENDING"
    case Completed => "COMPLETED"
    case Failed => "FAILED"
    case Cancelled => "CANCELLED"
  }

  function ParseSubscriptionStatus(name: string): (r: Option<SubscriptionStatus>)
    ensures r.Some? ==> SubscriptionStatusName(r.value) == name
  {
    if name == "ACTIVE" then Some(Active)
    else if name == "EXPIRED" then Some(Expired)
    else if name == "CANCELLED" then Some(SubscriptionStatus.Cancelled)
    else None
  }

  function SubscriptionStatusName(s: SubscriptionStatus): string {
    match s
    case Active => "ACTIVE"
    case Expired => "EXPIRED"
    case Cancelled => "CANCELLED"
  }

  /** Every status is recognised by its own name. */
  lemma StatusNamesRoundTrip(p: PaymentStatus, s: SubscriptionStatus)
    ensures ParsePaymentStatus(PaymentStatusName(p)) == Some(p)
    ensures ParseSubscriptionStatus(SubscriptionStatusName(s)) == Some(s)
  {
  }

  const HourMs: int := 3_600_000
  const DayMs: int := 86_400_000

  predicate UniqueOrderIds(ps: seq<Payment>) {
    forall i, j :: 0 <= i < j < |ps| ==> ps[i].orderId != ps[j].orderId
  }

  predicate UniqueSubscribers(ss: seq<Subscription>) {
    forall i, j :: 0 <= i < j < |ss| ==> ss[i].userId != ss[j].userId
  }

  predicate UniqueSettingKeys(ss: seq<Setting>) {
    forall i, j :: 0 <= i < j < |ss| ==> ss[i].key != ss[j].key
  }

  predicate UniqueUsers(us: seq<User>) {
    forall i, j :: 0 <= i < j < |us| ==> us[i].id != us[j].id && us[i].email != us[j].email
  }

  /** Rewriting fields other than the id and the e-mail keeps the users unique. */
  lemma SameKeysKeepUniqueUsers(us: seq<User>, r: seq<User>)
    requires UniqueUsers(us) && |r| == |us|
    requires forall k :: 0 <= k < |us| ==> r[k].id == us[k].id && r[k].email == us[k].email
    ensures UniqueUsers(r)
  {
  }

  // ---------------------------------------------------------------- lookups

  /** findUnique on the order id: the position of the payment with that order id. */
  function FindPayment(ps: seq<Payment>, orderId: string): (r: Option<nat>)
    ensures r.Some? ==> r.value < |ps| && ps[r.value].orderId == orderId
    ensures r.None? ==> forall i :: 0 <= i < |ps| ==> ps[i].orderId != orderId
    decreases |ps|
  {
    if |ps| == 0 then None
    else if ps[|ps| - 1].orderId == orderId then Some(|ps| - 1)
    else FindPayment(ps[..|ps| - 1], orderId)
  }

  /** With unique order ids, an order id is found exactly at the record that holds it. */
  lemma FindPaymentUnique(ps: seq<Payment>, i: nat)
    requires UniqueOrderIds(ps) && i < |ps|
    ensures FindPayment(ps, ps[i].orderId) == Some(i)
  {
    var r := FindPayment(ps, ps[i].orderId);
  }

  /** A record whose order id is not yet stored can be appended without a clash. */
  lemma AppendKeepsUniqueOrderIds(ps: seq<Payment>, p: Payment)
    requires UniqueOrderIds(ps) && FindPayment(ps, p.orderId).None?
    ensures UniqueOrderIds(ps + [p])
  {
    var r := ps + [p];
    forall i, j | 0 <= i < j < |r| ensures r[i].orderId != r[j].orderId {
      if j == |ps| {
        assert r[i] == ps[i];
      }
    }
  }

  /** findUnique on the subscriber: the position of the user's subscription. */
  function FindSubscription(ss: seq<Subscription>, userId: string): (r: Option<nat>)
    ensures r.Some? ==> r.value < |ss| && ss[r.value].userId == userId
    ensures r.None? ==> forall i :: 0 <= i < |ss| ==> ss[i].userId != userId
    decreases |ss|
  {
    if |ss| == 0 then None
    else if ss[|ss| - 1].userId == userId then Some(|ss| - 1)
    else FindSubscription(ss[..|ss| - 1], userId)
  }

  /** With unique subscribers, a user's subscription is found exactly where it is. */
  lemma FindSubscriptionUnique(ss: seq<Subscription>, j: nat)
    requires UniqueSubscribers(ss) && j < |ss|
    ensures FindSubscription(ss, ss[j].userId) == Some(j)
  {
    var r := FindSubscription(ss, ss[j].userId);
  }

  /** findUnique on the plan id. */
  function FindPlan(plans: seq<Plan>, id: string): (r: Option<Plan>)
    ensures r.Some? ==> r.value in plans && r.value.id == id
    ensures r.None? ==> forall i :: 0 <= i < |plans| ==> plans[i].id != id
    decreases |plans|
  {
    if |plans| == 0 then None
    else if plans[0].id == id then Some(plans[0])
    else FindPlan(plans[1..], id)
  }

  /** findFirst on the price: the first plan in table order with that price. */
  function FindPlanByPrice(plans: seq<Plan>, price: int): (r: Option<Plan>)
    ensures r.Some? ==> r.value in plans && r.value.price == price
    ensures r.None? ==> forall i :: 0 <= i < |plans| ==> plans[i].price != price
    decreases |plans|
  {
    if |plans| == 0 then None
    else if plans[0].price == price then Some(plans[0])
    else FindPlanByPrice(plans[1..], price)
  }

  /** findUnique on the e-mail address. */
  function FindUserByEmail(us: seq<User>, email: string): (r: Option<nat>)
    ensures r.Some? ==> r.value < |us| && us[r.value].email == email
    ensures r.None? ==> forall i :: 0 <= i < |us| ==> us[i].email != email
    decreases |us|
  {
    if |us| == 0 then None
    else if us[|us| - 1].email == email then Some(|us| - 1)
    else FindUserByEmail(us[..|us| - 1], email)
  }

  /** findUnique on the user id. */
  function FindUser(us: seq<User>, id: string): (r: Option<nat>)
    ensures r.Some? ==> r.value < |us| && us[r.value].id == id
    ensures r.None? ==> forall i :: 0 <= i < |us| ==> us[i].id != id
    decreases |us|
  {
    if |us| == 0 then None
    else if us[|us| - 1].id == id then Some(|us| - 1)
    else FindUser(us[..|us| - 1], id)
  }

  // ---------------------------------------------------------------- stale-payment sweep

  /** A payment the pending sweep fails: still PENDING and created before the cutoff. */
  predicate Stale(p: Payment, cutoff: int) {
    p.status == Pending && p.createdAt < cutoff
  }

  function StaleAt(cutoff: int): Payment -> bool {
    p => Stale(p, cutoff)
  }

  function ExpireOne(p: Payment, cutoff: int): Payment {
    if Stale(p, cutoff) then p.(status := Failed) else p
  }

  /** The payments after `updateMany` of the stale PENDING records to FAILED. */
  function ExpireStale(ps: seq<Payment>, cutoff: int): (r: seq<Payment>)
    ensures |r| == |ps| && forall i :: 0 <= i < |ps| ==> r[i] == ExpireOne(ps[i], cutoff)
  {
    seq(|ps|, i requires 0 <= i < |ps| => ExpireOne(ps[i], cutoff))
  }

  /** The number of records the sweep updates. */
  function StaleCount(ps: seq<Payment>, cutoff: int): nat {
    Count(ps, StaleAt(cutoff))
  }

  /** The sweep changes exactly the stale records, only their status, and only to FAILED. */
  lemma ExpireStaleExact(ps: seq<Payment>, cutoff: int, i: nat)
    requires i < |ps|
    ensures ExpireStale(ps, cutoff)[i] != ps[i] <==> Stale(ps[i], cutoff)
    ensures ExpireStale(ps, cutoff)[i] == ps[i].(status := ExpireStale(ps, cutoff)[i].status)
    ensures Stale(ps[i], cutoff) ==> ExpireStale(ps, cutoff)[i].status == Failed
  {
  }

  /** After the sweep no stale record is left, so a second sweep at the same cutoff changes
      nothing and updates no record. */
  lemma ExpireStaleIdempotent(ps: seq<Payment>, cutoff: int)
    ensures ExpireStale(ExpireStale(ps, cutoff), cutoff) == ExpireStale(ps, cutoff)
    ensures StaleCount(ExpireStale(ps, cutoff), cutoff) == 0
  {
    var r := ExpireStale(ps, cutoff);
    FilterNone(r, StaleAt(cutoff));
  }

  /** Order ids, and so their uniqueness, survive the sweep. */
  lemma ExpireStaleKeepsOrderIds(ps: seq<Payment>, cutoff: int)
    requires UniqueOrderIds(ps)
    ensures UniqueOrderIds(ExpireStale(ps, cutoff))
  {
  }

  // ---------------------------------------------------------------- subscription expiry

  predicate Lapsed(s: Subscription, now: int) {
    s.status == Active && s.endDate < now
  }

  function LapsedAt(now: int): Subscription -> bool {
    s => Lapsed(s, now)
  }

  function ExpireSubscription(s: Subscription, now: int): Subscription {
    if Lapsed(s, now) then s.(status := Expired) else s
  }

  /** The subscriptions after `updateMany` of the lapsed ACTIVE ones to EXPIRED. */
  function DeactivateLapsed(ss: seq<Subscription>, now: int): (r: seq<Subscription>)
    ensures |r| == |ss| && forall i :: 0 <= i < |ss| ==> r[i] == ExpireSubscription(ss[i], now)
  {
    seq(|ss|, i requires 0 <= i < |ss| => ExpireSubscription(ss[i], now))
  }

  /** Only ACTIVE subscriptions whose end date has passed change, and only to EXPIRED; no
      lapsed ACTIVE subscription remains. */
  lemma DeactivateLapsedExact(ss: seq<Subscription>, now: int)
    ensures forall i :: 0 <= i < |ss| ==>
              (DeactivateLapsed(ss, now)[i] != ss[i] <==> Lapsed(ss[i], now))
              && DeactivateLapsed(ss, now)[i] == ss[i].(status := DeactivateLapsed(ss, now)[i].status)
    ensures Count(DeactivateLapsed(ss, now), LapsedAt(now)) == 0
    ensures UniqueSubscribers(ss) ==> UniqueSubscribers(DeactivateLapsed(ss, now))
  {
    FilterNone(DeactivateLapsed(ss, now), LapsedAt(now));
  }

  // ---------------------------------------------------------------- expiry reminders

  /** ACTIVE subscriptions ending within the next seven days, `now` included. */
  predicate ExpiringSoon(s: Subscription, now: int) {
    s.status == Active && now <= s.endDate <= now + 7 * DayMs
  }

  function ExpiringSoonAt(now: int): Subscription -> bool {
    s => ExpiringSoon(s, now)
  }

  /** The subscriptions `checkExpiringSubscriptions` reminds, in table order. */
  function Expiring(ss: seq<Subscription>, now: int): (r: seq<Subscription>)
    ensures IsSubsequence(r, ss)
    ensures forall s :: s in r <==> s in ss && ExpiringSoon(s, now)
  {
    FilterIsSubsequence(ss, ExpiringSoonAt(now));
    forall s ensures s in Filter(ss, ExpiringSoonAt(now)) <==> s in ss && ExpiringSoon(s, now) {
      FilterMembership(ss, ExpiringSoonAt(now), s);
    }
    Filter(ss, ExpiringSoonAt(now))
  }

  /** A reminder candidate has not lapsed yet, so the expiry job and the reminder job never
      act on the same subscription at the same instant. */
  lemma ExpiringNotLapsed(s: Subscription, now: int)
    ensures ExpiringSoon(s, now) ==> !Lapsed(s, now)
  {
  }

  // ---------------------------------------------------------------- maintenance delete

  /** A payment the maintenance job deletes: FAILED or CANCELLED and created before the
      six-months-ago instant. */
  predicate Obsolete(p: Payment, before: int) {
    (p.status == Failed || p.status == PaymentStatus.Cancelled) && p.createdAt < before
  }

  function KeptAt(before: int): Payment -> bool {
    p => !Obsolete(p, before)
  }

  /** The payments `deleteMany` leaves. */
  function DeleteObsolete(ps: seq<Payment>, before: int): seq<Payment> {
    Filter(ps, KeptAt(before))
  }

  /** The maintenance delete keeps the other records in order and removes a record exactly
      when it is obsolete: PENDING and COMPLETED records are never deleted. */
  lemma DeleteObsoleteExact(ps: seq<Payment>, before: int, p: Payment)
    ensures IsSubsequence(DeleteObsolete(ps, before), ps)
    ensures p in DeleteObsolete(ps, before) <==> p in ps && !Obsolete(p, before)
    ensures p in ps && (p.status == Pending || p.status == Completed) ==> p in DeleteObsolete(ps, before)
  {
    FilterIsSubsequence(ps, KeptAt(before));
    FilterMembership(ps, KeptAt(before), p);
  }

  lemma {:induction false} SubsequenceKeepsUniqueOrderIds(a: seq<Payment>, b: seq<Payment>)
    requires IsSubsequence(a, b) && UniqueOrderIds(b)
    ensures UniqueOrderIds(a)
    decreases |b|
  {
    if a != [] {
      if a[0] == b[0] && IsSubsequence(a[1..], b[1..]) {
        SubsequenceKeepsUniqueOrderIds(a[1..], b[1..]);
        forall j | 1 <= j < |a| ensures a[0].orderId != a[j].orderId {
          SubsequenceMember(a[1..], b[1..], j - 1);
        }
      } else {
        SubsequenceKeepsUniqueOrderIds(a, b[1..]);
      }
    }
  }

  lemma {:induction false} SubsequenceMember<T>(a: seq<T>, b: seq<T>, j: nat)
    requires IsSubsequence(a, b) && j < |a|
    ensures a[j] in b
    decreases |b|
  {
    if a[0] == b[0] && IsSubsequence(a[1..], b[1..]) {
      if j > 0 { SubsequenceMember(a[1..], b[1..], j - 1); }
    } else {
      SubsequenceMember(a, b[1..], j);
    }
  }

  // ---------------------------------------------------------------- settings

  /** The position of a setting's key. */
  function FindSetting(ss: seq<Setting>, key: string): (r: Option<nat>)
    ensures r.Some? ==> r.value < |ss| && ss[r.value].key == key
    ensures r.None? ==> forall i :: 0 <= i < |ss| ==> ss[i].key != key
    decreases |ss|
  {
    if |ss| == 0 then None
    else if ss[|ss| - 1].key == key then Some(|ss| - 1)
    else FindSetting(ss[..|ss| - 1], key)
  }

  /** `upsert` on the key: an existing record takes the new value, otherwise a record is
      appended. */
  function Upsert(ss: seq<Setting>, key: string, value: string): seq<Setting> {
    match FindSetting(ss, key)
    case Some(i) => ss[i := Setting(key, value)]
    case None => ss + [Setting(key, value)]
  }

  /** After an upsert the key holds the new value, every other key keeps its value, and
      keys stay unique. */
  lemma UpsertSpec(ss: seq<Setting>, key: string, value: string, other: string)
    requires UniqueSettingKeys(ss)
    ensures UniqueSettingKeys(Upsert(ss, key, value))
    ensures FindSetting(Upsert(ss, key, value), key).Some?
    ensures Upsert(ss, key, value)[FindSetting(Upsert(ss, key, value), key).value].value == value
    ensures other != key ==> FindSetting(Upsert(ss, key, value), other).Some? == FindSetting(ss, other).Some?
    ensures other != key && FindSetting(ss, other).Some? ==>
              Upsert(ss, key, value)[FindSetting(Upsert(ss, key, value), other).value]
              == ss[FindSetting(ss, other).value]
  {
    var r := Upsert(ss, key, value);
    FindSettingUnique(r, key);
    if other != key {
      FindSettingUnique(r, other);
      FindSettingUnique(ss, other);
      if FindSetting(ss, other).Some? {
        var i := FindSetting(ss, other).value;
        assert r[i] == ss[i];
      }
      if FindSetting(r, other).Some? {
        var i := FindSetting(r, other).value;
        assert i < |ss| && r[i] == ss[i];
      }
    }
  }

  /** With unique keys, a key is found exactly at the record that holds it. */
  lemma FindSettingUnique(ss: seq<Setting>, key: string)
    requires UniqueSettingKeys(ss)
    ensures forall i :: 0 <= i < |ss| && ss[i].key == key ==> FindSetting(ss, key) == Some(i)
  {
    forall i | 0 <= i < |ss| && ss[i].key == key ensures FindSetting(ss, key) == Some(i) {
      var r := FindSetting(ss, key);
      assert r.Some?;
    }
  }

  // ---------------------------------------------------------------- the database

  class Db {
    var users: seq<User>
    var plans: seq<Plan>
    var payments: seq<Payment>
    var subscriptions: seq<Subscription>
    var settings: seq<Setting>
    var nextPaymentId: nat

    /** The unique constraints of the schema. */
    predicate Valid()
      reads this
    {
      UniqueUsers(users) && UniqueOrderIds(payments) && UniqueSubscribers(subscriptions)
      && UniqueSettingKeys(settings)
    }

    constructor(plans: seq<Plan>)
      ensures Valid()
      ensures this.plans == plans && users == [] && payments == [] && subscriptions == []
      ensures settings == [] && nextPaymentId == 0
    {
      this.plans := plans;
      users := [];
      payments := [];
      subscriptions := [];
      settings := [];
      nextPaymentId := 0;
    }

    /** `updateMany` of the PENDING payments created before the cutoff to FAILED; returns
        the number of records updated. */
    method ExpirePendingBefore(cutoff: int) returns (count: nat)
      requires Valid()
      modifies this`payments
      ensures Valid()
      ensures payments == ExpireStale(old(payments), cutoff)
      ensures count == StaleCount(old(payments), cutoff)
    {
      var ps := payments;
      var out: seq<Payment> := [];
      count := 0;
      var i := 0;
      while i < |ps|
        invariant 0 <= i <= |ps|
        invariant out == ExpireStale(ps[..i], cutoff)
        invariant count == StaleCount(ps[..i], cutoff)
      {
        assert ps[..i + 1] == ps[..i] + [ps[i]];
        FilterSnoc(ps[..i], ps[i], StaleAt(cutoff));
        if Stale(ps[i], cutoff) {
          out := out + [ps[i].(status := Failed)];
          count := count + 1;
        } else {
          out := out + [ps[i]];
        }
        assert out == ExpireStale(ps[..i + 1], cutoff);
        i := i + 1;
      }
      assert ps[..i] == ps;
      ExpireStaleKeepsOrderIds(ps, cutoff);
      payments := out;
    }

    /** `updateMany` of the ACTIVE subscriptions whose end date has passed to EXPIRED;
        returns the number of records updated. */
    method DeactivateExpired(now: int) returns (count: nat)
      requires Valid()
      modifies this`subscriptions
      ensures Valid()
      ensures subscriptions == DeactivateLapsed(old(subscriptions), now)
      ensures count == Count(old(subscriptions), LapsedAt(now))
    {
      var ss := subscriptions;
      var out: seq<Subscription> := [];
      count := 0;
      var i := 0;
      while i < |ss|
        invariant 0 <= i <= |ss|
        invariant out == DeactivateLapsed(ss[..i], now)
        invariant count == Count(ss[..i], LapsedAt(now))
      {
        assert ss[..i + 1] == ss[..i] + [ss[i]];
        FilterSnoc(ss[..i], ss[i], LapsedAt(now));
        if Lapsed(ss[i], now) {
          out := out + [ss[i].(status := Expired)];
          count := count + 1;
        } else {
          out := out + [ss[i]];
        }
        assert out == DeactivateLapsed(ss[..i + 1], now);
        i := i + 1;
      }
      assert ss[..i] == ss;
      DeactivateLapsedExact(ss, now);
      subscriptions := out;
    }

    /** `deleteMany` of the FAILED and CANCELLED payments created before the given instant;
        returns the number of records deleted. */
    method DeleteObsoletePayments(before: int) returns (count: nat)
      requires Valid()
      modifies this`payments
      ensures Valid()
      ensures payments == DeleteObsolete(old(payments), before)
      ensures count == |old(payments)| - |payments|
    {
      var ps := payments;
      var out: seq<Payment> := [];
      var i := 0;
      while i < |ps|
        invariant 0 <= i <= |ps|
        invariant out == Filter(ps[..i], KeptAt(before))
      {
        assert ps[..i + 1] == ps[..i] + [ps[i]];
        FilterSnoc(ps[..i], ps[i], KeptAt(before));
        if !Obsolete(ps[i], before) {
          out := out + [ps[i]];
        }
        i := i + 1;
      }
      assert ps[..i] == ps;
      FilterIsSubsequence(ps, KeptAt(before));
      SubsequenceKeepsUniqueOrderIds(out, ps);
      payments := out;
      count := |ps| - |out|;
    }

    /** `payment.create`: appends the record and advances the record id. */
    method AddPayment(p: Payment)
      requires Valid() && FindPayment(payments, p.orderId).None?
      modifies this`payments, this`nextPaymentId
      ensures Valid()
      ensures payments == old(payments) + [p] && nextPaymentId == old(nextPaymentId) + 1
    {
      AppendKeepsUniqueOrderIds(payments, p);
      payments, nextPaymentId := payments + [p], nextPaymentId + 1;
    }

    /** `upsert` of one setting. */
    method UpsertSetting(key: string, value: string)
      requires Valid()
      modifies this`settings
      ensures Valid()
      ensures settings == Upsert(old(settings), key, value)
    {
      UpsertSpec(settings, key, value, key);
      settings := Upsert(settings, key, value);
    }
  }
}

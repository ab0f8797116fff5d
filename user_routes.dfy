// The signed-in user's own routes: profile, password and account changes on the store,
// the order history and the account statistics. Password hashing and comparison are
// parameters.

module UserRoutes {
  import opened Common
  import opened Store

  /** How a route ends: the updated user, a bare success, a client error with its status,
      or an error raised by the store itself. */
  datatype Reply = Updated(user: User) | Done | Refused(status: int, message: string) | StoreError

  // ---------------------------------------------------------------- profile

  /** Another user already has the address. */
  predicate EmailTaken(us: seq<User>, email: string, userId: string) {
    exists i :: 0 <= i < |us| && us[i].email == email && us[i].id != userId
  }

  /** The record with only the supplied (non-empty) fields written. */
  function WithProfile(u: User, name: Option<string>, email: Option<string>): (r: User)
    ensures r.name == (if Truthy(name) then name.value else u.name)
    ensures r.email == (if Truthy(email) then email.value else u.email)
    ensures r == u.(name := r.name, email := r.email)
  {
    u.(name := OrElse(name, u.name), email := OrElse(email, u.email))
  }

  /** PUT /profile: 400 without either field, 409 for an address another user has, then
      the update of the caller's record (which the store refuses when it is gone). */
  function ProfileUpdate(us: seq<User>, userId: string, name: Option<string>, email: Option<string>): (Reply, seq<User>) {
    if !Truthy(name) && !Truthy(email) then (Refused(400, "At least one field (name or email) is required"), us)
    else if Truthy(email) && EmailTaken(us, email.value, userId) then (Refused(409, "Email already in use"), us)
    else match FindUser(us, userId)
      case None => (StoreError, us)
      case Some(i) => (Updated(WithProfile(us[i], name, email)), us[i := WithProfile(us[i], name, email)])
  }

  /** The update succeeds exactly when a field is supplied, the address is free and the
      caller exists; it then rewrites the caller's record alone, and the ids and
      addresses stay unique. Every failure leaves the store as it was. */
  lemma ProfileUpdateSpec(us: seq<User>, userId: string, name: Option<string>, email: Option<string>)
    requires UniqueUsers(us)
    ensures var (reply, r) := ProfileUpdate(us, userId, name, email);
            && (reply.Updated? <==> (Truthy(name) || Truthy(email))
                                    && !(Truthy(email) && EmailTaken(us, email.value, userId))
                                    && exists i :: 0 <= i < |us| && us[i].id == userId)
            && (!reply.Updated? ==> r == us)
            && (reply.Updated? ==> exists i :: 0 <= i < |us| && us[i].id == userId
                                              && r == us[i := WithProfile(us[i], name, email)]
                                              && reply.user == r[i])
            && UniqueUsers(r)
  {
    var (reply, r) := ProfileUpdate(us, userId, name, email);
    if reply.Updated? {
      var i := FindUser(us, userId).value;
      assert forall j :: 0 <= j < |us| && j != i ==> us[j].id != userId && r[j] == us[j];
    }
  }

  // ---------------------------------------------------------------- password

  /** PUT /password: both passwords (400), a new one of at least six characters (400), an
      existing caller (404) and a matching current password (401); then the new hash. */
  function PasswordChange(us: seq<User>, userId: string, current: Option<string>, newPassword: Option<string>,
                          compare: (string, string) -> bool, hash: string -> string): (Reply, seq<User>) {
    if !Truthy(current) || !Truthy(newPassword) then
      (Refused(400, "Current password and new password are required"), us)
    else if |newPassword.value| < 6 then (Refused(400, "New password must be at least 6 characters long"), us)
    else match FindUser(us, userId)
      case None => (Refused(404, "User not found"), us)
      case Some(i) =>
        if !compare(current.value, us[i].passwordHash) then (Refused(401, "Current password is incorrect"), us)
        else (Done, us[i := us[i].(passwordHash := hash(newPassword.value))])
  }

  /** The change happens exactly when every check passes. */
  lemma PasswordChangeSpec(us: seq<User>, userId: string, current: Option<string>, newPassword: Option<string>,
                           compare: (string, string) -> bool, hash: string -> string)
    requires UniqueUsers(us)
    ensures PasswordChange(us, userId, current, newPassword, compare, hash).0 == Done <==>
              Truthy(current) && Truthy(newPassword) && |newPassword.value| >= 6
              && exists i :: 0 <= i < |us| && us[i].id == userId && compare(current.value, us[i].passwordHash)
  {
    if Truthy(current) && Truthy(newPassword) && |newPassword.value| >= 6
       && exists i :: 0 <= i < |us| && us[i].id == userId && compare(current.value, us[i].passwordHash) {
      var k :| 0 <= k < |us| && us[k].id == userId && compare(current.value, us[k].passwordHash);
      var i := FindUser(us, userId).value;
      assert i == k;
    }
  }

  /** A refusal (400, 401 or 404) writes nothing; a change rewrites only the caller's
      password hash, to the hash of the new password, and keeps the ids unique. */
  lemma PasswordChangeEffect(us: seq<User>, userId: string, current: Option<string>, newPassword: Option<string>,
                             compare: (string, string) -> bool, hash: string -> string)
    requires UniqueUsers(us)
    ensures var (reply, r) := PasswordChange(us, userId, current, newPassword, compare, hash);
            && (reply.Refused? ==> reply.status in {400, 401, 404} && r == us)
            && (reply == Done ==>
                  |r| == |us|
                  && exists i :: 0 <= i < |us| && us[i].id == userId
                                 && r == us[i := us[i].(passwordHash := hash(newPassword.value))])
            && UniqueUsers(r)
  {
    if Truthy(current) && Truthy(newPassword) && |newPassword.value| >= 6 && FindUser(us, userId).Some? {
      var i := FindUser(us, userId).value;
      if compare(current.value, us[i].passwordHash) {
        SameKeysKeepUniqueUsers(us, us[i := us[i].(passwordHash := hash(newPassword.value))]);
      }
    }
  }

  // ---------------------------------------------------------------- account

  /** DELETE /account: a password (400), an existing caller (404) and a match (401). */
  function AccountDeletion(us: seq<User>, userId: string, password: Option<string>,
                           compare: (string, string) -> bool): (Reply, seq<User>) {
    if !Truthy(password) then (Refused(400, "Password confirmation is required"), us)
    else match FindUser(us, userId)
      case None => (Refused(404, "User not found"), us)
      case Some(i) =>
        if !compare(password.value, us[i].passwordHash) then (Refused(401, "Password is incorrect"), us)
        else (Done, us[..i] + us[i + 1..])
  }

  /** With unique ids the caller's record, and only it, is removed exactly when the
      password is supplied and matches. */
  lemma AccountDeletionSpec(us: seq<User>, userId: string, password: Option<string>, compare: (string, string) -> bool)
    requires UniqueUsers(us)
    ensures var (reply, r) := AccountDeletion(us, userId, password, compare);
            && (reply == Done <==> Truthy(password)
                                   && exists i :: 0 <= i < |us| && us[i].id == userId && compare(password.value, us[i].passwordHash))
            && (reply != Done ==> r == us)
            && (reply == Done ==> |r| == |us| - 1 && (forall u :: u in r <==> u in us && u.id != userId))
            && UniqueUsers(r)
  {
    var (reply, r) := AccountDeletion(us, userId, password, compare);
    if Truthy(password) && exists i :: 0 <= i < |us| && us[i].id == userId && compare(password.value, us[i].passwordHash) {
      var k :| 0 <= k < |us| && us[k].id == userId && compare(password.value, us[k].passwordHash);
      var i := FindUser(us, userId).value;
      assert i == k;
    }
    if reply == Done {
      RemoveAt(us, FindUser(us, userId).value);
    }
  }

  /** Removing the one record with an id removes exactly the records with that id and
      keeps ids and addresses unique. */
  lemma RemoveAt(us: seq<User>, i: nat)
    requires UniqueUsers(us) && i < |us|
    ensures var r := us[..i] + us[i + 1..];
            && |r| == |us| - 1 && (forall u :: u in r <==> u in us && u.id != us[i].id) && UniqueUsers(r)
  {
    var r := us[..i] + us[i + 1..];
    assert forall j :: 0 <= j < |r| ==> r[j] == us[if j < i then j else j + 1];
    forall u ensures u in r <==> u in us && u.id != us[i].id {
      if u in us && u.id != us[i].id {
        var j :| 0 <= j < |us| && us[j] == u;
        assert r[if j < i then j else j - 1] == u;
      }
    }
  }

  // ---------------------------------------------------------------- methods on the store

  method PutProfile(db: Db, userId: string, name: Option<string>, email: Option<string>) returns (reply: Reply)
    requires db.Valid()
    modifies db`users
    ensures db.Valid()
    ensures (reply, db.users) == ProfileUpdate(old(db.users), userId, name, email)
  {
    ProfileUpdateSpec(db.users, userId, name, email);
    var r;
    reply, r := ProfileUpdate(db.users, userId, name, email).0, ProfileUpdate(db.users, userId, name, email).1;
    db.users := r;
  }

  method PutPassword(db: Db, userId: string, current: Option<string>, newPassword: Option<string>,
                     compare: (string, string) -> bool, hash: string -> string) returns (reply: Reply)
    requires db.Valid()
    modifies db`users
    ensures db.Valid()
    ensures (reply, db.users) == PasswordChange(old(db.users), userId, current, newPassword, compare, hash)
  {
    PasswordChangeSpec(db.users, userId, current, newPassword, compare, hash);
    var result := PasswordChange(db.users, userId, current, newPassword, compare, hash);
    reply := result.0;
    db.users := result.1;
  }

  method DeleteAccount(db: Db, userId: string, password: Option<string>, compare: (string, string) -> bool)
    returns (reply: Reply)
    requires db.Valid()
    modifies db`users
    ensures db.Valid()
    ensures (reply, db.users) == AccountDeletion(old(db.users), userId, password, compare)
  {
    AccountDeletionSpec(db.users, userId, password, compare);
    var result := AccountDeletion(db.users, userId, password, compare);
    reply := result.0;
    db.users := result.1;
  }

  // ---------------------------------------------------------------- statistics

  datatype Stats = Stats(deviceCount: nat, totalPayments: nat, successfulPayments: nat, totalSpent: int,
                         currentPlan: string, subscriptionStatus: string)

  function ActiveDeviceOf(userId: string): Device -> bool {
    (d: Device) => d.userId == userId && d.isActive
  }

  function PaymentOf(userId: string): Payment -> bool {
    (p: Payment) => p.userId == userId
  }

  function CompletedOf(userId: string): Payment -> bool {
    (p: Payment) => p.userId == userId && p.status == Completed
  }

  function Amounts(ps: seq<Payment>): (r: seq<int>)
    ensures |r| == |ps| && forall i :: 0 <= i < |r| ==> r[i] == ps[i].amount
  {
    seq(|ps|, i requires 0 <= i < |ps| => ps[i].amount)
  }

  /** GET /stats. The subscription's plan is a required relation: a subscription whose
      plan is missing makes the route fail (`None`). */
  function UserStats(userId: string, devices: seq<Device>, ps: seq<Payment>, subs: seq<Subscription>,
                     plans: seq<Plan>): Option<Stats> {
    var completed := Filter(ps, CompletedOf(userId));
    var sub := FindSubscription(subs, userId);
    var plan := if sub.Some? then FindPlan(plans, subs[sub.value].planId) else None;
    if sub.Some? && plan.None? then None
    else Some(Stats(Count(devices, ActiveDeviceOf(userId)), Count(ps, PaymentOf(userId)), |completed|,
                    Sum(Amounts(completed)),
                    if sub.Some? && plan.value.name != "" then plan.value.name else "No Plan",
                    if sub.Some? then SubscriptionStatusName(subs[sub.value].status) else "INACTIVE"))
  }

  /** A user with no subscription and no payments sees the defaults; the successful
      payments are among the payments, and the total is the sum over the user's
      COMPLETED payments. */
  lemma UserStatsDefaults(userId: string, devices: seq<Device>, ps: seq<Payment>, subs: seq<Subscription>,
                          plans: seq<Plan>)
    requires forall j :: 0 <= j < |subs| ==> subs[j].userId != userId
    requires forall j :: 0 <= j < |ps| ==> ps[j].userId != userId
    ensures UserStats(userId, devices, ps, subs, plans).Some?
    ensures var s := UserStats(userId, devices, ps, subs, plans).value;
            s.totalPayments == 0 && s.successfulPayments == 0 && s.totalSpent == 0
            && s.currentPlan == "No Plan" && s.subscriptionStatus == "INACTIVE"
  {
    FilterNone(ps, CompletedOf(userId));
    FilterNone(ps, PaymentOf(userId));
  }

  /** A new payment record raises the count of payments by one when it is the user's,
      and the successful count and the total only when it is also COMPLETED. */
  lemma UserStatsSnoc(userId: string, devices: seq<Device>, ps: seq<Payment>, p: Payment,
                      subs: seq<Subscription>, plans: seq<Plan>)
    requires UserStats(userId, devices, ps, subs, plans).Some?
    ensures UserStats(userId, devices, ps + [p], subs, plans).Some?
    ensures var s, t := UserStats(userId, devices, ps, subs, plans).value,
                        UserStats(userId, devices, ps + [p], subs, plans).value;
            && t.totalPayments == s.totalPayments + (if p.userId == userId then 1 else 0)
            && t.successfulPayments == s.successfulPayments + (if CompletedOf(userId)(p) then 1 else 0)
            && t.totalSpent == s.totalSpent + (if CompletedOf(userId)(p) then p.amount else 0)
  {
    FilterSnoc(ps, p, PaymentOf(userId));
    FilterSnoc(ps, p, CompletedOf(userId));
    var c := Filter(ps, CompletedOf(userId));
    if CompletedOf(userId)(p) {
      var a := Amounts(c);
      assert Amounts(c + [p]) == a + [p.amount];
      assert (a + [p.amount])[..|a|] == a;
      assert Sum(a + [p.amount]) == Sum(a) + p.amount;
      assert Filter(ps + [p], CompletedOf(userId)) == c + [p];
      assert UserStats(userId, devices, ps + [p], subs, plans).value.totalSpent == Sum(Amounts(c + [p]));
    } else {
      assert Filter(ps + [p], CompletedOf(userId)) == c;
    }
  }

  // ---------------------------------------------------------------- order history

  datatype PlanInfo = PlanInfo(name: string, price: int)

  datatype PaymentRecord = PaymentRecord(id: string, amount: int, status: PaymentStatus,
                                         paymentMethod: Option<string>, createdAt: int)

  /** A subscription with the plan and payment the query includes. */
  datatype OrderRecord = OrderRecord(id: string, userId: string, status: SubscriptionStatus, createdAt: int,
                                     startDate: Option<int>, endDate: Option<int>,
                                     plan: Option<PlanInfo>, payment: Option<PaymentRecord>)

  datatype PaymentView = PaymentView(id: string, amount: int, status: string, paymentMethod: string, createdAt: int)

  /** One row of the order history as the route sends it. */
  datatype OrderRow = OrderRow(id: string, planName: string, planPrice: int, status: string,
                               startDate: Option<int>, endDate: Option<int>, payment: Option<PaymentView>)

  function FormatPayment(p: PaymentRecord): PaymentView {
    PaymentView(p.id, p.amount, PaymentStatusName(p.status), OrElse(p.paymentMethod, "N/A"), p.createdAt)
  }

  /** The row for one subscription: "Free Plan" for a missing or empty plan name, price 0
      only for a missing plan, "N/A" for a missing or empty payment method, and no
      payment for a subscription without one. */
  function FormatOrder(o: OrderRecord): (r: OrderRow)
    ensures r.id == o.id && r.status == SubscriptionStatusName(o.status)
    ensures r.planName == (if o.plan.Some? && o.plan.value.name != "" then o.plan.value.name else "Free Plan")
    ensures r.planPrice == (if o.plan.Some? then o.plan.value.price else 0)
    ensures r.payment.None? <==> o.payment.None?
    ensures r.payment.Some? ==> r.payment.value.amount == o.payment.value.amount
                                && r.payment.value.status == PaymentStatusName(o.payment.value.status)
                                && r.payment.value.paymentMethod == OrElse(o.payment.value.paymentMethod, "N/A")
    ensures r.startDate == o.startDate && r.endDate == o.endDate
  {
    OrderRow(o.id, if o.plan.Some? then OrElse(Some(o.plan.value.name), "Free Plan") else "Free Plan",
             if o.plan.Some? then o.plan.value.price else 0, SubscriptionStatusName(o.status),
             o.startDate, o.endDate, if o.payment.Some? then Some(FormatPayment(o.payment.value)) else None)
  }

  /** The query's filter: the caller's subscriptions, of the status when one is given,
      created since the cutoff when one is given. */
  predicate OrderMatches(o: OrderRecord, userId: string, status: Option<SubscriptionStatus>, since: Option<int>) {
    o.userId == userId && (status.None? || o.status == status.value) && (since.None? || o.createdAt >= since.value)
  }

  function OrderMatchesAt(userId: string, status: Option<SubscriptionStatus>, since: Option<int>): OrderRecord -> bool {
    (o: OrderRecord) => OrderMatches(o, userId, status, since)
  }

  function FormatAll(os: seq<OrderRecord>): (r: seq<OrderRow>)
    ensures |r| == |os| && forall i :: 0 <= i < |r| ==> r[i] == FormatOrder(os[i])
  {
    seq(|os|, i requires 0 <= i < |os| => FormatOrder(os[i]))
  }

  /** GET /orders. A status other than "ALL" must name a subscription status and a day
      count must be a number, else the store rejects the query (`None`); the rows are
      the matching subscriptions in table order. */
  function UserOrders(userId: string, records: seq<OrderRecord>, status: Option<string>, days: Option<string>,
                      toNumber: string -> Option<int>, now: int): Option<seq<OrderRow>> {
    var wantStatus := if Truthy(status) && status.value != "ALL" then Some(ParseSubscriptionStatus(status.value)) else None;
    var n := if Truthy(days) then Some(toNumber(days.value)) else None;
    if wantStatus.Some? && wantStatus.value.None? then None
    else if n.Some? && n.value.None? then None
    else
      var st := if wantStatus.Some? then Some(wantStatus.value.value) else None;
      var since := if n.Some? then Some(now - n.value.value * DayMs) else None;
      Some(FormatAll(Filter(records, OrderMatchesAt(userId, st, since))))
  }

  /** "ALL" is the same as no status; without filters every one of the caller's
      subscriptions has a row. */
  lemma UserOrdersSpec(userId: string, records: seq<OrderRecord>, days: Option<string>,
                       toNumber: string -> Option<int>, now: int, o: OrderRecord)
    ensures UserOrders(userId, records, Some("ALL"), days, toNumber, now) == UserOrders(userId, records, None, days, toNumber, now)
    ensures UserOrders(userId, records, None, None, toNumber, now).Some?
    ensures o in records && o.userId == userId ==> FormatOrder(o) in UserOrders(userId, records, None, None, toNumber, now).value
  {
    var all := Filter(records, OrderMatchesAt(userId, None, None));
    FilterMembership(records, OrderMatchesAt(userId, None, None), o);
    if o in records && o.userId == userId {
      var k :| 0 <= k < |all| && all[k] == o;
      assert FormatAll(all)[k] == FormatOrder(o);
    }
  }

  /** A status filter keeps only rows of that status; a status that names no subscription
      status, or a day count that is not a number, fails the query. */
  lemma UserOrdersStatus(userId: string, records: seq<OrderRecord>, status: Option<string>, days: Option<string>,
                         toNumber: string -> Option<int>, now: int)
    ensures var r := UserOrders(userId, records, status, days, toNumber, now);
            r.Some? && Truthy(status) && status.value != "ALL" ==>
              forall k :: 0 <= k < |r.value| ==> r.value[k].status == status.value
    ensures Truthy(status) && status.value != "ALL" && ParseSubscriptionStatus(status.value).None? ==>
              UserOrders(userId, records, status, days, toNumber, now).None?
    ensures Truthy(days) && toNumber(days.value).None? ==> UserOrders(userId, records, status, days, toNumber, now).None?
  {
  }

  /** The record behind one row of a successful query: one of the caller's own
      subscriptions, created no earlier than the given number of days ago. */
  lemma UserOrdersRow(userId: string, records: seq<OrderRecord>, status: Option<string>,
                      days: Option<string>, toNumber: string -> Option<int>, now: int, k: nat)
      returns (o: OrderRecord)
    requires UserOrders(userId, records, status, days, toNumber, now).Some?
    requires k < |UserOrders(userId, records, status, days, toNumber, now).value|
    ensures o in records && o.userId == userId
    ensures UserOrders(userId, records, status, days, toNumber, now).value[k] == FormatOrder(o)
    ensures Truthy(days) ==> toNumber(days.value).Some? && o.createdAt >= now - toNumber(days.value).value * DayMs
  {
    var wantStatus := if Truthy(status) && status.value != "ALL" then Some(ParseSubscriptionStatus(status.value)) else None;
    var n := if Truthy(days) then Some(toNumber(days.value)) else None;
    var st := if wantStatus.Some? then Some(wantStatus.value.value) else None;
    var since := if n.Some? then Some(now - n.value.value * DayMs) else None;
    var all := Filter(records, OrderMatchesAt(userId, st, since));
    assert UserOrders(userId, records, status, days, toNumber, now).value == FormatAll(all);
    o := all[k];
    FilterMembership(records, OrderMatchesAt(userId, st, since), o);
    assert OrderMatches(o, userId, st, since);
  }

  /** Conversely, every one of the caller's subscriptions that passes the filters has a row
      in a successful query: of the status named, when one other than "ALL" is given, and
      created no earlier than the given number of days ago, when a day count is given. */
  lemma UserOrdersComplete(userId: string, records: seq<OrderRecord>, status: Option<string>,
                           days: Option<string>, toNumber: string -> Option<int>, now: int, o: OrderRecord)
    requires UserOrders(userId, records, status, days, toNumber, now).Some?
    requires o in records && o.userId == userId
    requires Truthy(status) && status.value != "ALL" ==> ParseSubscriptionStatus(status.value) == Some(o.status)
    requires Truthy(days) ==> toNumber(days.value).Some? && o.createdAt >= now - toNumber(days.value).value * DayMs
    ensures FormatOrder(o) in UserOrders(userId, records, status, days, toNumber, now).value
  {
    var wantStatus := if Truthy(status) && status.value != "ALL" then Some(ParseSubscriptionStatus(status.value)) else None;
    var n := if Truthy(days) then Some(toNumber(days.value)) else None;
    var st := if wantStatus.Some? then Some(wantStatus.value.value) else None;
    var since := if n.Some? then Some(now - n.value.value * DayMs) else None;
    var all := Filter(records, OrderMatchesAt(userId, st, since));
    assert UserOrders(userId, records, status, days, toNumber, now).value == FormatAll(all);
    assert OrderMatches(o, userId, st, since);
    FilterMembership(records, OrderMatchesAt(userId, st, since), o);
    var k :| 0 <= k < |all| && all[k] == o;
    assert FormatAll(all)[k] == FormatOrder(o);
  }

  /** A row formatted from one of the caller's own subscriptions, created no earlier than
      the given number of days ago. */
  predicate FromCallerRecord(row: OrderRow, userId: string, records: seq<OrderRecord>, days: Option<string>,
                             toNumber: string -> Option<int>, now: int) {
    exists o :: o in records && o.userId == userId && row == FormatOrder(o)
                && (Truthy(days) ==> toNumber(days.value).Some? && o.createdAt >= now - toNumber(days.value).value * DayMs)
  }

  /** Whatever the filters, every row is one of the caller's own subscriptions, created no
      earlier than the given number of days ago. */
  lemma UserOrdersOnlyCaller(userId: string, records: seq<OrderRecord>, status: Option<string>,
                             days: Option<string>, toNumber: string -> Option<int>, now: int)
    ensures var r := UserOrders(userId, records, status, days, toNumber, now);
            r.Some? ==> forall k :: 0 <= k < |r.value| ==> FromCallerRecord(r.value[k], userId, records, days, toNumber, now)
  {
    var r := UserOrders(userId, records, status, days, toNumber, now);
    if r.Some? {
      forall k | 0 <= k < |r.value|
        ensures FromCallerRecord(r.value[k], userId, records, days, toNumber, now)
      {
        var o := UserOrdersRow(userId, records, status, days, toNumber, now, k);
      }
    }
  }
}

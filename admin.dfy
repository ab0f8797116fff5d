// The administrator routes: user pagination, the subscription, payment and order
// filters, the settings object and its update, and the device report summary.

module Admin {
  import opened Common
  import opened Store

  // ---------------------------------------------------------------- /users

  /** The numbers `/users` computes; `pages` is None where `Math.ceil(total / limit)` is
      not a finite number (a zero limit). */
  datatype Pagination = Pagination(page: int, limit: int, skip: int, take: int, total: nat, pages: Option<int>)

  /** `Math.ceil(a / b)`; None for a zero divisor (Infinity or NaN). */
  function JsCeilDiv(a: int, b: int): (r: Option<int>)
    ensures r.Some? <==> b != 0
    ensures b > 0 ==> r.value * b - b < a <= r.value * b
  {
    if b == 0 then None
    else if b > 0 then Some(CeilDiv(a, b))
    else Some(-FloorDiv(a, -b))
  }

  /** The page numbers for the numeric `page` and `limit` parameters (absent ones default
      to 1 and 20). */
  function Paginate(page: Option<int>, limit: Option<int>, total: nat): Pagination {
    var p := if page.Some? then page.value else 1;
    var l := if limit.Some? then limit.value else 20;
    Pagination(p, l, (p - 1) * l, l, total, JsCeilDiv(total, l))
  }

  /** Without parameters the first 20 users are asked for. */
  lemma PaginateDefaults(total: nat)
    ensures Paginate(None, None, total) == Pagination(1, 20, 0, 20, total, Some(CeilDiv(total, 20)))
  {
  }

  /** With a positive limit, a page from 1 on starts inside the list exactly when it is
      one of the `pages` pages. */
  lemma PageInRange(page: int, limit: int, total: nat)
    requires limit > 0 && page >= 1
    ensures var p := Paginate(Some(page), Some(limit), total);
            p.skip < total <==> page <= p.pages.value
  {
    var q := CeilDiv(total, limit);
    if page <= q {
      assert (page - 1) * limit <= (q - 1) * limit;
    } else {
      assert (page - 1) * limit >= q * limit;
    }
  }

  /** With a positive limit, the `k`-th user lies on page `k / limit + 1`, which is one of
      the `pages` pages. */
  lemma IndexOnPage(limit: int, total: nat, k: nat)
    requires limit > 0 && k < total
    ensures var page := k / limit + 1;
            var p := Paginate(Some(page), Some(limit), total);
            1 <= page <= p.pages.value && p.skip <= k < p.skip + p.take
  {
    var page := k / limit + 1;
    var q := CeilDiv(total, limit);
    assert (page - 1) * limit <= k < (page - 1) * limit + limit;
    assert (page - 1) * limit < q * limit;
  }

  /** Prisma's `contains` on name or email (case-sensitive). */
  function SearchIn(search: string): User -> bool {
    (u: User) => Includes(u.name, search) || Includes(u.email, search)
  }

  function Abs(x: int): nat {
    if x < 0 then -x else x
  }

  /** Prisma's `skip` and `take` on a list: a non-negative take keeps up to `take` items
      from `skip` on; a negative take counts from the end, keeping up to `-take` items that
      end `skip` items before the end. */
  function Window<T>(m: seq<T>, skip: nat, take: int): (r: seq<T>)
    ensures |r| <= Abs(take)
  {
    var n := |m|;
    if take >= 0 then
      var from := if skip < n then skip else n;
      var to := if skip + take < n then skip + take else n;
      m[from..to]
    else
      var to := if skip < n then n - skip else 0;
      var from := if to + take > 0 then to + take else 0;
      m[from..to]
  }

  /** A window holds as many items as `take` asks for and the list still has after
      `skip`, counted from the front for a non-negative take and from the back otherwise. */
  lemma WindowSpec<T>(m: seq<T>, skip: nat, take: int)
    ensures var w := Window(m, skip, take);
            var left := if skip < |m| then |m| - skip else 0;
            |w| == (if Abs(take) < left then Abs(take) else left) &&
            (take >= 0 ==> forall i :: 0 <= i < |w| ==> skip + i < |m| && w[i] == m[skip + i]) &&
            (take < 0 ==> forall i :: 0 <= i < |w| ==> left - |w| + i >= 0 && w[i] == m[left - |w| + i])
  {
  }

  /** The users a non-empty search matches by name or address; all users without one. */
  function Matching(users: seq<User>, search: Option<string>): seq<User> {
    if Truthy(search) then Filter(users, SearchIn(search.value)) else users
  }

  /** The `/users` page: users matching a non-empty search (all when there is none),
      then Prisma's `skip` and `take`. A negative skip is refused (None). */
  function UsersPage(users: seq<User>, search: Option<string>, p: Pagination): (r: Option<seq<User>>)
    ensures r.Some? <==> p.skip >= 0
    ensures r.Some? ==> |r.value| <= Abs(p.take)
  {
    if p.skip < 0 then None else Some(Window(Matching(users, search), p.skip, p.take))
  }

  /** A page holds the matching users from `skip` on, in order, as many as `take` asks
      for and the list still has; with a negative `take` it holds the `-take` matching
      users (or as many as remain) that end `skip` users before the end. */
  lemma UsersPageSpec(users: seq<User>, search: Option<string>, p: Pagination)
    requires p.skip >= 0
    ensures var matched := Matching(users, search);
            var page := UsersPage(users, search, p).value;
            var left := if p.skip < |matched| then |matched| - p.skip else 0;
            |page| == (if Abs(p.take) < left then Abs(p.take) else left) &&
            (p.take >= 0 ==> forall i :: 0 <= i < |page| ==> page[i] == matched[p.skip + i]) &&
            (p.take < 0 ==> forall i :: 0 <= i < |page| ==> page[i] == matched[left - |page| + i])
  {
    WindowSpec(Matching(users, search), p.skip, p.take);
  }

  /** With a non-empty search every listed user has it in their name or address, and
      without one every user is a candidate. */
  lemma UsersPageMatches(users: seq<User>, search: Option<string>, p: Pagination, u: User)
    requires p.skip >= 0 && u in UsersPage(users, search, p).value
    ensures u in users
    ensures Truthy(search) ==> Includes(u.name, search.value) || Includes(u.email, search.value)
  {
    var matched := Matching(users, search);
    WindowSpec(matched, p.skip, p.take);
    var page := UsersPage(users, search, p).value;
    var k :| 0 <= k < |page| && page[k] == u;
    assert u in matched;
    if Truthy(search) {
      FilterMembership(users, SearchIn(search.value), u);
    }
  }

  // ---------------------------------------------------------------- /subscriptions

  /** The `/subscriptions` where-clause: a status name and an end-date bound. */
  datatype SubscriptionQuery = SubscriptionQuery(status: Option<string>, endingBy: Option<int>)

  /** `expiring=true` forces ACTIVE, whatever status was given, and bounds the end date
      a week ahead; otherwise a non-empty status is used as given. */
  function SubscriptionsWhere(status: Option<string>, expiring: Option<string>, now: int): (q: SubscriptionQuery)
    ensures expiring == Some("true") ==> q == SubscriptionQuery(Some("ACTIVE"), Some(now + 7 * DayMs))
    ensures expiring != Some("true") ==> q.endingBy.None? && (q.status.Some? <==> Truthy(status))
  {
    if expiring == Some("true") then SubscriptionQuery(Some("ACTIVE"), Some(now + 7 * DayMs))
    else SubscriptionQuery(if Truthy(status) then status else None, None)
  }

  predicate SubscriptionMatches(s: Subscription, status: Option<SubscriptionStatus>, endingBy: Option<int>) {
    (status.None? || s.status == status.value) && (endingBy.None? || s.endDate <= endingBy.value)
  }

  function SubscriptionMatchesAt(status: Option<SubscriptionStatus>, endingBy: Option<int>): Subscription -> bool {
    (s: Subscription) => SubscriptionMatches(s, status, endingBy)
  }

  /** The selected subscriptions; None when the status names no subscription status,
      which the store refuses. */
  function SubscriptionsSelected(ss: seq<Subscription>, q: SubscriptionQuery): Option<seq<Subscription>> {
    if q.status.None? then Some(Filter(ss, SubscriptionMatchesAt(None, q.endingBy)))
    else
      match ParseSubscriptionStatus(q.status.value)
      case None => None
      case Some(st) => Some(Filter(ss, SubscriptionMatchesAt(Some(st), q.endingBy)))
  }

  /** With `expiring=true` the list is exactly the ACTIVE subscriptions ending within a
      week, even when another (or an invalid) status was given. */
  lemma ExpiringOverridesStatus(ss: seq<Subscription>, status: Option<string>, now: int, s: Subscription)
    ensures var r := SubscriptionsSelected(ss, SubscriptionsWhere(status, Some("true"), now));
            r.Some? && (s in r.value <==> s in ss && s.status == Active && s.endDate <= now + 7 * DayMs)
  {
    FilterMembership(ss, SubscriptionMatchesAt(Some(Active), Some(now + 7 * DayMs)), s);
  }

  // ---------------------------------------------------------------- /payments

  predicate PaymentMatches(p: Payment, status: Option<PaymentStatus>, userId: Option<string>) {
    (status.None? || p.status == status.value) && (userId.None? || p.userId == userId.value)
  }

  function PaymentMatchesAt(status: Option<PaymentStatus>, userId: Option<string>): Payment -> bool {
    (p: Payment) => PaymentMatches(p, status, userId)
  }

  /** The first `n` elements (`take: n`). */
  function Take<T>(xs: seq<T>, n: nat): (r: seq<T>)
    ensures |r| <= n && |r| <= |xs| && r == xs[..|r|]
    ensures |xs| <= n ==> r == xs
  {
    if |xs| <= n then xs else xs[..n]
  }

  /** `/payments`: at most 100 payments matching a non-empty status and user id; None when
      the status names no payment status. */
  function PaymentsListed(ps: seq<Payment>, status: Option<string>, userId: Option<string>): (r: Option<seq<Payment>>)
    ensures r.Some? ==> |r.value| <= 100
  {
    var user := if Truthy(userId) then userId else None;
    if !Truthy(status) then Some(Take(Filter(ps, PaymentMatchesAt(None, user)), 100))
    else
      match ParsePaymentStatus(status.value)
      case None => None
      case Some(st) => Some(Take(Filter(ps, PaymentMatchesAt(Some(st), user)), 100))
  }

  /** Every listed payment matches the filters. */
  lemma PaymentsListedMatch(ps: seq<Payment>, status: Option<string>, userId: Option<string>, i: nat)
    requires PaymentsListed(ps, status, userId).Some? && i < |PaymentsListed(ps, status, userId).value|
    ensures var p := PaymentsListed(ps, status, userId).value[i];
            p in ps
            && (Truthy(userId) ==> p.userId == userId.value)
            && (Truthy(status) ==> PaymentStatusName(p.status) == status.value)
  {
    var user := if Truthy(userId) then userId else None;
    var st := if Truthy(status) then ParsePaymentStatus(status.value) else None;
    var f := Filter(ps, PaymentMatchesAt(st, user));
    FilterMembership(ps, PaymentMatchesAt(st, user), f[i]);
  }

  /** The `/payments` filters read on the stored names: a non-empty user id and a non-empty
      status name must each be the payment's own. */
  function ListedBy(status: Option<string>, userId: Option<string>): Payment -> bool {
    (p: Payment) => (Truthy(userId) ==> p.userId == userId.value)
                    && (Truthy(status) ==> PaymentStatusName(p.status) == status.value)
  }

  /** The store refuses a status naming no payment status; otherwise the list is the first
      100 payments, in table order, matching the filters on their stored names, so when at
      most 100 match every matching payment is listed. */
  lemma PaymentsListedComplete(ps: seq<Payment>, status: Option<string>, userId: Option<string>, p: Payment)
    ensures PaymentsListed(ps, status, userId).None? <==> Truthy(status) && ParsePaymentStatus(status.value).None?
    ensures var r := PaymentsListed(ps, status, userId);
            r.Some? ==> r.value == Take(Filter(ps, ListedBy(status, userId)), 100)
    ensures var r := PaymentsListed(ps, status, userId);
            r.Some? && |Filter(ps, ListedBy(status, userId))| <= 100 && p in ps && ListedBy(status, userId)(p)
            ==> p in r.value
  {
    var user := if Truthy(userId) then userId else None;
    var st := if Truthy(status) then ParsePaymentStatus(status.value) else None;
    if !Truthy(status) || st.Some? {
      forall k | 0 <= k < |ps| ensures PaymentMatchesAt(st, user)(ps[k]) == ListedBy(status, userId)(ps[k]) {
        if st.Some? {
          StatusNamesRoundTrip(ps[k].status, Active);
        }
      }
      FilterExt(ps, PaymentMatchesAt(st, user), ListedBy(status, userId));
      FilterMembership(ps, ListedBy(status, userId), p);
    }
  }

  // ---------------------------------------------------------------- /orders

  /** The `/orders` where-clause: an upper-cased status and an inclusive date range. */
  datatype OrdersQuery = OrdersQuery(status: Option<string>, range: Option<(int, int)>)

  /** A status other than "all" is upper-cased; the range needs both dates. */
  function OrdersWhere(startDate: Option<string>, endDate: Option<string>, status: Option<string>,
                       parseDate: string -> int): (q: OrdersQuery)
    ensures q.status.Some? <==> Truthy(status) && status.value != "all"
    ensures q.status.Some? ==> q.status.value == ToUpper(status.value)
    ensures q.range.Some? <==> Truthy(startDate) && Truthy(endDate)
    ensures q.range.Some? ==> q.range.value == (parseDate(startDate.value), parseDate(endDate.value))
  {
    OrdersQuery(if Truthy(status) && status.value != "all" then Some(ToUpper(status.value)) else None,
                if Truthy(startDate) && Truthy(endDate)
                then Some((parseDate(startDate.value), parseDate(endDate.value))) else None)
  }

  predicate OrderMatches(p: Payment, status: Option<PaymentStatus>, range: Option<(int, int)>) {
    (status.None? || p.status == status.value)
    && (range.None? || range.value.0 <= p.createdAt <= range.value.1)
  }

  function OrderMatchesAt(status: Option<PaymentStatus>, range: Option<(int, int)>): Payment -> bool {
    (p: Payment) => OrderMatches(p, status, range)
  }

  datatype OrdersReply = OrdersOk(data: seq<Payment>) | OrdersFailed(status: int, message: string)

  /** `/orders`: the matching payments, or the 500 reply when the store refuses the
      status name. */
  function Orders(ps: seq<Payment>, q: OrdersQuery): OrdersReply {
    var failed := OrdersFailed(500, "Failed to fetch order reports");
    if q.status.None? then OrdersOk(Filter(ps, OrderMatchesAt(None, q.range)))
    else
      match ParsePaymentStatus(q.status.value)
      case None => failed
      case Some(st) => OrdersOk(Filter(ps, OrderMatchesAt(Some(st), q.range)))
  }

  /** A status name written in lower case upper-cases back to itself and is not "all". */
  lemma StatusNameCase(st: PaymentStatus)
    ensures ToUpper(ToLower(PaymentStatusName(st))) == PaymentStatusName(st)
    ensures ToLower(PaymentStatusName(st)) != "all"
  {
    match st
    case Pending => assert ToLower("PENDING") == "pending";
    case Completed => assert ToLower("COMPLETED") == "completed";
    case Failed => assert ToLower("FAILED") == "failed";
    case Cancelled => assert ToLower("CANCELLED") == "cancelled";
  }

  /** "all" and an absent status select every status; "ALL" is upper-cased to a name no
      payment status has, so it fails. */
  lemma OrdersAllStatuses(ps: seq<Payment>, startDate: Option<string>, endDate: Option<string>,
                          parseDate: string -> int)
    ensures Orders(ps, OrdersWhere(startDate, endDate, Some("all"), parseDate))
            == Orders(ps, OrdersWhere(startDate, endDate, None, parseDate))
    ensures Orders(ps, OrdersWhere(startDate, endDate, Some("ALL"), parseDate)).OrdersFailed?
  {
    assert ToUpper("ALL") == "ALL";
  }

  /** A lower-case status name selects exactly the payments with that status in the range. */
  lemma OrdersStatusFilter(ps: seq<Payment>, startDate: Option<string>, endDate: Option<string>,
                           parseDate: string -> int, st: PaymentStatus, p: Payment)
    ensures var r := Orders(ps, OrdersWhere(startDate, endDate, Some(ToLower(PaymentStatusName(st))), parseDate));
            r.OrdersOk? && (p in r.data <==> p in ps && p.status == st
                                             && OrderMatches(p, None, OrdersWhere(startDate, endDate, None, parseDate).range))
  {
    StatusNameCase(st);
    var range := OrdersWhere(startDate, endDate, None, parseDate).range;
    FilterMembership(ps, OrderMatchesAt(Some(st), range), p);
  }

  // ---------------------------------------------------------------- /settings

  /** The `reduce` of the settings rows into an object: a later row with the same key
      overwrites an earlier one. */
  function SettingsObject(ss: seq<Setting>): map<string, string>
    decreases |ss|
  {
    if ss == [] then map[]
    else SettingsObject(ss[..|ss| - 1])[ss[|ss| - 1].key := ss[|ss| - 1].value]
  }

  /** The object has exactly the stored keys, each with the value of its last row. */
  lemma {:induction false} SettingsObjectSpec(ss: seq<Setting>, key: string)
    ensures key in SettingsObject(ss) <==> FindSetting(ss, key).Some?
    ensures key in SettingsObject(ss) ==> SettingsObject(ss)[key] == ss[FindSetting(ss, key).value].value
    decreases |ss|
  {
    if ss != [] {
      SettingsObjectSpec(ss[..|ss| - 1], key);
    }
  }

  /** The body's `settings` field: absent or falsy, a truthy non-object, or an object's
      entries (None for a value that is not a string). */
  datatype SettingsBody = NoSettings | NotAnObject | Entries(entries: seq<(string, Option<string>)>)

  datatype PutReply = Updated | BadRequest(message: string) | StoreRefused(key: string)

  /** The upserts of a list of key/value pairs, in order. */
  function UpsertAll(ss: seq<Setting>, kvs: seq<(string, string)>): seq<Setting>
    decreases |kvs|
  {
    if kvs == [] then ss
    else Upsert(UpsertAll(ss, kvs[..|kvs| - 1]), kvs[|kvs| - 1].0, kvs[|kvs| - 1].1)
  }

  /** The position of the first entry whose value is not a string, or the count. */
  function FirstNonString(entries: seq<(string, Option<string>)>): (k: nat)
    ensures k <= |entries| && (k < |entries| ==> entries[k].1.None?)
    ensures forall i :: 0 <= i < k ==> entries[i].1.Some?
    decreases |entries|
  {
    if entries == [] then 0
    else if entries[0].1.None? then 0
    else 1 + FirstNonString(entries[1..])
  }

  /** The string values of entries that have them. */
  function Strings(entries: seq<(string, Option<string>)>): (kvs: seq<(string, string)>)
    requires forall i :: 0 <= i < |entries| ==> entries[i].1.Some?
    ensures |kvs| == |entries| && forall i :: 0 <= i < |kvs| ==> kvs[i] == (entries[i].0, entries[i].1.value)
  {
    seq(|entries|, i requires 0 <= i < |entries| => (entries[i].0, entries[i].1.value))
  }

  /** One upsert, seen through the settings object, is one map update. */
  lemma UpsertObject(ss: seq<Setting>, key: string, value: string)
    requires UniqueSettingKeys(ss)
    ensures UniqueSettingKeys(Upsert(ss, key, value))
    ensures SettingsObject(Upsert(ss, key, value)) == SettingsObject(ss)[key := value]
  {
    var after := Upsert(ss, key, value);
    forall k ensures (k in SettingsObject(after)) == (k in SettingsObject(ss)[key := value])
                     && (k in SettingsObject(after) ==> SettingsObject(after)[k] == SettingsObject(ss)[key := value][k])
    {
      UpsertSpec(ss, key, value, k);
      SettingsObjectSpec(ss, k);
      SettingsObjectSpec(after, k);
    }
  }

  /** A sequence of map updates. */
  function ApplyAll(m: map<string, string>, kvs: seq<(string, string)>): map<string, string>
    decreases |kvs|
  {
    if kvs == [] then m
    else ApplyAll(m, kvs[..|kvs| - 1])[kvs[|kvs| - 1].0 := kvs[|kvs| - 1].1]
  }

  /** The upserts, seen through the settings object, are the map updates. */
  lemma {:induction false} UpsertAllObject(ss: seq<Setting>, kvs: seq<(string, string)>)
    requires UniqueSettingKeys(ss)
    ensures UniqueSettingKeys(UpsertAll(ss, kvs))
    ensures SettingsObject(UpsertAll(ss, kvs)) == ApplyAll(SettingsObject(ss), kvs)
    decreases |kvs|
  {
    if kvs != [] {
      UpsertAllObject(ss, kvs[..|kvs| - 1]);
      UpsertObject(UpsertAll(ss, kvs[..|kvs| - 1]), kvs[|kvs| - 1].0, kvs[|kvs| - 1].1);
    }
  }

  /** After the updates a given key holds the value of its last pair. */
  lemma {:induction false} ApplyAllLast(m: map<string, string>, kvs: seq<(string, string)>, i: nat)
    requires i < |kvs| && forall j :: i < j < |kvs| ==> kvs[j].0 != kvs[i].0
    ensures kvs[i].0 in ApplyAll(m, kvs) && ApplyAll(m, kvs)[kvs[i].0] == kvs[i].1
    decreases |kvs|
  {
    if i < |kvs| - 1 {
      ApplyAllLast(m, kvs[..|kvs| - 1], i);
    }
  }

  /** A key no pair names keeps what it had. */
  lemma {:induction false} ApplyAllOthers(m: map<string, string>, kvs: seq<(string, string)>, key: string)
    requires forall j :: 0 <= j < |kvs| ==> kvs[j].0 != key
    ensures (key in ApplyAll(m, kvs) <==> key in m) && (key in m ==> ApplyAll(m, kvs)[key] == m[key])
    decreases |kvs|
  {
    if kvs != [] {
      ApplyAllOthers(m, kvs[..|kvs| - 1], key);
    }
  }

  /** PUT `/settings` with string values: each given key ends with the value of its last
      entry, every other stored key is kept, and keys stay unique. */
  lemma UpsertAllSpec(ss: seq<Setting>, kvs: seq<(string, string)>, i: nat, key: string)
    requires UniqueSettingKeys(ss)
    requires i < |kvs| && forall j :: i < j < |kvs| ==> kvs[j].0 != kvs[i].0
    ensures UniqueSettingKeys(UpsertAll(ss, kvs))
    ensures kvs[i].0 in SettingsObject(UpsertAll(ss, kvs)) && SettingsObject(UpsertAll(ss, kvs))[kvs[i].0] == kvs[i].1
    ensures (forall j :: 0 <= j < |kvs| ==> kvs[j].0 != key) && key in SettingsObject(ss) ==>
              key in SettingsObject(UpsertAll(ss, kvs))
              && SettingsObject(UpsertAll(ss, kvs))[key] == SettingsObject(ss)[key]
  {
    UpsertAllObject(ss, kvs);
    ApplyAllLast(SettingsObject(ss), kvs, i);
    if forall j :: 0 <= j < |kvs| ==> kvs[j].0 != key {
      ApplyAllOthers(SettingsObject(ss), kvs, key);
    }
  }

  /** PUT `/settings`: refuses a missing or non-object body; otherwise upserts the entries
      in order, and the store refuses the first value that is not a string, after the
      earlier entries were written. */
  method PutSettings(db: Db, body: SettingsBody) returns (reply: PutReply)
    requires db.Valid()
    modifies db`settings
    ensures db.Valid()
    ensures !body.Entries? ==> reply == BadRequest("Settings object is required") && db.settings == old(db.settings)
    ensures body.Entries? ==>
              var k := FirstNonString(body.entries);
              db.settings == UpsertAll(old(db.settings), Strings(body.entries[..k]))
              && (reply == if k == |body.entries| then Updated else StoreRefused(body.entries[k].0))
  {
    if !body.Entries? {
      return BadRequest("Settings object is required");
    }
    var entries := body.entries;
    var k := FirstNonString(entries);
    ghost var kvs := Strings(entries[..k]);
    var i := 0;
    while i < |entries|
      invariant 0 <= i <= k
      invariant db.Valid()
      invariant db.settings == UpsertAll(old(db.settings), kvs[..i])
    {
      if entries[i].1.None? {
        assert kvs == kvs[..i];
        return StoreRefused(entries[i].0);
      }
      assert kvs[..i + 1][..i] == kvs[..i];
      db.UpsertSetting(entries[i].0, entries[i].1.value);
      i := i + 1;
    }
    assert kvs == kvs[..i];
    reply := Updated;
  }

  // ---------------------------------------------------------------- device reports

  /** A position: its speed (whole units) and fix time (ms). */
  datatype Position = Position(speed: int, fixTime: int)

  /** The time between consecutive fixes, summed. */
  function TotalTime(ps: seq<Position>): int
    decreases |ps|
  {
    if |ps| < 2 then 0
    else TotalTime(ps[..|ps| - 1]) + (ps[|ps| - 1].fixTime - ps[|ps| - 2].fixTime)
  }

  /** The intervals whose end point moves faster than 5, summed. */
  function MovingTime(ps: seq<Position>): int
    decreases |ps|
  {
    if |ps| < 2 then 0
    else MovingTime(ps[..|ps| - 1])
         + (if ps[|ps| - 1].speed > 5 then ps[|ps| - 1].fixTime - ps[|ps| - 2].fixTime else 0)
  }

  /** The highest speed from the second position on, and at least 0. */
  function MaxSpeed(ps: seq<Position>): int
    decreases |ps|
  {
    if |ps| < 2 then 0
    else Max(MaxSpeed(ps[..|ps| - 1]), ps[|ps| - 1].speed)
  }

  /** The total time telescopes to the span from the first fix to the last. */
  lemma {:induction false} TotalTimeSpan(ps: seq<Position>)
    ensures TotalTime(ps) == if |ps| < 2 then 0 else ps[|ps| - 1].fixTime - ps[0].fixTime
    decreases |ps|
  {
    if |ps| >= 3 {
      TotalTimeSpan(ps[..|ps| - 1]);
    }
  }

  predicate Chronological(ps: seq<Position>) {
    forall i :: 0 < i < |ps| ==> ps[i - 1].fixTime <= ps[i].fixTime
  }

  /** With fixes in time order the moving time is between 0 and the total time. */
  lemma {:induction false} MovingWithinTotal(ps: seq<Position>)
    requires Chronological(ps)
    ensures 0 <= MovingTime(ps) <= TotalTime(ps)
    decreases |ps|
  {
    if |ps| >= 2 {
      MovingWithinTotal(ps[..|ps| - 1]);
    }
  }

  /** The maximum is 0 or the speed of a position after the first, and bounds every such
      speed. */
  lemma {:induction false} MaxSpeedSpec(ps: seq<Position>)
    ensures MaxSpeed(ps) >= 0
    ensures forall i :: 1 <= i < |ps| ==> ps[i].speed <= MaxSpeed(ps)
    ensures MaxSpeed(ps) == 0 || exists i :: 1 <= i < |ps| && ps[i].speed == MaxSpeed(ps)
    decreases |ps|
  {
    if |ps| >= 2 {
      var init := ps[..|ps| - 1];
      MaxSpeedSpec(init);
      forall i | 1 <= i < |ps| ensures ps[i].speed <= MaxSpeed(ps) {
        if i < |init| { assert init[i] == ps[i]; }
      }
      if MaxSpeed(ps) != 0 && MaxSpeed(ps) != ps[|ps| - 1].speed {
        var i :| 1 <= i < |init| && init[i].speed == MaxSpeed(init);
        assert ps[i] == init[i];
      }
    }
  }

  /** The first position's speed never counts. */
  lemma {:induction false} MaxSpeedIgnoresFirst(ps: seq<Position>, p: Position)
    requires |ps| > 0
    ensures MaxSpeed(ps[0 := p]) == MaxSpeed(ps)
    decreases |ps|
  {
    if |ps| >= 2 {
      assert ps[0 := p][..|ps| - 1] == ps[..|ps| - 1][0 := p];
      MaxSpeedIgnoresFirst(ps[..|ps| - 1], p);
    }
  }

  /** The report summary, times in whole minutes (`Math.round` of ms / 60000). */
  datatype Summary = Summary(maxSpeed: int, totalTime: int, movingTime: int, stoppedTime: int, positionCount: nat)

  const MinuteMs: int := 60_000

  /** The summary loop over consecutive positions; fewer than two give all zeros. */
  method Summarize(ps: seq<Position>) returns (s: Summary)
    ensures s == Summary(MaxSpeed(ps), RoundDiv(TotalTime(ps), MinuteMs), RoundDiv(MovingTime(ps), MinuteMs),
                         RoundDiv(TotalTime(ps) - MovingTime(ps), MinuteMs), |ps|)
    ensures |ps| < 2 ==> s == Summary(0, 0, 0, 0, |ps|)
  {
    var maxSpeed, totalTime, movingTime := 0, 0, 0;
    if |ps| > 1 {
      var i := 1;
      while i < |ps|
        invariant 1 <= i <= |ps|
        invariant maxSpeed == MaxSpeed(ps[..i])
        invariant totalTime == TotalTime(ps[..i])
        invariant movingTime == MovingTime(ps[..i])
      {
        var prev, curr := ps[i - 1], ps[i];
        assert ps[..i + 1][..i] == ps[..i];
        if curr.speed > maxSpeed {
          maxSpeed := curr.speed;
        }
        var timeDiff := curr.fixTime - prev.fixTime;
        totalTime := totalTime + timeDiff;
        if curr.speed > 5 {
          movingTime := movingTime + timeDiff;
        }
        i := i + 1;
      }
      assert ps[..i] == ps;
    }
    s := Summary(maxSpeed, RoundDiv(totalTime, MinuteMs), RoundDiv(movingTime, MinuteMs),
                 RoundDiv(totalTime - movingTime, MinuteMs), |ps|);
  }

  /** The stopped minutes are rounded separately, so they differ from total minus moving
      minutes by at most one. */
  lemma StoppedRounding(total: int, moving: int)
    ensures -1 <= RoundDiv(total - moving, MinuteMs) - (RoundDiv(total, MinuteMs) - RoundDiv(moving, MinuteMs)) <= 1
  {
  }

  /** The positions the report returns: the first 500. */
  function ReportPositions(ps: seq<Position>): (r: seq<Position>)
    ensures |r| == if |ps| < 500 then |ps| else 500
    ensures r == ps[..|r|]
  {
    Take(ps, 500)
  }
}

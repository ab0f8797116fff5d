// The dashboard summary: the caller's device usage against their plan, and the
// site-wide counts shown only to administrators.

module Dashboard {
  import opened Common
  import opened Store
  import opened AuthMiddleware

  /** `Math.round(used / limit * 100)`: a rounded percentage, or the non-finite values a
      zero limit gives. */
  datatype Utilization = Percent(value: int) | Infinite | NotANumber

  datatype Usage = Usage(devicesUsed: nat, deviceLimit: nat, utilization: Utilization, canAddDevice: bool)

  datatype AdminStats = AdminStats(users: nat, devices: nat, subscriptions: nat)

  datatype Reply = Unauthorized | NotFound | Summary(usage: Usage, stats: Option<AdminStats>)

  function OwnedBy(userId: string): Device -> bool {
    (d: Device) => d.userId == userId
  }

  /** The plan of the user's subscription, when both exist. */
  function PlanOf(userId: string, subs: seq<Subscription>, plans: seq<Plan>): Option<Plan> {
    match FindSubscription(subs, userId)
    case None => None
    case Some(j) => FindPlan(plans, subs[j].planId)
  }

  function Utilize(used: nat, limit: nat): Utilization {
    if limit > 0 then Percent(RoundDiv(100 * used, limit))
    else if used > 0 then Infinite
    else NotANumber
  }

  /** `userStats`. */
  function UsageOf(userId: string, devices: seq<Device>, subs: seq<Subscription>, plans: seq<Plan>): Usage {
    var used := Count(devices, OwnedBy(userId));
    var plan := PlanOf(userId, subs, plans);
    match plan
    case None => Usage(used, 0, Percent(0), false)
    case Some(p) => Usage(used, p.deviceLimit, Utilize(used, p.deviceLimit), used < p.deviceLimit)
  }

  /** The dashboard route: 401 without a caller, 404 for a caller no longer stored,
      otherwise the usage, with the counts only for an administrator. */
  function DashboardReply(caller: Option<AuthUser>, users: seq<User>, devices: seq<Device>,
                          subs: seq<Subscription>, plans: seq<Plan>): Reply {
    if caller.None? then Unauthorized
    else if FindUser(users, caller.value.id).None? then NotFound
    else Summary(UsageOf(caller.value.id, devices, subs, plans),
                 if caller.value.role == "ADMIN" then Some(AdminStats(|users|, |devices|, |subs|)) else None)
  }

  /** The usage counts every device the user owns and no other; without a subscription
      or plan the limit and percentage are 0 and no device can be added; a device can be
      added exactly when a plan exists and the count is below its limit. */
  lemma UsageSpec(userId: string, devices: seq<Device>, subs: seq<Subscription>, plans: seq<Plan>,
                  d: Device)
    ensures var u := UsageOf(userId, devices, subs, plans);
            && u.devicesUsed <= |devices|
            && (d in Filter(devices, OwnedBy(userId)) <==> d in devices && d.userId == userId)
            && (PlanOf(userId, subs, plans).None? ==> u.deviceLimit == 0 && u.utilization == Percent(0) && !u.canAddDevice)
            && (u.canAddDevice <==> PlanOf(userId, subs, plans).Some? && u.devicesUsed < u.deviceLimit)
            && (PlanOf(userId, subs, plans).Some? ==> u.deviceLimit == PlanOf(userId, subs, plans).value.deviceLimit)
  {
    FilterMembership(devices, OwnedBy(userId), d);
  }

  /** A user with no subscription at all has no plan. */
  lemma NoSubscriptionNoPlan(userId: string, subs: seq<Subscription>, plans: seq<Plan>)
    requires forall j :: 0 <= j < |subs| ==> subs[j].userId != userId
    ensures PlanOf(userId, subs, plans).None?
  {
  }

  /** Below the limit the rounded percentage is at most 100 and at or above it at least
      100; rounding can still show 100 while a device can be added. */
  lemma UtilizationBounds(used: nat, limit: nat)
    requires limit > 0
    ensures used < limit ==> 0 <= Utilize(used, limit).value <= 100
    ensures used >= limit ==> Utilize(used, limit).value >= 100
    ensures Utilize(199, 200) == Percent(100)
  {
    var r := RoundDiv(100 * used, limit);
    assert (2 * r - 1) * limit <= 200 * used < (2 * r + 1) * limit;
    if used < limit {
      assert 200 * used < 200 * limit;
      LessByFactor(2 * r - 1, 200, limit);
      LessByFactor(0, 2 * r + 1, limit);
    } else {
      assert 200 * limit <= 200 * used;
      LessByFactor(200, 2 * r + 1, limit);
    }
    var q := RoundDiv(100 * 199, 200);
    assert 2 * (q * 200) - 200 <= 2 * (100 * 199) < 2 * (q * 200) + 200;
  }

  lemma LessByFactor(a: int, b: int, c: int)
    requires c > 0 && a * c < b * c
    ensures a < b
  {
  }

  /** The site-wide counts appear exactly for an administrator, and a stored caller
      always gets a summary. */
  lemma StatsOnlyForAdmin(caller: Option<AuthUser>, users: seq<User>, devices: seq<Device>,
                          subs: seq<Subscription>, plans: seq<Plan>)
    ensures var r := DashboardReply(caller, users, devices, subs, plans);
            && (r == Unauthorized <==> caller.None?)
            && (r == NotFound <==> caller.Some? && forall i :: 0 <= i < |users| ==> users[i].id != caller.value.id)
            && (r.Summary? ==> (r.stats.Some? <==> caller.value.role == "ADMIN"))
            && (r.Summary? && r.stats.Some? ==> r.stats.value == AdminStats(|users|, |devices|, |subs|))
  {
  }
}

// The account routes: registration, login, token refresh, the cookie options, and the
// password-reset token lifecycle on the user record. Hashing, password comparison, token
// signing and the random reset token are parameters.

module AuthRoutes {
  import opened Common
  import opened Store

  /** How a route ends. */
  datatype Reply = Created(user: User) | LoggedIn(user: User) | Succeeded(message: string)
                 | Refused(status: int, message: string)

  const ResetWindowMs: int := 3_600_000
  const AccessMaxAgeMs: int := 15 * 60 * 1000
  const RefreshMaxAgeMs: int := 30 * 24 * 60 * 60 * 1000

  /** The role a new user gets from the schema default. */
  const DefaultRole: string := "USER"

  // ---------------------------------------------------------------- cookies

  datatype SameSite = Strict | Lax

  /** Options of a cookie; no `maxAge` makes a session cookie. */
  datatype CookieOptions = CookieOptions(httpOnly: bool, secure: bool, sameSite: SameSite, maxAge: Option<int>)

  function Cookie(isProduction: bool, maxAge: Option<int>): (c: CookieOptions)
    ensures c.httpOnly && (c.secure <==> isProduction) && (c.sameSite == Strict <==> isProduction)
    ensures c.maxAge == maxAge
  {
    CookieOptions(true, isProduction, if isProduction then Strict else Lax, maxAge)
  }

  /** Login's refresh cookie lasts 30 days only with "remember me". */
  function LoginRefreshCookie(isProduction: bool, rememberMe: bool): (c: CookieOptions)
    ensures c.maxAge.Some? <==> rememberMe
    ensures c.maxAge.Some? ==> c.maxAge.value == RefreshMaxAgeMs
    ensures c.secure <==> isProduction
  {
    Cookie(isProduction, if rememberMe then Some(RefreshMaxAgeMs) else None)
  }

  /** The access cookie, and registration's refresh cookie, always carry their maxAge. */
  lemma CookieLifetimes(isProduction: bool)
    ensures Cookie(isProduction, Some(AccessMaxAgeMs)).maxAge == Some(900_000)
    ensures Cookie(isProduction, Some(RefreshMaxAgeMs)).maxAge == Some(2_592_000_000)
    ensures LoginRefreshCookie(isProduction, false).maxAge.None?
  {
  }

  // ---------------------------------------------------------------- register

  /** `findFirst` on the plan name. */
  function FindPlanByName(plans: seq<Plan>, name: string): (r: Option<Plan>)
    ensures r.Some? ==> r.value in plans && r.value.name == name
    ensures r.None? ==> forall i :: 0 <= i < |plans| ==> plans[i].name != name
    decreases |plans|
  {
    if |plans| == 0 then None
    else if plans[0].name == name then Some(plans[0])
    else FindPlanByName(plans[1..], name)
  }

  /** An id no stored user or subscription uses. */
  predicate FreshId(us: seq<User>, ss: seq<Subscription>, id: string) {
    (forall i :: 0 <= i < |us| ==> us[i].id != id) && (forall j :: 0 <= j < |ss| ==> ss[j].userId != id)
  }

  /** POST /register on the users and subscriptions: all three fields (400), an unused
      address (409); then the user, and a free subscription when a plan named "Free"
      exists. */
  function Registration(us: seq<User>, ss: seq<Subscription>, plans: seq<Plan>,
                        email: Option<string>, password: Option<string>, name: Option<string>,
                        hash: string -> string, userId: string, subscriptionId: string, now: int)
    : (Reply, seq<User>, seq<Subscription>)
  {
    if !Truthy(email) || !Truthy(password) || !Truthy(name) then
      (Refused(400, "Email, password, and name are required"), us, ss)
    else if FindUserByEmail(us, email.value).Some? then (Refused(409, "User already exists with this email"), us, ss)
    else
      var u := User(userId, email.value, name.value, hash(password.value), DefaultRole, None, None);
      match FindPlanByName(plans, "Free")
      case None => (Created(u), us + [u], ss)
      case Some(p) => (Created(u), us + [u], ss + [Subscription(subscriptionId, userId, p.id, Active, now + p.durationDays * DayMs)])
  }

  /** Registration succeeds exactly with all fields and a free address; it adds one user
      with the hashed password, and one ACTIVE subscription exactly when a free plan
      exists; the constraints keep holding for a fresh id. */
  lemma RegistrationSpec(us: seq<User>, ss: seq<Subscription>, plans: seq<Plan>,
                         email: Option<string>, password: Option<string>, name: Option<string>,
                         hash: string -> string, userId: string, subscriptionId: string, now: int)
    requires UniqueUsers(us) && UniqueSubscribers(ss) && FreshId(us, ss, userId)
    ensures var (reply, us', ss') := Registration(us, ss, plans, email, password, name, hash, userId, subscriptionId, now);
            && (reply.Created? <==> Truthy(email) && Truthy(password) && Truthy(name)
                                    && forall i :: 0 <= i < |us| ==> us[i].email != email.value)
            && (!reply.Created? ==> us' == us && ss' == ss && reply.Refused? && reply.status in {400, 409})
            && (reply.Created? ==> us' == us + [reply.user] && reply.user.passwordHash == hash(password.value)
                                   && reply.user.resetToken.None?
                                   && |ss'| == |ss| + (if FindPlanByName(plans, "Free").Some? then 1 else 0))
            && UniqueUsers(us') && UniqueSubscribers(ss')
  {
  }

  // ---------------------------------------------------------------- login

  /** POST /login: both fields (400); an unknown address and a wrong password give the
      same 401. */
  function Login(us: seq<User>, email: Option<string>, password: Option<string>,
                 compare: (string, string) -> bool): Reply {
    if !Truthy(email) || !Truthy(password) then Refused(400, "Email and password are required")
    else match FindUserByEmail(us, email.value)
      case None => Refused(401, "Invalid email or password")
      case Some(i) =>
        if !compare(password.value, us[i].passwordHash) then Refused(401, "Invalid email or password")
        else LoggedIn(us[i])
  }

  /** A login succeeds exactly for a stored address with a matching password, and every
      failed login with both fields gives one and the same reply, so the reply does not
      tell whether the address exists. */
  lemma LoginSpec(us: seq<User>, email: Option<string>, password: Option<string>, compare: (string, string) -> bool)
    requires UniqueUsers(us)
    ensures var r := Login(us, email, password, compare);
            && (r.LoggedIn? <==> Truthy(email) && Truthy(password)
                                 && exists i :: 0 <= i < |us| && us[i].email == email.value
                                                && compare(password.value, us[i].passwordHash))
            && (r.LoggedIn? ==> r.user in us && r.user.email == email.value)
            && (Truthy(email) && Truthy(password) && !r.LoggedIn? ==> r == Refused(401, "Invalid email or password"))
  {
    var r := Login(us, email, password, compare);
    if Truthy(email) && Truthy(password) {
      if exists i :: 0 <= i < |us| && us[i].email == email.value && compare(password.value, us[i].passwordHash) {
        var k :| 0 <= k < |us| && us[k].email == email.value && compare(password.value, us[k].passwordHash);
        var i := FindUserByEmail(us, email.value).value;
        assert i == k;
      }
    }
  }

  // ---------------------------------------------------------------- refresh

  datatype RefreshOutcome = NewAccessToken(userId: string) | RefreshRefused(status: int, message: string)

  /** POST /refresh: no cookie is 401, a token that does not verify is 403. */
  function Refresh(refreshToken: Option<string>, verify: string -> Option<string>): (r: RefreshOutcome)
    ensures r == RefreshRefused(401, "No refresh token") <==> !Truthy(refreshToken)
    ensures r == RefreshRefused(403, "Invalid refresh token") <==> Truthy(refreshToken) && verify(refreshToken.value).None?
    ensures r.NewAccessToken? ==> Truthy(refreshToken) && verify(refreshToken.value) == Some(r.userId)
  {
    if !Truthy(refreshToken) then RefreshRefused(401, "No refresh token")
    else match verify(refreshToken.value)
      case None => RefreshRefused(403, "Invalid refresh token")
      case Some(userId) => NewAccessToken(userId)
  }

  /** GET /me: the caller's stored record, or 404 "User not found". */
  function Me(us: seq<User>, callerId: string): (r: Result<User, int>)
    ensures r.Ok? <==> exists i :: 0 <= i < |us| && us[i].id == callerId
    ensures r.Ok? ==> r.value in us && r.value.id == callerId
    ensures r.Err? ==> r.error == 404
  {
    match FindUser(us, callerId)
    case None => Err(404)
    case Some(i) => Ok(us[i])
  }

  // ---------------------------------------------------------------- password reset

  const ForgotMessage: string := "If an account with that email exists, we have sent a password reset link."

  /** POST /forgot-password: an address (400); the same success reply whether or not it
      is stored, and for a stored one a reset token that expires an hour from now. */
  function Forgot(us: seq<User>, email: Option<string>, token: string, now: int): (Reply, seq<User>) {
    if !Truthy(email) then (Refused(400, "Email is required"), us)
    else match FindUserByEmail(us, email.value)
      case None => (Succeeded(ForgotMessage), us)
      case Some(i) => (Succeeded(ForgotMessage), us[i := us[i].(resetToken := Some(token), resetExpiry := Some(now + ResetWindowMs))])
  }

  /** The reply does not depend on the address being stored; the owner alone gets the
      token, valid until an hour from now. */
  lemma ForgotSpec(us: seq<User>, email: Option<string>, token: string, now: int)
    ensures var (reply, r) := Forgot(us, email, token, now);
            && (Truthy(email) ==> reply == Succeeded(ForgotMessage))
            && (!Truthy(email) ==> reply == Refused(400, "Email is required") && r == us)
            && |r| == |us|
            && forall i :: 0 <= i < |us| ==>
                 (r[i] != us[i] ==> Truthy(email) && us[i].email == email.value
                                    && r[i] == us[i].(resetToken := Some(token), resetExpiry := Some(now + ResetWindowMs)))
  {
  }

  /** The reset `findFirst`: the first user holding the token with an expiry after now. */
  predicate Holds(u: User, token: string, now: int) {
    u.resetToken == Some(token) && u.resetExpiry.Some? && u.resetExpiry.value > now
  }

  function FindResettable(us: seq<User>, token: string, now: int): (r: Option<nat>)
    ensures r.Some? ==> r.value < |us| && Holds(us[r.value], token, now)
                        && forall j :: 0 <= j < r.value ==> !Holds(us[j], token, now)
    ensures r.None? ==> forall i :: 0 <= i < |us| ==> !Holds(us[i], token, now)
    decreases |us|
  {
    if |us| == 0 then None
    else if Holds(us[0], token, now) then Some(0)
    else
      var r := FindResettable(us[1..], token, now);
      if r.Some? then Some(r.value + 1) else None
  }

  /** POST /reset-password: a token and a password (400), a password of six characters
      or more (400), a live token (400); then the new hash and the token cleared. */
  function Reset(us: seq<User>, token: Option<string>, password: Option<string>, hash: string -> string, now: int)
    : (Reply, seq<User>)
  {
    if !Truthy(token) || !Truthy(password) then (Refused(400, "Token and password are required"), us)
    else if |password.value| < 6 then (Refused(400, "Password must be at least 6 characters long"), us)
    else match FindResettable(us, token.value, now)
      case None => (Refused(400, "Invalid or expired reset token"), us)
      case Some(i) =>
        (Succeeded("Password reset successfully"),
         us[i := us[i].(passwordHash := hash(password.value), resetToken := None, resetExpiry := None)])
  }

  /** A reset succeeds exactly with a long enough password and a token some user holds
      unexpired; it changes that user's password and clears the token. */
  lemma ResetSpec(us: seq<User>, token: Option<string>, password: Option<string>, hash: string -> string, now: int)
    ensures var (reply, r) := Reset(us, token, password, hash, now);
            && (reply.Succeeded? <==> Truthy(token) && Truthy(password) && |password.value| >= 6
                                      && exists i :: 0 <= i < |us| && Holds(us[i], token.value, now))
            && (!reply.Succeeded? ==> r == us && reply.Refused? && reply.status == 400)
            && (reply.Succeeded? ==>
                  exists i :: 0 <= i < |us| && Holds(us[i], token.value, now)
                              && r == us[i := us[i].(passwordHash := hash(password.value), resetToken := None, resetExpiry := None)])
  {
  }

  /** No two users hold the same reset token (the tokens are random). */
  predicate TokenHeldOnce(us: seq<User>, token: string) {
    forall i, j :: 0 <= i < j < |us| && us[i].resetToken == Some(token) ==> us[j].resetToken != Some(token)
  }

  /** A reset token is single-use: once a reset with it succeeded, a second one with the
      same token fails, whatever the time. */
  lemma ResetSingleUse(us: seq<User>, token: string, p1: string, p2: Option<string>, hash: string -> string,
                       now1: int, now2: int)
    requires TokenHeldOnce(us, token)
    requires Reset(us, Some(token), Some(p1), hash, now1).0.Succeeded?
    ensures Reset(Reset(us, Some(token), Some(p1), hash, now1).1, Some(token), p2, hash, now2).0.Refused?
  {
    var r := Reset(us, Some(token), Some(p1), hash, now1).1;
    var i := FindResettable(us, token, now1).value;
    forall j | 0 <= j < |r| ensures !Holds(r[j], token, now2) {
      if j != i { assert us[j].resetToken != Some(token); }
    }
  }

  /** The lifecycle: a token issued by forgot-password resets the password within the
      hour and no longer once the hour has passed. */
  lemma ForgotThenReset(us: seq<User>, email: string, token: string, password: string, hash: string -> string,
                        now: int, later: int)
    requires UniqueUsers(us) && email != "" && token != "" && |password| >= 6
    requires exists i :: 0 <= i < |us| && us[i].email == email
    requires forall i :: 0 <= i < |us| ==> us[i].resetToken != Some(token)
    ensures later < now + ResetWindowMs ==>
              Reset(Forgot(us, Some(email), token, now).1, Some(token), Some(password), hash, later).0.Succeeded?
    ensures later >= now + ResetWindowMs ==>
              Reset(Forgot(us, Some(email), token, now).1, Some(token), Some(password), hash, later).0.Refused?
  {
    var i := FindUserByEmail(us, email).value;
    var r := Forgot(us, Some(email), token, now).1;
    assert r == us[i := us[i].(resetToken := Some(token), resetExpiry := Some(now + ResetWindowMs))];
    if later < now + ResetWindowMs {
      assert Holds(r[i], token, later);
    } else {
      forall j | 0 <= j < |r| ensures !Holds(r[j], token, later) {
        if j != i { assert r[j] == us[j]; }
      }
    }
  }

  // ---------------------------------------------------------------- methods on the store

  method Register(db: Db, email: Option<string>, password: Option<string>, name: Option<string>,
                  hash: string -> string, userId: string, subscriptionId: string, now: int)
    returns (reply: Reply)
    requires db.Valid() && FreshId(db.users, db.subscriptions, userId)
    modifies db`users, db`subscriptions
    ensures db.Valid()
    ensures (reply, db.users, db.subscriptions)
            == Registration(old(db.users), old(db.subscriptions), db.plans, email, password, name, hash, userId, subscriptionId, now)
  {
    RegistrationSpec(db.users, db.subscriptions, db.plans, email, password, name, hash, userId, subscriptionId, now);
    var result := Registration(db.users, db.subscriptions, db.plans, email, password, name, hash, userId, subscriptionId, now);
    reply := result.0;
    db.users, db.subscriptions := result.1, result.2;
  }

  method ForgotPassword(db: Db, email: Option<string>, token: string, now: int) returns (reply: Reply)
    requires db.Valid()
    modifies db`users
    ensures db.Valid()
    ensures (reply, db.users) == Forgot(old(db.users), email, token, now)
  {
    ForgotSpec(db.users, email, token, now);
    var result := Forgot(db.users, email, token, now);
    reply := result.0;
    db.users := result.1;
  }

  method ResetPassword(db: Db, token: Option<string>, password: Option<string>, hash: string -> string, now: int)
    returns (reply: Reply)
    requires db.Valid()
    modifies db`users
    ensures db.Valid()
    ensures (reply, db.users) == Reset(old(db.users), token, password, hash, now)
  {
    ResetSpec(db.users, token, password, hash, now);
    var result := Reset(db.users, token, password, hash, now);
    reply := result.0;
    db.users := result.1;
  }
}

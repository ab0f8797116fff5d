// The authentication middleware: where the access token comes from, the outcomes of
// checking it, and the admin gate. Token verification is a parameter.

module AuthMiddleware {
  import opened Common
  import opened Store

  /** What `jwt.verify` yields: a plain-text payload or an object with an optional
      `userId`; a bad signature or an expired token throws, which is `None`. */
  datatype Payload = TextPayload | ObjectPayload(userId: Option<string>)

  /** The user attached to the request. */
  datatype AuthUser = AuthUser(id: string, email: string, role: string)

  datatype AuthOutcome = Authenticated(user: AuthUser) | Rejected(status: int, error: string)

  /** The second space-separated part of the Authorization header, when there is one. */
  function HeaderToken(authorization: Option<string>): Option<string> {
    if authorization.None? then None
    else
      var parts := Split(authorization.value, ' ');
      if |parts| > 1 then Some(parts[1]) else None
  }

  /** A non-empty cookie wins; otherwise the header's token. */
  function SelectToken(cookie: Option<string>, authorization: Option<string>): (r: Option<string>)
    ensures Truthy(cookie) ==> r == cookie
    ensures !Truthy(cookie) ==> r == HeaderToken(authorization)
  {
    if Truthy(cookie) then cookie else HeaderToken(authorization)
  }

  /** A `Bearer <token>` header yields the token, when the token has no space in it. */
  lemma BearerToken(scheme: string, token: string)
    requires ' ' !in scheme && ' ' !in token
    ensures HeaderToken(Some(scheme + " " + token)) == Some(token)
  {
    SplitAtFirst(scheme, ' ', token);
    SplitNoSeparator(token, ' ');
  }

  /** A header without a space yields no token. */
  lemma NoSpaceNoToken(authorization: string)
    requires ' ' !in authorization
    ensures HeaderToken(Some(authorization)) == None
  {
    SplitNoSeparator(authorization, ' ');
  }

  /** `authenticateToken`: no (or an empty) token is 401; a throwing verification or a
      payload without `userId` is 403; a user who no longer exists is 401. */
  function Authenticate(cookie: Option<string>, authorization: Option<string>,
                        verify: string -> Option<Payload>, users: seq<User>): AuthOutcome {
    var token := SelectToken(cookie, authorization);
    if !Truthy(token) then Rejected(401, "Access token required")
    else match verify(token.value)
      case None => Rejected(403, "Invalid or expired token")
      case Some(TextPayload) => Rejected(403, "Invalid token payload")
      case Some(ObjectPayload(None)) => Rejected(403, "Invalid token payload")
      case Some(ObjectPayload(Some(userId))) =>
        match FindUser(users, userId)
        case None => Rejected(401, "User not found")
        case Some(i) => Authenticated(AuthUser(users[i].id, users[i].email, users[i].role))
  }

  /** The outcomes exactly: a request is let through with the stored user whose id the
      token names, and rejected with 401 or 403 otherwise. */
  lemma AuthenticateSpec(cookie: Option<string>, authorization: Option<string>,
                         verify: string -> Option<Payload>, users: seq<User>)
    ensures var r, token := Authenticate(cookie, authorization, verify, users), SelectToken(cookie, authorization);
            && (r.Rejected? ==> r.status in {401, 403})
            && (!Truthy(token) ==> r == Rejected(401, "Access token required"))
            && (r.Authenticated? <==>
                  Truthy(token) && verify(token.value).Some? && verify(token.value).value.ObjectPayload?
                  && verify(token.value).value.userId.Some?
                  && exists i :: 0 <= i < |users| && users[i].id == verify(token.value).value.userId.value)
            && (r.Authenticated? ==>
                  r.user.id == verify(token.value).value.userId.value
                  && exists i :: 0 <= i < |users| && users[i].id == r.user.id
                                 && users[i].email == r.user.email && users[i].role == r.user.role)
            && (r == Rejected(403, "Invalid or expired token") <==> Truthy(token) && verify(token.value).None?)
  {
    var r, token := Authenticate(cookie, authorization, verify, users), SelectToken(cookie, authorization);
    if r.Authenticated? {
      var i := FindUser(users, verify(token.value).value.userId.value).value;
      assert users[i].email == r.user.email && users[i].role == r.user.role;
    }
  }

  /** `requireAdmin`: through exactly when the attached user's role is "ADMIN". */
  function RequireAdmin(user: Option<AuthUser>): (r: Option<AuthOutcome>)
    ensures r.None? <==> user.Some? && user.value.role == "ADMIN"
    ensures r.Some? ==> r.value == Rejected(403, "Admin access required")
  {
    if user.Some? && user.value.role == "ADMIN" then None else Some(Rejected(403, "Admin access required"))
  }
}

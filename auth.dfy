/**
 * The authentication middleware (backend/middlewares/auth.js): choose a token, verify it, find a
 * user id, check expiry, and build `req.user`. Every way it can fail answers 401.
 */
module Auth {
  import opened Wrappers
  import opened Text
  import opened Http
  import opened Jwt
  import UserModel

  /** `req.user` as the middleware attaches it. */
  datatype RequestUser = RequestUser(userId: string, email: Option<string>, role: string, tenantId: JsId)

  const BearerPrefix := "Bearer "

  const NoTokenMessage := "No authentication token provided"
  const NoUserIdMessage := "Invalid token: no user ID"
  const ExpiredMessage := "Token has expired"
  const InvalidMessage := "Invalid token"
  const FailedMessage := "Authentication failed"

  /**
   * The token in the Authorization header: the second field of `header.split(" ")` when the header
   * starts with "Bearer ", and "" (no token) otherwise.
   */
  function HeaderToken(authorization: Option<string>): (r: string)
    ensures ' ' !in r
    ensures Truthy(authorization) && StartsWith(authorization.value, BearerPrefix) ==>
      var afterFirstSpace := AfterFirst(authorization.value, ' ');
      afterFirstSpace.Some? && r == TakeUntil(afterFirstSpace.value, ' ')
    ensures !(Truthy(authorization) && StartsWith(authorization.value, BearerPrefix)) ==> r == ""
  {
    if Truthy(authorization) && StartsWith(authorization.value, BearerPrefix) then
      var h := authorization.value;
      assert h[..7] == BearerPrefix;
      assert h == "Bearer" + [' '] + h[7..];
      TakeUntilOfParts("Bearer", ' ', h[7..]);
      AfterFirstOfParts("Bearer", ' ', h[7..]);
      TakeUntil(h[|BearerPrefix|..], ' ')
    else ""
  }

  /** Lines 8-15: the header token wins; an empty one falls back to a truthy `?token=`. */
  function SelectToken(authorization: Option<string>, queryToken: Option<string>): (r: Option<string>)
    ensures r.Some? ==> r.value != ""
    ensures HeaderToken(authorization) != "" ==> r == Some(HeaderToken(authorization))
    ensures HeaderToken(authorization) == "" ==> r == (if Truthy(queryToken) then queryToken else None)
  {
    var h := HeaderToken(authorization);
    if h != "" then Some(h) else if Truthy(queryToken) then queryToken else None
  }

  /** A well-formed bearer header carries its token, whatever the query string says. */
  lemma BearerTokenWins(token: string, queryToken: Option<string>)
    requires token != "" && ' ' !in token
    ensures SelectToken(Some(BearerPrefix + token), queryToken) == Some(token)
  {
    var h := BearerPrefix + token;
    assert h[..7] == BearerPrefix;
    assert h[7..] == token;
    TakeUntilWhole(token, ' ');
  }

  /** The first truthy value of the list, as `a || b || c || d` picks it. */
  function FirstTruthy(xs: seq<Option<string>>): (r: Option<string>)
    ensures r.None? <==> forall i :: 0 <= i < |xs| ==> !Truthy(xs[i])
    ensures r.Some? ==> r.value != ""
    ensures r.Some? ==> exists i :: 0 <= i < |xs| && xs[i] == r && forall j :: 0 <= j < i ==> !Truthy(xs[j])
  {
    if xs == [] then None
    else if Truthy(xs[0]) then xs[0]
    else
      var r := FirstTruthy(xs[1..]);
      assert forall i :: 1 <= i < |xs| ==> xs[i] == xs[1..][i - 1];
      r
  }

  /** The claims that may name the user, in the order line 39 tries them. */
  function UserIdClaims(c: Claims): seq<Option<string>> {
    [c.userId, c.id, c.underscoreId, c.sub]
  }

  /** Line 50: a truthy `exp` (seconds) that `now` (milliseconds) has reached. */
  predicate Expired(c: Claims, now: int) {
    TruthyNumber(c.exp) && now >= c.exp.value * 1000
  }

  /** The largest time value, in milliseconds, a JavaScript `Date` can hold. */
  const MaxTimeValue := 8_640_000_000_000_000

  /**
   * Line 35: the debug log renders a truthy `exp` with `new Date(exp * 1000).toISOString()`, which
   * throws a RangeError when the time lies outside what a `Date` can hold.
   */
  predicate ExpOutOfDateRange(c: Claims) {
    TruthyNumber(c.exp) && (c.exp.value * 1000 > MaxTimeValue || c.exp.value * 1000 < -MaxTimeValue)
  }

  /** Lines 76-94: the message for an error thrown by `jwt.verify`, chosen by its name. */
  function ErrorMessage(errorName: string): (m: string)
    ensures m in {ExpiredMessage, InvalidMessage, FailedMessage}
    ensures m == ExpiredMessage <==> errorName == "TokenExpiredError"
    ensures m == InvalidMessage <==> errorName == "JsonWebTokenError"
  {
    if errorName == "TokenExpiredError" then ExpiredMessage
    else if errorName == "JsonWebTokenError" then InvalidMessage
    else FailedMessage
  }

  /**
   * The middleware. `verify` is `jwt.verify` with the server secret; `now` is `Date.now()`.
   * Pass(user) is `next()` with `req.user = user`.
   */
  function Authenticate(authorization: Option<string>, queryToken: Option<string>, verify: Verify, now: int)
    : (r: Gate<RequestUser>)
    ensures r.Respond? ==> r.status == 401
    ensures SelectToken(authorization, queryToken).None? ==> r == Respond(401, NoTokenMessage)
    ensures
      var token := SelectToken(authorization, queryToken);
      token.Some? && verify(token.value).Thrown? ==>
        r == Respond(401, ErrorMessage(verify(token.value).errorName))
    ensures
      var token := SelectToken(authorization, queryToken);
      token.Some? && verify(token.value).Decoded? && ExpOutOfDateRange(verify(token.value).claims) ==>
        r == Respond(401, FailedMessage)
    ensures
      var token := SelectToken(authorization, queryToken);
      token.Some? && verify(token.value).Decoded? && !ExpOutOfDateRange(verify(token.value).claims)
        && FirstTruthy(UserIdClaims(verify(token.value).claims)).None? ==>
        r == Respond(401, NoUserIdMessage)
    ensures
      var token := SelectToken(authorization, queryToken);
      token.Some? && verify(token.value).Decoded? && !ExpOutOfDateRange(verify(token.value).claims)
        && FirstTruthy(UserIdClaims(verify(token.value).claims)).Some? && Expired(verify(token.value).claims, now) ==>
        r == Respond(401, ExpiredMessage)
    ensures r.Pass? <==>
      var token := SelectToken(authorization, queryToken);
      && token.Some?
      && verify(token.value).Decoded?
      && !ExpOutOfDateRange(verify(token.value).claims)
      && FirstTruthy(UserIdClaims(verify(token.value).claims)).Some?
      && !Expired(verify(token.value).claims, now)
    ensures r.Pass? ==>
      var c := verify(SelectToken(authorization, queryToken).value).claims;
      && r.value.userId == FirstTruthy(UserIdClaims(c)).value
      && r.value.userId != ""
      && r.value.role == (if Truthy(c.role) then c.role.value else "viewer")
      && r.value.email == c.email
      && r.value.tenantId == c.tenantId
  {
    match SelectToken(authorization, queryToken)
    case None => Respond(401, NoTokenMessage)
    case Some(token) =>
      match verify(token)
      case Thrown(name) => Respond(401, ErrorMessage(name))
      case Decoded(c) =>
        if ExpOutOfDateRange(c) then Respond(401, ErrorMessage("RangeError"))
        else
          match FirstTruthy(UserIdClaims(c))
          case None => Respond(401, NoUserIdMessage)
          case Some(userId) =>
            if Expired(c, now) then Respond(401, ExpiredMessage)
            else
              var role := if Truthy(c.role) then c.role.value else UserModel.DefaultRole.Name();
              Pass(RequestUser(userId, c.email, role, c.tenantId))
  }

  /** An authenticated user always carries a non-empty role. */
  lemma AuthenticatedUserHasRole(authorization: Option<string>, queryToken: Option<string>, verify: Verify, now: int)
    requires Authenticate(authorization, queryToken, verify, now).Pass?
    ensures Authenticate(authorization, queryToken, verify, now).value.role != ""
  {
  }

  /** Expiry is inclusive: a token is refused from the millisecond `exp * 1000` on, and accepted just before. */
  lemma ExpiryBoundary(token: string, verify: Verify, now: int)
    requires token != "" && ' ' !in token
    requires verify(token).Decoded?
    requires FirstTruthy(UserIdClaims(verify(token).claims)).Some?
    requires TruthyNumber(verify(token).claims.exp) && !ExpOutOfDateRange(verify(token).claims)
    ensures Authenticate(Some(BearerPrefix + token), None, verify, now).Pass?
      <==> now < verify(token).claims.exp.value * 1000
  {
    BearerTokenWins(token, None);
  }
}

/** The role middleware (backend/middlewares/role.js): a closure over an allow-list. */
module RoleGate {
  import opened Wrappers
  import opened Text
  import opened Http
  import Auth
  import Jwt

  /** The parts of `req.user` the middleware reads. */
  datatype RoleUser = RoleUser(userId: string, role: Option<string>)

  /** `req.user` as the authentication middleware leaves it. */
  function FromRequestUser(u: Auth.RequestUser): RoleUser {
    RoleUser(u.userId, Some(u.role))
  }

  /** Line 5: `allowedRoles` defaults to the empty list when the factory gets no argument. */
  function AllowedRoles(argument: Option<seq<string>>): seq<string> {
    if argument.Some? then argument.value else []
  }

  const AuthenticationRequiredMessage := "Authentication required"
  const RoleUndefinedMessage := "User role not defined"

  /** Lines 25-31: the message names the allow-list joined by ", ". */
  function AccessDeniedMessage(allowedRoles: seq<string>): string {
    "Access denied. Required roles: " + Join(allowedRoles, ", ")
  }

  /** The middleware: Pass(()) is `next()`. */
  function Authorize(allowedRoles: seq<string>, user: Option<RoleUser>): (r: Gate<()>)
    ensures r.Pass? <==> user.Some? && Truthy(user.value.role) && user.value.role.value in allowedRoles
    ensures user.None? ==> r == Respond(401, AuthenticationRequiredMessage)
    ensures user.Some? && !Truthy(user.value.role) ==> r == Respond(403, RoleUndefinedMessage)
    ensures user.Some? && Truthy(user.value.role) && user.value.role.value !in allowedRoles ==>
      r == Respond(403, AccessDeniedMessage(allowedRoles))
  {
    if user.None? then Respond(401, AuthenticationRequiredMessage)
    else if !Truthy(user.value.role) then Respond(403, RoleUndefinedMessage)
    else if user.value.role.value !in allowedRoles then Respond(403, AccessDeniedMessage(allowedRoles))
    else Pass(())
  }

  /** The factory called without an argument lets nobody through. */
  lemma DefaultDeniesEveryone(user: Option<RoleUser>)
    ensures !Authorize(AllowedRoles(None), user).Pass?
  {
  }

  /**
   * Behind the authentication middleware the role gate never answers 401 or "role not defined":
   * it passes exactly the users whose role is allowed, and a token without a role counts as "viewer".
   */
  lemma AfterAuthentication(allowedRoles: seq<string>, authorization: Option<string>, queryToken: Option<string>,
                            verify: Jwt.Verify, now: int)
    requires Auth.Authenticate(authorization, queryToken, verify, now).Pass?
    ensures
      var u := Auth.Authenticate(authorization, queryToken, verify, now).value;
      var r := Authorize(allowedRoles, Some(FromRequestUser(u)));
      && (r.Pass? <==> u.role in allowedRoles)
      && (r.Respond? ==> r == Respond(403, AccessDeniedMessage(allowedRoles)))
  {
    Auth.AuthenticatedUserHasRole(authorization, queryToken, verify, now);
  }
}

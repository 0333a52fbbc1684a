/**
 * Stream tokens (backend/utils/streamToken.js): short-lived JWTs of type "stream" that name a
 * video and a user. The JWT library is uninterpreted (see module Jwt); `now` is `Date.now()` in
 * milliseconds and `expiresIn` is the configured `TOKEN_EXPIRY`.
 */
module StreamToken {
  import opened Wrappers
  import opened Text
  import opened Http
  import opened Jwt

  const StreamType := "stream"
  const QuickStreamType := "quick_stream"
  const QuickExpiry := "5m"

  /** Line 146: a token is refreshed when fewer than five minutes remain. */
  const RefreshWindowMs := 5 * 60 * 1000

  const MissingIdsMessage := "videoId and userId are required for stream token generation"
  const TokenRequiredMessage := "Stream token is required"
  const InvalidTokenMessage := "Invalid or expired stream token"

  /** Lines 21-27: the payload of a stream token. */
  function StreamPayload(videoId: string, userId: string, tenantId: JsId, now: nat): (c: Claims)
    ensures c.tokenType == Some(StreamType)
    ensures c.videoId == Some(videoId) && c.userId == Some(userId)
    ensures c.tenantId == (if TruthyId(tenantId) then tenantId else Null)
    ensures c.iat == Some(now / 1000) && c.exp.None?
    ensures c.role.None? && c.email.None? && c.sub.None? && c.id.None? && c.underscoreId.None?
  {
    NoClaims.(videoId := Some(videoId), userId := Some(userId),
              tenantId := if TruthyId(tenantId) then tenantId else Null,
              tokenType := Some(StreamType), iat := Some(now / 1000))
  }

  /** `generateStreamToken`: throws unless both ids are truthy, otherwise signs the stream payload. */
  function GenerateStreamToken(sign: Sign, expiresIn: string, videoId: Option<string>, userId: Option<string>,
                               tenantId: JsId, now: nat): (r: Result<string>)
    ensures r.Ok? <==> Truthy(videoId) && Truthy(userId)
    ensures r.Err? ==> r.message == MissingIdsMessage
    ensures r.Ok? ==> r.value == sign(StreamPayload(videoId.value, userId.value, tenantId, now), expiresIn)
  {
    if !Truthy(videoId) || !Truthy(userId) then Err(MissingIdsMessage)
    else Ok(sign(StreamPayload(videoId.value, userId.value, tenantId, now), expiresIn))
  }

  /** Lines 95-104: `generateQuickToken` signs a "quick_stream" payload for five minutes, without checks. */
  function QuickPayload(videoId: string, userId: string): (c: Claims)
    ensures c.tokenType == Some(QuickStreamType)
    ensures c.videoId == Some(videoId) && c.userId == Some(userId)
  {
    NoClaims.(videoId := Some(videoId), userId := Some(userId), tokenType := Some(QuickStreamType))
  }

  function GenerateQuickToken(sign: Sign, videoId: string, userId: string): string {
    sign(QuickPayload(videoId, userId), QuickExpiry)
  }

  /** What a verified stream token tells the route; `expiresAt` is in milliseconds. */
  datatype TokenData = TokenData(videoId: string, userId: string, tenantId: JsId, expiresAt: Option<int>)

  /** The checks `verifyStreamToken` makes after `jwt.verify` succeeded (lines 58-67). */
  predicate AcceptableStreamClaims(c: Claims) {
    c.tokenType == Some(StreamType) && Truthy(c.videoId) && Truthy(c.userId)
  }

  /**
   * `verifyStreamToken`: None (`null`) for a missing token, a verification error, a type other
   * than "stream", or a missing video or user id.
   */
  function VerifyStreamToken(verify: Verify, token: Option<string>): (r: Option<TokenData>)
    ensures r.Some? <==> Truthy(token) && verify(token.value).Decoded? && AcceptableStreamClaims(verify(token.value).claims)
    ensures r.Some? ==>
      var c := verify(token.value).claims;
      && r.value.videoId == c.videoId.value && r.value.userId == c.userId.value
      && r.value.tenantId == c.tenantId
      && r.value.expiresAt == (if TruthyNumber(c.exp) then Some(c.exp.value * 1000) else None)
  {
    if !Truthy(token) then None
    else
      match verify(token.value)
      case Thrown(_) => None
      case Decoded(c) =>
        if c.tokenType != Some(StreamType) then None
        else if !Truthy(c.videoId) || !Truthy(c.userId) then None
        else Some(TokenData(c.videoId.value, c.userId.value, c.tenantId,
                            if TruthyNumber(c.exp) then Some(c.exp.value * 1000) else None))
  }

  /** A quick token is never accepted as a stream token, whatever it names. */
  lemma QuickTokenRejected(verify: Verify, sign: Sign, videoId: string, userId: string)
    requires KeepsType(verify, sign)
    ensures VerifyStreamToken(verify, Some(GenerateQuickToken(sign, videoId, userId))).None?
  {
    assert verify(sign(QuickPayload(videoId, userId), QuickExpiry)).Decoded? ==>
      verify(sign(QuickPayload(videoId, userId), QuickExpiry)).claims.tokenType == Some(QuickStreamType);
  }

  /** Round trip: a token generated for two non-empty ids verifies, when accepted, to those ids and the tenant. */
  lemma GeneratedTokenVerifies(verify: Verify, sign: Sign, expiresIn: string, videoId: string, userId: string,
                               tenantId: JsId, now: nat)
    requires KeepsIdentity(verify, sign)
    requires videoId != "" && userId != ""
    requires verify(sign(StreamPayload(videoId, userId, tenantId, now), expiresIn)).Decoded?
    ensures
      var token := GenerateStreamToken(sign, expiresIn, Some(videoId), Some(userId), tenantId, now);
      && token.Ok?
      && var data := VerifyStreamToken(verify, Some(token.value));
      && data.Some?
      && data.value.videoId == videoId && data.value.userId == userId
      && data.value.tenantId == (if TruthyId(tenantId) then tenantId else Null)
  {
    var c := StreamPayload(videoId, userId, tenantId, now);
    var v := verify(sign(c, expiresIn));
    assert v.claims.tokenType == c.tokenType && v.claims.videoId == c.videoId;
    assert v.claims.userId == c.userId && v.claims.tenantId == c.tenantId;
  }

  /** The route middleware: 401 without `?token=`, 403 when it does not verify, else Pass(token data). */
  function ValidateStreamToken(verify: Verify, queryToken: Option<string>): (r: Gate<TokenData>)
    ensures !Truthy(queryToken) ==> r == Respond(401, TokenRequiredMessage)
    ensures Truthy(queryToken) && VerifyStreamToken(verify, queryToken).None? ==> r == Respond(403, InvalidTokenMessage)
    ensures r.Pass? <==> VerifyStreamToken(verify, queryToken).Some?
    ensures r.Pass? ==> Some(r.value) == VerifyStreamToken(verify, queryToken)
  {
    if !Truthy(queryToken) then Respond(401, TokenRequiredMessage)
    else
      match VerifyStreamToken(verify, queryToken)
      case None => Respond(403, InvalidTokenMessage)
      case Some(data) => Pass(data)
  }

  /**
   * `needsRefresh`: true when the token does not decode, carries no `exp`, or expires within
   * five minutes of `now`.
   */
  function NeedsRefresh(decode: Decode, token: string, now: int): (r: bool)
    ensures !r <==> decode(token).Some? && TruthyNumber(decode(token).value.exp)
                    && decode(token).value.exp.value * 1000 - now >= RefreshWindowMs
  {
    match decode(token)
    case None => true
    case Some(c) => if !TruthyNumber(c.exp) then true else c.exp.value * 1000 - now < RefreshWindowMs
  }

  /**
   * `refreshToken`: None when the old token does not decode to a video and user id, otherwise a
   * new stream token for the same video, user and tenant.
   */
  function RefreshToken(decode: Decode, sign: Sign, expiresIn: string, oldToken: string, now: nat)
    : (r: Option<string>)
    ensures r.Some? <==> decode(oldToken).Some? && Truthy(decode(oldToken).value.videoId)
                          && Truthy(decode(oldToken).value.userId)
    ensures r.Some? ==>
      var c := decode(oldToken).value;
      r.value == sign(StreamPayload(c.videoId.value, c.userId.value, c.tenantId, now), expiresIn)
  {
    match decode(oldToken)
    case None => None
    case Some(c) =>
      if !Truthy(c.videoId) || !Truthy(c.userId) then None
      else
        match GenerateStreamToken(sign, expiresIn, c.videoId, c.userId, c.tenantId, now)
        case Ok(token) => Some(token)
        case Err(_) => None
  }

  /** A refreshed token, once verified, names the same video, user and tenant as the old one. */
  lemma RefreshKeepsIdentity(decode: Decode, verify: Verify, sign: Sign, expiresIn: string, oldToken: string, now: nat)
    requires KeepsIdentity(verify, sign)
    requires RefreshToken(decode, sign, expiresIn, oldToken, now).Some?
    requires verify(RefreshToken(decode, sign, expiresIn, oldToken, now).value).Decoded?
    ensures
      var previous := decode(oldToken).value;
      var data := VerifyStreamToken(verify, RefreshToken(decode, sign, expiresIn, oldToken, now));
      && data.Some?
      && Some(data.value.videoId) == previous.videoId
      && Some(data.value.userId) == previous.userId
      && data.value.tenantId == (if TruthyId(previous.tenantId) then previous.tenantId else Null)
  {
    var c := decode(oldToken).value;
    GeneratedTokenVerifies(verify, sign, expiresIn, c.videoId.value, c.userId.value, c.tenantId, now);
  }
}

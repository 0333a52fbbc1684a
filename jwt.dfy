/**
 * The `jsonwebtoken` library as the handlers see it. Signing, verifying and decoding are
 * cryptographic and stay uninterpreted: each is a function passed in as a parameter.
 */
module Jwt {
  import opened Wrappers
  import Text

  /**
   * The payload claims any handler reads. A claim that the payload does not carry is None; the
   * tenant claim also keeps a JSON `null` apart from a missing claim.
   * `underscoreId` is the `_id` claim and `tokenType` is the `type` claim.
   */
  datatype Claims = Claims(
    userId: Option<string>,
    id: Option<string>,
    underscoreId: Option<string>,
    sub: Option<string>,
    email: Option<string>,
    role: Option<string>,
    tenantId: Text.JsId,
    videoId: Option<string>,
    tokenType: Option<string>,
    iat: Option<int>,
    exp: Option<int>)

  /** A payload with no claims at all. */
  const NoClaims := Claims(None, None, None, None, None, None, Text.Undefined, None, None, None, None)

  /** What `jwt.verify(token, secret)` does: it returns the decoded payload or throws an error with a `name`. */
  datatype Verified = Decoded(claims: Claims) | Thrown(errorName: string)

  /** `jwt.verify` with the secret (and options) the caller fixes. */
  type Verify = string -> Verified

  /** `jwt.decode`: the payload without checking the signature, or None (`null`) for a malformed token. */
  type Decode = string -> Option<Claims>

  /** `jwt.sign(payload, secret, { expiresIn })`, with the secret fixed; the second argument is `expiresIn`. */
  type Sign = (Claims, string) -> string

  /** JavaScript truthiness of a numeric claim: present and not zero. */
  predicate TruthyNumber(n: Option<int>) { n.Some? && n.value != 0 }

  /** A verifier that never changes the `type` claim of a token it accepts from this signer. */
  ghost predicate KeepsType(verify: Verify, sign: Sign) {
    forall c: Claims, expiresIn: string {:trigger sign(c, expiresIn)} ::
      verify(sign(c, expiresIn)).Decoded? ==> verify(sign(c, expiresIn)).claims.tokenType == c.tokenType
  }

  /**
   * A signer whose tokens are never empty, and a verifier that gives back, for a token it accepts
   * from this signer, the claims that were signed.
   */
  ghost predicate KeepsIdentity(verify: Verify, sign: Sign) {
    forall c: Claims, expiresIn: string {:trigger sign(c, expiresIn)} ::
      var v := verify(sign(c, expiresIn));
      && sign(c, expiresIn) != ""
      && (v.Decoded? ==>
            && v.claims.tokenType == c.tokenType
            && v.claims.videoId == c.videoId
            && v.claims.userId == c.userId
            && v.claims.tenantId == c.tenantId)
  }
}

/** The user schema, reduced to the role it defines. */
module UserModel {
  import opened Wrappers

  /** The `role` enum of the user schema. */
  datatype Role = Viewer | Editor | Admin {
    /** The stored string of the role. */
    function Name(): string {
      match this
      case Viewer => "viewer"
      case Editor => "editor"
      case Admin => "admin"
    }
  }

  /** The schema default for `role`. */
  const DefaultRole := Viewer

  /** Accepts exactly the stored strings of the enum. */
  function ParseRole(s: string): (r: Option<Role>)
    ensures r.Some? ==> r.value.Name() == s
    ensures r.None? ==> s !in {"viewer", "editor", "admin"}
  {
    if s == "viewer" then Some(Viewer)
    else if s == "editor" then Some(Editor)
    else if s == "admin" then Some(Admin)
    else None
  }

  lemma ParseRoleOfName(r: Role)
    ensures ParseRole(r.Name()) == Some(r)
  {
  }
}

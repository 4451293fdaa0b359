/**
 * The token service of src/utils/tokens.ts, over jsonwebtoken. Signing and
 * verifying are not modelled; they are functions supplied from outside. A
 * missing secret makes signing and verifying throw (None here).
 */
module Tokens {
  import opened Wrappers
  import opened UserModel

  type Token = string

  /** The payload every token carries. */
  datatype Claims = Claims(userId: UserId, username: string)

  /**
   * `signAccessWith` and `signRefreshWith` take the issue time (`iat`, in
   * seconds) besides the claims, so two tokens signed for the same claims
   * may or may not coincide. Verification ignores the clock: expiry is not
   * part of this model.
   */
  datatype TokenService = TokenService(
    accessSecretSet: bool,
    refreshSecretSet: bool,
    signAccessWith: (Claims, int) -> Token,
    signRefreshWith: (Claims, int) -> Token,
    verifyAccessWith: Token -> Option<Claims>,
    verifyRefreshWith: Token -> Option<Claims>)
  {
    /** signAccessToken: jsonwebtoken throws when the access secret is unset. */
    function SignAccessToken(c: Claims, iat: int): Option<Token> {
      if accessSecretSet then Some(signAccessWith(c, iat)) else None
    }

    /** signRefreshToken: throws when the refresh secret is unset. */
    function SignRefreshToken(c: Claims, iat: int): Option<Token> {
      if refreshSecretSet then Some(signRefreshWith(c, iat)) else None
    }

    /** verifyAccessToken: None when jsonwebtoken throws. */
    function VerifyAccessToken(t: Token): Option<Claims> {
      if accessSecretSet then verifyAccessWith(t) else None
    }

    /** verifyRefreshToken: None when it throws (unset secret, bad signature, expired). */
    function VerifyRefreshToken(t: Token): Option<Claims> {
      if refreshSecretSet then verifyRefreshWith(t) else None
    }

    /** A refresh token verifies to the claims it was signed with. */
    ghost predicate RefreshRoundTrip() {
      forall c, iat :: verifyRefreshWith(signRefreshWith(c, iat)) == Some(c)
    }
  }
}

/** bcrypt's `hash` and `compare`, supplied from outside; `hash` takes the random salt. */
module Passwords {
  datatype Hasher = Hasher(hash: (string, string) -> string, compare: (string, string) -> bool)
  {
    /** `compare` accepts a password against any hash made of it. */
    ghost predicate Sound() {
      forall password, salt :: compare(password, hash(password, salt))
    }
  }
}

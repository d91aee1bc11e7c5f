/**
 * The part of JSON Web Tokens (RFC 7519) the system relies on: a token carries
 * claims, is signed with a process-wide secret, and expires at its `exp` claim
 * (section 4.1.4 of RFC 7519), given in whole seconds.  The compact encoding
 * and the HMAC itself are abstracted: a token records the secret it was signed
 * with, and turning a header string into a token is a caller-supplied decoder.
 */
module Jwt {
  import opened Common

  /** The claims the system reads or writes; a field missing from the payload is `None`. */
  datatype Claims = Claims(
    id: Option<string>,         // `_id`
    userId: Option<string>,     // `userId`
    luser: Option<string>,      // `luser`: the public user identifier
    userEmail: Option<string>,  // `userEmail`
    iat: int,                   // issued at, seconds
    exp: Option<int>)           // expires at, seconds

  /** A signed token: its claims and the secret it was signed with. */
  datatype SignedToken = SignedToken(claims: Claims, secret: string)

  datatype VerifyResult = Invalid | Verified(claims: Claims)

  const SecondMs: int := 1000

  /** `Math.floor(Date.now() / 1000)` for a clock in milliseconds. */
  function EpochSeconds(nowMs: int): (s: int)
    ensures s * SecondMs <= nowMs < s * SecondMs + SecondMs
  {
    nowMs / SecondMs
  }

  /** `jwt.sign(payload, secret, { expiresIn })`: stamps `iat` and `exp = iat + expiresIn`. */
  function Sign(id: Option<string>, userId: Option<string>, luser: Option<string>, userEmail: Option<string>,
                secret: string, nowMs: int, expiresInSec: nat): SignedToken
  {
    var iat := EpochSeconds(nowMs);
    SignedToken(Claims(id, userId, luser, userEmail, iat, Some(iat + expiresInSec)), secret)
  }

  /** `jwt.verify(token, secret)`: rejects a token that did not parse, was signed
      with another secret, or whose `exp` is not after the current second. */
  function Verify(token: Option<SignedToken>, secret: string, nowMs: int): (r: VerifyResult)
    ensures r.Verified? <==> token.Some? && token.value.secret == secret
                             && (token.value.claims.exp.Some? ==> EpochSeconds(nowMs) < token.value.claims.exp.value)
    ensures r.Verified? ==> r.claims == token.value.claims
  {
    match token
    case None => Invalid
    case Some(t) =>
      if t.secret != secret then Invalid
      else if t.claims.exp.Some? && EpochSeconds(nowMs) >= t.claims.exp.value then Invalid
      else Verified(t.claims)
  }

  /** A freshly signed token verifies under its own secret exactly until
      `expiresIn` seconds after the second it was signed in, and never under
      another secret. */
  lemma SignedTokenLifetime(id: Option<string>, userId: Option<string>, luser: Option<string>, userEmail: Option<string>,
                            secret: string, signedAtMs: int, expiresInSec: nat, secret': string, nowMs: int)
    ensures var t := Sign(id, userId, luser, userEmail, secret, signedAtMs, expiresInSec);
            Verify(Some(t), secret', nowMs).Verified?
            <==> secret' == secret && EpochSeconds(nowMs) < EpochSeconds(signedAtMs) + expiresInSec
    ensures var t := Sign(id, userId, luser, userEmail, secret, signedAtMs, expiresInSec);
            Verify(Some(t), secret, nowMs).Verified? ==> Verify(Some(t), secret, nowMs).claims.luser == luser
    ensures var t := Sign(id, userId, luser, userEmail, secret, signedAtMs, expiresInSec);
            signedAtMs <= nowMs < signedAtMs + expiresInSec * SecondMs - SecondMs + 1 ==> Verify(Some(t), secret, nowMs).Verified?
  {
    var s0 := EpochSeconds(signedAtMs);
    var s1 := EpochSeconds(nowMs);
    if signedAtMs <= nowMs < signedAtMs + expiresInSec * SecondMs - SecondMs + 1 {
      assert s1 * SecondMs <= nowMs;
      assert nowMs < s0 * SecondMs + expiresInSec * SecondMs + 1;
      assert s1 < s0 + expiresInSec;
    }
  }
}

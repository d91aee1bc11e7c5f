/**
 * The bearer-token gate `jwtAuth(secret)` that guards the write routes of the
 * organisation and profile routers (the two routers carry identical copies).
 * The `Authorization` header follows the Bearer scheme of section 2.1 of
 * RFC 6750; turning the credential text into a token is a caller-supplied
 * decoder, and verification is `Jwt.Verify`.
 */
module BearerAuth {
  import opened Common
  import opened Jwt
  import opened UserModel
  import opened TokenService
  import opened App

  /** The identity a request carries past the gate (`req.user`), or the 401 it gets. */
  datatype AuthOutcome = Authorized(id: string, luser: string) | Unauthorized(message: string)

  const BearerPrefix: string := "Bearer "
  const MissingHeader: string := "Missing Authorization header or token"
  const MissingId: string := "Token payload missing user id"
  const MissingLuser: string := "Token payload missing luser - reauthenticate"
  const InvalidToken: string := "Invalid or expired token"

  /** `jwtAuth(secret)` itself: refuses to build a gate without a non-empty secret. */
  function MakeGate(secret: Option<string>): (r: Result<string, string>)
    ensures r.Ok? <==> Truthy(secret)
    ensures r.Ok? ==> r.value == secret.value
  {
    if Truthy(secret) then Ok(secret.value) else Err("jwtAuth requires a JWT secret string")
  }

  /** `auth.slice(7).trim()` on a header that starts with the prefix. */
  function Credential(header: string): (t: string)
    requires StartsWith(header, BearerPrefix)
    ensures |t| <= |header| - |BearerPrefix|
    ensures EndsTrimmed(t)
  {
    Trim(header[|BearerPrefix|..])
  }

  /** The credential is what follows the prefix, without the whitespace
      run at its start and the whitespace at its end. */
  lemma CredentialInHeader(header: string)
    requires StartsWith(header, BearerPrefix)
    ensures var rest := header[|BearerPrefix|..];
            var t := Credential(header);
            var a := LeadingWhitespace(rest);
            a + |t| <= |rest| && t == rest[a..a + |t|]
            && (forall i :: 0 <= i < a ==> IsWhitespace(rest[i]))
            && (forall i :: a + |t| <= i < |rest| ==> IsWhitespace(rest[i]))
  {
    TrimRemovesSurrounding(header[|BearerPrefix|..]);
  }

  /** The gate's decision for one request at time `nowMs`. */
  function Gate(secret: string, header: Option<string>, decode: string -> Option<SignedToken>, nowMs: int): AuthOutcome
    requires secret != ""
  {
    if !Truthy(header) || !StartsWith(header.value, BearerPrefix) then Unauthorized(MissingHeader)
    else match Verify(decode(Credential(header.value)), secret, nowMs)
      case Invalid => Unauthorized(InvalidToken)
      case Verified(claims) =>
        var id := Or(claims.id, claims.userId);
        if !Truthy(id) then Unauthorized(MissingId)
        else if !Truthy(claims.luser) then Unauthorized(MissingLuser)
        else Authorized(id.value, claims.luser.value)
  }

  /** The full decision table: a request passes exactly when the header is a
      Bearer header whose credential verifies and whose claims carry an id
      (`_id`, else `userId`) and a `luser`; each refusal has its own message,
      checked in that order. */
  lemma GateDecision(secret: string, header: Option<string>, decode: string -> Option<SignedToken>, nowMs: int)
    requires secret != ""
    ensures var well := Truthy(header) && StartsWith(header.value, BearerPrefix);
            var v := if well then Verify(decode(Credential(header.value)), secret, nowMs) else Invalid;
            && (Gate(secret, header, decode, nowMs) == Unauthorized(MissingHeader) <==> !well)
            && (Gate(secret, header, decode, nowMs) == Unauthorized(InvalidToken) <==> well && v.Invalid?)
            && (Gate(secret, header, decode, nowMs) == Unauthorized(MissingId) <==>
                  well && v.Verified? && !Truthy(v.claims.id) && !Truthy(v.claims.userId))
            && (Gate(secret, header, decode, nowMs) == Unauthorized(MissingLuser) <==>
                  well && v.Verified? && (Truthy(v.claims.id) || Truthy(v.claims.userId)) && !Truthy(v.claims.luser))
            && (Gate(secret, header, decode, nowMs).Authorized? <==>
                  well && v.Verified? && (Truthy(v.claims.id) || Truthy(v.claims.userId)) && Truthy(v.claims.luser))
    ensures Gate(secret, header, decode, nowMs).Authorized? ==>
              var claims := Verify(decode(Credential(header.value)), secret, nowMs).claims;
              Gate(secret, header, decode, nowMs).id == Or(claims.id, claims.userId).value
              && Some(Gate(secret, header, decode, nowMs).luser) == claims.luser
  {
  }

  /** Whitespace before and after the credential is ignored, whatever it is on either side. */
  lemma CredentialIgnoresPadding(text: string, before: string, after: string)
    requires EndsTrimmed(text)
    requires forall i :: 0 <= i < |before| ==> IsWhitespace(before[i])
    requires forall i :: 0 <= i < |after| ==> IsWhitespace(after[i])
    ensures StartsWith(BearerPrefix + before + text + after, BearerPrefix)
    ensures Credential(BearerPrefix + before + text + after) == text
  {
    var h := BearerPrefix + before + text + after;
    assert h[..|BearerPrefix|] == BearerPrefix;
    var rest := h[|BearerPrefix|..];
    assert rest == before + text + after;
    TrimPadding(text, before, after);
  }

  /** `trim` removes any whitespace on the left and any on the right of a trimmed text. */
  lemma {:induction false} TrimPadding(text: string, before: string, after: string)
    requires EndsTrimmed(text)
    requires forall i :: 0 <= i < |before| ==> IsWhitespace(before[i])
    requires forall i :: 0 <= i < |after| ==> IsWhitespace(after[i])
    ensures Trim(before + text + after) == text
  {
    var s := before + text + after;
    if text == [] {
      var pad := before + after;
      assert s == pad + [];
      assert forall i :: 0 <= i < |pad| ==> IsWhitespace(pad[i]) by {
        forall i | 0 <= i < |pad| ensures IsWhitespace(pad[i]) {
          if i < |before| { assert pad[i] == before[i]; } else { assert pad[i] == after[i - |before|]; }
        }
      }
      TrimStartPadding(pad, []);
    } else {
      assert before + (text + after) == s;
      TrimStartPadding(before, text + after);
      TrimEndPadding(text, after);
    }
  }

  lemma {:induction false} TrimStartPadding(pad: string, rest: string)
    requires forall i :: 0 <= i < |pad| ==> IsWhitespace(pad[i])
    requires rest == [] || !IsWhitespace(rest[0])
    ensures TrimStart(pad + rest) == rest
  {
    if pad != [] {
      assert (pad + rest)[1..] == pad[1..] + rest;
      TrimStartPadding(pad[1..], rest);
    }
  }

  lemma {:induction false} TrimEndPadding(text: string, pad: string)
    requires EndsTrimmed(text)
    requires forall i :: 0 <= i < |pad| ==> IsWhitespace(pad[i])
    ensures TrimEnd(text + pad) == text
  {
    if pad != [] {
      var s := text + pad;
      assert s[..|s| - 1] == text + pad[..|pad| - 1];
      TrimEndPadding(text, pad[..|pad| - 1]);
    } else {
      assert text + pad == text;
    }
  }

  /** A header carrying a credential that decodes to `t`. */
  predicate CarriesToken(header: string, decode: string -> Option<SignedToken>, t: SignedToken) {
    StartsWith(header, BearerPrefix) && decode(Credential(header)) == Some(t)
  }

  /** An access token from the token service for an account with a public id
      passes the gate of a router built with the same secret, for the
      token's whole lifetime, as the account's ObjectId and public id. */
  lemma AccessTokenPasses(u: User, env: Option<string>, signedAtMs: int, header: string,
                          decode: string -> Option<SignedToken>, nowMs: int)
    requires u.oid != "" && Truthy(u.userId)
    requires CarriesToken(header, decode, SignAccessToken(u, env, signedAtMs))
    requires EpochSeconds(nowMs) < EpochSeconds(signedAtMs) + AccessExpiresSec
    ensures Gate(AccessSecret(env), Some(header), decode, nowMs) == Authorized(u.oid, u.userId.value)
  {
    AccessTokenLifetime(u, env, signedAtMs, nowMs);
  }

  /** The token issued by `/register` and `/login` passes the gate of the
      profile and organisation routers, which are built with the same secret,
      for 24 hours, as the account's ObjectId and public id. */
  lemma AccountTokenPasses(u: User, signedAtMs: int, header: string, decode: string -> Option<SignedToken>, nowMs: int)
    requires u.oid != "" && Truthy(u.userId)
    requires CarriesToken(header, decode, AccountToken(u, signedAtMs))
    requires EpochSeconds(nowMs) < EpochSeconds(signedAtMs) + AccountTokenLifetimeSec
    ensures Gate(AccountSecret, Some(header), decode, nowMs) == Authorized(u.oid, u.userId.value)
  {
    var t := AccountToken(u, signedAtMs);
    SignedTokenLifetime(None, Some(u.oid), u.userId, u.email, AccountSecret, signedAtMs, AccountTokenLifetimeSec,
                        AccountSecret, nowMs);
    assert Verify(decode(Credential(header)), AccountSecret, nowMs) == Verified(t.claims);
    assert Or(t.claims.id, t.claims.userId) == Some(u.oid);
  }

  /** A token without a public id is turned away with the "reauthenticate" message. */
  lemma TokenWithoutLuserRefused(u: User, env: Option<string>, signedAtMs: int, header: string,
                                 decode: string -> Option<SignedToken>, nowMs: int)
    requires u.oid != "" && !Truthy(u.userId)
    requires CarriesToken(header, decode, SignAccessToken(u, env, signedAtMs))
    requires EpochSeconds(nowMs) < EpochSeconds(signedAtMs) + AccessExpiresSec
    ensures Gate(AccessSecret(env), Some(header), decode, nowMs) == Unauthorized(MissingLuser)
  {
    AccessTokenLifetime(u, env, signedAtMs, nowMs);
  }
}

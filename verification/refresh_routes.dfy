/**
 * The refresh router: `POST /token` exchanges a refresh token for a new access
 * token and rotates the refresh token; `POST /revoke` deletes the presented
 * refresh token.  Each store call is an atomic step; a store call that throws
 * is named by a fault parameter, and the handler's catch turns it into 500
 * "Server error" with the effects of the steps before it kept.
 */
module RefreshRoutes {
  import opened Common
  import opened Jwt
  import opened UserModel
  import opened RefreshTokenModel
  import opened TokenService

  /** The store call of `/token` that throws, if any. */
  datatype Fault = NoFault | FailVerify | FailFindUser | FailRevoke | FailSave

  /** The answer of `/token`: the new access token (the body `{ token }`) and
      the new refresh token (the `REFRESH_TOKEN` cookie), or a failure. */
  datatype ExchangeReply = Issued(access: SignedToken, refresh: string) | Refused(failure: Failure)

  /** The answer of `/revoke`: `{ revoked: true }` or a failure. */
  datatype RevokeReply = RevokedTrue | RevokeRefused(failure: Failure)

  const ServerError: Failure := Failure(500, "Server error")
  const InvalidRefresh: Failure := Failure(401, "Invalid refresh token")
  const UserNotFound: Failure := Failure(401, "User not found")

  /** `/token` against the refresh-token collection `rs` and the accounts `us`:
      the answer and the refresh-token collection afterwards. */
  function ExchangeSpec(rs: seq<RefreshRecord>, us: seq<User>, provided: Option<string>, bytes: seq<Byte>, rid: string,
                        env: Option<string>, nowMs: int, fault: Fault): (ExchangeReply, seq<RefreshRecord>)
    requires |bytes| == RefreshTokenBytes
  {
    if fault == FailVerify && Truthy(provided) then (Refused(ServerError), rs)
    else
      var verified := VerifyRefresh(rs, provided, nowMs);
      if verified.0.None? then (Refused(InvalidRefresh), verified.1)
      else if fault == FailFindUser then (Refused(ServerError), rs)
      else match FirstIndex(us, HasOid(verified.0.value.user))
        case None => (Refused(UserNotFound), rs)
        case Some(j) =>
          if fault == FailRevoke then (Refused(ServerError), rs)
          else
            var revoked := Revoked(rs, provided.value);
            var renewed := GenerateRefreshToken(bytes);
            (match NewRefreshRecord(rid, us[j].oid, renewed, nowMs, DefaultTtlDays)
             case Err(_) => (Refused(ServerError), revoked)
             case Ok(rec) =>
               if fault == FailSave then (Refused(ServerError), revoked)
               else (Issued(SignAccessToken(us[j], env, nowMs), renewed), revoked + [rec]))
  }

  /** `POST /token`: verify the presented token, find its owner, revoke it,
      generate and save a new one, and sign an access token. */
  method Exchange(tokens: RefreshTokenStore, users: UserStore, body: Option<string>, cookie: Option<string>,
                  bytes: seq<Byte>, rid: string, env: Option<string>, nowMs: int, fault: Fault)
    returns (reply: ExchangeReply)
    requires |bytes| == RefreshTokenBytes
    modifies tokens
    ensures reply == ExchangeSpec(old(tokens.records), users.users, Or(body, cookie), bytes, rid, env, nowMs, fault).0
    ensures tokens.records == ExchangeSpec(old(tokens.records), users.users, Or(body, cookie), bytes, rid, env, nowMs, fault).1
  {
    var provided := Or(body, cookie);
    if fault == FailVerify && Truthy(provided) {
      return Refused(ServerError);
    }
    var found := tokens.Verify(provided, nowMs);
    if found.None? {
      return Refused(InvalidRefresh);
    }
    if fault == FailFindUser {
      return Refused(ServerError);
    }
    var j := FirstIndex(users.users, HasOid(found.value.user));
    if j.None? {
      return Refused(UserNotFound);
    }
    var user := users.users[j.value];
    if fault == FailRevoke {
      return Refused(ServerError);
    }
    tokens.Revoke(provided.value);
    var renewed := GenerateRefreshToken(bytes);
    if NewRefreshRecord(rid, user.oid, renewed, nowMs, DefaultTtlDays).Err? || fault == FailSave {
      return Refused(ServerError);
    }
    var saved := tokens.Save(rid, user.oid, renewed, nowMs, DefaultTtlDays);
    var access := SignAccessToken(user, env, nowMs);
    reply := Issued(access, renewed);
  }

  /** 401 "Invalid refresh token" is answered exactly when verification finds
      no live record; then nothing is issued and only verification's lazy
      deletion has touched the collection.  An absent or empty token is
      refused before any store call, so it gets this answer whatever fails. */
  lemma ExchangeRefusesInvalid(rs: seq<RefreshRecord>, us: seq<User>, provided: Option<string>, bytes: seq<Byte>,
                               rid: string, env: Option<string>, nowMs: int, fault: Fault)
    requires |bytes| == RefreshTokenBytes
    ensures ExchangeSpec(rs, us, provided, bytes, rid, env, nowMs, fault).0 == Refused(InvalidRefresh) <==>
              (fault != FailVerify || !Truthy(provided)) && VerifyRefresh(rs, provided, nowMs).0.None?
    ensures ExchangeSpec(rs, us, provided, bytes, rid, env, nowMs, fault).0 == Refused(InvalidRefresh) ==>
              ExchangeSpec(rs, us, provided, bytes, rid, env, nowMs, fault).1 == VerifyRefresh(rs, provided, nowMs).1
    ensures !Truthy(provided) ==>
              ExchangeSpec(rs, us, provided, bytes, rid, env, nowMs, fault) == (Refused(InvalidRefresh), rs)
  {
    if !Truthy(provided) {
      VerifyRejects(rs, provided, nowMs);
    }
  }

  /** When the owner is gone the answer is 401 "User not found" and the
      presented token is left in place. */
  lemma ExchangeUserMissing(rs: seq<RefreshRecord>, us: seq<User>, provided: Option<string>, bytes: seq<Byte>,
                            rid: string, env: Option<string>, nowMs: int, fault: Fault)
    requires |bytes| == RefreshTokenBytes
    ensures ExchangeSpec(rs, us, provided, bytes, rid, env, nowMs, fault).0 == Refused(UserNotFound) <==>
              fault !in {FailVerify, FailFindUser} && VerifyRefresh(rs, provided, nowMs).0.Some?
              && forall i :: 0 <= i < |us| ==> us[i].oid != VerifyRefresh(rs, provided, nowMs).0.value.user
    ensures ExchangeSpec(rs, us, provided, bytes, rid, env, nowMs, fault).0 == Refused(UserNotFound) ==>
              ExchangeSpec(rs, us, provided, bytes, rid, env, nowMs, fault).1 == rs
  {
    var verified := VerifyRefresh(rs, provided, nowMs);
    if verified.0.Some? {
      match FirstIndex(us, HasOid(verified.0.value.user)) {
        case None =>
        case Some(j) =>
          assert HasOid(verified.0.value.user)(us[j]);
      }
    }
  }

  /** A successful exchange presented a live token of an existing account; it
      removes that token's record, appends one 30-day record for the same
      account carrying the new 80-digit token, and signs an access token for
      that account. */
  lemma ExchangeRotates(rs: seq<RefreshRecord>, us: seq<User>, provided: Option<string>, bytes: seq<Byte>,
                        rid: string, env: Option<string>, nowMs: int, fault: Fault)
    requires |bytes| == RefreshTokenBytes
    requires ExchangeSpec(rs, us, provided, bytes, rid, env, nowMs, fault).0.Issued?
    ensures var old_ := VerifyRefresh(rs, provided, nowMs).0;
            var reply := ExchangeSpec(rs, us, provided, bytes, rid, env, nowMs, fault).0;
            fault == NoFault && old_.Some? && provided == Some(old_.value.token) && nowMs <= old_.value.expiresAtMs
            && reply.refresh == GenerateRefreshToken(bytes) && |reply.refresh| == 2 * RefreshTokenBytes
            && ExchangeSpec(rs, us, provided, bytes, rid, env, nowMs, fault).1
               == Revoked(rs, old_.value.token)
                  + [RefreshRecord(rid, old_.value.user, reply.refresh, nowMs + DefaultTtlDays * DayMs, nowMs)]
            && reply.access.claims.id == Some(old_.value.user)
            && (exists j :: 0 <= j < |us| && us[j].oid == old_.value.user && reply.access.claims.luser == us[j].userId)
  {
    var verified := VerifyRefresh(rs, provided, nowMs);
    var j := FirstIndex(us, HasOid(verified.0.value.user)).value;
    assert HasOid(verified.0.value.user)(us[j]);
  }

  /** Without a fault, a live record whose owner still exists is exchanged:
      the route answers with a new access token and the new refresh token. */
  lemma ExchangeIssues(rs: seq<RefreshRecord>, us: seq<User>, provided: Option<string>, bytes: seq<Byte>,
                       rid: string, env: Option<string>, nowMs: int)
    requires |bytes| == RefreshTokenBytes
    requires VerifyRefresh(rs, provided, nowMs).0.Some? && Valid(VerifyRefresh(rs, provided, nowMs).0.value)
    requires exists j :: 0 <= j < |us| && us[j].oid == VerifyRefresh(rs, provided, nowMs).0.value.user
    ensures ExchangeSpec(rs, us, provided, bytes, rid, env, nowMs, NoFault).0.Issued?
    ensures ExchangeSpec(rs, us, provided, bytes, rid, env, nowMs, NoFault).0.refresh == GenerateRefreshToken(bytes)
  {
    var owner := VerifyRefresh(rs, provided, nowMs).0.value.user;
    var j :| 0 <= j < |us| && us[j].oid == owner;
    assert HasOid(owner)(us[j]);
    var k := FirstIndex(us, HasOid(owner)).value;
    assert us[k].oid == owner;
  }

  /** After a successful exchange the old token is dead: with at most one
      record per token and a new token different from the old one, presenting
      the old token again is refused at any later time. */
  lemma ExchangeReplayRejected(rs: seq<RefreshRecord>, us: seq<User>, provided: Option<string>, bytes: seq<Byte>,
                               rid: string, env: Option<string>, nowMs: int, fault: Fault,
                               bytes': seq<Byte>, rid': string, laterMs: int, fault': Fault)
    requires |bytes| == RefreshTokenBytes && |bytes'| == RefreshTokenBytes
    requires ExchangeSpec(rs, us, provided, bytes, rid, env, nowMs, fault).0.Issued?
    requires provided.Some? && TokenUnique(rs, provided.value)
    requires GenerateRefreshToken(bytes) != provided.value
    ensures var rs' := ExchangeSpec(rs, us, provided, bytes, rid, env, nowMs, fault).1;
            VerifyRefresh(rs', provided, laterMs).0.None?
            && ExchangeSpec(rs', us, provided, bytes', rid', env, laterMs, fault').0.Refused?
            && ExchangeSpec(rs', us, provided, bytes', rid', env, laterMs, fault').0.failure.status in {401, 500}
  {
    ExchangeRotates(rs, us, provided, bytes, rid, env, nowMs, fault);
    var t := provided.value;
    var rs' := ExchangeSpec(rs, us, provided, bytes, rid, env, nowMs, fault).1;
    var revoked := Revoked(rs, t);
    RevokeIdempotent(rs, t);
    assert rs' == revoked + [rs'[|revoked|]];
    forall i | 0 <= i < |rs'| ensures rs'[i].token != t {
      if i < |revoked| {
        assert rs'[i] == revoked[i];
      }
    }
    VerifyRejects(rs', provided, laterMs);
  }

  /** The rotation is not atomic: when saving the new token throws, the old
      token has already been revoked, so the session is lost and the answer is
      500 "Server error". */
  lemma ExchangeSaveFailureLosesToken(rs: seq<RefreshRecord>, us: seq<User>, provided: Option<string>, bytes: seq<Byte>,
                                      rid: string, env: Option<string>, nowMs: int)
    requires |bytes| == RefreshTokenBytes
    requires VerifyRefresh(rs, provided, nowMs).0.Some?
    requires exists j :: 0 <= j < |us| && us[j].oid == VerifyRefresh(rs, provided, nowMs).0.value.user
    ensures ExchangeSpec(rs, us, provided, bytes, rid, env, nowMs, FailSave).0 == Refused(ServerError)
    ensures ExchangeSpec(rs, us, provided, bytes, rid, env, nowMs, FailSave).1 == Revoked(rs, provided.value)
  {
    var verified := VerifyRefresh(rs, provided, nowMs);
    assert FirstIndex(us, HasOid(verified.0.value.user)).Some?;
  }

  /** Every refusal other than the two 401s is 500 "Server error", and a store
      failure during the verification of a presented token changes nothing. */
  lemma ExchangeFailures(rs: seq<RefreshRecord>, us: seq<User>, provided: Option<string>, bytes: seq<Byte>,
                         rid: string, env: Option<string>, nowMs: int, fault: Fault)
    requires |bytes| == RefreshTokenBytes
    ensures var reply := ExchangeSpec(rs, us, provided, bytes, rid, env, nowMs, fault).0;
            reply.Refused? ==> reply.failure in {InvalidRefresh, UserNotFound, ServerError}
    ensures fault != NoFault ==> ExchangeSpec(rs, us, provided, bytes, rid, env, nowMs, fault).0.Refused?
    ensures fault == FailVerify && Truthy(provided) ==>
              ExchangeSpec(rs, us, provided, bytes, rid, env, nowMs, fault) == (Refused(ServerError), rs)
  {
  }

  /** `/revoke` against the collection `rs`; `storeFails` says whether the
      delete throws. */
  function RevokeRouteSpec(rs: seq<RefreshRecord>, provided: Option<string>, storeFails: bool): (RevokeReply, seq<RefreshRecord>) {
    if !Truthy(provided) then (RevokedTrue, rs)
    else if storeFails then (RevokeRefused(ServerError), rs)
    else (RevokedTrue, Revoked(rs, provided.value))
  }

  /** `POST /revoke`: delete the presented token, if one was presented. */
  method RevokeRoute(tokens: RefreshTokenStore, body: Option<string>, cookie: Option<string>, storeFails: bool)
    returns (reply: RevokeReply)
    modifies tokens
    ensures reply == RevokeRouteSpec(old(tokens.records), Or(body, cookie), storeFails).0
    ensures tokens.records == RevokeRouteSpec(old(tokens.records), Or(body, cookie), storeFails).1
  {
    var provided := Or(body, cookie);
    if Truthy(provided) {
      if storeFails {
        return RevokeRefused(ServerError);
      }
      tokens.Revoke(provided.value);
    }
    reply := RevokedTrue;
  }

  /** `/revoke` answers `{ revoked: true }` unless the delete throws, which can
      only happen when a token was presented; with at most one record per
      token a second call changes nothing. */
  lemma RevokeRouteRepeat(rs: seq<RefreshRecord>, provided: Option<string>)
    requires Truthy(provided) ==> TokenUnique(rs, provided.value)
    ensures RevokeRouteSpec(rs, provided, false).0 == RevokedTrue
    ensures RevokeRouteSpec(rs, provided, true).0 != RevokedTrue <==> Truthy(provided)
    ensures var once := RevokeRouteSpec(rs, provided, false).1;
            RevokeRouteSpec(once, provided, false).1 == once
    ensures Truthy(provided) ==>
              forall i :: 0 <= i < |RevokeRouteSpec(rs, provided, false).1| ==>
                RevokeRouteSpec(rs, provided, false).1[i].token != provided.value
  {
    if Truthy(provided) {
      RevokeIdempotent(rs, provided.value);
    }
  }
}

/**
 * The token service: the access token's payload and lifetime, refresh-token
 * generation (40 random bytes as lowercase hexadecimal), and the refresh-token
 * collection with its insert, delete-by-token and lookup-with-lazy-expiry
 * operations.  `crypto.randomBytes` is replaced by caller-supplied bytes and
 * `Date.now()` by a clock reading passed to each operation.
 */
module TokenService {
  import opened Common
  import opened Jwt
  import opened UserModel
  import opened RefreshTokenModel

  /** `ACCESS_EXPIRES = '7d'`, in seconds. */
  const AccessExpiresSec: nat := 7 * 24 * 60 * 60
  const DefaultSecret: string := "RANDOM-TOKEN"
  const DayMs: int := 24 * 60 * 60 * 1000
  /** The default `ttlDays` of `saveRefreshToken`. */
  const DefaultTtlDays: int := 30
  const RefreshTokenBytes: nat := 40

  /** `process.env.JWT_SECRET || 'RANDOM-TOKEN'`. */
  function AccessSecret(env: Option<string>): (s: string)
    ensures s != ""
    ensures Truthy(env) ==> s == env.value
    ensures !Truthy(env) ==> s == DefaultSecret
  {
    Or(env, Some(DefaultSecret)).value
  }

  /** `signAccessToken(user)`: `{ _id, userId, luser }` signed for seven days. */
  function SignAccessToken(u: User, env: Option<string>, nowMs: int): (t: SignedToken)
    ensures t.claims.id == Some(u.oid) && t.claims.userId == t.claims.id
    ensures t.claims.luser == u.userId && t.claims.userEmail.None?
    ensures t.secret == AccessSecret(env)
    ensures t.claims.iat == EpochSeconds(nowMs) && t.claims.exp == Some(t.claims.iat + AccessExpiresSec)
  {
    Sign(Some(u.oid), Some(u.oid), u.userId, None, AccessSecret(env), nowMs, AccessExpiresSec)
  }

  /** An access token verifies under its secret for exactly seven days after
      the second it was signed in. */
  lemma AccessTokenLifetime(u: User, env: Option<string>, signedAtMs: int, nowMs: int)
    ensures Verify(Some(SignAccessToken(u, env, signedAtMs)), AccessSecret(env), nowMs).Verified?
            <==> EpochSeconds(nowMs) < EpochSeconds(signedAtMs) + AccessExpiresSec
    ensures signedAtMs <= nowMs < signedAtMs + (AccessExpiresSec - 1) * SecondMs + 1 ==>
              Verify(Some(SignAccessToken(u, env, signedAtMs)), AccessSecret(env), nowMs).Verified?
  {
    SignedTokenLifetime(Some(u.oid), Some(u.oid), u.userId, None, AccessSecret(env), signedAtMs, AccessExpiresSec,
                        AccessSecret(env), nowMs);
  }

  /** A byte as `crypto.randomBytes` yields it. */
  type Byte = x: int | 0 <= x < 256

  predicate IsHexDigit(c: char) {
    ('0' <= c <= '9') || ('a' <= c <= 'f')
  }

  /** The lowercase hexadecimal digit for `n`. */
  function HexDigit(n: int): (c: char)
    requires 0 <= n < 16
    ensures IsHexDigit(c) && HexValue(c) == n
  {
    if n < 10 then ('0' as int + n) as char else ('a' as int + n - 10) as char
  }

  /** The value of a hexadecimal digit. */
  function HexValue(c: char): (n: int)
    requires IsHexDigit(c)
    ensures 0 <= n < 16
  {
    if c <= '9' then c as int - '0' as int else c as int - 'a' as int + 10
  }

  /** `Buffer.toString('hex')`: two digits per byte, high nibble first. */
  function HexEncode(bs: seq<Byte>): (s: string)
    ensures |s| == 2 * |bs|
    ensures forall i :: 0 <= i < |s| ==> IsHexDigit(s[i])
  {
    if bs == [] then [] else [HexDigit(bs[0] / 16), HexDigit(bs[0] % 16)] + HexEncode(bs[1..])
  }

  /** The inverse reading, `Buffer.from(s, 'hex')` on well-formed input. */
  function HexDecode(s: string): (r: Option<seq<Byte>>)
    ensures r.Some? ==> 2 * |r.value| == |s|
    decreases |s|
  {
    if s == [] then Some([])
    else if |s| < 2 || !IsHexDigit(s[0]) || !IsHexDigit(s[1]) then None
    else match HexDecode(s[2..])
      case None => None
      case Some(rest) => Some([HexValue(s[0]) * 16 + HexValue(s[1])] + rest)
  }

  /** Decoding undoes encoding. */
  lemma {:induction false} HexRoundTrip(bs: seq<Byte>)
    ensures HexDecode(HexEncode(bs)) == Some(bs)
  {
    if bs != [] {
      var s := HexEncode(bs);
      assert s[2..] == HexEncode(bs[1..]);
      HexRoundTrip(bs[1..]);
      assert HexValue(s[0]) * 16 + HexValue(s[1]) == bs[0];
      assert [bs[0]] + bs[1..] == bs;
    }
  }

  /** `generateRefreshToken()`, given the 40 bytes it draws. */
  function GenerateRefreshToken(bytes: seq<Byte>): (t: string)
    requires |bytes| == RefreshTokenBytes
    ensures |t| == 2 * RefreshTokenBytes
    ensures forall i :: 0 <= i < |t| ==> IsHexDigit(t[i])
  {
    HexEncode(bytes)
  }

  /** Different draws give different refresh tokens, and none is empty. */
  lemma RefreshTokensDistinct(a: seq<Byte>, b: seq<Byte>)
    requires |a| == RefreshTokenBytes && |b| == RefreshTokenBytes
    ensures GenerateRefreshToken(a) != ""
    ensures GenerateRefreshToken(a) == GenerateRefreshToken(b) <==> a == b
  {
    HexRoundTrip(a);
    HexRoundTrip(b);
  }

  /** The record `saveRefreshToken(userId, token, ttlDays)` creates at `nowMs`. */
  function NewRefreshRecord(rid: string, userId: string, token: string, nowMs: int, ttlDays: int): Result<RefreshRecord, MissingPath> {
    CreateRecord(rid, Some(userId), Some(token), Some(nowMs + ttlDays * DayMs), nowMs)
  }

  /** The collection after `saveRefreshToken`: one record appended, or nothing when validation fails. */
  function Saved(rs: seq<RefreshRecord>, rid: string, userId: string, token: string, nowMs: int, ttlDays: int): seq<RefreshRecord> {
    match NewRefreshRecord(rid, userId, token, nowMs, ttlDays)
    case Ok(rec) => rs + [rec]
    case Err(_) => rs
  }

  /** The `findOne({ token })` filter. */
  function HasToken(token: string): (RefreshRecord -> bool) {
    (r: RefreshRecord) => r.token == token
  }

  /** The `deleteOne({ _id })` filter. */
  function HasRid(rid: string): (RefreshRecord -> bool) {
    (r: RefreshRecord) => r.rid == rid
  }

  /** The collection after `revokeRefreshToken(token)`. */
  function Revoked(rs: seq<RefreshRecord>, token: string): seq<RefreshRecord> {
    DeleteOne(rs, HasToken(token))
  }

  /** `verifyRefreshToken(token)` at `nowMs`: the record returned and the collection afterwards. */
  function VerifyRefresh(rs: seq<RefreshRecord>, token: Option<string>, nowMs: int): (r: (Option<RefreshRecord>, seq<RefreshRecord>))
    ensures r.0.Some? ==> Truthy(token) && r.0.value.token == token.value && r.1 == rs
  {
    if !Truthy(token) then (None, rs)
    else match FirstIndex(rs, HasToken(token.value))
      case None => (None, rs)
      case Some(k) =>
        if rs[k].expiresAtMs < nowMs then (None, DeleteOne(rs, HasRid(rs[k].rid)))
        else (Some(rs[k]), rs)
  }

  /** At most one token text per record: the case in which revoking is idempotent. */
  predicate TokenUnique(rs: seq<RefreshRecord>, token: string) {
    forall i, j :: 0 <= i < |rs| && 0 <= j < |rs| && rs[i].token == token && rs[j].token == token ==> i == j
  }

  /** Saving appends exactly the new record, expiring `ttlDays` days after `nowMs`,
      unless the user or the token is empty. */
  lemma SaveAddsOne(rs: seq<RefreshRecord>, rid: string, userId: string, token: string, nowMs: int, ttlDays: int)
    ensures userId != "" && token != "" ==>
              Saved(rs, rid, userId, token, nowMs, ttlDays)
              == rs + [RefreshRecord(rid, userId, token, nowMs + ttlDays * DayMs, nowMs)]
    ensures userId == "" || token == "" ==> Saved(rs, rid, userId, token, nowMs, ttlDays) == rs
    ensures (forall i :: 0 <= i < |rs| ==> rs[i].rid != rid) && DistinctIds(rs) ==>
              DistinctIds(Saved(rs, rid, userId, token, nowMs, ttlDays))
  {
  }

  /** Revoking removes at most one record, one carrying the token; every other
      record stays, in order. */
  lemma RevokeRemovesAtMostOne(rs: seq<RefreshRecord>, token: string)
    ensures (forall i :: 0 <= i < |rs| ==> rs[i].token != token) ==> Revoked(rs, token) == rs
    ensures (exists i :: 0 <= i < |rs| && rs[i].token == token) ==>
              exists k :: 0 <= k < |rs| && rs[k].token == token && Revoked(rs, token) == RemoveAt(rs, k)
    ensures multiset(Revoked(rs, token)) <= multiset(rs)
    ensures |rs| - 1 <= |Revoked(rs, token)| <= |rs|
  {
    DeleteOneEffect(rs, HasToken(token));
    match FirstIndex(rs, HasToken(token)) {
      case None =>
      case Some(k) =>
        assert HasToken(token)(rs[k]);
    }
  }

  /** With at most one record per token, revoking twice is revoking once, and
      afterwards no record carries the token. */
  lemma RevokeIdempotent(rs: seq<RefreshRecord>, token: string)
    requires TokenUnique(rs, token)
    ensures forall i :: 0 <= i < |Revoked(rs, token)| ==> Revoked(rs, token)[i].token != token
    ensures Revoked(Revoked(rs, token), token) == Revoked(rs, token)
  {
    var r := Revoked(rs, token);
    match FirstIndex(rs, HasToken(token)) {
      case None =>
      case Some(k) =>
        forall i | 0 <= i < |r| ensures r[i].token != token {
          if i < k {
            assert r[i] == rs[i] && !HasToken(token)(rs[i]);
          } else {
            assert r[i] == rs[i + 1];
            assert HasToken(token)(rs[k]);
          }
        }
    }
    RevokeRemovesAtMostOne(r, token);
  }

  /** Verifying never adds records; a missing, empty or unknown token yields
      nothing and changes nothing. */
  lemma VerifyRejects(rs: seq<RefreshRecord>, token: Option<string>, nowMs: int)
    ensures !Truthy(token) ==> VerifyRefresh(rs, token, nowMs) == (None, rs)
    ensures Truthy(token) && (forall i :: 0 <= i < |rs| ==> rs[i].token != token.value) ==>
              VerifyRefresh(rs, token, nowMs) == (None, rs)
    ensures multiset(VerifyRefresh(rs, token, nowMs).1) <= multiset(rs)
  {
    if Truthy(token) {
      match FirstIndex(rs, HasToken(token.value)) {
        case None =>
        case Some(k) =>
          DeleteOneEffect(rs, HasRid(rs[k].rid));
      }
    }
  }

  /** Verifying returns the first record with the token when it has not yet
      expired (its expiry equal to the clock still counts as live), and then
      changes nothing. */
  lemma VerifyLive(rs: seq<RefreshRecord>, token: Option<string>, nowMs: int)
    ensures VerifyRefresh(rs, token, nowMs).0.Some? <==>
              Truthy(token) && exists k :: 0 <= k < |rs| && rs[k].token == token.value && nowMs <= rs[k].expiresAtMs
                                           && forall j :: 0 <= j < k ==> rs[j].token != token.value
    ensures VerifyRefresh(rs, token, nowMs).0.Some? ==>
              VerifyRefresh(rs, token, nowMs).0.value.token == token.value
              && nowMs <= VerifyRefresh(rs, token, nowMs).0.value.expiresAtMs
              && VerifyRefresh(rs, token, nowMs).0.value in rs
              && VerifyRefresh(rs, token, nowMs).1 == rs
  {
    if Truthy(token) {
      match FirstIndex(rs, HasToken(token.value)) {
        case None =>
        case Some(k) =>
          assert HasToken(token.value)(rs[k]);
          forall k' | 0 <= k' < |rs| && rs[k'].token == token.value && (forall j :: 0 <= j < k' ==> rs[j].token != token.value)
            ensures k' == k
          {
            assert HasToken(token.value)(rs[k']);
          }
      }
    }
  }

  /** Verifying the first record with the token after its expiry deletes that
      record (its `_id` is unique) and yields nothing. */
  lemma VerifyExpired(rs: seq<RefreshRecord>, token: string, k: nat, nowMs: int)
    requires DistinctIds(rs) && token != ""
    requires k < |rs| && rs[k].token == token && forall j :: 0 <= j < k ==> rs[j].token != token
    requires rs[k].expiresAtMs < nowMs
    ensures VerifyRefresh(rs, Some(token), nowMs).0.None?
    ensures VerifyRefresh(rs, Some(token), nowMs).1 == RemoveAt(rs, k)
  {
    FirstIndexAt(rs, HasToken(token), k);
    assert forall j :: 0 <= j < k ==> !HasRid(rs[k].rid)(rs[j]);
    FirstIndexAt(rs, HasRid(rs[k].rid), k);
    assert DeleteOne(rs, HasRid(rs[k].rid)) == RemoveAt(rs, k);
  }

  /** A token saved at `savedAtMs` with a fresh text verifies to its record, and
      so to its owner, until `ttlDays` days later. */
  lemma SaveThenVerify(rs: seq<RefreshRecord>, rid: string, userId: string, token: string, savedAtMs: int,
                       ttlDays: int, nowMs: int)
    requires userId != "" && token != ""
    requires forall i :: 0 <= i < |rs| ==> rs[i].token != token
    requires nowMs <= savedAtMs + ttlDays * DayMs
    ensures var rs' := Saved(rs, rid, userId, token, savedAtMs, ttlDays);
            VerifyRefresh(rs', Some(token), nowMs).0 == Some(rs'[|rs|])
            && rs'[|rs|].user == userId
  {
    var rs' := Saved(rs, rid, userId, token, savedAtMs, ttlDays);
    FirstIndexAt(rs', HasToken(token), |rs|);
  }

  /** The refresh-token collection. */
  class RefreshTokenStore {
    var records: seq<RefreshRecord>

    constructor (initial: seq<RefreshRecord>)
      ensures records == initial
    {
      records := initial;
    }

    /** `saveRefreshToken(userId, token, ttlDays)`; `rid` is the new document's `_id`. */
    method Save(rid: string, userId: string, token: string, nowMs: int, ttlDays: int) returns (ok: bool)
      modifies this
      ensures ok <==> userId != "" && token != ""
      ensures records == Saved(old(records), rid, userId, token, nowMs, ttlDays)
    {
      var created := NewRefreshRecord(rid, userId, token, nowMs, ttlDays);
      if created.Err? {
        return false;
      }
      records := records + [created.value];
      return true;
    }

    /** `revokeRefreshToken(token)`. */
    method Revoke(token: string)
      modifies this
      ensures records == Revoked(old(records), token)
    {
      records := DeleteOne(records, HasToken(token));
    }

    /** `verifyRefreshToken(token)` at `nowMs`. */
    method Verify(token: Option<string>, nowMs: int) returns (found: Option<RefreshRecord>)
      modifies this
      ensures found == VerifyRefresh(old(records), token, nowMs).0
      ensures records == VerifyRefresh(old(records), token, nowMs).1
    {
      if !Truthy(token) {
        return None;
      }
      var k := FirstIndex(records, HasToken(token.value));
      if k.None? {
        return None;
      }
      var doc := records[k.value];
      if doc.expiresAtMs < nowMs {
        records := DeleteOne(records, HasRid(doc.rid));
        return None;
      }
      return Some(doc);
    }
  }
}

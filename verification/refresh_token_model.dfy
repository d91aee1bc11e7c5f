/**
 * The stored shape of a refresh token: the owning account, the token text,
 * its expiry and its creation time.  Dates are milliseconds since the epoch.
 * The token field is indexed but not unique, so two records may carry the
 * same token text.
 */
module RefreshTokenModel {
  import opened Common

  /** A refresh-token document; `rid` is its `_id`. */
  datatype RefreshRecord = RefreshRecord(rid: string, user: string, token: string, expiresAtMs: int, createdAtMs: int)

  /** Why `create` refuses a document: the name of the first required path that is missing. */
  datatype MissingPath = MissingUser | MissingToken | MissingExpiry

  /** `RefreshToken.create(fields)` at time `nowMs`: validation of the three
      required paths (an empty string counts as missing), then `createdAt`
      defaulted to the insertion time. */
  function CreateRecord(rid: string, user: Option<string>, token: Option<string>, expiresAtMs: Option<int>,
                        nowMs: int): (r: Result<RefreshRecord, MissingPath>)
    ensures r.Ok? <==> Truthy(user) && Truthy(token) && expiresAtMs.Some?
    ensures r.Ok? ==> r.value.rid == rid && Some(r.value.user) == user && Some(r.value.token) == token
                      && Some(r.value.expiresAtMs) == expiresAtMs && r.value.createdAtMs == nowMs
    ensures r.Ok? ==> Valid(r.value)
  {
    if !Truthy(user) then Err(MissingUser)
    else if !Truthy(token) then Err(MissingToken)
    else if expiresAtMs.None? then Err(MissingExpiry)
    else Ok(RefreshRecord(rid, user.value, token.value, expiresAtMs.value, nowMs))
  }

  /** What the schema guarantees of every stored record. */
  predicate Valid(r: RefreshRecord) {
    r.user != "" && r.token != ""
  }

  /** The `_id` of every record is distinct. */
  predicate DistinctIds(rs: seq<RefreshRecord>) {
    forall i, j :: 0 <= i < j < |rs| ==> rs[i].rid != rs[j].rid
  }

  /** Two records may share a token text: the schema does not forbid it. */
  lemma DuplicateTokensRepresentable(user: string, token: string, nowMs: int)
    requires user != "" && token != ""
    ensures var a := CreateRecord("a", Some(user), Some(token), Some(nowMs), nowMs);
            var b := CreateRecord("b", Some(user), Some(token), Some(nowMs), nowMs);
            a.Ok? && b.Ok? && a.value.token == b.value.token && DistinctIds([a.value, b.value])
  {
  }
}

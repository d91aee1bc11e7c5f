/**
 * The User collection: account documents with an email, a password hash, the
 * public 8-character `user_id` and an optional public `org_id`.  The `trim`
 * setters apply when a path is assigned, so a save sees the trimmed values:
 * it runs the `validate` hook (which allocates a `user_id` for new documents
 * that lack one, assigning it through the setter again), then the schema
 * validators, then the unique indexes.
 */
module UserModel {
  import opened Common
  import opened PublicIds

  /** A user document; `oid` is the text of its ObjectId. */
  datatype User = User(oid: string, email: Option<string>, password: Option<string>,
                       userId: Option<string>, orgId: Option<string>)

  datatype SaveError =
    | HookFailed        // 'Failed to generate unique user_id'
    | ValidationFailed  // a `required` or length validator failed
    | DuplicateKey      // a unique index rejected the document

  /** The `trim` setters of `user_id` and `org_id`. */
  function Normalize(u: User): (n: User)
    ensures n.oid == u.oid && n.email == u.email && n.password == u.password
    ensures n.userId.Some? <==> u.userId.Some?
    ensures n.orgId.Some? <==> u.orgId.Some?
    ensures Trimmed(n)
  {
    u.(userId := if u.userId.Some? then Some(Trim(u.userId.value)) else None,
       orgId := if u.orgId.Some? then Some(Trim(u.orgId.value)) else None)
  }

  /** The setters leave a document they already produced alone. */
  lemma NormalizeTrimmed(u: User)
    requires Trimmed(u)
    ensures Normalize(u) == u
  {
    if u.userId.Some? { TrimOfTrimmed(u.userId.value); }
    if u.orgId.Some? { TrimOfTrimmed(u.orgId.value); }
  }

  /** The values the setters produce: `user_id` and `org_id` carry no
      surrounding whitespace. */
  predicate Trimmed(u: User) {
    (u.userId.Some? ==> EndsTrimmed(u.userId.value))
    && (u.orgId.Some? ==> EndsTrimmed(u.orgId.value))
  }

  /** The schema validators: `email`, `password` and `user_id` are required (an
      empty string fails `required`), `user_id` is exactly 8 characters and
      `org_id`, when present, too. */
  predicate SchemaValid(u: User) {
    Truthy(u.email) && Truthy(u.password)
    && u.userId.Some? && |u.userId.value| == IdLength
    && (u.orgId.None? || |u.orgId.value| == IdLength)
  }

  /** Two documents a unique index cannot hold together: same `email`, same
      `user_id`, or same present `org_id` (that index is sparse). */
  predicate Clash(a: User, b: User) {
    a.email == b.email
    || (a.userId.Some? && a.userId == b.userId)
    || (a.orgId.Some? && a.orgId == b.orgId)
  }

  /** Some stored document other than `n` itself clashes with it. */
  predicate ClashesWithOther(us: seq<User>, n: User) {
    exists i :: 0 <= i < |us| && us[i].oid != n.oid && Clash(us[i], n)
  }

  /** What the collection's indexes and validators guarantee about its documents. */
  ghost predicate ValidUsers(us: seq<User>) {
    (forall i :: 0 <= i < |us| ==> SchemaValid(us[i]) && Trimmed(us[i]))
    && (forall i, j :: 0 <= i < j < |us| ==> us[i].oid != us[j].oid && !Clash(us[i], us[j]))
  }

  /** The schema validators with `user_id` optional: what an account stored
      before `user_id` was required may look like. */
  predicate LegacyValid(u: User) {
    Truthy(u.email) && Truthy(u.password)
    && (!Truthy(u.userId) || |u.userId.value| == IdLength)
    && (u.orgId.None? || |u.orgId.value| == IdLength)
  }

  /** `ValidUsers` for a collection that may still hold such accounts. */
  ghost predicate LegacyUsers(us: seq<User>) {
    (forall i :: 0 <= i < |us| ==> LegacyValid(us[i]) && Trimmed(us[i]))
    && (forall i, j :: 0 <= i < j < |us| ==> us[i].oid != us[j].oid && !Clash(us[i], us[j]))
  }

  function HasOid(oid: string): (User -> bool) {
    (u: User) => u.oid == oid
  }

  /** The `user_id` values in use (what `exists({ user_id })` consults). */
  function TakenUserIds(us: seq<User>): (t: set<string>)
    ensures forall i :: 0 <= i < |us| && us[i].userId.Some? ==> us[i].userId.value in t
    ensures forall c :: c in t ==> exists i :: 0 <= i < |us| && us[i].userId == Some(c)
  {
    set i | 0 <= i < |us| && us[i].userId.Some? :: us[i].userId.value
  }

  /** The `pre('validate')` hook: documents already stored and documents that
      carry a `user_id` pass unchanged; a new document without one gets the
      first of ten drawn candidates not in use, or the hook fails. */
  function HookSpec(us: seq<User>, u: User, draws: seq<seq<real>>): (r: Result<User, SaveError>)
    requires IsRandomSupply(draws)
  {
    if FirstIndex(us, HasOid(u.oid)).Some? || Truthy(u.userId) then Ok(u)
    else match Allocate(draws, TakenUserIds(us))
      case None => Err(HookFailed)
      case Some(c) => Ok(u.(userId := Some(c)))
  }

  /** The hook fails exactly for a new document without a `user_id` whose ten
      candidates are all in use; otherwise it changes at most the `user_id`,
      and only to a fresh public identifier. */
  lemma HookOutcome(us: seq<User>, u: User, draws: seq<seq<real>>)
    requires IsRandomSupply(draws)
    ensures var r := HookSpec(us, u, draws);
            r.Err? <==> FirstIndex(us, HasOid(u.oid)).None? && !Truthy(u.userId)
                        && forall j :: 0 <= j < MaxAttempts ==> Candidates(draws)[j] in TakenUserIds(us)
    ensures var r := HookSpec(us, u, draws);
            r.Ok? ==> r.value == u.(userId := r.value.userId)
    ensures var r := HookSpec(us, u, draws);
            r.Ok? && r.value.userId != u.userId ==>
              FirstIndex(us, HasOid(u.oid)).None? && !Truthy(u.userId)
              && r.value.userId.Some? && IsPublicId(r.value.userId.value)
              && r.value.userId.value !in TakenUserIds(us)
  {
  }

  /** `doc.save()`: the result and the collection afterwards.  The hook sees the
      document as the setters left it, and its own assignment goes through them. */
  function SaveSpec(us: seq<User>, u: User, draws: seq<seq<real>>): (Result<User, SaveError>, seq<User>)
    requires IsRandomSupply(draws)
  {
    match HookSpec(us, Normalize(u), draws)
    case Err(e) => (Err(e), us)
    case Ok(h) => Commit(us, Normalize(h))
  }

  /** The part of a save after the hook and the setters: validators, unique
      indexes, then insert (new ObjectId) or replace (stored ObjectId). */
  function Commit(us: seq<User>, n: User): (Result<User, SaveError>, seq<User>)
  {
    if !SchemaValid(n) then (Err(ValidationFailed), us)
    else if ClashesWithOther(us, n) then (Err(DuplicateKey), us)
    else match FirstIndex(us, HasOid(n.oid))
      case None => (Ok(n), us + [n])
      case Some(k) => (Ok(n), us[k := n])
  }

  class UserStore {
    var users: seq<User>

    constructor (initial: seq<User>)
      ensures users == initial
    {
      users := initial;
    }

    /** `User.exists({ user_id: candidate })`. */
    function ExistsUserId(candidate: string): (b: bool)
      reads this
      ensures b <==> exists i :: 0 <= i < |users| && users[i].userId == Some(candidate)
    {
      candidate in TakenUserIds(users)
    }

    /** The hook's `while (tries < 10)` loop, run against the current collection. */
    method PreValidate(u: User, draws: seq<seq<real>>) returns (r: Result<User, SaveError>)
      requires IsRandomSupply(draws)
      ensures r == HookSpec(users, u, draws)
    {
      if FirstIndex(users, HasOid(u.oid)).Some? {
        return Ok(u);
      }
      if Truthy(u.userId) {
        return Ok(u);
      }
      var userId := u.userId;
      var tries := 0;
      while tries < MaxAttempts
        invariant 0 <= tries <= MaxAttempts
        invariant userId == u.userId
        invariant forall j :: 0 <= j < tries ==> Candidates(draws)[j] in TakenUserIds(users)
        decreases MaxAttempts - tries
      {
        var candidate := GenerateId(draws[tries]);
        if !ExistsUserId(candidate) {
          AllocateAt(draws, TakenUserIds(users), tries);
          userId := Some(candidate);
          break;
        }
        tries := tries + 1;
      }
      if !Truthy(userId) {
        AllocateOutcome(draws, TakenUserIds(users));
        return Err(HookFailed);
      }
      return Ok(u.(userId := userId));
    }

    /** `doc.save()`: setters, hook, validators, unique indexes, then insert or replace. */
    method Save(u: User, draws: seq<seq<real>>) returns (r: Result<User, SaveError>)
      requires IsRandomSupply(draws)
      modifies this
      ensures r == SaveSpec(old(users), u, draws).0
      ensures users == SaveSpec(old(users), u, draws).1
    {
      var hooked := PreValidate(Normalize(u), draws);
      if hooked.Err? {
        return Err(hooked.error);
      }
      var n := Normalize(hooked.value);
      if !SchemaValid(n) {
        return Err(ValidationFailed);
      }
      if ClashesWithOther(users, n) {
        return Err(DuplicateKey);
      }
      match FirstIndex(users, HasOid(u.oid)) {
        case None => users := users + [n];
        case Some(k) => users := users[k := n];
      }
      r := Ok(n);
    }
  }

  /** Appending a document that clashes with none keeps the guarantees. */
  lemma AppendKeepsValid(us: seq<User>, n: User)
    requires ValidUsers(us) && SchemaValid(n) && Trimmed(n)
    requires forall i :: 0 <= i < |us| ==> us[i].oid != n.oid && !Clash(us[i], n)
    ensures ValidUsers(us + [n])
  {
    var us' := us + [n];
    forall i, j | 0 <= i < j < |us'| ensures us'[i].oid != us'[j].oid && !Clash(us'[i], us'[j]) {
      if j == |us| {
        assert us'[i] == us[i] && us'[j] == n;
      } else {
        assert us'[i] == us[i] && us'[j] == us[j];
      }
    }
  }

  /** Replacing the document at `k` by one with the same ObjectId that clashes
      with no other keeps the guarantees. */
  lemma ReplaceKeepsValid(us: seq<User>, k: nat, n: User)
    requires ValidUsers(us) && SchemaValid(n) && Trimmed(n) && k < |us| && us[k].oid == n.oid
    requires forall i :: 0 <= i < |us| && us[i].oid != n.oid ==> !Clash(us[i], n)
    ensures ValidUsers(us[k := n])
  {
    var us' := us[k := n];
    forall i, j | 0 <= i < j < |us'| ensures us'[i].oid != us'[j].oid && !Clash(us'[i], us'[j]) {
      if i == k {
        assert us[j].oid != n.oid;
        assert !Clash(us[j], n);
        assert Clash(n, us[j]) == Clash(us[j], n);
      } else if j == k {
        assert us[i].oid != n.oid;
      }
    }
  }

  /** A save never breaks the collection's guarantees; a failed one changes
      nothing and a successful one stores exactly the saved document. */
  lemma SaveKeepsValid(us: seq<User>, u: User, draws: seq<seq<real>>)
    requires IsRandomSupply(draws)
    requires ValidUsers(us)
    ensures ValidUsers(SaveSpec(us, u, draws).1)
    ensures SaveSpec(us, u, draws).0.Err? ==> SaveSpec(us, u, draws).1 == us
    ensures SaveSpec(us, u, draws).0.Ok? ==>
              var n := SaveSpec(us, u, draws).0.value;
              SchemaValid(n) && n.oid == u.oid && n in SaveSpec(us, u, draws).1
  {
    match HookSpec(us, Normalize(u), draws)
    case Err(_) =>
    case Ok(h) =>
      HookOutcome(us, Normalize(u), draws);
      CommitKeepsValid(us, Normalize(h));
  }

  /** The validators and indexes admit only a document that keeps the
      collection's guarantees, and store exactly that document. */
  lemma CommitKeepsValid(us: seq<User>, n: User)
    requires ValidUsers(us) && Trimmed(n)
    ensures ValidUsers(Commit(us, n).1)
    ensures Commit(us, n).0.Err? ==> Commit(us, n).1 == us
    ensures Commit(us, n).0.Ok? ==>
              Commit(us, n).0.value == n && SchemaValid(n) && n in Commit(us, n).1
  {
    var (r, us') := Commit(us, n);
    if r.Ok? {
      match FirstIndex(us, HasOid(n.oid)) {
        case None =>
          AppendKeepsValid(us, n);
          assert us'[|us|] == n;
        case Some(k) =>
          ReplaceKeepsValid(us, k, n);
          assert us'[k] == n;
      }
    }
  }

  /** Saving a document that carries a fresh public id stores it as it is. */
  lemma SaveAllocated(us: seq<User>, u: User, c: string, draws: seq<seq<real>>)
    requires IsRandomSupply(draws)
    requires IsPublicId(c) && u.userId == Some(c)
    ensures SaveSpec(us, u, draws).0.Ok? ==>
              SaveSpec(us, u, draws).0.value == Normalize(u) && Normalize(u).userId == Some(c)
  {
    AllocatedHook(us, u, c, draws);
    SaveThroughHook(us, u, Normalize(u), draws);
    CommitStores(us, Normalize(u));
  }

  /** The setters keep a public id, and the hook passes a document carrying one. */
  lemma AllocatedHook(us: seq<User>, u: User, c: string, draws: seq<seq<real>>)
    requires IsRandomSupply(draws)
    requires IsPublicId(c) && u.userId == Some(c)
    ensures Normalize(u).userId == Some(c)
    ensures HookSpec(us, Normalize(u), draws) == Ok(Normalize(u))
  {
    PublicIdIsTrimmed(c);
  }

  /** When the hook passes a trimmed document on, the save is its commit. */
  lemma SaveThroughHook(us: seq<User>, u: User, h: User, draws: seq<seq<real>>)
    requires IsRandomSupply(draws)
    requires HookSpec(us, Normalize(u), draws) == Ok(h) && Trimmed(h)
    ensures SaveSpec(us, u, draws) == Commit(us, h)
  {
    NormalizeTrimmed(h);
  }

  /** A successful commit answers with the document it stored. */
  lemma CommitStores(us: seq<User>, n: User)
    ensures Commit(us, n).0.Ok? ==> Commit(us, n).0.value == n
  {
  }

  /** A new account whose `user_id` is only whitespace reaches the hook with
      the empty text the setter made of it, so it is given a fresh public id
      like an account without one, or the save fails when all ten are taken. */
  lemma SaveBlankUserId(us: seq<User>, u: User, draws: seq<seq<real>>)
    requires IsRandomSupply(draws)
    requires forall i :: 0 <= i < |us| ==> us[i].oid != u.oid && us[i].email != u.email
    requires Truthy(u.email) && Truthy(u.password) && u.orgId.None?
    requires u.userId.Some? && Trim(u.userId.value) == ""
    ensures Allocate(draws, TakenUserIds(us)).None? ==> SaveSpec(us, u, draws) == (Err(HookFailed), us)
    ensures Allocate(draws, TakenUserIds(us)).Some? ==>
              var n := u.(userId := Allocate(draws, TakenUserIds(us)));
              SaveSpec(us, u, draws) == (Ok(n), us + [n])
  {
    match Allocate(draws, TakenUserIds(us)) {
      case None =>
        assert HookSpec(us, Normalize(u), draws) == Err(HookFailed) by { BlankHook(us, u, draws); }
      case Some(c) =>
        BlankSaveAppends(us, u, draws, c);
    }
  }

  /** The save of `SaveBlankUserId` when a candidate is free. */
  lemma BlankSaveAppends(us: seq<User>, u: User, draws: seq<seq<real>>, c: string)
    requires IsRandomSupply(draws) && Allocate(draws, TakenUserIds(us)) == Some(c)
    requires forall i :: 0 <= i < |us| ==> us[i].oid != u.oid && us[i].email != u.email
    requires Truthy(u.email) && Truthy(u.password) && u.orgId.None?
    requires u.userId.Some? && Trim(u.userId.value) == ""
    ensures SaveSpec(us, u, draws) == (Ok(u.(userId := Some(c))), us + [u.(userId := Some(c))])
  {
    var n := u.(userId := Some(c));
    assert HookSpec(us, Normalize(u), draws) == Ok(n) by { BlankHook(us, u, draws); }
    AllocatedIsUnused(us, draws, c);
    SaveThroughHook(us, u, n, draws);
    CommitFresh(us, n, c);
  }

  /** The id the hook allocates is a trimmed public id no account holds. */
  lemma AllocatedIsUnused(us: seq<User>, draws: seq<seq<real>>, c: string)
    requires IsRandomSupply(draws) && Allocate(draws, TakenUserIds(us)) == Some(c)
    ensures |c| == IdLength && EndsTrimmed(c)
    ensures forall i :: 0 <= i < |us| ==> us[i].userId != Some(c)
  {
    AllocateOutcome(draws, TakenUserIds(us));
    PublicIdIsTrimmed(c);
  }

  /** The hook on a new document whose `user_id` the setter emptied. */
  lemma BlankHook(us: seq<User>, u: User, draws: seq<seq<real>>)
    requires IsRandomSupply(draws)
    requires forall i :: 0 <= i < |us| ==> us[i].oid != u.oid
    requires u.orgId.None? && u.userId.Some? && Trim(u.userId.value) == ""
    ensures Allocate(draws, TakenUserIds(us)).None? ==> HookSpec(us, Normalize(u), draws) == Err(HookFailed)
    ensures Allocate(draws, TakenUserIds(us)).Some? ==>
              HookSpec(us, Normalize(u), draws) == Ok(u.(userId := Allocate(draws, TakenUserIds(us))))
  {
    assert Normalize(u) == u.(userId := Some(""));
    assert FirstIndex(us, HasOid(u.oid)).None?;
  }

  /** A new, schema-valid document with a fresh id, an unused email and no
      `org_id` is appended. */
  lemma CommitFresh(us: seq<User>, n: User, c: string)
    requires forall i :: 0 <= i < |us| ==> us[i].oid != n.oid && us[i].email != n.email
    requires forall i :: 0 <= i < |us| ==> us[i].userId != Some(c)
    requires n.userId == Some(c) && |c| == IdLength && n.orgId.None?
    requires Truthy(n.email) && Truthy(n.password)
    ensures Commit(us, n) == (Ok(n), us + [n])
  {
    assert !ClashesWithOther(us, n);
    assert FirstIndex(us, HasOid(n.oid)).None?;
  }

  /** In a consistent collection no stored document clashes with another. */
  lemma StoredDocumentClashesWithNone(us: seq<User>, k: nat)
    requires ValidUsers(us) && k < |us|
    ensures !ClashesWithOther(us, us[k])
  {
    var n := us[k];
    forall i | 0 <= i < |us| && us[i].oid != n.oid ensures !Clash(us[i], n) {
      if i < k {
        assert !Clash(us[i], us[k]);
      } else {
        assert !Clash(us[k], us[i]);
      }
    }
  }

  /** Committing a stored document that is valid, trimmed and clashes with no
      other stores it unchanged. */
  lemma RecommitIsIdentity(us: seq<User>, k: nat)
    requires k < |us| && SchemaValid(us[k]) && Trimmed(us[k]) && !ClashesWithOther(us, us[k])
    requires forall j :: 0 <= j < k ==> us[j].oid != us[k].oid
    ensures Commit(us, us[k]).0 == Ok(us[k])
    ensures Commit(us, us[k]).1 == us
  {
    var n := us[k];
    FirstIndexAt(us, HasOid(n.oid), k);
    assert us[k := n] == us;
  }

  /** A stored, trimmed document passes the hook and the setters unchanged. */
  lemma ResaveHook(us: seq<User>, k: nat, draws: seq<seq<real>>)
    requires IsRandomSupply(draws)
    requires k < |us| && Trimmed(us[k])
    requires forall j :: 0 <= j < k ==> us[j].oid != us[k].oid
    ensures SaveSpec(us, us[k], draws) == Commit(us, us[k])
  {
    FirstIndexAt(us, HasOid(us[k].oid), k);
    NormalizeTrimmed(us[k]);
    assert HookSpec(us, us[k], draws) == Ok(us[k]);
  }

  /** Saving a stored document of a consistent collection again stores it unchanged. */
  lemma ResaveIsIdentity(us: seq<User>, k: nat, draws: seq<seq<real>>)
    requires IsRandomSupply(draws)
    requires ValidUsers(us) && k < |us|
    ensures SaveSpec(us, us[k], draws).0 == Ok(us[k])
    ensures SaveSpec(us, us[k], draws).1 == us
  {
    ResaveHook(us, k, draws);
    StoredDocumentClashesWithNone(us, k);
    RecommitIsIdentity(us, k);
  }

  /** A successful save of a document whose ObjectId is not stored appends it. */
  lemma SaveNewAppends(us: seq<User>, u: User, draws: seq<seq<real>>)
    requires IsRandomSupply(draws)
    requires forall i :: 0 <= i < |us| ==> us[i].oid != u.oid
    ensures SaveSpec(us, u, draws).0.Ok? ==>
              SaveSpec(us, u, draws).1 == us + [SaveSpec(us, u, draws).0.value]
  {
    assert FirstIndex(us, HasOid(u.oid)).None?;
  }

  /** Saving a stored document whose paths are already in set form replaces
      it in place when the save succeeds. */
  lemma SaveExistingReplaces(us: seq<User>, k: nat, u: User, draws: seq<seq<real>>)
    requires IsRandomSupply(draws)
    requires k < |us| && u.oid == us[k].oid && forall j :: 0 <= j < k ==> us[j].oid != u.oid
    requires Trimmed(u)
    ensures SaveSpec(us, u, draws).0.Ok? ==> SaveSpec(us, u, draws).0.value == u
    ensures SaveSpec(us, u, draws).0.Ok? ==> SaveSpec(us, u, draws).1 == us[k := u]
  {
    FirstIndexAt(us, HasOid(u.oid), k);
    NormalizeTrimmed(u);
    assert HookSpec(us, u, draws) == Ok(u);
    CommitExisting(us, k, u);
  }

  /** A commit of a document whose ObjectId is stored at `k` replaces it there. */
  lemma CommitExisting(us: seq<User>, k: nat, n: User)
    requires FirstIndex(us, HasOid(n.oid)) == Some(k)
    ensures Commit(us, n).0.Ok? ==> Commit(us, n).0.value == n && Commit(us, n).1 == us[k := n]
  {
  }

  /** Saving a stored account without a `user_id` under a fresh public id
      stores it in place with that id and nothing else changed; the
      collection keeps its guarantees. */
  lemma SaveBackfill(us: seq<User>, k: nat, c: string, draws: seq<seq<real>>)
    requires IsRandomSupply(draws)
    requires LegacyUsers(us) && k < |us| && !Truthy(us[k].userId)
    requires |c| == IdLength && EndsTrimmed(c)
    requires forall i :: 0 <= i < |us| ==> us[i].userId != Some(c)
    ensures var n := us[k].(userId := Some(c));
            SaveSpec(us, n, draws) == (Ok(n), us[k := n]) && LegacyUsers(us[k := n])
  {
    var n := us[k].(userId := Some(c));
    BackfillHook(us, k, n, draws);
    BackfillClashesWithNone(us, k, n);
    BackfillKeepsLegacy(us, k, n);
    FirstIndexAt(us, HasOid(n.oid), k);
  }

  /** The hook and the setters pass a stored account with a trimmed id through. */
  lemma BackfillHook(us: seq<User>, k: nat, n: User, draws: seq<seq<real>>)
    requires IsRandomSupply(draws)
    requires LegacyUsers(us) && k < |us| && n.oid == us[k].oid && Trimmed(n)
    ensures SaveSpec(us, n, draws) == Commit(us, n)
  {
    assert forall j :: 0 <= j < k ==> us[j].oid != us[k].oid;
    FirstIndexAt(us, HasOid(n.oid), k);
    NormalizeTrimmed(n);
  }

  /** An account given a public id nobody holds clashes with no other account. */
  lemma BackfillClashesWithNone(us: seq<User>, k: nat, n: User)
    requires LegacyUsers(us) && k < |us| && n == us[k].(userId := n.userId) && n.userId.Some?
    requires forall i :: 0 <= i < |us| ==> us[i].userId != n.userId
    ensures !ClashesWithOther(us, n)
  {
    forall i | 0 <= i < |us| && us[i].oid != n.oid ensures !Clash(us[i], n) {
      if i < k {
        assert !Clash(us[i], us[k]);
      } else {
        assert !Clash(us[k], us[i]);
      }
    }
  }

  /** Back-filling a fresh, trimmed public id keeps the collection's guarantees. */
  lemma BackfillKeepsLegacy(us: seq<User>, k: nat, n: User)
    requires LegacyUsers(us) && k < |us| && n == us[k].(userId := n.userId)
    requires n.userId.Some? && |n.userId.value| == IdLength && EndsTrimmed(n.userId.value)
    requires forall i :: 0 <= i < |us| ==> us[i].userId != n.userId
    ensures LegacyUsers(us[k := n])
  {
    var us' := us[k := n];
    assert LegacyValid(n) && Trimmed(n);
    forall i | 0 <= i < |us'| ensures LegacyValid(us'[i]) && Trimmed(us'[i]) {
    }
    forall i, j | 0 <= i < j < |us'| ensures us'[i].oid != us'[j].oid && !Clash(us'[i], us'[j]) {
      if i == k {
        assert !Clash(us[k], us[j]);
      } else if j == k {
        assert !Clash(us[i], us[k]);
      } else {
        assert us'[i] == us[i] && us'[j] == us[j];
      }
    }
  }
}

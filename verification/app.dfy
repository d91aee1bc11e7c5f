/**
 * The account endpoints of the application: `ensureUserId` (back-filling the
 * public `user_id`), `/register` and `/login`.  bcrypt is abstracted as a hash
 * function and a match predicate supplied by the caller; the ObjectId of a new
 * account is supplied by the caller too.
 */
module App {
  import opened Common
  import opened PublicIds
  import opened Jwt
  import opened UserModel

  /** The secret the account endpoints sign with. */
  const AccountSecret: string := "RANDOM-TOKEN"
  /** `expiresIn: "24h"`. */
  const AccountTokenLifetimeSec: nat := 24 * 60 * 60

  datatype EnsureError = AllTaken | SaveFailed(cause: SaveError)

  /** An HTTP answer: status, message, and the user document and token it carries. */
  datatype Reply = Reply(status: int, message: string, user: Option<User>, token: Option<SignedToken>)

  /** `ensureUserId(user)`: the result and the collection afterwards. */
  function EnsureUserIdSpec(us: seq<User>, u: User, draws: seq<seq<real>>): (Result<User, EnsureError>, seq<User>)
    requires IsRandomSupply(draws)
  {
    if Truthy(u.userId) then (Ok(u), us)
    else match Allocate(draws, TakenUserIds(us))
      case None => (Err(AllTaken), us)
      case Some(c) =>
        var (r, us') := SaveSpec(us, u.(userId := Some(c)), draws);
        match r
        case Ok(n) => (Ok(n), us')
        case Err(e) => (Err(SaveFailed(e)), us')
  }

  /** `ensureUserId`: returns a user that already has an id untouched, without
      consulting the collection; otherwise checks up to ten candidates, assigns
      the first free one and saves. */
  method EnsureUserId(store: UserStore, u: User, draws: seq<seq<real>>) returns (r: Result<User, EnsureError>)
    requires IsRandomSupply(draws)
    modifies store
    ensures r == EnsureUserIdSpec(old(store.users), u, draws).0
    ensures store.users == EnsureUserIdSpec(old(store.users), u, draws).1
  {
    if Truthy(u.userId) {
      return Ok(u);
    }
    AllocateOutcome(draws, TakenUserIds(store.users));
    for i := 0 to MaxAttempts
      invariant store.users == old(store.users)
      invariant forall j :: 0 <= j < i ==> Candidates(draws)[j] in TakenUserIds(store.users)
    {
      var candidate := GenerateId(draws[i]);
      var taken := store.ExistsUserId(candidate);
      if !taken {
        AllocateAt(draws, TakenUserIds(store.users), i);
        var saved := store.Save(u.(userId := Some(candidate)), draws);
        if saved.Ok? {
          return Ok(saved.value);
        }
        return Err(SaveFailed(saved.error));
      }
    }
    return Err(AllTaken);
  }

  /** An account that already has a public id is returned as it is and nothing is written. */
  lemma EnsureUserIdKeepsExisting(us: seq<User>, u: User, draws: seq<seq<real>>)
    requires IsRandomSupply(draws)
    requires Truthy(u.userId)
    ensures EnsureUserIdSpec(us, u, draws).0 == Ok(u)
    ensures EnsureUserIdSpec(us, u, draws).1 == us
  {
  }

  /** `ensureUserId` fails for want of a free identifier exactly when all ten
      candidates are in use, and then writes nothing. */
  lemma EnsureUserIdAllTaken(us: seq<User>, u: User, draws: seq<seq<real>>)
    requires IsRandomSupply(draws)
    ensures EnsureUserIdSpec(us, u, draws).0 == Err(AllTaken) <==>
              !Truthy(u.userId) && forall j :: 0 <= j < MaxAttempts ==> Candidates(draws)[j] in TakenUserIds(us)
    ensures EnsureUserIdSpec(us, u, draws).0 == Err(AllTaken) ==> EnsureUserIdSpec(us, u, draws).1 == us
  {
    AllocateOutcome(draws, TakenUserIds(us));
  }

  /** Otherwise a successful call stores the account under a fresh public id,
      and no call breaks the collection's guarantees. */
  lemma EnsureUserIdAssignsFresh(us: seq<User>, u: User, draws: seq<seq<real>>)
    requires IsRandomSupply(draws)
    requires ValidUsers(us)
    ensures ValidUsers(EnsureUserIdSpec(us, u, draws).1)
    ensures !Truthy(u.userId) && EnsureUserIdSpec(us, u, draws).0.Ok? ==>
              var n := EnsureUserIdSpec(us, u, draws).0.value;
              n.oid == u.oid && n.email == u.email && n.password == u.password
              && n.userId.Some? && IsPublicId(n.userId.value) && n.userId.value !in TakenUserIds(us)
              && n in EnsureUserIdSpec(us, u, draws).1
  {
    if !Truthy(u.userId) {
      AllocateOutcome(draws, TakenUserIds(us));
      match Allocate(draws, TakenUserIds(us)) {
        case None =>
        case Some(c) =>
          var u' := u.(userId := Some(c));
          SaveKeepsValid(us, u', draws);
          SaveAllocated(us, u', c, draws);
      }
    }
  }

  /** On a stored account without a public id, `ensureUserId` back-fills the
      first free candidate in place and changes nothing else, or fails
      without writing when all ten are taken. */
  lemma EnsureUserIdBackfills(us: seq<User>, k: nat, draws: seq<seq<real>>)
    requires IsRandomSupply(draws)
    requires LegacyUsers(us) && k < |us| && !Truthy(us[k].userId)
    ensures Allocate(draws, TakenUserIds(us)).None? ==> EnsureUserIdSpec(us, us[k], draws) == (Err(AllTaken), us)
    ensures Allocate(draws, TakenUserIds(us)).Some? ==>
              var c := Allocate(draws, TakenUserIds(us)).value;
              var n := us[k].(userId := Some(c));
              IsPublicId(c) && c !in TakenUserIds(us)
              && EnsureUserIdSpec(us, us[k], draws) == (Ok(n), us[k := n])
              && LegacyUsers(us[k := n])
  {
    match Allocate(draws, TakenUserIds(us)) {
      case None =>
      case Some(c) =>
        BackfillWith(us, k, c, draws);
    }
  }

  /** The back-fill with the drawn candidate `c`. */
  lemma BackfillWith(us: seq<User>, k: nat, c: string, draws: seq<seq<real>>)
    requires IsRandomSupply(draws)
    requires LegacyUsers(us) && k < |us| && !Truthy(us[k].userId)
    requires Allocate(draws, TakenUserIds(us)) == Some(c)
    ensures IsPublicId(c) && c !in TakenUserIds(us)
    ensures var n := us[k].(userId := Some(c));
            EnsureUserIdSpec(us, us[k], draws) == (Ok(n), us[k := n]) && LegacyUsers(us[k := n])
  {
    AllocatedIsFresh(draws, TakenUserIds(us));
    assert |c| == IdLength && EndsTrimmed(c) by {
      PublicIdIsTrimmed(c);
    }
    assert forall i :: 0 <= i < |us| ==> us[i].userId != Some(c);
    SaveBackfill(us, k, c, draws);
    var n := us[k].(userId := Some(c));
    assert EnsureUserIdSpec(us, us[k], draws) == (Ok(n), us[k := n]);
  }

  /** A drawn identifier is a public id not in use. */
  lemma AllocatedIsFresh(draws: seq<seq<real>>, taken: set<string>)
    requires IsRandomSupply(draws)
    ensures Allocate(draws, taken).Some? ==> IsPublicId(Allocate(draws, taken).value) && Allocate(draws, taken).value !in taken
  {
    AllocateOutcome(draws, taken);
  }

  /** A new account's first save, inside `ensureUserId`, appends it. */
  lemma EnsureUserIdAppendsNew(us: seq<User>, u: User, draws: seq<seq<real>>)
    requires IsRandomSupply(draws)
    requires forall i :: 0 <= i < |us| ==> us[i].oid != u.oid
    requires !Truthy(u.userId)
    ensures EnsureUserIdSpec(us, u, draws).0.Ok? ==>
              EnsureUserIdSpec(us, u, draws).1 == us + [EnsureUserIdSpec(us, u, draws).0.value]
  {
    match Allocate(draws, TakenUserIds(us)) {
      case None =>
      case Some(c) =>
        SaveNewAppends(us, u.(userId := Some(c)), draws);
    }
  }

  /** The token both account endpoints issue: `{ userId, userEmail, luser }`, 24 hours. */
  function AccountToken(u: User, nowMs: int): (t: SignedToken)
    ensures t.secret == AccountSecret
    ensures t.claims.id.None? && t.claims.userId == Some(u.oid) && t.claims.luser == u.userId
            && t.claims.userEmail == u.email
    ensures t.claims.exp == Some(t.claims.iat + AccountTokenLifetimeSec)
  {
    Sign(None, Some(u.oid), u.userId, u.email, AccountSecret, nowMs, AccountTokenLifetimeSec)
  }

  /** The account built from a registration request. */
  function NewAccount(oid: string, email: Option<string>, password: string, hash: string -> string): User {
    User(oid, email, Some(hash(password)), None, None)
  }

  /** `POST /register`: the reply and the collection afterwards. */
  function RegisterSpec(us: seq<User>, email: Option<string>, password: Option<string>, hash: string -> string,
                        oid: string, draws: seq<seq<real>>, nowMs: int): (Reply, seq<User>)
    requires IsRandomSupply(draws)
  {
    if password.None? then (Reply(500, "Password was not hashed successfully", None, None), us)
    else
      var ensured := EnsureUserIdSpec(us, NewAccount(oid, email, password.value, hash), draws);
      match ensured.0
      case Err(_) => (Reply(500, "Failed to generate user_id", None, None), ensured.1)
      case Ok(user) =>
        var saved := SaveSpec(ensured.1, user, draws);
        match saved.0
        case Err(_) => (Reply(500, "Error creating user", None, None), saved.1)
        case Ok(result) =>
          (Reply(201, "User Created Successfully", Some(result), Some(AccountToken(result, nowMs))), saved.1)
  }

  /** `POST /register`: hash the password, allocate the public id (which saves
      the account), save again, and sign the account token. */
  method Register(store: UserStore, email: Option<string>, password: Option<string>, hash: string -> string,
                  oid: string, draws: seq<seq<real>>, nowMs: int) returns (reply: Reply)
    requires IsRandomSupply(draws)
    modifies store
    ensures reply == RegisterSpec(old(store.users), email, password, hash, oid, draws, nowMs).0
    ensures store.users == RegisterSpec(old(store.users), email, password, hash, oid, draws, nowMs).1
  {
    if password.None? {
      return Reply(500, "Password was not hashed successfully", None, None);
    }
    var e := EnsureUserId(store, NewAccount(oid, email, password.value, hash), draws);
    if e.Err? {
      return Reply(500, "Failed to generate user_id", None, None);
    }
    var s := store.Save(e.value, draws);
    if s.Err? {
      return Reply(500, "Error creating user", None, None);
    }
    reply := Reply(201, "User Created Successfully", Some(s.value), Some(AccountToken(s.value, nowMs)));
  }

  /** After the id allocation has saved a new account, the second save stores
      it unchanged, so registration never answers "Error creating user". */
  lemma RegisterSecondSaveSucceeds(us: seq<User>, email: Option<string>, password: string, hash: string -> string,
                                   oid: string, draws: seq<seq<real>>)
    requires IsRandomSupply(draws)
    requires ValidUsers(us)
    requires forall i :: 0 <= i < |us| ==> us[i].oid != oid
    ensures var ensured := EnsureUserIdSpec(us, NewAccount(oid, email, password, hash), draws);
            ensured.0.Ok? ==>
              ensured.1 == us + [ensured.0.value]
              && SaveSpec(ensured.1, ensured.0.value, draws).0 == Ok(ensured.0.value)
              && SaveSpec(ensured.1, ensured.0.value, draws).1 == ensured.1
  {
    var user := NewAccount(oid, email, password, hash);
    var ensured := EnsureUserIdSpec(us, user, draws);
    if ensured.0.Ok? {
      EnsureUserIdAssignsFresh(us, user, draws);
      EnsureUserIdAppendsNew(us, user, draws);
      assert ensured.1[|us|] == ensured.0.value;
      ResaveIsIdentity(ensured.1, |us|, draws);
    }
  }

  /** Registration against a consistent collection keeps it consistent and
      never answers "Error creating user"; any answer but 201 is a 500 that
      leaves the collection as it was. */
  lemma RegisterOutcome(us: seq<User>, email: Option<string>, password: Option<string>, hash: string -> string,
                        oid: string, draws: seq<seq<real>>, nowMs: int)
    requires IsRandomSupply(draws)
    requires ValidUsers(us)
    requires forall i :: 0 <= i < |us| ==> us[i].oid != oid
    ensures ValidUsers(RegisterSpec(us, email, password, hash, oid, draws, nowMs).1)
    ensures RegisterSpec(us, email, password, hash, oid, draws, nowMs).0.message != "Error creating user"
    ensures RegisterSpec(us, email, password, hash, oid, draws, nowMs).0.status != 201 ==>
              RegisterSpec(us, email, password, hash, oid, draws, nowMs).0.status == 500
              && RegisterSpec(us, email, password, hash, oid, draws, nowMs).1 == us
  {
    if password.Some? {
      var user := NewAccount(oid, email, password.value, hash);
      EnsureUserIdAssignsFresh(us, user, draws);
      EnsureUserIdAllTaken(us, user, draws);
      RegisterSecondSaveSucceeds(us, email, password.value, hash, oid, draws);
      var ensured := EnsureUserIdSpec(us, user, draws);
      if ensured.0.Err? && ensured.0 != Err(AllTaken) {
        match Allocate(draws, TakenUserIds(us)) {
          case None =>
          case Some(c) =>
            SaveKeepsValid(us, user.(userId := Some(c)), draws);
        }
      }
    }
  }

  /** A 201 answer stores exactly one new account, under the request's
      ObjectId and email, with a fresh public id that is the token's `luser`. */
  lemma RegisterCreates(us: seq<User>, email: Option<string>, password: Option<string>, hash: string -> string,
                        oid: string, draws: seq<seq<real>>, nowMs: int)
    requires IsRandomSupply(draws)
    requires ValidUsers(us)
    requires forall i :: 0 <= i < |us| ==> us[i].oid != oid
    requires RegisterSpec(us, email, password, hash, oid, draws, nowMs).0.status == 201
    ensures var reply := RegisterSpec(us, email, password, hash, oid, draws, nowMs).0;
            reply.user.Some? && reply.token.Some?
            && reply.user.value.oid == oid && reply.user.value.email == email
            && password.Some? && reply.user.value.password == Some(hash(password.value))
            && reply.user.value.userId.Some? && IsPublicId(reply.user.value.userId.value)
            && reply.user.value.userId.value !in TakenUserIds(us)
            && reply.token.value.claims.luser == reply.user.value.userId
            && RegisterSpec(us, email, password, hash, oid, draws, nowMs).1 == us + [reply.user.value]
  {
    var user := NewAccount(oid, email, password.value, hash);
    EnsureUserIdAssignsFresh(us, user, draws);
    RegisterSecondSaveSucceeds(us, email, password.value, hash, oid, draws);
  }

  /** An email already registered is refused: the allocation's save hits the
      unique email index, so the answer is 500 "Failed to generate user_id"
      and nothing is stored. */
  lemma RegisterTakenEmail(us: seq<User>, email: Option<string>, password: Option<string>, hash: string -> string,
                           oid: string, draws: seq<seq<real>>, nowMs: int, k: nat)
    requires IsRandomSupply(draws)
    requires ValidUsers(us)
    requires forall i :: 0 <= i < |us| ==> us[i].oid != oid
    requires k < |us| && us[k].email == email
    ensures RegisterSpec(us, email, password, hash, oid, draws, nowMs).0.status == 500
    ensures RegisterSpec(us, email, password, hash, oid, draws, nowMs).1 == us
  {
    RegisterOutcome(us, email, password, hash, oid, draws, nowMs);
    if RegisterSpec(us, email, password, hash, oid, draws, nowMs).0.status == 201 {
      RegisterCreates(us, email, password, hash, oid, draws, nowMs);
      var us' := RegisterSpec(us, email, password, hash, oid, draws, nowMs).1;
      assert us'[k] == us[k] && us'[|us|].email == email;
      assert Clash(us'[k], us'[|us|]);
      assert false;
    }
  }

  /** The `findOne({ email })` filter; an absent email matches only documents without one. */
  function HasEmail(email: Option<string>): (User -> bool) {
    (u: User) => u.email == email
  }

  /** The password check: bcrypt rejects (and the route answers 400) when
      either side is missing. */
  predicate PasswordAccepted(password: Option<string>, stored: Option<string>, matches: (string, string) -> bool) {
    password.Some? && stored.Some? && matches(password.value, stored.value)
  }

  /** `POST /login`: the reply and the collection afterwards. */
  function LoginSpec(us: seq<User>, email: Option<string>, password: Option<string>, matches: (string, string) -> bool,
                     draws: seq<seq<real>>, nowMs: int): (Reply, seq<User>)
    requires IsRandomSupply(draws)
  {
    match FirstIndex(us, HasEmail(email))
    case None => (Reply(404, "Email not found", None, None), us)
    case Some(k) =>
      if !PasswordAccepted(password, us[k].password, matches) then (Reply(400, "Passwords does not match", None, None), us)
      else
        var ensured := EnsureUserIdSpec(us, us[k], draws);
        match ensured.0
        case Err(_) => (Reply(500, "Failed to ensure user_id", None, None), ensured.1)
        case Ok(u) => (Reply(200, "Login Successful", Some(u), Some(AccountToken(u, nowMs))), ensured.1)
  }

  /** `POST /login`: find the account by email, compare the password, back-fill
      the public id, and sign the account token. */
  method Login(store: UserStore, email: Option<string>, password: Option<string>, matches: (string, string) -> bool,
               draws: seq<seq<real>>, nowMs: int) returns (reply: Reply)
    requires IsRandomSupply(draws)
    modifies store
    ensures reply == LoginSpec(old(store.users), email, password, matches, draws, nowMs).0
    ensures store.users == LoginSpec(old(store.users), email, password, matches, draws, nowMs).1
  {
    var found := FirstIndex(store.users, HasEmail(email));
    if found.None? {
      return Reply(404, "Email not found", None, None);
    }
    var user := store.users[found.value];
    if !PasswordAccepted(password, user.password, matches) {
      return Reply(400, "Passwords does not match", None, None);
    }
    var e := EnsureUserId(store, user, draws);
    if e.Err? {
      return Reply(500, "Failed to ensure user_id", None, None);
    }
    reply := Reply(200, "Login Successful", Some(e.value), Some(AccountToken(e.value, nowMs)));
  }

  /** Login answers 404 exactly when no account has the email, and 400 exactly
      when the first account with it does not accept the password; neither writes. */
  lemma LoginRefusals(us: seq<User>, email: Option<string>, password: Option<string>, matches: (string, string) -> bool,
                      draws: seq<seq<real>>, nowMs: int)
    requires IsRandomSupply(draws)
    ensures LoginSpec(us, email, password, matches, draws, nowMs).0.status == 404 <==>
              forall i :: 0 <= i < |us| ==> us[i].email != email
    ensures LoginSpec(us, email, password, matches, draws, nowMs).0.status == 400 <==>
              exists k :: 0 <= k < |us| && us[k].email == email && (forall j :: 0 <= j < k ==> us[j].email != email)
                          && !PasswordAccepted(password, us[k].password, matches)
    ensures LoginSpec(us, email, password, matches, draws, nowMs).0.status in {400, 404} ==>
              LoginSpec(us, email, password, matches, draws, nowMs).1 == us
  {
    match FirstIndex(us, HasEmail(email)) {
      case None =>
      case Some(k) =>
        assert HasEmail(email)(us[k]);
        forall k' | 0 <= k' < |us| && us[k'].email == email && (forall j :: 0 <= j < k' ==> us[j].email != email)
          ensures k' == k
        {
          assert HasEmail(email)(us[k']);
        }
    }
  }

  /** Login writes to the collection only to back-fill the public id of an
      older account: the first account with the email accepts the password,
      has no public id, and a free candidate is drawn. */
  predicate LoginBackfills(us: seq<User>, email: Option<string>, password: Option<string>,
                           matches: (string, string) -> bool, draws: seq<seq<real>>)
    requires IsRandomSupply(draws)
  {
    match FirstIndex(us, HasEmail(email))
    case None => false
    case Some(k) =>
      PasswordAccepted(password, us[k].password, matches) && !Truthy(us[k].userId)
      && Allocate(draws, TakenUserIds(us)).Some?
  }

  /** Logging in to an older account without a public id assigns it the
      first free candidate, stores it in place, and signs a token whose
      `luser` is that id; when all ten candidates are taken the answer is
      500 and nothing is written. */
  lemma LoginBackfill(us: seq<User>, email: Option<string>, password: Option<string>, matches: (string, string) -> bool,
                      draws: seq<seq<real>>, nowMs: int, k: nat)
    requires IsRandomSupply(draws)
    requires LegacyUsers(us)
    requires k < |us| && us[k].email == email && forall j :: 0 <= j < k ==> us[j].email != email
    requires PasswordAccepted(password, us[k].password, matches) && !Truthy(us[k].userId)
    ensures Allocate(draws, TakenUserIds(us)).None? ==>
              LoginSpec(us, email, password, matches, draws, nowMs) == (Reply(500, "Failed to ensure user_id", None, None), us)
    ensures Allocate(draws, TakenUserIds(us)).Some? ==>
              var c := Allocate(draws, TakenUserIds(us)).value;
              var n := us[k].(userId := Some(c));
              var login := LoginSpec(us, email, password, matches, draws, nowMs);
              IsPublicId(c) && c !in TakenUserIds(us)
              && login.0.status == 200 && login.0.user == Some(n)
              && login.0.token.Some? && login.0.token.value.claims.luser == Some(c)
              && login.1 == us[k := n] && LegacyUsers(login.1)
  {
    FirstIndexAt(us, HasEmail(email), k);
    EnsureUserIdBackfills(us, k, draws);
  }

  /** Login writes exactly in the back-fill case; otherwise its 200 answer
      returns the stored account with a token whose `luser` is its public id.
      A collection where every account has its public id is never written. */
  lemma LoginWritesOnlyToBackfill(us: seq<User>, email: Option<string>, password: Option<string>, matches: (string, string) -> bool,
                        draws: seq<seq<real>>, nowMs: int)
    requires IsRandomSupply(draws)
    requires LegacyUsers(us)
    ensures LoginSpec(us, email, password, matches, draws, nowMs).1 == us <==>
              !LoginBackfills(us, email, password, matches, draws)
    ensures ValidUsers(us) ==> LoginSpec(us, email, password, matches, draws, nowMs).1 == us
    ensures var reply := LoginSpec(us, email, password, matches, draws, nowMs).0;
            reply.status == 200 ==>
              reply.user.Some? && reply.user.value in LoginSpec(us, email, password, matches, draws, nowMs).1
              && reply.user.value.email == email
              && reply.token.Some? && reply.token.value.claims.luser == reply.user.value.userId
              && reply.user.value.userId.Some? && |reply.user.value.userId.value| == IdLength
    ensures var reply := LoginSpec(us, email, password, matches, draws, nowMs).0;
            reply.status == 200 && !LoginBackfills(us, email, password, matches, draws) ==> reply.user.value in us
  {
    match FirstIndex(us, HasEmail(email)) {
      case None =>
      case Some(k) =>
        assert HasEmail(email)(us[k]);
        if PasswordAccepted(password, us[k].password, matches) {
          if Truthy(us[k].userId) {
            assert LegacyValid(us[k]);
            EnsureUserIdKeepsExisting(us, us[k], draws);
          } else {
            LoginBackfill(us, email, password, matches, draws, nowMs, k);
            match Allocate(draws, TakenUserIds(us)) {
              case None =>
              case Some(c) =>
                var n := us[k].(userId := Some(c));
                assert us[k := n][k] == n;
                assert us[k := n][k] != us[k];
            }
          }
        }
        if ValidUsers(us) {
          assert SchemaValid(us[k]);
        }
    }
  }

  /** A freshly registered account can log in at once with the same email and
      password, and the login token names the identifier registration assigned. */
  lemma RegisterThenLogin(us: seq<User>, email: Option<string>, password: string, hash: string -> string,
                          matches: (string, string) -> bool, oid: string, draws: seq<seq<real>>, draws': seq<seq<real>>,
                          nowMs: int, laterMs: int)
    requires IsRandomSupply(draws) && IsRandomSupply(draws')
    requires ValidUsers(us)
    requires forall i :: 0 <= i < |us| ==> us[i].oid != oid
    requires matches(password, hash(password))
    requires RegisterSpec(us, email, Some(password), hash, oid, draws, nowMs).0.status == 201
    ensures var registered := RegisterSpec(us, email, Some(password), hash, oid, draws, nowMs);
            var login := LoginSpec(registered.1, email, Some(password), matches, draws', laterMs);
            login.0.status == 200 && login.1 == registered.1
            && login.0.user == registered.0.user
            && login.0.token.Some? && login.0.token.value.claims.luser == registered.0.user.value.userId
  {
    var registered := RegisterSpec(us, email, Some(password), hash, oid, draws, nowMs);
    RegisterCreates(us, email, Some(password), hash, oid, draws, nowMs);
    var n := registered.0.user.value;
    forall i | 0 <= i < |us| ensures us[i].email != email {
      if us[i].email == email {
        RegisterTakenEmail(us, email, Some(password), hash, oid, draws, nowMs, i);
      }
    }
    AppendedIsFirst(us, n, email);
    LoginAccepts(us + [n], |us|, email, Some(password), matches, draws', laterMs);
  }

  /** An account appended with an email no other account has is the one `findOne` finds. */
  lemma AppendedIsFirst(us: seq<User>, n: User, email: Option<string>)
    requires n.email == email
    requires forall i :: 0 <= i < |us| ==> us[i].email != email
    ensures FirstIndex(us + [n], HasEmail(email)) == Some(|us|) && (us + [n])[|us|] == n
  {
    var us' := us + [n];
    assert us'[|us|] == n;
    forall j | 0 <= j < |us| ensures !HasEmail(email)(us'[j]) {
      assert us'[j] == us[j];
    }
    FirstIndexAt(us', HasEmail(email), |us|);
  }

  /** Login with an accepted password on an account that has a public id
      answers 200 with that account and its token, and writes nothing. */
  lemma LoginAccepts(us: seq<User>, k: nat, email: Option<string>, password: Option<string>,
                     matches: (string, string) -> bool, draws: seq<seq<real>>, nowMs: int)
    requires IsRandomSupply(draws)
    requires FirstIndex(us, HasEmail(email)) == Some(k) && k < |us|
    requires Truthy(us[k].userId) && PasswordAccepted(password, us[k].password, matches)
    ensures LoginSpec(us, email, password, matches, draws, nowMs)
            == (Reply(200, "Login Successful", Some(us[k]), Some(AccountToken(us[k], nowMs))), us)
  {
    assert EnsureUserIdSpec(us, us[k], draws) == (Ok(us[k]), us);
  }
}

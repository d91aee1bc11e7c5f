# mini-backend, modelled in Dafny

A model of the account and authorization core of a small Express/Mongoose
back end. It covers:

- account registration and login (`app.js`), which hash the password and
  issue a 24-hour JSON Web Token;
- the User collection and its `pre('validate')` hook, which allocates the
  8-character public `user_id` (`db/userModel.js`);
- the token service (`auth/tokenService.js`): 7-day access tokens and
  80-digit hexadecimal refresh tokens, stored in a refresh-token collection
  (`db/refreshTokenModel.js`) whose records are checked for expiry when they
  are looked up;
- the refresh routes `/token` and `/revoke` (`auth/refreshRoutes.js`), which
  rotate and delete refresh tokens;
- the bearer-token gate `jwtAuth(secret)`, which guards the write routes of
  the organisation and profile routers;
- organisations (`db/orgModel.js`): create, look up, update and delete, each
  restricted to the owner, with a public `org_id`;
- profiles (`db/profileModel.js`): one per account, with a validated,
  lower-cased e-mail address, each restricted to the caller's own profile;
- the start-up seeding of the five default specialty types (`db/typeModel.js`).

Each source file is one Dafny module:

| module | file |
|---|---|
| `Common` | shared helpers: JavaScript truthiness, `trim`, `findOne`/`deleteOne` on a sequence, the whitelist copy loop |
| `PublicIds` | `generateId` / `generateUserId` and the 10-draw allocation loop |
| `Jwt` | signing and verifying tokens with an `exp` claim |
| `UserModel` | `db/userModel.js` |
| `App` | `app.js` |
| `RefreshTokenModel` | `db/refreshTokenModel.js` |
| `TokenService` | `auth/tokenService.js` |
| `RefreshRoutes` | `auth/refreshRoutes.js` |
| `BearerAuth` | the `jwtAuth` of `db/orgModel.js` and `db/profileModel.js` |
| `TypeModel` | `db/typeModel.js` |
| `OrgModel` | `db/orgModel.js` |
| `ProfileModel` | `db/profileModel.js` |

How the model is built:

- A collection is a class holding a `seq` of documents in natural order.
  `findOne` is the first matching position, and `deleteOne` removes that
  one document.
- Each operation that changes a collection is a method. The method is
  proved equal to a specification function that returns the answer and
  the collection afterwards. The lemmas are stated about that function.
- A consistent User collection (`ValidUsers`) satisfies the schema's
  validators and unique indexes. Accounts stored before `user_id` was
  required may lack one; `LegacyUsers` is the same guarantee with
  `user_id` optional, and login's back-fill of the public id is stated
  over it.
- `Math.random`, `crypto.randomBytes`, the clock, the password hash
  function and the token decoder are parameters.
- A store call that throws is modelled in two modules only. In
  `RefreshRoutes`, a `Fault` parameter names the failing call of `/token`
  and a flag says whether the delete of `/revoke` throws. In `TypeModel`,
  the seeding loop stops at the failing call. In `App`, `UserModel`,
  `OrgModel` and `ProfileModel` every store call succeeds.
- An error without an HTTP status reaches the client as 500. Where the
  code raises it with its own message, the model keeps that message
  ("Failed to generate unique org_id"). A validation, cast, duplicate-key
  or reference error, whose message comes from the library, is modelled as
  500 "Internal Server Error".

Where the code and the written design differ, the model follows the code:

- The bearer gate reads only the `Authorization` header. It has no
  fallback to a `TOKEN` cookie.
- Login issues only the 24-hour account token. It issues no refresh token.
- The refresh-token `token` path is indexed but not unique.
- Rotation is revoke, then generate, then save, as separate steps. A save
  that fails after the revoke loses the session (`ExchangeSaveFailureLosesToken`).
- A duplicate-key failure on save is not retried as a new draw. It
  surfaces as an error.

## Model

| member | source | states |
|---|---|---|
| Common.Or | db/orgModel.js:43 | `a \|\| b` on optional strings is truthy iff either operand is, and is the first truthy operand, else the second |
| Common.TrimIdempotent | db/userModel.js:24 | the `trim` setter applied to its own output changes nothing |
| Common.TrimOfTrimmed | db/userModel.js:24 | a string with no whitespace at either end is its own trim |
| Common.LeadingWhitespace | db/orgModel.js:40 | the count is the length of the whitespace run the string starts with: everything before it is whitespace, and the next character is not |
| Common.TrimRemovesSurrounding | db/orgModel.js:40 | `trim` returns the part of the string after its leading whitespace run and before its trailing whitespace, with no whitespace at either end |
| Common.ToLowerAscii | db/profileModel.js:18 | lower-casing keeps the length, shifts exactly the upper-case ASCII letters, and leaves none behind |
| Common.FirstIndex | auth/tokenService.js:33 | `findOne` yields the first position that matches, and yields nothing exactly when no document matches |
| Common.RemoveAt | auth/tokenService.js:35 | removing one document keeps every other document, in order, and drops exactly that one from the multiset |
| Common.DeleteOneEffect | auth/tokenService.js:28 | `deleteOne` removes exactly the first match, and nothing when no document matches |
| Common.BooleanCastTable | db/orgModel.js:23 | exactly `true`, `"true"`, `"1"`, `"yes"` and `1` become true, exactly `false`, `"false"`, `"0"`, `"no"` and `0` become false, and every other value is left unchanged |
| Common.OverlayFrame | db/orgModel.js:156-159 | copying whitelisted keys sets exactly the whitelisted keys the update carries, through the setter; every other key keeps its value and presence |
| Common.CopyAllowed | db/profileModel.js:146-149 | the copy loop yields the whitelisted overlay: keys off the whitelist are untouched, and whitelisted keys in the update go through the setter |
| PublicIds.AlphabetShape | db/userModel.js:44 | the alphabet has 62 distinct symbols, all ASCII letters or digits |
| PublicIds.CharIndex | db/userModel.js:47 | `Math.floor(Math.random() * 62)` is always a valid alphabet index, the floor of the scaled draw |
| PublicIds.GenerateId | app.js:15-20 | the loop builds an 8-character alphanumeric identifier, one alphabet symbol per draw |
| PublicIds.IdFromDrawsIsPublicId | db/userModel.js:43-50 | every drawn identifier is 8 alphanumeric characters |
| PublicIds.PublicIdIsTrimmed | db/userModel.js:24-26 | the `trim` setter leaves a public identifier unchanged |
| PublicIds.Candidates | db/userModel.js:59-70 | the retry loop draws one public identifier per batch of draws |
| PublicIds.AllocateOutcome | db/orgModel.js:89-95 | allocation returns the first candidate not in use, which is a public identifier; it fails exactly when all ten candidates are in use |
| PublicIds.AllocateAt | db/userModel.js:59-69 | a loop whose first free candidate comes at try `i` allocates that candidate |
| Jwt.EpochSeconds | auth/tokenService.js:14 | the `iat` second is the floor of the clock in milliseconds |
| Jwt.Verify | db/orgModel.js:42 | `jwt.verify` accepts exactly a parsed token signed with the same secret whose `exp` is after the current second, and returns its claims |
| Jwt.SignedTokenLifetime | app.js:93-101 | a freshly signed token verifies under its own secret until `expiresIn` seconds after it was signed, and never under another secret |
| UserModel.Normalize | db/userModel.js:24 | the setters trim `user_id` and `org_id` and change nothing else |
| UserModel.NormalizeTrimmed | db/userModel.js:20-39 | the setters are idempotent on documents they produced |
| UserModel.TakenUserIds | db/userModel.js:64 | the identifiers `exists({ user_id })` finds are exactly the stored `user_id` values |
| UserModel.HookOutcome | db/userModel.js:53-74 | the hook fails exactly for a new document without `user_id` whose ten candidates are all taken; otherwise it changes at most `user_id`, and only to a fresh public identifier |
| UserModel.UserStore.ExistsUserId | db/userModel.js:64 | `exists` is true exactly when a stored document has that `user_id` |
| UserModel.UserStore.PreValidate | db/userModel.js:53-74 | the hook's retry loop computes the hook specification |
| UserModel.UserStore.Save | db/userModel.js:4-74 | `save()` runs the `trim` setters, then the hook on the trimmed document, then the validators and the unique indexes, then inserts or replaces |
| UserModel.AppendKeepsValid | db/userModel.js:4-40 | inserting a valid document that clashes with none keeps the unique indexes and validators satisfied |
| UserModel.ReplaceKeepsValid | db/userModel.js:4-40 | replacing a document by a valid one with the same `_id` that clashes with no other keeps the collection consistent |
| UserModel.CommitKeepsValid | db/userModel.js:4-40 | the validators and unique indexes admit only a document that keeps the collection consistent, and then store exactly that document; a refused one changes nothing |
| UserModel.SaveKeepsValid | db/userModel.js:4-74 | a save never breaks the collection's guarantees; a failed save changes nothing, and a successful one stores a schema-valid document with the same `_id` |
| UserModel.SaveBackfill | db/userModel.js:4-74 | saving a stored account without a `user_id` under a fresh public id replaces it in place with that id, and the collection keeps its guarantees |
| UserModel.SaveAllocated | db/userModel.js:53-74 | saving a document that carries a public id stores its normalised form with that id |
| UserModel.SaveBlankUserId | db/userModel.js:20-74 | a new account whose `user_id` is only whitespace is trimmed to empty before the hook, so the hook allocates it a fresh public id and the save appends it; with all ten candidates taken the save fails and writes nothing |
| UserModel.StoredDocumentClashesWithNone | db/userModel.js:6-28 | in a consistent collection no stored document clashes with another |
| UserModel.RecommitIsIdentity | db/userModel.js:4-40 | committing a stored valid document again succeeds and changes nothing |
| UserModel.ResaveHook | db/userModel.js:53-57 | the hook passes a stored document through unchanged |
| UserModel.ResaveIsIdentity | db/userModel.js:53-74 | saving a stored document of a consistent collection again is the identity |
| UserModel.SaveNewAppends | db/userModel.js:53-74 | a successful save of a new `_id` appends the saved document |
| UserModel.SaveExistingReplaces | db/userModel.js:53-74 | a successful save of a stored `_id` with trimmed paths replaces that document by exactly the given one |
| UserModel.CommitExisting | db/userModel.js:4-40 | a commit of a stored `_id` replaces the document at its position |
| App.EnsureUserId | app.js:22-38 | `ensureUserId` computes its specification: the answer and the collection afterwards |
| App.EnsureUserIdKeepsExisting | app.js:24 | an account that already has a public id is returned as it is, and nothing is written |
| App.EnsureUserIdAllTaken | app.js:26-37 | the call fails for want of an id exactly when all ten candidates are taken, and then writes nothing |
| App.EnsureUserIdAssignsFresh | app.js:22-38 | on a collection where every account has its public id, a successful call on an account without one stores it under a fresh public id, and the collection stays consistent |
| App.EnsureUserIdBackfills | app.js:22-38 | on a stored account without a public id, the first free candidate is assigned in place and nothing else changes, or the call fails and writes nothing |
| App.EnsureUserIdAppendsNew | app.js:31-34 | a new account's first save appends it |
| App.AccountToken | app.js:93-101 | the account token carries `userId`, `userEmail` and `luser`, is signed with the router secret, and expires after 24 hours |
| App.Register | app.js:67-127 | `/register` computes its specification: the reply and the collection afterwards |
| App.RegisterSecondSaveSucceeds | app.js:87-90 | after the id allocation saved the new account, the route's own save stores it unchanged |
| App.RegisterOutcome | app.js:67-127 | registration keeps the collection consistent; with store calls that do not throw it never answers "Error creating user", and every answer but 201 is a 500 that writes nothing |
| App.RegisterCreates | app.js:87-107 | a 201 stores exactly one new account with the request's email and hashed password and a fresh public id, which is the token's `luser` |
| App.RegisterTakenEmail | app.js:79-84 | an email already registered is refused with a 500, and nothing is stored |
| App.Login | app.js:130-193 | `/login` computes its specification: the reply and the collection afterwards |
| App.LoginRefusals | app.js:132-151 | 404 exactly when no account has the email, and 400 exactly when the first such account rejects the password; neither writes |
| App.LoginBackfill | app.js:153-176 | logging in to an older account without a public id stores it in place with the first free candidate and answers 200 with a token whose `luser` is that id; with all ten taken it answers 500 and writes nothing |
| App.LoginWritesOnlyToBackfill | app.js:130-176 | login writes exactly when it back-fills a public id, and never on a collection where every account has one; a 200 returns the stored account with a token naming its public id |
| App.AppendedIsFirst | app.js:132 | an account appended with an email no other account has is the one `findOne({ email })` finds |
| App.LoginAccepts | app.js:130-176 | login with an accepted password on an account that has a public id answers 200 with that account and its token, and writes nothing |
| App.RegisterThenLogin | app.js:67-193 | a freshly registered account logs in at once with the same credentials and receives the same public id |
| RefreshTokenModel.CreateRecord | db/refreshTokenModel.js:4-9 | `create` succeeds exactly when user, token and expiry are present; the record carries them, and `createdAt` is the insertion time |
| RefreshTokenModel.DuplicateTokensRepresentable | db/refreshTokenModel.js:6 | two records with different `_id` may carry the same token text |
| TokenService.AccessSecret | auth/tokenService.js:13 | the secret is `JWT_SECRET` when it is non-empty, else "RANDOM-TOKEN" |
| TokenService.SignAccessToken | auth/tokenService.js:7-16 | the access token carries `_id` and `userId` (both the ObjectId) and `luser` (the public id), and expires seven days after signing |
| TokenService.AccessTokenLifetime | auth/tokenService.js:5-15 | an access token verifies under its secret for exactly seven days after the second it was signed in |
| TokenService.HexRoundTrip | auth/tokenService.js:19 | hexadecimal decoding inverts `toString('hex')` |
| TokenService.GenerateRefreshToken | auth/tokenService.js:18-20 | a refresh token is 80 lowercase hexadecimal digits |
| TokenService.RefreshTokensDistinct | auth/tokenService.js:18-20 | refresh tokens are non-empty, and two are equal exactly when their random bytes are |
| TokenService.VerifyRefresh | auth/tokenService.js:31-37 | a returned record carries the presented token and leaves the collection unchanged |
| TokenService.SaveAddsOne | auth/tokenService.js:22-25 | saving appends exactly one record expiring `ttlDays` days later, or nothing when user or token is empty; distinct `_id`s stay distinct |
| TokenService.RevokeRemovesAtMostOne | auth/tokenService.js:27-29 | revoking removes at most one record, one carrying the token, and keeps every other record in order |
| TokenService.RevokeIdempotent | auth/tokenService.js:27-29 | with at most one record per token, revoking twice equals revoking once, and no record with the token remains |
| TokenService.VerifyRejects | auth/tokenService.js:32-34 | a missing, empty or unknown token yields nothing and changes nothing; verification never adds records |
| TokenService.VerifyLive | auth/tokenService.js:33-36 | verification returns a record exactly when the first record with the token has not expired, and then changes nothing |
| TokenService.VerifyExpired | auth/tokenService.js:35 | the first record with the token, once past its expiry, is deleted and nothing is returned |
| TokenService.SaveThenVerify | auth/tokenService.js:22-37 | a token saved with a new text verifies to its record, and so to its owner, until its expiry |
| TokenService.RefreshTokenStore.Save | auth/tokenService.js:22-25 | the store's insert succeeds exactly when user and token are non-empty, and appends the record |
| TokenService.RefreshTokenStore.Revoke | auth/tokenService.js:27-29 | the store's delete-by-token computes the revoked collection |
| TokenService.RefreshTokenStore.Verify | auth/tokenService.js:31-37 | the store's lookup, with deletion of an expired record, computes the verification specification |
| RefreshRoutes.Exchange | auth/refreshRoutes.js:7-27 | `/token` computes its specification: the reply and the refresh-token collection afterwards |
| RefreshRoutes.ExchangeRefusesInvalid | auth/refreshRoutes.js:8-11 | 401 "Invalid refresh token" exactly when verification finds no live record and no fault applies; an absent or empty token is refused before any store call, so a verification fault cannot turn it into a 500; only the lazy expiry deletion has changed the collection |
| RefreshRoutes.ExchangeUserMissing | auth/refreshRoutes.js:12-13 | 401 "User not found" exactly when the owner is gone, and the token stays |
| RefreshRoutes.ExchangeRotates | auth/refreshRoutes.js:15-22 | a success removes the presented live token, appends one 30-day record for the same owner with the new token, and signs an access token for that owner |
| RefreshRoutes.ExchangeIssues | auth/refreshRoutes.js:7-22 | a valid refresh token whose user exists, with no store fault, yields a new token pair whose refresh token is the one generated from the given bytes |
| RefreshRoutes.ExchangeReplayRejected | auth/refreshRoutes.js:15 | after a success, presenting the old token again is refused at any later time |
| RefreshRoutes.ExchangeSaveFailureLosesToken | auth/refreshRoutes.js:15-26 | when the save of the new token throws, the old token is already revoked and the answer is 500 |
| RefreshRoutes.ExchangeFailures | auth/refreshRoutes.js:8-26 | every refusal is one of the two 401s or "Server error"; a verification fault on a non-empty token answers 500 and changes nothing |
| RefreshRoutes.RevokeRoute | auth/refreshRoutes.js:30-38 | `/revoke` computes its specification: the reply and the collection afterwards |
| RefreshRoutes.RevokeRouteRepeat | auth/refreshRoutes.js:30-38 | `/revoke` answers `{ revoked: true }` unless the delete throws; with one record per token a second call changes nothing, and no record with the token remains |
| BearerAuth.MakeGate | db/orgModel.js:36 | a gate is built exactly when the secret is a non-empty string |
| BearerAuth.CredentialInHeader | db/orgModel.js:40 | the credential is the header after its 7-character `Bearer ` prefix, without the whitespace run at its start and the whitespace at its end |
| BearerAuth.GateDecision | db/orgModel.js:35-54 | the full decision table: each refusal message exactly in its case, and a pass exactly when the token verifies and carries an id and a `luser`, which become `req.user` |
| BearerAuth.CredentialIgnoresPadding | db/orgModel.js:40 | any whitespace before and any whitespace after the credential is ignored |
| BearerAuth.TrimPadding | db/orgModel.js:40 | trimming removes independent whitespace padding on the left and on the right of a trimmed text |
| BearerAuth.TrimStartPadding | db/orgModel.js:40 | trimming the start removes leading whitespace and nothing more |
| BearerAuth.TrimEndPadding | db/orgModel.js:40 | trimming the end removes trailing whitespace and nothing more |
| BearerAuth.AccessTokenPasses | db/profileModel.js:55-78 | an access token for an account with a public id passes a gate built with the same secret for its whole lifetime |
| BearerAuth.AccountTokenPasses | app.js:206-208 | the `/register` and `/login` token passes the profile and organisation gates for 24 hours |
| BearerAuth.TokenWithoutLuserRefused | db/orgModel.js:46 | a token without a public id is refused with the "reauthenticate" message |
| TypeModel.TypeStore.EnsureDefaultTypes | db/typeModel.js:22-51 | seeding computes its specification, including the early stop on a failing store call |
| TypeModel.FoundIffCovers | db/typeModel.js:41-42 | `findOne` with a default's filter finds a record exactly when some record matches it by code or name |
| TypeModel.SeedFromAppends | db/typeModel.js:40-45 | the per-default loop only appends defaults, at most one per remaining default, keeping existing records in order |
| TypeModel.SeedKeepsExisting | db/typeModel.js:22-51 | seeding never changes or removes a record, and appends only defaults |
| TypeModel.SeedFromCovers | db/typeModel.js:40-45 | after the loop, every default from its position on is matched by code or name |
| TypeModel.SeedFromKeepsCovered | db/typeModel.js:40-45 | a default matched before the loop is still matched after it, whatever store call fails |
| TypeModel.CoversKept | db/typeModel.js:41 | a record matching a default by code or name stays when records are only appended |
| TypeModel.SeedCovers | db/typeModel.js:22-51 | a run without failure leaves every default matched by some record |
| TypeModel.SeedFromCovered | db/typeModel.js:40-45 | the loop inserts nothing when every default is already matched |
| TypeModel.SeedIdempotent | db/typeModel.js:22-51 | a second seeding inserts nothing, and an empty collection receives exactly the five defaults |
| OrgModel.OrgSetter | db/orgModel.js:10-28 | trimmed paths are trimmed, `is_open` is Boolean-cast, every other value is kept |
| OrgModel.OrgIds | db/orgModel.js:92 | the ids `exists({ org_id })` finds are exactly the stored `org_id` values |
| OrgModel.DistinctCount | db/orgModel.js:60-61 | the distinct ids found number at most the list's length, and equal it exactly when the list has no repeats and every entry is found |
| OrgModel.VerifySpecialtiesList | db/orgModel.js:57-62 | a list passes exactly when it has no repeated entry and every entry names a type; otherwise the error is "One or more specialties not found" |
| OrgModel.NumberOrZero | db/orgModel.js:110-111 | the result is a number: a number is kept, `true` gives 1, `false` and a missing value give 0 |
| OrgModel.OrgView | db/orgModel.js:121-124 | the view keeps `_id`, `org_id`, `owner_id` and `owner_user_id`; it always has a truthy image URL, is the document when it has one, and keeps every other path |
| OrgModel.ApplyOrgUpdate | db/orgModel.js:154-161 | an owner's update succeeds exactly when the body's `specialties` pass the check (or it has none) and the whitelisted overlay satisfies the schema; a success stores that overlay, and a failure is the specialties error or a 500 |
| OrgModel.UpdateOrgOwnerSucceeds | db/orgModel.js:145-166 | the owner of an existing organisation, with a valid update, gets the overlaid organisation back in its view, and only that organisation is replaced |
| OrgModel.GetOrgById | db/orgModel.js:127-134 | a missing id is an error; otherwise the view of the organisation with that `_id`, or nothing when none has it |
| OrgModel.OrgStore.OrgIdTaken | db/orgModel.js:92 | `exists` is true exactly when some organisation has that `org_id` |
| OrgModel.OrgStore.CreateOrg | db/orgModel.js:72-125 | `createOrg` computes its specification: the reply, the organisations and the accounts afterwards |
| OrgModel.OrgStore.AllocateOrgId | db/orgModel.js:89-95 | the `org_id` loop returns the 10-draw allocation against the stored ids |
| OrgModel.OrgStore.StoreNew | db/orgModel.js:114-124 | the save and the owner write-back compute the store step's specification |
| OrgModel.OrgStore.UpdateOrg | db/orgModel.js:145-166 | `updateOrg` computes its specification |
| OrgModel.OrgStore.DeleteOrg | db/orgModel.js:168-178 | `deleteOrg` computes its specification |
| OrgModel.CreateOrgRefusals | db/orgModel.js:73-84 | the unauthenticated, nameless and ownerless refusals each occur exactly in their case; a refused specialty list is an error; a refusal before the save changes nothing |
| OrgModel.CreateOrgExhausted | db/orgModel.js:89-95 | "Failed to generate unique org_id" exactly when all ten candidates are taken |
| OrgModel.StoreNewOrgOutcome | db/orgModel.js:114-124 | an invalid document changes nothing; a valid one is appended, and a success returns its view; the owner gets the `org_id` only when it had none, and the accounts stay consistent |
| OrgModel.CreateOrgReachesStore | db/orgModel.js:72-114 | a success passed every gate, and stores the document built from the payload, the owner and the allocated id |
| OrgModel.CreateOrgAllocates | db/orgModel.js:89-123 | a created organisation is appended with a fresh public `org_id`, the caller as owner and the owner's public id, and its view is returned |
| OrgModel.CreateOrgKeepsDistinct | db/orgModel.js:72-125 | given an `_id` not yet in use, creation keeps the organisation `_id`s distinct |
| OrgModel.CreateOrgWriteBack | db/orgModel.js:116-120 | the owner receives the new `org_id` only when it had none, and the accounts stay consistent |
| OrgModel.UpdateOrgOwnerOnly | db/orgModel.js:146-152 | an update changes nothing unless it succeeds, succeeds only for the owner of an existing organisation, and refuses a non-owner exactly when it is one |
| OrgModel.UpdateOrgFrame | db/orgModel.js:156-161 | a success changes one organisation, and in it only the whitelisted paths the body carries |
| OrgModel.DeleteOrgOwnerOnly | db/orgModel.js:168-178 | a delete succeeds only for the owner, removes exactly that organisation, and otherwise changes nothing |
| ProfileModel.EmailValidMeansPattern | db/profileModel.js:20 | the validator accepts exactly a falsy address or text matching `^[^\s@]+@[^\s@]+\.[^\s@]+$` |
| ProfileModel.AcceptedMatchesPattern | db/profileModel.js:20 | the direct decision procedure implies the pattern |
| ProfileModel.PatternIsAccepted | db/profileModel.js:20 | the pattern implies the direct decision procedure |
| ProfileModel.PatternCharacters | db/profileModel.js:20 | a pattern match has no whitespace and exactly one '@' |
| ProfileModel.ProfileSetter | db/profileModel.js:8-30 | `email` is trimmed and lower-cased, other trimmed paths are trimmed, `is_available` is Boolean-cast, anything else is kept |
| ProfileModel.LowerKeepsEnds | db/profileModel.js:17-18 | lower-casing a trimmed text keeps it trimmed |
| ProfileModel.LowerOfLower | db/profileModel.js:18 | lower-casing a text without upper-case letters changes nothing |
| ProfileModel.EmailSetterNormalizes | db/profileModel.js:15-19 | a stored address is trimmed and has no upper-case letter, and setting it again changes nothing |
| ProfileModel.ProfileView | db/profileModel.js:105-107 | the view keeps `_id` and `user`; it always has a truthy image URL, is the document when it has one, and keeps every other path |
| ProfileModel.VerifyOrg | db/profileModel.js:47-52 | an org passes exactly when it is falsy or names a stored organisation; a text that names none gets "Organization not found" |
| ProfileModel.ApplyProfileUpdate | db/profileModel.js:146-151 | an update succeeds exactly when the whitelisted overlay satisfies the schema, and yields that overlay |
| ProfileModel.GetProfile | db/profileModel.js:112-119 | a missing id gets "Missing user id"; otherwise the view of that account's profile, or nothing when it has none |
| ProfileModel.LookupByPublicId | db/profileModel.js:124-131 | the result is the view of the first profile of the first account with that public id; it is nothing exactly when there is no such account or that account has no profile |
| ProfileModel.AccountFound | db/profileModel.js:125-126 | `findOne({ user_id })` finds the first account with that public id, and finds nothing exactly when no account has it |
| ProfileModel.ProfileFound | db/profileModel.js:127 | `findOne({ user })` finds the first profile of that account, and finds nothing exactly when it has none |
| ProfileModel.GetProfileByUserIdAsWritten | db/profileModel.js:122-132 | the code as written: a falsy public id is a 500 |
| ProfileModel.GetProfileByUserId | db/profileModel.js:122-132 | the guard corrected: a falsy public id gets "Missing user id"; otherwise the view of the first account's profile, and null exactly when there is no such account or it has no profile |
| ProfileModel.EmptyPublicIdAnswers | db/profileModel.js:123 | an empty public id gets 500 as written and 400 as intended; on every other id the two agree |
| ProfileModel.ProfileStore.CreateProfile | db/profileModel.js:81-109 | `createProfile` computes its specification |
| ProfileModel.ProfileStore.UpdateProfile | db/profileModel.js:135-156 | `updateProfile` computes its specification |
| ProfileModel.ProfileStore.DeleteProfile | db/profileModel.js:159-170 | `deleteProfile` computes its specification |
| ProfileModel.CreateProfileRefusals | db/profileModel.js:82-90 | each refusal (no caller, another account's user, profile already exists) occurs exactly in its case, and no refusal changes anything |
| ProfileModel.CreateProfileAppends | db/profileModel.js:92-108 | a created profile belongs to the caller, who had none; it is appended and returned in its view |
| ProfileModel.CreateProfileKeepsDistinct | db/profileModel.js:81-109 | given an `_id` not yet in use, creation keeps the profile `_id`s distinct |
| ProfileModel.CreateProfileKeepsUnique | db/profileModel.js:10 | creation keeps at most one profile per account |
| ProfileModel.UpdateProfileSelfOnly | db/profileModel.js:136-149 | an update changes nothing unless it succeeds and succeeds only on the caller's own existing profile; 401 not authenticated, 400 missing target and 401 another user's profile each occur exactly in their case, a rejected `org` gives its own error on the caller's own target, and 400 "Profile not found" occurs exactly when the caller's own profile is missing |
| ProfileModel.UpdateProfileFrame | db/profileModel.js:146-151 | a success changes one profile, and in it only the whitelisted paths the body carries |
| ProfileModel.UpdateProfileKeepsUnique | db/profileModel.js:10 | updates keep at most one profile per account |
| ProfileModel.DeleteProfileSelfOnly | db/profileModel.js:159-170 | a delete succeeds only on the caller's own profile, removes exactly it, leaves the account without one, and otherwise changes nothing |
| ProfileModel.ViewsHaveImage | db/profileModel.js:112-132 | every profile view handed out carries a non-empty image URL |

## Left out

- HTTP plumbing is not modelled: Express routing, body parsing, the CORS headers (app.js:44-59), the cookies set by the refresh route, the status codes chosen by the router factories `createOrgRouter` and `createProfileRouter`, and the `err` objects in 500 bodies.
- The database connection is not part of this model (`db/dbConnect.js`). Each store call is one atomic step on an in-memory sequence, and concurrent requests are not modelled. The check-then-write races are therefore not captured: `ensureUserId`, the `org_id` loop and the rotation in `/token`.
- The `./auth` module used at app.js:10 and app.js:201 is not part of this model, and neither are the `/free-endpoint` and `/auth-endpoint` routes.
- The refresh router is not mounted in app.js. Its two routes are modelled as stand-alone handlers.
- bcrypt is a caller-supplied hash function and match predicate. Salting and the asynchronous hashing failure are left out; only a missing password is modelled as a hash failure.
- JSON Web Tokens are abstract records carrying their claims and the secret. The compact encoding, the HMAC and base64 are left out. A header becomes a token through a caller-supplied decoder.
- `jwt.sign` throwing is left out. The "User created but failed to issue token" answer (app.js:109) is therefore not reachable in the model.
- `Math.random`, `crypto.randomBytes` and `Date.now()` are parameters.
- Floating-point numbers are represented by their integer part.
- Mongoose casts are modelled only for Boolean paths. ObjectId casting is not modelled: any text is accepted as an `_id`, and the model has no malformed-id errors. Strings are not cast from numbers or booleans on text paths.
- OrgModel.NumberOrZero: `Number(text)` and `Number(array)` are not parsed; text and a list become 0, because numeric parsing of strings is outside the model.
- RefreshRoutes.Exchange, RefreshRoutes.RevokeRoute and TokenService.VerifyRefresh take the presented refresh token as text or absent. A JSON object in `refreshToken`, such as `{"$ne": ""}`, is truthy and reaches `findOne({ token })` and `deleteOne({ token })` as a query operator that matches any record (auth/tokenService.js:27-37, auth/refreshRoutes.js:8-17). Such operator values are not modelled, so neither is the rotation of another account's record that they allow.
- Store calls that throw are not modelled in `App`, `UserModel`, `OrgModel` and `ProfileModel`. The answers this drops:
  - `/login` answers 404 "Email not found" when its `findOne` rejects (app.js:187-191);
  - `exists` or `save` throwing inside `ensureUserId` answers 500 "Failed to ensure user_id" at `/login` (app.js:155, 174-176) and 500 "Failed to generate user_id" at `/register` (app.js:78-83);
  - the second save of `/register` throwing answers 500 "Error creating user" (app.js:111-116);
  - an organisation or profile store call that throws answers 500.
- `populate` is left out. An organisation view carries the specialty ids, not the populated type documents, and a profile view carries the `org` id, not the organisation's name. `toObject` is modelled as the whole document, identity paths included.
- The `createdAt`/`updatedAt` timestamps of types, organisations and profiles are left out. The `createdAt` of refresh tokens is modelled.
- `listOrgs` (db/orgModel.js:136-143) is left out. It is a read-only listing of `OrgView` over the collection.
- Common.ToLowerAscii: only ASCII letters are lower-cased, because Unicode case mapping is outside the model.
- ProfileModel.CreateProfileSpec compares `payload.user` to the caller as text. A non-text value is treated as naming another account.
- App.LoginSpec: an absent email matches only accounts without an email. The driver may instead drop an `undefined` filter and match the first account.
- Specialties sent as a non-empty text are treated as a cast error (500). A 24-digit hexadecimal text that MongoDB would cast to one ObjectId is not distinguished.

## Findings

| source | as written | input that shows it | evidently intended | confidence | as-written member | corrected member |
|---|---|---|---|---|---|---|
| db/profileModel.js:123 | the guard of `getProfileByUserId` throws `BadRequest`, an identifier that is not defined, so a ReferenceError reaches the client as 500 | a direct call `getProfileByUserId("")` or `getProfileByUserId(undefined)`; the mounted route `/by-userid/:userId` cannot reach the guard, because Express matches only a non-empty segment there, and `GET /profiles/by-userid/` goes to `/:userId` instead | `throw BadRequestError('Missing user id')`, answering 400 like `getProfile` | not executed; high | ProfileModel.GetProfileByUserIdAsWritten | ProfileModel.GetProfileByUserId |

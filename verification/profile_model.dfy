/**
 * Profiles: one per account, with an optional e-mail address that is trimmed,
 * lower-cased and checked against a pattern on save.  Creation, update and
 * deletion are allowed only on the caller's own profile, and an update copies
 * only whitelisted paths.  `_id` values are strings supplied by the caller;
 * errors without an HTTP status reach the client as 500.
 */
module ProfileModel {
  import opened Common
  import opened UserModel

  /** A profile document: its `_id`, the owning account's `_id`, and the other paths. */
  datatype Profile = Profile(pid: string, user: string, fields: map<string, Value>)

  const MissingPayloadUser: Failure := Failure(400, "Missing user id in payload")
  const OtherUserCreate: Failure := Failure(401, "Cannot create profile for another user")
  const OrganizationNotFound: Failure := Failure(400, "Organization not found")
  const ProfileExists: Failure := Failure(400, "Profile already exists for this user")
  const MissingUserId: Failure := Failure(400, "Missing user id")
  const MissingTargetId: Failure := Failure(400, "Missing target user id")
  const OtherUserUpdate: Failure := Failure(401, "Cannot update another user profile")
  const OtherUserDelete: Failure := Failure(401, "Cannot delete another user profile")
  const ProfileNotFound: Failure := Failure(400, "Profile not found")

  const ProfilePlaceholder: string := "https://via.placeholder.com/150"

  /** The paths `createProfile` copies from the body (besides `user` and `is_available`). */
  const CreateKeys: seq<string> := ["password", "firstName", "lastName", "title", "email", "phone", "org"]

  /** The paths `updateProfile` may copy from a request body. */
  const ProfileAllowed: seq<string> := ["password", "firstName", "lastName", "title", "email", "phone",
                                        "is_available", "org"]

  /** The string paths declared with `trim: true`. */
  const ProfileTrimmed: seq<string> := ["firstName", "lastName", "title", "email", "phone", "profile_image_url"]

  // ---------------------------------------------------------------------------
  // The e-mail validator
  // ---------------------------------------------------------------------------

  /** One run of `[^\s@]+`: non-empty, without whitespace and without '@'. */
  predicate EmailPart(x: string) {
    |x| > 0 && forall k :: 0 <= k < |x| ==> !IsWhitespace(x[k]) && x[k] != '@'
  }

  /** The pattern `^[^\s@]+@[^\s@]+\.[^\s@]+$`: some '@' at `i` and some later
      '.' at `j` cut the text into three runs. */
  predicate EmailPattern(s: string) {
    exists i, j :: 0 <= i < j < |s| && s[i] == '@' && s[j] == '.'
                   && EmailPart(s[..i]) && EmailPart(s[i + 1..j]) && EmailPart(s[j + 1..])
  }

  predicate IsAt(c: char) {
    c == '@'
  }

  /** A direct decision of the pattern: no whitespace, a single '@' that is
      not the first character, and a '.' strictly inside the domain. */
  predicate EmailAccepted(s: string) {
    NoWhitespace(s)
    && match FirstIndex(s, IsAt)
       case None => false
       case Some(i) => 0 < i && '@' !in s[i + 1..] && i + 3 <= |s| && '.' in s[i + 2..|s| - 1]
  }

  /** The schema validator `v => !v || pattern.test(v)`; a value that is not
      text never matches. */
  predicate EmailValid(v: Value) {
    !ValueTruthy(v) || (v.Text? && EmailAccepted(v.s))
  }

  lemma AcceptedMatchesPattern(s: string)
    requires EmailAccepted(s)
    ensures EmailPattern(s)
  {
    var i := FirstIndex(s, IsAt).value;
    var inner := s[i + 2..|s| - 1];
    var m :| 0 <= m < |inner| && inner[m] == '.';
    var j := i + 2 + m;
    assert s[j] == inner[m];
    var domain := s[i + 1..];
    assert forall k :: 0 <= k < |domain| ==> domain[k] != '@';
    var local, host, top := s[..i], s[i + 1..j], s[j + 1..];
    assert EmailPart(local) by {
      forall k | 0 <= k < |local| ensures !IsWhitespace(local[k]) && local[k] != '@' {
        assert !IsAt(s[k]);
      }
    }
    assert EmailPart(host) by {
      forall k | 0 <= k < |host| ensures !IsWhitespace(host[k]) && host[k] != '@' {
        assert host[k] == domain[k];
      }
    }
    assert EmailPart(top) by {
      forall k | 0 <= k < |top| ensures !IsWhitespace(top[k]) && top[k] != '@' {
        assert top[k] == domain[k + j - i];
      }
    }
  }

  /** Every character of a text cut into three runs at `i` and `j` is a run
      character, '@' at `i` or '.' at `j`. */
  lemma PatternCharacters(s: string, i: nat, j: nat)
    requires i < j < |s| && s[i] == '@' && s[j] == '.'
    requires EmailPart(s[..i]) && EmailPart(s[i + 1..j]) && EmailPart(s[j + 1..])
    ensures NoWhitespace(s)
    ensures forall k :: 0 <= k < |s| && k != i ==> s[k] != '@'
  {
    var local, host, top := s[..i], s[i + 1..j], s[j + 1..];
    forall k | 0 <= k < |s| ensures !IsWhitespace(s[k]) && (k != i ==> s[k] != '@') {
      if k < i {
        assert s[k] == local[k];
      } else if i < k < j {
        assert s[k] == host[k - i - 1];
      } else if j < k {
        assert s[k] == top[k - j - 1];
      }
    }
  }

  lemma PatternIsAccepted(s: string)
    requires EmailPattern(s)
    ensures EmailAccepted(s)
  {
    var i, j :| 0 <= i < j < |s| && s[i] == '@' && s[j] == '.'
                && EmailPart(s[..i]) && EmailPart(s[i + 1..j]) && EmailPart(s[j + 1..]);
    PatternCharacters(s, i, j);
    FirstIndexAt(s, IsAt, i);
    DomainHasDot(s, i, j);
  }

  /** After the only '@', at `i`, the domain has no '@', and a '.' at `j`
      with a character on each side lies strictly inside it. */
  lemma DomainHasDot(s: string, i: nat, j: nat)
    requires i + 2 <= j && j + 1 < |s| && s[j] == '.'
    requires forall k :: 0 <= k < |s| && k != i ==> s[k] != '@'
    ensures '@' !in s[i + 1..] && '.' in s[i + 2..|s| - 1]
  {
    var domain := s[i + 1..];
    assert forall k :: 0 <= k < |domain| ==> domain[k] == s[k + i + 1];
    var inner := s[i + 2..|s| - 1];
    assert inner[j - i - 2] == '.';
  }

  /** The validator accepts exactly the missing or empty address and the
      addresses the pattern matches. */
  lemma EmailValidMeansPattern(v: Value)
    ensures EmailValid(v) <==> !ValueTruthy(v) || (v.Text? && EmailPattern(v.s))
  {
    if v.Text? {
      if EmailAccepted(v.s) { AcceptedMatchesPattern(v.s); }
      if EmailPattern(v.s) { PatternIsAccepted(v.s); }
    }
  }

  // ---------------------------------------------------------------------------
  // Schema: setters and validators
  // ---------------------------------------------------------------------------

  /** The schema's setters: `email` is trimmed and lower-cased, the other
      trimmed paths are trimmed, `is_available` is cast to a Boolean. */
  function ProfileSetter(key: string, v: Value): (r: Value)
    ensures key == "email" && v.Text? ==> r == Text(ToLowerAscii(Trim(v.s)))
    ensures key != "email" && key in ProfileTrimmed && v.Text? ==> r == Text(Trim(v.s))
    ensures key == "is_available" ==> r == BooleanCast(v)
    ensures key !in ProfileTrimmed && key != "is_available" ==> r == v
  {
    if key == "is_available" then BooleanCast(v)
    else if key == "email" && v.Text? then Text(ToLowerAscii(Trim(v.s)))
    else if key in ProfileTrimmed && v.Text? then Text(Trim(v.s))
    else v
  }

  /** A whitespace character is not an upper-case ASCII letter. */
  lemma LowerKeepsEnds(s: string)
    requires EndsTrimmed(s)
    ensures EndsTrimmed(ToLowerAscii(s))
  {
    if s != [] {
      var r := ToLowerAscii(s);
      assert !('A' <= s[0] <= 'Z') ==> r[0] == s[0];
      assert !('A' <= s[|s| - 1] <= 'Z') ==> r[|s| - 1] == s[|s| - 1];
    }
  }

  lemma LowerOfLower(s: string)
    requires NoUpperAscii(s)
    ensures ToLowerAscii(s) == s
  {
  }

  /** A stored address is trimmed and has no upper-case letter, and setting
      it again stores it unchanged. */
  lemma EmailSetterNormalizes(s: string)
    ensures ProfileSetter("email", Text(s)).Text?
    ensures var e := ProfileSetter("email", Text(s)).s;
            EndsTrimmed(e) && NoUpperAscii(e)
            && ProfileSetter("email", Text(e)) == Text(e)
  {
    var t := Trim(s);
    var e := ToLowerAscii(t);
    EmailSetterText(s);
    EmailSetterText(e);
    LowerKeepsEnds(t);
    TrimOfTrimmed(e);
    LowerOfLower(e);
  }

  lemma EmailSetterText(s: string)
    ensures ProfileSetter("email", Text(s)) == Text(ToLowerAscii(Trim(s)))
  {
  }

  /** `required: true` on a String path: a missing value or an empty string
      fails; numbers and flags are cast to non-empty strings. */
  predicate RequiredText(v: Value) {
    match v
    case Null => false
    case Text(s) => s != ""
    case Flag(_) => true
    case Number(_) => true
    case IdList(_) => false
  }

  /** What saving a profile validates. */
  predicate ProfileSchemaValid(p: Profile) {
    p.user != "" && RequiredText(Field(p.fields, "password")) && EmailValid(Field(p.fields, "email"))
    && (Field(p.fields, "is_available").Null? || Field(p.fields, "is_available").Flag?)
  }

  /** The paths of a new profile built from a request body: the copied paths
      present in the body through the setters, and `!!is_available`. */
  function BuildProfileFields(payload: map<string, Value>): map<string, Value> {
    Overlay(map["is_available" := Flag(ValueTruthy(Field(payload, "is_available")))], payload, CreateKeys, ProfileSetter)
  }

  /** The object returned to the client (`toObject`): every path of the
      document, `_id` and `user` included, with the image URL falling back to
      a placeholder. */
  function ProfileView(p: Profile): (view: Profile)
    ensures view.pid == p.pid && view.user == p.user
    ensures "profile_image_url" in view.fields && ValueTruthy(view.fields["profile_image_url"])
    ensures ValueTruthy(Field(p.fields, "profile_image_url")) ==> view == p
    ensures forall k :: k != "profile_image_url" ==>
              (k in view.fields <==> k in p.fields) && (k in view.fields ==> view.fields[k] == p.fields[k])
  {
    if ValueTruthy(Field(p.fields, "profile_image_url")) then p
    else p.(fields := p.fields["profile_image_url" := Text(ProfilePlaceholder)])
  }

  function HasUser(user: string): (Profile -> bool) {
    (p: Profile) => p.user == user
  }

  function HasPid(pid: string): (Profile -> bool) {
    (p: Profile) => p.pid == pid
  }

  /** The unique index on `user`: at most one profile per account. */
  predicate UniqueUsers(ps: seq<Profile>) {
    forall i, j :: 0 <= i < j < |ps| ==> ps[i].user != ps[j].user
  }

  /** The `_id` of every profile is distinct. */
  predicate DistinctPids(ps: seq<Profile>) {
    forall i, j :: 0 <= i < j < |ps| ==> ps[i].pid != ps[j].pid
  }

  // ---------------------------------------------------------------------------
  // Operations
  // ---------------------------------------------------------------------------

  /** `verifyOrg(orgId)`: a truthy id must name a stored organisation;
      `orgOids` holds the organisations' `_id` values. */
  function VerifyOrg(org: Value, orgOids: set<string>): (r: Result<bool, Failure>)
    ensures r.Ok? <==> !ValueTruthy(org) || (org.Text? && org.s in orgOids)
    ensures r.Err? ==> r.error == (if org.Text? then OrganizationNotFound else InternalError)
  {
    if !ValueTruthy(org) then Ok(true)
    else if org.Text? then (if org.s in orgOids then Ok(true) else Err(OrganizationNotFound))
    else Err(InternalError)
  }

  /** `createProfile(authUserId, payload)`: the result and the profiles afterwards. */
  function CreateProfileSpec(ps: seq<Profile>, auth: Option<string>, payload: map<string, Value>,
                             orgOids: set<string>, newPid: string): (Result<Profile, Failure>, seq<Profile>)
  {
    if !Truthy(auth) then (Err(NotAuthenticated), ps)
    else if !ValueTruthy(Field(payload, "user")) then (Err(MissingPayloadUser), ps)
    else if Field(payload, "user") != Text(auth.value) then (Err(OtherUserCreate), ps)
    else match VerifyOrg(Field(payload, "org"), orgOids)
      case Err(f) => (Err(f), ps)
      case Ok(_) =>
        if FirstIndex(ps, HasUser(auth.value)).Some? then (Err(ProfileExists), ps)
        else
          var doc := Profile(newPid, auth.value, BuildProfileFields(payload));
          if !ProfileSchemaValid(doc) then (Err(InternalError), ps)
          else (Ok(ProfileView(doc)), ps + [doc])
  }

  /** The copy of whitelisted paths into profile `p` and the validators of `save()`. */
  function ApplyProfileUpdate(p: Profile, update: map<string, Value>): (r: Result<Profile, Failure>)
    ensures r.Ok? <==> ProfileSchemaValid(p.(fields := Overlay(p.fields, update, ProfileAllowed, ProfileSetter)))
    ensures r.Ok? ==> r.value == p.(fields := Overlay(p.fields, update, ProfileAllowed, ProfileSetter))
    ensures r.Err? ==> r.error == InternalError
  {
    var q := p.(fields := Overlay(p.fields, update, ProfileAllowed, ProfileSetter));
    if ProfileSchemaValid(q) then Ok(q) else Err(InternalError)
  }

  /** `updateProfile(targetUserId, authUserId, update)`: the result and the profiles afterwards. */
  function UpdateProfileSpec(ps: seq<Profile>, target: Option<string>, auth: Option<string>,
                             update: map<string, Value>, orgOids: set<string>)
    : (Result<Profile, Failure>, seq<Profile>)
  {
    if !Truthy(auth) then (Err(NotAuthenticated), ps)
    else if !Truthy(target) then (Err(MissingTargetId), ps)
    else if auth.value != target.value then (Err(OtherUserUpdate), ps)
    else match VerifyOrg(Field(update, "org"), orgOids)
      case Err(f) => (Err(f), ps)
      case Ok(_) =>
        match FirstIndex(ps, HasUser(target.value))
        case None => (Err(ProfileNotFound), ps)
        case Some(k) =>
          match ApplyProfileUpdate(ps[k], update)
          case Err(f) => (Err(f), ps)
          case Ok(p) => (Ok(ProfileView(p)), ps[k := p])
  }

  /** `deleteProfile(targetUserId, authUserId)`: the result and the profiles afterwards. */
  function DeleteProfileSpec(ps: seq<Profile>, target: Option<string>, auth: Option<string>)
    : (Result<bool, Failure>, seq<Profile>)
  {
    if !Truthy(auth) then (Err(NotAuthenticated), ps)
    else if !Truthy(target) then (Err(MissingTargetId), ps)
    else if auth.value != target.value then (Err(OtherUserDelete), ps)
    else match FirstIndex(ps, HasUser(target.value))
      case None => (Err(ProfileNotFound), ps)
      case Some(k) => (Ok(true), DeleteOne(ps, HasPid(ps[k].pid)))
  }

  /** `getProfile(targetUserId)`: the view of the account's profile, or nothing. */
  function GetProfile(ps: seq<Profile>, target: Option<string>): (r: Result<Option<Profile>, Failure>)
    ensures r.Err? <==> !Truthy(target)
    ensures r.Err? ==> r.error == MissingUserId
    ensures r == Ok(None) <==> Truthy(target) && forall i :: 0 <= i < |ps| ==> ps[i].user != target.value
    ensures r.Ok? && r.value.Some? ==>
              exists i :: 0 <= i < |ps| && ps[i].user == target.value && r.value.value == ProfileView(ps[i])
  {
    if !Truthy(target) then Err(MissingUserId)
    else match FirstIndex(ps, HasUser(target.value))
      case None => Ok(None)
      case Some(k) => Ok(Some(ProfileView(ps[k])))
  }

  function HasUserId(publicId: string): (User -> bool) {
    (u: User) => u.userId == Some(publicId)
  }

  /** `i` is the first account, in natural order, with public id `publicId`. */
  predicate FirstAccount(us: seq<User>, publicId: string, i: int) {
    0 <= i < |us| && us[i].userId == Some(publicId) && forall j :: 0 <= j < i ==> us[j].userId != Some(publicId)
  }

  /** `k` is the first profile, in natural order, of the account `oid`. */
  predicate FirstProfile(ps: seq<Profile>, oid: string, k: int) {
    0 <= k < |ps| && ps[k].user == oid && forall m :: 0 <= m < k ==> ps[m].user != oid
  }

  /** The two lookups of `getProfileByUserId`: the account with public id
      `publicId`, then that account's profile. */
  function LookupByPublicId(us: seq<User>, ps: seq<Profile>, publicId: string): (r: Option<Profile>)
    ensures r.Some? ==> exists i, k :: 0 <= i < |us| && 0 <= k < |ps| && us[i].userId == Some(publicId)
                                      && ps[k].user == us[i].oid && r.value == ProfileView(ps[k])
    ensures r.None? <==> forall i :: FirstAccount(us, publicId, i) ==> forall k :: 0 <= k < |ps| ==> ps[k].user != us[i].oid
    ensures forall i, k :: FirstAccount(us, publicId, i) && FirstProfile(ps, us[i].oid, k) ==> r == Some(ProfileView(ps[k]))
  {
    AccountFound(us, publicId);
    match FirstIndex(us, HasUserId(publicId))
    case None => None
    case Some(i) =>
      ProfileFound(ps, us[i].oid);
      match FirstIndex(ps, HasUser(us[i].oid))
      case None => None
      case Some(k) => Some(ProfileView(ps[k]))
  }

  /** `User.findOne({ user_id })` finds the first account with that public id, if any. */
  lemma AccountFound(us: seq<User>, publicId: string)
    ensures FirstIndex(us, HasUserId(publicId)).None? ==> forall i :: !FirstAccount(us, publicId, i)
    ensures FirstIndex(us, HasUserId(publicId)).Some? ==>
              forall i :: FirstAccount(us, publicId, i) <==> i == FirstIndex(us, HasUserId(publicId)).value
  {
    match FirstIndex(us, HasUserId(publicId))
    case None =>
    case Some(i) =>
      assert HasUserId(publicId)(us[i]);
  }

  /** `Profile.findOne({ user })` finds the first profile of that account, if any. */
  lemma ProfileFound(ps: seq<Profile>, oid: string)
    ensures FirstIndex(ps, HasUser(oid)).None? ==> forall k :: 0 <= k < |ps| ==> ps[k].user != oid
    ensures FirstIndex(ps, HasUser(oid)).Some? ==>
              forall k :: FirstProfile(ps, oid, k) <==> k == FirstIndex(ps, HasUser(oid)).value
  {
    match FirstIndex(ps, HasUser(oid))
    case None =>
      forall k | 0 <= k < |ps| ensures ps[k].user != oid {
        assert !HasUser(oid)(ps[k]);
      }
    case Some(k) =>
      assert HasUser(oid)(ps[k]);
  }

  /** `getProfileByUserId(publicUserId)` as written: its guard throws an
      undefined name, so an empty id surfaces as a 500. */
  function GetProfileByUserIdAsWritten(us: seq<User>, ps: seq<Profile>, publicId: Option<string>)
    : (r: Result<Option<Profile>, Failure>)
    ensures r.Err? <==> !Truthy(publicId)
    ensures r.Err? ==> r.error == InternalError
  {
    if !Truthy(publicId) then Err(InternalError)
    else Ok(LookupByPublicId(us, ps, publicId.value))
  }

  /** `getProfileByUserId(publicUserId)` with the guard raising the 400 that
      `getProfile` raises. */
  function GetProfileByUserId(us: seq<User>, ps: seq<Profile>, publicId: Option<string>)
    : (r: Result<Option<Profile>, Failure>)
    ensures r.Err? <==> !Truthy(publicId)
    ensures r.Err? ==> r.error == MissingUserId
    ensures r.Ok? && r.value.Some? ==>
              exists i, k :: 0 <= i < |us| && 0 <= k < |ps| && us[i].userId == publicId
                             && ps[k].user == us[i].oid && r.value.value == ProfileView(ps[k])
    ensures r == Ok(None) <==>
              Truthy(publicId)
              && forall i :: FirstAccount(us, publicId.value, i) ==> forall k :: 0 <= k < |ps| ==> ps[k].user != us[i].oid
    ensures Truthy(publicId) ==>
              forall i, k :: FirstAccount(us, publicId.value, i) && FirstProfile(ps, us[i].oid, k) ==>
                r == Ok(Some(ProfileView(ps[k])))
  {
    if !Truthy(publicId) then Err(MissingUserId)
    else Ok(LookupByPublicId(us, ps, publicId.value))
  }

  /** The profile collection. */
  class ProfileStore {
    var profiles: seq<Profile>

    constructor (initial: seq<Profile>)
      ensures profiles == initial
    {
      profiles := initial;
    }

    /** `createProfile(authUserId, payload)`; `newPid` is the new document's `_id`. */
    method CreateProfile(auth: Option<string>, payload: map<string, Value>, orgOids: set<string>, newPid: string)
      returns (r: Result<Profile, Failure>)
      modifies this
      ensures r == CreateProfileSpec(old(profiles), auth, payload, orgOids, newPid).0
      ensures profiles == CreateProfileSpec(old(profiles), auth, payload, orgOids, newPid).1
    {
      if !Truthy(auth) {
        return Err(NotAuthenticated);
      }
      var user := Field(payload, "user");
      if !ValueTruthy(user) {
        return Err(MissingPayloadUser);
      }
      if user != Text(auth.value) {
        return Err(OtherUserCreate);
      }
      var org := VerifyOrg(Field(payload, "org"), orgOids);
      if org.Err? {
        return Err(org.error);
      }
      var existing := FirstIndex(profiles, HasUser(auth.value));
      if existing.Some? {
        return Err(ProfileExists);
      }
      var doc := Profile(newPid, auth.value, BuildProfileFields(payload));
      if !ProfileSchemaValid(doc) {
        return Err(InternalError);
      }
      profiles := profiles + [doc];
      r := Ok(ProfileView(doc));
    }

    /** `updateProfile(targetUserId, authUserId, update)`. */
    method UpdateProfile(target: Option<string>, auth: Option<string>, update: map<string, Value>,
                         orgOids: set<string>) returns (r: Result<Profile, Failure>)
      modifies this
      ensures r == UpdateProfileSpec(old(profiles), target, auth, update, orgOids).0
      ensures profiles == UpdateProfileSpec(old(profiles), target, auth, update, orgOids).1
    {
      if !Truthy(auth) {
        return Err(NotAuthenticated);
      }
      if !Truthy(target) {
        return Err(MissingTargetId);
      }
      if auth.value != target.value {
        return Err(OtherUserUpdate);
      }
      var org := VerifyOrg(Field(update, "org"), orgOids);
      if org.Err? {
        return Err(org.error);
      }
      var k := FirstIndex(profiles, HasUser(target.value));
      if k.None? {
        return Err(ProfileNotFound);
      }
      var profile := profiles[k.value];
      var fields := CopyAllowed(profile.fields, update, ProfileAllowed, ProfileSetter);
      profile := profile.(fields := fields);
      if !ProfileSchemaValid(profile) {
        return Err(InternalError);
      }
      profiles := profiles[k.value := profile];
      r := Ok(ProfileView(profile));
    }

    /** `deleteProfile(targetUserId, authUserId)`. */
    method DeleteProfile(target: Option<string>, auth: Option<string>) returns (r: Result<bool, Failure>)
      modifies this
      ensures r == DeleteProfileSpec(old(profiles), target, auth).0
      ensures profiles == DeleteProfileSpec(old(profiles), target, auth).1
    {
      if !Truthy(auth) {
        return Err(NotAuthenticated);
      }
      if !Truthy(target) {
        return Err(MissingTargetId);
      }
      if auth.value != target.value {
        return Err(OtherUserDelete);
      }
      var k := FirstIndex(profiles, HasUser(target.value));
      if k.None? {
        return Err(ProfileNotFound);
      }
      profiles := DeleteOne(profiles, HasPid(profiles[k.value].pid));
      r := Ok(true);
    }
  }

  // ---------------------------------------------------------------------------
  // Properties
  // ---------------------------------------------------------------------------

  /** `createProfile` refuses a caller without an id, a body naming another
      account and an account that already has a profile, each with its own
      error, and no refusal changes anything. */
  lemma CreateProfileRefusals(ps: seq<Profile>, auth: Option<string>, payload: map<string, Value>,
                              orgOids: set<string>, newPid: string)
    ensures CreateProfileSpec(ps, auth, payload, orgOids, newPid).0.Err? ==>
              CreateProfileSpec(ps, auth, payload, orgOids, newPid).1 == ps
    ensures CreateProfileSpec(ps, auth, payload, orgOids, newPid).0 == Err(NotAuthenticated) <==> !Truthy(auth)
    ensures CreateProfileSpec(ps, auth, payload, orgOids, newPid).0 == Err(OtherUserCreate) <==>
              Truthy(auth) && ValueTruthy(Field(payload, "user")) && Field(payload, "user") != Text(auth.value)
    ensures CreateProfileSpec(ps, auth, payload, orgOids, newPid).0 == Err(ProfileExists) <==>
              Truthy(auth) && Field(payload, "user") == Text(auth.value)
              && VerifyOrg(Field(payload, "org"), orgOids).Ok?
              && exists i :: 0 <= i < |ps| && ps[i].user == auth.value
  {
    if Truthy(auth) {
      match FirstIndex(ps, HasUser(auth.value)) {
        case None =>
        case Some(k) => assert HasUser(auth.value)(ps[k]);
      }
    }
  }

  /** A created profile belongs to the caller, is appended to the collection
      and is returned in its client view. */
  lemma CreateProfileAppends(ps: seq<Profile>, auth: Option<string>, payload: map<string, Value>,
                             orgOids: set<string>, newPid: string)
    requires CreateProfileSpec(ps, auth, payload, orgOids, newPid).0.Ok?
    ensures Truthy(auth) && Field(payload, "user") == Text(auth.value)
    ensures forall i :: 0 <= i < |ps| ==> ps[i].user != auth.value
    ensures var ps' := CreateProfileSpec(ps, auth, payload, orgOids, newPid).1;
            ps' == ps + [Profile(newPid, auth.value, BuildProfileFields(payload))]
            && ProfileSchemaValid(ps'[|ps|])
            && CreateProfileSpec(ps, auth, payload, orgOids, newPid).0.value == ProfileView(ps'[|ps|])
  {
  }

  /** Creation keeps at most one profile per account. */
  lemma CreateProfileKeepsUnique(ps: seq<Profile>, auth: Option<string>, payload: map<string, Value>,
                                 orgOids: set<string>, newPid: string)
    requires UniqueUsers(ps)
    ensures UniqueUsers(CreateProfileSpec(ps, auth, payload, orgOids, newPid).1)
  {
    if CreateProfileSpec(ps, auth, payload, orgOids, newPid).0.Ok? {
      CreateProfileAppends(ps, auth, payload, orgOids, newPid);
    }
  }

  /** With a fresh `_id` for the new document, `createProfile` keeps the `_id`s distinct. */
  lemma CreateProfileKeepsDistinct(ps: seq<Profile>, auth: Option<string>, payload: map<string, Value>,
                                   orgOids: set<string>, newPid: string)
    requires DistinctPids(ps) && forall i :: 0 <= i < |ps| ==> ps[i].pid != newPid
    ensures DistinctPids(CreateProfileSpec(ps, auth, payload, orgOids, newPid).1)
  {
    var ps' := CreateProfileSpec(ps, auth, payload, orgOids, newPid).1;
    if ps' != ps {
      CreateProfileAppends(ps, auth, payload, orgOids, newPid);
      forall i, j | 0 <= i < j < |ps'| ensures ps'[i].pid != ps'[j].pid {
        assert ps'[i] == ps[i];
      }
    }
  }

  /** `updateProfile` changes nothing unless it succeeds, and it succeeds only
      for the caller's own, existing profile. */
  lemma UpdateProfileSelfOnly(ps: seq<Profile>, target: Option<string>, auth: Option<string>,
                              update: map<string, Value>, orgOids: set<string>)
    ensures UpdateProfileSpec(ps, target, auth, update, orgOids).0.Err? ==>
              UpdateProfileSpec(ps, target, auth, update, orgOids).1 == ps
    ensures UpdateProfileSpec(ps, target, auth, update, orgOids).0.Ok? ==>
              Truthy(auth) && target == auth && exists i :: 0 <= i < |ps| && ps[i].user == auth.value
    ensures UpdateProfileSpec(ps, target, auth, update, orgOids).0 == Err(OtherUserUpdate) <==>
              Truthy(auth) && Truthy(target) && auth.value != target.value
    ensures UpdateProfileSpec(ps, target, auth, update, orgOids).0 == Err(ProfileNotFound) <==>
              Truthy(auth) && target == auth && VerifyOrg(Field(update, "org"), orgOids).Ok?
              && forall i :: 0 <= i < |ps| ==> ps[i].user != auth.value
    ensures UpdateProfileSpec(ps, target, auth, update, orgOids).0 == Err(NotAuthenticated) <==> !Truthy(auth)
    ensures UpdateProfileSpec(ps, target, auth, update, orgOids).0 == Err(MissingTargetId) <==>
              Truthy(auth) && !Truthy(target)
    ensures Truthy(auth) && target == auth && VerifyOrg(Field(update, "org"), orgOids).Err? ==>
              UpdateProfileSpec(ps, target, auth, update, orgOids).0 == Err(VerifyOrg(Field(update, "org"), orgOids).error)
  {
    if Truthy(auth) && target == auth {
      match FirstIndex(ps, HasUser(auth.value)) {
        case None =>
        case Some(k) => assert HasUser(auth.value)(ps[k]);
      }
    }
  }

  /** A successful update touches one profile, and within it only the
      whitelisted paths the body carries: its `_id`, its account, its image
      URL and every path off the whitelist keep their values. */
  lemma UpdateProfileFrame(ps: seq<Profile>, target: Option<string>, auth: Option<string>,
                           update: map<string, Value>, orgOids: set<string>)
    requires UpdateProfileSpec(ps, target, auth, update, orgOids).0.Ok?
    ensures var k := FirstIndex(ps, HasUser(target.value)).value;
            var ps' := UpdateProfileSpec(ps, target, auth, update, orgOids).1;
            |ps'| == |ps| && (forall j :: 0 <= j < |ps| && j != k ==> ps'[j] == ps[j])
            && ps'[k].pid == ps[k].pid && ps'[k].user == ps[k].user && ProfileSchemaValid(ps'[k])
            && (forall key :: key !in ProfileAllowed || key !in update ==>
                  (key in ps'[k].fields <==> key in ps[k].fields)
                  && (key in ps[k].fields ==> ps'[k].fields[key] == ps[k].fields[key]))
            && (forall key :: key in ProfileAllowed && key in update ==>
                  key in ps'[k].fields && ps'[k].fields[key] == ProfileSetter(key, update[key]))
  {
    var k := FirstIndex(ps, HasUser(target.value)).value;
    OverlayFrame(ps[k].fields, update, ProfileAllowed, ProfileSetter);
  }

  /** Updates keep at most one profile per account. */
  lemma UpdateProfileKeepsUnique(ps: seq<Profile>, target: Option<string>, auth: Option<string>,
                                 update: map<string, Value>, orgOids: set<string>)
    requires UniqueUsers(ps)
    ensures UniqueUsers(UpdateProfileSpec(ps, target, auth, update, orgOids).1)
  {
    if UpdateProfileSpec(ps, target, auth, update, orgOids).0.Ok? {
      UpdateProfileFrame(ps, target, auth, update, orgOids);
    } else {
      UpdateProfileSelfOnly(ps, target, auth, update, orgOids);
    }
  }

  /** `deleteProfile` succeeds only on the caller's own profile, removes
      exactly that profile, leaves the account without one, and otherwise
      changes nothing. */
  lemma DeleteProfileSelfOnly(ps: seq<Profile>, target: Option<string>, auth: Option<string>)
    requires DistinctPids(ps) && UniqueUsers(ps)
    ensures DeleteProfileSpec(ps, target, auth).0.Err? ==> DeleteProfileSpec(ps, target, auth).1 == ps
    ensures DeleteProfileSpec(ps, target, auth).0 == Err(ProfileNotFound) <==>
              Truthy(auth) && target == auth && forall i :: 0 <= i < |ps| ==> ps[i].user != auth.value
    ensures DeleteProfileSpec(ps, target, auth).0.Ok? ==>
              DeleteProfileSpec(ps, target, auth).0.value && Truthy(auth) && target == auth
              && exists k :: 0 <= k < |ps| && ps[k].user == auth.value
                             && DeleteProfileSpec(ps, target, auth).1 == RemoveAt(ps, k)
    ensures DeleteProfileSpec(ps, target, auth).0.Ok? ==>
              forall j :: 0 <= j < |DeleteProfileSpec(ps, target, auth).1| ==>
                DeleteProfileSpec(ps, target, auth).1[j].user != auth.value
  {
    if Truthy(auth) && target == auth {
      match FirstIndex(ps, HasUser(auth.value)) {
        case None =>
        case Some(k) =>
          assert HasUser(auth.value)(ps[k]);
          forall j | 0 <= j < k ensures !HasPid(ps[k].pid)(ps[j]) {
          }
          FirstIndexAt(ps, HasPid(ps[k].pid), k);
          var r := RemoveAt(ps, k);
          forall j | 0 <= j < |r| ensures r[j].user != auth.value {
            if j < k { assert r[j] == ps[j]; } else { assert r[j] == ps[j + 1]; }
          }
      }
    }
  }

  /** Every profile view handed out carries a non-empty image URL. */
  lemma ViewsHaveImage(us: seq<User>, ps: seq<Profile>, publicId: Option<string>, target: Option<string>)
    ensures var r := GetProfile(ps, target);
            r.Ok? && r.value.Some? ==>
              "profile_image_url" in r.value.value.fields && ValueTruthy(r.value.value.fields["profile_image_url"])
    ensures var r := GetProfileByUserId(us, ps, publicId);
            r.Ok? && r.value.Some? ==>
              "profile_image_url" in r.value.value.fields && ValueTruthy(r.value.value.fields["profile_image_url"])
  {
  }

  /** An empty public id: the code as written answers 500, the intended
      guard 400, and on every other id the two agree. */
  lemma EmptyPublicIdAnswers(us: seq<User>, ps: seq<Profile>, publicId: Option<string>)
    ensures GetProfileByUserIdAsWritten(us, ps, Some("")) == Err(Failure(500, "Internal Server Error"))
    ensures GetProfileByUserId(us, ps, Some("")) == Err(Failure(400, "Missing user id"))
    ensures Truthy(publicId) ==> GetProfileByUserIdAsWritten(us, ps, publicId) == GetProfileByUserId(us, ps, publicId)
  {
  }
}

/**
 * Organisations: the schema, the specialty check, creation with a ten-draw
 * `org_id` allocation and the write-back of that id to the owner, the
 * owner-only update of whitelisted fields, and the owner-only delete.
 * `_id` values are strings supplied by the caller; errors without an HTTP
 * status reach the client as 500.
 */
module OrgModel {
  import opened Common
  import opened PublicIds
  import opened UserModel

  /** An organisation document; the schema's optional and defaulted paths live in `fields`. */
  datatype Org = Org(oid: string, ownerId: string, ownerUserId: Option<string>, orgId: string,
                     fields: map<string, Value>)

  const MissingName: Failure := Failure(400, "Missing organization name")
  const SpecialtiesNotFound: Failure := Failure(400, "One or more specialties not found")
  const OwnerNotFound: Failure := Failure(400, "Owner user not found")
  const OrgIdsExhausted: Failure := Failure(500, "Failed to generate unique org_id")
  const MissingOrgId: Failure := Failure(400, "Missing org id")
  const OrgNotFound: Failure := Failure(400, "Org not found")
  const NotOwnerUpdate: Failure := Failure(401, "Cannot modify org you do not own")
  const NotOwnerDelete: Failure := Failure(401, "Cannot delete org you do not own")

  const OrgPlaceholder: string := "https://via.placeholder.com/300x200"

  /** The paths `updateOrg` may copy from a request body. */
  const OrgAllowed: seq<string> := ["name", "org_image_url", "specialties", "phone", "address", "city", "state",
                                    "zipcode", "is_open", "donations_needed", "donations_acquired"]

  /** The string paths declared with `trim: true`. */
  const OrgTrimmed: seq<string> := ["name", "org_image_url", "phone", "address", "city", "state", "zipcode"]

  /** The schema's setters: text on a trimmed path is trimmed and `is_open`
      is cast to a Boolean. */
  function OrgSetter(key: string, v: Value): (r: Value)
    ensures key in OrgTrimmed && v.Text? ==> r == Text(Trim(v.s))
    ensures key !in OrgTrimmed && key == "is_open" ==> r == BooleanCast(v)
    ensures key != "is_open" && !(key in OrgTrimmed && v.Text?) ==> r == v
  {
    if key in OrgTrimmed && v.Text? then Text(Trim(v.s))
    else if key == "is_open" then BooleanCast(v) else v
  }

  /** `required: true` on the string path `name`, after trimming. */
  predicate NameValid(v: Value) {
    v.Text? && v.s != ""
  }

  /** What saving an organisation validates. */
  predicate OrgSchemaValid(o: Org) {
    Truthy(o.ownerUserId) && o.orgId != "" && NameValid(Field(o.fields, "name"))
    && (Field(o.fields, "is_open").Null? || Field(o.fields, "is_open").Flag?)
  }

  /** The `_id` of every organisation is distinct. */
  predicate DistinctOids(os: seq<Org>) {
    forall i, j :: 0 <= i < j < |os| ==> os[i].oid != os[j].oid
  }

  function OrgHasOid(oid: string): (Org -> bool) {
    (o: Org) => o.oid == oid
  }

  /** The `org_id` values in use. */
  function OrgIds(os: seq<Org>): (ids: set<string>)
    ensures forall i :: 0 <= i < |os| ==> os[i].orgId in ids
    ensures forall c :: c in ids ==> exists i :: 0 <= i < |os| && os[i].orgId == c
  {
    set i | 0 <= i < |os| :: os[i].orgId
  }

  /** The number of distinct listed ids that name an existing type (`countDocuments({ _id: { $in: ids } })`). */
  function CountFound(ids: seq<string>, typeIds: set<string>): nat {
    |set x | x in ids && x in typeIds|
  }

  /** `verifySpecialties(ids)`: a missing, empty or length-less value passes
      without a lookup; a non-empty string cannot be cast to a list of ids;
      a list passes when every entry names a distinct existing type. */
  function VerifySpecialties(ids: Value, typeIds: set<string>): Result<bool, Failure> {
    match ids
    case IdList(xs) =>
      if xs == [] then Ok(true)
      else if CountFound(xs, typeIds) == |xs| then Ok(true)
      else Err(SpecialtiesNotFound)
    case Text(s) => if s == "" then Ok(true) else Err(InternalError)
    case _ => Ok(true)
  }

  /** Every entry of `xs` is in `keep`. */
  predicate AllIn(xs: seq<string>, keep: set<string>) {
    forall i :: 0 <= i < |xs| ==> xs[i] in keep
  }

  /** No entry of `xs` repeats. */
  predicate NoRepeats(xs: seq<string>) {
    forall i, j :: 0 <= i < j < |xs| ==> xs[i] != xs[j]
  }

  /** Both properties, read off the last entry and the entries before it. */
  lemma SplitLast(xs: seq<string>, keep: set<string>)
    requires xs != []
    ensures AllIn(xs, keep) <==> AllIn(xs[..|xs| - 1], keep) && xs[|xs| - 1] in keep
    ensures NoRepeats(xs) <==> NoRepeats(xs[..|xs| - 1]) && xs[|xs| - 1] !in xs[..|xs| - 1]
  {
    var init := xs[..|xs| - 1];
    assert forall i :: 0 <= i < |init| ==> init[i] == xs[i];
    if NoRepeats(xs) {
      assert xs[|xs| - 1] !in init by {
        forall i | 0 <= i < |init| ensures init[i] != xs[|xs| - 1] { assert init[i] == xs[i]; }
      }
    }
    if NoRepeats(init) && xs[|xs| - 1] !in init {
      forall i, j | 0 <= i < j < |xs| ensures xs[i] != xs[j] {
        if j < |xs| - 1 {
          assert init[i] == xs[i] && init[j] == xs[j];
        } else {
          assert init[i] == xs[i];
        }
      }
    }
  }

  /** The number of distinct elements of a sequence that lie in `keep` is at
      most its length, and equal to it exactly when every element lies in
      `keep` and no element repeats. */
  lemma {:induction false} DistinctCount(xs: seq<string>, keep: set<string>)
    ensures |set x | x in xs && x in keep| <= |xs|
    ensures |set x | x in xs && x in keep| == |xs| <==> AllIn(xs, keep) && NoRepeats(xs)
  {
    if xs != [] {
      var init := xs[..|xs| - 1];
      var last := xs[|xs| - 1];
      DistinctCount(init, keep);
      SplitLast(xs, keep);
      var s := set x | x in xs && x in keep;
      var s0 := set x | x in init && x in keep;
      assert forall x :: x in xs <==> x in init || x == last by {
        assert xs == init + [last];
      }
      if last in keep && last !in init {
        assert s == s0 + {last};
      } else {
        assert s == s0;
      }
    }
  }

  /** The specialty check refuses a list exactly when an entry names no type
      or an entry repeats. */
  lemma VerifySpecialtiesList(xs: seq<string>, typeIds: set<string>)
    ensures VerifySpecialties(IdList(xs), typeIds).Ok? <==>
              (forall i :: 0 <= i < |xs| ==> xs[i] in typeIds) && forall i, j :: 0 <= i < j < |xs| ==> xs[i] != xs[j]
    ensures VerifySpecialties(IdList(xs), typeIds).Err? ==> VerifySpecialties(IdList(xs), typeIds).error == SpecialtiesNotFound
  {
    DistinctCount(xs, typeIds);
  }

  /** The paths of a new organisation built from a request body: trimmed text,
      `specialties || []`, `!!is_open`, and donations defaulting to 0. */
  function BuildOrgFields(payload: map<string, Value>): map<string, Value> {
    map[
      "name" := OrgSetter("name", Field(payload, "name")),
      "org_image_url" := OrgSetter("org_image_url", Field(payload, "org_image_url")),
      "specialties" := if ValueTruthy(Field(payload, "specialties")) then Field(payload, "specialties") else IdList([]),
      "phone" := OrgSetter("phone", Field(payload, "phone")),
      "address" := OrgSetter("address", Field(payload, "address")),
      "city" := OrgSetter("city", Field(payload, "city")),
      "state" := OrgSetter("state", Field(payload, "state")),
      "zipcode" := OrgSetter("zipcode", Field(payload, "zipcode")),
      "is_open" := Flag(ValueTruthy(Field(payload, "is_open"))),
      "donations_needed" := NumberOrZero(Field(payload, "donations_needed")),
      "donations_acquired" := NumberOrZero(Field(payload, "donations_acquired"))
    ]
  }

  /** `Number(v) || 0` on the values the model carries: a number is kept, a
      flag becomes 1 or 0, and a missing value becomes 0. */
  function NumberOrZero(v: Value): (r: Value)
    ensures r.Number?
    ensures v.Number? ==> r == v
    ensures v.Flag? ==> r == Number(if v.b then 1 else 0)
    ensures v.Null? ==> r == Number(0)
  {
    match v
    case Number(_) => v
    case Flag(b) => if b then Number(1) else Number(0)
    case _ => Number(0)
  }

  /** The object returned to the client (`toObject`): every path of the
      document, `_id`, `org_id`, `owner_id` and `owner_user_id` included, with
      the image URL falling back to a placeholder. */
  function OrgView(o: Org): (view: Org)
    ensures view.oid == o.oid && view.orgId == o.orgId
    ensures view.ownerId == o.ownerId && view.ownerUserId == o.ownerUserId
    ensures "org_image_url" in view.fields && ValueTruthy(view.fields["org_image_url"])
    ensures ValueTruthy(Field(o.fields, "org_image_url")) ==> view == o
    ensures forall k :: k != "org_image_url" ==>
              (k in view.fields <==> k in o.fields) && (k in view.fields ==> view.fields[k] == o.fields[k])
  {
    if ValueTruthy(Field(o.fields, "org_image_url")) then o
    else o.(fields := o.fields["org_image_url" := Text(OrgPlaceholder)])
  }

  /** `createOrg(authUserId, payload)`: the result, the organisations and the accounts afterwards. */
  function CreateOrgSpec(os: seq<Org>, us: seq<User>, auth: Option<string>, payload: map<string, Value>,
                         typeIds: set<string>, draws: seq<seq<real>>, newOid: string)
    : (Result<Org, Failure>, seq<Org>, seq<User>)
    requires IsRandomSupply(draws)
  {
    if !Truthy(auth) then (Err(NotAuthenticated), os, us)
    else if !ValueTruthy(Field(payload, "name")) then (Err(MissingName), os, us)
    else match VerifySpecialties(Field(payload, "specialties"), typeIds)
      case Err(f) => (Err(f), os, us)
      case Ok(_) =>
        match FirstIndex(us, HasOid(auth.value))
        case None => (Err(OwnerNotFound), os, us)
        case Some(k) =>
          match Allocate(draws, OrgIds(os))
          case None => (Err(OrgIdsExhausted), os, us)
          case Some(c) => StoreNewOrg(os, us, k, Org(newOid, auth.value, us[k].userId, c, BuildOrgFields(payload)), draws)
  }

  /** The end of `createOrg` once the owner (at `k`) and the new document are
      known: save the document, then give the owner the `org_id` if it has none. */
  function StoreNewOrg(os: seq<Org>, us: seq<User>, k: nat, doc: Org, draws: seq<seq<real>>)
    : (Result<Org, Failure>, seq<Org>, seq<User>)
    requires k < |us| && IsRandomSupply(draws)
  {
    if !OrgSchemaValid(doc) then (Err(InternalError), os, us)
    else if Truthy(us[k].orgId) then (Ok(OrgView(doc)), os + [doc], us)
    else
      var saved := SaveSpec(us, us[k].(orgId := Some(doc.orgId)), draws);
      (if saved.0.Ok? then Ok(OrgView(doc)) else Err(InternalError), os + [doc], saved.1)
  }

  /** `updateOrg(id, authUserId, update)`: the result and the organisations afterwards. */
  function UpdateOrgSpec(os: seq<Org>, id: Option<string>, auth: Option<string>, update: map<string, Value>,
                         typeIds: set<string>): (Result<Org, Failure>, seq<Org>)
  {
    if !Truthy(auth) then (Err(NotAuthenticated), os)
    else if !Truthy(id) then (Err(MissingOrgId), os)
    else match FirstIndex(os, OrgHasOid(id.value))
      case None => (Err(OrgNotFound), os)
      case Some(k) =>
        if os[k].ownerId != auth.value then (Err(NotOwnerUpdate), os)
        else
          match ApplyOrgUpdate(os[k], update, typeIds)
          case Err(f) => (Err(f), os)
          case Ok(org) => (Ok(OrgView(org)), os[k := org])
  }

  /** The owner's update of organisation `o`: the specialties check when the
      body carries truthy `specialties`, the whitelisted copy, then the schema
      validators of `save()`. */
  function ApplyOrgUpdate(o: Org, update: map<string, Value>, typeIds: set<string>): (r: Result<Org, Failure>)
    ensures r.Ok? ==> r.value == o.(fields := Overlay(o.fields, update, OrgAllowed, OrgSetter)) && OrgSchemaValid(r.value)
    ensures r.Err? ==> r.error == InternalError
                       || (ValueTruthy(Field(update, "specialties"))
                           && VerifySpecialties(Field(update, "specialties"), typeIds) == Err(r.error))
    ensures r.Err? ==> r.error.status == 400 || r.error.status == 500
    ensures r.Ok? <==>
              (!ValueTruthy(Field(update, "specialties")) || VerifySpecialties(Field(update, "specialties"), typeIds).Ok?)
              && OrgSchemaValid(o.(fields := Overlay(o.fields, update, OrgAllowed, OrgSetter)))
  {
    var checked := if ValueTruthy(Field(update, "specialties"))
                   then VerifySpecialties(Field(update, "specialties"), typeIds) else Ok(true);
    if checked.Err? then Err(checked.error)
    else
      var org := o.(fields := Overlay(o.fields, update, OrgAllowed, OrgSetter));
      if !OrgSchemaValid(org) then Err(InternalError) else Ok(org)
  }

  /** `deleteOrg(id, authUserId)`: the result and the organisations afterwards. */
  function DeleteOrgSpec(os: seq<Org>, id: Option<string>, auth: Option<string>): (Result<bool, Failure>, seq<Org>) {
    if !Truthy(auth) then (Err(NotAuthenticated), os)
    else if !Truthy(id) then (Err(MissingOrgId), os)
    else match FirstIndex(os, OrgHasOid(id.value))
      case None => (Err(OrgNotFound), os)
      case Some(k) =>
        if os[k].ownerId != auth.value then (Err(NotOwnerDelete), os)
        else (Ok(true), DeleteOne(os, OrgHasOid(id.value)))
  }

  /** `getOrgById(id)`: the view of the organisation, or nothing. */
  function GetOrgById(os: seq<Org>, id: Option<string>): (r: Result<Option<Org>, Failure>)
    ensures r.Err? <==> !Truthy(id)
    ensures r.Ok? && r.value.Some? ==> exists k :: 0 <= k < |os| && os[k].oid == id.value && r.value.value == OrgView(os[k])
    ensures r.Ok? && r.value.None? ==> forall k :: 0 <= k < |os| ==> os[k].oid != id.value
  {
    if !Truthy(id) then Err(MissingOrgId)
    else match FirstIndex(os, OrgHasOid(id.value))
      case None => Ok(None)
      case Some(k) => Ok(Some(OrgView(os[k])))
  }

  /** The organisation collection. */
  class OrgStore {
    var orgs: seq<Org>

    constructor (initial: seq<Org>)
      ensures orgs == initial
    {
      orgs := initial;
    }

    /** `OrgModel.exists({ org_id: candidate })`. */
    function OrgIdTaken(candidate: string): (b: bool)
      reads this
      ensures b <==> candidate in OrgIds(orgs)
    {
      exists i :: 0 <= i < |orgs| && orgs[i].orgId == candidate
    }

    /** `createOrg(authUserId, payload)`; `newOid` is the new document's `_id`. */
    method CreateOrg(users: UserStore, auth: Option<string>, payload: map<string, Value>, typeIds: set<string>,
                     draws: seq<seq<real>>, newOid: string) returns (r: Result<Org, Failure>)
      requires IsRandomSupply(draws)
      modifies this, users
      ensures r == CreateOrgSpec(old(orgs), old(users.users), auth, payload, typeIds, draws, newOid).0
      ensures orgs == CreateOrgSpec(old(orgs), old(users.users), auth, payload, typeIds, draws, newOid).1
      ensures users.users == CreateOrgSpec(old(orgs), old(users.users), auth, payload, typeIds, draws, newOid).2
    {
      if !Truthy(auth) {
        return Err(NotAuthenticated);
      }
      if !ValueTruthy(Field(payload, "name")) {
        return Err(MissingName);
      }
      var checked := VerifySpecialties(Field(payload, "specialties"), typeIds);
      if checked.Err? {
        return Err(checked.error);
      }
      var k := FirstIndex(users.users, HasOid(auth.value));
      if k.None? {
        return Err(OwnerNotFound);
      }
      var candidate := AllocateOrgId(draws);
      if candidate.None? {
        return Err(OrgIdsExhausted);
      }
      r := StoreNew(users, k.value, Org(newOid, auth.value, users.users[k.value].userId, candidate.value,
                                        BuildOrgFields(payload)), draws);
    }

    /** The `org_id` loop of `createOrg`: at most ten draws, the first one not in use. */
    method AllocateOrgId(draws: seq<seq<real>>) returns (candidate: Option<string>)
      requires IsRandomSupply(draws)
      ensures candidate == Allocate(draws, OrgIds(orgs))
    {
      ghost var inUse := OrgIds(orgs);
      ghost var cands := Candidates(draws);
      AllocateOutcome(draws, inUse);
      for i := 0 to MaxAttempts
        invariant forall j :: 0 <= j < i ==> cands[j] in inUse
      {
        var c := GenerateId(draws[i]);
        assert c == cands[i];
        var taken := OrgIdTaken(c);
        if !taken {
          AllocateAt(draws, inUse, i);
          return Some(c);
        }
      }
      return None;
    }

    /** `doc.save()` and the owner write-back. */
    method StoreNew(users: UserStore, k: nat, doc: Org, draws: seq<seq<real>>) returns (r: Result<Org, Failure>)
      requires k < |users.users| && IsRandomSupply(draws)
      modifies this, users
      ensures r == StoreNewOrg(old(orgs), old(users.users), k, doc, draws).0
      ensures orgs == StoreNewOrg(old(orgs), old(users.users), k, doc, draws).1
      ensures users.users == StoreNewOrg(old(orgs), old(users.users), k, doc, draws).2
    {
      if !OrgSchemaValid(doc) {
        return Err(InternalError);
      }
      var owner := users.users[k];
      orgs := orgs + [doc];
      if !Truthy(owner.orgId) {
        var saved := users.Save(owner.(orgId := Some(doc.orgId)), draws);
        if saved.Err? {
          return Err(InternalError);
        }
      }
      r := Ok(OrgView(doc));
    }

    /** `updateOrg(id, authUserId, update)`. */
    method UpdateOrg(id: Option<string>, auth: Option<string>, update: map<string, Value>, typeIds: set<string>)
      returns (r: Result<Org, Failure>)
      modifies this
      ensures r == UpdateOrgSpec(old(orgs), id, auth, update, typeIds).0
      ensures orgs == UpdateOrgSpec(old(orgs), id, auth, update, typeIds).1
    {
      if !Truthy(auth) {
        return Err(NotAuthenticated);
      }
      if !Truthy(id) {
        return Err(MissingOrgId);
      }
      var k := FirstIndex(orgs, OrgHasOid(id.value));
      if k.None? {
        return Err(OrgNotFound);
      }
      var org := orgs[k.value];
      if org.ownerId != auth.value {
        return Err(NotOwnerUpdate);
      }
      if ValueTruthy(Field(update, "specialties")) {
        var checked := VerifySpecialties(Field(update, "specialties"), typeIds);
        if checked.Err? {
          return Err(checked.error);
        }
      }
      var fields := CopyAllowed(org.fields, update, OrgAllowed, OrgSetter);
      org := org.(fields := fields);
      if !OrgSchemaValid(org) {
        return Err(InternalError);
      }
      orgs := orgs[k.value := org];
      r := Ok(OrgView(org));
    }

    /** `deleteOrg(id, authUserId)`. */
    method DeleteOrg(id: Option<string>, auth: Option<string>) returns (r: Result<bool, Failure>)
      modifies this
      ensures r == DeleteOrgSpec(old(orgs), id, auth).0
      ensures orgs == DeleteOrgSpec(old(orgs), id, auth).1
    {
      if !Truthy(auth) {
        return Err(NotAuthenticated);
      }
      if !Truthy(id) {
        return Err(MissingOrgId);
      }
      var k := FirstIndex(orgs, OrgHasOid(id.value));
      if k.None? {
        return Err(OrgNotFound);
      }
      if orgs[k.value].ownerId != auth.value {
        return Err(NotOwnerDelete);
      }
      orgs := DeleteOne(orgs, OrgHasOid(id.value));
      r := Ok(true);
    }
  }

  /** `createOrg` refuses an unauthenticated caller and a nameless
      organisation with their own errors, and no refusal before the document
      is saved changes anything: neither those two, nor the specialties check
      (whose 500 for a non-empty text value comes before any write), nor a
      missing owner, nor exhausted `org_id` candidates. */
  lemma CreateOrgRefusals(os: seq<Org>, us: seq<User>, auth: Option<string>, payload: map<string, Value>,
                          typeIds: set<string>, draws: seq<seq<real>>, newOid: string)
    requires IsRandomSupply(draws)
    ensures CreateOrgSpec(os, us, auth, payload, typeIds, draws, newOid).0 == Err(NotAuthenticated) <==> !Truthy(auth)
    ensures CreateOrgSpec(os, us, auth, payload, typeIds, draws, newOid).0 == Err(MissingName) <==>
              Truthy(auth) && !ValueTruthy(Field(payload, "name"))
    ensures CreateOrgSpec(os, us, auth, payload, typeIds, draws, newOid).0.Err?
            && CreateOrgSpec(os, us, auth, payload, typeIds, draws, newOid).0.error != InternalError ==>
              CreateOrgSpec(os, us, auth, payload, typeIds, draws, newOid).1 == os
              && CreateOrgSpec(os, us, auth, payload, typeIds, draws, newOid).2 == us
    ensures VerifySpecialties(Field(payload, "specialties"), typeIds).Err? ==>
              CreateOrgSpec(os, us, auth, payload, typeIds, draws, newOid).0.Err?
              && CreateOrgSpec(os, us, auth, payload, typeIds, draws, newOid).1 == os
              && CreateOrgSpec(os, us, auth, payload, typeIds, draws, newOid).2 == us
    ensures CreateOrgSpec(os, us, auth, payload, typeIds, draws, newOid).0 == Err(OwnerNotFound) <==>
              Truthy(auth) && ValueTruthy(Field(payload, "name"))
              && VerifySpecialties(Field(payload, "specialties"), typeIds).Ok?
              && forall i :: 0 <= i < |us| ==> us[i].oid != auth.value
  {
    if Truthy(auth) && ValueTruthy(Field(payload, "name")) && VerifySpecialties(Field(payload, "specialties"), typeIds).Ok? {
      match FirstIndex(us, HasOid(auth.value)) {
        case None =>
        case Some(k) =>
          assert HasOid(auth.value)(us[k]);
          match Allocate(draws, OrgIds(os)) {
            case None =>
            case Some(c) =>
              StoreNewOrgOutcome(os, us, k, Org(newOid, auth.value, us[k].userId, c, BuildOrgFields(payload)), draws);
          }
      }
    }
  }

  /** `createOrg` fails for want of an `org_id` exactly when all ten candidates
      are in use, and then changes nothing. */
  lemma CreateOrgExhausted(os: seq<Org>, us: seq<User>, auth: Option<string>, payload: map<string, Value>,
                           typeIds: set<string>, draws: seq<seq<real>>, newOid: string)
    requires IsRandomSupply(draws)
    ensures CreateOrgSpec(os, us, auth, payload, typeIds, draws, newOid).0 == Err(OrgIdsExhausted) <==>
              Truthy(auth) && ValueTruthy(Field(payload, "name"))
              && VerifySpecialties(Field(payload, "specialties"), typeIds).Ok?
              && FirstIndex(us, HasOid(auth.value)).Some?
              && forall j :: 0 <= j < MaxAttempts ==> Candidates(draws)[j] in OrgIds(os)
  {
    AllocateOutcome(draws, OrgIds(os));
    if Truthy(auth) && ValueTruthy(Field(payload, "name")) && VerifySpecialties(Field(payload, "specialties"), typeIds).Ok? {
      match FirstIndex(us, HasOid(auth.value)) {
        case None =>
        case Some(k) =>
          match Allocate(draws, OrgIds(os)) {
            case None =>
            case Some(c) =>
              StoreNewOrgShape(os, us, k, Org(newOid, auth.value, us[k].userId, c, BuildOrgFields(payload)), draws);
          }
      }
    }
  }

  /** The store step of `createOrg`: a document that fails validation changes
      nothing; otherwise it is appended, even when the owner write-back that
      follows fails, and that failure is reported as a 500. */
  lemma StoreNewOrgOutcome(os: seq<Org>, us: seq<User>, k: nat, doc: Org, draws: seq<seq<real>>)
    requires k < |us| && IsRandomSupply(draws)
    ensures var r := StoreNewOrg(os, us, k, doc, draws);
            r.0.Err? ==> r.0.error == InternalError
    ensures var r := StoreNewOrg(os, us, k, doc, draws);
            !OrgSchemaValid(doc) <==> r.1 == os && r.2 == us && r.0.Err?
    ensures var r := StoreNewOrg(os, us, k, doc, draws);
            OrgSchemaValid(doc) ==> r.1 == os + [doc]
    ensures var r := StoreNewOrg(os, us, k, doc, draws);
            r.0.Ok? ==> r.0.value == OrgView(doc) && OrgSchemaValid(doc)
    ensures var r := StoreNewOrg(os, us, k, doc, draws);
            ValidUsers(us) && IsPublicId(doc.orgId) && r.0.Ok? ==>
              (Truthy(us[k].orgId) ==> r.2 == us)
              && (!Truthy(us[k].orgId) ==> r.2 == us[k := us[k].(orgId := Some(doc.orgId))])
    ensures ValidUsers(us) ==> ValidUsers(StoreNewOrg(os, us, k, doc, draws).2)
  {
    StoreNewOrgShape(os, us, k, doc, draws);
    StoreNewOrgOwner(os, us, k, doc, draws);
  }

  lemma StoreNewOrgShape(os: seq<Org>, us: seq<User>, k: nat, doc: Org, draws: seq<seq<real>>)
    requires k < |us| && IsRandomSupply(draws)
    ensures var r := StoreNewOrg(os, us, k, doc, draws);
            r.0.Err? ==> r.0.error == InternalError
    ensures var r := StoreNewOrg(os, us, k, doc, draws);
            !OrgSchemaValid(doc) <==> r.1 == os && r.2 == us && r.0.Err?
    ensures var r := StoreNewOrg(os, us, k, doc, draws);
            OrgSchemaValid(doc) ==> r.1 == os + [doc]
    ensures var r := StoreNewOrg(os, us, k, doc, draws);
            r.0.Ok? ==> r.0.value == OrgView(doc) && OrgSchemaValid(doc)
  {
    if OrgSchemaValid(doc) {
      assert os + [doc] != os by { assert |os + [doc]| != |os|; }
    }
  }

  lemma StoreNewOrgOwner(os: seq<Org>, us: seq<User>, k: nat, doc: Org, draws: seq<seq<real>>)
    requires k < |us| && IsRandomSupply(draws)
    ensures var r := StoreNewOrg(os, us, k, doc, draws);
            ValidUsers(us) && IsPublicId(doc.orgId) && r.0.Ok? ==>
              (Truthy(us[k].orgId) ==> r.2 == us)
              && (!Truthy(us[k].orgId) ==> r.2 == us[k := us[k].(orgId := Some(doc.orgId))])
    ensures ValidUsers(us) ==> ValidUsers(StoreNewOrg(os, us, k, doc, draws).2)
  {
    if OrgSchemaValid(doc) && !Truthy(us[k].orgId) {
      OwnerWriteBack(us, k, doc.orgId, draws);
    }
  }

  /** Saving the owner with the new `org_id` keeps the accounts consistent
      and, when it succeeds, changes only that account's `org_id`. */
  lemma OwnerWriteBack(us: seq<User>, k: nat, c: string, draws: seq<seq<real>>)
    requires k < |us| && IsRandomSupply(draws)
    ensures var saved := SaveSpec(us, us[k].(orgId := Some(c)), draws);
            ValidUsers(us) ==>
              ValidUsers(saved.1)
              && (saved.0.Ok? && IsPublicId(c) ==> saved.1 == us[k := us[k].(orgId := Some(c))])
  {
    if ValidUsers(us) {
      var u := us[k].(orgId := Some(c));
      SaveKeepsValid(us, u, draws);
      if IsPublicId(c) {
        assert forall j :: 0 <= j < k ==> us[j].oid != u.oid;
        PublicIdIsTrimmed(c);
        SaveExistingReplaces(us, k, u, draws);
      }
    }
  }

  /** The path of `createOrg` that reaches the store step, and the document it stores. */
  lemma CreateOrgReachesStore(os: seq<Org>, us: seq<User>, auth: Option<string>, payload: map<string, Value>,
                              typeIds: set<string>, draws: seq<seq<real>>, newOid: string)
    requires IsRandomSupply(draws)
    requires CreateOrgSpec(os, us, auth, payload, typeIds, draws, newOid).0.Ok?
    ensures Truthy(auth) && FirstIndex(us, HasOid(auth.value)).Some? && Allocate(draws, OrgIds(os)).Some?
    ensures var k := FirstIndex(us, HasOid(auth.value)).value;
            var doc := Org(newOid, auth.value, us[k].userId, Allocate(draws, OrgIds(os)).value, BuildOrgFields(payload));
            CreateOrgSpec(os, us, auth, payload, typeIds, draws, newOid) == StoreNewOrg(os, us, k, doc, draws)
  {
  }

  /** A created organisation is appended with a fresh public `org_id`, the
      caller as owner and the owner's public id, and the view returned is its view. */
  lemma CreateOrgAllocates(os: seq<Org>, us: seq<User>, auth: Option<string>, payload: map<string, Value>,
                           typeIds: set<string>, draws: seq<seq<real>>, newOid: string)
    requires IsRandomSupply(draws)
    requires CreateOrgSpec(os, us, auth, payload, typeIds, draws, newOid).0.Ok?
    ensures var os' := CreateOrgSpec(os, us, auth, payload, typeIds, draws, newOid).1;
            |os'| == |os| + 1 && os'[..|os|] == os
            && os'[|os|].oid == newOid && Some(os'[|os|].ownerId) == auth
            && IsPublicId(os'[|os|].orgId) && os'[|os|].orgId !in OrgIds(os)
            && OrgSchemaValid(os'[|os|]) && os'[|os|].fields == BuildOrgFields(payload)
            && CreateOrgSpec(os, us, auth, payload, typeIds, draws, newOid).0.value == OrgView(os'[|os|])
    ensures var os' := CreateOrgSpec(os, us, auth, payload, typeIds, draws, newOid).1;
            exists k :: 0 <= k < |us| && us[k].oid == auth.value && os'[|os|].ownerUserId == us[k].userId
  {
    CreateOrgReachesStore(os, us, auth, payload, typeIds, draws, newOid);
    AllocateOutcome(draws, OrgIds(os));
    var k := FirstIndex(us, HasOid(auth.value)).value;
    assert HasOid(auth.value)(us[k]);
    var doc := Org(newOid, auth.value, us[k].userId, Allocate(draws, OrgIds(os)).value, BuildOrgFields(payload));
    StoreNewOrgOutcome(os, us, k, doc, draws);
    assert (os + [doc])[..|os|] == os;
  }

  /** With a fresh `_id` for the new document, `createOrg` keeps the `_id`s
      distinct: the collection is unchanged or gains one document with that `_id`. */
  lemma CreateOrgKeepsDistinct(os: seq<Org>, us: seq<User>, auth: Option<string>, payload: map<string, Value>,
                               typeIds: set<string>, draws: seq<seq<real>>, newOid: string)
    requires IsRandomSupply(draws)
    requires DistinctOids(os) && forall i :: 0 <= i < |os| ==> os[i].oid != newOid
    ensures DistinctOids(CreateOrgSpec(os, us, auth, payload, typeIds, draws, newOid).1)
  {
    if Truthy(auth) && ValueTruthy(Field(payload, "name")) && VerifySpecialties(Field(payload, "specialties"), typeIds).Ok? {
      match FirstIndex(us, HasOid(auth.value)) {
        case None =>
        case Some(k) =>
          match Allocate(draws, OrgIds(os)) {
            case None =>
            case Some(c) =>
              var doc := Org(newOid, auth.value, us[k].userId, c, BuildOrgFields(payload));
              StoreNewOrgShape(os, us, k, doc, draws);
              AppendFreshOid(os, doc);
          }
      }
    }
  }

  /** Appending a document whose `_id` no stored document has keeps the `_id`s distinct. */
  lemma AppendFreshOid(os: seq<Org>, doc: Org)
    requires DistinctOids(os) && forall i :: 0 <= i < |os| ==> os[i].oid != doc.oid
    ensures DistinctOids(os + [doc])
  {
    var os' := os + [doc];
    forall i, j | 0 <= i < j < |os'| ensures os'[i].oid != os'[j].oid {
      assert os'[i] == os[i];
    }
  }

  /** The owner receives the new `org_id` only when it had none; a collection
      of consistent accounts stays consistent. */
  lemma CreateOrgWriteBack(os: seq<Org>, us: seq<User>, auth: Option<string>, payload: map<string, Value>,
                           typeIds: set<string>, draws: seq<seq<real>>, newOid: string)
    requires IsRandomSupply(draws)
    requires ValidUsers(us)
    requires CreateOrgSpec(os, us, auth, payload, typeIds, draws, newOid).0.Ok?
    ensures Truthy(auth) && FirstIndex(us, HasOid(auth.value)).Some?
    ensures var k := FirstIndex(us, HasOid(auth.value)).value;
            var r := CreateOrgSpec(os, us, auth, payload, typeIds, draws, newOid);
            (Truthy(us[k].orgId) ==> r.2 == us)
            && (!Truthy(us[k].orgId) ==> r.2 == us[k := us[k].(orgId := Some(r.1[|os|].orgId))])
    ensures ValidUsers(CreateOrgSpec(os, us, auth, payload, typeIds, draws, newOid).2)
  {
    CreateOrgReachesStore(os, us, auth, payload, typeIds, draws, newOid);
    AllocateOutcome(draws, OrgIds(os));
    var k := FirstIndex(us, HasOid(auth.value)).value;
    var doc := Org(newOid, auth.value, us[k].userId, Allocate(draws, OrgIds(os)).value, BuildOrgFields(payload));
    StoreNewOrgOutcome(os, us, k, doc, draws);
    assert (os + [doc])[|os|] == doc;
  }

  /** `updateOrg` changes nothing unless it succeeds, and it succeeds only for
      the owner of an existing organisation. */
  lemma UpdateOrgOwnerOnly(os: seq<Org>, id: Option<string>, auth: Option<string>, update: map<string, Value>,
                           typeIds: set<string>)
    ensures UpdateOrgSpec(os, id, auth, update, typeIds).0.Err? ==> UpdateOrgSpec(os, id, auth, update, typeIds).1 == os
    ensures UpdateOrgSpec(os, id, auth, update, typeIds).0.Ok? ==>
              Truthy(auth) && Truthy(id)
              && exists k :: 0 <= k < |os| && os[k].oid == id.value && os[k].ownerId == auth.value
    ensures UpdateOrgSpec(os, id, auth, update, typeIds).0 == Err(NotOwnerUpdate) <==>
              Truthy(auth) && Truthy(id) && FirstIndex(os, OrgHasOid(id.value)).Some?
              && os[FirstIndex(os, OrgHasOid(id.value)).value].ownerId != auth.value
  {
    UpdateOrgFailureKeeps(os, id, auth, update, typeIds);
    UpdateOrgSuccessOwned(os, id, auth, update, typeIds);
    UpdateOrgNotOwner(os, id, auth, update, typeIds);
  }

  lemma UpdateOrgFailureKeeps(os: seq<Org>, id: Option<string>, auth: Option<string>, update: map<string, Value>,
                              typeIds: set<string>)
    ensures UpdateOrgSpec(os, id, auth, update, typeIds).0.Err? ==> UpdateOrgSpec(os, id, auth, update, typeIds).1 == os
  {
  }

  lemma UpdateOrgSuccessOwned(os: seq<Org>, id: Option<string>, auth: Option<string>, update: map<string, Value>,
                              typeIds: set<string>)
    ensures UpdateOrgSpec(os, id, auth, update, typeIds).0.Ok? ==>
              Truthy(auth) && Truthy(id)
              && exists k :: 0 <= k < |os| && os[k].oid == id.value && os[k].ownerId == auth.value
  {
    if Truthy(auth) && Truthy(id) && FirstIndex(os, OrgHasOid(id.value)).Some? {
      var k := FirstIndex(os, OrgHasOid(id.value)).value;
      assert OrgHasOid(id.value)(os[k]);
    }
  }

  lemma UpdateOrgNotOwner(os: seq<Org>, id: Option<string>, auth: Option<string>, update: map<string, Value>,
                          typeIds: set<string>)
    ensures UpdateOrgSpec(os, id, auth, update, typeIds).0 == Err(NotOwnerUpdate) <==>
              Truthy(auth) && Truthy(id) && FirstIndex(os, OrgHasOid(id.value)).Some?
              && os[FirstIndex(os, OrgHasOid(id.value)).value].ownerId != auth.value
  {
    if Truthy(auth) && Truthy(id) && FirstIndex(os, OrgHasOid(id.value)).Some? {
      var k := FirstIndex(os, OrgHasOid(id.value)).value;
      var r := ApplyOrgUpdate(os[k], update, typeIds);
      assert r.Err? ==> r.error.status != NotOwnerUpdate.status;
    }
  }

  /** The owner's update of a stored organisation succeeds when its specialties
      check passes and the overlay satisfies the schema: the organisation is
      replaced in place by the overlay, whose view is returned. */
  lemma UpdateOrgOwnerSucceeds(os: seq<Org>, k: nat, auth: Option<string>, update: map<string, Value>,
                               typeIds: set<string>)
    requires DistinctOids(os) && k < |os| && Truthy(auth) && os[k].ownerId == auth.value && os[k].oid != ""
    requires !ValueTruthy(Field(update, "specialties")) || VerifySpecialties(Field(update, "specialties"), typeIds).Ok?
    requires OrgSchemaValid(os[k].(fields := Overlay(os[k].fields, update, OrgAllowed, OrgSetter)))
    ensures var org := os[k].(fields := Overlay(os[k].fields, update, OrgAllowed, OrgSetter));
            UpdateOrgSpec(os, Some(os[k].oid), auth, update, typeIds) == (Ok(OrgView(org)), os[k := org])
  {
    FirstIndexAt(os, OrgHasOid(os[k].oid), k);
  }

  /** A successful update touches one organisation, and within it only the
      whitelisted paths the body carries: its identity, owner and `org_id`
      and every other path keep their values. */
  lemma UpdateOrgFrame(os: seq<Org>, id: Option<string>, auth: Option<string>, update: map<string, Value>,
                       typeIds: set<string>)
    requires UpdateOrgSpec(os, id, auth, update, typeIds).0.Ok?
    ensures var k := FirstIndex(os, OrgHasOid(id.value)).value;
            var os' := UpdateOrgSpec(os, id, auth, update, typeIds).1;
            |os'| == |os| && (forall j :: 0 <= j < |os| && j != k ==> os'[j] == os[j])
            && os'[k].oid == os[k].oid && os'[k].ownerId == os[k].ownerId
            && os'[k].ownerUserId == os[k].ownerUserId && os'[k].orgId == os[k].orgId
            && (forall key :: key !in OrgAllowed || key !in update ==>
                  (key in os'[k].fields <==> key in os[k].fields)
                  && (key in os[k].fields ==> os'[k].fields[key] == os[k].fields[key]))
            && (forall key :: key in OrgAllowed && key in update ==>
                  key in os'[k].fields && os'[k].fields[key] == OrgSetter(key, update[key]))
  {
    var k := FirstIndex(os, OrgHasOid(id.value)).value;
    OverlayFrame(os[k].fields, update, OrgAllowed, OrgSetter);
  }

  /** `deleteOrg` succeeds only for the owner, removes exactly that
      organisation (its `_id` is unique), and otherwise changes nothing. */
  lemma DeleteOrgOwnerOnly(os: seq<Org>, id: Option<string>, auth: Option<string>)
    requires DistinctOids(os)
    ensures DeleteOrgSpec(os, id, auth).0.Err? ==> DeleteOrgSpec(os, id, auth).1 == os
    ensures DeleteOrgSpec(os, id, auth).0.Ok? ==>
              DeleteOrgSpec(os, id, auth).0.value
              && exists k :: 0 <= k < |os| && os[k].oid == id.value && os[k].ownerId == auth.value
                             && DeleteOrgSpec(os, id, auth).1 == RemoveAt(os, k)
    ensures DeleteOrgSpec(os, id, auth).0.Ok? ==>
              forall j :: 0 <= j < |DeleteOrgSpec(os, id, auth).1| ==> DeleteOrgSpec(os, id, auth).1[j].oid != id.value
  {
    if Truthy(auth) && Truthy(id) {
      match FirstIndex(os, OrgHasOid(id.value)) {
        case None =>
        case Some(k) =>
          assert OrgHasOid(id.value)(os[k]);
          var r := RemoveAt(os, k);
          forall j | 0 <= j < |r| ensures r[j].oid != id.value {
            if j < k { assert r[j] == os[j]; } else { assert r[j] == os[j + 1]; }
          }
      }
    }
  }
}

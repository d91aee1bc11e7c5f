/**
 * Specialty types and the start-up seeding that makes sure the five default
 * types exist.  A store call that throws is named by a fault parameter; the
 * seeding catches every failure, so a fault only stops it early.
 */
module TypeModel {
  import opened Common

  /** A type document: its trimmed name and its optional numeric code. */
  datatype TypeRecord = TypeRecord(name: string, code: Option<int>)

  /** Which store call throws during seeding, if any. */
  datatype SeedFault = NoFault | CountFails | InsertManyFails | StepFails(step: nat)

  /** The five default types, in seeding order. */
  const Defaults: seq<TypeRecord> := [
    TypeRecord("Case Management", Some(3)),
    TypeRecord("Food", Some(4)),
    TypeRecord("Housing", Some(2)),
    TypeRecord("Grant", Some(1)),
    TypeRecord("Spiritual", Some(5))
  ]

  /** The filter `{ $or: [{ code: d.code }, { name: d.name }] }`. */
  function MatchesDefault(d: TypeRecord): (TypeRecord -> bool) {
    (r: TypeRecord) => r.code == d.code || r.name == d.name
  }

  /** Some record of `rs` matches the filter of `d`: what `findOne` finds. */
  predicate Covers(rs: seq<TypeRecord>, d: TypeRecord) {
    exists i :: 0 <= i < |rs| && MatchesDefault(d)(rs[i])
  }

  /** `findOne` with the filter of `d` finds a record exactly when one matches. */
  lemma FoundIffCovers(rs: seq<TypeRecord>, d: TypeRecord)
    ensures FirstIndex(rs, MatchesDefault(d)).Some? <==> Covers(rs, d)
  {
    if FirstIndex(rs, MatchesDefault(d)).Some? {
      assert MatchesDefault(d)(rs[FirstIndex(rs, MatchesDefault(d)).value]);
    }
  }

  /** The loop over the defaults `ds` from position `i` on, stopping at the step that throws. */
  function SeedFrom(rs: seq<TypeRecord>, ds: seq<TypeRecord>, i: nat, fault: SeedFault): seq<TypeRecord>
    requires i <= |ds|
    decreases |ds| - i
  {
    if i == |ds| || fault == StepFails(i) then rs
    else if Covers(rs, ds[i]) then SeedFrom(rs, ds, i + 1, fault)
    else SeedFrom(rs + [ds[i]], ds, i + 1, fault)
  }

  /** `ensureDefaultTypes` on the collection `rs`: the collection afterwards. */
  function Seed(rs: seq<TypeRecord>, fault: SeedFault): seq<TypeRecord> {
    if fault == CountFails then rs
    else if |rs| == 0 then (if fault == InsertManyFails then rs else Defaults)
    else SeedFrom(rs, Defaults, 0, fault)
  }

  /** The Type collection. */
  class TypeStore {
    var types: seq<TypeRecord>

    constructor (initial: seq<TypeRecord>)
      ensures types == initial
    {
      types := initial;
    }

    /** `ensureDefaultTypes()`: insert all defaults into an empty collection,
        otherwise insert each default no record matches by code or name;
        a failure ends the run without propagating. */
    method EnsureDefaultTypes(fault: SeedFault)
      modifies this
      ensures types == Seed(old(types), fault)
    {
      if fault == CountFails {
        return;
      }
      if |types| == 0 {
        if fault != InsertManyFails {
          types := Defaults;
        }
        return;
      }
      for i := 0 to |Defaults|
        invariant SeedFrom(types, Defaults, i, fault) == Seed(old(types), fault)
      {
        if fault == StepFails(i) {
          return;
        }
        var exists_ := FirstIndex(types, MatchesDefault(Defaults[i]));
        FoundIffCovers(types, Defaults[i]);
        if exists_.None? {
          types := types + [Defaults[i]];
        }
      }
    }
  }

  /** The loop only ever appends defaults: existing records are neither
      changed nor removed, their order is kept, and at most one record per
      remaining default is added. */
  lemma {:induction false} SeedFromAppends(rs: seq<TypeRecord>, ds: seq<TypeRecord>, i: nat, fault: SeedFault)
    requires i <= |ds|
    ensures |rs| <= |SeedFrom(rs, ds, i, fault)| <= |rs| + |ds| - i
    ensures SeedFrom(rs, ds, i, fault)[..|rs|] == rs
    ensures forall j :: |rs| <= j < |SeedFrom(rs, ds, i, fault)| ==> SeedFrom(rs, ds, i, fault)[j] in ds
    decreases |ds| - i
  {
    if i == |ds| || fault == StepFails(i) {
    } else if Covers(rs, ds[i]) {
      SeedFromAppends(rs, ds, i + 1, fault);
    } else {
      var rs' := rs + [ds[i]];
      SeedFromAppends(rs', ds, i + 1, fault);
      var r := SeedFrom(rs', ds, i + 1, fault);
      assert r[..|rs|] == r[..|rs'|][..|rs|];
      assert r[|rs|] == r[..|rs'|][|rs|];
    }
  }

  /** Seeding never changes or removes a record, and appends only defaults. */
  lemma SeedKeepsExisting(rs: seq<TypeRecord>, fault: SeedFault)
    ensures |Seed(rs, fault)| >= |rs| && Seed(rs, fault)[..|rs|] == rs
    ensures forall j :: |rs| <= j < |Seed(rs, fault)| ==> Seed(rs, fault)[j] in Defaults
  {
    if fault != CountFails && |rs| > 0 {
      SeedFromAppends(rs, Defaults, 0, fault);
    }
  }

  /** A record matching `d` stays when records are only appended. */
  lemma CoversKept(rs: seq<TypeRecord>, r: seq<TypeRecord>, d: TypeRecord)
    requires |rs| <= |r| && r[..|rs|] == rs && Covers(rs, d)
    ensures Covers(r, d)
  {
    var m :| 0 <= m < |rs| && MatchesDefault(d)(rs[m]);
    assert r[m] == r[..|rs|][m];
  }

  /** The loop keeps every default covered that was covered before it ran. */
  lemma SeedFromKeepsCovered(rs: seq<TypeRecord>, ds: seq<TypeRecord>, i: nat, fault: SeedFault, d: TypeRecord)
    requires i <= |ds| && Covers(rs, d)
    ensures Covers(SeedFrom(rs, ds, i, fault), d)
  {
    SeedFromAppends(rs, ds, i, fault);
    CoversKept(rs, SeedFrom(rs, ds, i, fault), d);
  }

  /** A run of the loop without failure leaves every default from `i` on covered. */
  lemma {:induction false} SeedFromCovers(rs: seq<TypeRecord>, ds: seq<TypeRecord>, i: nat)
    requires i <= |ds|
    ensures forall k :: i <= k < |ds| ==> Covers(SeedFrom(rs, ds, i, NoFault), ds[k])
    decreases |ds| - i
  {
    if i < |ds| {
      var d := ds[i];
      var rs' := rs + [d];
      var r := SeedFrom(rs, ds, i, NoFault);
      if Covers(rs, d) {
        assert r == SeedFrom(rs, ds, i + 1, NoFault);
        SeedFromCovers(rs, ds, i + 1);
        SeedFromKeepsCovered(rs, ds, i + 1, NoFault, d);
      } else {
        assert r == SeedFrom(rs', ds, i + 1, NoFault);
        SeedFromCovers(rs', ds, i + 1);
        assert Covers(rs', d) by { assert MatchesDefault(d)(rs'[|rs|]); }
        SeedFromKeepsCovered(rs', ds, i + 1, NoFault, d);
      }
      assert Covers(r, ds[i]);
    }
  }

  /** After a run without failure every default has a matching record. */
  lemma SeedCovers(rs: seq<TypeRecord>)
    ensures forall k :: 0 <= k < |Defaults| ==> Covers(Seed(rs, NoFault), Defaults[k])
  {
    if |rs| == 0 {
      forall k | 0 <= k < |Defaults| ensures Covers(Defaults, Defaults[k]) {
        assert MatchesDefault(Defaults[k])(Defaults[k]);
      }
    } else {
      SeedFromCovers(rs, Defaults, 0);
    }
  }

  /** On a collection that already covers every default from `i` on, the loop inserts nothing. */
  lemma {:induction false} SeedFromCovered(rs: seq<TypeRecord>, ds: seq<TypeRecord>, i: nat)
    requires i <= |ds|
    requires forall k :: i <= k < |ds| ==> Covers(rs, ds[k])
    ensures SeedFrom(rs, ds, i, NoFault) == rs
    decreases |ds| - i
  {
    if i < |ds| {
      SeedFromCovered(rs, ds, i + 1);
    }
  }

  /** Seeding is idempotent: a second run without failure inserts nothing, and
      an empty collection receives exactly the five defaults. */
  lemma SeedIdempotent(rs: seq<TypeRecord>)
    ensures Seed(Seed(rs, NoFault), NoFault) == Seed(rs, NoFault)
    ensures rs == [] ==> Seed(rs, NoFault) == Defaults
  {
    var once := Seed(rs, NoFault);
    SeedCovers(rs);
    SeedKeepsExisting(rs, NoFault);
    assert |once| > 0 by {
      if |rs| == 0 {
        assert once == Defaults;
      } else {
        assert |once| >= |rs|;
      }
    }
    SeedFromCovered(once, Defaults, 0);
  }
}

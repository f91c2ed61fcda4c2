/** Publishing a DNSRecord to a Route53 hosted zone (pkg/dns/aws/dns.go:189-330): upsert every endpoint
    of the spec, delete what the status has and the spec has not. */
module Route53 {
  import opened Options
  import opened Endpoints
  import opened Reconciler

  const REGION := "aws/region"
  const FAILOVER := "aws/failover"
  const SUBDIVISION := "aws/geolocation-subdivision-code"
  const MULTI_VALUE := "aws/multi-value-answer"
  const HEALTH_CHECK_ID := "aws/health-check-id"
  const NS := "NS"

  datatype GeoLocation = GeoLocation(country: Option<string>, continent: Option<string>, subdivision: Option<string>)

  datatype RecordKey = RecordKey(name: string, rtype: string, setIdentifier: string)

  datatype RecordSet = RecordSet(
    key: RecordKey, ttl: int, values: seq<string>, weight: Option<int>, region: Option<string>,
    failover: Option<string>, multiValue: bool, geo: Option<GeoLocation>, healthCheckId: Option<string>)

  datatype Change = Upsert(record: RecordSet) | Remove(record: RecordSet)

  type Zone = map<RecordKey, RecordSet>

  /** strconv.ParseInt, and the ISO 3166 alpha-2 table. */
  datatype Codec = Codec(parseInt: string -> Option<int>, isCountry: string -> bool)

  function KeyOf(e: Endpoint): RecordKey {
    RecordKey(e.dnsName, e.recordType, e.setIdentifier)
  }

  /** `changeForEndpoint` accepts the endpoint. */
  predicate IsSupported(e: Endpoint) {
    (e.recordType == A || e.recordType == CNAME || e.recordType == NS) && e.dnsName != "" && e.targets != []
  }

  function GeoFor(e: Endpoint, codec: Codec): Option<GeoLocation> {
    var code, sub := e.Get(GEO_CODE), e.Get(SUBDIVISION);
    var isCountry := code.Some? && (codec.isCountry(code.value) || code.value == "*");
    var country := if isCountry then code else None;
    var continent := if isCountry then None else code;
    var subdivision := if continent.None? then sub else None;
    if code.None? && subdivision.None? then None else Some(GeoLocation(country, continent, subdivision))
  }

  function RecordFor(e: Endpoint, codec: Codec): RecordSet {
    var weight := match e.Get(WEIGHT) {
      case None => None
      case Some(v) => if codec.parseInt(v).Some? then codec.parseInt(v) else Some(0)
    };
    RecordSet(KeyOf(e), e.ttl, e.targets, weight, e.Get(REGION), e.Get(FAILOVER),
      e.Get(MULTI_VALUE).Some?, GeoFor(e, codec), e.Get(HEALTH_CHECK_ID))
  }

  // ----- the change batch -----

  predicate HasId(eps: seq<Endpoint>, id: string) {
    exists i :: 0 <= i < |eps| && eps[i].SetId() == id
  }

  /** Published endpoints the spec no longer has. */
  function Stale(status: seq<Endpoint>, spec: seq<Endpoint>): seq<Endpoint> {
    if status == [] then []
    else
      var n := |status| - 1;
      Stale(status[..n], spec) + if HasId(spec, status[n].SetId()) then [] else [status[n]]
  }

  function Upserts(eps: seq<Endpoint>, codec: Codec): seq<Change> {
    if eps == [] then [] else Upserts(eps[..|eps| - 1], codec) + [Upsert(RecordFor(eps[|eps| - 1], codec))]
  }

  function Removals(eps: seq<Endpoint>, codec: Codec): seq<Change> {
    if eps == [] then [] else Removals(eps[..|eps| - 1], codec) + [Remove(RecordFor(eps[|eps| - 1], codec))]
  }

  predicate AllSupported(eps: seq<Endpoint>) {
    forall i | 0 <= i < |eps| :: IsSupported(eps[i])
  }

  function PublishBatch(spec: seq<Endpoint>, status: seq<Endpoint>, codec: Codec): Option<seq<Change>> {
    if AllSupported(spec) && AllSupported(Stale(status, spec))
    then Some(Upserts(spec, codec) + Removals(Stale(status, spec), codec)) else None
  }

  function DeleteBatch(spec: seq<Endpoint>, codec: Codec): Option<seq<Change>> {
    if AllSupported(spec) then Some(Removals(spec, codec)) else None
  }

  /** `updateRecord`, up to the call of the API. */
  method UpdateRecord(
    spec: seq<Endpoint>, status: seq<Endpoint>, deleting: bool, codec: Codec) returns (changes: Option<seq<Change>>)
    ensures spec == [] ==> changes == None
    ensures spec != [] ==> changes == if deleting then DeleteBatch(spec, codec) else PublishBatch(spec, status, codec)
  {
    if |spec| == 0 {
      return None;
    }
    hide RecordFor, IsSupported, AllSupported, HasId;
    var ok, expected, out := ChangesForSpec(spec, deleting, codec);
    if !ok {
      return None;
    }
    if !deleting {
      var more;
      ok, more := ChangesForStale(status, expected, codec, spec);
      if !ok {
        return None;
      }
      out := out + more;
    }
    return Some(out);
  }

  method ChangesForSpec(
    spec: seq<Endpoint>, deleting: bool, codec: Codec) returns (ok: bool, expected: set<string>, out: seq<Change>)
    ensures ok == AllSupported(spec)
    ensures ok ==> out == if deleting then Removals(spec, codec) else Upserts(spec, codec)
    ensures ok ==> forall id :: id in expected <==> HasId(spec, id)
  {
    hide RecordFor, HasId, IsSupported;
    out, expected := [], {};
    forall id ensures !HasId(spec[..0], id) { HasNoId(spec[..0], id); }
    for i := 0 to |spec|
      invariant AllSupported(spec[..i])
      invariant out == if deleting then Removals(spec[..i], codec) else Upserts(spec[..i], codec)
      invariant forall id :: id in expected <==> HasId(spec[..i], id)
    {
      expected := expected + {spec[i].SetId()};
      var done := spec[..i + 1];
      forall id ensures id in expected <==> HasId(done, id) {
        HasIdStep(spec, i, id);
      }
      assert done[..i] == spec[..i];
      if !IsSupported(spec[i]) {
        return false, expected, out;
      }
      out := out + [if deleting then Remove(RecordFor(spec[i], codec)) else Upsert(RecordFor(spec[i], codec))];
    }
    assert spec[..|spec|] == spec;
    return true, expected, out;
  }

  method ChangesForStale(
    status: seq<Endpoint>, expected: set<string>, codec: Codec, ghost spec: seq<Endpoint>) returns (ok: bool,
    out: seq<Change>)
    requires forall id :: id in expected <==> HasId(spec, id)
    ensures ok == AllSupported(Stale(status, spec))
    ensures ok ==> out == Removals(Stale(status, spec), codec)
  {
    hide RecordFor, HasId, IsSupported, Stale, Removals;
    out := [];
    StaleNone(status[..0], spec, codec);
    for i := 0 to |status|
      invariant AllSupported(Stale(status[..i], spec))
      invariant out == Removals(Stale(status[..i], spec), codec)
    {
      StaleStep(status, spec, i, codec);
      if status[i].SetId() !in expected {
        if !IsSupported(status[i]) {
          Unsupported(status, spec, i);
          return false, out;
        }
        out := out + [Remove(RecordFor(status[i], codec))];
      }
    }
    assert status[..|status|] == status;
    return true, out;
  }

  lemma StaleNone(status: seq<Endpoint>, spec: seq<Endpoint>, codec: Codec)
    requires status == []
    ensures Stale(status, spec) == [] && Removals([], codec) == []
  {}

  lemma StaleStep(status: seq<Endpoint>, spec: seq<Endpoint>, i: nat, codec: Codec)
    requires i < |status|
    ensures var stale, e := Stale(status[..i], spec), status[i];
            if HasId(spec, e.SetId()) then Stale(status[..i + 1], spec) == stale
            else Stale(status[..i + 1], spec) == stale + [e] &&
                 Removals(stale + [e], codec) == Removals(stale, codec) + [Remove(RecordFor(e, codec))]
  {
    assert status[..i + 1][..i] == status[..i];
    var stale := Stale(status[..i], spec);
    assert (stale + [status[i]])[..|stale|] == stale;
  }

  lemma HasNoId(eps: seq<Endpoint>, id: string)
    requires eps == []
    ensures !HasId(eps, id)
  {}

  lemma HasIdStep(eps: seq<Endpoint>, i: nat, id: string)
    requires i < |eps|
    ensures HasId(eps[..i + 1], id) <==> HasId(eps[..i], id) || id == eps[i].SetId()
  {
    if HasId(eps[..i], id) {
      var k :| 0 <= k < i && eps[..i][k].SetId() == id;
      assert eps[..i + 1][k].SetId() == id;
    }
    assert eps[..i + 1][i] == eps[i];
    if HasId(eps[..i + 1], id) {
      var k :| 0 <= k < i + 1 && eps[..i + 1][k].SetId() == id;
      assert k < i ==> eps[..i][k].SetId() == id;
    }
  }

  lemma {:induction false} StaleMembers(status: seq<Endpoint>, spec: seq<Endpoint>, e: Endpoint)
    ensures e in Stale(status, spec) <==> e in status && !HasId(spec, e.SetId())
  {
    if status != [] {
      StaleMembers(status[..|status| - 1], spec, e);
      assert status == status[..|status| - 1] + [status[|status| - 1]];
    }
  }

  lemma Unsupported(status: seq<Endpoint>, spec: seq<Endpoint>, i: nat)
    requires i < |status| && !HasId(spec, status[i].SetId()) && !IsSupported(status[i])
    ensures !AllSupported(Stale(status, spec))
  {
    StaleMembers(status, spec, status[i]);
    var k :| 0 <= k < |Stale(status, spec)| && Stale(status, spec)[k] == status[i];
  }

  // ----- the zone -----

  /** One change of a batch; deleting what is not there exactly as given is an error. */
  function Apply(z: Zone, c: Change): Option<Zone> {
    match c
    case Upsert(r) => Some(z[r.key := r])
    case Remove(r) => if r.key in z && z[r.key] == r then Some(z - {r.key}) else None
  }

  /** A batch takes effect as a whole or not at all. */
  function ApplyBatch(z: Zone, cs: seq<Change>): Option<Zone> {
    if cs == [] then Some(z)
    else
      var before := ApplyBatch(z, cs[..|cs| - 1]);
      if before.None? then None else Apply(before.value, cs[|cs| - 1])
  }

  /** The zone with the endpoints' records on top of what else is there. */
  function ZoneFor(eps: seq<Endpoint>, foreign: Zone, codec: Codec): Zone {
    if eps == [] then foreign
    else ZoneFor(eps[..|eps| - 1], foreign, codec)[KeyOf(eps[|eps| - 1]) := RecordFor(eps[|eps| - 1], codec)]
  }

  /** SetIDs tell the endpoints of a list apart, and so do record keys. */
  ghost predicate WellIdentified(eps: seq<Endpoint>) {
    forall i, j | 0 <= i < j < |eps| :: eps[i].SetId() != eps[j].SetId() && KeyOf(eps[i]) != KeyOf(eps[j])
  }

  /** Across two lists, the same SetID means the same record. */
  ghost predicate IdentifiedAlike(a: seq<Endpoint>, b: seq<Endpoint>) {
    forall x, y | x in a && y in b :: x.SetId() == y.SetId() <==> KeyOf(x) == KeyOf(y)
  }

  ghost predicate NoClash(eps: seq<Endpoint>, foreign: Zone) {
    forall e | e in eps :: KeyOf(e) !in foreign
  }

  /** Each list by itself can be published next to the foreign records. */
  ghost predicate Publishable(spec: seq<Endpoint>, status: seq<Endpoint>, foreign: Zone) {
    && AllSupported(spec) && AllSupported(status)
    && WellIdentified(spec) && WellIdentified(status)
    && NoClash(spec, foreign) && NoClash(status, foreign)
  }

  ghost predicate Fit(spec: seq<Endpoint>, status: seq<Endpoint>, foreign: Zone) {
    Publishable(spec, status, foreign) && IdentifiedAlike(status, spec)
  }

  function Keys(eps: seq<Endpoint>): set<RecordKey> {
    set i | 0 <= i < |eps| :: KeyOf(eps[i])
  }

  lemma {:induction false} ZoneForAt(eps: seq<Endpoint>, foreign: Zone, codec: Codec, i: nat)
    requires WellIdentified(eps) && i < |eps|
    ensures var z := ZoneFor(eps, foreign, codec); KeyOf(eps[i]) in z && z[KeyOf(eps[i])] == RecordFor(eps[i], codec)
  {
    var n := |eps| - 1;
    if i < n {
      ZoneForAt(eps[..n], foreign, codec, i);
    }
  }

  lemma {:induction false} ZoneForElsewhere(eps: seq<Endpoint>, foreign: Zone, codec: Codec, k: RecordKey)
    requires k !in Keys(eps)
    ensures var z := ZoneFor(eps, foreign, codec); (k in z <==> k in foreign) && (k in z ==> z[k] == foreign[k])
  {
    if eps != [] {
      var n := |eps| - 1;
      assert KeyOf(eps[n]) in Keys(eps);
      assert Keys(eps[..n]) <= Keys(eps);
      ZoneForElsewhere(eps[..n], foreign, codec, k);
    }
  }

  lemma {:induction false} ApplyConcat(z: Zone, a: seq<Change>, b: seq<Change>)
    ensures ApplyBatch(z, a + b) == if ApplyBatch(z, a).None? then None else ApplyBatch(ApplyBatch(z, a).value, b)
  {
    if b == [] {
      assert a + b == a;
    } else {
      var n := |b| - 1;
      assert (a + b)[..|a + b| - 1] == a + b[..n];
      ApplyConcat(z, a, b[..n]);
    }
  }

  lemma {:induction false} ApplyUpserts(z: Zone, eps: seq<Endpoint>, codec: Codec)
    ensures ApplyBatch(z, Upserts(eps, codec)) == Some(ZoneFor(eps, z, codec))
  {
    if eps != [] {
      var u := Upserts(eps, codec);
      assert u[..|u| - 1] == Upserts(eps[..|eps| - 1], codec);
      ApplyUpserts(z, eps[..|eps| - 1], codec);
    }
  }

  /** Do all these endpoints' records exist in the zone exactly as they are? */
  ghost predicate AllThere(eps: seq<Endpoint>, z: Zone, codec: Codec) {
    forall i | 0 <= i < |eps| :: KeyOf(eps[i]) in z && z[KeyOf(eps[i])] == RecordFor(eps[i], codec)
  }

  ghost predicate DistinctRecords(eps: seq<Endpoint>) {
    forall i, j | 0 <= i < j < |eps| :: KeyOf(eps[i]) != KeyOf(eps[j])
  }

  lemma {:induction false} ApplyRemovals(z: Zone, eps: seq<Endpoint>, codec: Codec)
    requires DistinctRecords(eps)
    ensures ApplyBatch(z, Removals(eps, codec)) == if AllThere(eps, z, codec) then Some(z - Keys(eps)) else None
  {
    if eps == [] {
      assert z - Keys(eps) == z;
    } else {
      hide RecordFor, Keys, AllThere, DistinctRecords, KeyOf;
      var n := |eps| - 1;
      var r := Removals(eps, codec);
      RemovalStep(z, eps, codec);
      assert r[..|r| - 1] == Removals(eps[..n], codec);
      ApplyRemovals(z, eps[..n], codec);
    }
  }

  lemma RemovalStep(z: Zone, eps: seq<Endpoint>, codec: Codec)
    requires DistinctRecords(eps) && eps != []
    ensures var n := |eps| - 1;
            var front, last := eps[..n], RecordFor(eps[n], codec);
            && DistinctRecords(front)
            && (AllThere(eps, z, codec) <==>
                AllThere(front, z, codec) && last.key in z - Keys(front) && (z - Keys(front))[last.key] == last)
            && z - Keys(eps) == (z - Keys(front)) - {last.key}
  {
    hide RecordFor;
    var n := |eps| - 1;
    KeysLast(eps);
    KeyOfRecord(eps[n], codec);
    forall i | 0 <= i < n ensures eps[..n][i] == eps[i] {}
    assert KeyOf(eps[n]) !in Keys(eps[..n]);
    if AllThere(eps[..n], z, codec) && KeyOf(eps[n]) in z && z[KeyOf(eps[n])] == RecordFor(eps[n], codec) {
      forall i | 0 <= i < |eps| ensures KeyOf(eps[i]) in z && z[KeyOf(eps[i])] == RecordFor(eps[i], codec) {
        assert i < n ==> eps[..n][i] == eps[i];
      }
    }
  }

  lemma KeyOfRecord(e: Endpoint, codec: Codec)
    ensures RecordFor(e, codec).key == KeyOf(e)
  {}

  lemma KeysLast(eps: seq<Endpoint>)
    requires eps != []
    ensures Keys(eps) == Keys(eps[..|eps| - 1]) + {KeyOf(eps[|eps| - 1])}
  {
    var n := |eps| - 1;
    forall k | k in Keys(eps) ensures k in Keys(eps[..n]) || k == KeyOf(eps[n]) {
      var i :| 0 <= i < |eps| && KeyOf(eps[i]) == k;
      assert i < n ==> KeyOf(eps[..n][i]) == k;
    }
    forall k | k in Keys(eps[..n]) ensures k in Keys(eps) {
      var i :| 0 <= i < n && KeyOf(eps[..n][i]) == k;
      assert KeyOf(eps[i]) == k;
    }
    assert KeyOf(eps[n]) in Keys(eps);
  }

  // ----- publishing and deleting -----

  lemma {:induction false} StaleDistinct(status: seq<Endpoint>, spec: seq<Endpoint>)
    requires WellIdentified(status)
    ensures DistinctRecords(Stale(status, spec))
  {
    if status != [] {
      var n := |status| - 1;
      StaleDistinct(status[..n], spec);
      var front := Stale(status[..n], spec);
      forall i | 0 <= i < |front| ensures KeyOf(front[i]) != KeyOf(status[n]) {
        StaleMembers(status[..n], spec, front[i]);
        var k :| 0 <= k < n && status[..n][k] == front[i];
        assert status[k] == front[i];
      }
    }
  }

  lemma StaleThere(status: seq<Endpoint>, spec: seq<Endpoint>, foreign: Zone, codec: Codec)
    requires Fit(spec, status, foreign)
    ensures AllThere(Stale(status, spec), ZoneFor(spec, ZoneFor(status, foreign, codec), codec), codec)
    ensures AllSupported(Stale(status, spec))
  {
    hide RecordFor, ZoneFor, IsSupported;
    var stale, z0 := Stale(status, spec), ZoneFor(status, foreign, codec);
    forall i | 0 <= i < |stale|
      ensures var z := ZoneFor(spec, z0, codec);
              KeyOf(stale[i]) in z && z[KeyOf(stale[i])] == RecordFor(stale[i], codec)
      ensures IsSupported(stale[i])
    {
      StaleMembers(status, spec, stale[i]);
      var k :| 0 <= k < |status| && status[k] == stale[i];
      ZoneForAt(status, foreign, codec, k);
      StaleKey(status, spec, stale[i]);
      ZoneForElsewhere(spec, z0, codec, KeyOf(stale[i]));
    }
  }

  lemma StaleKey(status: seq<Endpoint>, spec: seq<Endpoint>, e: Endpoint)
    requires IdentifiedAlike(status, spec) && e in status && !HasId(spec, e.SetId())
    ensures KeyOf(e) !in Keys(spec)
  {
    forall i | 0 <= i < |spec| ensures KeyOf(spec[i]) != KeyOf(e) {
      assert spec[i] in spec && spec[i].SetId() != e.SetId();
    }
  }

  lemma StaleKeys(status: seq<Endpoint>, spec: seq<Endpoint>)
    ensures Keys(Stale(status, spec)) <= Keys(status)
    ensures IdentifiedAlike(status, spec) ==> Keys(Stale(status, spec)) !! Keys(spec)
  {
    var stale := Stale(status, spec);
    forall i | 0 <= i < |stale| ensures KeyOf(stale[i]) in Keys(status)
      ensures IdentifiedAlike(status, spec) ==> KeyOf(stale[i]) !in Keys(spec)
    {
      StaleMembers(status, spec, stale[i]);
      var m :| 0 <= m < |status| && status[m] == stale[i];
      if IdentifiedAlike(status, spec) {
        StaleKey(status, spec, stale[i]);
      }
    }
  }

  lemma KeyLookup(eps: seq<Endpoint>, k: RecordKey) returns (i: nat)
    requires k in Keys(eps)
    ensures i < |eps| && KeyOf(eps[i]) == k
  {
    i :| 0 <= i < |eps| && KeyOf(eps[i]) == k;
  }

  /** After upserting the spec and deleting what is stale, exactly the spec is on top of the rest. */
  lemma UpsertedAt(status: seq<Endpoint>, spec: seq<Endpoint>, foreign: Zone, codec: Codec, k: RecordKey)
    requires Fit(spec, status, foreign)
    ensures var z := ZoneFor(spec, ZoneFor(status, foreign, codec), codec) - Keys(Stale(status, spec));
            var t := ZoneFor(spec, foreign, codec);
            (k in z <==> k in t) && (k in z ==> z[k] == t[k])
  {
    hide RecordFor, ZoneFor, AllSupported;
    var z0 := ZoneFor(status, foreign, codec);
    StaleKeys(status, spec);
    if k in Keys(spec) {
      var i := KeyLookup(spec, k);
      ZoneForAt(spec, z0, codec, i);
      ZoneForAt(spec, foreign, codec, i);
    } else {
      ZoneForElsewhere(spec, z0, codec, k);
      ZoneForElsewhere(spec, foreign, codec, k);
      if k in Keys(status) {
        var i := KeyLookup(status, k);
        NotInSpecIsStale(status, spec, i);
        assert status[i] in status;
      } else {
        ZoneForElsewhere(status, foreign, codec, k);
      }
    }
  }

  lemma NotInSpecIsStale(status: seq<Endpoint>, spec: seq<Endpoint>, i: nat)
    requires IdentifiedAlike(status, spec) && i < |status| && KeyOf(status[i]) !in Keys(spec)
    ensures KeyOf(status[i]) in Keys(Stale(status, spec))
  {
    var e := status[i];
    forall j | 0 <= j < |spec| ensures spec[j].SetId() != e.SetId() {
      assert spec[j] in spec && e in status && KeyOf(spec[j]) in Keys(spec);
    }
    StaleMembers(status, spec, e);
    var j :| 0 <= j < |Stale(status, spec)| && Stale(status, spec)[j] == e;
  }

  /** The publish batch is accepted and leaves exactly the spec's records and the foreign ones. */
  lemma PublishReplaces(status: seq<Endpoint>, spec: seq<Endpoint>, foreign: Zone, codec: Codec)
    requires Fit(spec, status, foreign)
    ensures PublishBatch(spec, status, codec).Some?
    ensures ApplyBatch(ZoneFor(status, foreign, codec), PublishBatch(spec, status, codec).value) ==
            Some(ZoneFor(spec, foreign, codec))
  {
    hide RecordFor, ZoneFor, ApplyBatch, Stale, Keys, AllThere, IdentifiedAlike, NoClash;
    var z, stale := ZoneFor(status, foreign, codec), Stale(status, spec);
    StaleThere(status, spec, foreign, codec);
    ApplyUpserts(z, spec, codec);
    ApplyConcat(z, Upserts(spec, codec), Removals(stale, codec));
    StaleDistinct(status, spec);
    ApplyRemovals(ZoneFor(spec, z, codec), stale, codec);
    var a, b := ZoneFor(spec, z, codec) - Keys(stale), ZoneFor(spec, foreign, codec);
    forall k ensures (k in a <==> k in b) && (k in a ==> a[k] == b[k]) {
      UpsertedAt(status, spec, foreign, codec, k);
    }
    assert a == b;
  }

  // ----- the provider -----

  /** `Ensure`: with no endpoints in the spec nothing is done, and that counts as success. */
  function EnsureZone(spec: seq<Endpoint>, status: seq<Endpoint>, z: Zone, codec: Codec): Option<Zone> {
    if spec == [] then Some(z)
    else
      var batch := PublishBatch(spec, status, codec);
      if batch.None? then None else ApplyBatch(z, batch.value)
  }

  /** `Delete`: the records of the spec, not of the status, are deleted. The API names a record that
      is not there "not found"; one that differs is another error. */
  function DeleteZone(spec: seq<Endpoint>, z: Zone, codec: Codec): Deletion<Zone> {
    if spec == [] then Deleted(z)
    else
      var batch := DeleteBatch(spec, codec);
      if batch.None? then OtherError
      else if exists i :: 0 <= i < |spec| && KeyOf(spec[i]) !in z then NotFound
      else
        var r := ApplyBatch(z, batch.value);
        if r.None? then OtherError else Deleted(r.value)
  }

  lemma {:induction false} ZoneForNonEmpty(eps: seq<Endpoint>, foreign: Zone, codec: Codec)
    requires NoClash(eps, foreign) && WellIdentified(eps) && eps != []
    ensures ZoneFor(eps, foreign, codec) != foreign
  {
    ZoneForAt(eps, foreign, codec, 0);
    assert eps[0] in eps;
  }

  /** Publishing replaces the status by the spec if and only if nothing was published, or the spec has
      endpoints and no SetID has come to stand for another record. Emptying a published spec leaves its
      records in the zone, and changing the type of a record leaves the old one. */
  lemma PublishExact(status: seq<Endpoint>, spec: seq<Endpoint>, foreign: Zone, codec: Codec)
    requires Publishable(spec, status, foreign)
    ensures EnsureZone(spec, status, ZoneFor(status, foreign, codec), codec) == Some(ZoneFor(spec, foreign, codec)) <==>
            status == [] || (spec != [] && IdentifiedAlike(status, spec))
  {
    hide RecordFor, ZoneFor, EnsureZone, AllSupported, NoClash, IdentifiedAlike, WellIdentified;
    if spec == [] {
      NoneFor(foreign, codec);
      NoneEnsured(status, ZoneFor(status, foreign, codec), codec);
      if status != [] {
        ZoneForNonEmpty(status, foreign, codec);
      }
    } else if IdentifiedAlike(status, spec) {
      PublishReplaces(status, spec, foreign, codec);
      SomeEnsured(spec, status, ZoneFor(status, foreign, codec), codec);
    } else {
      var x := Leftover(status, spec);
      LeftoverStays(status, spec, foreign, codec, x);
    }
    NothingAlike(spec);
  }

  lemma NothingAlike(spec: seq<Endpoint>)
    ensures IdentifiedAlike([], spec)
  {}

  lemma NoneEnsured(status: seq<Endpoint>, z: Zone, codec: Codec)
    ensures EnsureZone([], status, z, codec) == Some(z)
  {}

  lemma SomeEnsured(spec: seq<Endpoint>, status: seq<Endpoint>, z: Zone, codec: Codec)
    requires spec != []
    ensures var batch := PublishBatch(spec, status, codec);
            EnsureZone(spec, status, z, codec) == if batch.None? then None else ApplyBatch(z, batch.value)
  {
    hide PublishBatch, ApplyBatch;
  }

  /** A published endpoint whose SetID stands for another record in the spec. */
  lemma Leftover(status: seq<Endpoint>, spec: seq<Endpoint>) returns (i: nat)
    requires !IdentifiedAlike(status, spec) && WellIdentified(spec)
    ensures i < |status| && HasId(spec, status[i].SetId()) && KeyOf(status[i]) !in Keys(spec)
  {
    var x, y :| x in status && y in spec && !(x.SetId() == y.SetId() <==> KeyOf(x) == KeyOf(y));
    i :| 0 <= i < |status| && status[i] == x;
    var j :| 0 <= j < |spec| && spec[j] == y;
    assert HasId(spec, x.SetId());
    forall k | 0 <= k < |spec| ensures KeyOf(spec[k]) != KeyOf(x) {
      assert k != j ==> spec[k].SetId() != spec[j].SetId();
    }
  }

  lemma NotStale(status: seq<Endpoint>, spec: seq<Endpoint>, i: nat)
    requires WellIdentified(status) && i < |status| && HasId(spec, status[i].SetId())
    ensures KeyOf(status[i]) !in Keys(Stale(status, spec))
  {
    var stale := Stale(status, spec);
    forall k | 0 <= k < |stale| ensures KeyOf(stale[k]) != KeyOf(status[i]) {
      StaleMembers(status, spec, stale[k]);
      var j :| 0 <= j < |status| && status[j] == stale[k];
      assert j != i;
    }
  }

  lemma LeftoverStays(status: seq<Endpoint>, spec: seq<Endpoint>, foreign: Zone, codec: Codec, i: nat)
    requires Publishable(spec, status, foreign) && spec != []
    requires i < |status| && HasId(spec, status[i].SetId()) && KeyOf(status[i]) !in Keys(spec)
    ensures var r := EnsureZone(spec, status, ZoneFor(status, foreign, codec), codec);
            && (r.Some? ==> KeyOf(status[i]) in r.value)
            && KeyOf(status[i]) !in ZoneFor(spec, foreign, codec)
  {
    hide RecordFor, ZoneFor, ApplyBatch, Upserts, Removals, Stale, Keys, AllThere, IsSupported, KeyOf;
    var z, stale, k := ZoneFor(status, foreign, codec), Stale(status, spec), KeyOf(status[i]);
    ZoneForAt(status, foreign, codec, i);
    ZoneForElsewhere(spec, z, codec, k);
    assert k !in foreign by { assert status[i] in status; }
    ZoneForElsewhere(spec, foreign, codec, k);
    NotStale(status, spec, i);
    ApplyUpserts(z, spec, codec);
    ApplyConcat(z, Upserts(spec, codec), Removals(stale, codec));
    StaleDistinct(status, spec);
    ApplyRemovals(ZoneFor(spec, z, codec), stale, codec);
  }

  /** The smallest case of a changed type: the old record stays beside the new one. */
  lemma RetypedKeepsRecord(codec: Codec)
    ensures var e := Endpoint("a.example.com", ["192.0.2.1"], A, "", 60, map[], []);
            var f := e.(recordType := NS, targets := ["ns.example.com"]);
            var r := EnsureZone([f], [e], ZoneFor([e], map[], codec), codec);
            r.Some? && KeyOf(e) in r.value && KeyOf(f) in r.value && KeyOf(e) !in ZoneFor([f], map[], codec)
  {
    hide RecordFor;
    var e := Endpoint("a.example.com", ["192.0.2.1"], A, "", 60, map[], []);
    var f := e.(recordType := NS, targets := ["ns.example.com"]);
    assert |A| != |NS|;
    OneRetyped(e, f, codec);
  }

  lemma OneRetyped(e: Endpoint, f: Endpoint, codec: Codec)
    requires IsSupported(e) && IsSupported(f) && e.SetId() == f.SetId() && e.recordType != f.recordType
    ensures var r := EnsureZone([f], [e], ZoneFor([e], map[], codec), codec);
            r.Some? && KeyOf(e) in r.value && KeyOf(f) in r.value && KeyOf(e) !in ZoneFor([f], map[], codec)
  {
    hide RecordFor, IsSupported, ZoneFor, ApplyBatch;
    var z := ZoneFor([e], map[], codec);
    OneStale(e, f);
    StaleNone([], [f], codec);
    assert Upserts([f], codec) + [] == Upserts([f], codec);
    ApplyUpserts(z, [f], codec);
    ZoneForAt([e], map[], codec, 0);
    ZoneForAt([f], z, codec, 0);
    ZoneForElsewhere([f], z, codec, KeyOf(e));
    ZoneForElsewhere([f], map[], codec, KeyOf(e));
  }

  lemma OneStale(e: Endpoint, f: Endpoint)
    requires e.SetId() == f.SetId()
    ensures Stale([e], [f]) == []
  {
    assert [f][0] == f && HasId([f], e.SetId());
    assert [e][..0] == [];
  }

  /** The smallest case of an emptied spec: its record stays, and is then forgotten. */
  lemma EmptiedSpecKeepsRecord(codec: Codec)
    ensures var e := Endpoint("a.example.com", ["192.0.2.1"], A, "", 60, map[], []);
            var z := ZoneFor([e], map[], codec);
            && EnsureZone([], [e], z, codec) == Some(z) && z != map[]
  {
    var e := Endpoint("a.example.com", ["192.0.2.1"], A, "", 60, map[], []);
    ZoneForAt([e], map[], codec, 0);
  }

  /** The smallest case of deleting after an unpublished edit: "not found" passes for success, and
      the published record stays. */
  lemma DeleteAfterEditKeepsRecord(codec: Codec)
    ensures var e := Endpoint("a.example.com", ["192.0.2.1"], A, "", 60, map[], []);
            var f := e.(dnsName := "b.example.com");
            var z := ZoneFor([e], map[], codec);
            Reconcile(State(Some(Record([f], 2, [e], 1, true, true, None)), z), ZoneReady, None,
              DeleteZone([f], z, codec)) ==
              State(None, z) && z != map[]
  {
    hide RecordFor;
    var e := Endpoint("a.example.com", ["192.0.2.1"], A, "", 60, map[], []);
    var f := e.(dnsName := "b.example.com");
    ZoneForAt([e], map[], codec, 0);
    assert e.dnsName[0] != f.dnsName[0];
    assert KeyOf(f) !in Keys([e]);
    ZoneForElsewhere([e], map[], codec, KeyOf(f));
    assert [f][0] == f && KeyOf([f][0]) !in ZoneFor([e], map[], codec);
    assert A != CNAME;
  }

  lemma RemovedAt(status: seq<Endpoint>, spec: seq<Endpoint>, foreign: Zone, codec: Codec, k: RecordKey)
    requires Publishable(spec, status, foreign) && ZoneFor(spec, foreign, codec) == ZoneFor(status, foreign, codec)
    ensures var z := ZoneFor(status, foreign, codec) - Keys(spec);
            (k in z <==> k in foreign) && (k in z ==> z[k] == foreign[k])
  {
    hide RecordFor, ZoneFor;
    if k in Keys(spec) {
      var i := KeyLookup(spec, k);
      assert spec[i] in spec;
    } else {
      ZoneForElsewhere(spec, foreign, codec, k);
    }
  }

  lemma KeptAt(status: seq<Endpoint>, spec: seq<Endpoint>, foreign: Zone, codec: Codec, k: RecordKey)
    requires Publishable(spec, status, foreign) && AllThere(spec, ZoneFor(status, foreign, codec), codec)
    requires ZoneFor(status, foreign, codec) - Keys(spec) == foreign
    ensures var z, t := ZoneFor(status, foreign, codec), ZoneFor(spec, foreign, codec);
            (k in z <==> k in t) && (k in z ==> z[k] == t[k])
  {
    hide RecordFor, ZoneFor;
    var z := ZoneFor(status, foreign, codec);
    if k in Keys(spec) {
      var i := KeyLookup(spec, k);
      ZoneForAt(spec, foreign, codec, i);
    } else {
      ZoneForElsewhere(spec, foreign, codec, k);
      assert k in z <==> k in z - Keys(spec);
    }
  }

  /** After reconciling a record that is being deleted, exactly the foreign records are left if and
      only if nothing had been published or what was published is what the spec now says. */
  lemma DeleteExact(r: Record, foreign: Zone, codec: Codec)
    requires Publishable(r.spec, r.statusEndpoints, foreign) && r.deleting
    ensures var z := ZoneFor(r.statusEndpoints, foreign, codec);
            Reconcile(State(Some(r), z), ZoneReady, None, DeleteZone(r.spec, z, codec)).zone == foreign <==>
            r.statusEndpoints == [] || ZoneFor(r.spec, foreign, codec) == z
  {
    hide RecordFor, ZoneFor, AllThere, Keys, ApplyBatch, Removals;
    var spec, status, z := r.spec, r.statusEndpoints, ZoneFor(r.statusEndpoints, foreign, codec);
    NoneFor(foreign, codec);
    if status != [] {
      ZoneForNonEmpty(status, foreign, codec);
    } else if spec != [] {
      assert spec[0] in spec && KeyOf(spec[0]) !in z;
    }
    assert DistinctRecords(spec);
    ApplyRemovals(z, spec, codec);
    if ZoneFor(spec, foreign, codec) == z {
      SpecThere(spec, foreign, codec);
      var a := z - Keys(spec);
      forall k ensures (k in a <==> k in foreign) && (k in a ==> a[k] == foreign[k]) {
        RemovedAt(status, spec, foreign, codec, k);
      }
      assert a == foreign;
      NoKeys(spec, z);
    }
    if AllThere(spec, z, codec) && z - Keys(spec) == foreign {
      AllRemoved(status, spec, foreign, codec);
    }
  }

  lemma AllRemoved(status: seq<Endpoint>, spec: seq<Endpoint>, foreign: Zone, codec: Codec)
    requires Publishable(spec, status, foreign) && AllThere(spec, ZoneFor(status, foreign, codec), codec)
    requires ZoneFor(status, foreign, codec) - Keys(spec) == foreign
    ensures ZoneFor(status, foreign, codec) == ZoneFor(spec, foreign, codec)
  {
    hide RecordFor, ZoneFor, AllThere, Keys, Publishable;
    var z, t := ZoneFor(status, foreign, codec), ZoneFor(spec, foreign, codec);
    forall k ensures (k in z <==> k in t) && (k in z ==> z[k] == t[k]) {
      KeptAt(status, spec, foreign, codec, k);
    }
  }

  lemma NoKeys(spec: seq<Endpoint>, z: Zone)
    ensures spec == [] ==> z - Keys(spec) == z
  {}

  lemma NoneFor(foreign: Zone, codec: Codec)
    ensures ZoneFor([], foreign, codec) == foreign
  {}

  lemma SpecThere(spec: seq<Endpoint>, foreign: Zone, codec: Codec)
    requires WellIdentified(spec)
    ensures AllThere(spec, ZoneFor(spec, foreign, codec), codec)
    ensures forall i | 0 <= i < |spec| :: KeyOf(spec[i]) in ZoneFor(spec, foreign, codec)
  {
    forall i | 0 <= i < |spec|
      ensures var z := ZoneFor(spec, foreign, codec);
              KeyOf(spec[i]) in z && z[KeyOf(spec[i])] == RecordFor(spec[i], codec)
    {
      ZoneForAt(spec, foreign, codec, i);
    }
  }

  /** Deleting what is there as the spec has it succeeds. */
  lemma SpecDeletes(r: Record, foreign: Zone, codec: Codec)
    requires Publishable(r.spec, r.statusEndpoints, foreign) && r.spec != []
    ensures ZoneFor(r.spec, foreign, codec) == ZoneFor(r.statusEndpoints, foreign, codec) ==>
              DeleteZone(r.spec, ZoneFor(r.statusEndpoints, foreign, codec), codec).Deleted?
  {
    hide RecordFor, ZoneFor, AllThere, Keys, ApplyBatch, Removals;
    SpecThere(r.spec, foreign, codec);
    assert DistinctRecords(r.spec);
    ApplyRemovals(ZoneFor(r.spec, foreign, codec), r.spec, codec);
  }

  // ----- runs of the reconciler on a hosted zone -----

  /** Nothing is left open by the provider's code. */
  datatype NoSalt = NoSalt

  ghost function RouteEnsure(codec: Codec): Ensure<Zone, NoSalt> {
    (spec: seq<Endpoint>, status: seq<Endpoint>, z: Zone, n: NoSalt) => EnsureZone(spec, status, z, codec)
  }

  ghost function RouteDelete(codec: Codec): Delete<Zone, NoSalt> {
    (spec: seq<Endpoint>, status: seq<Endpoint>, z: Zone, n: NoSalt) => DeleteZone(spec, z, codec)
  }

  ghost function Always(): Possible<Zone, NoSalt> {
    (spec: seq<Endpoint>, status: seq<Endpoint>, z: Zone, n: NoSalt) => true
  }

  ghost function RouteZoneFor(foreign: Zone, codec: Codec): seq<Endpoint> -> Zone {
    (eps: seq<Endpoint>) => ZoneFor(eps, foreign, codec)
  }

  ghost function RouteAdmissible(foreign: Zone): (seq<Endpoint>, seq<Endpoint>) -> bool {
    (spec: seq<Endpoint>, status: seq<Endpoint>) => spec != [] && Fit(spec, status, foreign)
  }

  lemma RouteLaw(foreign: Zone, codec: Codec)
    ensures EnsureLaw(RouteEnsure(codec), Always(), RouteZoneFor(foreign, codec), RouteAdmissible(foreign))
  {
    hide Publishable, IdentifiedAlike, ZoneFor, EnsureZone;
    var zoneFor := RouteZoneFor(foreign, codec);
    forall spec, status, n: NoSalt | RouteAdmissible(foreign)(spec, status)
      ensures RouteEnsure(codec)(spec, status, zoneFor(status), n) == Some(zoneFor(spec))
    {
      PublishExact(status, spec, foreign, codec);
    }
  }

  /** The reconcile of a record that is being deleted. */
  ghost function DeletedFrom(s: State<Zone>, codec: Codec): State<Zone> {
    Take(s, Reconciled(ZoneReady, NoSalt), RouteEnsure(codec), RouteDelete(codec))
  }

  lemma {:induction false} AlwaysPossible(s: State<Zone>, steps: seq<Step<NoSalt>>, codec: Codec)
    ensures PossibleRun(s, steps, RouteEnsure(codec), RouteDelete(codec), Always())
  {
    if steps != [] {
      AlwaysPossible(s, steps[..|steps| - 1], codec);
    }
  }

  /** Over every run from a new record whose specs have endpoints, the hosted zone is the foreign
      records together with exactly the records published last. A record that is then being deleted
      goes with exactly its records if and only if what was published is what the spec says, and so
      it does if it is deleted right after its current generation was published. */
  lemma RouteRun(r: Record, foreign: Zone, steps: seq<Step<NoSalt>>, codec: Codec)
    requires r.statusEndpoints == [] && r.observedGeneration == 0 && r.generation >= 1
    requires forall a, b | IsSpecOf(State(Some(r), foreign), steps, a) &&
             IsStatusOf(State(Some(r), foreign), steps, b) :: a != [] && Fit(a, b, foreign)
    ensures var s := After(State(Some(r), foreign), steps, RouteEnsure(codec), RouteDelete(codec));
            s.record.Some? ==>
              && s.zone == ZoneFor(s.record.value.statusEndpoints, foreign, codec)
              && (s.record.value.observedGeneration == s.record.value.generation ==>
                  s.zone == ZoneFor(s.record.value.spec, foreign, codec))
              && (s.record.value.deleting ==> (DeletedFrom(s, codec).zone == foreign <==>
                    s.record.value.statusEndpoints == [] || s.zone == ZoneFor(s.record.value.spec, foreign, codec)))
              && (s.record.value.observedGeneration == s.record.value.generation &&
                  s.record.value.hasFinalizer && !s.record.value.deleting ==>
                    DeletedFrom(Take(s, RequestDeletion, RouteEnsure(codec), RouteDelete(codec)), codec) ==
                    State(None, foreign))
  {
    hide IsSpecOf, Publishable, IdentifiedAlike, ZoneFor, After, EnsureLaw, EnsureZone, DeleteZone, PossibleRun;
    var start := State(Some(r), foreign);
    NoneFor(foreign, codec);
    RouteLaw(foreign, codec);
    AlwaysPossible(start, steps, codec);
    RunKeepsInStep(start, steps, RouteEnsure(codec), RouteDelete(codec), Always(), RouteZoneFor(foreign, codec),
      RouteAdmissible(foreign));
    var s := After(start, steps, RouteEnsure(codec), RouteDelete(codec));
    if s.record.Some? {
      ListsOfRun(start, steps, RouteEnsure(codec), RouteDelete(codec));
      var deleted := s.record.value.(deleting := true, generation := s.record.value.generation + 1);
      if s.record.value.deleting {
        DeleteExact(s.record.value, foreign, codec);
      } else {
        DeleteExact(deleted, foreign, codec);
        SpecDeletes(deleted, foreign, codec);
      }
    }
  }

  /** At the end of such a run, unless the record is being deleted, two reconciles with the zone ready make
      the hosted zone that of the current spec. */
  lemma RouteSettles(r: Record, foreign: Zone, steps: seq<Step<NoSalt>>, codec: Codec)
    requires r.statusEndpoints == [] && r.observedGeneration == 0 && r.generation >= 1
    requires forall a, b | IsSpecOf(State(Some(r), foreign), steps, a) &&
             IsStatusOf(State(Some(r), foreign), steps, b) ::
               a != [] && Fit(a, b, foreign)
    requires var s := After(State(Some(r), foreign), steps, RouteEnsure(codec), RouteDelete(codec));
             s.record.Some? && !s.record.value.deleting
    ensures var s := After(State(Some(r), foreign), steps, RouteEnsure(codec), RouteDelete(codec));
            UpToDate(After(State(Some(r), foreign), ThenReady(steps, NoSalt, NoSalt), RouteEnsure(codec),
              RouteDelete(codec)),
              s.record.value.spec, RouteZoneFor(foreign, codec))
  {
    hide IsSpecOf, Publishable, IdentifiedAlike, ZoneFor, After, EnsureLaw, EnsureZone, DeleteZone, PossibleRun,
      ThenReady,
      UpToDate;
    var start := State(Some(r), foreign);
    NoneFor(foreign, codec);
    RouteLaw(foreign, codec);
    AlwaysPossible(start, ThenReady(steps, NoSalt, NoSalt), codec);
    RunSettles(start, steps, NoSalt, NoSalt, RouteEnsure(codec), RouteDelete(codec), Always(),
      RouteZoneFor(foreign, codec), RouteAdmissible(foreign));
  }

  // ----- exactly what a record is -----

  /** The location of an endpoint: its geo code as a country if it is one, else as a continent, and its
      subdivision unless there is a continent. */
  ghost predicate GeoIs(geo: Option<GeoLocation>, e: Endpoint, codec: Codec) {
    var code, sub := e.Get("geo-code"), e.Get("aws/geolocation-subdivision-code");
    && (geo.Some? <==> code.Some? || sub.Some?)
    && (geo.Some? ==>
          && geo.value.country == (if code == Some("*") || (code.Some? && codec.isCountry(code.value)) then code
              else None)
          && geo.value.continent == (if code == geo.value.country then None else code)
          && geo.value.subdivision == if geo.value.continent.Some? then None else sub)
  }

  /** The weight of an endpoint, 0 where it is no number. */
  ghost predicate WeightIs(weight: Option<int>, e: Endpoint, codec: Codec) {
    && (weight.Some? <==> e.Get("weight").Some?)
    && (weight.Some? ==>
          var parsed := codec.parseInt(e.Get("weight").value);
          weight.value == if parsed.Some? then parsed.value else 0)
  }

  /** The record holds all targets of the endpoint, its TTL and its properties. */
  ghost predicate RecordIs(r: RecordSet, e: Endpoint, codec: Codec) {
    && r.key == RecordKey(e.dnsName, e.recordType, e.setIdentifier)
    && r.values == e.targets && r.ttl == e.ttl
    && WeightIs(r.weight, e, codec) && GeoIs(r.geo, e, codec)
    && r.region == e.Get("aws/region") && r.failover == e.Get("aws/failover")
    && (r.multiValue <==> e.Get("aws/multi-value-answer").Some?)
    && r.healthCheckId == e.Get("aws/health-check-id")
  }

  lemma RecordExactly(e: Endpoint, codec: Codec)
    ensures RecordIs(RecordFor(e, codec), e, codec)
  {}

  /** After publishing, the zone holds the record of every endpoint of the spec, and at other keys what
      foreign records there are. */
  lemma PublishedRecords(status: seq<Endpoint>, spec: seq<Endpoint>, foreign: Zone, codec: Codec)
    requires Fit(spec, status, foreign) && spec != []
    ensures var z := EnsureZone(spec, status, ZoneFor(status, foreign, codec), codec);
            && z.Some?
            && (forall e | e in spec :: Holds(z.value, e, codec))
            && (forall k | k in z.value :: k in foreign || exists e | e in spec ::
                k == RecordKey(e.dnsName, e.recordType, e.setIdentifier))
            && (forall k | k in foreign :: k in z.value && z.value[k] == foreign[k])
  {
    hide RecordFor, ZoneFor, EnsureZone, Publishable, IdentifiedAlike, Keys, Holds;
    PublishExact(status, spec, foreign, codec);
    SpecPublishable(spec, status, foreign);
    ZoneExactly(spec, foreign, codec);
  }

  /** The zone has the record of this endpoint at its key. */
  ghost predicate Holds(z: Zone, e: Endpoint, codec: Codec) {
    var k := RecordKey(e.dnsName, e.recordType, e.setIdentifier);
    k in z && RecordIs(z[k], e, codec)
  }

  lemma SpecPublishable(spec: seq<Endpoint>, status: seq<Endpoint>, foreign: Zone)
    requires Publishable(spec, status, foreign)
    ensures WellIdentified(spec) && NoClash(spec, foreign)
  {}

  lemma ZoneExactly(eps: seq<Endpoint>, foreign: Zone, codec: Codec)
    requires WellIdentified(eps) && NoClash(eps, foreign)
    ensures var z := ZoneFor(eps, foreign, codec);
            && (forall e | e in eps :: Holds(z, e, codec))
            && (forall k | k in z :: k in foreign || exists e | e in eps ::
                k == RecordKey(e.dnsName, e.recordType, e.setIdentifier))
            && (forall k | k in foreign :: k in z && z[k] == foreign[k])
  {
    hide RecordFor, ZoneFor, RecordIs;
    var z := ZoneFor(eps, foreign, codec);
    forall e | e in eps ensures Holds(z, e, codec) {
      var i :| 0 <= i < |eps| && eps[i] == e;
      ZoneForAt(eps, foreign, codec, i);
      RecordExactly(e, codec);
    }
    forall k | k in z && k !in foreign ensures exists e | e in eps ::
        k == RecordKey(e.dnsName, e.recordType, e.setIdentifier) {
      if k !in Keys(eps) {
        ZoneForElsewhere(eps, foreign, codec, k);
      } else {
        var i := KeyLookup(eps, k);
        assert eps[i] in eps;
      }
    }
    forall k | k in foreign ensures k in z && z[k] == foreign[k] {
      forall i | 0 <= i < |eps| ensures KeyOf(eps[i]) != k {
        assert eps[i] in eps;
      }
      ZoneForElsewhere(eps, foreign, codec, k);
    }
  }

  /** Endpoints of one name, type and set identifier whose targets, TTL or weight differ make different
      zones. */
  lemma EditsShow(a: seq<Endpoint>, b: seq<Endpoint>, x: Endpoint, y: Endpoint, foreign: Zone, codec: Codec)
    requires WellIdentified(a) && NoClash(a, foreign) && WellIdentified(b) && NoClash(b, foreign) && x in a && y in b
    requires x.dnsName == y.dnsName && x.recordType == y.recordType && x.setIdentifier == y.setIdentifier
    requires x.targets != y.targets || x.ttl != y.ttl || x.Get("weight").Some? != y.Get("weight").Some? ||
             (x.Get("weight").Some? && codec.parseInt(x.Get("weight").value).Some? &&
              codec.parseInt(y.Get("weight").value).Some? &&
              codec.parseInt(x.Get("weight").value) != codec.parseInt(y.Get("weight").value))
    ensures ZoneFor(a, foreign, codec) != ZoneFor(b, foreign, codec)
  {
    hide RecordFor, ZoneFor, WellIdentified, NoClash;
    ZoneExactly(a, foreign, codec);
    ZoneExactly(b, foreign, codec);
    assert Holds(ZoneFor(a, foreign, codec), x, codec) && Holds(ZoneFor(b, foreign, codec), y, codec);
  }

  /** An endpoint changeForEndpoint refuses. */
  ghost predicate Refused(e: Endpoint) {
    (e.recordType != "A" && e.recordType != "CNAME" && e.recordType != "NS") || e.dnsName == "" || e.targets == []
  }

  /** There is a batch to submit if and only if no endpoint of the spec is refused and, when publishing, no
      published endpoint whose SetID the spec does not have. */
  lemma RefusedExactly(spec: seq<Endpoint>, status: seq<Endpoint>, codec: Codec)
    ensures DeleteBatch(spec, codec).None? <==> exists e | e in spec :: Refused(e)
    ensures PublishBatch(spec, status, codec).None? <==>
            (exists e | e in spec :: Refused(e)) ||
            exists e | e in status :: Refused(e) && forall f | f in spec :: f.SetId() != e.SetId()
  {
    hide RecordFor, Upserts, Removals, Stale;
    SupportedExactly(spec);
    SupportedExactly(Stale(status, spec));
    forall e ensures e in Stale(status, spec) <==> e in status && forall f | f in spec :: f.SetId() != e.SetId() {
      StaleMembers(status, spec, e);
      NoIdExactly(spec, e.SetId());
    }
  }

  lemma NoIdExactly(eps: seq<Endpoint>, id: string)
    ensures !HasId(eps, id) <==> forall f | f in eps :: f.SetId() != id
  {
    if HasId(eps, id) {
      var i :| 0 <= i < |eps| && eps[i].SetId() == id;
      assert eps[i] in eps;
    }
  }

  lemma SupportedExactly(eps: seq<Endpoint>)
    ensures !AllSupported(eps) <==> exists e | e in eps :: Refused(e)
  {
    if !AllSupported(eps) {
      var i :| 0 <= i < |eps| && !IsSupported(eps[i]);
      assert eps[i] in eps && Refused(eps[i]);
    }
  }
}

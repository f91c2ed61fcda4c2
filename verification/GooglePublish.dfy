/** Publishing a DNSRecord to a Google zone (pkg/dns/google/google.go:262-329): delete what the status
    says was published, add what the spec asks for, in batches. */
module GooglePublish {
  import opened Options
  import opened Endpoints
  import opened GoogleZone
  import B = GoogleBatch
  import opened GoogleTranslate
  import opened Reconciler

  const BATCH_SIZE := 1000

  // ----- the records of an endpoint list -----

  /** The record set of the endpoints at a key, if there is one. */
  ghost function RecordAt(eps: seq<Endpoint>, k: RecordKey, parsesAsIp: string -> bool): Option<RecordSet> {
    if exists n :: IsRecordAt(eps, k, n, parsesAsIp)
    then var n :| IsRecordAt(eps, k, n, parsesAsIp); TranslateName(eps, n, parsesAsIp)
    else None
  }

  ghost predicate IsRecordAt(eps: seq<Endpoint>, k: RecordKey, name: string, parsesAsIp: string -> bool) {
    var r := TranslateName(eps, name, parsesAsIp);
    name in DnsNames(eps) && r.Some? && KeyOf(r.value) == k
  }

  /** Every name translates without a panic, to a record of its own. */
  ghost predicate Translatable(eps: seq<Endpoint>, parsesAsIp: string -> bool) {
    && (forall n | n in DnsNames(eps) :: TranslateName(eps, n, parsesAsIp).Some?)
    && (forall n, m | n in DnsNames(eps) && m in DnsNames(eps) && n != m ::
        Dotted(n, parsesAsIp) != Dotted(m, parsesAsIp))
  }

  /** No record of someone else has one of the names. */
  ghost predicate NoClash(eps: seq<Endpoint>, foreign: Zone, parsesAsIp: string -> bool) {
    forall k, n | k in foreign && n in DnsNames(eps) :: k.name != Dotted(n, parsesAsIp)
  }

  ghost predicate Admissible(eps: seq<Endpoint>, foreign: Zone, parsesAsIp: string -> bool) {
    Translatable(eps, parsesAsIp) && NoClash(eps, foreign, parsesAsIp)
  }

  ghost function KeysFor(eps: seq<Endpoint>, parsesAsIp: string -> bool): set<RecordKey> {
    set n | n in DnsNames(eps) && TranslateName(eps, n, parsesAsIp).Some? ::
        KeyOf(TranslateName(eps, n, parsesAsIp).value)
  }

  /** The foreign records together with the translation of the endpoints. */
  ghost function ZoneFor(eps: seq<Endpoint>, foreign: Zone, parsesAsIp: string -> bool): Zone {
    map k | k in foreign.Keys + KeysFor(eps, parsesAsIp) ::
      if RecordAt(eps, k, parsesAsIp).Some? then RecordAt(eps, k, parsesAsIp).value else if k in foreign then
          foreign[k] else DUMMY_RECORD
  }

  ghost const DUMMY_RECORD := RecordSet("", "", 0, [], NoPolicy)

  ghost function Lookup(z: Zone, k: RecordKey): Option<RecordSet> {
    if k in z then Some(z[k]) else None
  }

  lemma RecordAtFacts(eps: seq<Endpoint>, k: RecordKey, parsesAsIp: string -> bool)
    ensures RecordAt(eps, k, parsesAsIp).Some? <==> k in KeysFor(eps, parsesAsIp)
    ensures RecordAt(eps, k, parsesAsIp).Some? ==> KeyOf(RecordAt(eps, k, parsesAsIp).value) == k
  {
    if k in KeysFor(eps, parsesAsIp) {
      var n :| n in DnsNames(eps) && TranslateName(eps, n, parsesAsIp).Some? &&
        KeyOf(TranslateName(eps, n, parsesAsIp).value) == k;
      assert IsRecordAt(eps, k, n, parsesAsIp);
    }
  }

  lemma ZoneForAt(eps: seq<Endpoint>, foreign: Zone, parsesAsIp: string -> bool, k: RecordKey)
    ensures Lookup(ZoneFor(eps, foreign, parsesAsIp), k) ==
            if RecordAt(eps, k, parsesAsIp).Some? then RecordAt(eps, k, parsesAsIp) else Lookup(foreign, k)
  {
    RecordAtFacts(eps, k, parsesAsIp);
  }

  /** The zone of a list: the foreign records, and for each name of the list the translation of its
      endpoints. */
  lemma ZoneHolds(eps: seq<Endpoint>, foreign: Zone, parsesAsIp: string -> bool, name: string)
    requires Admissible(eps, foreign, parsesAsIp) && name in DnsNames(eps)
    ensures var r, z := TranslateName(eps, name, parsesAsIp), ZoneFor(eps, foreign, parsesAsIp);
            && r.Some? && Named(eps, name) != [] && IsTranslation(r.value, name, Named(eps, name), parsesAsIp)
            && RecordKey(r.value.name, r.value.rtype) in z && z[RecordKey(r.value.name, r.value.rtype)] == r.value
  {
    hide TranslateName, DnsNames, ZoneFor, RecordAt, IsTranslation, Dotted;
    NameTranslates(eps, name, parsesAsIp);
    var r := TranslateName(eps, name, parsesAsIp).value;
    assert IsRecordAt(eps, KeyOf(r), name, parsesAsIp);
    RecordIsUnique(eps, KeyOf(r), name, parsesAsIp);
    ZoneForAt(eps, foreign, parsesAsIp, KeyOf(r));
  }

  lemma NameTranslates(eps: seq<Endpoint>, name: string, parsesAsIp: string -> bool)
    requires TranslateName(eps, name, parsesAsIp).Some?
    ensures Named(eps, name) != [] &&
            IsTranslation(TranslateName(eps, name, parsesAsIp).value, name, Named(eps, name), parsesAsIp)
  {
    hide Translate, IsTranslation;
    TranslateExactly(name, Named(eps, name), parsesAsIp);
  }

  /** And nothing else. */
  lemma ZoneHoldsOnly(eps: seq<Endpoint>, foreign: Zone, parsesAsIp: string -> bool, k: RecordKey)
    requires Admissible(eps, foreign, parsesAsIp)
    ensures var z := ZoneFor(eps, foreign, parsesAsIp);
            && (k in foreign ==> k in z && z[k] == foreign[k])
            && (k in z && k !in foreign ==>
                  exists name | name in DnsNames(eps) :: TranslateName(eps, name, parsesAsIp) == Some(z[k]))
  {
    hide TranslateName, DnsNames, ZoneFor, Dotted;
    ZoneForAt(eps, foreign, parsesAsIp, k);
    if RecordAt(eps, k, parsesAsIp).Some? {
      RecordNameClash(eps, foreign, parsesAsIp, k);
      var n :| IsRecordAt(eps, k, n, parsesAsIp);
      RecordIsUnique(eps, k, n, parsesAsIp);
    }
  }

  lemma {:induction false} TranslatedName(
    start: RecordSet, group: seq<Endpoint>, weighted: bool, geo: bool, parsesAsIp: string -> bool)
    requires PolicyFits(start.policy, weighted, geo)
    ensures var r := AddEndpoints(start, group, weighted, geo, parsesAsIp); r.Some? ==> r.value.name == start.name
  {
    if group != [] {
      TranslatedName(start, group[..|group| - 1], weighted, geo, parsesAsIp);
    }
  }

  lemma NameOfRecord(eps: seq<Endpoint>, name: string, parsesAsIp: string -> bool)
    ensures var r := TranslateName(eps, name, parsesAsIp); r.Some? ==> r.value.name == Dotted(name, parsesAsIp)
  {
    var group := Named(eps, name);
    if group != [] {
      TranslatedName(FirstRecord(name, group[0], parsesAsIp), group, HasWeight(group[0]), HasGeoCode(group[0]),
        parsesAsIp);
    }
  }

  /** A list of record sets that translates the endpoints holds each of their records once. */
  ghost predicate Lists(records: seq<RecordSet>, eps: seq<Endpoint>, parsesAsIp: string -> bool) {
    && (forall i, j | 0 <= i < j < |records| :: records[i].name != records[j].name)
    && (forall r :: r in records <==> RecordAt(eps, KeyOf(r), parsesAsIp) == Some(r))
  }

  lemma {:induction false} RecordsAtMostOne(records: seq<RecordSet>, name: string)
    requires forall i, j | 0 <= i < j < |records| :: records[i].name != records[j].name
    ensures |B.Named(records, name)| <= 1
  {
    if records != [] {
      var n := |records| - 1;
      RecordsAtMostOne(records[..n], name);
      if records[n].name == name {
        NoneNamed(records[..n], name);
      }
    }
  }

  lemma {:induction false} NoneNamed(records: seq<RecordSet>, name: string)
    requires forall i | 0 <= i < |records| :: records[i].name != name
    ensures B.Named(records, name) == []
  {
    if records != [] {
      NoneNamed(records[..|records| - 1], name);
    }
  }

  lemma ListedAt(records: seq<RecordSet>, eps: seq<Endpoint>, parsesAsIp: string -> bool, k: RecordKey)
    requires Lists(records, eps, parsesAsIp)
    ensures At(records, k) == if RecordAt(eps, k, parsesAsIp).Some? then [RecordAt(eps, k, parsesAsIp).value] else []
  {
    hide RecordAt;
    var r := RecordAt(eps, k, parsesAsIp);
    RecordAtFacts(eps, k, parsesAsIp);
    RecordsAtMostOne(records, k.name);
    B.AtNamed(records, k);
    AtShorter(B.Named(records, k.name), k);
    if r.Some? {
      AtMembers(records, k, r.value);
    } else if At(records, k) != [] {
      AtMembers(records, k, At(records, k)[0]);
    }
  }

  lemma {:induction false} AtShorter(rs: seq<RecordSet>, k: RecordKey)
    ensures |At(rs, k)| <= |rs|
  {
    if rs != [] {
      AtShorter(rs[..|rs| - 1], k);
    }
  }

  /** Whatever order the endpoint map is visited in, the translation lists the records. */
  lemma TranslationLists(eps: seq<Endpoint>, order: seq<string>, records: seq<RecordSet>, parsesAsIp: string -> bool)
    requires Translatable(eps, parsesAsIp) && ListsNames(order, eps) && Translates(eps, order, records, parsesAsIp)
    ensures Lists(records, eps, parsesAsIp)
  {
    hide TranslateName, DnsNames, Dotted;
    forall i, j | 0 <= i < j < |records| ensures records[i].name != records[j].name {
      NameOfRecord(eps, order[i], parsesAsIp);
      NameOfRecord(eps, order[j], parsesAsIp);
    }
    forall r ensures r in records <==> RecordAt(eps, KeyOf(r), parsesAsIp) == Some(r) {
      if r in records {
        var i :| 0 <= i < |records| && records[i] == r;
        assert IsRecordAt(eps, KeyOf(r), order[i], parsesAsIp);
        RecordIsUnique(eps, KeyOf(r), order[i], parsesAsIp);
      }
      if RecordAt(eps, KeyOf(r), parsesAsIp) == Some(r) {
        var n :| IsRecordAt(eps, KeyOf(r), n, parsesAsIp) && TranslateName(eps, n, parsesAsIp) == Some(r);
        assert n in order;
        var i :| 0 <= i < |order| && order[i] == n;
        assert records[i] == r;
      }
    }
  }

  lemma RecordIsUnique(eps: seq<Endpoint>, k: RecordKey, name: string, parsesAsIp: string -> bool)
    requires Translatable(eps, parsesAsIp) && IsRecordAt(eps, k, name, parsesAsIp)
    ensures RecordAt(eps, k, parsesAsIp) == TranslateName(eps, name, parsesAsIp)
  {
    hide TranslateName, DnsNames, Dotted;
    forall n | IsRecordAt(eps, k, n, parsesAsIp) ensures n == name {
      NameOfRecord(eps, n, parsesAsIp);
      NameOfRecord(eps, name, parsesAsIp);
    }
  }

  // ----- one change -----

  lemma RecordNameClash(eps: seq<Endpoint>, foreign: Zone, parsesAsIp: string -> bool, k: RecordKey)
    requires NoClash(eps, foreign, parsesAsIp) && RecordAt(eps, k, parsesAsIp).Some?
    ensures k !in foreign
  {
    hide TranslateName, DnsNames, Dotted;
    var n :| IsRecordAt(eps, k, n, parsesAsIp);
    NameOfRecord(eps, n, parsesAsIp);
  }

  /** Deleting the published records and adding the new ones turns the one zone into the other. */
  lemma OneChange(
    foreign: Zone, status: seq<Endpoint>, spec: seq<Endpoint>, adds: seq<RecordSet>, dels: seq<RecordSet>,
    parsesAsIp: string -> bool)
    requires Admissible(status, foreign, parsesAsIp) && Admissible(spec, foreign, parsesAsIp)
    requires Lists(adds, spec, parsesAsIp) && Lists(dels, status, parsesAsIp)
    ensures Apply(ZoneFor(status, foreign, parsesAsIp), Change(adds, dels)) == Some(ZoneFor(spec, foreign, parsesAsIp))
  {
    hide RecordAt, ZoneFor, Lists, At, Applied, Translatable, NoClash;
    var z, c, z1 := ZoneFor(status, foreign, parsesAsIp), Change(adds, dels), ZoneFor(spec, foreign, parsesAsIp);
    forall k ensures AcceptableAt(z, c, k) && Lookup(Applied(z, c), k) == Lookup(z1, k) {
      ListedAt(adds, spec, parsesAsIp, k);
      ListedAt(dels, status, parsesAsIp, k);
      ZoneForAt(status, foreign, parsesAsIp, k);
      ZoneForAt(spec, foreign, parsesAsIp, k);
      if RecordAt(spec, k, parsesAsIp).Some? {
        RecordNameClash(spec, foreign, parsesAsIp, k);
      }
      if RecordAt(status, k, parsesAsIp).Some? {
        RecordNameClash(status, foreign, parsesAsIp, k);
      }
      AppliedAt(z, c, k);
    }
    SameZone(Applied(z, c), z1);
  }

  lemma SameZone(a: Zone, b: Zone)
    requires forall k :: Lookup(a, k) == Lookup(b, k)
    ensures a == b
  {
    forall k ensures (k in a <==> k in b) && (k in a ==> a[k] == b[k]) {
      assert Lookup(a, k) == Lookup(b, k);
    }
  }

  lemma NothingPublished(foreign: Zone, parsesAsIp: string -> bool)
    ensures ZoneFor([], foreign, parsesAsIp) == foreign
    ensures Admissible([], foreign, parsesAsIp) && Lists([], [], parsesAsIp)
  {
    assert DnsNames([]) == {};
    forall k ensures Lookup(ZoneFor([], foreign, parsesAsIp), k) == Lookup(foreign, k) &&
      RecordAt([], k, parsesAsIp) == None {
      ZoneForAt([], foreign, parsesAsIp, k);
      RecordAtFacts([], k, parsesAsIp);
    }
    SameZone(ZoneFor([], foreign, parsesAsIp), foreign);
  }

  /** With one record set per name every group fits into a batch. */
  lemma GroupsFit(adds: seq<RecordSet>, dels: seq<RecordSet>)
    requires forall i, j | 0 <= i < j < |adds| :: adds[i].name != adds[j].name
    requires forall i, j | 0 <= i < j < |dels| :: dels[i].name != dels[j].name
    ensures B.EveryGroupFits(Change(adds, dels), BATCH_SIZE)
  {
    forall n | B.Mentions(Change(adds, dels), n) ensures B.Fits(Change(adds, dels), n, BATCH_SIZE) {
      RecordsAtMostOne(adds, n);
      RecordsAtMostOne(dels, n);
    }
  }

  // ----- what updateRecord submits -----

  /** The listing of a zone, in any order. */
  ghost predicate ListsZone(listing: seq<RecordSet>, z: Zone) {
    forall r :: r in listing <==> KeyOf(r) in z && z[KeyOf(r)] == r
  }

  ghost predicate IsStatusName(status: seq<Endpoint>, name: string, parsesAsIp: string -> bool) {
    exists n | n in DnsNames(status) :: name == Dotted(n, parsesAsIp)
  }

  /** The records of the zone under the names of the status, each once. */
  ghost predicate DeletesExactly(dels: seq<RecordSet>, status: seq<Endpoint>, z: Zone, parsesAsIp: string -> bool) {
    && (forall i, j | 0 <= i < j < |dels| :: dels[i].name != dels[j].name)
    && (forall r :: r in dels <==> KeyOf(r) in z && z[KeyOf(r)] == r && IsStatusName(status, r.name, parsesAsIp))
  }

  lemma DeletesWhatWasPublished(dels: seq<RecordSet>, status: seq<Endpoint>, foreign: Zone, parsesAsIp: string -> bool)
    requires Admissible(status, foreign, parsesAsIp)
    requires DeletesExactly(dels, status, ZoneFor(status, foreign, parsesAsIp), parsesAsIp)
    ensures Lists(dels, status, parsesAsIp)
  {
    hide RecordAt, ZoneFor, TranslateName, Dotted, DnsNames;
    var z := ZoneFor(status, foreign, parsesAsIp);
    forall r ensures r in dels <==> RecordAt(status, KeyOf(r), parsesAsIp) == Some(r) {
      ZoneForAt(status, foreign, parsesAsIp, KeyOf(r));
      if r in dels {
        assert KeyOf(r) !in foreign;
      }
      if RecordAt(status, KeyOf(r), parsesAsIp) == Some(r) {
        OwnName(status, r, parsesAsIp);
      }
    }
  }

  lemma OwnName(eps: seq<Endpoint>, r: RecordSet, parsesAsIp: string -> bool)
    requires RecordAt(eps, KeyOf(r), parsesAsIp) == Some(r)
    ensures IsStatusName(eps, r.name, parsesAsIp)
  {
    hide TranslateName, Dotted, DnsNames;
    var n :| IsRecordAt(eps, KeyOf(r), n, parsesAsIp);
    NameOfRecord(eps, n, parsesAsIp);
  }

  /** A publish, and a delete, of a record whose status is what the zone holds. */
  lemma BatchesPublish(
    foreign: Zone, status: seq<Endpoint>, spec: seq<Endpoint>, adds: seq<RecordSet>, dels: seq<RecordSet>,
    parsesAsIp: string -> bool)
    requires Admissible(status, foreign, parsesAsIp) && Admissible(spec, foreign, parsesAsIp)
    requires Lists(adds, spec, parsesAsIp) &&
             DeletesExactly(dels, status, ZoneFor(status, foreign, parsesAsIp), parsesAsIp)
    ensures ApplyAll(ZoneFor(status, foreign, parsesAsIp), B.Batches(Change(adds, dels), BATCH_SIZE)) ==
            Some(ZoneFor(spec, foreign, parsesAsIp))
    ensures ApplyAll(ZoneFor(status, foreign, parsesAsIp), B.Batches(Change([], dels), BATCH_SIZE)) == Some(foreign)
  {
    hide ZoneFor, Admissible, Apply, ApplyAll, B.Batches, RecordAt;
    var z := ZoneFor(status, foreign, parsesAsIp);
    DeletesWhatWasPublished(dels, status, foreign, parsesAsIp);
    OneChange(foreign, status, spec, adds, dels, parsesAsIp);
    GroupsFit(adds, dels);
    B.BatchesRefineChange(z, Change(adds, dels), BATCH_SIZE);
    NothingPublished(foreign, parsesAsIp);
    OneChange(foreign, status, [], [], dels, parsesAsIp);
    GroupsFit([], dels);
    B.BatchesRefineChange(z, Change([], dels), BATCH_SIZE);
  }

  // ----- updateRecord -----

  /** The last listed record of each name. */
  method ByName(records: seq<RecordSet>) returns (byName: map<string, RecordSet>)
    ensures forall n :: n in byName <==> exists i :: 0 <= i < |records| && records[i].name == n
    ensures forall n | n in byName :: byName[n] in records && byName[n].name == n
  {
    byName := map[];
    for i := 0 to |records|
      invariant forall n :: n in byName <==> exists j :: 0 <= j < i && records[j].name == n
      invariant forall n | n in byName :: byName[n] in records && byName[n].name == n
    {
      byName := byName[records[i].name := records[i]];
    }
  }

  /** At most one record of the zone has a name of the status. */
  ghost predicate OneRecordPerName(status: seq<Endpoint>, z: Zone, parsesAsIp: string -> bool) {
    forall k, l | k in z && l in z && k.name == l.name && IsStatusName(status, k.name, parsesAsIp) :: k == l
  }

  /** In a zone that holds what the status says there is one record for each name of the status. */
  lemma OneRecordInStep(status: seq<Endpoint>, foreign: Zone, parsesAsIp: string -> bool)
    requires Admissible(status, foreign, parsesAsIp)
    ensures OneRecordPerName(status, ZoneFor(status, foreign, parsesAsIp), parsesAsIp)
  {
    hide ZoneFor, Admissible, RecordAt, IsStatusName;
    var z := ZoneFor(status, foreign, parsesAsIp);
    forall k, l | k in z && l in z && k.name == l.name && IsStatusName(status, k.name, parsesAsIp) ensures k == l {
      var n := PublishedName(status, foreign, parsesAsIp, k);
      var m := PublishedName(status, foreign, parsesAsIp, l);
      SameDotted(status, foreign, parsesAsIp, n, m);
    }
  }

  lemma PublishedName(
    status: seq<Endpoint>, foreign: Zone, parsesAsIp: string -> bool, k: RecordKey) returns (name: string)
    requires Admissible(status, foreign, parsesAsIp) && k in ZoneFor(status, foreign, parsesAsIp) &&
             IsStatusName(status, k.name, parsesAsIp)
    ensures IsRecordAt(status, k, name, parsesAsIp) && Dotted(name, parsesAsIp) == k.name
  {
    hide ZoneFor, TranslateName, DnsNames, Dotted;
    ZoneForAt(status, foreign, parsesAsIp, k);
    var n :| n in DnsNames(status) && k.name == Dotted(n, parsesAsIp);
    assert k !in foreign;
    name :| IsRecordAt(status, k, name, parsesAsIp);
    NameOfRecord(status, name, parsesAsIp);
  }

  lemma SameDotted(status: seq<Endpoint>, foreign: Zone, parsesAsIp: string -> bool, n: string, m: string)
    requires Admissible(status, foreign, parsesAsIp) && n in DnsNames(status) && m in DnsNames(status)
    ensures Dotted(n, parsesAsIp) == Dotted(m, parsesAsIp) ==> n == m
  {}

  /** What updateRecord comes up with for a zone in step is what the run theorems are about, and it
      publishes or deletes. */
  lemma InStepPossible(
    spec: seq<Endpoint>, status: seq<Endpoint>, foreign: Zone, adds: seq<RecordSet>, dels: seq<RecordSet>,
      parsesAsIp: string -> bool)
    requires Admissible(spec, foreign, parsesAsIp) && Admissible(status, foreign, parsesAsIp) &&
             Lists(adds, spec, parsesAsIp)
    requires var z := ZoneFor(status, foreign, parsesAsIp);
             OneRecordPerName(status, z, parsesAsIp) ==> DeletesExactly(dels, status, z, parsesAsIp)
    ensures var z := ZoneFor(status, foreign, parsesAsIp);
            && GooglePossible(parsesAsIp)(spec, status, z, Visit(adds, dels))
            && ApplyAll(z, B.Batches(Change(adds, dels), BATCH_SIZE)) == Some(ZoneFor(spec, foreign, parsesAsIp))
            && ApplyAll(z, B.Batches(Change([], dels), BATCH_SIZE)) == Some(foreign)
  {
    hide ZoneFor, Admissible, Lists, DeletesExactly, OneRecordPerName, ApplyAll, B.Batches;
    OneRecordInStep(status, foreign, parsesAsIp);
    BatchesPublish(foreign, status, spec, adds, dels, parsesAsIp);
  }

  /** Reconciling with updateRecord: given the listing of a zone that holds what the status says, the
      submitted batches turn it into what the spec says, or leave the foreign records. */
  method UpdateZone(
    spec: seq<Endpoint>, status: seq<Endpoint>, listing: seq<RecordSet>, deleting: bool, parsesAsIp: string -> bool,
      ghost foreign: Zone)
    returns (batches: seq<Change>, ghost v: Visit)
    requires Admissible(spec, foreign, parsesAsIp) && Admissible(status, foreign, parsesAsIp)
    requires ListsZone(listing, ZoneFor(status, foreign, parsesAsIp))
    ensures ApplyAll(ZoneFor(status, foreign, parsesAsIp), batches) ==
            Some(if deleting then foreign else ZoneFor(spec, foreign, parsesAsIp))
    ensures batches == B.Batches(Change(if deleting then [] else v.adds, v.dels), BATCH_SIZE)
    ensures GooglePossible(parsesAsIp)(spec, status, ZoneFor(status, foreign, parsesAsIp), v)
  {
    hide ZoneFor, Lists, DeletesExactly, OneRecordPerName, ApplyAll, B.Batches, ListsZone, Translatable, NoClash;
    ghost var z := ZoneFor(status, foreign, parsesAsIp);
    var r;
    ghost var adds, dels;
    r, adds, dels := UpdateRecord(spec, status, listing, deleting, parsesAsIp, z);
    InStepPossible(spec, status, foreign, adds, dels, parsesAsIp);
    v := Visit(adds, dels);
    batches := r.value;
  }

  /** `updateRecord`: the batches submitted for a record with this spec and status, given the zone's
      listing. It gives up, before submitting anything, where the translation panics. */
  method UpdateRecord(
    spec: seq<Endpoint>, status: seq<Endpoint>, listing: seq<RecordSet>, deleting: bool, parsesAsIp: string -> bool,
    ghost z: Zone)
    returns (batches: Option<seq<Change>>, ghost adds: seq<RecordSet>, ghost dels: seq<RecordSet>)
    requires ListsZone(listing, z)
    ensures Translatable(spec, parsesAsIp) && Translatable(status, parsesAsIp) ==> batches.Some?
    ensures batches.Some? ==> batches.value == B.Batches(Change(if deleting then [] else adds, dels), BATCH_SIZE)
    ensures batches.Some? && Translatable(spec, parsesAsIp) ==> Lists(adds, spec, parsesAsIp)
    ensures batches.Some? && OneRecordPerName(status, z, parsesAsIp) ==> DeletesExactly(dels, status, z, parsesAsIp)
  {
    hide Translatable, TranslateName, Lists, DeletesExactly, Dotted, DnsNames, OneRecordPerName, IsStatusName,
      ListsZone, ListsNames,
      Translates, DeletingSoFar;
    adds, dels := [], [];
    var currentRecords := ByName(listing);
    var statusRecords, statusOrder := ToResourceRecordSets(status, parsesAsIp);
    if statusRecords.None? {
      NotTranslatable(status, parsesAsIp);
      return None, adds, dels;
    }
    var statusByName := ByName(statusRecords.value);
    var deletingRecords := Deleting(statusByName, currentRecords);
    var addingRecords, specOrder := ToResourceRecordSets(spec, parsesAsIp);
    if addingRecords.None? {
      NotTranslatable(spec, parsesAsIp);
      return None, adds, dels;
    }
    adds, dels := addingRecords.value, deletingRecords;
    if Translatable(spec, parsesAsIp) {
      TranslationLists(spec, specOrder, adds, parsesAsIp);
    }
    if OneRecordPerName(status, z, parsesAsIp) {
      DeletionsExact(status, statusOrder, statusRecords.value, statusByName, listing, currentRecords, dels, z,
        parsesAsIp);
    }
    var change := Change(if deleting then [] else addingRecords.value, deletingRecords);
    var cs := B.BatchChange(change, BATCH_SIZE);
    return Some(cs), adds, dels;
  }

  /** The current records under the names of the status. */
  method Deleting(
    statusByName: map<string, RecordSet>, currentRecords: map<string, RecordSet>) returns (deleting: seq<RecordSet>)
    requires forall n | n in currentRecords :: currentRecords[n].name == n
    ensures DeletingSoFar(deleting, statusByName.Keys, currentRecords)
  {
    deleting := [];
    var names := statusByName.Keys;
    while names != {}
      invariant names <= statusByName.Keys
      invariant DeletingSoFar(deleting, statusByName.Keys - names, currentRecords)
    {
      var name :| name in names;
      ghost var done := statusByName.Keys - names;
      if name in currentRecords {
        deleting := deleting + [currentRecords[name]];
      }
      names := names - {name};
      assert statusByName.Keys - names == done + {name};
    }
    assert statusByName.Keys - names == statusByName.Keys;
  }

  /** The deletions gathered after visiting some of the status names. */
  ghost predicate DeletingSoFar(deleting: seq<RecordSet>, done: set<string>, currentRecords: map<string, RecordSet>) {
    && (forall n | n in currentRecords :: currentRecords[n].name == n)
    && (forall i | 0 <= i < |deleting| :: deleting[i].name in done)
    && (forall i, j | 0 <= i < j < |deleting| :: deleting[i].name != deleting[j].name)
    && (forall r :: r in deleting <==> r.name in done && r.name in currentRecords && currentRecords[r.name] == r)
  }

  lemma NotTranslatable(eps: seq<Endpoint>, parsesAsIp: string -> bool)
    requires exists n | n in DnsNames(eps) :: TranslateName(eps, n, parsesAsIp) == None
    ensures !Translatable(eps, parsesAsIp)
  {}

  lemma StatusNames(
    status: seq<Endpoint>, order: seq<string>, records: seq<RecordSet>, parsesAsIp: string -> bool, name: string)
    requires ListsNames(order, status) && Translates(status, order, records, parsesAsIp)
    ensures IsStatusName(status, name, parsesAsIp) <==> exists i :: 0 <= i < |records| && records[i].name == name
  {
    hide TranslateName, Dotted, DnsNames;
    if n :| n in DnsNames(status) && name == Dotted(n, parsesAsIp) {
      assert n in order;
      var i :| 0 <= i < |order| && order[i] == n;
      NameOfRecord(status, order[i], parsesAsIp);
      assert records[i].name == name;
    }
    if i :| 0 <= i < |records| && records[i].name == name {
      NameOfRecord(status, order[i], parsesAsIp);
      assert order[i] in order;
    }
  }

  lemma DeletionsExact(
    status: seq<Endpoint>, order: seq<string>, records: seq<RecordSet>, statusByName: map<string, RecordSet>,
    listing: seq<RecordSet>, currentRecords: map<string, RecordSet>, dels: seq<RecordSet>, z: Zone,
      parsesAsIp: string -> bool)
    requires ListsNames(order, status) && Translates(status, order, records, parsesAsIp)
    requires forall n :: n in statusByName <==> exists i :: 0 <= i < |records| && records[i].name == n
    requires ListsZone(listing, z) && OneRecordPerName(status, z, parsesAsIp)
    requires forall n :: n in currentRecords <==> exists i :: 0 <= i < |listing| && listing[i].name == n
    requires forall n | n in currentRecords :: currentRecords[n] in listing && currentRecords[n].name == n
    requires DeletingSoFar(dels, statusByName.Keys, currentRecords)
    ensures DeletesExactly(dels, status, z, parsesAsIp)
  {
    hide IsStatusName, Translates, ListsNames;
    forall r ensures r in dels <==> KeyOf(r) in z && z[KeyOf(r)] == r && IsStatusName(status, r.name, parsesAsIp) {
      StatusNames(status, order, records, parsesAsIp, r.name);
      if KeyOf(r) in z && z[KeyOf(r)] == r && IsStatusName(status, r.name, parsesAsIp) {
        assert r in listing;
        var i :| 0 <= i < |listing| && listing[i] == r;
        var c := currentRecords[r.name];
        assert c in listing;
        assert KeyOf(c) == KeyOf(r);
      }
    }
  }

  // ----- runs of the reconciler on a Google zone -----

  /** The record lists that one reconcile works with: additions and deletions in the order Go's maps
      are visited. */
  datatype Visit = Visit(adds: seq<RecordSet>, dels: seq<RecordSet>)

  ghost function GoogleEnsure(): Ensure<Zone, Visit> {
    (spec: seq<Endpoint>, status: seq<Endpoint>, z: Zone, v: Visit) => ApplyAll(z,
      B.Batches(Change(v.adds, v.dels), BATCH_SIZE))
  }

  ghost function GoogleDelete(): Delete<Zone, Visit> {
    (spec: seq<Endpoint>, status: seq<Endpoint>, z: Zone, v: Visit) =>
      var r := ApplyAll(z, B.Batches(Change([], v.dels), BATCH_SIZE));
      if r.Some? then Deleted(r.value) else OtherError
  }

  /** What updateRecord can come up with. */
  ghost function GooglePossible(parsesAsIp: string -> bool): Possible<Zone, Visit> {
    (spec: seq<Endpoint>, status: seq<Endpoint>, z: Zone, v: Visit) =>
      Lists(v.adds, spec, parsesAsIp) && DeletesExactly(v.dels, status, z, parsesAsIp)
  }

  ghost function GoogleZoneFor(foreign: Zone, parsesAsIp: string -> bool): seq<Endpoint> -> Zone {
    (eps: seq<Endpoint>) => ZoneFor(eps, foreign, parsesAsIp)
  }

  ghost function BothAdmissible(foreign: Zone, parsesAsIp: string -> bool): (seq<Endpoint>, seq<Endpoint>) -> bool {
    (a: seq<Endpoint>, b: seq<Endpoint>) => Admissible(a, foreign, parsesAsIp) && Admissible(b, foreign, parsesAsIp)
  }

  lemma GoogleLaw(foreign: Zone, parsesAsIp: string -> bool)
    ensures EnsureLaw(GoogleEnsure(), GooglePossible(parsesAsIp), GoogleZoneFor(foreign, parsesAsIp),
            BothAdmissible(foreign, parsesAsIp))
  {
    hide Lists, DeletesExactly, Admissible, ZoneFor, ApplyAll, B.Batches;
    var zoneFor := GoogleZoneFor(foreign, parsesAsIp);
    forall spec, status, v: Visit |
      BothAdmissible(foreign, parsesAsIp)(spec, status) && GooglePossible(parsesAsIp)(spec, status, zoneFor(status), v)
      ensures GoogleEnsure()(spec, status, zoneFor(status), v) == Some(zoneFor(spec))
    {
      BatchesPublish(foreign, status, spec, v.adds, v.dels, parsesAsIp);
    }
  }

  /** A record that was never reconciled. */
  ghost predicate IsNew(r: Record) {
    r.statusEndpoints == [] && r.observedGeneration == 0 && r.generation >= 1
  }

  /** Over every run from a new record, the zone is the foreign records, untouched, together with the
      translation of what was published last; once the current generation has been published, that is
      the translation of the spec. */
  lemma GoogleRun(r: Record, foreign: Zone, steps: seq<Step<Visit>>, parsesAsIp: string -> bool)
    requires IsNew(r)
    requires forall eps | IsStatusOf(State(Some(r), foreign), steps, eps) :: Admissible(eps, foreign, parsesAsIp)
    requires PossibleRun(State(Some(r), foreign), steps, GoogleEnsure(), GoogleDelete(), GooglePossible(parsesAsIp))
    ensures var s := After(State(Some(r), foreign), steps, GoogleEnsure(), GoogleDelete());
            s.record.Some? ==>
              && s.zone == ZoneFor(s.record.value.statusEndpoints, foreign, parsesAsIp)
              && (s.record.value.observedGeneration == s.record.value.generation ==>
                  s.zone == ZoneFor(s.record.value.spec, foreign, parsesAsIp))
  {
    hide IsSpecOf, Admissible, PossibleRun, ZoneFor, After, EnsureLaw;
    var start := State(Some(r), foreign);
    NothingPublished(foreign, parsesAsIp);
    GoogleLaw(foreign, parsesAsIp);
    RunKeepsInStep(start, steps, GoogleEnsure(), GoogleDelete(), GooglePossible(parsesAsIp),
      GoogleZoneFor(foreign, parsesAsIp), BothAdmissible(foreign, parsesAsIp));
  }

  /** At the end of such a run, reconciling a record that is being deleted removes exactly its own
      records, whatever is in its spec. */
  lemma GoogleDeleteRemovesExactly(
    r: Record, foreign: Zone, steps: seq<Step<Visit>>, v: Visit, parsesAsIp: string -> bool)
    requires IsNew(r)
    requires forall eps | IsStatusOf(State(Some(r), foreign), steps, eps) :: Admissible(eps, foreign, parsesAsIp)
    requires PossibleRun(State(Some(r), foreign), steps, GoogleEnsure(), GoogleDelete(), GooglePossible(parsesAsIp))
    requires var s := After(State(Some(r), foreign), steps, GoogleEnsure(), GoogleDelete());
             s.record.Some? && s.record.value.deleting &&
               PossibleStep(s, Reconciled(ZoneReady, v), GooglePossible(parsesAsIp))
    ensures var s := After(State(Some(r), foreign), steps, GoogleEnsure(), GoogleDelete());
            Take(s, Reconciled(ZoneReady, v), GoogleEnsure(), GoogleDelete()) == State(None, foreign)
  {
    hide IsSpecOf, Admissible, PossibleRun, ZoneFor, After, ApplyAll, B.Batches, Lists, DeletesExactly;
    var start := State(Some(r), foreign);
    var s := After(start, steps, GoogleEnsure(), GoogleDelete());
    GoogleRun(r, foreign, steps, parsesAsIp);
    ListsOfRun(start, steps, GoogleEnsure(), GoogleDelete());
    BatchesPublish(foreign, s.record.value.statusEndpoints, s.record.value.spec, v.adds, v.dels, parsesAsIp);
  }

  /** At the end of such a run, unless the record is being deleted, two reconciles with the zone ready make
      the zone that of the current spec. */
  lemma GoogleSettles(
    r: Record, foreign: Zone, steps: seq<Step<Visit>>, a: Visit, b: Visit, parsesAsIp: string -> bool)
    requires IsNew(r)
    requires forall eps | IsStatusOf(State(Some(r), foreign), steps, eps) :: Admissible(eps, foreign, parsesAsIp)
    requires PossibleRun(State(Some(r), foreign), ThenReady(steps, a, b), GoogleEnsure(), GoogleDelete(),
               GooglePossible(parsesAsIp))
    requires var s := After(State(Some(r), foreign), steps, GoogleEnsure(), GoogleDelete());
             s.record.Some? && !s.record.value.deleting
    ensures var s := After(State(Some(r), foreign), steps, GoogleEnsure(), GoogleDelete());
            UpToDate(After(State(Some(r), foreign), ThenReady(steps, a, b), GoogleEnsure(), GoogleDelete()),
              s.record.value.spec, GoogleZoneFor(foreign, parsesAsIp))
  {
    hide IsSpecOf, Admissible, PossibleRun, ZoneFor, After, EnsureLaw, ThenReady, UpToDate;
    NothingPublished(foreign, parsesAsIp);
    GoogleLaw(foreign, parsesAsIp);
    RunSettles(State(Some(r), foreign), steps, a, b, GoogleEnsure(), GoogleDelete(), GooglePossible(parsesAsIp),
      GoogleZoneFor(foreign, parsesAsIp), BothAdmissible(foreign, parsesAsIp));
  }
}

/** A Google Cloud DNS zone and the change requests the API accepts: a change must delete exactly
    what exists and may add only what does not exist once the deletions are gone. */
module GoogleZone {
  import opened Options

  datatype WeightedItem = WeightedItem(weight: string, rrdatas: seq<string>)
  datatype GeoItem = GeoItem(location: string, rrdatas: seq<string>)
  datatype Policy = NoPolicy | Wrr(weighted: seq<WeightedItem>) | Geo(located: seq<GeoItem>)

  datatype RecordSet = RecordSet(name: string, rtype: string, ttl: int, rrdatas: seq<string>, policy: Policy)

  datatype RecordKey = RecordKey(name: string, rtype: string)

  function KeyOf(r: RecordSet): RecordKey {
    RecordKey(r.name, r.rtype)
  }

  datatype Change = Change(additions: seq<RecordSet>, deletions: seq<RecordSet>)

  const NO_CHANGE := Change([], [])

  function Join(a: Change, b: Change): Change {
    Change(a.additions + b.additions, a.deletions + b.deletions)
  }

  type Zone = map<RecordKey, RecordSet>

  function At(rs: seq<RecordSet>, k: RecordKey): seq<RecordSet> {
    if rs == [] then [] else At(rs[..|rs| - 1], k) + if KeyOf(rs[|rs| - 1]) == k then [rs[|rs| - 1]] else []
  }

  /** Are these additions and deletions under one key acceptable? */
  predicate AcceptableFor(z: Zone, k: RecordKey, adds: seq<RecordSet>, dels: seq<RecordSet>) {
    && |adds| <= 1
    && (dels != [] ==> k in z && forall d | d in dels :: d == z[k])
    && (adds != [] && k in z ==> dels != [])
  }

  predicate AcceptableAt(z: Zone, c: Change, k: RecordKey) {
    AcceptableFor(z, k, At(c.additions, k), At(c.deletions, k))
  }

  ghost predicate Acceptable(z: Zone, c: Change) {
    forall k :: AcceptableAt(z, c, k)
  }

  /** What the zone holds at k afterwards. */
  function ValueFor(z: Zone, k: RecordKey, adds: seq<RecordSet>, dels: seq<RecordSet>): Option<RecordSet> {
    if adds != [] then Some(adds[0])
    else if dels != [] || k !in z then None
    else Some(z[k])
  }

  function ValueAt(z: Zone, c: Change, k: RecordKey): Option<RecordSet> {
    ValueFor(z, k, At(c.additions, k), At(c.deletions, k))
  }

  function Keys(rs: seq<RecordSet>): set<RecordKey> {
    set i | 0 <= i < |rs| :: KeyOf(rs[i])
  }

  function Applied(z: Zone, c: Change): Zone {
    map k | k in z.Keys + Keys(c.additions) && ValueAt(z, c, k).Some? :: ValueAt(z, c, k).value
  }

  /** The zone after the change, or nothing if the API rejects it. */
  ghost function Apply(z: Zone, c: Change): Option<Zone> {
    if Acceptable(z, c) then Some(Applied(z, c)) else None
  }

  /** Submitting changes one after the other, stopping at the first rejection. */
  ghost function ApplyAll(z: Zone, cs: seq<Change>): Option<Zone> {
    if cs == [] then Some(z)
    else
      var before := ApplyAll(z, cs[..|cs| - 1]);
      if before.None? then None else Apply(before.value, cs[|cs| - 1])
  }

  // ----- facts -----

  lemma {:induction false} AtConcat(a: seq<RecordSet>, b: seq<RecordSet>, k: RecordKey)
    ensures At(a + b, k) == At(a, k) + At(b, k)
  {
    if b == [] {
      assert a + b == a;
    } else {
      var n := |b| - 1;
      AtConcat(a, b[..n], k);
      assert (a + b)[..|a + b| - 1] == a + b[..n];
    }
  }

  lemma {:induction false} AtMembers(rs: seq<RecordSet>, k: RecordKey, r: RecordSet)
    ensures r in At(rs, k) <==> r in rs && KeyOf(r) == k
  {
    if rs != [] {
      AtMembers(rs[..|rs| - 1], k, r);
      assert rs == rs[..|rs| - 1] + [rs[|rs| - 1]];
    }
  }

  lemma AtKeys(rs: seq<RecordSet>, k: RecordKey)
    ensures At(rs, k) != [] <==> k in Keys(rs)
  {
    if At(rs, k) != [] {
      AtMembers(rs, k, At(rs, k)[0]);
    }
    if k in Keys(rs) {
      var i :| 0 <= i < |rs| && KeyOf(rs[i]) == k;
      AtMembers(rs, k, rs[i]);
    }
  }

  /** The zone after an accepted change, key by key. */
  lemma AppliedAt(z: Zone, c: Change, k: RecordKey)
    ensures (if k in Applied(z, c) then Some(Applied(z, c)[k]) else None) == ValueAt(z, c, k)
  {
    AtKeys(c.additions, k);
  }

  ghost predicate Untouched(c: Change, k: RecordKey) {
    At(c.additions, k) == [] && At(c.deletions, k) == []
  }

  ghost predicate SameAt(c: Change, d: Change, k: RecordKey) {
    At(c.additions, k) == At(d.additions, k) && At(c.deletions, k) == At(d.deletions, k)
  }

  lemma SameEffectAt(z: Zone, c: Change, d: Change, k: RecordKey)
    requires SameAt(c, d, k)
    ensures AcceptableAt(z, c, k) <==> AcceptableAt(z, d, k)
    ensures k in Applied(z, c) <==> k in Applied(z, d)
    ensures k in Applied(z, c) ==> Applied(z, c)[k] == Applied(z, d)[k]
  {
    AppliedAt(z, c, k);
    AppliedAt(z, d, k);
  }

  /** Changes that agree key by key have the same effect. */
  lemma ApplySame(z: Zone, c: Change, d: Change)
    requires forall k :: SameAt(c, d, k)
    ensures Apply(z, c) == Apply(z, d)
  {
    hide SameAt, AcceptableAt, Applied;
    forall k
      ensures AcceptableAt(z, c, k) <==> AcceptableAt(z, d, k)
      ensures k in Applied(z, c) <==> k in Applied(z, d)
      ensures k in Applied(z, c) ==> Applied(z, c)[k] == Applied(z, d)[k]
    {
      assert SameAt(c, d, k);
      SameEffectAt(z, c, d, k);
    }
    assert Applied(z, c) == Applied(z, d);
  }

  lemma JoinAt(a: Change, b: Change, k: RecordKey)
    requires Untouched(a, k) || Untouched(b, k)
    ensures var d := if Untouched(b, k) then a else b;
            At(Join(a, b).additions, k) == At(d.additions, k) && At(Join(a, b).deletions, k) == At(d.deletions, k)
  {
    AtConcat(a.additions, b.additions, k);
    AtConcat(a.deletions, b.deletions, k);
  }

  lemma JoinEffectAt(z: Zone, a: Change, b: Change, k: RecordKey)
    requires Untouched(a, k) || Untouched(b, k)
    ensures AcceptableAt(z, Join(a, b), k) <==> AcceptableAt(z, a, k) && AcceptableAt(Applied(z, a), b, k)
    ensures k in Applied(z, Join(a, b)) <==> k in Applied(Applied(z, a), b)
    ensures k in Applied(z, Join(a, b)) ==> Applied(z, Join(a, b))[k] == Applied(Applied(z, a), b)[k]
  {
    hide Applied;
    var z1 := Applied(z, a);
    JoinAt(a, b, k);
    AppliedAt(z, a, k);
    AppliedAt(z, Join(a, b), k);
    AppliedAt(z1, b, k);
    if Untouched(b, k) {
      assert AcceptableAt(z1, b, k);
    } else {
      assert AcceptableAt(z, a, k);
      SameValue(z, z1, k, At(b.additions, k), At(b.deletions, k));
    }
  }

  lemma SameValue(z: Zone, z1: Zone, k: RecordKey, adds: seq<RecordSet>, dels: seq<RecordSet>)
    requires (k in z <==> k in z1) && (k in z ==> z[k] == z1[k])
    ensures AcceptableFor(z, k, adds, dels) <==> AcceptableFor(z1, k, adds, dels)
    ensures ValueFor(z, k, adds, dels) == ValueFor(z1, k, adds, dels)
  {}

  /** Two changes without a common key, applied one after the other, are one change. */
  lemma ApplyJoin(z: Zone, a: Change, b: Change)
    requires forall k :: Untouched(a, k) || Untouched(b, k)
    ensures Apply(z, Join(a, b)) == if Apply(z, a).None? then None else Apply(Apply(z, a).value, b)
  {
    hide Untouched, AcceptableAt, Applied, Join;
    var z1 := Applied(z, a);
    var l, r := Applied(z, Join(a, b)), Applied(z1, b);
    forall k
      ensures AcceptableAt(z, Join(a, b), k) <==> AcceptableAt(z, a, k) && AcceptableAt(z1, b, k)
      ensures (k in l <==> k in r) && (k in l ==> l[k] == r[k])
    {
      JoinEffectAt(z, a, b, k);
    }
    assert Acceptable(z, Join(a, b)) <==> Acceptable(z, a) && Acceptable(z1, b);
    assert l == r;
  }
}

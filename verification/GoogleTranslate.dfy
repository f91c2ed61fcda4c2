/** Translating endpoints into Google record sets (pkg/dns/google/google.go:419-507). */
module GoogleTranslate {
  import opened Options
  import opened Strings
  import opened Sorting
  import opened Endpoints
  import opened Build
  import opened GoogleZone

  const DEFAULT_LOCATION := "europe-west1"

  /** `ensureTrailingDot`; parsesAsIp stands for net.ParseIP. */
  function Dotted(host: string, parsesAsIp: string -> bool): string {
    if parsesAsIp(host) then host
    else (if HasSuffix(host, ".") then host[..|host| - 1] else host) + "."
  }

  function Named(eps: seq<Endpoint>, name: string): seq<Endpoint> {
    if eps == [] then [] else Named(eps[..|eps| - 1], name) + if eps[|eps| - 1].dnsName == name then
        [eps[|eps| - 1]] else []
  }

  predicate HasWeight(e: Endpoint) {
    e.Get(WEIGHT).Some?
  }

  predicate HasGeoCode(e: Endpoint) {
    e.Get(GEO_CODE).Some?
  }

  function OrEmpty(o: Option<string>): string {
    if o.Some? then o.value else ""
  }

  /** Indexing the first target panics when there is none. */
  predicate Panics(e: Endpoint, geo: bool) {
    e.targets == [] && (e.recordType == CNAME || geo)
  }

  function Rrdatas(e: Endpoint, parsesAsIp: string -> bool): seq<string> {
    if e.recordType == CNAME && e.targets != [] then [Dotted(e.targets[0], parsesAsIp)] + e.targets[1..] else e.targets
  }

  /** Google has no "*" location: such an item is left out unless it points into the default group. */
  predicate Skipped(e: Endpoint) {
    e.Get(GEO_CODE) == Some(WILDCARD) && e.targets != [] && !HasPrefix(e.targets[0], DEFAULT)
  }

  function Location(e: Endpoint): string {
    if e.Get(GEO_CODE) == Some(WILDCARD) then DEFAULT_LOCATION else OrEmpty(e.Get(GEO_CODE))
  }

  function FirstRecord(name: string, first: Endpoint, parsesAsIp: string -> bool): RecordSet {
    RecordSet(Dotted(name, parsesAsIp), first.recordType, first.ttl, [],
      if HasWeight(first) then Wrr([]) else if HasGeoCode(first) then Geo([]) else NoPolicy)
  }

  predicate PolicyFits(p: Policy, weighted: bool, geo: bool) {
    if weighted then p.Wrr? else if geo then p.Geo? else p.NoPolicy?
  }

  /** What the loop does with one endpoint of a group; None is a panic. A weighted record has no geo
      policy to add to. */
  function AddEndpoint(
    record: RecordSet, e: Endpoint, weighted: bool, geo: bool, parsesAsIp: string -> bool): (r: Option<RecordSet>)
    requires PolicyFits(record.policy, weighted, geo)
    ensures r.Some? ==> PolicyFits(r.value.policy, weighted, geo)
  {
    if Panics(e, geo) || (weighted && geo && !Skipped(e)) then None
    else
      var targets := Rrdatas(e, parsesAsIp);
      if weighted then Some(record.(policy :=
        Wrr(record.policy.weighted + [WeightedItem(OrEmpty(e.Get(WEIGHT)), targets)])))
      else if !geo then Some(record.(rrdatas := targets))
      else if Skipped(e) then Some(record)
      else Some(record.(policy := Geo(record.policy.located + [GeoItem(Location(e), targets)])))
  }

  function AddEndpoints(
    record: RecordSet, group: seq<Endpoint>, weighted: bool, geo: bool,
    parsesAsIp: string -> bool): (r: Option<RecordSet>)
    requires PolicyFits(record.policy, weighted, geo)
    ensures r.Some? ==> PolicyFits(r.value.policy, weighted, geo)
  {
    if group == [] then Some(record)
    else
      var before := AddEndpoints(record, group[..|group| - 1], weighted, geo, parsesAsIp);
      if before.None? then None else AddEndpoint(before.value, group[|group| - 1], weighted, geo, parsesAsIp)
  }

  /** The record set of one name; the first endpoint decides the kind of record. */
  function Translate(name: string, group: seq<Endpoint>, parsesAsIp: string -> bool): Option<RecordSet>
    requires group != []
  {
    AddEndpoints(FirstRecord(name, group[0], parsesAsIp), group, HasWeight(group[0]), HasGeoCode(group[0]), parsesAsIp)
  }

  function TranslateName(eps: seq<Endpoint>, name: string, parsesAsIp: string -> bool): Option<RecordSet> {
    var group := Named(eps, name);
    if group == [] then None else Translate(name, group, parsesAsIp)
  }

  function DnsNames(eps: seq<Endpoint>): set<string> {
    set i | 0 <= i < |eps| :: eps[i].dnsName
  }

  lemma {:induction false} NamedNonEmpty(eps: seq<Endpoint>, name: string)
    ensures Named(eps, name) != [] <==> name in DnsNames(eps)
  {
    if eps != [] {
      var n := |eps| - 1;
      NamedNonEmpty(eps[..n], name);
      assert name in DnsNames(eps) <==> name in DnsNames(eps[..n]) || name == eps[n].dnsName by {
        if name in DnsNames(eps) {
          var i :| 0 <= i < |eps| && eps[i].dnsName == name;
          assert i == n || eps[..n][i] == eps[i];
        }
        if name in DnsNames(eps[..n]) {
          var i :| 0 <= i < n && eps[..n][i].dnsName == name;
          assert eps[i].dnsName == name;
        }
        assert eps[n].dnsName in DnsNames(eps);
      }
    }
  }

  lemma {:induction false} NamedMembers(eps: seq<Endpoint>, name: string, e: Endpoint)
    ensures e in Named(eps, name) <==> e in eps && e.dnsName == name
  {
    if eps != [] {
      NamedMembers(eps[..|eps| - 1], name, e);
      assert eps == eps[..|eps| - 1] + [eps[|eps| - 1]];
    }
  }

  /** A possible iteration order of the endpoint map. */
  ghost predicate ListsNames(order: seq<string>, eps: seq<Endpoint>) {
    && (forall n :: n in order <==> n in DnsNames(eps))
    && (forall i, j | 0 <= i < j < |order| :: order[i] != order[j])
  }

  /** These are the record sets of the endpoints, name by name. */
  ghost predicate Translates(
    eps: seq<Endpoint>, order: seq<string>, records: seq<RecordSet>, parsesAsIp: string -> bool) {
    && |records| == |order|
    && (forall i | 0 <= i < |order| :: TranslateName(eps, order[i], parsesAsIp) == Some(records[i]))
  }

  /** `toResourceRecordSets`: one record set per DNS name, in whatever order the map is visited. */
  method ToResourceRecordSets(eps: seq<Endpoint>, parsesAsIp: string -> bool)
    returns (records: Option<seq<RecordSet>>, ghost order: seq<string>)
    ensures records.Some? ==> ListsNames(order, eps) && Translates(eps, order, records.value, parsesAsIp)
    ensures records.None? ==> exists n | n in DnsNames(eps) :: TranslateName(eps, n, parsesAsIp) == None
  {
    hide Translate, DnsNames;
    var byName := GroupByName(eps);
    order := [];
    var out: seq<RecordSet> := [];
    var rest := byName.Keys;
    while rest != {}
      invariant rest <= byName.Keys
      invariant forall n :: n in order <==> n in byName.Keys && n !in rest
      invariant forall i, j | 0 <= i < j < |order| :: order[i] != order[j]
      invariant Translates(eps, order, out, parsesAsIp)
    {
      var name :| name in rest;
      var record := TranslateGroup(name, byName[name], parsesAsIp);
      if record.None? {
        return None, order;
      }
      order := order + [name];
      out := out + [record.value];
      rest := rest - {name};
    }
    records := Some(out);
  }

  method GroupByName(eps: seq<Endpoint>) returns (byName: map<string, seq<Endpoint>>)
    ensures byName.Keys == DnsNames(eps)
    ensures forall n | n in byName :: byName[n] == Named(eps, n) && byName[n] != []
  {
    byName := map[];
    for i := 0 to |eps|
      invariant forall n :: if Named(eps[..i], n) == [] then n !in byName else
                  n in byName && byName[n] == Named(eps[..i], n)
    {
      var e := eps[i];
      assert eps[..i + 1][..i] == eps[..i];
      byName := byName[e.dnsName := (if e.dnsName in byName then byName[e.dnsName] else []) + [e]];
    }
    assert eps[..|eps|] == eps;
    forall n ensures n in byName.Keys <==> n in DnsNames(eps) {
      NamedNonEmpty(eps, n);
    }
  }

  method TranslateGroup(name: string, group: seq<Endpoint>, parsesAsIp: string -> bool) returns (r: Option<RecordSet>)
    requires group != []
    ensures r == Translate(name, group, parsesAsIp)
  {
    var weighted, geo := HasWeight(group[0]), HasGeoCode(group[0]);
    var record := FirstRecord(name, group[0], parsesAsIp);
    ghost var start := record;
    for i := 0 to |group|
      invariant PolicyFits(record.policy, weighted, geo)
      invariant AddEndpoints(start, group[..i], weighted, geo, parsesAsIp) == Some(record)
    {
      assert group[..i + 1][..i] == group[..i];
      var next := AddEndpoint(record, group[i], weighted, geo, parsesAsIp);
      if next.None? {
        Stuck(start, group, i + 1, weighted, geo, parsesAsIp);
        return None;
      }
      record := next.value;
    }
    assert group[..|group|] == group;
    return Some(record);
  }

  /** A panic is final. */
  lemma {:induction false} Stuck(
    start: RecordSet, group: seq<Endpoint>, i: nat, weighted: bool, geo: bool, parsesAsIp: string -> bool)
    requires PolicyFits(start.policy, weighted, geo) && i <= |group|
    requires AddEndpoints(start, group[..i], weighted, geo, parsesAsIp) == None
    ensures AddEndpoints(start, group, weighted, geo, parsesAsIp) == None
  {
    if i < |group| {
      assert group[..|group| - 1][..i] == group[..i];
      Stuck(start, group[..|group| - 1], i, weighted, geo, parsesAsIp);
    } else {
      assert group[..i] == group;
    }
  }

  // ----- exactly what a group translates to -----

  /** x is the host with a dot at its end, unless that is there already or the host is an address. */
  ghost predicate Terminated(x: string, host: string, parsesAsIp: string -> bool) {
    x == if parsesAsIp(host) || (host != "" && host[|host| - 1] == '.') then host else host + "."
  }

  /** The targets of an endpoint as record data: all of them in order, the first of a CNAME terminated. */
  ghost predicate DataOf(data: seq<string>, e: Endpoint, parsesAsIp: string -> bool) {
    && |data| == |e.targets|
    && (forall i | 0 < i < |data| :: data[i] == e.targets[i])
    && (data != [] ==> if e.recordType == "CNAME" then Terminated(data[0], e.targets[0], parsesAsIp) else
        data[0] == e.targets[0])
  }

  /** A "*" endpoint that does not point into the default group. */
  ghost predicate LeftOut(e: Endpoint) {
    e.Get("geo-code") == Some("*") && e.targets != [] && !("default" <= e.targets[0])
  }

  /** The location of an endpoint is its geo code, and that of a "*" endpoint "europe-west1". */
  ghost predicate LocatedAt(location: string, e: Endpoint) {
    location == if e.Get("geo-code") == Some("*") then "europe-west1" else OrElse(e.Get("geo-code"), "")
  }

  function OrElse(o: Option<string>, other: string): string {
    match o { case Some(v) => v case None => other }
  }

  lemma DottedTerminates(host: string, parsesAsIp: string -> bool)
    ensures Terminated(Dotted(host, parsesAsIp), host, parsesAsIp)
  {
    if host != "" {
      assert host[|host| - 1..] == [host[|host| - 1]];
      assert host[..|host| - 1] + [host[|host| - 1]] == host;
    }
  }

  lemma RrdatasAreData(e: Endpoint, parsesAsIp: string -> bool)
    ensures DataOf(Rrdatas(e, parsesAsIp), e, parsesAsIp)
  {
    hide Dotted;
    if e.targets != [] {
      DottedTerminates(e.targets[0], parsesAsIp);
    }
  }

  lemma SkippedIsLeftOut(e: Endpoint)
    ensures Skipped(e) <==> LeftOut(e)
    ensures LocatedAt(Location(e), e)
  {}

  /** The positions of all endpoints of the group that are not left out, in order. */
  ghost predicate KeptAt(at: seq<nat>, group: seq<Endpoint>) {
    && (forall k | 0 <= k < |at| :: at[k] < |group|)
    && (forall k, l | 0 <= k < l < |at| :: at[k] < at[l])
    && (forall i: nat | i < |group| :: i in at <==> !LeftOut(group[i]))
  }

  ghost predicate ItemsAt(items: seq<GeoItem>, at: seq<nat>, group: seq<Endpoint>, parsesAsIp: string -> bool) {
    |items| == |at| && forall k | 0 <= k < |at| ::
      at[k] < |group| && LocatedAt(items[k].location, group[at[k]]) &&
        DataOf(items[k].rrdatas, group[at[k]], parsesAsIp)
  }

  /** One item for each endpoint that is not left out, in order. */
  ghost predicate GeoItems(items: seq<GeoItem>, group: seq<Endpoint>, parsesAsIp: string -> bool) {
    exists at :: KeptAt(at, group) && ItemsAt(items, at, group, parsesAsIp)
  }

  /** One item for each endpoint, in order. */
  ghost predicate WeightItems(items: seq<WeightedItem>, group: seq<Endpoint>, parsesAsIp: string -> bool) {
    |items| == |group| && forall i | 0 <= i < |group| ::
      items[i].weight == OrElse(group[i].Get("weight"), "") && DataOf(items[i].rrdatas, group[i], parsesAsIp)
  }

  /** What the record set of a group has to be; its first endpoint says which kind it is. */
  ghost predicate IsTranslation(r: RecordSet, name: string, group: seq<Endpoint>, parsesAsIp: string -> bool)
    requires group != []
  {
    && Terminated(r.name, name, parsesAsIp) && r.rtype == group[0].recordType && r.ttl == group[0].ttl
    && (if group[0].Get("weight").Some? then r.policy.Wrr? && WeightItems(r.policy.weighted, group, parsesAsIp)
        else if group[0].Get("geo-code").Some? then r.policy.Geo? && GeoItems(r.policy.located, group, parsesAsIp)
        else r.policy == NoPolicy && DataOf(r.rrdatas, group[|group| - 1], parsesAsIp))
  }

  lemma {:induction false} HeadKept(
    record: RecordSet, group: seq<Endpoint>, weighted: bool, geo: bool, parsesAsIp: string -> bool)
    requires PolicyFits(record.policy, weighted, geo) && AddEndpoints(record, group, weighted, geo, parsesAsIp).Some?
    ensures var r := AddEndpoints(record, group, weighted, geo, parsesAsIp).value;
            r.name == record.name && r.rtype == record.rtype && r.ttl == record.ttl
  {
    if group != [] {
      HeadKept(record, group[..|group| - 1], weighted, geo, parsesAsIp);
    }
  }

  lemma {:induction false} WeightedAdded(record: RecordSet, group: seq<Endpoint>, geo: bool, parsesAsIp: string -> bool)
    requires record.policy == Wrr([]) && AddEndpoints(record, group, true, geo, parsesAsIp).Some?
    ensures WeightItems(AddEndpoints(record, group, true, geo, parsesAsIp).value.policy.weighted, group, parsesAsIp)
  {
    if group != [] {
      hide Rrdatas, DataOf, Skipped;
      var n := |group| - 1;
      WeightedAdded(record, group[..n], geo, parsesAsIp);
      RrdatasAreData(group[n], parsesAsIp);
      assert WEIGHT == "weight";
      var items := AddEndpoints(record, group, true, geo, parsesAsIp).value.policy.weighted;
      forall i | 0 <= i < n
        ensures items[i].weight == OrElse(group[i].Get("weight"), "") && DataOf(items[i].rrdatas, group[i], parsesAsIp)
      {
        assert group[..n][i] == group[i];
      }
    }
  }

  lemma {:induction false} LocatedAdded(record: RecordSet, group: seq<Endpoint>, parsesAsIp: string -> bool)
    requires record.policy == Geo([]) && AddEndpoints(record, group, false, true, parsesAsIp).Some?
    ensures GeoItems(AddEndpoints(record, group, false, true, parsesAsIp).value.policy.located, group, parsesAsIp)
  {
    if group == [] {
      assert KeptAt([], group) && ItemsAt([], [], group, parsesAsIp);
    } else {
      hide Rrdatas, Skipped, Location, GeoItems;
      var n := |group| - 1;
      LocatedAdded(record, group[..n], parsesAsIp);
      SkippedIsLeftOut(group[n]);
      RrdatasAreData(group[n], parsesAsIp);
      var before := AddEndpoints(record, group[..n], false, true, parsesAsIp).value.policy.located;
      NextGeoItems(before, group, GeoItem(Location(group[n]), Rrdatas(group[n], parsesAsIp)), parsesAsIp);
    }
  }

  lemma NextGeoItems(items: seq<GeoItem>, group: seq<Endpoint>, item: GeoItem, parsesAsIp: string -> bool)
    requires group != [] && GeoItems(items, group[..|group| - 1], parsesAsIp)
    requires LocatedAt(item.location, group[|group| - 1]) && DataOf(item.rrdatas, group[|group| - 1], parsesAsIp)
    ensures GeoItems(if LeftOut(group[|group| - 1]) then items else items + [item], group, parsesAsIp)
  {
    hide LeftOut, LocatedAt, DataOf, KeptAt, ItemsAt;
    var n := |group| - 1;
    var at :| KeptAt(at, group[..n]) && ItemsAt(items, at, group[..n], parsesAsIp);
    NextKept(at, group);
    NextItems(items, at, group, item, parsesAsIp);
    if LeftOut(group[n]) {
      assert KeptAt(at, group) && ItemsAt(items, at, group, parsesAsIp);
    } else {
      assert KeptAt(at + [n], group) && ItemsAt(items + [item], at + [n], group, parsesAsIp);
    }
  }

  lemma NextKept(at: seq<nat>, group: seq<Endpoint>)
    requires group != [] && KeptAt(at, group[..|group| - 1])
    ensures var n := |group| - 1; KeptAt(if LeftOut(group[n]) then at else at + [n], group)
  {
    hide LeftOut;
    var n := |group| - 1;
    var more := if LeftOut(group[n]) then at else at + [n];
    forall i: nat | i < |group| ensures i in more <==> !LeftOut(group[i]) {
      if i < n {
        assert group[..n][i] == group[i];
      } else {
        forall k | 0 <= k < |at| ensures at[k] != n {}
      }
    }
  }

  lemma NextItems(items: seq<GeoItem>, at: seq<nat>, group: seq<Endpoint>, item: GeoItem, parsesAsIp: string -> bool)
    requires group != [] && ItemsAt(items, at, group[..|group| - 1], parsesAsIp)
    requires LocatedAt(item.location, group[|group| - 1]) && DataOf(item.rrdatas, group[|group| - 1], parsesAsIp)
    ensures ItemsAt(items, at, group, parsesAsIp)
    ensures ItemsAt(items + [item], at + [|group| - 1], group, parsesAsIp)
  {
    hide LocatedAt, DataOf;
  }

  lemma PlainAdded(record: RecordSet, group: seq<Endpoint>, parsesAsIp: string -> bool)
    requires record.policy == NoPolicy && group != [] && AddEndpoints(record, group, false, false, parsesAsIp).Some?
    ensures var r := AddEndpoints(record, group, false, false, parsesAsIp).value;
            r.policy == NoPolicy && DataOf(r.rrdatas, group[|group| - 1], parsesAsIp)
  {
    hide Rrdatas, DataOf;
    RrdatasAreData(group[|group| - 1], parsesAsIp);
  }

  /** The record set of a group is its translation, whatever the endpoints. */
  lemma TranslateExactly(name: string, group: seq<Endpoint>, parsesAsIp: string -> bool)
    requires group != [] && Translate(name, group, parsesAsIp).Some?
    ensures IsTranslation(Translate(name, group, parsesAsIp).value, name, group, parsesAsIp)
  {
    hide AddEndpoints, Dotted, DataOf, Terminated, WeightItems, GeoItems;
    var start := FirstRecord(name, group[0], parsesAsIp);
    assert WEIGHT == "weight" && GEO_CODE == "geo-code";
    DottedTerminates(name, parsesAsIp);
    HeadKept(start, group, HasWeight(group[0]), HasGeoCode(group[0]), parsesAsIp);
    if HasWeight(group[0]) {
      WeightedAdded(start, group, HasGeoCode(group[0]), parsesAsIp);
    } else if HasGeoCode(group[0]) {
      LocatedAdded(start, group, parsesAsIp);
    } else {
      PlainAdded(start, group, parsesAsIp);
    }
  }

  /** An endpoint that makes the translation of a group with this first endpoint panic: there is no first
      target to look at, or a weighted record has no geo policy to add to. */
  ghost predicate Breaks(e: Endpoint, first: Endpoint) {
    || (e.targets == [] && (e.recordType == "CNAME" || first.Get("geo-code").Some?))
    || (first.Get("weight").Some? && first.Get("geo-code").Some? && !LeftOut(e))
  }

  lemma OneBreaks(record: RecordSet, e: Endpoint, first: Endpoint, parsesAsIp: string -> bool)
    requires PolicyFits(record.policy, HasWeight(first), HasGeoCode(first))
    ensures AddEndpoint(record, e, HasWeight(first), HasGeoCode(first), parsesAsIp) == None <==> Breaks(e, first)
  {
    hide Rrdatas, Location;
    SkippedIsLeftOut(e);
  }

  ghost predicate OneOfThemBreaks(group: seq<Endpoint>, first: Endpoint) {
    exists e | e in group :: Breaks(e, first)
  }

  lemma LastBreaks(group: seq<Endpoint>, first: Endpoint)
    requires group != []
    ensures var n := |group| - 1;
            OneOfThemBreaks(group, first) <==> OneOfThemBreaks(group[..n], first) || Breaks(group[n], first)
  {
    hide Breaks;
    assert group == group[..|group| - 1] + [group[|group| - 1]];
  }

  lemma {:induction false} BreaksSomewhere(
    record: RecordSet, group: seq<Endpoint>, first: Endpoint, parsesAsIp: string -> bool)
    requires PolicyFits(record.policy, HasWeight(first), HasGeoCode(first))
    ensures AddEndpoints(record, group, HasWeight(first), HasGeoCode(first), parsesAsIp) == None <==>
            OneOfThemBreaks(group, first)
  {
    if group != [] {
      hide AddEndpoint, Breaks, OneOfThemBreaks, HasWeight, HasGeoCode;
      var n := |group| - 1;
      BreaksSomewhere(record, group[..n], first, parsesAsIp);
      LastBreaks(group, first);
      var before := AddEndpoints(record, group[..n], HasWeight(first), HasGeoCode(first), parsesAsIp);
      if before.Some? {
        OneBreaks(before.value, group[n], first, parsesAsIp);
      }
    }
  }

  /** A group cannot be translated if and only if one of its endpoints breaks it. */
  lemma PanicsExactly(name: string, group: seq<Endpoint>, parsesAsIp: string -> bool)
    requires group != []
    ensures Translate(name, group, parsesAsIp) == None <==> OneOfThemBreaks(group, group[0])
  {
    hide AddEndpoints, Breaks;
    BreaksSomewhere(FirstRecord(name, group[0], parsesAsIp), group, group[0], parsesAsIp);
  }

  lemma {:induction false} NamedInOrder(eps: seq<Endpoint>, name: string) returns (at: seq<nat>)
    ensures PickedAt(at, Named(eps, name), eps)
  {
    if eps == [] {
      at := [];
    } else {
      hide PickedAt;
      var n := |eps| - 1;
      var front := NamedInOrder(eps[..n], name);
      PickNext(front, Named(eps[..n], name), eps);
      at := if eps[n].dnsName == name then front + [n] else front;
    }
  }

  /** What toResourceRecordSets returns: for each name the translation of the endpoints of that name, in
      their order. */
  lemma RecordsExactly(
    eps: seq<Endpoint>, order: seq<string>, records: seq<RecordSet>, parsesAsIp: string -> bool, i: nat)
    requires Translates(eps, order, records, parsesAsIp) && i < |order|
    ensures var group := Named(eps, order[i]);
            && group != [] && IsTranslation(records[i], order[i], group, parsesAsIp)
            && (forall e :: e in group <==> e in eps && e.dnsName == order[i])
            && exists at :: PickedAt(at, group, eps)
  {
    hide Translate, IsTranslation, PickedAt, Named;
    var group := Named(eps, order[i]);
    TranslateExactly(order[i], group, parsesAsIp);
    forall e ensures e in group <==> e in eps && e.dnsName == order[i] {
      NamedMembers(eps, order[i], e);
    }
    var at := NamedInOrder(eps, order[i]);
  }
}

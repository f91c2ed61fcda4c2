/** Google translation of a published endpoint list loses no target: skipping the "*" item of the lb
    name is harmless because its geo twin is published whenever it is
    (pkg/dns/google/google.go:453-494, pkg/controllers/dnspolicy/dns_helper.go:228-249). */
module GoogleChain {
  import opened Options
  import opened Strings
  import opened Sorting
  import opened Endpoints
  import opened Prune
  import opened Build
  import opened Chain
  import opened Publish
  import opened GoogleZone
  import opened GoogleTranslate

  // ----- what a record set serves -----

  /** Under which condition a record set serves targets. */
  datatype Condition = Always | Weighted(weight: string) | Located(location: string)

  datatype Item = Item(when: Condition, rrdatas: seq<string>)

  function WeightedOf(w: WeightedItem): Item {
    Item(Weighted(w.weight), w.rrdatas)
  }

  function LocatedOf(g: GeoItem): Item {
    Item(Located(g.location), g.rrdatas)
  }

  function Items(r: RecordSet): seq<Item> {
    match r.policy
    case NoPolicy => [Item(Always, r.rrdatas)]
    case Wrr(items) => Map(WeightedOf, items)
    case Geo(items) => Map(LocatedOf, items)
  }

  /** What an endpoint asks to be served. */
  function ItemOf(e: Endpoint, parsesAsIp: string -> bool): Item {
    Item(if HasWeight(e) then Weighted(OrEmpty(e.Get(WEIGHT))) else if HasGeoCode(e) then Located(Location(e)) else
        Always,
      Rrdatas(e, parsesAsIp))
  }

  function Itemizer(parsesAsIp: string -> bool): Endpoint -> Item {
    (e: Endpoint) => ItemOf(e, parsesAsIp)
  }

  function Unskipped(group: seq<Endpoint>): seq<Endpoint> {
    if group == [] then [] else Unskipped(group[..|group| - 1]) + if Skipped(group[|group| - 1]) then [] else
        [group[|group| - 1]]
  }

  lemma {:induction false} UnskippedMembers(group: seq<Endpoint>, e: Endpoint)
    ensures e in Unskipped(group) <==> e in group && !Skipped(e)
  {
    if group != [] {
      UnskippedMembers(group[..|group| - 1], e);
      assert group == group[..|group| - 1] + [group[|group| - 1]];
    }
  }

  lemma MapMembers(f: Endpoint -> Item, l: seq<Endpoint>, item: Item)
    ensures item in Map(f, l) <==> exists e | e in l :: f(e) == item
  {
    if item in Map(f, l) {
      var i :| 0 <= i < |l| && Map(f, l)[i] == item;
      assert l[i] in l && f(l[i]) == item;
    }
    if e :| e in l && f(e) == item {
      var i :| 0 <= i < |l| && l[i] == e;
      assert Map(f, l)[i] == item;
    }
  }

  /** The two records have the same name, type and TTL. */
  predicate SameHead(a: RecordSet, b: RecordSet) {
    a.name == b.name && a.rtype == b.rtype && a.ttl == b.ttl
  }

  lemma WeightedOne(before: RecordSet, e: Endpoint, parsesAsIp: string -> bool) returns (item: WeightedItem)
    requires before.policy.Wrr? && e.targets != [] && HasWeight(e)
    ensures WeightedOf(item) == ItemOf(e, parsesAsIp)
    ensures AddEndpoint(before, e, true, false, parsesAsIp) ==
            Some(before.(policy := Wrr(before.policy.weighted + [item])))
  {
    item := WeightedItem(OrEmpty(e.Get(WEIGHT)), Rrdatas(e, parsesAsIp));
  }

  lemma {:induction false} WeightedItems(start: RecordSet, group: seq<Endpoint>, parsesAsIp: string -> bool)
    requires start.policy == Wrr([]) && forall i | 0 <= i < |group| :: group[i].targets != [] && HasWeight(group[i])
    ensures var r := AddEndpoints(start, group, true, false, parsesAsIp);
            && r.Some? && SameHead(r.value, start) && r.value.policy.Wrr?
            && Items(r.value) == Map(Itemizer(parsesAsIp), group)
  {
    if group != [] {
      hide Map, AddEndpoint, ItemOf, WeightedOf, HasWeight;
      var n := |group| - 1;
      WeightedItems(start, group[..n], parsesAsIp);
      var before := AddEndpoints(start, group[..n], true, false, parsesAsIp).value;
      var item := WeightedOne(before, group[n], parsesAsIp);
      MapLast(WeightedOf, before.policy.weighted, item);
      MapLast(Itemizer(parsesAsIp), group[..n], group[n]);
      assert group == group[..n] + [group[n]];
    } else {
      assert Map(Itemizer(parsesAsIp), group) == [];
    }
  }

  lemma {:induction false} LocatedItems(start: RecordSet, group: seq<Endpoint>, parsesAsIp: string -> bool)
    requires start.policy == Geo([]) && forall i | 0 <= i < |group| ::
               group[i].targets != [] && !HasWeight(group[i]) && HasGeoCode(group[i])
    ensures var r := AddEndpoints(start, group, false, true, parsesAsIp);
            && r.Some? && SameHead(r.value, start) && r.value.policy.Geo?
            && Items(r.value) == Map(Itemizer(parsesAsIp), Unskipped(group))
  {
    if group != [] {
      hide Map, Rrdatas, Skipped;
      var n := |group| - 1;
      LocatedItems(start, group[..n], parsesAsIp);
      var before := AddEndpoints(start, group[..n], false, true, parsesAsIp).value;
      MapLast(LocatedOf, before.policy.located, GeoItem(Location(group[n]), Rrdatas(group[n], parsesAsIp)));
      MapLast(Itemizer(parsesAsIp), Unskipped(group[..n]), group[n]);
      assert Unskipped(group[..n]) + [] == Unskipped(group[..n]);
    } else {
      assert Map(Itemizer(parsesAsIp), Unskipped(group)) == [];
    }
  }

  lemma {:induction false} PlainItems(start: RecordSet, group: seq<Endpoint>, e: Endpoint, parsesAsIp: string -> bool)
    requires start.policy == NoPolicy && e.targets != [] && forall i | 0 <= i < |group| :: group[i] == e
    ensures var r := AddEndpoints(start, group, false, false, parsesAsIp);
            && r.Some? && SameHead(r.value, start) && r.value.policy == NoPolicy
            && (group != [] ==> Items(r.value) == [Item(Always, Rrdatas(e, parsesAsIp))])
  {
    if group != [] {
      PlainItems(start, group[..|group| - 1], e, parsesAsIp);
    }
  }

  // ----- endpoints made for requests -----

  /** A reused endpoint has a weight, or a geo code, only if the request sets it. */
  ghost predicate CleanReuse(current: map<string, Endpoint>, requests: seq<Request>) {
    forall r | r in requests && Key(r) in current :: CleanFor(current[Key(r)], r)
  }

  ghost predicate CleanFor(e: Endpoint, r: Request) {
    && (HasWeight(e) ==> r.prop.Some? && r.prop.value.name == WEIGHT)
    && (HasGeoCode(e) ==> r.prop.Some? && r.prop.value.name == GEO_CODE)
  }

  lemma RealizedKind(r: Request, current: map<string, Endpoint>)
    requires Key(r) in current ==> CleanFor(current[Key(r)], r)
    ensures var e := Realize(r, current);
            && (r.prop.None? ==> !HasWeight(e) && !HasGeoCode(e))
            && (r.prop.Some? && r.prop.value.name == WEIGHT ==> HasWeight(e) && !HasGeoCode(e))
            && (r.prop.Some? && r.prop.value.name == GEO_CODE ==>
                !HasWeight(e) && e.Get(GEO_CODE) == Some(r.prop.value.value))
            && (r.prop.Some? ==> CleanFor(e, r)) && (r.prop.None? ==> CleanFor(e, r))
  {
    var base := CreateOrUpdate(r, Find(current, Key(r)));
    if r.prop.Some? {
      LookupAssign(base.props, r.prop.value.name, r.prop.value.value, WEIGHT);
      LookupAssign(base.props, r.prop.value.name, r.prop.value.value, GEO_CODE);
    }
  }

  /** Cleanness is kept by a run: whatever it publishes is clean for requests of the same kind. */
  lemma CleanAfterRun(
    requests: seq<Request>, next: seq<Request>, record: seq<Endpoint>, h: Health, looksLikeIp: string -> bool)
    requires DistinctKeys(requests, Key) && SplitsAgree(ById(record), requests) && CleanReuse(ById(record), requests)
    requires forall r, q | r in requests && q in next && Key(r) == Key(q) ::
               (r.prop.None? <==> q.prop.None?) && (r.prop.Some? ==> r.prop.value.name == q.prop.value.name)
    ensures CleanReuse(ById(Run(requests, record, h, looksLikeIp)), next)
  {
    var current, out := ById(record), Run(requests, record, h, looksLikeIp);
    var s := SortBy(requests, Key);
    SortMembers(requests, s);
    FullListIsMap(requests, current);
    PublishedIsMap(s, current, h, looksLikeIp);
    DistinctKeysPermute(requests, s, Key);
    SelectedFacts(s, current, h, looksLikeIp);
    var selected := Selected(s, h, looksLikeIp);
    RealizedIds(selected, current);
    forall q | q in next && Key(q) in ById(out) ensures CleanFor(ById(out)[Key(q)], q) {
      ByIdOnly(out, Key(q));
      var i :| 0 <= i < |out| && out[i].SetId() == Key(q);
      ByIdFinds(out, i);
      assert selected[i] in selected && selected[i] in requests && out[i] == Realize(selected[i], current);
      RealizedKind(selected[i], current);
    }
  }

  // ----- the twin of the wildcard -----

  lemma {:induction false} GeoBodyInBody(t: GatewayTarget, lb: string, order: seq<string>, geo: string, r: Request)
    requires geo in order && r in GeoBody(t, lb, geo)
    ensures r in Body(t, lb, order)
  {
    hide GeoBody;
    var n := |order| - 1;
    if order[n] != geo {
      assert order == order[..n] + [order[n]];
      GeoBodyInBody(t, lb, order[..n], geo, r);
    }
  }

  /** A requested wildcard points into the default group, or the same target is requested for its
      own geo. */
  lemma WildcardHasTwin(t: GatewayTarget, host: string, order: seq<string>, r: Request)
    requires IsOrder(t, order) && r in Requests(t, host, order) && IsWildcardRequest(t, LbName(t, host), r)
    ensures r == WildcardRequest(LbName(t, host), DEFAULT) ||
            exists c | c in t.clusters ::
              r.targets == GeoRequest(LbName(t, host), c.geo).targets &&
                GeoRequest(LbName(t, host), c.geo) in Requests(t, host, order)
  {
    var lb := LbName(t, host);
    if r in Body(t, lb, order) {
      BodyKinds(t, lb, order, r);
      WildcardIsNoOther(t, lb, r);
    } else {
      var geo := DefaultOf(t, lb, order).value;
      WildcardIsNotHost(t, lb, host, r);
      assert r == WildcardRequest(lb, geo) && geo in order && HasGeo(t, geo);
      if geo != DEFAULT {
        var q := GeoRequest(lb, geo);
        assert q in GeoBody(t, lb, geo);
        GeoBodyInBody(t, lb, order, geo, q);
      }
    }
  }

  lemma WildcardIsNoOther(t: GatewayTarget, lb: string, r: Request)
    requires IsWildcardRequest(t, lb, r)
    ensures !IsAddressRequest(t, lb, r) && !IsWeightedRequest(t, lb, r) && !IsGeoRequest(t, lb, r)
  {
    assert r.prop == Some(Property(GEO_CODE, WILDCARD)) && r.setIdentifier == DEFAULT;
    assert WEIGHT != GEO_CODE && DEFAULT != WILDCARD;
  }

  lemma WildcardIsNotHost(t: GatewayTarget, lb: string, host: string, r: Request)
    requires IsWildcardRequest(t, lb, r)
    ensures r != HostRequest(host, lb)
  {}

  /** Health and pruning treat requests with the same targets alike. */
  lemma SelectedTwins(s: seq<Request>, h: Health, looksLikeIp: string -> bool, r: Request, q: Request)
    requires r in Selected(s, h, looksLikeIp) && q in s && q.targets == r.targets
    ensures q in Selected(s, h, looksLikeIp)
  {
    var healthy := HealthyRequests(s, h);
    var l := Map(Realizer(map[]), healthy);
    var keep := Survivors(l, looksLikeIp);
    var kept := Select(healthy, keep);
    HealthySubset(s, h, r);
    HealthySubset(s, h, q);
    UnhealthyByTargets(Realize(r, map[]), Realize(q, map[]), h);
    SelectMembers(healthy, keep, r);
    SelectMembers(healthy, keep, q);
    if |healthy| != |s| && kept != [] {
      var i: nat :| i in keep && i < |healthy| && healthy[i] == r;
      var j :| 0 <= j < |healthy| && healthy[j] == q;
      TwinsSurviveTogether(l, i, j, looksLikeIp);
    }
  }

  // ----- the translation of a published list -----

  /** What an endpoint asks to be served: all its targets, under its weight or at its location. */
  ghost predicate ItemFor(item: Item, e: Endpoint, parsesAsIp: string -> bool) {
    && DataOf(item.rrdatas, e, parsesAsIp)
    && (if e.Get("weight").Some? then item.when == Weighted(e.Get("weight").value)
        else if e.Get("geo-code").Some? then item.when.Located? && LocatedAt(item.when.location, e)
        else item.when == Always)
  }

  /** The name has a record set, of the type and TTL of its endpoints. It serves exactly what those
      endpoints ask for that Google has a location for, each under its weight or location, and no target
      of the others is missing. */
  ghost predicate Complete(l: seq<Endpoint>, name: string, parsesAsIp: string -> bool) {
    var r := TranslateName(l, name, parsesAsIp);
    && r.Some? && Terminated(r.value.name, name, parsesAsIp)
    && (forall e | e in l && e.dnsName == name :: r.value.rtype == e.recordType && r.value.ttl == e.ttl)
    && (forall item | item in Items(r.value) :: AskedBy(l, name, item, parsesAsIp))
    && (forall e | e in l && e.dnsName == name && !LeftOut(e) :: ServesItem(r.value, e, parsesAsIp))
    && (forall e | e in l && e.dnsName == name :: ServesTargets(r.value, e, parsesAsIp))
  }

  ghost predicate AskedBy(l: seq<Endpoint>, name: string, item: Item, parsesAsIp: string -> bool) {
    exists e | e in l :: e.dnsName == name && !LeftOut(e) && ItemFor(item, e, parsesAsIp)
  }

  ghost predicate ServesItem(r: RecordSet, e: Endpoint, parsesAsIp: string -> bool) {
    exists item | item in Items(r) :: ItemFor(item, e, parsesAsIp)
  }

  ghost predicate ServesTargets(r: RecordSet, e: Endpoint, parsesAsIp: string -> bool) {
    exists item | item in Items(r) :: DataOf(item.rrdatas, e, parsesAsIp)
  }

  lemma ItemOfIsFor(e: Endpoint, parsesAsIp: string -> bool)
    ensures ItemFor(ItemOf(e, parsesAsIp), e, parsesAsIp)
  {
    hide Rrdatas, DataOf, Location, LocatedAt;
    RrdatasAreData(e, parsesAsIp);
    SkippedIsLeftOut(e);
  }

  lemma SaidPlainly(l: seq<Endpoint>, name: string, parsesAsIp: string -> bool)
    requires CompleteAs(l, name, parsesAsIp)
    ensures Complete(l, name, parsesAsIp)
  {
    hide TranslateName, Items, ItemFor, Rrdatas, Skipped, LeftOut, DataOf, ItemOf, Dotted, Terminated;
    var r := TranslateName(l, name, parsesAsIp).value;
    DottedTerminates(name, parsesAsIp);
    forall e ensures Skipped(e) <==> LeftOut(e) {
      SkippedIsLeftOut(e);
    }
    forall item | item in Items(r) ensures AskedBy(l, name, item, parsesAsIp) {
      assert Asked(l, name, item, parsesAsIp);
      var e :| e in l && e.dnsName == name && !Skipped(e) && ItemOf(e, parsesAsIp) == item;
      ItemOfIsFor(e, parsesAsIp);
    }
    forall e | e in l && e.dnsName == name && !LeftOut(e) ensures ServesItem(r, e, parsesAsIp) {
      ItemOfIsFor(e, parsesAsIp);
      assert Asked(l, name, ItemOf(e, parsesAsIp), parsesAsIp);
    }
    forall e | e in l && e.dnsName == name ensures ServesTargets(r, e, parsesAsIp) {
      assert ServedBy(r, Rrdatas(e, parsesAsIp));
      RrdatasAreData(e, parsesAsIp);
    }
  }

  /** The same, in terms of the functions that translate. */
  ghost predicate CompleteAs(l: seq<Endpoint>, name: string, parsesAsIp: string -> bool) {
    var r := TranslateName(l, name, parsesAsIp);
    && r.Some? && r.value.name == Dotted(name, parsesAsIp)
    && (forall e | e in l && e.dnsName == name :: r.value.rtype == e.recordType && r.value.ttl == e.ttl)
    && (forall item :: item in Items(r.value) <==> Asked(l, name, item, parsesAsIp))
    && (forall e | e in l && e.dnsName == name :: ServedBy(r.value, Rrdatas(e, parsesAsIp)))
  }

  ghost predicate Asked(l: seq<Endpoint>, name: string, item: Item, parsesAsIp: string -> bool) {
    exists e | e in l :: e.dnsName == name && !Skipped(e) && ItemOf(e, parsesAsIp) == item
  }

  ghost predicate ServedBy(r: RecordSet, rrdatas: seq<string>) {
    exists item | item in Items(r) :: item.rrdatas == rrdatas
  }

  /** The items of a record are those of the endpoints of the group that are not skipped. */
  ghost predicate HasItems(record: RecordSet, group: seq<Endpoint>, parsesAsIp: string -> bool) {
    forall item :: item in Items(record) <==> exists e | e in group :: !Skipped(e) && ItemOf(e, parsesAsIp) == item
  }

  ghost predicate Covered(group: seq<Endpoint>, parsesAsIp: string -> bool) {
    forall e | e in group :: exists f | f in group :: !Skipped(f) && Rrdatas(f, parsesAsIp) == Rrdatas(e, parsesAsIp)
  }

  lemma CompleteGroup(l: seq<Endpoint>, name: string, record: RecordSet, parsesAsIp: string -> bool)
    requires TranslateName(l, name, parsesAsIp) == Some(record) && record.name == Dotted(name, parsesAsIp)
    requires var group := Named(l, name);
      && (forall e | e in group :: record.rtype == e.recordType && record.ttl == e.ttl)
      && HasItems(record, group, parsesAsIp) && Covered(group, parsesAsIp)
    ensures CompleteAs(l, name, parsesAsIp)
  {
    hide Named, Skipped, Rrdatas, Items, TranslateName, Dotted, HasItems, Covered, Asked, ServedBy;
    var group := Named(l, name);
    forall e ensures e in group <==> e in l && e.dnsName == name {
      NamedMembers(l, name, e);
    }
    forall item ensures item in Items(record) <==> Asked(l, name, item, parsesAsIp) {
      AskedInGroup(l, name, record, item, parsesAsIp);
    }
    forall e | e in group ensures ServedBy(record, Rrdatas(e, parsesAsIp)) {
      ServedInGroup(record, group, e, parsesAsIp);
    }
  }

  lemma AskedInGroup(l: seq<Endpoint>, name: string, record: RecordSet, item: Item, parsesAsIp: string -> bool)
    requires HasItems(record, Named(l, name), parsesAsIp)
    ensures item in Items(record) <==> Asked(l, name, item, parsesAsIp)
  {
    hide Named, Skipped, Items, ItemOf;
    forall e ensures e in Named(l, name) <==> e in l && e.dnsName == name {
      NamedMembers(l, name, e);
    }
  }

  lemma ServedInGroup(record: RecordSet, group: seq<Endpoint>, e: Endpoint, parsesAsIp: string -> bool)
    requires HasItems(record, group, parsesAsIp) && Covered(group, parsesAsIp) && e in group
    ensures ServedBy(record, Rrdatas(e, parsesAsIp))
  {
    hide Skipped, Items, Rrdatas;
    var f :| f in group && !Skipped(f) && Rrdatas(f, parsesAsIp) == Rrdatas(e, parsesAsIp);
    assert ItemOf(f, parsesAsIp) in Items(record);
  }

  /** Every endpoint of a name was made for a selected request of that name. */
  ghost predicate MadeFor(
    e: Endpoint, r: Request, selected: seq<Request>, current: map<string, Endpoint>, name: string) {
    r in selected && r.dnsName == name && e == Realize(r, current)
  }

  lemma GroupMadeFor(selected: seq<Request>, current: map<string, Endpoint>, name: string, i: nat) returns (r: Request)
    requires i < |Named(Map(Realizer(current), selected), name)|
    ensures MadeFor(Named(Map(Realizer(current), selected), name)[i], r, selected, current, name)
  {
    hide Named;
    var l := Map(Realizer(current), selected);
    var e := Named(l, name)[i];
    NamedMembers(l, name, e);
    var k :| 0 <= k < |l| && l[k] == e;
    r := selected[k];
  }

  lemma PlainComplete(selected: seq<Request>, current: map<string, Endpoint>, r: Request, parsesAsIp: string -> bool)
    requires r in selected && CleanReuse(current, selected) && r.prop.None? && r.targets != []
    requires forall q | q in selected && q.dnsName == r.dnsName :: q == r
    ensures CompleteAs(Map(Realizer(current), selected), r.dnsName, parsesAsIp)
  {
    hide Named, Rrdatas, Realize, CleanReuse, Map, CompleteAs;
    var l, e := Map(Realizer(current), selected), Realize(r, current);
    var group := Named(l, r.dnsName);
    MadeIn(selected, current, r);
    forall i | 0 <= i < |group| ensures group[i] == e {
      var q := GroupMadeFor(selected, current, r.dnsName, i);
    }
    CleanRequest(current, selected, r);
    RealizedKind(r, current);
    RealizedTargets(r, current);
    var start := FirstRecord(r.dnsName, e, parsesAsIp);
    PlainItems(start, group, e, parsesAsIp);
    assert !Skipped(e);
    CompleteGroup(l, r.dnsName, AddEndpoints(start, group, false, false, parsesAsIp).value, parsesAsIp);
  }

  lemma MadeIn(selected: seq<Request>, current: map<string, Endpoint>, r: Request)
    requires r in selected
    ensures Realize(r, current) in Named(Map(Realizer(current), selected), r.dnsName)
  {
    var i :| 0 <= i < |selected| && selected[i] == r;
    var l := Map(Realizer(current), selected);
    assert l[i] == Realize(r, current);
    NamedMembers(l, r.dnsName, l[i]);
  }

  lemma RealizedTargets(r: Request, current: map<string, Endpoint>)
    ensures var e := Realize(r, current);
            e.targets == r.targets && e.recordType == r.recordType && e.dnsName == r.dnsName && e.ttl == r.ttl
  {}

  lemma CleanRequest(current: map<string, Endpoint>, selected: seq<Request>, r: Request)
    requires CleanReuse(current, selected) && r in selected
    ensures Key(r) in current ==> CleanFor(current[Key(r)], r)
  {}

  /** The requests of one name ask for one type and one TTL. */
  ghost predicate Uniform(selected: seq<Request>, r: Request) {
    forall q | q in selected && q.dnsName == r.dnsName :: q.recordType == r.recordType && q.ttl == r.ttl
  }

  lemma WeightedComplete(selected: seq<Request>, current: map<string, Endpoint>, r: Request, parsesAsIp: string -> bool)
    requires r in selected && CleanReuse(current, selected) && Uniform(selected, r)
    requires forall q | q in selected && q.dnsName == r.dnsName ::
               q.prop.Some? && q.prop.value.name == WEIGHT && q.targets != []
    ensures CompleteAs(Map(Realizer(current), selected), r.dnsName, parsesAsIp)
  {
    hide Named, Rrdatas, Realize, CleanReuse, Map, CompleteAs, AddEndpoints, Items, Dotted;
    var l := Map(Realizer(current), selected);
    var group := Named(l, r.dnsName);
    MadeIn(selected, current, r);
    forall i | 0 <= i < |group|
      ensures group[i].targets != [] && HasWeight(group[i]) && !HasGeoCode(group[i])
      ensures group[i].recordType == r.recordType && group[i].ttl == r.ttl
    {
      var q := GroupMadeFor(selected, current, r.dnsName, i);
      CleanRequest(current, selected, q);
      RealizedKind(q, current);
      RealizedTargets(q, current);
    }
    var start := FirstRecord(r.dnsName, group[0], parsesAsIp);
    WeightedItems(start, group, parsesAsIp);
    var record := AddEndpoints(start, group, true, false, parsesAsIp).value;
    forall item ensures item in Items(record) <==> exists e | e in group ::
        !Skipped(e) && ItemOf(e, parsesAsIp) == item {
      MapMembers(Itemizer(parsesAsIp), group, item);
    }
    CompleteGroup(l, r.dnsName, record, parsesAsIp);
  }

  /** Among the requests of the lb name, one that is skipped has a twin that is not. */
  ghost predicate Twinned(selected: seq<Request>, current: map<string, Endpoint>, lb: string) {
    forall q | q in selected && q.dnsName == lb :: HasTwin(selected, current, q)
  }

  ghost predicate HasTwin(selected: seq<Request>, current: map<string, Endpoint>, q: Request) {
    exists w | w in selected :: IsTwin(w, q, current)
  }

  ghost predicate IsTwin(w: Request, q: Request, current: map<string, Endpoint>) {
    w.dnsName == q.dnsName && w.targets == q.targets && w.recordType == q.recordType && !Skipped(Realize(w, current))
  }

  lemma LocatedComplete(selected: seq<Request>, current: map<string, Endpoint>, r: Request, parsesAsIp: string -> bool)
    requires r in selected && CleanReuse(current, selected) && Twinned(selected, current, r.dnsName) &&
             Uniform(selected, r)
    requires forall q | q in selected && q.dnsName == r.dnsName ::
               q.prop.Some? && q.prop.value.name == GEO_CODE && q.targets != []
    ensures CompleteAs(Map(Realizer(current), selected), r.dnsName, parsesAsIp)
  {
    hide Named, Rrdatas, Realize, CleanReuse, Map, Skipped, Twinned, CompleteAs, AddEndpoints, Items, Unskipped,
      HasItems,
      Covered, Dotted;
    var l := Map(Realizer(current), selected);
    var group := Named(l, r.dnsName);
    MadeIn(selected, current, r);
    forall i | 0 <= i < |group|
      ensures group[i].targets != [] && !HasWeight(group[i]) && HasGeoCode(group[i])
      ensures group[i].recordType == r.recordType && group[i].ttl == r.ttl
    {
      var q := GroupMadeFor(selected, current, r.dnsName, i);
      CleanRequest(current, selected, q);
      RealizedKind(q, current);
      RealizedTargets(q, current);
    }
    var start := FirstRecord(r.dnsName, group[0], parsesAsIp);
    LocatedItems(start, group, parsesAsIp);
    var record := AddEndpoints(start, group, false, true, parsesAsIp).value;
    UnskippedItems(record, group, parsesAsIp);
    SkippingIsHarmless(selected, current, r.dnsName, parsesAsIp);
    CompleteGroup(l, r.dnsName, record, parsesAsIp);
  }

  lemma UnskippedItems(record: RecordSet, group: seq<Endpoint>, parsesAsIp: string -> bool)
    requires Items(record) == Map(Itemizer(parsesAsIp), Unskipped(group))
    ensures HasItems(record, group, parsesAsIp)
  {
    hide Skipped, Items, Map, ItemOf, Unskipped;
    forall item ensures item in Items(record) <==> exists e | e in group ::
        !Skipped(e) && ItemOf(e, parsesAsIp) == item {
      MapMembers(Itemizer(parsesAsIp), Unskipped(group), item);
      forall e ensures e in Unskipped(group) <==> e in group && !Skipped(e) {
        UnskippedMembers(group, e);
      }
    }
  }

  /** Whatever is skipped, something with the same targets is not. */
  lemma SkippingIsHarmless(
    selected: seq<Request>, current: map<string, Endpoint>, lb: string, parsesAsIp: string -> bool)
    requires Twinned(selected, current, lb)
    ensures Covered(Named(Map(Realizer(current), selected), lb), parsesAsIp)
  {
    hide Named, Rrdatas, Map, Skipped, Twinned;
    var group := Named(Map(Realizer(current), selected), lb);
    forall e | e in group ensures exists f | f in group ::
        !Skipped(f) && Rrdatas(f, parsesAsIp) == Rrdatas(e, parsesAsIp) {
      var i :| 0 <= i < |group| && group[i] == e;
      var j := TwinOf(selected, current, lb, i, parsesAsIp);
      assert group[j] in group;
    }
  }

  lemma TwinOf(
    selected: seq<Request>, current: map<string, Endpoint>, lb: string, i: nat,
    parsesAsIp: string -> bool) returns (j: nat)
    requires Twinned(selected, current, lb) && i < |Named(Map(Realizer(current), selected), lb)|
    ensures var group := Named(Map(Realizer(current), selected), lb);
            j < |group| && !Skipped(group[j]) && Rrdatas(group[j], parsesAsIp) == Rrdatas(group[i], parsesAsIp)
  {
    hide *;
    var group := Named(Map(Realizer(current), selected), lb);
    var q := GroupMadeFor(selected, current, lb, i);
    var w := TwinRequest(selected, current, lb, group[i], q);
    MadeIn(selected, current, w);
    j :| 0 <= j < |group| && group[j] == Realize(w, current);
    SameRrdatas(q, w, current, parsesAsIp);
  }

  lemma TwinRequest(
    selected: seq<Request>, current: map<string, Endpoint>, lb: string, e: Endpoint, q: Request) returns (w: Request)
    requires Twinned(selected, current, lb) && MadeFor(e, q, selected, current, lb)
    ensures e == Realize(q, current) && w.dnsName == lb && w in selected
    ensures w.targets == q.targets && w.recordType == q.recordType && !Skipped(Realize(w, current))
  {
    hide Realize, Skipped;
    assert HasTwin(selected, current, q);
    w :| w in selected && IsTwin(w, q, current);
  }

  lemma SameRrdatas(q: Request, w: Request, current: map<string, Endpoint>, parsesAsIp: string -> bool)
    requires q.targets == w.targets && q.recordType == w.recordType
    ensures Rrdatas(Realize(q, current), parsesAsIp) == Rrdatas(Realize(w, current), parsesAsIp)
  {}

  lemma GeoNotSkipped(lb: string, geo: string, current: map<string, Endpoint>)
    requires geo != WILDCARD
    ensures !Skipped(Realize(GeoRequest(lb, geo), current))
  {
    var r := GeoRequest(lb, geo);
    LookupAssign(CreateOrUpdate(r, Find(current, Key(r))).props, GEO_CODE, geo, GEO_CODE);
  }

  lemma DefaultNotSkipped(lb: string, current: map<string, Endpoint>)
    ensures !Skipped(Realize(WildcardRequest(lb, DEFAULT), current))
  {
    ToLowerConcat(DEFAULT, "." + lb);
    assert DEFAULT + "." + lb == DEFAULT + ("." + lb);
    assert ToLower(DEFAULT) == DEFAULT;
    assert HasPrefix(Below(DEFAULT, lb), DEFAULT);
  }

  /** The published requests of a gateway's lb name are twinned. */
  lemma SelectedAreTwinned(
    t: GatewayTarget, host: string, order: seq<string>, s: seq<Request>, h: Health, looksLikeIp: string -> bool,
    current: map<string, Endpoint>)
    requires DistinctLabels(t) && IsOrder(t, order) && forall r :: r in s <==> r in Requests(t, host, order)
    ensures Twinned(Selected(s, h, looksLikeIp), current, LbName(t, host))
  {
    hide Selected, Skipped, Realize, Requests, LbName, IsOrder;
    var lb, selected := LbName(t, host), Selected(s, h, looksLikeIp);
    forall q | q in selected && q.dnsName == lb ensures HasTwin(selected, current, q) {
      SelectedSubset(s, h, looksLikeIp, q);
      RequestKinds(t, host, order, q);
      LbKind(t, host, q);
      var w := q;
      if IsGeoRequest(t, lb, q) {
        var c :| c in t.clusters && q == GeoRequest(lb, c.geo);
        NotStar(t, c);
        GeoNotSkipped(lb, c.geo, current);
      } else {
        w := UnskippedTwin(t, host, order, s, h, looksLikeIp, current, q);
      }
      assert w in selected && IsTwin(w, q, current);
    }
  }

  lemma UnskippedTwin(
    t: GatewayTarget, host: string, order: seq<string>, s: seq<Request>, h: Health, looksLikeIp: string -> bool,
    current: map<string, Endpoint>, q: Request)
    returns (w: Request)
    requires DistinctLabels(t) && IsOrder(t, order) && forall r :: r in s <==> r in Requests(t, host, order)
    requires q in Selected(s, h, looksLikeIp) && IsWildcardRequest(t, LbName(t, host), q)
    ensures w in Selected(s, h, looksLikeIp) && w.dnsName == q.dnsName && w.targets == q.targets &&
            w.recordType == q.recordType
    ensures !Skipped(Realize(w, current))
  {
    hide Selected, Skipped, Realize, Requests, LbName, IsOrder;
    var lb := LbName(t, host);
    SelectedSubset(s, h, looksLikeIp, q);
    WildcardHasTwin(t, host, order, q);
    if q == WildcardRequest(lb, DEFAULT) {
      w := q;
      DefaultNotSkipped(lb, current);
    } else {
      var c :| c in t.clusters && q.targets == GeoRequest(lb, c.geo).targets &&
        GeoRequest(lb, c.geo) in Requests(t, host, order);
      w := GeoRequest(lb, c.geo);
      SelectedTwins(s, h, looksLikeIp, q, w);
      NotStar(t, c);
      GeoNotSkipped(lb, c.geo, current);
    }
  }

  lemma NotStar(t: GatewayTarget, c: ClusterTarget)
    requires DistinctLabels(t) && c in t.clusters
    ensures c.geo != WILDCARD
  {}

  /** The name tells the kind of a request. */
  lemma LbKind(t: GatewayTarget, host: string, r: Request)
    requires DistinctLabels(t) && IsKnown(t, host, r)
    ensures r.dnsName == LbName(t, host) ==> IsLbRequest(t, LbName(t, host), r)
    ensures r.dnsName == host ==> r == HostRequest(host, LbName(t, host))
    ensures IsGeoName(t, host, r.dnsName) ==> IsWeightedRequest(t, LbName(t, host), r)
    ensures IsClusterName(t, host, r.dnsName) ==> IsAddressRequest(t, LbName(t, host), r)
  {
    hide LbName;
    var lb := LbName(t, host);
    LbNameApart(t, host);
    NamesApart(t, host, r.dnsName);
    if IsAddressRequest(t, lb, r) {
      assert IsClusterName(t, host, r.dnsName);
    } else if IsWeightedRequest(t, lb, r) {
      assert IsGeoName(t, host, r.dnsName);
    }
  }

  /** For every list setEndpoints publishes, each DNS name has one record set, complete as said above. */
  lemma TranslationComplete(
    t: GatewayTarget, host: string, order: seq<string>, record: seq<Endpoint>, h: Health,
    looksLikeIp: string -> bool, parsesAsIp: string -> bool, name: string)
    requires DistinctLabels(t) && IsOrder(t, order) && DistinctKeys(Requests(t, host, order), Key)
    requires SplitsAgree(ById(record), Requests(t, host, order)) && CleanReuse(ById(record), Requests(t, host, order))
    requires name in DnsNames(Run(Requests(t, host, order), record, h, looksLikeIp))
    ensures Complete(Run(Requests(t, host, order), record, h, looksLikeIp), name, parsesAsIp)
  {
    hide Requests, Selected, Realize, Map, SortBy, DistinctKeys, SplitsAgree, Complete, CompleteAs, LbName, IsOrder;
    var requests, current := Requests(t, host, order), ById(record);
    var s := SortBy(requests, Key);
    SortMembers(requests, s);
    FullListIsMap(requests, current);
    PublishedIsMap(s, current, h, looksLikeIp);
    var selected := Selected(s, h, looksLikeIp);
    forall r | r in selected ensures r in requests && IsKnown(t, host, r) {
      SelectedSubset(s, h, looksLikeIp, r);
      RequestKinds(t, host, order, r);
    }
    var l := Map(Realizer(current), selected);
    var i :| 0 <= i < |l| && l[i].dnsName == name;
    RealizedTargets(selected[i], current);
    SelectedAreTwinned(t, host, order, s, h, looksLikeIp, current);
    NameComplete(t, host, requests, selected, current, parsesAsIp, selected[i]);
    SaidPlainly(l, name, parsesAsIp);
  }

  lemma NameComplete(
    t: GatewayTarget, host: string, requests: seq<Request>, selected: seq<Request>, current: map<string, Endpoint>,
      parsesAsIp: string -> bool, r: Request)
    requires DistinctLabels(t) && DistinctKeys(requests, Key) && CleanReuse(current, requests)
    requires forall q | q in selected :: q in requests && IsKnown(t, host, q)
    requires r in selected && Twinned(selected, current, LbName(t, host))
    ensures CompleteAs(Map(Realizer(current), selected), r.dnsName, parsesAsIp)
  {
    hide Realize, Map, DistinctKeys, CompleteAs, LbName, IsKnown, Twinned, CleanFor, IsAddressRequest,
      IsWeightedRequest,
      IsLbRequest, IsGeoName, IsClusterName;
    var lb := LbName(t, host);
    forall q | q in selected && q.dnsName == r.dnsName ensures SameKind(t, host, q, r) {
      KindOf(t, host, q, r);
    }
    KindOf(t, host, r, r);
    forall q | q in selected && q.dnsName == r.dnsName ensures q.recordType == r.recordType && q.ttl == r.ttl {
      assert SameKind(t, host, q, r);
    }
    assert CleanReuse(current, selected);
    if r.prop.None? {
      forall q | q in selected && q.dnsName == r.dnsName ensures q == r {
        assert SameKind(t, host, q, r);
        SameKeySame(requests, q, r);
      }
      PlainComplete(selected, current, r, parsesAsIp);
    } else if r.prop.value.name == WEIGHT {
      forall q | q in selected && q.dnsName == r.dnsName ensures q.prop.Some? && q.prop.value.name == WEIGHT &&
        q.targets != [] {
        assert SameKind(t, host, q, r);
      }
      WeightedComplete(selected, current, r, parsesAsIp);
    } else {
      forall q | q in selected && q.dnsName == r.dnsName ensures q.prop.Some? && q.prop.value.name == GEO_CODE &&
        q.targets != [] {
        assert SameKind(t, host, q, r);
      }
      LocatedComplete(selected, current, r, parsesAsIp);
    }
  }

  /** Requests of one name set the same property; without one they have the same id. */
  ghost predicate SameKind(t: GatewayTarget, host: string, q: Request, r: Request) {
    && q.targets != [] && q.recordType == r.recordType && q.ttl == r.ttl
    && (r.prop.None? ==> q.prop.None? && q.setIdentifier == r.setIdentifier == "")
    && (r.prop.Some? ==>
          q.prop.Some? && q.prop.value.name == r.prop.value.name && q.prop.value.name in {WEIGHT, GEO_CODE})
    && (r.prop.Some? && r.prop.value.name == GEO_CODE ==> r.dnsName == LbName(t, host))
  }

  lemma KindOf(t: GatewayTarget, host: string, q: Request, r: Request)
    requires DistinctLabels(t) && IsKnown(t, host, q) && IsKnown(t, host, r) && q.dnsName == r.dnsName
    ensures SameKind(t, host, q, r)
  {
    hide LbName;
    LbKind(t, host, q);
    LbKind(t, host, r);
    RequestsAreOwn(t, host, r);
  }
}

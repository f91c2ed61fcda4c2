/** Compiling a multi-cluster gateway into its chain of DNS endpoints: listener host -> lb name ->
    geo name -> cluster name -> addresses (pkg/controllers/dnspolicy/dns_helper.go:174-253 and
    345-360, pkg/dns/target.go:46-59). This module says what is asked for, as a list of requests;
    SetEndpoints.dfy runs the loop that creates or updates the endpoint objects. */
module Build {
  import opened Options
  import opened Strings
  import opened Sorting
  import opened Endpoints

  const DEFAULT := "default"
  const WILDCARD := "*"
  const DEFAULT_TTL := 60
  const DEFAULT_CNAME_TTL := 300

  datatype Address = Address(isIp: bool, value: string)

  /** A cluster gateway with its short code, geo and weight worked out. */
  datatype ClusterTarget = ClusterTarget(shortCode: string, geo: string, weight: int, addresses: seq<Address>)

  datatype GatewayTarget = GatewayTarget(shortCode: string, clusters: seq<ClusterTarget>, defaultGeo: string)

  function InGeo(clusters: seq<ClusterTarget>, geo: string): seq<ClusterTarget> {
    if clusters == [] then []
    else
      var n := |clusters| - 1;
      InGeo(clusters[..n], geo) + if clusters[n].geo == geo then [clusters[n]] else []
  }

  method GroupTargetsByGeo(clusters: seq<ClusterTarget>) returns (groups: map<string, seq<ClusterTarget>>)
    ensures forall g :: g in groups <==> exists c | c in clusters :: c.geo == g
    ensures forall g | g in groups :: groups[g] == InGeo(clusters, g)
  {
    groups := map[];
    for i := 0 to |clusters|
      invariant forall g ::
                  if InGeo(clusters[..i], g) == [] then g !in groups
                  else g in groups && groups[g] == InGeo(clusters[..i], g)
    {
      var c := clusters[i];
      assert clusters[..i + 1][..i] == clusters[..i];
      groups := groups[c.geo := (if c.geo in groups then groups[c.geo] else []) + [c]];
    }
    assert clusters[..|clusters|] == clusters;
    forall g ensures g in groups <==> exists c | c in clusters :: c.geo == g {
      SomeInGeo(clusters, g);
    }
  }

  lemma SomeInGeo(clusters: seq<ClusterTarget>, geo: string)
    ensures InGeo(clusters, geo) != [] <==> exists c | c in clusters :: c.geo == geo
  {
    var inGeo := InGeo(clusters, geo);
    if inGeo != [] {
      InGeoMembers(clusters, geo, inGeo[0]);
    }
    if c :| c in clusters && c.geo == geo {
      InGeoMembers(clusters, geo, c);
    }
  }

  // ----- names -----

  function CnameHost(host: string): string {
    if HasPrefix(host, "*") then RemoveAll(host, "*.") else host
  }

  function LbName(t: GatewayTarget, host: string): string {
    ToLower("lb-" + t.shortCode + "." + CnameHost(host))
  }

  /** The name of a geo or of a cluster below the lb name. */
  function Below(code: string, lb: string): string {
    ToLower(code + "." + lb)
  }

  // ----- requests -----

  /** What one call of createOrUpdateEndpoint asks for, and the property set on the result. */
  datatype Request = Request(
    dnsName: string, targets: seq<string>, recordType: string, setIdentifier: string, ttl: int, prop: Option<Property>)

  function Key(r: Request): string {
    r.dnsName + r.setIdentifier
  }

  /** `createOrUpdateEndpoint`: an endpoint found under the key keeps its set identifier, labels and
      provider properties. */
  function CreateOrUpdate(r: Request, found: Option<Endpoint>): Endpoint {
    var base := match found { case Some(e) => e case None => NEW_ENDPOINT.(setIdentifier := r.setIdentifier) };
    base.(dnsName := r.dnsName, recordType := r.recordType, targets := r.targets, ttl := r.ttl)
  }

  function Find(current: map<string, Endpoint>, key: string): Option<Endpoint> {
    if key in current then Some(current[key]) else None
  }

  function Realize(r: Request, current: map<string, Endpoint>): Endpoint {
    var e := CreateOrUpdate(r, Find(current, Key(r)));
    if r.prop.Some? then e.With(r.prop.value.name, r.prop.value.value) else e
  }

  function Values(addresses: seq<Address>, ip: bool): seq<string> {
    if addresses == [] then []
    else
      var n := |addresses| - 1;
      Values(addresses[..n], ip) + if addresses[n].isIp == ip then [addresses[n].value] else []
  }

  function WeightedRequest(name: string, host: string, weight: int): Request {
    Request(name, [host], CNAME, host, DEFAULT_TTL, Some(Property(WEIGHT, Itoa(weight))))
  }

  function WeightedRequests(name: string, hosts: seq<string>, weight: int): (r: seq<Request>)
    ensures |r| == |hosts|
    ensures forall i | 0 <= i < |hosts| :: r[i] == WeightedRequest(name, hosts[i], weight)
  {
    if hosts == [] then []
    else
      var n := |hosts| - 1;
      WeightedRequests(name, hosts[..n], weight) + [WeightedRequest(name, hosts[n], weight)]
  }

  function AddressRequest(c: ClusterTarget, lb: string): Request {
    Request(Below(c.shortCode, lb), Values(c.addresses, true), A, "", DEFAULT_TTL, None)
  }

  /** The host names a cluster is reached by: its own first label last, if it has IP addresses. */
  function ClusterHosts(c: ClusterTarget, lb: string): seq<string> {
    Values(c.addresses, false) + if Values(c.addresses, true) == [] then [] else [Below(c.shortCode, lb)]
  }

  function AddressRequests(c: ClusterTarget, lb: string): seq<Request> {
    if Values(c.addresses, true) == [] then [] else [AddressRequest(c, lb)]
  }

  function ClusterRequests(c: ClusterTarget, lb: string): seq<Request> {
    AddressRequests(c, lb) + WeightedRequests(Below(c.geo, lb), ClusterHosts(c, lb), c.weight)
  }

  function ClustersRequests(clusters: seq<ClusterTarget>, lb: string): seq<Request> {
    if clusters == [] then []
    else
      var n := |clusters| - 1;
      ClustersRequests(clusters[..n], lb) + ClusterRequests(clusters[n], lb)
  }

  function GeoRequest(lb: string, geo: string): Request {
    Request(lb, [Below(geo, lb)], CNAME, geo, DEFAULT_CNAME_TTL, Some(Property(GEO_CODE, geo)))
  }

  function DefaultRequest(lb: string, geo: string): Request {
    Request(lb, [Below(geo, lb)], CNAME, DEFAULT, DEFAULT_CNAME_TTL, None)
  }

  function WildcardRequest(lb: string, geo: string): Request {
    DefaultRequest(lb, geo).(prop := Some(Property(GEO_CODE, WILDCARD)))
  }

  function HostRequest(host: string, lb: string): Request {
    Request(host, [lb], CNAME, "", DEFAULT_CNAME_TTL, None)
  }

  predicate HasAddress(t: GatewayTarget, lb: string, geo: string) {
    ClustersRequests(InGeo(t.clusters, geo), lb) != []
  }

  /** Everything one geo adds to the list. */
  function GeoBody(t: GatewayTarget, lb: string, geo: string): seq<Request> {
    var requests := ClustersRequests(InGeo(t.clusters, geo), lb);
    requests + if requests == [] || geo == DEFAULT then [] else [GeoRequest(lb, geo)]
  }

  /** The geo the default endpoint points to after visiting the geos in this order. */
  function DefaultOf(t: GatewayTarget, lb: string, order: seq<string>): (geo: Option<string>)
    ensures geo.Some? ==> geo.value in order && HasAddress(t, lb, geo.value)
  {
    if order == [] then None
    else
      var n := |order| - 1;
      var before := DefaultOf(t, lb, order[..n]);
      if !HasAddress(t, lb, order[n]) then before
      else if order[n] == DEFAULT || order[n] == t.defaultGeo || before.None? then Some(order[n])
      else before
  }

  function Body(t: GatewayTarget, lb: string, order: seq<string>): (body: seq<Request>)
    ensures body != [] ==> DefaultOf(t, lb, order).Some?
  {
    if order == [] then []
    else
      var n := |order| - 1;
      Body(t, lb, order[..n]) + GeoBody(t, lb, order[n])
  }

  /** The requests for a listener host, visiting the geos in the given order. */
  function Requests(t: GatewayTarget, host: string, order: seq<string>): seq<Request> {
    var lb := LbName(t, host);
    var body := Body(t, lb, order);
    if body == [] then []
    else body + [WildcardRequest(lb, DefaultOf(t, lb, order).value), HostRequest(host, lb)]
  }

  ghost predicate HasGeo(t: GatewayTarget, geo: string) {
    exists c | c in t.clusters :: c.geo == geo
  }

  /** A possible iteration order of the geo map. */
  ghost predicate IsOrder(t: GatewayTarget, order: seq<string>) {
    NoRepeats(order) && forall g :: g in order <==> HasGeo(t, g)
  }

  // ----- what kinds of requests there are -----

  predicate IsAddressRequest(t: GatewayTarget, lb: string, r: Request) {
    r.targets != [] && exists c | c in t.clusters :: r == AddressRequest(c, lb)
  }

  predicate IsWeightedRequest(t: GatewayTarget, lb: string, r: Request) {
    exists c | c in t.clusters ::
      |r.targets| == 1 && r == WeightedRequest(Below(c.geo, lb), r.targets[0], c.weight) &&
      (r.targets[0] == Below(c.shortCode, lb) || r.targets[0] in Values(c.addresses, false))
  }

  predicate IsGeoRequest(t: GatewayTarget, lb: string, r: Request) {
    exists c | c in t.clusters :: r == GeoRequest(lb, c.geo)
  }

  predicate IsWildcardRequest(t: GatewayTarget, lb: string, r: Request) {
    exists c | c in t.clusters :: r == WildcardRequest(lb, c.geo)
  }

  predicate IsLbRequest(t: GatewayTarget, lb: string, r: Request) {
    IsGeoRequest(t, lb, r) || IsWildcardRequest(t, lb, r)
  }

  ghost predicate IsKnown(t: GatewayTarget, host: string, r: Request) {
    var lb := LbName(t, host);
    IsAddressRequest(t, lb, r) || IsWeightedRequest(t, lb, r) || IsLbRequest(t, lb, r) || r == HostRequest(host, lb)
  }

  lemma {:induction false} InGeoMembers(clusters: seq<ClusterTarget>, geo: string, c: ClusterTarget)
    ensures c in InGeo(clusters, geo) <==> c in clusters && c.geo == geo
  {
    if clusters != [] {
      InGeoMembers(clusters[..|clusters| - 1], geo, c);
      assert clusters == clusters[..|clusters| - 1] + [clusters[|clusters| - 1]];
    }
  }

  lemma ClusterRequestKinds(t: GatewayTarget, lb: string, c: ClusterTarget, r: Request)
    requires c in t.clusters && r in ClusterRequests(c, lb)
    ensures IsAddressRequest(t, lb, r) || IsWeightedRequest(t, lb, r)
  {
    if r !in AddressRequests(c, lb) {
      var hosts := ClusterHosts(c, lb);
      assert r in WeightedRequests(Below(c.geo, lb), hosts, c.weight);
      var i :| 0 <= i < |hosts| && r == WeightedRequest(Below(c.geo, lb), hosts[i], c.weight);
      assert r.targets[0] == hosts[i];
    }
  }

  lemma {:induction false} ClustersRequestKinds(t: GatewayTarget, lb: string, clusters: seq<ClusterTarget>, r: Request)
    requires (forall c | c in clusters :: c in t.clusters) && r in ClustersRequests(clusters, lb)
    ensures IsAddressRequest(t, lb, r) || IsWeightedRequest(t, lb, r)
  {
    var n := |clusters| - 1;
    if r in ClusterRequests(clusters[n], lb) {
      ClusterRequestKinds(t, lb, clusters[n], r);
    } else {
      ClustersRequestKinds(t, lb, clusters[..n], r);
    }
  }

  lemma GeoBodyKinds(t: GatewayTarget, lb: string, geo: string, r: Request)
    requires HasGeo(t, geo) && r in GeoBody(t, lb, geo)
    ensures IsAddressRequest(t, lb, r) || IsWeightedRequest(t, lb, r) || IsGeoRequest(t, lb, r)
  {
    var inGeo := InGeo(t.clusters, geo);
    if r in ClustersRequests(inGeo, lb) {
      forall c | c in inGeo ensures c in t.clusters {
        InGeoMembers(t.clusters, geo, c);
      }
      ClustersRequestKinds(t, lb, inGeo, r);
    } else {
      assert r == GeoRequest(lb, geo);
    }
  }

  lemma {:induction false} BodyKinds(t: GatewayTarget, lb: string, order: seq<string>, r: Request)
    requires (forall g | g in order :: HasGeo(t, g)) && r in Body(t, lb, order)
    ensures IsAddressRequest(t, lb, r) || IsWeightedRequest(t, lb, r) || IsGeoRequest(t, lb, r)
  {
    var n := |order| - 1;
    if r in GeoBody(t, lb, order[n]) {
      GeoBodyKinds(t, lb, order[n], r);
    } else {
      BodyKinds(t, lb, order[..n], r);
    }
  }

  lemma RequestKinds(t: GatewayTarget, host: string, order: seq<string>, r: Request)
    requires IsOrder(t, order) && r in Requests(t, host, order)
    ensures IsKnown(t, host, r)
  {
    var lb := LbName(t, host);
    if r in Body(t, lb, order) {
      BodyKinds(t, lb, order, r);
    } else if r != HostRequest(host, lb) {
      var g := DefaultOf(t, lb, order).value;
      assert g in order && r == WildcardRequest(lb, g);
    }
  }

  /** A geo has an address if and only if one of its clusters has. */
  lemma AddressedExactly(t: GatewayTarget, lb: string, geo: string)
    ensures HasAddress(t, lb, geo) <==> exists c | c in t.clusters :: c.geo == geo && c.addresses != []
  {
    hide ClusterRequests;
    var inGeo := InGeo(t.clusters, geo);
    SomeAsked(inGeo, lb);
    forall c ensures c in inGeo <==> c in t.clusters && c.geo == geo {
      InGeoMembers(t.clusters, geo, c);
    }
  }

  lemma {:induction false} SomeAsked(clusters: seq<ClusterTarget>, lb: string)
    ensures ClustersRequests(clusters, lb) != [] <==> exists c | c in clusters :: c.addresses != []
  {
    if clusters != [] {
      hide ClusterRequests;
      var n := |clusters| - 1;
      var front, last := clusters[..n], clusters[n];
      assert clusters == front + [last];
      SomeAsked(front, lb);
      OneAsked(last, lb);
    }
  }

  lemma OneAsked(c: ClusterTarget, lb: string)
    ensures ClusterRequests(c, lb) != [] <==> c.addresses != []
  {
    hide Below;
    var n := |c.addresses| - 1;
    if c.addresses != [] {
      assert (if c.addresses[n].isIp then Values(c.addresses, true) else Values(c.addresses, false)) != [];
    }
  }

  // ----- order independence and the wildcard endpoint -----

  /** A geo with an address takes over the default endpoint when it is visited, whatever came before, if
      it is "default" or the configured default geo. */
  predicate Takes(t: GatewayTarget, lb: string, geo: string) {
    HasAddress(t, lb, geo) && (geo == DEFAULT || geo == t.defaultGeo)
  }

  /** If one geo only takes the default endpoint, the endpoint points there whatever the order. */
  lemma {:induction false} SoleTakerWins(t: GatewayTarget, lb: string, order: seq<string>, geo: string)
    requires geo in order && Takes(t, lb, geo)
    requires forall g | g in order && Takes(t, lb, g) :: g == geo
    ensures DefaultOf(t, lb, order) == Some(geo)
  {
    hide HasAddress;
    var n := |order| - 1;
    if order[n] != geo {
      assert order == order[..n] + [order[n]];
      assert order[n] in order;
      SoleTakerWins(t, lb, order[..n], geo);
    }
  }

  /** With an address in the configured default geo, the default endpoint points there in every order if
      and only if no cluster with an address has ended up in a geo called "default" beside it. */
  lemma DefaultIsConfiguredExactly(t: GatewayTarget, lb: string, order: seq<string>)
    requires IsOrder(t, order) && HasAddress(t, lb, t.defaultGeo)
    ensures (forall a | IsOrder(t, a) :: DefaultOf(t, lb, a) == Some(t.defaultGeo)) <==>
            (HasAddress(t, lb, DEFAULT) ==> t.defaultGeo == DEFAULT)
  {
    hide HasAddress;
    AddressInOrder(t, lb, order, t.defaultGeo);
    if HasAddress(t, lb, DEFAULT) && t.defaultGeo != DEFAULT {
      AddressInOrder(t, lb, order, DEFAULT);
      var rest := ToBack(t, order, DEFAULT);
      LastTakes(t, lb, rest, DEFAULT);
    } else {
      forall a | IsOrder(t, a) ensures DefaultOf(t, lb, a) == Some(t.defaultGeo) {
        AddressInOrder(t, lb, a, t.defaultGeo);
        SoleTakerWins(t, lb, a, t.defaultGeo);
      }
    }
  }

  /** Of several such geos the last one visited wins. */
  lemma LastTakes(t: GatewayTarget, lb: string, rest: seq<string>, geo: string)
    requires Takes(t, lb, geo)
    ensures DefaultOf(t, lb, rest + [geo]) == Some(geo)
  {
    hide HasAddress;
    assert (rest + [geo])[..|rest|] == rest;
  }

  lemma AddressInOrder(t: GatewayTarget, lb: string, order: seq<string>, geo: string)
    requires IsOrder(t, order) && HasAddress(t, lb, geo)
    ensures HasGeo(t, geo) && geo in order
  {
    var inGeo := InGeo(t.clusters, geo);
    assert inGeo != [];
    InGeoMembers(t.clusters, geo, inGeo[0]);
  }

  lemma {:induction false} BodyCollect(t: GatewayTarget, lb: string, order: seq<string>)
    ensures multiset(Body(t, lb, order)) == Collect(order, g => multiset(GeoBody(t, lb, g)))
  {
    if order != [] {
      BodyCollect(t, lb, order[..|order| - 1]);
    }
  }

  function GeoShare(lb: string, geo: string): ClusterTarget -> multiset<Request> {
    (c: ClusterTarget) => if c.geo == geo then multiset(ClusterRequests(c, lb)) else multiset{}
  }

  lemma {:induction false} GeoCollect(clusters: seq<ClusterTarget>, lb: string, geo: string)
    ensures multiset(ClustersRequests(InGeo(clusters, geo), lb)) == Collect(clusters, GeoShare(lb, geo))
  {
    if clusters != [] {
      var n := |clusters| - 1;
      GeoCollect(clusters[..n], lb, geo);
      if clusters[n].geo == geo {
        var inGeo := InGeo(clusters, geo);
        assert inGeo[..|inGeo| - 1] == InGeo(clusters[..n], geo);
      } else {
        assert InGeo(clusters, geo) == InGeo(clusters[..n], geo);
      }
    }
  }

  ghost predicate SameGateway(t: GatewayTarget, u: GatewayTarget) {
    t.shortCode == u.shortCode && t.defaultGeo == u.defaultGeo && multiset(t.clusters) == multiset(u.clusters)
  }

  lemma GeoBodyPermute(t: GatewayTarget, u: GatewayTarget, lb: string, geo: string)
    requires SameGateway(t, u)
    ensures multiset(GeoBody(t, lb, geo)) == multiset(GeoBody(u, lb, geo))
    ensures HasAddress(t, lb, geo) == HasAddress(u, lb, geo)
  {
    GeoCollect(t.clusters, lb, geo);
    GeoCollect(u.clusters, lb, geo);
    CollectPermute(t.clusters, u.clusters, GeoShare(lb, geo));
    var a, b := ClustersRequests(InGeo(t.clusters, geo), lb), ClustersRequests(InGeo(u.clusters, geo), lb);
    assert |a| == |multiset(a)| == |multiset(b)| == |b|;
  }

  lemma {:induction false} BodyPermute(t: GatewayTarget, u: GatewayTarget, lb: string, order: seq<string>)
    requires SameGateway(t, u)
    ensures multiset(Body(t, lb, order)) == multiset(Body(u, lb, order))
  {
    if order != [] {
      BodyPermute(t, u, lb, order[..|order| - 1]);
      GeoBodyPermute(t, u, lb, order[|order| - 1]);
    }
  }

  lemma SameMembers(t: GatewayTarget, u: GatewayTarget, c: ClusterTarget)
    requires SameGateway(t, u)
    ensures c in t.clusters <==> c in u.clusters
  {
    assert c in t.clusters <==> c in multiset(t.clusters);
  }

  /** Two choices of the default geo that give the same endpoint. */
  predicate SameDefault(a: Option<string>, b: Option<string>) {
    (a.Some? <==> b.Some?) && (a.Some? ==> ToLower(a.value) == ToLower(b.value))
  }

  /** Apart from the default endpoint, the order of geos and clusters does not matter. */
  lemma RequestsPermuteGiven(t: GatewayTarget, u: GatewayTarget, host: string, order: seq<string>, other: seq<string>)
    requires SameGateway(t, u) && multiset(order) == multiset(other)
    requires SameDefault(DefaultOf(t, LbName(t, host), order), DefaultOf(u, LbName(t, host), other))
    ensures multiset(Requests(t, host, order)) == multiset(Requests(u, host, other))
  {
    hide GeoBody, Below, LbName, DefaultOf;
    var lb := LbName(t, host);
    assert LbName(u, host) == lb by { SameLb(t, u, host); }
    BodyPermute(t, u, lb, other);
    BodyReorder(t, lb, order, other);
    var a, b := Body(t, lb, order), Body(u, lb, other);
    assert |a| == |multiset(a)| == |multiset(b)| == |b|;
    if a != [] {
      BelowInjective(DefaultOf(t, lb, order).value, DefaultOf(u, lb, other).value, lb);
    }
  }

  lemma SameLb(t: GatewayTarget, u: GatewayTarget, host: string)
    requires SameGateway(t, u)
    ensures LbName(t, host) == LbName(u, host)
  {}

  lemma OrdersOf(t: GatewayTarget, u: GatewayTarget, order: seq<string>, other: seq<string>)
    requires SameGateway(t, u) && IsOrder(t, order) && IsOrder(u, other)
    ensures multiset(order) == multiset(other)
  {
    forall c ensures c in t.clusters <==> c in u.clusters { SameMembers(t, u, c); }
    NoRepeatsPermute(order, other);
  }

  /** Some order makes the default endpoint point to this geo: it has an address and, if "default" or the
      configured default geo has one, it is one of these. */
  predicate CanWin(t: GatewayTarget, lb: string, geo: string) {
    HasAddress(t, lb, geo) &&
    (HasAddress(t, lb, DEFAULT) || HasAddress(t, lb, t.defaultGeo) ==> geo == DEFAULT || geo == t.defaultGeo)
  }

  /** All geos that can win have the same name. */
  ghost predicate Settled(t: GatewayTarget, lb: string) {
    forall g, h | CanWin(t, lb, g) && CanWin(t, lb, h) :: ToLower(g) == ToLower(h)
  }

  lemma {:induction false} TakerWins(t: GatewayTarget, lb: string, order: seq<string>, geo: string)
    requires geo in order && Takes(t, lb, geo)
    ensures DefaultOf(t, lb, order).Some? && Takes(t, lb, DefaultOf(t, lb, order).value)
  {
    hide HasAddress;
    var n := |order| - 1;
    if !Takes(t, lb, order[n]) {
      assert order == order[..n] + [order[n]];
      TakerWins(t, lb, order[..n], geo);
    }
  }

  lemma WinnerCanWin(t: GatewayTarget, lb: string, order: seq<string>)
    requires IsOrder(t, order)
    ensures var d := DefaultOf(t, lb, order); d.Some? ==> CanWin(t, lb, d.value)
  {
    hide HasAddress, DefaultOf, IsOrder;
    if HasAddress(t, lb, DEFAULT) {
      AddressInOrder(t, lb, order, DEFAULT);
      TakerWins(t, lb, order, DEFAULT);
    }
    if HasAddress(t, lb, t.defaultGeo) {
      AddressInOrder(t, lb, order, t.defaultGeo);
      TakerWins(t, lb, order, t.defaultGeo);
    }
  }

  /** Then every order gives the same default endpoint. */
  lemma SettledDefault(t: GatewayTarget, u: GatewayTarget, lb: string, order: seq<string>, other: seq<string>)
    requires SameGateway(t, u) && IsOrder(t, order) && IsOrder(u, other) && Settled(t, lb)
    ensures SameDefault(DefaultOf(t, lb, order), DefaultOf(u, lb, other))
  {
    hide HasAddress, IsOrder, ToLower;
    SameAddresses(t, u, lb);
    WinnerCanWin(t, lb, order);
    WinnerCanWin(u, lb, other);
    var a, b := DefaultOf(t, lb, order), DefaultOf(u, lb, other);
    if a.Some? {
      AddressInOrder(u, lb, other, a.value);
      SomeDefault(u, lb, other, a.value);
    }
    if b.Some? {
      AddressInOrder(t, lb, order, b.value);
      SomeDefault(t, lb, order, b.value);
    }
  }

  lemma SameAddresses(t: GatewayTarget, u: GatewayTarget, lb: string)
    requires SameGateway(t, u)
    ensures forall g :: HasAddress(t, lb, g) <==> HasAddress(u, lb, g)
  {
    hide HasAddress;
    forall g ensures HasAddress(t, lb, g) <==> HasAddress(u, lb, g) {
      GeoBodyPermute(t, u, lb, g);
    }
  }

  /** Then visiting geos and clusters in another order asks for the same endpoints. */
  lemma RequestsPermute(t: GatewayTarget, u: GatewayTarget, host: string, order: seq<string>, other: seq<string>)
    requires SameGateway(t, u) && IsOrder(t, order) && IsOrder(u, other) && Settled(t, LbName(t, host))
    ensures multiset(Requests(t, host, order)) == multiset(Requests(u, host, other))
  {
    hide HasAddress, IsOrder, Requests, Settled;
    OrdersOf(t, u, order, other);
    SettledDefault(t, u, LbName(t, host), order, other);
    RequestsPermuteGiven(t, u, host, order, other);
  }

  // ----- exactly when the order does not matter -----

  /** If no geo takes the default endpoint, it points to the first geo visited that has an address. */
  lemma {:induction false} DefaultIsFirst(t: GatewayTarget, lb: string, first: string, rest: seq<string>)
    requires HasAddress(t, lb, first)
    requires !HasAddress(t, lb, DEFAULT) && !HasAddress(t, lb, t.defaultGeo)
    ensures DefaultOf(t, lb, [first] + rest) == Some(first)
  {
    hide HasAddress;
    var order := [first] + rest;
    if rest == [] {
      assert order[..0] == [];
    } else {
      var n := |rest| - 1;
      assert order[..|order| - 1] == [first] + rest[..n];
      DefaultIsFirst(t, lb, first, rest[..n]);
    }
  }

  lemma {:induction false} SomeDefault(t: GatewayTarget, lb: string, order: seq<string>, geo: string)
    requires geo in order && HasAddress(t, lb, geo)
    ensures DefaultOf(t, lb, order).Some?
  {
    var n := |order| - 1;
    if order[n] != geo {
      assert order == order[..n] + [order[n]];
      SomeDefault(t, lb, order[..n], geo);
    }
  }

  /** Moving one geo to the front gives another possible order. */
  lemma ToFront(t: GatewayTarget, order: seq<string>, geo: string) returns (rest: seq<string>)
    requires IsOrder(t, order) && geo in order
    ensures IsOrder(t, [geo] + rest)
  {
    var k :| 0 <= k < |order| && order[k] == geo;
    rest := order[..k] + order[k + 1..];
    var moved := [geo] + rest;
    forall g ensures g in moved <==> g in order {
      if g in order {
        var j :| 0 <= j < |order| && order[j] == g;
        assert j == k || rest[if j < k then j else j - 1] == g;
      }
    }
  }

  /** Moving one geo to the back gives another possible order. */
  lemma ToBack(t: GatewayTarget, order: seq<string>, geo: string) returns (rest: seq<string>)
    requires IsOrder(t, order) && geo in order
    ensures IsOrder(t, rest + [geo])
  {
    var k :| 0 <= k < |order| && order[k] == geo;
    rest := order[..k] + order[k + 1..];
    var moved := rest + [geo];
    forall g ensures g in moved <==> g in order {
      if g in order {
        var j :| 0 <= j < |order| && order[j] == g;
        assert j == k || rest[if j < k then j else j - 1] == g;
      }
    }
  }

  ghost predicate OrderIndependent(t: GatewayTarget, host: string) {
    forall a, b | IsOrder(t, a) && IsOrder(t, b) :: multiset(Requests(t, host, a)) == multiset(Requests(t, host, b))
  }

  /** No two geo labels differ in case only. */
  ghost predicate DistinctGeos(t: GatewayTarget) {
    forall g, h | HasGeo(t, g) && HasGeo(t, h) && g != h :: ToLower(g) != ToLower(h)
  }

  /** Whatever the labels, the built list is independent of Go's map iteration order if and only if all
      geos that can win have the same name in lower case. */
  lemma OrderIndependenceExact(t: GatewayTarget, host: string, order: seq<string>)
    requires IsOrder(t, order)
    ensures OrderIndependent(t, host) <==> Settled(t, LbName(t, host))
  {
    hide HasAddress, IsOrder, Requests, Settled;
    if Settled(t, LbName(t, host)) {
      forall a, b | IsOrder(t, a) && IsOrder(t, b)
        ensures multiset(Requests(t, host, a)) == multiset(Requests(t, host, b))
      {
        RequestsPermute(t, t, host, a, b);
      }
    } else {
      var a, b := OrderMatters(t, host, order);
    }
  }

  /** Every geo that can win does in some order. */
  lemma WinsSomewhere(t: GatewayTarget, lb: string, order: seq<string>, geo: string) returns (a: seq<string>)
    requires IsOrder(t, order) && CanWin(t, lb, geo)
    ensures IsOrder(t, a) && DefaultOf(t, lb, a) == Some(geo)
  {
    hide HasAddress, IsOrder, DefaultOf;
    AddressInOrder(t, lb, order, geo);
    if Takes(t, lb, geo) {
      var rest := ToBack(t, order, geo);
      a := rest + [geo];
      LastTakes(t, lb, rest, geo);
    } else {
      var rest := ToFront(t, order, geo);
      a := [geo] + rest;
      DefaultIsFirst(t, lb, geo, rest);
    }
  }

  lemma OrderMatters(t: GatewayTarget, host: string, order: seq<string>) returns (a: seq<string>, b: seq<string>)
    requires IsOrder(t, order) && !Settled(t, LbName(t, host))
    ensures IsOrder(t, a) && IsOrder(t, b)
    ensures multiset(Requests(t, host, a)) != multiset(Requests(t, host, b))
  {
    hide CanWin, IsOrder, Requests, ToLower, LbName;
    var lb := LbName(t, host);
    var g, h :| CanWin(t, lb, g) && CanWin(t, lb, h) && ToLower(g) != ToLower(h);
    a := WinsSomewhere(t, lb, order, g);
    b := WinsSomewhere(t, lb, order, h);
    DefaultsDiffer(t, host, a, b, g, h);
  }

  lemma DefaultsDiffer(t: GatewayTarget, host: string, a: seq<string>, b: seq<string>, g: string, h: string)
    requires IsOrder(t, a) && IsOrder(t, b) && ToLower(g) != ToLower(h)
    requires DefaultOf(t, LbName(t, host), a) == Some(g) && DefaultOf(t, LbName(t, host), b) == Some(h)
    ensures multiset(Requests(t, host, a)) != multiset(Requests(t, host, b))
  {
    var lb := LbName(t, host);
    OrdersOf(t, t, a, b);
    BodyReorder(t, lb, a, b);
    RequestsParts(t, host, a, g);
    RequestsParts(t, host, b, h);
    WildcardsDiffer(lb, g, h, host);
    CountDiffers(multiset(Body(t, lb, a)), WildcardRequest(lb, g), WildcardRequest(lb, h), HostRequest(host, lb));
  }

  lemma WildcardsDiffer(lb: string, g: string, h: string, host: string)
    requires ToLower(g) != ToLower(h)
    ensures WildcardRequest(lb, g) != WildcardRequest(lb, h)
    ensures WildcardRequest(lb, g) != HostRequest(host, lb)
  {
    BelowInjective(g, h, lb);
    assert WildcardRequest(lb, g).targets[0] != WildcardRequest(lb, h).targets[0];
  }

  lemma CountDiffers(base: multiset<Request>, x: Request, y: Request, r: Request)
    requires x != y && x != r
    ensures base + multiset{x, r} != base + multiset{y, r}
  {
    assert (base + multiset{x, r})[x] == (base + multiset{y, r})[x] + 1;
  }

  lemma BodyReorder(t: GatewayTarget, lb: string, a: seq<string>, b: seq<string>)
    requires multiset(a) == multiset(b)
    ensures multiset(Body(t, lb, a)) == multiset(Body(t, lb, b))
  {
    BodyCollect(t, lb, a);
    BodyCollect(t, lb, b);
    CollectPermute(a, b, g => multiset(GeoBody(t, lb, g)));
  }

  lemma RequestsParts(t: GatewayTarget, host: string, order: seq<string>, geo: string)
    requires DefaultOf(t, LbName(t, host), order) == Some(geo)
    ensures var lb := LbName(t, host);
            multiset(Requests(t, host, order)) ==
            multiset(Body(t, lb, order)) + multiset{WildcardRequest(lb, geo), HostRequest(host, lb)}
  {
    BodyNonEmpty(t, LbName(t, host), order, geo);
  }

  lemma {:induction false} BodyNonEmpty(t: GatewayTarget, lb: string, order: seq<string>, geo: string)
    requires geo in order && HasAddress(t, lb, geo)
    ensures Body(t, lb, order) != []
  {
    hide ClustersRequests, InGeo, DefaultOf;
    var n := |order| - 1;
    if order[n] != geo {
      assert order == order[..n] + [order[n]];
      BodyNonEmpty(t, lb, order[..n], geo);
    }
  }

  lemma BelowInjective(a: string, b: string, lb: string)
    ensures Below(a, lb) == Below(b, lb) <==> ToLower(a) == ToLower(b)
  {
    ToLowerConcat(a, "." + lb);
    ToLowerConcat(b, "." + lb);
    assert a + "." + lb == a + ("." + lb) && b + "." + lb == b + ("." + lb);
    if Below(a, lb) == Below(b, lb) {
      SuffixCancel(ToLower(a), ToLower(b), ToLower("." + lb));
    }
  }
}

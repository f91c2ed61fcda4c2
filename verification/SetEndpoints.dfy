/** `setEndpoints` as it runs: endpoint objects found in the record are updated in place, new ones
    are allocated, and the record is rewritten only if its endpoints changed
    (pkg/controllers/dnspolicy/dns_helper.go:174-360). */
module SetEndpoints {
  import opened Options
  import opened Sorting
  import opened Endpoints
  import opened Prune
  import opened Build
  import opened Publish

  type Objects = map<string, EndpointObject>

  /** Different ids hold different objects. */
  ghost predicate Separate(current: Objects) {
    forall k, l | k in current && l in current && k != l :: current[k] != current[l]
  }

  ghost function Snapshot(current: Objects): map<string, Endpoint>
    reads current.Values
  {
    map k | k in current :: current[k].View()
  }

  /** What createOrUpdateEndpoint keeps of an endpoint it finds. */
  ghost predicate KeptAlike(a: Endpoint, b: Endpoint) {
    a.setIdentifier == b.setIdentifier && a.labels == b.labels && a.props == b.props
  }

  ghost predicate Asked(requests: seq<Request>, key: string) {
    exists i :: 0 <= i < |requests| && Key(requests[i]) == key
  }

  /** Each object in out answers its request, and no other object of the record has lost anything
      that a later request would reuse. */
  ghost predicate Answered(
    out: seq<EndpointObject>, requests: seq<Request>, current: Objects, was: map<string, Endpoint>)
    reads out, current.Values
  {
    && was.Keys == current.Keys
    && |out| == |requests|
    && (forall i | 0 <= i < |out| :: out[i].View() == Realize(requests[i], was))
    && (forall i | 0 <= i < |out| ::
          if Key(requests[i]) in current then out[i] == current[Key(requests[i])] else out[i] !in current.Values)
    && (forall k | k in current && !Asked(requests, k) :: KeptAlike(current[k].View(), was[k]))
  }

  /** The default endpoint, created or found but not yet in the list. */
  ghost predicate IsDefault(
    dflt: EndpointObject, out: seq<EndpointObject>, r: Request, current: Objects, was: map<string, Endpoint>)
    reads dflt
  {
    && dflt.View() == CreateOrUpdate(r, Find(was, Key(r)))
    && dflt !in out
    && if Key(r) in current then dflt == current[Key(r)] else dflt !in current.Values
  }

  /** The state of the build between two calls of createOrUpdateEndpoint. */
  ghost predicate Building(
    out: seq<EndpointObject>, requests: seq<Request>, current: Objects, was: map<string, Endpoint>,
    dflt: EndpointObject?, dr: Request)
    reads out, current.Values, dflt
  {
    && Separate(current)
    && Answered(out, requests, current, was)
    && (dflt != null ==> IsDefault(dflt, out, dr, current, was))
  }

  method CreateOrUpdateEndpoint(
    dnsName: string, targets: seq<string>, recordType: string, setIdentifier: string, ttl: int, current: Objects)
    returns (e: EndpointObject)
    modifies current.Values
    ensures var r := Request(dnsName, targets, recordType, setIdentifier, ttl, None);
            e.View() == CreateOrUpdate(r, Find(old(Snapshot(current)), Key(r)))
    ensures var id := dnsName + setIdentifier; if id in current then e == current[id] else fresh(e)
    ensures forall o | o in current.Values && o != e :: o.View() == old(o.View())
  {
    var id := dnsName + setIdentifier;
    if id in current {
      e := current[id];
    } else {
      e := new EndpointObject();
      if setIdentifier != "" {
        e.setIdentifier := setIdentifier;
      }
    }
    e.dnsName := dnsName;
    e.recordType := recordType;
    e.targets := targets;
    e.ttl := ttl;
  }

  lemma AskedMore(requests: seq<Request>, r: Request, key: string)
    ensures Asked(requests + [r], key) <==> Asked(requests, key) || Key(r) == key
  {
    var more := requests + [r];
    if Asked(requests, key) {
      var i :| 0 <= i < |requests| && Key(requests[i]) == key;
      assert Key(more[i]) == key;
    }
    assert more[|requests|] == r;
  }

  /** One createOrUpdateEndpoint call followed by the SetProviderSpecific call, if there is one. */
  method Obtain(r: Request, current: Objects) returns (e: EndpointObject)
    modifies current.Values
    ensures e.View() == Realize(r, old(Snapshot(current)))
    ensures if Key(r) in current then e == current[Key(r)] else fresh(e)
    ensures forall o | o in current.Values && o != e :: o.View() == old(o.View())
  {
    e := CreateOrUpdateEndpoint(r.dnsName, r.targets, r.recordType, r.setIdentifier, r.ttl, current);
    if r.prop.Some? {
      e.SetProviderSpecific(r.prop.value.name, r.prop.value.value);
    }
  }

  lemma RealizeKept(r: Request, a: map<string, Endpoint>, b: map<string, Endpoint>)
    requires a.Keys == b.Keys && (Key(r) in a ==> KeptAlike(a[Key(r)], b[Key(r)]))
    ensures Realize(r, a) == Realize(r, b)
  {}

  method Answer(
    out: seq<EndpointObject>, r: Request, current: Objects,
    ghost requests: seq<Request>, ghost was: map<string, Endpoint>, ghost dflt: EndpointObject?, ghost dr: Request)
    returns (out': seq<EndpointObject>)
    requires Separate(current) && Answered(out, requests, current, was) && !Asked(requests, Key(r))
    requires dflt != null ==> IsDefault(dflt, out, dr, current, was) && Key(r) != Key(dr)
    modifies current.Values
    ensures Answered(out', requests + [r], current, was)
    ensures dflt != null ==> IsDefault(dflt, out', dr, current, was)
  {
    hide Asked, Realize, CreateOrUpdate, KeptAlike;
    RealizeKept(r, Snapshot(current), was);
    var e := Obtain(r, current);
    out' := out + [e];
    forall k | k in current && !Asked(requests + [r], k) ensures KeptAlike(current[k].View(), was[k]) {
      AskedMore(requests, r, k);
    }
    forall i | 0 <= i < |out| ensures out[i].View() == Realize(requests[i], was) && out[i] != e {
      AskedAt(requests, i);
    }
  }

  lemma AskedAt(requests: seq<Request>, i: nat)
    requires i < |requests|
    ensures Asked(requests, Key(requests[i]))
  {}

  method Add(
    out: seq<EndpointObject>, r: Request, current: Objects,
    ghost requests: seq<Request>, ghost was: map<string, Endpoint>, ghost dflt: EndpointObject?, ghost dr: Request)
    returns (out': seq<EndpointObject>)
    requires Building(out, requests, current, was, dflt, dr)
    requires !Asked(requests, Key(r)) && Key(r) != Key(dr)
    modifies current.Values
    ensures Building(out', requests + [r], current, was, dflt, dr)
  {
    out' := Answer(out, r, current, requests, was, dflt, dr);
  }

  /** The requests still to come do not meet the ones already answered, nor the default one. */
  ghost predicate Fresh(requests: seq<Request>, more: seq<Request>, dr: Request) {
    && (forall i, j | 0 <= i < j < |requests + more| :: Key((requests + more)[i]) != Key((requests + more)[j]))
    && (forall i | 0 <= i < |requests + more| :: Key((requests + more)[i]) != Key(dr))
  }

  lemma FreshNext(requests: seq<Request>, more: seq<Request>, dr: Request, k: nat)
    requires Fresh(requests, more, dr) && k < |more|
    ensures !Asked(requests + more[..k], Key(more[k])) && Key(more[k]) != Key(dr)
    ensures requests + more[..k + 1] == requests + more[..k] + [more[k]]
  {
    var all, done := requests + more, requests + more[..k];
    assert all[|requests| + k] == more[k];
    forall i | 0 <= i < |done| ensures Key(done[i]) != Key(more[k]) {
      assert done[i] == all[i];
    }
  }

  /** The endpoints of one cluster: an A record for its IP addresses, then a weighted CNAME for each
      of its host names, its own cluster name last. */
  method AddCluster(
    out: seq<EndpointObject>, c: ClusterTarget, geo: string, lbName: string, current: Objects,
    ghost requests: seq<Request>, ghost was: map<string, Endpoint>, ghost dflt: EndpointObject?, ghost dr: Request)
    returns (out': seq<EndpointObject>)
    requires c.geo == geo
    requires Building(out, requests, current, was, dflt, dr)
    requires Fresh(requests, ClusterRequests(c, lbName), dr)
    modifies current.Values
    ensures Building(out', requests + ClusterRequests(c, lbName), current, was, dflt, dr)
  {
    hide Building, Fresh, Values, Below, WeightedRequests, AddressRequests;
    var ipValues, hostValues := SplitAddresses(c.addresses);
    ghost var first, rest := AddressRequests(c, lbName),
      WeightedRequests(Below(geo, lbName), ClusterHosts(c, lbName), c.weight);
    FreshPrefix(requests, first, ClusterRequests(c, lbName), dr);
    FreshSplit(requests, first, rest, dr);
    out' := AddAddresses(out, c, ipValues, lbName, current, requests, was, dflt, dr);
    if |ipValues| > 0 {
      hostValues := hostValues + [Below(c.shortCode, lbName)];
    }
    assert hostValues == ClusterHosts(c, lbName);
    out' := AddHosts(out', Below(geo, lbName), hostValues, c.weight, current, requests + first, was, dflt, dr);
    assert requests + first + rest == requests + ClusterRequests(c, lbName);
  }

  method AddAddresses(
    out: seq<EndpointObject>, c: ClusterTarget, ipValues: seq<string>, lbName: string, current: Objects,
    ghost requests: seq<Request>, ghost was: map<string, Endpoint>, ghost dflt: EndpointObject?, ghost dr: Request)
    returns (out': seq<EndpointObject>)
    requires ipValues == Values(c.addresses, true)
    requires Building(out, requests, current, was, dflt, dr)
    requires Fresh(requests, AddressRequests(c, lbName), dr)
    modifies current.Values
    ensures Building(out', requests + AddressRequests(c, lbName), current, was, dflt, dr)
  {
    hide Building;
    out' := out;
    if |ipValues| > 0 {
      FreshNext(requests, AddressRequests(c, lbName), dr, 0);
      assert requests + AddressRequests(c, lbName)[..0] == requests;
      out' := Add(out', Request(Below(c.shortCode, lbName), ipValues, A, "", DEFAULT_TTL, None), current, requests, was,
        dflt, dr);
    } else {
      assert requests + AddressRequests(c, lbName) == requests;
    }
  }

  method SplitAddresses(addresses: seq<Address>) returns (ipValues: seq<string>, hostValues: seq<string>)
    ensures ipValues == Values(addresses, true) && hostValues == Values(addresses, false)
  {
    ipValues, hostValues := [], [];
    for i := 0 to |addresses|
      invariant ipValues == Values(addresses[..i], true) && hostValues == Values(addresses[..i], false)
    {
      assert addresses[..i + 1][..i] == addresses[..i];
      if addresses[i].isIp {
        ipValues := ipValues + [addresses[i].value];
      } else {
        hostValues := hostValues + [addresses[i].value];
      }
    }
    assert addresses[..|addresses|] == addresses;
  }

  method AddHosts(
    out: seq<EndpointObject>, geoLbName: string, hostValues: seq<string>, weight: int, current: Objects,
    ghost requests: seq<Request>, ghost was: map<string, Endpoint>, ghost dflt: EndpointObject?, ghost dr: Request)
    returns (out': seq<EndpointObject>)
    requires Building(out, requests, current, was, dflt, dr)
    requires Fresh(requests, WeightedRequests(geoLbName, hostValues, weight), dr)
    modifies current.Values
    ensures Building(out', requests + WeightedRequests(geoLbName, hostValues, weight), current, was, dflt, dr)
  {
    hide Building;
    out' := out;
    ghost var more := WeightedRequests(geoLbName, hostValues, weight);
    ghost var sofar := requests;
    for i := 0 to |hostValues|
      invariant sofar == requests + more[..i]
      invariant Building(out', sofar, current, was, dflt, dr)
    {
      FreshNext(requests, more, dr, i);
      var r := WeightedRequest(geoLbName, hostValues[i], weight);
      out' := Add(out', r, current, sofar, was, dflt, dr);
      sofar := sofar + [r];
    }
    assert more[..|hostValues|] == more;
  }

  lemma {:induction false} ClustersPrefix(clusters: seq<ClusterTarget>, k: nat, lb: string)
    requires k <= |clusters|
    ensures ClustersRequests(clusters[..k], lb) <= ClustersRequests(clusters, lb)
  {
    hide ClusterRequests;
    if k < |clusters| {
      var n := |clusters| - 1;
      ClustersPrefix(clusters[..n], k, lb);
      assert clusters[..n][..k] == clusters[..k];
    } else {
      assert clusters[..k] == clusters;
    }
  }

  lemma FreshPrefix(requests: seq<Request>, more: seq<Request>, all: seq<Request>, dr: Request)
    requires Fresh(requests, all, dr) && more <= all
    ensures Fresh(requests, more, dr)
  {
    assert forall i | 0 <= i < |requests + more| :: (requests + more)[i] == (requests + all)[i];
  }

  lemma FreshSplit(requests: seq<Request>, a: seq<Request>, b: seq<Request>, dr: Request)
    requires Fresh(requests, a + b, dr)
    ensures Fresh(requests + a, b, dr)
  {
    assert requests + (a + b) == requests + a + b;
  }

  lemma FreshCluster(requests: seq<Request>, clusters: seq<ClusterTarget>, lb: string, dr: Request, i: nat)
    requires Fresh(requests, ClustersRequests(clusters, lb), dr) && i < |clusters|
    ensures ClustersRequests(clusters[..i + 1], lb) ==
            ClustersRequests(clusters[..i], lb) + ClusterRequests(clusters[i], lb)
    ensures Fresh(requests + ClustersRequests(clusters[..i], lb), ClusterRequests(clusters[i], lb), dr)
  {
    assert clusters[..i + 1][..i] == clusters[..i];
    ClustersPrefix(clusters, i + 1, lb);
    FreshPrefix(requests, ClustersRequests(clusters[..i + 1], lb), ClustersRequests(clusters, lb), dr);
    FreshSplit(requests, ClustersRequests(clusters[..i], lb), ClusterRequests(clusters[i], lb), dr);
  }

  lemma InGeoAt(clusters: seq<ClusterTarget>, geo: string, i: nat)
    requires i < |clusters| && exists all :: clusters == InGeo(all, geo)
    ensures clusters[i].geo == geo
  {
    var all :| clusters == InGeo(all, geo);
    InGeoMembers(all, geo, clusters[i]);
  }

  /** The endpoints of all clusters of one geo. */
  method AddClusters(
    out: seq<EndpointObject>, clusters: seq<ClusterTarget>, geo: string, lbName: string, current: Objects,
    ghost requests: seq<Request>, ghost was: map<string, Endpoint>, ghost dflt: EndpointObject?, ghost dr: Request)
    returns (out': seq<EndpointObject>)
    requires exists all :: clusters == InGeo(all, geo)
    requires Building(out, requests, current, was, dflt, dr)
    requires Fresh(requests, ClustersRequests(clusters, lbName), dr)
    modifies current.Values
    ensures Building(out', requests + ClustersRequests(clusters, lbName), current, was, dflt, dr)
  {
    hide Building, ClusterRequests;
    out' := out;
    ghost var sofar := requests;
    for i := 0 to |clusters|
      invariant sofar == requests + ClustersRequests(clusters[..i], lbName)
      invariant Building(out', sofar, current, was, dflt, dr)
    {
      var c := clusters[i];
      InGeoAt(clusters, geo, i);
      FreshCluster(requests, clusters, lbName, dr, i);
      out' := AddCluster(out', c, geo, lbName, current, sofar, was, dflt, dr);
      sofar := sofar + ClusterRequests(c, lbName);
      assert sofar == requests + ClustersRequests(clusters[..i + 1], lbName);
    }
    assert clusters[..|clusters|] == clusters;
  }

  lemma {:induction false} BodyPrefix(t: GatewayTarget, lb: string, order: seq<string>, n: nat)
    requires n <= |order|
    ensures Body(t, lb, order[..n]) <= Body(t, lb, order)
    decreases |order|
  {
    if n < |order| {
      hide Body;
      var front := order[..|order| - 1];
      BodyPrefix(t, lb, front, n);
      assert front[..n] == order[..n];
      BodyLast(t, lb, order);
    } else {
      assert order[..n] == order;
    }
  }

  lemma BodyLast(t: GatewayTarget, lb: string, order: seq<string>)
    requires order != []
    ensures Body(t, lb, order[..|order| - 1]) <= Body(t, lb, order)
  {
    hide GeoBody, DefaultOf;
  }

  lemma LengthOf(
    out: seq<EndpointObject>, requests: seq<Request>, current: Objects, was: map<string, Endpoint>,
    dflt: EndpointObject?, dr: Request)
    requires Building(out, requests, current, was, dflt, dr)
    ensures |out| == |requests|
  {
  }

  lemma RequestsShape(t: GatewayTarget, host: string, order: seq<string>)
    ensures var lb, all := LbName(t, host), Requests(t, host, order);
            var body := Body(t, lb, order);
            if body == [] then all == []
            else
              DefaultOf(t, lb, order).Some? &&
              all == body + [WildcardRequest(lb, DefaultOf(t, lb, order).value)] + [HostRequest(host, lb)]
  {
    hide Body, DefaultOf;
  }

  lemma DefaultKey(t: GatewayTarget, host: string, order: seq<string>)
    requires Body(t, LbName(t, host), order) != []
    ensures var body, all := Body(t, LbName(t, host), order), Requests(t, host, order);
            body <= all && |body| < |all| && Key(all[|body|]) == LbName(t, host) + DEFAULT
  {
    hide Body, DefaultOf, LbName, Requests;
    RequestsShape(t, host, order);
  }

  /** Distinct ids over the whole list give each geo the room it needs. */
  lemma FreshGeo(t: GatewayTarget, host: string, order: seq<string>, n: nat, dr: Request)
    requires n < |order| && DistinctKeys(Requests(t, host, order), Key)
    requires Key(dr) == LbName(t, host) + DEFAULT
    ensures var lb := LbName(t, host);
            && Body(t, lb, order[..n + 1]) == Body(t, lb, order[..n]) + GeoBody(t, lb, order[n])
            && Fresh(Body(t, lb, order[..n]), GeoBody(t, lb, order[n]), dr)
            && !Asked(Body(t, lb, order[..n + 1]), Key(dr))
  {
    hide Requests, GeoBody, DefaultOf, Fresh, Asked, DistinctKeys, LbName, Key;
    var lb := LbName(t, host);
    var body := Body(t, lb, order);
    assert order[..n + 1][..n] == order[..n];
    BodyPrefix(t, lb, order, n + 1);
    if body != [] {
      DefaultKey(t, host, order);
    }
    FreshPart(Requests(t, host, order), |body|, Body(t, lb, order[..n]), GeoBody(t, lb, order[n]), dr);
  }

  lemma FreshPart(all: seq<Request>, m: nat, a: seq<Request>, b: seq<Request>, dr: Request)
    requires DistinctKeys(all, Key) && |a + b| <= m
    requires a + b != [] ==> a + b <= all && m < |all| && Key(all[m]) == Key(dr)
    ensures Fresh(a, b, dr) && !Asked(a + b, Key(dr))
  {
    assert forall i | 0 <= i < |a + b| :: (a + b)[i] == all[i];
  }

  /** Creating, or pointing elsewhere, the default endpoint. */
  method MakeDefault(
    out: seq<EndpointObject>, geo: string, lbName: string, current: Objects,
    ghost requests: seq<Request>, ghost was: map<string, Endpoint>, ghost dflt: EndpointObject?, ghost dr: Request)
    returns (dflt': EndpointObject)
    requires Building(out, requests, current, was, dflt, dr)
    requires Key(dr) == lbName + DEFAULT && !Asked(requests, Key(dr))
    modifies current.Values
    ensures Building(out, requests, current, was, dflt', DefaultRequest(lbName, geo))
    ensures dflt' in current.Values || fresh(dflt')
  {
    hide Asked, Realize;
    ghost var r := DefaultRequest(lbName, geo);
    dflt' := CreateOrUpdateEndpoint(lbName, [Below(geo, lbName)], CNAME, DEFAULT, DEFAULT_CNAME_TTL, current);
    forall i | 0 <= i < |out| ensures out[i].View() == old(out[i].View()) && out[i] != dflt' {
      AskedAt(requests, i);
    }
  }

  /** The default endpoint becomes the wildcard and joins the list. */
  method AddDefault(
    out: seq<EndpointObject>, dflt: EndpointObject, current: Objects,
    ghost requests: seq<Request>, ghost was: map<string, Endpoint>, ghost dr: Request)
    returns (out': seq<EndpointObject>)
    requires Building(out, requests, current, was, dflt, dr) && !Asked(requests, Key(dr)) && dr.prop.None?
    modifies dflt
    ensures Building(out', requests + [dr.(prop := Some(Property(GEO_CODE, WILDCARD)))], current, was, null, dr)
  {
    hide Asked, CreateOrUpdate;
    ghost var r := dr.(prop := Some(Property(GEO_CODE, WILDCARD)));
    assert CreateOrUpdate(r, Find(was, Key(r))) ==
      CreateOrUpdate(dr, Find(was, Key(dr))) by { SameCreate(dr, r, Find(was, Key(r))); }
    dflt.SetProviderSpecific(GEO_CODE, WILDCARD);
    out' := out + [dflt];
    forall k | k in current && !Asked(requests + [r], k) ensures KeptAlike(current[k].View(), was[k]) {
      AskedMore(requests, r, k);
    }
    forall i | 0 <= i < |out| ensures out[i].View() == Realize(requests[i], was) && out[i] != dflt {
      AskedAt(requests, i);
    }
  }

  lemma SameCreate(a: Request, b: Request, found: Option<Endpoint>)
    requires b == a.(prop := b.prop)
    ensures CreateOrUpdate(a, found) == CreateOrUpdate(b, found)
  {}

  /** One geo: its clusters, then the lb endpoint for the geo, then the default endpoint if this geo
      is to be, or for want of another has to be, the default. */
  method AddGeo(
    out: seq<EndpointObject>, t: GatewayTarget, clusters: seq<ClusterTarget>, geo: string, lbName: string,
      current: Objects,
    defaultEndpoint: EndpointObject?, ghost requests: seq<Request>, ghost was: map<string, Endpoint>, ghost dr: Request)
    returns (out': seq<EndpointObject>, default': EndpointObject?, ghost dr': Request)
    requires clusters == InGeo(t.clusters, geo)
    requires Building(out, requests, current, was, defaultEndpoint, dr)
    requires Key(dr) == lbName + DEFAULT && Fresh(requests, GeoBody(t, lbName, geo), dr)
    requires !Asked(requests + GeoBody(t, lbName, geo), Key(dr))
    modifies current.Values
    ensures Building(out', requests + GeoBody(t, lbName, geo), current, was, default', dr')
    ensures Key(dr') == lbName + DEFAULT
    ensures if !HasAddress(t, lbName, geo) then default' == defaultEndpoint && dr' == dr
            else if geo == DEFAULT || geo == t.defaultGeo || defaultEndpoint == null
            then default' != null && dr' == DefaultRequest(lbName, geo) &&
              (default' in current.Values || fresh(default'))
            else default' == defaultEndpoint && dr' == dr
  {
    hide Building, ClustersRequests, Fresh, Asked;
    ghost var cr, gb := ClustersRequests(clusters, lbName), GeoBody(t, lbName, geo);
    default', dr' := defaultEndpoint, dr;
    FreshPrefix(requests, cr, gb, dr);
    LengthOf(out, requests, current, was, defaultEndpoint, dr);
    out' := AddClusters(out, clusters, geo, lbName, current, requests, was, defaultEndpoint, dr);
    LengthOf(out', requests + cr, current, was, defaultEndpoint, dr);
    if |out'| == |out| {
      assert requests + gb == requests + cr;
      return;
    }
    if geo != DEFAULT {
      FreshNext(requests, gb, dr, |cr|);
      assert gb[..|cr|] == cr && gb[..|cr| + 1] == gb;
      out' := Add(out', GeoRequest(lbName, geo), current, requests + cr, was, defaultEndpoint, dr);
    } else {
      assert requests + gb == requests + cr;
    }
    if geo == DEFAULT || geo == t.defaultGeo || defaultEndpoint == null {
      default' := MakeDefault(out', geo, lbName, current, requests + gb, was, defaultEndpoint, dr);
      dr' := DefaultRequest(lbName, geo);
    }
  }

  lemma DefaultStep(t: GatewayTarget, lb: string, order: seq<string>, n: nat)
    requires n < |order|
    ensures var before, geo := DefaultOf(t, lb, order[..n]), order[n];
            DefaultOf(t, lb, order[..n + 1]) ==
            if !HasAddress(t, lb, geo) then before
            else if geo == DEFAULT || geo == t.defaultGeo || before.None? then Some(geo)
            else before
  {
    hide HasAddress;
    assert order[..n + 1][..n] == order[..n];
  }

  ghost const NO_REQUEST := Request("", [], "", "", 0, None)

  lemma StartBuilding(current: Objects, dr: Request)
    requires Separate(current)
    ensures Building([], [], current, Snapshot(current), null, dr)
  {}

  lemma DropDefault(
    out: seq<EndpointObject>, requests: seq<Request>, current: Objects, was: map<string, Endpoint>,
    dflt: EndpointObject?, dr: Request)
    requires Building(out, requests, current, was, dflt, dr)
    ensures Building(out, requests, current, was, null, NO_REQUEST)
  {
  }

  lemma NoneVisited(t: GatewayTarget, lb: string, order: seq<string>)
    requires order == []
    ensures Body(t, lb, order) == [] && DefaultOf(t, lb, order).None?
  {}

  lemma GeoVisited(t: GatewayTarget, order: seq<string>, n: nat)
    requires IsOrder(t, order) && n < |order|
    ensures HasGeo(t, order[n])
  {}

  lemma LastFresh(t: GatewayTarget, host: string, order: seq<string>, dr: Request)
    requires Key(dr) == LbName(t, host) + DEFAULT && DistinctKeys(Requests(t, host, order), Key)
    requires Body(t, LbName(t, host), order) != []
    ensures var lb := LbName(t, host);
            var body := Body(t, lb, order);
            && DefaultOf(t, lb, order).Some?
            && !Asked(body, Key(dr)) && Key(HostRequest(host, lb)) != Key(dr)
            && !Asked(body + [WildcardRequest(lb, DefaultOf(t, lb, order).value)], Key(HostRequest(host, lb)))
  {
    hide Requests, Body, DefaultOf, LbName;
    RequestsShape(t, host, order);
    var lb := LbName(t, host);
    var body, all := Body(t, lb, order), Requests(t, host, order);
    var w := WildcardRequest(lb, DefaultOf(t, lb, order).value);
    assert all[|body|] == w && all[|body| + 1] == HostRequest(host, lb);
    assert forall i | 0 <= i < |body| :: body[i] == all[i];
    assert forall i | 0 <= i < |body| + 1 :: (body + [w])[i] == all[i];
    assert Key(w) == Key(dr);
  }

  /** The build loop over the geo map, visited in the given order: objects found under a request's
      id are updated in place, others are new, and together they answer the requests. */
  method BuildEndpoints(
    t: GatewayTarget, host: string, order: seq<string>, current: Objects) returns (out: seq<EndpointObject>)
    requires Separate(current) && IsOrder(t, order) && DistinctKeys(Requests(t, host, order), Key)
    modifies current.Values
    ensures Building(out, Requests(t, host, order), current, old(Snapshot(current)), null, NO_REQUEST)
  {
    hide Building, Requests, Body, GeoBody, HasAddress, DefaultOf, DistinctKeys, Fresh, Asked, Snapshot, LbName,
      IsOrder;
    ghost var was := Snapshot(current);
    var lbName := LbName(t, host);
    var groups := GroupTargetsByGeo(t.clusters);
    out := [];
    var defaultEndpoint: EndpointObject? := null;
    ghost var dr := DefaultRequest(lbName, DEFAULT);
    StartBuilding(current, dr);
    NoneVisited(t, lbName, order[..0]);
    for n := 0 to |order|
      invariant Building(out, Body(t, lbName, order[..n]), current, was, defaultEndpoint, dr)
      invariant Key(dr) == lbName + DEFAULT && dr.prop.None?
      invariant defaultEndpoint == null <==> DefaultOf(t, lbName, order[..n]).None?
      invariant defaultEndpoint != null ==>
          dr == DefaultRequest(lbName, DefaultOf(t, lbName, order[..n]).value) &&
          (defaultEndpoint in current.Values || fresh(defaultEndpoint))
    {
      var geo := order[n];
      GeoVisited(t, order, n);
      FreshGeo(t, host, order, n, dr);
      DefaultStep(t, lbName, order, n);
      out, defaultEndpoint, dr :=
        AddGeo(out, t, groups[geo], geo, lbName, current, defaultEndpoint, Body(t, lbName, order[..n]), was, dr);
    }
    assert order[..|order|] == order;
    LengthOf(out, Body(t, lbName, order), current, was, defaultEndpoint, dr);
    RequestsShape(t, host, order);
    if |out| > 0 {
      LastFresh(t, host, order, dr);
      out := AddDefault(out, defaultEndpoint, current, Body(t, lbName, order), was, dr);
      out := Add(out, HostRequest(host, lbName), current,
        Body(t, lbName, order) + [WildcardRequest(lbName, DefaultOf(t, lbName, order).value)], was, null, dr);
      DropDefault(out, Requests(t, host, order), current, was, null, dr);
    } else {
      DropDefault(out, Requests(t, host, order), current, was, defaultEndpoint, dr);
    }
  }

  // ----- the whole call -----

  class DnsRecord {
    var endpoints: seq<Endpoint>

    constructor ()
      ensures endpoints == []
    {
      endpoints := [];
    }
  }

  datatype Outcome = ProbesUnavailable | Unchanged | Updated

  /** The objects of the record's endpoints, by SetID. */
  method Load(l: seq<Endpoint>) returns (current: Objects)
    ensures Separate(current) && Snapshot(current) == ById(l)
    ensures forall k | k in current :: fresh(current[k])
  {
    current := map[];
    for i := 0 to |l|
      invariant Separate(current) && current.Keys == ById(l[..i]).Keys
      invariant forall k | k in current :: fresh(current[k]) && current[k].View() == ById(l[..i])[k]
    {
      var e := new EndpointObject.From(l[i]);
      assert l[..i + 1][..i] == l[..i];
      current := current[l[i].SetId() := e];
    }
    assert l[..|l|] == l;
  }

  method Views(
    out: seq<EndpointObject>, ghost requests: seq<Request>, ghost current: Objects, ghost was: map<string, Endpoint>)
    returns (views: seq<Endpoint>)
    requires Building(out, requests, current, was, null, NO_REQUEST)
    ensures views == Map(Realizer(was), requests)
  {
    views := [];
    for i := 0 to |out|
      invariant |views| == i && forall k | 0 <= k < i :: views[k] == Realize(requests[k], was)
    {
      views := views + [out[i].View()];
    }
  }

  /** setEndpoints: the record ends up with what one run publishes, and is written back only if that
      differs from what it had. Without the probe list nothing is written. */
  method SetEndpoints(
    record: DnsRecord, t: GatewayTarget, host: string, order: seq<string>,
    probes: Option<seq<Probe>>, gateway: string, listener: string, looksLikeIp: string -> bool)
    returns (outcome: Outcome)
    requires IsOrder(t, order) && DistinctKeys(Requests(t, host, order), Key)
    modifies record
    ensures probes.None? ==> outcome == ProbesUnavailable && record.endpoints == old(record.endpoints)
    ensures probes.Some? ==>
      && record.endpoints ==
        Run(Requests(t, host, order), old(record.endpoints), Health(probes.value, gateway, listener), looksLikeIp)
      && outcome == if record.endpoints == old(record.endpoints) then Unchanged else Updated
  {
    hide Requests, DistinctKeys, IsOrder, Building, Snapshot, ById, SortBy, Map;
    var current := Load(record.endpoints);
    var objects := BuildEndpoints(t, host, order, current);
    var views := Views(objects, Requests(t, host, order), current, ById(record.endpoints));
    var newEndpoints := SortBy(views, SetIdOf);
    if probes.None? {
      return ProbesUnavailable;
    }
    var storeEndpoints := newEndpoints;
    var kept, removed := RemoveUnhealthy(newEndpoints, probes.value, gateway, listener);
    ghost var passes;
    kept, passes := PruneChildless(kept, removed, looksLikeIp);
    var published := if |kept| == 0 then storeEndpoints else kept;
    outcome := if published == record.endpoints then Unchanged else Updated;
    record.endpoints := published;
  }
}

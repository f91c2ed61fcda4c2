/** When the ids of the endpoints that setEndpoints asks for are distinct: an id is a DNS name with the
    set identifier put after it (pkg/apis/v1alpha1/dnsrecord_types.go:26-28,
    pkg/controllers/dnspolicy/dns_helper.go:345-349), so what tells ids apart is the first label. */
module Ids {
  import opened Strings
  import opened Sorting
  import opened Build
  import opened Chain

  ghost predicate DotFree(s: string) {
    '.' !in s
  }

  function LbLabel(t: GatewayTarget): string {
    "lb-" + t.shortCode
  }

  ghost predicate IsLabel(t: GatewayTarget, s: string) {
    DotFree(s) && ToLower(s) != ToLower(LbLabel(t))
  }

  /** Different clusters: in the same geo they do not report the same host name either. */
  ghost predicate Apart(c: ClusterTarget, d: ClusterTarget) {
    && ToLower(c.shortCode) != ToLower(d.shortCode)
    && (c.geo == d.geo ==> forall v | v in Values(c.addresses, false) :: v !in Values(d.addresses, false))
  }

  ghost predicate AllApart(clusters: seq<ClusterTarget>) {
    forall i, j | 0 <= i < j < |clusters| :: Apart(clusters[i], clusters[j])
  }

  /** Short codes and geo labels are labels, without dots, and all distinct; no cluster reports a host
      name twice or one that this gateway publishes. */
  ghost predicate DistinctParts(t: GatewayTarget, host: string) {
    && DotFree(t.shortCode) && DistinctLabels(t) && DistinctGeos(t) && ForeignAddresses(t, host) && AllApart(t.clusters)
    && forall c | c in t.clusters ::
        IsLabel(t, c.shortCode) && IsLabel(t, c.geo) && NoRepeats(Values(c.addresses, false))
  }

  // ----- names tell apart by their first label -----

  lemma ShorterLabel(x: string, a: string, y: string, b: string)
    requires DotFree(y) && |x| < |y|
    ensures x + "." + a != y + "." + b
  {
    assert (x + "." + a)[|x|] == '.' && (y + "." + b)[|x|] == y[|x|];
  }

  lemma FirstLabel(x: string, a: string, y: string, b: string)
    requires DotFree(x) && DotFree(y) && x != y
    ensures x + "." + a != y + "." + b
  {
    if |x| < |y| {
      ShorterLabel(x, a, y, b);
    } else if |y| < |x| {
      ShorterLabel(y, b, x, a);
    } else {
      assert x == (x + "." + a)[..|x|] && y == (y + "." + b)[..|x|];
    }
  }

  lemma LowerDotFree(s: string)
    requires DotFree(s)
    ensures DotFree(ToLower(s))
  {
    assert forall i | 0 <= i < |s| :: LowerChar(s[i]) != '.';
  }

  lemma BelowIs(code: string, lb: string)
    ensures Below(code, lb) == ToLower(code) + "." + ToLower(lb)
  {
    ToLowerConcat(code, "." + lb);
    ToLowerConcat(".", lb);
    assert code + "." + lb == code + ("." + lb);
    assert ToLower(".") == ".";
  }

  lemma LbIs(t: GatewayTarget, host: string)
    ensures LbName(t, host) == ToLower(LbLabel(t)) + "." + ToLower(CnameHost(host))
  {
    ToLowerConcat(LbLabel(t), "." + CnameHost(host));
    ToLowerConcat(".", CnameHost(host));
    assert "lb-" + t.shortCode + "." + CnameHost(host) == LbLabel(t) + ("." + CnameHost(host));
    assert ToLower(".") == ".";
  }

  lemma LbLabelDotFree(t: GatewayTarget)
    requires DotFree(t.shortCode)
    ensures DotFree(LbLabel(t))
  {}

  /** Ids below the lb name under different labels differ. */
  lemma BelowApartIds(a: string, b: string, lb: string, x: string, y: string)
    requires DotFree(a) && DotFree(b) && ToLower(a) != ToLower(b)
    ensures Below(a, lb) + x != Below(b, lb) + y
  {
    hide ToLower, Below;
    BelowIs(a, lb);
    BelowIs(b, lb);
    LowerDotFree(a);
    LowerDotFree(b);
    Reassociate(ToLower(a), ToLower(lb), x);
    Reassociate(ToLower(b), ToLower(lb), y);
    FirstLabel(ToLower(a), ToLower(lb) + x, ToLower(b), ToLower(lb) + y);
  }

  lemma Reassociate(a: string, b: string, c: string)
    ensures a + "." + b + c == a + "." + (b + c)
  {}

  /** Ids below the lb name differ from those of the lb name. */
  lemma BelowApartLb(t: GatewayTarget, host: string, a: string, x: string, y: string)
    requires DotFree(t.shortCode) && IsLabel(t, a)
    ensures Below(a, LbName(t, host)) + x != LbName(t, host) + y
  {
    hide ToLower, Below, LbName, CnameHost, LbLabel;
    var lb, rest := LbName(t, host), ToLower(CnameHost(host));
    BelowIs(a, lb);
    LbIs(t, host);
    LbLabelDotFree(t);
    LowerDotFree(a);
    LowerDotFree(LbLabel(t));
    Reassociate(ToLower(a), ToLower(lb), x);
    Reassociate(ToLower(LbLabel(t)), rest, y);
    FirstLabel(ToLower(a), ToLower(lb) + x, ToLower(LbLabel(t)), rest + y);
  }

  lemma SameStart(a: string, x: string, y: string)
    ensures a + x == a + y <==> x == y
  {
    assert x == (a + x)[|a|..] && y == (a + y)[|a|..];
  }

  // ----- the requests of one cluster and of two -----

  lemma DistinctConcat(a: seq<Request>, b: seq<Request>)
    requires DistinctKeys(a, Key) && DistinctKeys(b, Key)
    requires forall r, q | r in a && q in b :: Key(r) != Key(q)
    ensures DistinctKeys(a + b, Key)
  {
    var s := a + b;
    forall i, j | 0 <= i < j < |s| ensures Key(s[i]) != Key(s[j]) {
      assert i < |a| ==> s[i] == a[i] && a[i] in a;
      assert j >= |a| ==> s[j] == b[j - |a|] && b[j - |a|] in b;
    }
  }

  /** r is the A record or a weighted CNAME of this cluster. */
  ghost predicate IsAddress(lb: string, c: ClusterTarget, r: Request) {
    r == AddressRequest(c, lb)
  }

  ghost predicate IsHost(lb: string, c: ClusterTarget, r: Request) {
    exists v | v in ClusterHosts(c, lb) :: r == WeightedRequest(Below(c.geo, lb), v, c.weight)
  }

  lemma ClusterKinds(lb: string, c: ClusterTarget, r: Request)
    requires r in ClusterRequests(c, lb)
    ensures IsAddress(lb, c, r) || IsHost(lb, c, r)
  {
    hide Below, ClusterHosts;
    if r !in AddressRequests(c, lb) {
      var hosts := ClusterHosts(c, lb);
      assert r in WeightedRequests(Below(c.geo, lb), hosts, c.weight);
      var i :| 0 <= i < |hosts| && r == WeightedRequest(Below(c.geo, lb), hosts[i], c.weight);
    }
  }

  lemma HostsOf(t: GatewayTarget, host: string, c: ClusterTarget, d: ClusterTarget, v: string)
    requires DistinctParts(t, host) && c in t.clusters && d in t.clusters && v in Values(c.addresses, false)
    ensures v != Below(d.shortCode, LbName(t, host))
  {
    ValuesMembers(c.addresses, false, v);
    assert IsClusterName(t, host, Below(d.shortCode, LbName(t, host)));
  }

  /** Clusters of one geo have no host name in common. */
  lemma HostsApart(t: GatewayTarget, host: string, c: ClusterTarget, d: ClusterTarget, v: string)
    requires DistinctParts(t, host) && c in t.clusters && d in t.clusters && c.geo == d.geo && Apart(c, d)
    requires v in ClusterHosts(c, LbName(t, host))
    ensures v !in ClusterHosts(d, LbName(t, host))
  {
    hide DistinctParts, Below, LbName;
    var lb := LbName(t, host);
    BelowInjective(c.shortCode, d.shortCode, lb);
    if v in Values(c.addresses, false) {
      HostsOf(t, host, c, d, v);
    } else if v in Values(d.addresses, false) {
      HostsOf(t, host, d, c, v);
    }
  }

  lemma ClustersApart(t: GatewayTarget, host: string, c: ClusterTarget, d: ClusterTarget, r: Request, q: Request)
    requires DistinctParts(t, host) && c in t.clusters && d in t.clusters && Apart(c, d)
    requires var lb := LbName(t, host); r in ClusterRequests(c, lb) && q in ClusterRequests(d, lb)
    ensures Key(r) != Key(q)
  {
    hide Below, LbName, ToLower, ClusterHosts, ClusterRequests, Apart;
    var lb := LbName(t, host);
    ClusterKinds(lb, c, r);
    ClusterKinds(lb, d, q);
    CodesApart(t, host, c, d);
    if IsAddress(lb, c, r) {
      if IsAddress(lb, d, q) {
        BelowApartIds(c.shortCode, d.shortCode, lb, r.setIdentifier, q.setIdentifier);
      } else {
        BelowApartIds(c.shortCode, d.geo, lb, r.setIdentifier, q.setIdentifier);
      }
    } else if IsAddress(lb, d, q) {
      BelowApartIds(c.geo, d.shortCode, lb, r.setIdentifier, q.setIdentifier);
    } else if c.geo != d.geo {
      BelowApartIds(c.geo, d.geo, lb, r.setIdentifier, q.setIdentifier);
    } else {
      HostIdsApart(t, host, c, d, r, q);
    }
  }

  lemma CodesApart(t: GatewayTarget, host: string, c: ClusterTarget, d: ClusterTarget)
    requires DistinctParts(t, host) && c in t.clusters && d in t.clusters && Apart(c, d)
    ensures DotFree(c.shortCode) && DotFree(d.shortCode) && DotFree(c.geo) && DotFree(d.geo)
    ensures ToLower(c.shortCode) != ToLower(d.shortCode) && ToLower(c.shortCode) != ToLower(d.geo) &&
            ToLower(c.geo) != ToLower(d.shortCode)
    ensures c.geo != d.geo ==> ToLower(c.geo) != ToLower(d.geo)
  {
    hide ToLower;
    assert HasGeo(t, c.geo) && HasGeo(t, d.geo);
  }

  lemma HostIdsApart(t: GatewayTarget, host: string, c: ClusterTarget, d: ClusterTarget, r: Request, q: Request)
    requires DistinctParts(t, host) && c in t.clusters && d in t.clusters && Apart(c, d) && c.geo == d.geo
    requires var lb := LbName(t, host); IsHost(lb, c, r) && IsHost(lb, d, q)
    ensures Key(r) != Key(q)
  {
    hide Below, LbName, ClusterHosts, Apart, DistinctParts;
    SameStart(Below(c.geo, LbName(t, host)), r.setIdentifier, q.setIdentifier);
    HostsApart(t, host, c, d, r.setIdentifier);
  }

  lemma OneClusterApart(t: GatewayTarget, host: string, c: ClusterTarget)
    requires DistinctParts(t, host) && c in t.clusters
    ensures DistinctKeys(ClusterRequests(c, LbName(t, host)), Key)
  {
    hide LbName, Below, ToLower;
    var lb := LbName(t, host);
    var hosts, weighted := ClusterHosts(c, lb), WeightedRequests(Below(c.geo, lb), ClusterHosts(c, lb), c.weight);
    OwnHostsApart(t, host, c);
    forall i, j | 0 <= i < j < |weighted| ensures Key(weighted[i]) != Key(weighted[j]) {
      SameStart(Below(c.geo, lb), hosts[i], hosts[j]);
    }
    forall r, q | r in AddressRequests(c, lb) && q in weighted ensures Key(r) != Key(q) {
      BelowApartIds(c.shortCode, c.geo, lb, r.setIdentifier, q.setIdentifier);
    }
    DistinctConcat(AddressRequests(c, lb), weighted);
  }

  lemma OwnHostsApart(t: GatewayTarget, host: string, c: ClusterTarget)
    requires DistinctParts(t, host) && c in t.clusters
    ensures NoRepeats(ClusterHosts(c, LbName(t, host)))
  {
    hide LbName, Below;
    var values := Values(c.addresses, false);
    forall i | 0 <= i < |values| ensures values[i] != Below(c.shortCode, LbName(t, host)) {
      HostsOf(t, host, c, c, values[i]);
    }
  }

  // ----- the requests of one geo -----

  lemma {:induction false} InGeoApart(clusters: seq<ClusterTarget>, geo: string)
    requires AllApart(clusters)
    ensures AllApart(InGeo(clusters, geo))
  {
    if clusters != [] {
      hide Apart;
      var n := |clusters| - 1;
      var front := InGeo(clusters[..n], geo);
      InGeoApart(clusters[..n], geo);
      forall i | 0 <= i < |front| ensures Apart(front[i], clusters[n]) {
        InGeoMembers(clusters[..n], geo, front[i]);
        var j :| 0 <= j < n && clusters[..n][j] == front[i];
        assert clusters[j] == front[i];
      }
    }
  }

  lemma {:induction false} AllClustersApart(t: GatewayTarget, host: string, clusters: seq<ClusterTarget>)
    requires DistinctParts(t, host) && AllApart(clusters) && forall c | c in clusters :: c in t.clusters
    ensures DistinctKeys(ClustersRequests(clusters, LbName(t, host)), Key)
    decreases |clusters|
  {
    if clusters != [] {
      hide DistinctParts, LbName, ClusterRequests, Apart, DistinctKeys, Key;
      var n, lb := |clusters| - 1, LbName(t, host);
      AllClustersApart(t, host, clusters[..n]);
      OneClusterApart(t, host, clusters[n]);
      forall r, q | r in ClustersRequests(clusters[..n], lb) &&
        q in ClusterRequests(clusters[n], lb) ensures Key(r) != Key(q) {
        var i := SomeCluster(clusters[..n], lb, r);
        assert clusters[..n][i] == clusters[i];
        ClustersApart(t, host, clusters[i], clusters[n], r, q);
      }
      DistinctConcat(ClustersRequests(clusters[..n], lb), ClusterRequests(clusters[n], lb));
    } else {
      assert DistinctKeys(ClustersRequests(clusters, LbName(t, host)), Key);
    }
  }

  lemma {:induction false} SomeCluster(clusters: seq<ClusterTarget>, lb: string, r: Request) returns (i: nat)
    requires r in ClustersRequests(clusters, lb)
    ensures i < |clusters| && r in ClusterRequests(clusters[i], lb)
    decreases |clusters|
  {
    hide ClusterRequests;
    var n := |clusters| - 1;
    if r in ClusterRequests(clusters[n], lb) {
      i := n;
    } else {
      i := SomeCluster(clusters[..n], lb, r);
    }
  }

  /** The first label of a cluster's ids is none of the lb name's. */
  lemma ClusterApartLb(t: GatewayTarget, host: string, c: ClusterTarget, r: Request, id: string)
    requires DistinctParts(t, host) && c in t.clusters && r in ClusterRequests(c, LbName(t, host))
    ensures Key(r) != LbName(t, host) + id
  {
    hide Below, LbName, ToLower, ClusterHosts, ClusterRequests;
    ClusterKinds(LbName(t, host), c, r);
    if IsAddress(LbName(t, host), c, r) {
      BelowApartLb(t, host, c.shortCode, r.setIdentifier, id);
    } else {
      BelowApartLb(t, host, c.geo, r.setIdentifier, id);
    }
  }

  lemma OneGeoApart(t: GatewayTarget, host: string, geo: string)
    requires DistinctParts(t, host)
    ensures DistinctKeys(GeoBody(t, LbName(t, host), geo), Key)
  {
    hide LbName, ClustersRequests, ClusterRequests, Apart, Below, ToLower, IsLabel, DistinctLabels, DistinctGeos,
      ForeignAddresses, NoRepeats;
    var lb, inGeo := LbName(t, host), InGeo(t.clusters, geo);
    InGeoApart(t.clusters, geo);
    forall c ensures c in inGeo ==> c in t.clusters {
      InGeoMembers(t.clusters, geo, c);
    }
    AllClustersApart(t, host, inGeo);
    var requests := ClustersRequests(inGeo, lb);
    forall r | r in requests ensures Key(r) != Key(GeoRequest(lb, geo)) {
      var i := SomeCluster(inGeo, lb, r);
      ClusterApartLb(t, host, inGeo[i], r, geo);
    }
    DistinctConcat(requests, [GeoRequest(lb, geo)]);
    assert requests + [] == requests;
  }

  // ----- the requests of all geos -----

  /** r is for a cluster of this geo, or for the geo. */
  ghost predicate OfGeo(t: GatewayTarget, lb: string, geo: string, r: Request) {
    || (geo != DEFAULT && r == GeoRequest(lb, geo))
    || exists c | c in t.clusters :: c.geo == geo && r in ClusterRequests(c, lb)
  }

  lemma GeoBodyOf(t: GatewayTarget, lb: string, geo: string, r: Request)
    requires r in GeoBody(t, lb, geo)
    ensures OfGeo(t, lb, geo, r)
  {
    hide ClustersRequests, ClusterRequests;
    var inGeo := InGeo(t.clusters, geo);
    if r in ClustersRequests(inGeo, lb) {
      var i := SomeCluster(inGeo, lb, r);
      InGeoMembers(t.clusters, geo, inGeo[i]);
    }
  }

  lemma {:induction false} BodyOf(t: GatewayTarget, lb: string, order: seq<string>, r: Request) returns (geo: string)
    requires r in Body(t, lb, order)
    ensures geo in order && OfGeo(t, lb, geo, r)
    decreases |order|
  {
    hide GeoBody, OfGeo;
    var n := |order| - 1;
    if r in GeoBody(t, lb, order[n]) {
      geo := order[n];
      GeoBodyOf(t, lb, geo, r);
    } else {
      geo := BodyOf(t, lb, order[..n], r);
    }
  }

  lemma ClusterOtherGeo(t: GatewayTarget, host: string, c: ClusterTarget, d: ClusterTarget)
    requires DistinctParts(t, host) && c in t.clusters && d in t.clusters && c.geo != d.geo
    ensures Apart(c, d)
  {
    hide Apart;
    var i :| 0 <= i < |t.clusters| && t.clusters[i] == c;
    var j :| 0 <= j < |t.clusters| && t.clusters[j] == d;
    assert i < j ==> Apart(c, d);
    assert j < i ==> Apart(d, c);
    ApartOtherGeo(c, d);
  }

  lemma ApartOtherGeo(c: ClusterTarget, d: ClusterTarget)
    requires c.geo != d.geo
    ensures Apart(d, c) ==> Apart(c, d)
  {}

  lemma GeosApart(t: GatewayTarget, host: string, g: string, h: string, r: Request, q: Request)
    requires DistinctParts(t, host) && g != h && OfGeo(t, LbName(t, host), g, r) && OfGeo(t, LbName(t, host), h, q)
    ensures Key(r) != Key(q)
  {
    hide DistinctParts, LbName, ClusterRequests, Below, Apart;
    var lb := LbName(t, host);
    if c :| c in t.clusters && c.geo == g && r in ClusterRequests(c, lb) {
      if d :| d in t.clusters && d.geo == h && q in ClusterRequests(d, lb) {
        ClusterOtherGeo(t, host, c, d);
        ClustersApart(t, host, c, d, r, q);
      } else {
        ClusterApartLb(t, host, c, r, h);
      }
    } else if d :| d in t.clusters && d.geo == h && q in ClusterRequests(d, lb) {
      ClusterApartLb(t, host, d, q, g);
    } else {
      SameStart(lb, g, h);
    }
  }

  lemma {:induction false} BodyApart(t: GatewayTarget, host: string, order: seq<string>)
    requires DistinctParts(t, host) && NoRepeats(order)
    ensures DistinctKeys(Body(t, LbName(t, host), order), Key)
    decreases |order|
  {
    if order != [] {
      hide DistinctParts, LbName, GeoBody, DistinctKeys, Key;
      var n, lb := |order| - 1, LbName(t, host);
      BodyApart(t, host, order[..n]);
      OneGeoApart(t, host, order[n]);
      forall r, q | r in Body(t, lb, order[..n]) && q in GeoBody(t, lb, order[n]) ensures Key(r) != Key(q) {
        NextGeoApart(t, host, order[..n], order[n], r, q);
      }
      DistinctConcat(Body(t, lb, order[..n]), GeoBody(t, lb, order[n]));
    } else {
      assert Body(t, LbName(t, host), order) == [];
    }
  }

  lemma NextGeoApart(t: GatewayTarget, host: string, order: seq<string>, geo: string, r: Request, q: Request)
    requires DistinctParts(t, host) && geo !in order
    requires r in Body(t, LbName(t, host), order) && q in GeoBody(t, LbName(t, host), geo)
    ensures Key(r) != Key(q)
  {
    hide DistinctParts, LbName, GeoBody, OfGeo, Key, Body;
    var g := BodyOf(t, LbName(t, host), order, r);
    GeoBodyOf(t, LbName(t, host), geo, q);
    GeosApart(t, host, g, geo, r, q);
  }

  // ----- the wildcard endpoint and the host's -----

  lemma NotTheHost(name: string, id: string, host: string)
    requires name != "" && name[0] != '*' && (!HasPrefix(host, "*") ==> |name| > |host|)
    ensures name + id != host
  {
    assert (name + id)[0] == name[0];
    assert HasPrefix(host, "*") ==> host[0] == '*';
  }

  lemma BelowStarts(t: GatewayTarget, host: string, code: string, id: string)
    requires !HasPrefix(code, "*")
    ensures Below(code, LbName(t, host)) + id != host
  {
    var lb := LbName(t, host);
    var s := code + "." + lb;
    LbNameApart(t, host);
    assert Below(code, lb)[0] == LowerChar(s[0]);
    assert s[0] == if code == "" then '.' else code[0];
    NotTheHost(Below(code, lb), id, host);
  }

  lemma OfGeoNotHost(t: GatewayTarget, host: string, geo: string, r: Request)
    requires DistinctParts(t, host) && OfGeo(t, LbName(t, host), geo, r)
    ensures Key(r) != host && Key(r) != LbName(t, host) + DEFAULT
  {
    hide LbName, Below, ToLower, ClusterHosts, ClusterRequests, IsLabel, DistinctGeos, ForeignAddresses, AllApart,
      NoRepeats;
    var lb := LbName(t, host);
    if c :| c in t.clusters && c.geo == geo && r in ClusterRequests(c, lb) {
      ClusterApartLb(t, host, c, r, DEFAULT);
      ClusterKinds(lb, c, r);
      BelowStarts(t, host, c.shortCode, r.setIdentifier);
      BelowStarts(t, host, c.geo, r.setIdentifier);
    } else {
      LbNameApart(t, host);
      NotTheHost(lb, geo, host);
      SameStart(lb, geo, DEFAULT);
    }
  }

  /** With distinct labels and host names, all ids a run of setEndpoints asks for are distinct. */
  lemma IdsDistinct(t: GatewayTarget, host: string, order: seq<string>)
    requires DistinctParts(t, host) && NoRepeats(order)
    ensures DistinctKeys(Requests(t, host, order), Key)
  {
    hide DistinctParts, LbName, Body, OfGeo, Below;
    var lb := LbName(t, host);
    var body := Body(t, lb, order);
    BodyApart(t, host, order);
    if body != [] {
      var wildcard, top := WildcardRequest(lb, DefaultOf(t, lb, order).value), HostRequest(host, lb);
      forall r | r in body ensures Key(r) != Key(wildcard) && Key(r) != Key(top) {
        var g := BodyOf(t, lb, order, r);
        OfGeoNotHost(t, host, g, r);
      }
      LbNameApart(t, host);
      NotTheHost(lb, DEFAULT, host);
      assert DistinctKeys([wildcard, top], Key);
      DistinctConcat(body, [wildcard, top]);
    }
  }
}

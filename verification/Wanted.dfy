/** Exactly what setEndpoints asks for, said of the clusters and their addresses alone
    (pkg/controllers/dnspolicy/dns_helper.go:174-253). */
module Wanted {
  import opened Options
  import opened Strings
  import opened Sorting
  import opened Endpoints
  import opened Build

  // ----- the addresses of a cluster -----

  /** The positions of all addresses of a kind, in order. */
  ghost predicate AllOfKind(at: seq<nat>, addresses: seq<Address>, ip: bool) {
    && (forall k | 0 <= k < |at| :: at[k] < |addresses|)
    && (forall k, l | 0 <= k < l < |at| :: at[k] < at[l])
    && (forall i: nat | i < |addresses| :: i in at <==> addresses[i].isIp == ip)
  }

  /** These are the values at those positions. */
  ghost predicate ValuesAt(values: seq<string>, at: seq<nat>, addresses: seq<Address>) {
    |values| == |at| && forall k | 0 <= k < |at| :: at[k] < |addresses| && values[k] == addresses[at[k]].value
  }

  /** These are the values of all addresses of a kind, in order. */
  ghost predicate ListsKind(values: seq<string>, addresses: seq<Address>, ip: bool) {
    exists at :: AllOfKind(at, addresses, ip) && ValuesAt(values, at, addresses)
  }

  lemma {:induction false} ValuesListed(addresses: seq<Address>, ip: bool)
    ensures ListsKind(Values(addresses, ip), addresses, ip)
  {
    if addresses == [] {
      assert AllOfKind([], addresses, ip) && ValuesAt([], [], addresses);
    } else {
      hide ListsKind;
      ValuesListed(addresses[..|addresses| - 1], ip);
      NextListed(Values(addresses[..|addresses| - 1], ip), addresses, ip);
    }
  }

  lemma NextListed(front: seq<string>, addresses: seq<Address>, ip: bool)
    requires addresses != [] && ListsKind(front, addresses[..|addresses| - 1], ip)
    ensures var last := addresses[|addresses| - 1];
            ListsKind(front + if last.isIp == ip then [last.value] else [], addresses, ip)
  {
    hide AllOfKind, ValuesAt, ListsKind;
    var n := |addresses| - 1;
    var at := Positions(front, addresses[..n], ip);
    MoreOfKind(at, addresses, ip);
    MoreValues(front, at, addresses);
    if addresses[n].isIp == ip {
      ListedBy(front + [addresses[n].value], at + [n], addresses, ip);
    } else {
      assert front + [] == front;
      ListedBy(front, at, addresses, ip);
    }
  }

  lemma ListedBy(values: seq<string>, at: seq<nat>, addresses: seq<Address>, ip: bool)
    requires AllOfKind(at, addresses, ip) && ValuesAt(values, at, addresses)
    ensures ListsKind(values, addresses, ip)
  {
    hide AllOfKind, ValuesAt;
  }

  lemma MoreValues(front: seq<string>, at: seq<nat>, addresses: seq<Address>)
    requires addresses != [] && ValuesAt(front, at, addresses[..|addresses| - 1])
    ensures ValuesAt(front, at, addresses)
    ensures var n := |addresses| - 1; ValuesAt(front + [addresses[n].value], at + [n], addresses)
  {}

  lemma MoreOfKind(at: seq<nat>, addresses: seq<Address>, ip: bool)
    requires addresses != [] && AllOfKind(at, addresses[..|addresses| - 1], ip)
    ensures var n := |addresses| - 1; AllOfKind(if addresses[n].isIp == ip then at + [n] else at, addresses, ip)
  {
    var n := |addresses| - 1;
    var more := if addresses[n].isIp == ip then at + [n] else at;
    forall i: nat | i < |addresses| ensures i in more <==> addresses[i].isIp == ip {
      if i < n {
        assert addresses[..n][i] == addresses[i];
      } else {
        forall k | 0 <= k < |at| ensures at[k] != n {}
      }
    }
  }

  /** There is only one such list. */
  lemma {:induction false} ListedIsValues(values: seq<string>, addresses: seq<Address>, ip: bool)
    requires ListsKind(values, addresses, ip)
    ensures values == Values(addresses, ip)
    decreases |addresses|
  {
    hide ListsKind;
    if values != [] {
      SomeListed(values, addresses, ip);
    }
    if addresses != [] {
      var n, m := |addresses| - 1, |values| - 1;
      LastListed(values, addresses, ip);
      if addresses[n].isIp == ip {
        ListedIsValues(values[..m], addresses[..n], ip);
        assert values == values[..m] + [values[m]];
      } else {
        ListedIsValues(values, addresses[..n], ip);
      }
    }
  }

  lemma SomeListed(values: seq<string>, addresses: seq<Address>, ip: bool)
    requires ListsKind(values, addresses, ip) && values != []
    ensures addresses != []
  {
    var at := Positions(values, addresses, ip);
    assert at[0] < |addresses|;
  }

  lemma LastListed(values: seq<string>, addresses: seq<Address>, ip: bool)
    requires addresses != [] && ListsKind(values, addresses, ip)
    ensures var n, m := |addresses| - 1, |values| - 1;
            if addresses[n].isIp == ip then
              values != [] && values[m] == addresses[n].value && ListsKind(values[..m], addresses[..n], ip)
            else ListsKind(values, addresses[..n], ip)
  {
    hide ListsKind;
    var at := Positions(values, addresses, ip);
    var n := |addresses| - 1;
    if addresses[n].isIp == ip {
      assert n in at;
      var k :| 0 <= k < |at| && at[k] == n;
      assert k == |at| - 1;
      FrontListed(values, at, addresses, ip);
    } else {
      SameListed(values, at, addresses, ip);
    }
  }

  lemma Positions(values: seq<string>, addresses: seq<Address>, ip: bool) returns (at: seq<nat>)
    requires ListsKind(values, addresses, ip)
    ensures AllOfKind(at, addresses, ip) && ValuesAt(values, at, addresses)
  {
    at :| AllOfKind(at, addresses, ip) && ValuesAt(values, at, addresses);
  }

  lemma FrontListed(values: seq<string>, at: seq<nat>, addresses: seq<Address>, ip: bool)
    requires addresses != [] && at != [] && at[|at| - 1] == |addresses| - 1
    requires AllOfKind(at, addresses, ip) && ValuesAt(values, at, addresses)
    ensures ListsKind(values[..|at| - 1], addresses[..|addresses| - 1], ip)
  {
    var n, m := |addresses| - 1, |at| - 1;
    var front := at[..m];
    forall i: nat | i < n ensures i in front <==> addresses[..n][i].isIp == ip {
      if i in at {
        var k :| 0 <= k < |at| && at[k] == i;
        assert front[k] == i;
      }
    }
    assert AllOfKind(front, addresses[..n], ip) && ValuesAt(values[..m], front, addresses[..n]);
  }

  lemma SameListed(values: seq<string>, at: seq<nat>, addresses: seq<Address>, ip: bool)
    requires addresses != [] && addresses[|addresses| - 1].isIp != ip
    requires AllOfKind(at, addresses, ip) && ValuesAt(values, at, addresses)
    ensures ListsKind(values, addresses[..|addresses| - 1], ip)
  {
    var n := |addresses| - 1;
    forall k | 0 <= k < |at| ensures at[k] < n {
      assert at[k] in at;
    }
    assert AllOfKind(at, addresses[..n], ip) && ValuesAt(values, at, addresses[..n]);
  }

  ghost predicate HasKind(c: ClusterTarget, ip: bool) {
    exists a | a in c.addresses :: a.isIp == ip
  }

  lemma {:induction false} ValuesHave(addresses: seq<Address>, ip: bool, v: string)
    ensures v in Values(addresses, ip) <==> Address(ip, v) in addresses
  {
    if addresses != [] {
      var n := |addresses| - 1;
      ValuesHave(addresses[..n], ip, v);
      assert addresses == addresses[..n] + [addresses[n]];
    }
  }

  lemma SomeValue(c: ClusterTarget, ip: bool)
    ensures Values(c.addresses, ip) != [] <==> HasKind(c, ip)
  {
    if Values(c.addresses, ip) != [] {
      ValuesHave(c.addresses, ip, Values(c.addresses, ip)[0]);
    }
    if a :| a in c.addresses && a.isIp == ip {
      ValuesHave(c.addresses, ip, a.value);
    }
  }

  // ----- what is wanted -----

  /** One A record for all IP addresses of a cluster, under its short code. */
  ghost predicate WantsAddresses(r: Request, c: ClusterTarget, lb: string) {
    && HasKind(c, true) && ListsKind(r.targets, c.addresses, true)
    && r.dnsName == ToLower(c.shortCode + "." + lb)
    && r.recordType == A && r.setIdentifier == "" && r.ttl == 60 && r.prop == None
  }

  /** A CNAME from a cluster's geo to one of its host names, or to its short code if it has IP addresses,
      with the cluster's weight. */
  ghost predicate WantsWeighted(r: Request, c: ClusterTarget, lb: string) {
    && |r.targets| == 1
    && (Address(false, r.targets[0]) in c.addresses ||
        (HasKind(c, true) && r.targets[0] == ToLower(c.shortCode + "." + lb)))
    && r.dnsName == ToLower(c.geo + "." + lb)
    && r.recordType == CNAME && r.setIdentifier == r.targets[0] && r.ttl == 60
    && r.prop == Some(Property("weight", Itoa(c.weight)))
  }

  /** A CNAME from the lb name to a geo that has an address, with its geo code. */
  ghost predicate WantsGeo(r: Request, c: ClusterTarget, lb: string) {
    && c.addresses != [] && c.geo != DEFAULT
    && r == Request(lb, [ToLower(c.geo + "." + lb)], CNAME, c.geo, 300, Some(Property("geo-code", c.geo)))
  }

  /** The default CNAME from the lb name, and the host's to the lb name. */
  ghost predicate WantsDefault(r: Request, geo: string, lb: string) {
    r == Request(lb, [ToLower(geo + "." + lb)], CNAME, "default", 300, Some(Property("geo-code", "*")))
  }

  ghost predicate WantsHost(r: Request, host: string, lb: string) {
    r == Request(host, [lb], CNAME, "", 300, None)
  }

  ghost predicate SomeAddress(t: GatewayTarget) {
    exists c | c in t.clusters :: c.addresses != []
  }

  ghost predicate Addressed(t: GatewayTarget, geo: string) {
    exists c | c in t.clusters :: c.geo == geo && c.addresses != []
  }

  /** A geo with an address that takes the default endpoint whatever came before. */
  ghost predicate Claims(t: GatewayTarget, geo: string) {
    Addressed(t, geo) && (geo == "default" || geo == t.defaultGeo)
  }

  /** The default endpoint points to the last geo that claims it, or if none does to the first with an
      address. */
  ghost predicate DefaultAt(t: GatewayTarget, order: seq<string>, i: nat) {
    && i < |order| && Addressed(t, order[i])
    && (if Claims(t, order[i]) then forall j | i < j < |order| :: !Claims(t, order[j])
        else
          && (forall j | 0 <= j < |order| :: !Claims(t, order[j]))
          && forall j | 0 <= j < i :: !Addressed(t, order[j]))
  }

  ghost predicate IsWanted(t: GatewayTarget, host: string, order: seq<string>, r: Request) {
    var lb := ToLower("lb-" + t.shortCode + "." + CnameHost(host));
    || (exists c | c in t.clusters :: WantsAddresses(r, c, lb))
    || (exists c | c in t.clusters :: WantsWeighted(r, c, lb))
    || (exists c | c in t.clusters :: WantsGeo(r, c, lb))
    || (SomeAddress(t) && WantsHost(r, host, lb))
    || (exists i: nat :: DefaultAt(t, order, i) && WantsDefault(r, order[i], lb))
  }

  // ----- the clusters of a geo -----

  /** The clusters of a geo are in their original order. */
  lemma {:induction false} InGeoInOrder(clusters: seq<ClusterTarget>, geo: string) returns (at: seq<nat>)
    ensures PickedAt(at, InGeo(clusters, geo), clusters)
  {
    if clusters == [] {
      at := [];
    } else {
      hide PickedAt;
      var n := |clusters| - 1;
      var front := InGeoInOrder(clusters[..n], geo);
      PickNext(front, InGeo(clusters[..n], geo), clusters);
      at := if clusters[n].geo == geo then front + [n] else front;
    }
  }

  // ----- the requests of a cluster -----

  lemma ClusterWants(c: ClusterTarget, lb: string, r: Request)
    ensures r in ClusterRequests(c, lb) <==> WantsAddresses(r, c, lb) || WantsWeighted(r, c, lb)
  {
    hide Values, Itoa, ListsKind;
    SomeValue(c, true);
    ValuesListed(c.addresses, true);
    if WantsAddresses(r, c, lb) {
      ListedIsValues(r.targets, c.addresses, true);
      assert r == AddressRequest(c, lb) && r in AddressRequests(c, lb);
    }
    HostsWanted(c, lb, r);
    assert r in AddressRequests(c, lb) ==> WantsAddresses(r, c, lb);
  }

  lemma HostsWanted(c: ClusterTarget, lb: string, r: Request)
    ensures r in WeightedRequests(Below(c.geo, lb), ClusterHosts(c, lb), c.weight) <==> WantsWeighted(r, c, lb)
  {
    hide Values, Itoa;
    var hosts := ClusterHosts(c, lb);
    var weighted := WeightedRequests(Below(c.geo, lb), hosts, c.weight);
    SomeValue(c, true);
    forall v ensures v in hosts <==>
        Address(false, v) in c.addresses || (HasKind(c, true) && v == Below(c.shortCode, lb)) {
      ValuesHave(c.addresses, false, v);
    }
    if r in weighted {
      var i :| 0 <= i < |hosts| && weighted[i] == r;
      assert hosts[i] in hosts;
    }
    if WantsWeighted(r, c, lb) {
      assert r.targets[0] in hosts;
      var i :| 0 <= i < |hosts| && hosts[i] == r.targets[0];
      assert r.targets == [hosts[i]];
      assert weighted[i] == r;
    }
  }

  /** One of these clusters asks for it. */
  ghost predicate OneAsks(clusters: seq<ClusterTarget>, lb: string, r: Request) {
    exists c | c in clusters :: r in ClusterRequests(c, lb)
  }

  lemma OneMoreAsks(clusters: seq<ClusterTarget>, lb: string, r: Request)
    requires clusters != []
    ensures var n := |clusters| - 1;
            OneAsks(clusters, lb, r) <==> OneAsks(clusters[..n], lb, r) || r in ClusterRequests(clusters[n], lb)
  {
    hide ClusterRequests;
    assert clusters == clusters[..|clusters| - 1] + [clusters[|clusters| - 1]];
  }

  lemma {:induction false} ClustersWant(clusters: seq<ClusterTarget>, lb: string, r: Request)
    ensures r in ClustersRequests(clusters, lb) <==> OneAsks(clusters, lb, r)
  {
    if clusters != [] {
      hide ClusterRequests, OneAsks;
      ClustersWant(clusters[..|clusters| - 1], lb, r);
      OneMoreAsks(clusters, lb, r);
    }
  }

  /** The requests of a geo: those of its clusters, and its own unless it is "default" or has no address. */
  lemma GeoWants(t: GatewayTarget, lb: string, geo: string, r: Request)
    ensures r in GeoBody(t, lb, geo) <==>
            || (exists c | c in t.clusters :: c.geo == geo && r in ClusterRequests(c, lb))
            || (HasAddress(t, lb, geo) && geo != DEFAULT && r == GeoRequest(lb, geo))
  {
    hide ClustersRequests, ClusterRequests;
    var inGeo := InGeo(t.clusters, geo);
    ClustersWant(inGeo, lb, r);
    forall c ensures c in inGeo <==> c in t.clusters && c.geo == geo {
      InGeoMembers(t.clusters, geo, c);
    }
  }

  ghost predicate OneGeoAsks(t: GatewayTarget, lb: string, order: seq<string>, r: Request) {
    exists g | g in order :: r in GeoBody(t, lb, g)
  }

  lemma OneMoreGeoAsks(t: GatewayTarget, lb: string, order: seq<string>, r: Request)
    requires order != []
    ensures var n := |order| - 1;
            OneGeoAsks(t, lb, order, r) <==> OneGeoAsks(t, lb, order[..n], r) || r in GeoBody(t, lb, order[n])
  {
    hide GeoBody;
    assert order == order[..|order| - 1] + [order[|order| - 1]];
  }

  lemma {:induction false} BodyWants(t: GatewayTarget, lb: string, order: seq<string>, r: Request)
    ensures r in Body(t, lb, order) <==> OneGeoAsks(t, lb, order, r)
  {
    if order != [] {
      hide GeoBody, DefaultOf, OneGeoAsks;
      BodyWants(t, lb, order[..|order| - 1], r);
      OneMoreGeoAsks(t, lb, order, r);
    }
  }

  /** The body of the list, cluster by cluster. */
  ghost predicate InBody(t: GatewayTarget, lb: string, r: Request) {
    || (exists c | c in t.clusters :: WantsAddresses(r, c, lb))
    || (exists c | c in t.clusters :: WantsWeighted(r, c, lb))
    || (exists c | c in t.clusters :: WantsGeo(r, c, lb))
  }

  lemma BodyExactly(t: GatewayTarget, lb: string, order: seq<string>, r: Request)
    requires IsOrder(t, order)
    ensures r in Body(t, lb, order) <==> InBody(t, lb, r)
  {
    hide GeoBody, ClusterRequests, WantsAddresses, WantsWeighted, HasAddress, Body, DefaultOf;
    BodyWants(t, lb, order, r);
    if r in Body(t, lb, order) {
      var g :| g in order && r in GeoBody(t, lb, g);
      GeoWants(t, lb, g, r);
      if c :| c in t.clusters && c.geo == g && r in ClusterRequests(c, lb) {
        ClusterWants(c, lb, r);
      } else {
        AddressedExactly(t, lb, g);
        var c :| c in t.clusters && c.geo == g && c.addresses != [];
        assert WantsGeo(r, c, lb);
      }
    }
    if InBody(t, lb, r) {
      var c := ClusterOf(t, lb, r);
      ClusterWants(c, lb, r);
      assert HasGeo(t, c.geo) && c.geo in order;
      GeoWants(t, lb, c.geo, r);
      AddressedExactly(t, lb, c.geo);
    }
  }

  lemma ClusterOf(t: GatewayTarget, lb: string, r: Request) returns (c: ClusterTarget)
    requires InBody(t, lb, r)
    ensures c in t.clusters && (WantsAddresses(r, c, lb) || WantsWeighted(r, c, lb) || WantsGeo(r, c, lb))
  {
    hide WantsAddresses, WantsWeighted, WantsGeo;
    if d :| d in t.clusters && WantsAddresses(r, d, lb) {
      c := d;
    } else if d :| d in t.clusters && WantsWeighted(r, d, lb) {
      c := d;
    } else {
      c :| c in t.clusters && WantsGeo(r, c, lb);
    }
  }

  // ----- the default endpoint -----

  lemma {:induction false} DefaultIsAt(t: GatewayTarget, lb: string, order: seq<string>) returns (i: nat)
    ensures DefaultOf(t, lb, order).None? ==> NoneAddressed(t, order)
    ensures DefaultOf(t, lb, order).Some? ==> DefaultAt(t, order, i) && DefaultOf(t, lb, order) == Some(order[i])
  {
    i := 0;
    if order != [] {
      hide Addressed, HasAddress, DefaultAt, NoneAddressed;
      var n := |order| - 1;
      i := DefaultIsAt(t, lb, order[..n]);
      AddressedIs(t, lb, order[n]);
      NextDefault(t, order, i);
      if Claims(t, order[n]) || (Addressed(t, order[n]) && DefaultOf(t, lb, order[..n]).None?) {
        i := n;
      } else if DefaultOf(t, lb, order[..n]).Some? {
        InFront(t, order, i);
      }
    } else {
      assert NoneAddressed(t, order);
    }
  }

  ghost predicate NoneAddressed(t: GatewayTarget, order: seq<string>) {
    forall j | 0 <= j < |order| :: !Addressed(t, order[j])
  }

  lemma AddressedIs(t: GatewayTarget, lb: string, geo: string)
    ensures Addressed(t, geo) <==> HasAddress(t, lb, geo)
  {
    hide HasAddress;
    AddressedExactly(t, lb, geo);
  }

  lemma InFront(t: GatewayTarget, order: seq<string>, i: nat)
    requires order != [] && DefaultAt(t, order[..|order| - 1], i)
    ensures order[..|order| - 1][i] == order[i]
  {
    hide Addressed;
  }

  /** One more geo is visited. */
  lemma NextDefault(t: GatewayTarget, order: seq<string>, i: nat)
    requires order != []
    ensures var n, last := |order| - 1, order[|order| - 1];
            && (Claims(t, last) ==> DefaultAt(t, order, n))
            && (!Claims(t, last) && DefaultAt(t, order[..n], i) ==> DefaultAt(t, order, i))
            && (Addressed(t, last) && NoneAddressed(t, order[..n]) ==> DefaultAt(t, order, n))
            && (!Addressed(t, last) && NoneAddressed(t, order[..n]) ==> NoneAddressed(t, order))
  {
    hide Addressed;
    var n := |order| - 1;
    assert forall j | 0 <= j < n :: order[..n][j] == order[j];
  }

  lemma DefaultAddressed(t: GatewayTarget, lb: string, order: seq<string>)
    requires IsOrder(t, order)
    ensures DefaultOf(t, lb, order).Some? <==> SomeAddress(t)
    ensures forall i: nat | DefaultAt(t, order, i) :: SomeAddress(t)
  {
    hide HasAddress, IsOrder, DefaultOf;
    if DefaultOf(t, lb, order).Some? {
      AddressedIs(t, lb, DefaultOf(t, lb, order).value);
    }
    if c :| c in t.clusters && c.addresses != [] {
      AddressedIs(t, lb, c.geo);
      AddressInOrder(t, lb, order, c.geo);
      SomeDefault(t, lb, order, c.geo);
    }
    forall i: nat | DefaultAt(t, order, i) ensures SomeAddress(t) {
      assert Addressed(t, order[i]);
    }
  }

  lemma OneDefault(t: GatewayTarget, order: seq<string>, i: nat, j: nat)
    requires DefaultAt(t, order, i) && DefaultAt(t, order, j)
    ensures i == j
  {
    hide Addressed;
  }

  lemma BodySome(t: GatewayTarget, lb: string, order: seq<string>)
    requires IsOrder(t, order)
    ensures Body(t, lb, order) != [] <==> SomeAddress(t)
  {
    hide Body, InBody, IsOrder, HasAddress;
    if Body(t, lb, order) != [] {
      var r := Body(t, lb, order)[0];
      BodyExactly(t, lb, order, r);
      InBodyAddressed(t, lb, r);
    }
    if c :| c in t.clusters && c.addresses != [] {
      AddressedExactly(t, lb, c.geo);
      AddressInOrder(t, lb, order, c.geo);
      BodyNonEmpty(t, lb, order, c.geo);
    }
  }

  lemma InBodyAddressed(t: GatewayTarget, lb: string, r: Request)
    requires InBody(t, lb, r)
    ensures SomeAddress(t)
  {
    var c := ClusterOf(t, lb, r);
    if WantsAddresses(r, c, lb) {
      assert HasKind(c, true);
    }
  }

  /** What setEndpoints asks for, and nothing else: for every cluster one A record with all its IP
      addresses in order, and a weighted CNAME for each of its host names and for that A record; for every
      geo with an address the lb endpoint; and, if there is any address, the default endpoint and the
      host's. */
  lemma AskedExactly(t: GatewayTarget, host: string, order: seq<string>, r: Request)
    requires IsOrder(t, order)
    ensures r in Requests(t, host, order) <==> IsWanted(t, host, order, r)
  {
    hide Body, IsOrder, WantsAddresses, WantsWeighted, WantsGeo, CnameHost, SomeAddress, DefaultAt, DefaultOf;
    var lb := LbName(t, host);
    BodyExactly(t, lb, order, r);
    BodySome(t, lb, order);
    DefaultAddressed(t, lb, order);
    var i := DefaultIsAt(t, lb, order);
    forall j: nat | DefaultAt(t, order, j) && DefaultOf(t, lb, order).Some? ensures j == i {
      OneDefault(t, order, i, j);
    }
  }

  /** In particular every address of every cluster is asked for. */
  lemma EveryAddressAsked(t: GatewayTarget, host: string, order: seq<string>, c: ClusterTarget, a: Address)
    requires IsOrder(t, order) && c in t.clusters && a in c.addresses
    ensures var lb, requests := ToLower("lb-" + t.shortCode + "." + CnameHost(host)), Requests(t, host, order);
            if a.isIp then
              && (exists r | r in requests :: WantsAddresses(r, c, lb) && a.value in r.targets)
              && (exists r | r in requests :: WantsWeighted(r, c, lb) && r.targets == [ToLower(c.shortCode + "." + lb)])
            else
              exists r | r in requests :: WantsWeighted(r, c, lb) && r.targets == [a.value]
  {
    hide Requests, CnameHost, IsOrder, IsWanted, WantsAddresses, WantsWeighted, ToLower;
    var lb := ToLower("lb-" + t.shortCode + "." + CnameHost(host));
    var w := WeightedFor(c, lb, a);
    WantedIsAsked(t, host, order, c, w);
    if a.isIp {
      var r := AddressesFor(c, lb, a);
      WantedIsAsked(t, host, order, c, r);
    }
  }

  lemma WantedIsAsked(t: GatewayTarget, host: string, order: seq<string>, c: ClusterTarget, r: Request)
    requires IsOrder(t, order) && c in t.clusters
    requires var lb := ToLower("lb-" + t.shortCode + "." + CnameHost(host));
             WantsAddresses(r, c, lb) || WantsWeighted(r, c, lb)
    ensures r in Requests(t, host, order)
  {
    hide Requests, CnameHost, IsOrder, WantsAddresses, WantsWeighted, ToLower;
    AskedExactly(t, host, order, r);
  }

  lemma WeightedFor(c: ClusterTarget, lb: string, a: Address) returns (w: Request)
    requires a in c.addresses
    ensures WantsWeighted(w, c, lb) && w.targets == [if a.isIp then ToLower(c.shortCode + "." + lb) else a.value]
  {
    hide Itoa, ToLower;
    var target := if a.isIp then ToLower(c.shortCode + "." + lb) else a.value;
    assert HasKind(c, a.isIp);
    w := Request(ToLower(c.geo + "." + lb), [target], CNAME, target, 60, Some(Property("weight", Itoa(c.weight))));
  }

  lemma AddressesFor(c: ClusterTarget, lb: string, a: Address) returns (r: Request)
    requires a in c.addresses && a.isIp
    ensures WantsAddresses(r, c, lb) && a.value in r.targets
  {
    hide ToLower, Values, ListsKind;
    ValuesListed(c.addresses, true);
    ValuesHave(c.addresses, true, a.value);
    assert HasKind(c, true);
    r := Request(ToLower(c.shortCode + "." + lb), Values(c.addresses, true), A, "", 60, None);
  }

  // ----- names -----

  /** The lb name of a host without wildcard, and of one with a wildcard for its first label. */
  lemma LbNames(t: GatewayTarget, host: string)
    requires !HasPrefix(host, "*")
    ensures LbName(t, host) == ToLower("lb-" + t.shortCode + "." + host)
    ensures (forall k: nat :: !OccursAt(host, "*.", k)) ==>
              LbName(t, "*." + host) == ToLower("lb-" + t.shortCode + "." + host)
  {
    if forall k: nat :: !OccursAt(host, "*.", k) {
      assert "*." + host == "*." + host && HasPrefix("*." + host, "*");
      WildcardDropped(host);
    }
  }

  lemma WildcardDropped(host: string)
    requires forall k: nat :: !OccursAt(host, "*.", k)
    ensures RemoveAll("*." + host, "*.") == host
  {
    var s := "*." + host;
    assert s[0..2] == "*." && OccursAt(s, "*.", 0);
    assert s[2..] == host && s[..0] == "";
    assert RemoveAll(host, "*.") == host;
  }
}

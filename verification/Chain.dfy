/** The shape of the built chain: its names do not clash, it has no CNAME cycle, no name carries
    both an A and a CNAME record (section 3.6.2 of RFC 1034), and it has one wildcard endpoint. */
module Chain {
  import opened Options
  import opened Strings
  import opened Endpoints
  import opened Prune
  import opened Build

  /** No cluster short code equals a geo label, and neither starts with an asterisk. */
  ghost predicate DistinctLabels(t: GatewayTarget) {
    && (forall c, d | c in t.clusters && d in t.clusters :: ToLower(c.shortCode) != ToLower(d.geo))
    && (forall c | c in t.clusters :: !HasPrefix(c.shortCode, "*") && !HasPrefix(c.geo, "*"))
  }

  ghost predicate IsGeoName(t: GatewayTarget, host: string, name: string) {
    exists c | c in t.clusters :: name == Below(c.geo, LbName(t, host))
  }

  ghost predicate IsClusterName(t: GatewayTarget, host: string, name: string) {
    exists c | c in t.clusters :: name == Below(c.shortCode, LbName(t, host))
  }

  ghost predicate IsOwnName(t: GatewayTarget, host: string, name: string) {
    name == host || name == LbName(t, host) || IsGeoName(t, host, name) || IsClusterName(t, host, name)
  }

  /** No address reported by a cluster is one of the names this gateway publishes. */
  ghost predicate ForeignAddresses(t: GatewayTarget, host: string) {
    forall c, a | c in t.clusters && a in c.addresses :: !IsOwnName(t, host, a.value)
  }

  lemma LbNameApart(t: GatewayTarget, host: string)
    ensures LbName(t, host) != host
    ensures |LbName(t, host)| > 0 && LbName(t, host)[0] == 'l'
    ensures !HasPrefix(host, "*") ==> |LbName(t, host)| > |host|
  {
    var s := "lb-" + t.shortCode + "." + CnameHost(host);
    assert s[0] == 'l';
    assert ToLower(s)[0] == LowerChar('l') == 'l';
    assert |s| == 4 + |t.shortCode| + |CnameHost(host)|;
    assert HasPrefix(host, "*") ==> host[0] == '*';
  }

  /** A name below the lb name is neither the lb name nor the host. */
  lemma BelowApart(t: GatewayTarget, host: string, code: string)
    requires !HasPrefix(code, "*")
    ensures Below(code, LbName(t, host)) != host && Below(code, LbName(t, host)) != LbName(t, host)
  {
    LbNameApart(t, host);
    var lb := LbName(t, host);
    var s := code + "." + lb;
    assert |Below(code, lb)| == |s| == |code| + 1 + |lb|;
    if HasPrefix(host, "*") {
      assert host[0] == '*';
      assert Below(code, lb)[0] == LowerChar(s[0]);
      assert s[0] == if code == "" then '.' else code[0];
    }
  }

  lemma NamesApart(t: GatewayTarget, host: string, name: string)
    requires DistinctLabels(t)
    ensures IsGeoName(t, host, name) || IsClusterName(t, host, name) ==> name != host && name != LbName(t, host)
    ensures !(IsGeoName(t, host, name) && IsClusterName(t, host, name))
  {
    if c :| c in t.clusters && name == Below(c.geo, LbName(t, host)) {
      BelowApart(t, host, c.geo);
      if d :| d in t.clusters && name == Below(d.shortCode, LbName(t, host)) {
        BelowInjective(c.geo, d.shortCode, LbName(t, host));
      }
    } else if d :| d in t.clusters && name == Below(d.shortCode, LbName(t, host)) {
      BelowApart(t, host, d.shortCode);
    }
  }

  /** How many CNAME steps a name is above the addresses. */
  ghost function NameRank(t: GatewayTarget, host: string, name: string): nat {
    if name == host then 3 else if name == LbName(t, host) then 2 else if IsGeoName(t, host, name) then 1 else 0
  }

  ghost function Rank(t: GatewayTarget, host: string): Endpoint -> nat {
    (e: Endpoint) => NameRank(t, host, e.dnsName)
  }

  lemma {:induction false} ValuesMembers(addresses: seq<Address>, ip: bool, v: string)
    requires v in Values(addresses, ip)
    ensures exists a | a in addresses :: a.isIp == ip && a.value == v
  {
    var n := |addresses| - 1;
    if addresses[n].isIp != ip || addresses[n].value != v {
      ValuesMembers(addresses[..n], ip, v);
    }
  }

  lemma RequestsAreOwn(t: GatewayTarget, host: string, r: Request)
    requires IsKnown(t, host, r)
    ensures IsOwnName(t, host, r.dnsName)
  {
    var lb := LbName(t, host);
    if IsAddressRequest(t, lb, r) {
      var c :| c in t.clusters && r == AddressRequest(c, lb);
      assert IsClusterName(t, host, r.dnsName);
    } else if IsWeightedRequest(t, lb, r) {
      assert IsGeoName(t, host, r.dnsName);
    }
  }

  /** Whatever own name a request points to is one rank below. */
  lemma TargetsRankLower(t: GatewayTarget, host: string, r: Request, name: string)
    requires DistinctLabels(t) && ForeignAddresses(t, host) && IsKnown(t, host, r)
    requires name in r.targets && IsOwnName(t, host, name)
    ensures NameRank(t, host, name) < NameRank(t, host, r.dnsName)
  {
    var lb := LbName(t, host);
    LbNameApart(t, host);
    NamesApart(t, host, r.dnsName);
    NamesApart(t, host, name);
    if IsAddressRequest(t, lb, r) {
      var c :| c in t.clusters && r == AddressRequest(c, lb);
      ValuesMembers(c.addresses, true, name);
    } else if IsWeightedRequest(t, lb, r) {
      WeightedRankLower(t, host, r);
    } else if IsLbRequest(t, lb, r) {
      assert IsGeoName(t, host, name);
    }
  }

  lemma WeightedRankLower(t: GatewayTarget, host: string, r: Request)
    requires DistinctLabels(t) && ForeignAddresses(t, host) && IsWeightedRequest(t, LbName(t, host), r)
    ensures |r.targets| == 1 && NameRank(t, host, r.dnsName) == 1
    ensures IsOwnName(t, host, r.targets[0]) ==> NameRank(t, host, r.targets[0]) == 0
  {
    var lb := LbName(t, host);
    var c :| c in t.clusters &&
      |r.targets| == 1 && r == WeightedRequest(Below(c.geo, lb), r.targets[0], c.weight) &&
      (r.targets[0] == Below(c.shortCode, lb) || r.targets[0] in Values(c.addresses, false));
    assert IsGeoName(t, host, r.dnsName);
    NamesApart(t, host, r.dnsName);
    NamesApart(t, host, r.targets[0]);
    if r.targets[0] == Below(c.shortCode, lb) {
      assert IsClusterName(t, host, r.targets[0]);
    } else {
      ValuesMembers(c.addresses, false, r.targets[0]);
    }
  }

  /** Every listed endpoint answers one of the requests. */
  ghost predicate Answers(e: Endpoint, r: Request) {
    e.dnsName == r.dnsName && e.targets == r.targets && e.recordType == r.recordType
  }

  ghost predicate AllAnswer(l: seq<Endpoint>, t: GatewayTarget, host: string, order: seq<string>) {
    forall e | e in l :: exists r | r in Requests(t, host, order) :: Answers(e, r)
  }

  /** The chain has no CNAME cycle: names fall in rank from host to lb to geo to cluster. */
  lemma ChainIsRanked(t: GatewayTarget, host: string, order: seq<string>, l: seq<Endpoint>)
    requires DistinctLabels(t) && ForeignAddresses(t, host) && IsOrder(t, order)
    requires AllAnswer(l, t, host, order)
    ensures Ranked(l, Rank(t, host))
  {
    forall p, c | p in l && c in l && IsChild(c, p) ensures Rank(t, host)(c) < Rank(t, host)(p) {
      var rp :| rp in Requests(t, host, order) && Answers(p, rp);
      var rc :| rc in Requests(t, host, order) && Answers(c, rc);
      RequestKinds(t, host, order, rp);
      RequestKinds(t, host, order, rc);
      RequestsAreOwn(t, host, rc);
      TargetsRankLower(t, host, rp, c.dnsName);
    }
  }

  /** No name has both an A and a CNAME record. */
  lemma NoAliasClash(t: GatewayTarget, host: string, order: seq<string>, l: seq<Endpoint>, a: Endpoint, b: Endpoint)
    requires DistinctLabels(t) && IsOrder(t, order) && AllAnswer(l, t, host, order)
    requires a in l && b in l && a.recordType == A && b.recordType == CNAME
    ensures a.dnsName != b.dnsName
  {
    var ra :| ra in Requests(t, host, order) && Answers(a, ra);
    var rb :| rb in Requests(t, host, order) && Answers(b, rb);
    RequestKinds(t, host, order, ra);
    RequestKinds(t, host, order, rb);
    TypesApart(t, host, ra, rb);
  }

  lemma TypesApart(t: GatewayTarget, host: string, ra: Request, rb: Request)
    requires DistinctLabels(t) && IsKnown(t, host, ra) && IsKnown(t, host, rb)
    requires ra.recordType == A && rb.recordType == CNAME
    ensures ra.dnsName != rb.dnsName
  {
    var lb := LbName(t, host);
    assert IsAddressRequest(t, lb, ra);
    var c :| c in t.clusters && ra == AddressRequest(c, lb);
    assert IsClusterName(t, host, ra.dnsName);
    NamesApart(t, host, ra.dnsName);
    if IsWeightedRequest(t, lb, rb) {
      assert IsGeoName(t, host, rb.dnsName);
    }
  }

  /** In any part of the chain, an entry survives pruning exactly when it reaches an IP-looking
      target through that part in at most three hops. */
  lemma SurvivesIffReaches(
    t: GatewayTarget, host: string, order: seq<string>, l: seq<Endpoint>, i: nat, looksLikeIp: string -> bool)
    requires DistinctLabels(t) && ForeignAddresses(t, host) && IsOrder(t, order)
    requires AllAnswer(l, t, host, order) && i < |l|
    ensures i in Survivors(l, looksLikeIp) <==> Reaches(l, l[i], 3, looksLikeIp)
  {
    ChainIsRanked(t, host, order, l);
    SurvivorsReach(l, Rank(t, host), i, looksLikeIp);
    if Reaches(l, l[i], Rank(t, host)(l[i]), looksLikeIp) {
      ReachesMore(l, l[i], Rank(t, host)(l[i]), 3, looksLikeIp);
    }
    if Reaches(l, l[i], 3, looksLikeIp) {
      ReachingSurvives(l, i, 3, looksLikeIp);
    }
  }

  // ----- the wildcard endpoint -----

  predicate IsWildcard(e: Endpoint, lb: string) {
    e.dnsName == lb && e.Get(GEO_CODE) == Some(WILDCARD)
  }

  lemma OnlyDefaultIsWildcard(t: GatewayTarget, host: string, r: Request, current: map<string, Endpoint>)
    requires DistinctLabels(t)
    requires IsAddressRequest(t, LbName(t, host), r) || IsWeightedRequest(t, LbName(t, host), r) ||
             r == HostRequest(host, LbName(t, host)) || IsGeoRequest(t, LbName(t, host), r)
    ensures !IsWildcard(Realize(r, current), LbName(t, host))
  {
    var lb := LbName(t, host);
    LbNameApart(t, host);
    NamesApart(t, host, r.dnsName);
    if IsAddressRequest(t, lb, r) {
      assert IsClusterName(t, host, r.dnsName);
    } else if IsWeightedRequest(t, lb, r) {
      assert IsGeoName(t, host, r.dnsName);
    } else if r != HostRequest(host, lb) {
      var c :| c in t.clusters && r == GeoRequest(lb, c.geo);
      LookupAssign(CreateOrUpdate(r, Find(current, Key(r))).props, GEO_CODE, c.geo, GEO_CODE);
    }
  }

  lemma DefaultIsWildcard(lb: string, geo: string, current: map<string, Endpoint>)
    ensures IsWildcard(Realize(WildcardRequest(lb, geo), current), lb)
  {
    var r := WildcardRequest(lb, geo);
    LookupAssign(CreateOrUpdate(r, Find(current, Key(r))).props, GEO_CODE, WILDCARD, GEO_CODE);
  }
}

/** The endpoint list of a DNSRecord after `setEndpoints`: built, sorted, filtered by health, pruned,
    and replaced by the full list if nothing is left (pkg/controllers/dnspolicy/dns_helper.go:174-327). */
module Publish {
  import opened Options
  import opened Sorting
  import opened Endpoints
  import opened Prune
  import opened Build
  import opened Chain

  /** The record's endpoints by SetID; a later endpoint hides an earlier one with the same id. */
  function ById(l: seq<Endpoint>): map<string, Endpoint> {
    if l == [] then map[] else ById(l[..|l| - 1])[l[|l| - 1].SetId() := l[|l| - 1]]
  }

  function Realizer(current: map<string, Endpoint>): Request -> Endpoint {
    (r: Request) => Realize(r, current)
  }

  /** The full list, sorted by SetID. */
  function FullList(requests: seq<Request>, current: map<string, Endpoint>): seq<Endpoint> {
    SortBy(Map(Realizer(current), requests), SetIdOf)
  }

  /** The probes the health filter looks at. */
  datatype Health = Health(probes: seq<Probe>, gateway: string, listener: string)

  ghost function Published(full: seq<Endpoint>, h: Health, looksLikeIp: string -> bool): seq<Endpoint> {
    var healthy := Healthy(full, h.probes, h.gateway, h.listener);
    var kept := if |healthy| == |full| then healthy else Select(healthy, Survivors(healthy, looksLikeIp));
    if kept == [] then full else kept
  }

  /** One run of setEndpoints on a record. */
  ghost function Run(
    requests: seq<Request>, record: seq<Endpoint>, h: Health, looksLikeIp: string -> bool): seq<Endpoint> {
    Published(FullList(requests, ById(record)), h, looksLikeIp)
  }

  // ----- the sorted list does not depend on iteration order -----

  /** For every iteration order of the geo map and every cluster order the sorted list is the same. */
  lemma FullListUnique(
    t: GatewayTarget, u: GatewayTarget, host: string, order: seq<string>, other: seq<string>, current: map<string,
    Endpoint>)
    requires SameGateway(t, u) && IsOrder(t, order) && IsOrder(u, other) && Settled(t, LbName(t, host))
    requires DistinctKeys(Map(Realizer(current), Requests(t, host, order)), SetIdOf)
    ensures FullList(Requests(t, host, order), current) == FullList(Requests(u, host, other), current)
  {
    RequestsPermute(t, u, host, order, other);
    MapPermute(Realizer(current), Requests(t, host, order), Requests(u, host, other));
    SortByPermute(Map(Realizer(current), Requests(t, host, order)), Map(Realizer(current), Requests(u, host, other)),
      SetIdOf);
  }

  /** Unless it is empty it has exactly one wildcard lb endpoint, and that one points at the configured
      default geo whenever that has an address and no geo called "default" beside it has. */
  lemma OneWildcard(t: GatewayTarget, host: string, order: seq<string>, current: map<string, Endpoint>) returns (k: nat)
    requires DistinctLabels(t) && IsOrder(t, order) && Requests(t, host, order) != []
    ensures var lb, full := LbName(t, host), FullList(Requests(t, host, order), current);
            && k < |full|
            && (forall i | 0 <= i < |full| :: IsWildcard(full[i], lb) <==> i == k)
            && (exists c | c in t.clusters :: c.addresses != [] && full[k].targets == [Below(c.geo, lb)])
            && (HasAddress(t, lb, t.defaultGeo) && (HasAddress(t, lb, DEFAULT) ==> t.defaultGeo == DEFAULT) ==>
                  full[k].targets == [Below(t.defaultGeo, lb)])
  {
    hide Below, LbName;
    var lb := LbName(t, host);
    var requests := Requests(t, host, order);
    var built := Map(Realizer(current), requests);
    var geo := DefaultOf(t, lb, order).value;
    AddressedExactly(t, lb, geo);
    if HasAddress(t, lb, t.defaultGeo) {
      DefaultIsConfiguredExactly(t, lb, order);
    }
    var w := |Body(t, lb, order)|;
    forall i | 0 <= i < |requests| ensures IsWildcard(built[i], lb) <==> i == w {
      WildcardPosition(t, host, order, current, i);
    }
    k := OnePermuted(built, w, FullList(requests, current), lb);
  }

  lemma WildcardPosition(t: GatewayTarget, host: string, order: seq<string>, current: map<string, Endpoint>, i: nat)
    requires DistinctLabels(t) && IsOrder(t, order)
    requires i < |Requests(t, host, order)|
    ensures IsWildcard(Realize(Requests(t, host, order)[i], current), LbName(t, host)) <==>
              i == |Body(t, LbName(t, host), order)|
  {
    var lb := LbName(t, host);
    var body, r := Body(t, lb, order), Requests(t, host, order)[i];
    if i < |body| {
      assert r == body[i];
      BodyKinds(t, lb, order, r);
      OnlyDefaultIsWildcard(t, host, r, current);
    } else if i == |body| {
      DefaultIsWildcard(lb, DefaultOf(t, lb, order).value, current);
    } else {
      OnlyDefaultIsWildcard(t, host, HostRequest(host, lb), current);
    }
  }

  lemma OnePermuted(built: seq<Endpoint>, w: nat, full: seq<Endpoint>, lb: string) returns (k: nat)
    requires multiset(built) == multiset(full) && w < |built|
    requires forall i | 0 <= i < |built| :: IsWildcard(built[i], lb) <==> i == w
    ensures k < |full| && full[k] == built[w]
    ensures forall i | 0 <= i < |full| :: IsWildcard(full[i], lb) <==> i == k
  {
    k := DropCommon(built, w, full);
    var restA, restB := built[..w] + built[w + 1..], full[..k] + full[k + 1..];
    forall i | 0 <= i < |full| && i != k ensures !IsWildcard(full[i], lb) {
      assert restB[if i < k then i else i - 1] == full[i];
      assert full[i] in multiset(restA);
      var j :| 0 <= j < |restA| && restA[j] == full[i];
      assert built[if j < w then j else j + 1] == full[i];
    }
  }

  // ----- what is published, on the level of requests -----

  function HealthyRequests(s: seq<Request>, h: Health): seq<Request> {
    if s == [] then []
    else (if Unhealthy(Realize(s[0], map[]), h.probes, h.gateway, h.listener) then [] else
        [s[0]]) + HealthyRequests(s[1..], h)
  }

  ghost function Selected(s: seq<Request>, h: Health, looksLikeIp: string -> bool): seq<Request> {
    var healthy := HealthyRequests(s, h);
    var kept := if |healthy| == |s| then healthy else
        Select(healthy, Survivors(Map(Realizer(map[]), healthy), looksLikeIp));
    if kept == [] then s else kept
  }

  lemma UnhealthyByTargets(a: Endpoint, b: Endpoint, h: Health)
    requires a.targets == b.targets
    ensures Unhealthy(a, h.probes, h.gateway, h.listener) <==> Unhealthy(b, h.probes, h.gateway, h.listener)
  {
    forall p ensures Watches(p, a, h.gateway, h.listener) <==> Watches(p, b, h.gateway, h.listener) {}
  }

  lemma {:induction false} HealthyIsMap(s: seq<Request>, current: map<string, Endpoint>, h: Health)
    ensures Healthy(Map(Realizer(current), s), h.probes, h.gateway, h.listener) ==
            Map(Realizer(current), HealthyRequests(s, h))
  {
    if s != [] {
      var f := Realizer(current);
      HealthyIsMap(s[1..], current, h);
      UnhealthyByTargets(f(s[0]), Realize(s[0], map[]), h);
      assert Map(f, s)[1..] == Map(f, s[1..]);
      if !Unhealthy(f(s[0]), h.probes, h.gateway, h.listener) {
        assert HealthyRequests(s, h) == [s[0]] + HealthyRequests(s[1..], h);
      } else {
        assert HealthyRequests(s, h) == HealthyRequests(s[1..], h);
      }
    }
  }

  lemma {:induction false} SelectIsMap(f: Request -> Endpoint, s: seq<Request>, keep: set<nat>)
    ensures Select(Map(f, s), keep) == Map(f, Select(s, keep))
  {
    if s != [] {
      var n := |s| - 1;
      SelectIsMap(f, s[..n], keep);
      assert Map(f, s)[..n] == Map(f, s[..n]);
      var front := Select(s[..n], keep);
      assert Map(f, front + [s[n]]) == Map(f, front) + [f(s[n])];
      assert front + [] == front && Map(f, front) + [] == Map(f, front);
    }
  }

  /** Health and pruning look at names and targets only, so they select requests, whatever
      endpoints were found to reuse. */
  lemma PublishedIsMap(s: seq<Request>, current: map<string, Endpoint>, h: Health, looksLikeIp: string -> bool)
    ensures Published(Map(Realizer(current), s), h, looksLikeIp) == Map(Realizer(current), Selected(s, h, looksLikeIp))
  {
    var f, g := Realizer(current), Realizer(map[]);
    var healthy := HealthyRequests(s, h);
    HealthyIsMap(s, current, h);
    SurvivorsOfSameShape(Map(f, healthy), Map(g, healthy), looksLikeIp);
    SelectIsMap(f, healthy, Survivors(Map(g, healthy), looksLikeIp));
  }

  // ----- idempotence -----

  /** An endpoint found under a request's key was made for the same set identifier. */
  ghost predicate SplitsAgree(current: map<string, Endpoint>, requests: seq<Request>) {
    forall r | r in requests && Key(r) in current :: current[Key(r)].setIdentifier == r.setIdentifier
  }

  lemma RealizedId(r: Request, current: map<string, Endpoint>)
    requires Key(r) in current ==> current[Key(r)].setIdentifier == r.setIdentifier
    ensures Realize(r, current).SetId() == Key(r)
    ensures Realize(r, current).setIdentifier == r.setIdentifier
  {}

  lemma FullListIsMap(requests: seq<Request>, current: map<string, Endpoint>)
    requires SplitsAgree(current, requests)
    ensures FullList(requests, current) == Map(Realizer(current), SortBy(requests, Key))
  {
    forall i | 0 <= i < |requests| ensures SetIdOf(Realizer(current)(requests[i])) == Key(requests[i]) {
      RealizedId(requests[i], current);
    }
    SortByMap(Realizer(current), requests, Key, SetIdOf);
  }

  /** Updating an endpoint that already answers the request leaves it as it is. */
  lemma RealizeAgain(r: Request, current: map<string, Endpoint>, next: map<string, Endpoint>)
    requires Key(r) in next && next[Key(r)] == Realize(r, current)
    ensures Realize(r, next) == Realize(r, current)
  {
    var e := Realize(r, current);
    if r.prop.Some? {
      LookupAssign(CreateOrUpdate(r, Find(current, Key(r))).props, r.prop.value.name, r.prop.value.value,
        r.prop.value.name);
      AssignCurrent(e.props, r.prop.value.name, r.prop.value.value);
    }
  }

  /** With distinct ids every endpoint is found again under its id, and nothing else is found. */
  lemma {:induction false} ByIdFinds(l: seq<Endpoint>, i: nat)
    requires DistinctKeys(l, SetIdOf) && i < |l|
    ensures l[i].SetId() in ById(l) && ById(l)[l[i].SetId()] == l[i]
  {
    var n := |l| - 1;
    if i < n {
      ByIdFinds(l[..n], i);
      assert SetIdOf(l[i]) != SetIdOf(l[n]);
    }
  }

  lemma {:induction false} ByIdOnly(l: seq<Endpoint>, key: string)
    requires key in ById(l)
    ensures exists i :: 0 <= i < |l| && l[i].SetId() == key
  {
    var n := |l| - 1;
    if l[n].SetId() != key {
      ByIdOnly(l[..n], key);
      var i :| 0 <= i < n && l[..n][i].SetId() == key;
      assert l[i].SetId() == key;
    }
  }

  lemma RealizedIds(s: seq<Request>, current: map<string, Endpoint>)
    requires SplitsAgree(current, s)
    ensures forall i | 0 <= i < |s| :: Map(Realizer(current), s)[i].SetId() == Key(s[i])
    ensures DistinctKeys(s, Key) ==> DistinctKeys(Map(Realizer(current), s), SetIdOf)
  {
    forall i | 0 <= i < |s| ensures Map(Realizer(current), s)[i].SetId() == Key(s[i]) {
      RealizedId(s[i], current);
    }
  }

  lemma {:induction false} HealthySubset(s: seq<Request>, h: Health, r: Request)
    ensures r in HealthyRequests(s, h) <==> r in s && !Unhealthy(Realize(r, map[]), h.probes, h.gateway, h.listener)
  {
    if s != [] {
      HealthySubset(s[1..], h, r);
      assert s == [s[0]] + s[1..];
    }
  }

  lemma SelectedSubset(s: seq<Request>, h: Health, looksLikeIp: string -> bool, r: Request)
    ensures r in Selected(s, h, looksLikeIp) ==> r in s
  {
    var healthy := HealthyRequests(s, h);
    HealthySubset(s, h, r);
    SelectMembers(healthy, Survivors(Map(Realizer(map[]), healthy), looksLikeIp), r);
  }

  lemma {:induction false} HealthyDistinct(s: seq<Request>, h: Health)
    requires DistinctKeys(s, Key)
    ensures DistinctKeys(HealthyRequests(s, h), Key)
  {
    if s != [] {
      HealthyDistinct(s[1..], h);
      var rest := HealthyRequests(s[1..], h);
      forall i | 0 <= i < |rest| ensures Key(rest[i]) != Key(s[0]) {
        HealthySubset(s[1..], h, rest[i]);
        assert rest[i] in s[1..];
        var j :| 0 <= j < |s[1..]| && s[1..][j] == rest[i];
        assert s[j + 1] == rest[i];
      }
    }
  }

  lemma {:induction false} SelectDistinct(s: seq<Request>, keep: set<nat>)
    requires DistinctKeys(s, Key)
    ensures DistinctKeys(Select(s, keep), Key)
  {
    if s != [] {
      var n := |s| - 1;
      SelectDistinct(s[..n], keep);
      var rest := Select(s[..n], keep);
      forall i | 0 <= i < |rest| ensures Key(rest[i]) != Key(s[n]) {
        SelectMembers(s[..n], keep, rest[i]);
        assert rest[i] in rest;
        var j: nat :| j in keep && j < n && s[..n][j] == rest[i];
        assert s[j] == rest[i];
      }
    }
  }

  /** Running setEndpoints again on its own output asks for the same endpoints and publishes an
      equal record: no second update is sent. */
  lemma RunIsIdempotent(
    requests: seq<Request>, again: seq<Request>, record: seq<Endpoint>, h: Health, looksLikeIp: string -> bool)
    requires multiset(requests) == multiset(again)
    requires DistinctKeys(requests, Key) && SplitsAgree(ById(record), requests)
    ensures var once := Run(requests, record, h, looksLikeIp);
            Run(again, once, h, looksLikeIp) == once
  {
    var current := ById(record);
    var s := SortBy(requests, Key);
    var selected := Selected(s, h, looksLikeIp);
    var once := Run(requests, record, h, looksLikeIp);
    SortByPermute(requests, again, Key);
    DistinctKeysPermute(requests, s, Key);
    SortMembers(requests, s);
    SortMembers(again, s);
    FullListIsMap(requests, current);
    PublishedIsMap(s, current, h, looksLikeIp);
    SelectedFacts(s, current, h, looksLikeIp);
    var next := ById(once);
    RunAgainRequests(selected, s, current, next);
    FullListIsMap(again, next);
    PublishedIsMap(s, next, h, looksLikeIp);
  }

  lemma SortMembers(a: seq<Request>, s: seq<Request>)
    requires multiset(a) == multiset(s)
    ensures forall r :: r in a <==> r in s
  {
    forall r ensures r in a <==> r in s {
      assert r in a <==> r in multiset(a);
    }
  }

  lemma SelectedFacts(s: seq<Request>, current: map<string, Endpoint>, h: Health, looksLikeIp: string -> bool)
    requires DistinctKeys(s, Key) && SplitsAgree(current, s)
    ensures var selected := Selected(s, h, looksLikeIp);
            DistinctKeys(selected, Key) && SplitsAgree(current, selected) && forall r | r in selected :: r in s
  {
    var healthy := HealthyRequests(s, h);
    HealthyDistinct(s, h);
    SelectDistinct(healthy, Survivors(Map(Realizer(map[]), healthy), looksLikeIp));
    forall r | r in Selected(s, h, looksLikeIp) ensures r in s {
      SelectedSubset(s, h, looksLikeIp, r);
    }
  }

  lemma RunAgainRequests(
    selected: seq<Request>, s: seq<Request>, current: map<string, Endpoint>, next: map<string, Endpoint>)
    requires DistinctKeys(s, Key) && DistinctKeys(selected, Key) && SplitsAgree(current, selected)
    requires (forall r | r in selected :: r in s) && next == ById(Map(Realizer(current), selected))
    ensures SplitsAgree(next, s)
    ensures Map(Realizer(next), selected) == Map(Realizer(current), selected)
  {
    var l := Map(Realizer(current), selected);
    RealizedIds(selected, current);
    forall r | r in s && Key(r) in next ensures next[Key(r)].setIdentifier == r.setIdentifier {
      ByIdOnly(l, Key(r));
      var i :| 0 <= i < |l| && l[i].SetId() == Key(r);
      SameKeySame(s, selected[i], r);
      ByIdFinds(l, i);
      RealizedId(r, current);
    }
    forall i | 0 <= i < |selected| ensures Realizer(next)(selected[i]) == Realizer(current)(selected[i]) {
      ByIdFinds(l, i);
      RealizeAgain(selected[i], current, next);
    }
  }

  lemma SameKeySame(s: seq<Request>, q: Request, r: Request)
    requires DistinctKeys(s, Key) && q in s && r in s && Key(q) == Key(r)
    ensures q == r
  {
    var i :| 0 <= i < |s| && s[i] == q;
    var j :| 0 <= j < |s| && s[j] == r;
  }

  /** The theorem for gateways: unchanged clusters, in any order, and unchanged probes. */
  lemma SecondRunChangesNothing(
    t: GatewayTarget, u: GatewayTarget, host: string, order: seq<string>, other: seq<string>,
    record: seq<Endpoint>, h: Health, looksLikeIp: string -> bool)
    requires SameGateway(t, u) && IsOrder(t, order) && IsOrder(u, other) && Settled(t, LbName(t, host))
    requires DistinctKeys(Requests(t, host, order), Key)
    requires SplitsAgree(ById(record), Requests(t, host, order))
    ensures var once := Run(Requests(t, host, order), record, h, looksLikeIp);
            Run(Requests(u, host, other), once, h, looksLikeIp) == once
  {
    RequestsPermute(t, u, host, order, other);
    RunIsIdempotent(Requests(t, host, order), Requests(u, host, other), record, h, looksLikeIp);
  }

  /** A reused endpoint keeps its labels, set identifier and every provider property other than
      weight and geo-code. */
  lemma ReuseKeepsProperties(t: GatewayTarget, host: string, r: Request, current: map<string, Endpoint>, name: string)
    requires IsKnown(t, host, r) && Key(r) in current && name != WEIGHT && name != GEO_CODE
    ensures var before, after := current[Key(r)], Realize(r, current);
            after.Get(name) == before.Get(name) && after.labels == before.labels &&
              after.setIdentifier == before.setIdentifier
  {
    if r.prop.Some? {
      LookupAssign(current[Key(r)].props, r.prop.value.name, r.prop.value.value, name);
    }
  }

  // ----- exactly what is published -----

  /** When the health filter removed something, either nothing left reaches an IP-looking target and
      the untouched full list is published, or exactly the endpoints are published that passed the
      filter and reach an IP-looking target within three hops through others that passed. */
  lemma PublishedExactly(
    t: GatewayTarget, host: string, order: seq<string>, current: map<string, Endpoint>, h: Health,
    looksLikeIp: string -> bool)
    requires DistinctLabels(t) && ForeignAddresses(t, host) && IsOrder(t, order)
    ensures var full := FullList(Requests(t, host, order), current);
            var healthy := Healthy(full, h.probes, h.gateway, h.listener);
            |healthy| < |full| ==>
              if forall e | e in healthy :: !Reaches(healthy, e, 3, looksLikeIp)
              then Published(full, h, looksLikeIp) == full
              else forall e :: e in Published(full, h, looksLikeIp) <==>
                  e in healthy && Reaches(healthy, e, 3, looksLikeIp)
  {
    var full := FullList(Requests(t, host, order), current);
    var healthy := Healthy(full, h.probes, h.gateway, h.listener);
    hide Healthy, Reaches, Survivors, Select, FullList;
    HealthyAnswers(t, host, order, current, h);
    var kept := Select(healthy, Survivors(healthy, looksLikeIp));
    forall e ensures e in kept <==> e in healthy && Reaches(healthy, e, 3, looksLikeIp) {
      KeptIffReaches(t, host, order, healthy, looksLikeIp, e);
    }
    if kept != [] {
      assert kept[0] in kept;
    }
  }

  lemma KeptIffReaches(
    t: GatewayTarget, host: string, order: seq<string>, l: seq<Endpoint>, looksLikeIp: string -> bool, e: Endpoint)
    requires DistinctLabels(t) && ForeignAddresses(t, host) && IsOrder(t, order) && AllAnswer(l, t, host, order)
    ensures e in Select(l, Survivors(l, looksLikeIp)) <==> e in l && Reaches(l, e, 3, looksLikeIp)
  {
    var keep := Survivors(l, looksLikeIp);
    SelectMembers(l, keep, e);
    if e in Select(l, keep) {
      var i: nat :| i in keep && i < |l| && l[i] == e;
      SurvivesIffReaches(t, host, order, l, i, looksLikeIp);
    }
    if e in l && Reaches(l, e, 3, looksLikeIp) {
      var i :| 0 <= i < |l| && l[i] == e;
      SurvivesIffReaches(t, host, order, l, i, looksLikeIp);
    }
  }

  lemma HealthyAnswers(t: GatewayTarget, host: string, order: seq<string>, current: map<string, Endpoint>, h: Health)
    ensures AllAnswer(Healthy(FullList(Requests(t, host, order), current), h.probes, h.gateway, h.listener), t, host,
            order)
    ensures AllAnswer(FullList(Requests(t, host, order), current), t, host, order)
  {
    var requests := Requests(t, host, order);
    var built, full := Map(Realizer(current), requests), FullList(requests, current);
    forall e | e in full ensures exists r | r in requests :: Answers(e, r) {
      assert e in multiset(full) && e in multiset(built);
      var i :| 0 <= i < |built| && built[i] == e;
      assert requests[i] in requests && Answers(e, requests[i]);
    }
    forall e | e in Healthy(full, h.probes, h.gateway, h.listener) ensures e in full {
      HealthyMembers(full, h.probes, h.gateway, h.listener, e);
    }
  }

  /** If the filter removes nothing there is no pruning: the full list is published, with endpoints that
      reach no IP-looking target, such as CNAMEs to external host names. */
  lemma PublishedUnfiltered(full: seq<Endpoint>, h: Health, looksLikeIp: string -> bool)
    requires forall e | e in full :: !Unhealthy(e, h.probes, h.gateway, h.listener)
    ensures Published(full, h, looksLikeIp) == full
  {
    AllHealthy(full, h);
  }

  lemma {:induction false} AllHealthy(l: seq<Endpoint>, h: Health)
    requires forall e | e in l :: !Unhealthy(e, h.probes, h.gateway, h.listener)
    ensures Healthy(l, h.probes, h.gateway, h.listener) == l
  {
    if l != [] {
      hide Unhealthy;
      AllHealthy(l[1..], h);
      assert l == [l[0]] + l[1..];
    }
  }

  /** The full list is sorted by SetID. */
  lemma FullListSorted(requests: seq<Request>, current: map<string, Endpoint>)
    ensures SortedBy(FullList(requests, current), SetIdOf)
    ensures multiset(FullList(requests, current)) == multiset(Map(Realizer(current), requests))
  {
    hide SortedBy, Map;
    SortBySorted(Map(Realizer(current), requests), SetIdOf);
  }

  /** The endpoint made for a request has its name, targets, type and TTL and the property it asks for; a
      new one has its set identifier, no labels and no other property. */
  lemma EndpointIs(r: Request, current: map<string, Endpoint>)
    ensures var e := Realize(r, current);
            && e.dnsName == r.dnsName && e.targets == r.targets && e.recordType == r.recordType && e.ttl == r.ttl
            && (r.prop.Some? ==> e.Get(r.prop.value.name) == Some(r.prop.value.value))
            && (r.dnsName + r.setIdentifier !in current ==>
                  && e.setIdentifier == r.setIdentifier && e.labels == map[]
                  && e.props == if r.prop.Some? then [r.prop.value] else [])
  {
    if r.prop.Some? {
      var base := CreateOrUpdate(r, Find(current, Key(r)));
      LookupAssign(base.props, r.prop.value.name, r.prop.value.value, r.prop.value.name);
    }
  }

  /** Of several stored endpoints with one SetID the last is reused. */
  lemma {:induction false} ByIdExactly(l: seq<Endpoint>, i: nat)
    requires i < |l| && forall j | i < j < |l| :: l[j].dnsName + l[j].setIdentifier != l[i].dnsName + l[i].setIdentifier
    ensures var id := l[i].dnsName + l[i].setIdentifier; id in ById(l) && ById(l)[id] == l[i]
  {
    var n := |l| - 1;
    if i < n {
      ByIdExactly(l[..n], i);
    }
  }
}

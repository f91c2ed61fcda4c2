/** Inputs that meet the assumptions of the main results. */
module Witness {
  import opened Options
  import opened Strings
  import opened Sorting
  import opened Endpoints
  import opened Build
  import opened Chain
  import opened Ids
  import opened Publish
  import opened GoogleZone
  import opened GoogleTranslate
  import opened GooglePublish
  import opened Reconciler
  import GoogleChain
  import GoogleBatch
  import Route53
  import Grace
  import Placement
  import EndToEnd

  // ----- a gateway on two clusters in two geos -----

  const FIRST := ClusterTarget("a", "EU", 120, [Address(true, "192.0.2.1")])
  const SECOND := ClusterTarget("b", "US", 120, [Address(true, "192.0.2.2")])

  function Gateway(defaultGeo: string): GatewayTarget {
    GatewayTarget("g", [FIRST, SECOND], defaultGeo)
  }

  const LB := "lb-g.h"
  const ORDER := ["EU", "US"]

  lemma Names()
    ensures LbName(Gateway("EU"), "h") == LB
    ensures Below("a", LB)[0] == 'a' && Below("b", LB)[0] == 'b' && Below("EU", LB)[0] == 'e' &&
            Below("US", LB)[0] == 'u'
  {
    assert "lb-" + "g" + "." + "h" == LB;
    assert ToLower(LB) == LB;
    assert ("a" + "." + LB)[0] == 'a' && ("b" + "." + LB)[0] == 'b' && ("EU" + "." + LB)[0] == 'E' &&
      ("US" + "." + LB)[0] == 'U';
  }

  lemma GeosDiffer()
    ensures FIRST.geo != SECOND.geo && FIRST.geo != DEFAULT && SECOND.geo != DEFAULT
    ensures FIRST.geo != "ZZ" && SECOND.geo != "ZZ" && "ZZ" != DEFAULT
  {
    assert "EU"[0] == 'E' && "US"[0] == 'U' && "ZZ"[0] == 'Z';
    assert |DEFAULT| == 7;
  }

  lemma AddressesForeign()
    ensures ForeignAddresses(Gateway("EU"), "h")
  {
    hide LbName, Below;
    Names();
    var t := Gateway("EU");
    forall c, a | c in t.clusters && a in c.addresses ensures !IsOwnName(t, "h", a.value) {
      assert c == FIRST || c == SECOND;
      assert a.value[0] == '1' && "h"[0] == 'h' && LB[0] == 'l';
    }
  }

  lemma LabelsDiffer()
    ensures var t := Gateway("EU"); DistinctLabels(t) && DistinctGeos(t)
  {
    hide DistinctLabels, DistinctGeos;
    assert |ToLower("a")| == 1 && |ToLower("b")| == 1 && |ToLower("EU")| == 2 && |ToLower("US")| == 2;
    assert "a"[0] != '*' && "b"[0] != '*' && "EU"[0] != '*' && "US"[0] != '*';
    assert ToLower("EU")[0] == 'e' && ToLower("US")[0] == 'u';
    TwoLabelled(Gateway("EU"), FIRST, SECOND);
  }

  lemma TwoLabelled(t: GatewayTarget, x: ClusterTarget, y: ClusterTarget)
    requires t.clusters == [x, y] && ToLower(x.geo) != ToLower(y.geo)
    requires ToLower(x.shortCode) != ToLower(x.geo) && ToLower(x.shortCode) != ToLower(y.geo)
    requires ToLower(y.shortCode) != ToLower(x.geo) && ToLower(y.shortCode) != ToLower(y.geo)
    requires !HasPrefix(x.shortCode, "*") && !HasPrefix(y.shortCode, "*") && !HasPrefix(x.geo, "*") &&
             !HasPrefix(y.geo, "*")
    ensures DistinctLabels(t) && DistinctGeos(t)
  {
    hide ToLower, HasPrefix;
    forall g | HasGeo(t, g) ensures g == x.geo || g == y.geo {}
  }

  lemma PartsDiffer()
    ensures DistinctParts(Gateway("EU"), "h")
  {
    hide DistinctLabels, DistinctGeos, ForeignAddresses;
    var t := Gateway("EU");
    LabelsDiffer();
    AddressesForeign();
    NoHosts(FIRST.addresses[0]);
    NoHosts(SECOND.addresses[0]);
    assert ToLower("a")[0] == 'a' && ToLower("b")[0] == 'b';
    assert |LbLabel(t)| == 4;
  }

  lemma NoHosts(a: Address)
    requires a.isIp
    ensures Values([a], false) == []
  {
    assert [a][..0] == [];
  }

  /** Everything the results about setEndpoints and its translation assume. */
  ghost predicate Assumptions(t: GatewayTarget, host: string, order: seq<string>, record: seq<Endpoint>) {
    var requests := Requests(t, host, order);
    && DistinctLabels(t) && ForeignAddresses(t, host) && IsOrder(t, order) && Settled(t, LbName(t, host))
    && requests != [] && DistinctKeys(requests, Key)
    && SplitsAgree(ById(record), requests) && GoogleChain.CleanReuse(ById(record), requests)
  }

  /** A gateway on two clusters meets them all, on a record that has no endpoints yet. */
  lemma GatewayMeetsAssumptions()
    ensures Assumptions(Gateway("EU"), "h", ORDER, [])
  {
    hide Settled, LbName, DistinctKeys, DistinctLabels, ForeignAddresses, HasAddress, ById, Requests,
      FIRST, SECOND, IsOrder;
    var t := Gateway("EU");
    PartsDiffer();
    EuAddressed(t, LbName(t, "h"));
    OrderOf(t);
    IdsDistinct(t, "h", ORDER);
    SomethingAsked(t, "h", ORDER, "EU");
    NoneStored();
  }

  lemma OrderOf(t: GatewayTarget)
    requires IsOrder(t, ORDER)
    ensures NoRepeats(ORDER)
  {}

  lemma SomethingAsked(t: GatewayTarget, host: string, order: seq<string>, geo: string)
    requires geo in order && HasAddress(t, LbName(t, host), geo)
    ensures Requests(t, host, order) != []
  {
    hide Body, HasAddress, LbName, DefaultOf;
    BodyNonEmpty(t, LbName(t, host), order, geo);
  }

  lemma EuAddressed(t: GatewayTarget, lb: string)
    requires t == Gateway("EU")
    ensures Settled(t, lb) && HasAddress(t, lb, "EU") && IsOrder(t, ORDER) && "EU" in ORDER
  {
    hide HasAddress;
    GeosDiffer();
    TwoAddressed(t, lb, FIRST, SECOND);
  }

  lemma NoneStored()
    ensures ById([]) == map[]
  {}

  /** The second cluster goes: the two states of the gateway make a history. */
  lemma HistoryMeetsAssumptions(h: Health)
    ensures var t := Gateway("EU");
            var u := t.(clusters := [FIRST]);
            EndToEnd.History([EndToEnd.Pass(t, ORDER, h), EndToEnd.Pass(u, ["EU"], h)], "h")
  {
    hide DistinctParts, LbName, FIRST, SECOND, ToLower;
    var t := Gateway("EU");
    var u := t.(clusters := [FIRST]);
    PartsDiffer();
    EuAddressed(t, LbName(t, "h"));
    FewerParts(t, u, "h");
    OneGeo(u);
    forall x, y | x in {t, u} && y in {t, u} ensures EndToEnd.Compatible(x, y) {
      PartsCompatible(t, x, y, "h");
    }
  }

  lemma FewerParts(t: GatewayTarget, u: GatewayTarget, host: string)
    requires DistinctParts(t, host) && u == t.(clusters := u.clusters) && u.clusters <= t.clusters
    ensures DistinctParts(u, host)
  {
    hide ToLower, Below, NoRepeats, Apart, IsLabel;
    assert LbName(u, host) == LbName(t, host);
    forall c | c in u.clusters ensures c in t.clusters {}
    forall i, j | 0 <= i < j < |u.clusters| ensures Apart(u.clusters[i], u.clusters[j]) {
      assert Apart(t.clusters[i], t.clusters[j]);
    }
    forall c | c in u.clusters ensures IsLabel(u, c.shortCode) && IsLabel(u, c.geo) {
      SameLabels(t, u, c.shortCode);
      SameLabels(t, u, c.geo);
    }
  }

  lemma SameLabels(t: GatewayTarget, u: GatewayTarget, s: string)
    requires t.shortCode == u.shortCode && IsLabel(t, s)
    ensures IsLabel(u, s)
  {}

  lemma OneGeo(u: GatewayTarget)
    requires u.clusters == [FIRST]
    ensures IsOrder(u, ["EU"])
  {
    assert u.clusters[0] == FIRST && FIRST.geo == "EU";
  }

  lemma PartsCompatible(t: GatewayTarget, x: GatewayTarget, y: GatewayTarget, host: string)
    requires DistinctParts(t, host) && x.shortCode == y.shortCode == t.shortCode
    requires x.clusters <= t.clusters && y.clusters <= t.clusters
    ensures EndToEnd.Compatible(x, y)
  {
    hide ToLower, ForeignAddresses, NoRepeats, AllApart, IsLabel, DistinctGeos;
  }

  // ----- gateways for which the order matters -----

  lemma TwoAddressed(t: GatewayTarget, lb: string, x: ClusterTarget, y: ClusterTarget)
    requires t.clusters == [x, y] && x.addresses != [] && y.addresses != [] && x.geo != y.geo
    ensures forall g :: HasAddress(t, lb, g) <==> g == x.geo || g == y.geo
    ensures HasGeo(t, x.geo) && HasGeo(t, y.geo) && IsOrder(t, [x.geo, y.geo])
  {
    hide HasAddress;
    assert t.clusters[0] == x && t.clusters[1] == y;
    forall g ensures HasAddress(t, lb, g) <==> g == x.geo || g == y.geo {
      AddressedExactly(t, lb, g);
    }
    forall g ensures HasGeo(t, g) <==> g == x.geo || g == y.geo {}
    assert [x.geo, y.geo][0] == x.geo && [x.geo, y.geo][1] == y.geo;
  }

  lemma OrderMattersForTwo(t: GatewayTarget, host: string, x: ClusterTarget, y: ClusterTarget)
    requires t.clusters == [x, y] && x.addresses != [] && y.addresses != [] && ToLower(x.geo) != ToLower(y.geo)
    requires t.defaultGeo != x.geo && DEFAULT != x.geo ==> t.defaultGeo != y.geo && DEFAULT != y.geo
    requires t.defaultGeo != y.geo && DEFAULT != y.geo ==> t.defaultGeo != x.geo && DEFAULT != x.geo
    ensures !OrderIndependent(t, host)
  {
    hide HasAddress, OrderIndependent, ToLower;
    TwoAddressed(t, LbName(t, host), x, y);
    OrderIndependenceExact(t, host, [x.geo, y.geo]);
    assert CanWin(t, LbName(t, host), x.geo) && CanWin(t, LbName(t, host), y.geo);
  }

  /** With a default geo in which the gateway has no cluster the order matters. */
  lemma OrderMattersWithoutDefault()
    ensures !OrderIndependent(Gateway("ZZ"), "h")
  {
    hide OrderIndependent;
    GeosDiffer();
    assert ToLower("EU")[0] == 'e' && ToLower("US")[0] == 'u';
    OrderMattersForTwo(Gateway("ZZ"), "h", FIRST, SECOND);
  }

  /** With an address in the default geo the order still matters if another cluster is labelled "default". */
  lemma OrderMattersWithLabel()
    ensures var t := GatewayTarget("g", [FIRST, SECOND.(geo := DEFAULT)], "EU");
            HasAddress(t, LbName(t, "h"), t.defaultGeo) && !OrderIndependent(t, "h")
  {
    hide OrderIndependent, HasAddress;
    var t := GatewayTarget("g", [FIRST, SECOND.(geo := DEFAULT)], "EU");
    GeosDiffer();
    assert ToLower("EU")[0] == 'e' && ToLower(DEFAULT)[0] == 'd';
    TwoAddressed(t, LbName(t, "h"), FIRST, SECOND.(geo := DEFAULT));
    OrderMattersForTwo(t, "h", FIRST, SECOND.(geo := DEFAULT));
  }

  // ----- a record on a Google zone -----

  /** An endpoint with a target and without provider properties, such as a cluster's A record. */
  ghost predicate Plain(e: Endpoint) {
    e.recordType == A && e.targets != [] && e.props == []
  }

  function PlainRecord(e: Endpoint, parsesAsIp: string -> bool): RecordSet {
    RecordSet(Dotted(e.dnsName, parsesAsIp), e.recordType, e.ttl, e.targets, NoPolicy)
  }

  lemma OneNamed(e: Endpoint)
    ensures Named([e], e.dnsName) == [e] && DnsNames([e]) == {e.dnsName}
  {
    assert [e][..0] == [] && [e][0] == e;
  }

  lemma OneAdded(record: RecordSet, e: Endpoint, parsesAsIp: string -> bool)
    requires record.policy == NoPolicy && Plain(e)
    ensures AddEndpoints(record, [e], false, false, parsesAsIp) == Some(record.(rrdatas := e.targets))
  {
    assert [e][..0] == [];
    assert |A| != |CNAME|;
  }

  lemma PlainTranslates(e: Endpoint, parsesAsIp: string -> bool)
    requires Plain(e)
    ensures Translatable([e], parsesAsIp) && Lists([PlainRecord(e, parsesAsIp)], [e], parsesAsIp)
  {
    hide Named, DnsNames, AddEndpoints, Dotted;
    var r := PlainRecord(e, parsesAsIp);
    OneNamed(e);
    OneAdded(FirstRecord(e.dnsName, e, parsesAsIp), e, parsesAsIp);
    assert TranslateName([e], e.dnsName, parsesAsIp) == Some(r);
    TranslationLists([e], [e.dnsName], [r], parsesAsIp);
  }

  lemma PlainDeletes(e: Endpoint, r: RecordSet, parsesAsIp: string -> bool)
    requires Lists([r], [e], parsesAsIp)
    ensures DeletesExactly([r], [e], ZoneFor([e], map[], parsesAsIp), parsesAsIp)
  {
    hide RecordAt, ZoneFor, Dotted, DnsNames;
    var z := ZoneFor([e], map[], parsesAsIp);
    forall x ensures x in [r] <==> KeyOf(x) in z && z[KeyOf(x)] == x && IsStatusName([e], x.name, parsesAsIp) {
      ZoneForAt([e], map[], parsesAsIp, KeyOf(x));
      if x in [r] {
        OwnName([e], x, parsesAsIp);
      }
    }
  }

  /** A record that is published, then deleted: a run as the results about Google zones assume it. */
  lemma RunMeetsAssumptions(e: Endpoint, parsesAsIp: string -> bool) returns (steps: seq<Step<Visit>>, v: Visit)
    requires Plain(e)
    ensures var record := Record([e], 1, [], 0, true, false, None);
            var start := State(Some(record), map[]);
            var s := After(start, steps, GoogleEnsure(), GoogleDelete());
            && IsNew(record)
            && (forall eps | IsStatusOf(start, steps, eps) :: Admissible(eps, map[], parsesAsIp))
            && PossibleRun(start, steps, GoogleEnsure(), GoogleDelete(), GooglePossible(parsesAsIp))
            && s.record.Some? && s.record.value.deleting && s.record.value.statusEndpoints == [e]
            && PossibleStep(s, Reconciled(ZoneReady, v), GooglePossible(parsesAsIp))
  {
    hide Lists, DeletesExactly, ZoneFor, Admissible, ApplyAll, GoogleBatch.Batches, Plain, PlainRecord, Translatable;
    var record := Record([e], 1, [], 0, true, false, None);
    var start := State(Some(record), map[]);
    var r := PlainRecord(e, parsesAsIp);
    PlainTranslates(e, parsesAsIp);
    PlainDeletes(e, r, parsesAsIp);
    v := Visit([r], [r]);
    var publish: Step<Visit> := Reconciled(ZoneReady, Visit([r], []));
    steps := [publish, RequestDeletion];
    NothingPublished(map[], parsesAsIp);
    PlainAdmissible(e, parsesAsIp);
    NothingToDelete(parsesAsIp);
    BatchesPublish(map[], [], [e], [r], [], parsesAsIp);
    assert steps[..1] == [publish] && [publish][..0] == [];
    var s1 := Take(start, publish, GoogleEnsure(), GoogleDelete());
    assert After(start, [publish], GoogleEnsure(), GoogleDelete()) == s1;
    assert PossibleRun(start, [publish], GoogleEnsure(), GoogleDelete(), GooglePossible(parsesAsIp));
    assert s1.zone == ZoneFor([e], map[], parsesAsIp);
    assert After(start, steps, GoogleEnsure(), GoogleDelete()) ==
      Take(s1, RequestDeletion, GoogleEnsure(), GoogleDelete());
  }

  lemma PlainAdmissible(e: Endpoint, parsesAsIp: string -> bool)
    requires Translatable([e], parsesAsIp)
    ensures Admissible([e], map[], parsesAsIp)
  {}

  lemma NothingToDelete(parsesAsIp: string -> bool)
    ensures DeletesExactly([], [], map[], parsesAsIp)
  {}

  // ----- the same record on a hosted zone -----

  /** A record with one endpoint meets what the results about Route53 assume, in runs without edits. */
  lemma RouteRunMeetsAssumptions(e: Endpoint, steps: seq<Step<Route53.NoSalt>>)
    requires Plain(e) && e.dnsName != "" && forall i | 0 <= i < |steps| :: !steps[i].Edit?
    ensures var start := State<Route53.Zone>.State(Some(Record([e], 1, [], 0, true, false, None)), map[]);
            forall a, b | IsSpecOf(start, steps, a) && IsStatusOf(start, steps, b) ::
                a != [] && Route53.Fit(a, b, map[])
  {
    OneFits(e, []);
    OneFits(e, [e]);
  }

  lemma OneFits(e: Endpoint, status: seq<Endpoint>)
    requires Plain(e) && e.dnsName != "" && (status == [] || status == [e])
    ensures Route53.Fit([e], status, map[])
  {}

  // ----- a stale cluster -----

  /** A cluster is found stale, and the grace period later its work is removed. */
  lemma SteadyRunMeetsAssumptions(
    workname: string, cluster: string, w: Placement.Work) returns (calls: seq<Placement.Call>)
    requires w.owner == workname && w.applied && !w.deleting && w.grace == Grace.NoAnnotation
    ensures calls != [] && Placement.SteadyRun(calls, {}, workname) && Placement.Owned(calls[0].before, workname)
    ensures var stale := Placement.StaleOf(calls[0].before, {}, workname);
            stale == {cluster} && Placement.Ready(calls[0].before, stale, workname, calls[0].start) && |calls| == 2
  {
    var k := Placement.WorkKey(cluster, workname);
    var found, stamped := map[k := w], map[k := w.(grace := Grace.StampAt(0))];
    var at := Placement.Readings(Grace.GRACE, Grace.GRACE, Grace.GRACE, Grace.GRACE);
    var first := Placement.Call(found, stamped, {}, {cluster}, map[], 0, 0);
    var second := Placement.Call(stamped, map[], {}, {cluster}, map[k := at], Grace.GRACE, Grace.GRACE);
    calls := [first, second];
    OneStale(found, k, w);
    OneStale(stamped, k, w.(grace := Grace.StampAt(0)));
    assert Placement.StaleOf(map[], {}, workname) == {};
    assert Placement.StampedBetween(Grace.StampAt(0), 0, 0);
    assert Placement.Steady(first, {}, workname) && Placement.Steady(second, {}, workname);
    assert Placement.Undisturbed(stamped, stamped, workname);
  }

  lemma OneStale(works: Placement.Works, k: Placement.WorkKey, w: Placement.Work)
    requires works == map[k := w] && w.owner == k.name && w.applied && !w.deleting
    ensures Placement.StaleOf(works, {}, k.name) == {k.cluster}
    ensures Placement.UnstampedOf(works, {}, k.name) == if w.grace.DeleteAt? then {} else {k.cluster}
  {
    assert k in works && k == Placement.WorkKey(k.cluster, k.name);
  }
}

/** Working out each cluster's geo and weight (pkg/dns/target.go:68-172). */
module Targets {
  import opened Options
  import opened Strings
  import opened Build

  const GEO_LABEL := "kuadrant.io/lb-attribute-geo-code"

  type Labels = map<string, string>

  /** The gateway on one cluster, with the cluster's labels. */
  datatype ClusterGateway = ClusterGateway(shortCode: string, labels: Labels, addresses: seq<Address>)

  /** A weight for the clusters a label selector matches; None for a selector that is no selector. */
  datatype CustomWeight = CustomWeight(selector: Option<Labels -> bool>, weight: int)

  predicate Matches(cw: CustomWeight, labels: Labels) {
    cw.selector.Some? && cw.selector.value(labels)
  }

  /** None of the first n custom weights is for the cluster. */
  ghost predicate NoneBefore(custom: seq<CustomWeight>, n: int, labels: Labels) {
    forall i | 0 <= i < n && i < |custom| :: !Matches(custom[i], labels) && custom[i].selector.Some?
  }

  ghost predicate FirstMatch(custom: seq<CustomWeight>, n: int, labels: Labels) {
    0 <= n < |custom| && Matches(custom[n], labels) && NoneBefore(custom, n, labels)
  }

  ghost predicate FirstBroken(custom: seq<CustomWeight>, n: int, labels: Labels) {
    0 <= n < |custom| && custom[n].selector.None? && NoneBefore(custom, n, labels)
  }

  /** setWeight: the first custom weight that matches, else the default; a broken selector matters
      only if it is reached. */
  method SetWeight(labels: Labels, defaultWeight: int, custom: seq<CustomWeight>) returns (weight: Option<int>)
    ensures weight.None? <==> exists n :: FirstBroken(custom, n, labels)
    ensures forall n | FirstMatch(custom, n, labels) :: weight == Some(custom[n].weight)
    ensures NoneBefore(custom, |custom|, labels) ==> weight == Some(defaultWeight)
  {
    for k := 0 to |custom|
      invariant NoneBefore(custom, k, labels)
    {
      if custom[k].selector.None? {
        assert FirstBroken(custom, k, labels);
        return None;
      }
      if custom[k].selector.value(labels) {
        return Some(custom[k].weight);
      }
    }
    return Some(defaultWeight);
  }

  /** setGeo: without a configured default geo the cluster's own label is ignored. */
  method SetGeo(labels: Labels, defaultGeo: string) returns (geo: string)
    ensures geo == GeoOf(labels, defaultGeo)
  {
    geo := defaultGeo;
    if geo == DEFAULT {
      return;
    }
    if GEO_LABEL in labels {
      geo := labels[GEO_LABEL];
    }
  }

  function GeoOf(labels: Labels, defaultGeo: string): string {
    if defaultGeo != DEFAULT && GEO_LABEL in labels then labels[GEO_LABEL] else defaultGeo
  }

  /** With a configured default geo the cluster's label decides, and without a label that geo; without one
      every cluster is in "default". */
  lemma GeoExactly(labels: Labels, defaultGeo: string)
    ensures defaultGeo == "default" ==> GeoOf(labels, defaultGeo) == "default"
    ensures defaultGeo != "default" ==>
              GeoOf(labels, defaultGeo) ==
              if "kuadrant.io/lb-attribute-geo-code" in labels then labels["kuadrant.io/lb-attribute-geo-code"]
              else defaultGeo
  {}

  /** The target of one cluster. */
  ghost predicate IsTargetOf(
    t: ClusterTarget, cg: ClusterGateway, defaultGeo: string, defaultWeight: int, custom: seq<CustomWeight>) {
    && t.shortCode == cg.shortCode && t.addresses == cg.addresses && t.geo == GeoOf(cg.labels, defaultGeo)
    && (forall n | FirstMatch(custom, n, cg.labels) :: t.weight == custom[n].weight)
    && (NoneBefore(custom, |custom|, cg.labels) ==> t.weight == defaultWeight)
  }

  ghost predicate TargetsOf(
    ts: seq<ClusterTarget>, cgs: seq<ClusterGateway>, defaultGeo: string, defaultWeight: int,
    custom: seq<CustomWeight>) {
    |ts| == |cgs| && forall i | 0 <= i < |ts| :: IsTargetOf(ts[i], cgs[i], defaultGeo, defaultWeight, custom)
  }

  ghost predicate Broken(cg: ClusterGateway, custom: seq<CustomWeight>) {
    exists n :: FirstBroken(custom, n, cg.labels)
  }

  /** setClusterGatewayTargets: a target for every cluster, in order, or an error if one of them
      meets a broken selector. */
  method SetClusterGatewayTargets(
    cgs: seq<ClusterGateway>, defaultGeo: string, defaultWeight: int, custom: seq<CustomWeight>)
    returns (targets: Option<seq<ClusterTarget>>)
    ensures targets.None? <==> exists cg :: cg in cgs && Broken(cg, custom)
    ensures targets.Some? ==> TargetsOf(targets.value, cgs, defaultGeo, defaultWeight, custom)
  {
    hide FirstMatch, NoneBefore, FirstBroken;
    var out: seq<ClusterTarget> := [];
    for i := 0 to |cgs|
      invariant TargetsOf(out, cgs[..i], defaultGeo, defaultWeight, custom)
      invariant forall j | 0 <= j < i :: !Broken(cgs[j], custom)
    {
      var cg := cgs[i];
      var geo := SetGeo(cg.labels, defaultGeo);
      var weight := SetWeight(cg.labels, defaultWeight, custom);
      if weight.None? {
        assert cg in cgs && Broken(cg, custom);
        return None;
      }
      out := out + [ClusterTarget(cg.shortCode, geo, weight.value, cg.addresses)];
    }
    assert cgs[..|cgs|] == cgs;
    return Some(out);
  }

  ghost predicate AddressedIn(cgs: seq<ClusterGateway>, geo: string, defaultGeo: string) {
    exists i :: 0 <= i < |cgs| && cgs[i].addresses != [] && GeoOf(cgs[i].labels, defaultGeo) == geo
  }

  /** A geo of these clusters that can win the default endpoint. */
  ghost predicate CanWinIn(cgs: seq<ClusterGateway>, geo: string, defaultGeo: string) {
    AddressedIn(cgs, geo, defaultGeo) &&
    (AddressedIn(cgs, DEFAULT, defaultGeo) || AddressedIn(cgs, defaultGeo, defaultGeo) ==>
        geo == DEFAULT || geo == defaultGeo)
  }

  /** What the results on order ask of the targets, in terms of the clusters: a geo has an address if and
      only if a cluster of that label has, and without a configured default geo all is settled. */
  lemma SettledByLabels(
    t: GatewayTarget, cgs: seq<ClusterGateway>, defaultWeight: int, custom: seq<CustomWeight>, lb: string)
    requires TargetsOf(t.clusters, cgs, t.defaultGeo, defaultWeight, custom)
    ensures forall geo :: HasAddress(t, lb, geo) <==> AddressedIn(cgs, geo, t.defaultGeo)
    ensures Settled(t, lb) <==>
            forall g, h | CanWinIn(cgs, g, t.defaultGeo) && CanWinIn(cgs, h, t.defaultGeo) :: ToLower(g) == ToLower(h)
    ensures t.defaultGeo == DEFAULT ==> Settled(t, lb)
  {
    hide FirstMatch, NoneBefore, HasAddress, ToLower;
    forall geo ensures HasAddress(t, lb, geo) <==> AddressedIn(cgs, geo, t.defaultGeo) {
      AddressedByLabels(t, cgs, defaultWeight, custom, lb, geo);
    }
    forall geo ensures CanWin(t, lb, geo) <==> CanWinIn(cgs, geo, t.defaultGeo) {}
  }

  lemma AddressedByLabels(
    t: GatewayTarget, cgs: seq<ClusterGateway>, defaultWeight: int, custom: seq<CustomWeight>, lb: string, geo: string)
    requires TargetsOf(t.clusters, cgs, t.defaultGeo, defaultWeight, custom)
    ensures HasAddress(t, lb, geo) <==> AddressedIn(cgs, geo, t.defaultGeo)
  {
    hide FirstMatch, NoneBefore, HasAddress;
    AddressedExactly(t, lb, geo);
    forall i | 0 <= i < |cgs|
      ensures t.clusters[i] in t.clusters && t.clusters[i].geo == GeoOf(cgs[i].labels, t.defaultGeo) &&
              t.clusters[i].addresses == cgs[i].addresses
    {
      assert IsTargetOf(t.clusters[i], cgs[i], t.defaultGeo, defaultWeight, custom);
    }
    if c :| c in t.clusters && c.geo == geo && c.addresses != [] {
      var i :| 0 <= i < |t.clusters| && t.clusters[i] == c;
      assert cgs[i].addresses != [];
    }
  }
}

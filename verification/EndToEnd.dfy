/** From clusters to zones: the records that setEndpoints reaches for one listener host while clusters come
    and go, and what the reconciler makes of them. What the results about single runs assume of stored
    records and of specs is derived here from the labels of the clusters. */
module EndToEnd {
  import opened Options
  import opened Strings
  import opened Sorting
  import opened Endpoints
  import opened Build
  import opened Chain
  import opened Ids
  import opened Publish
  import opened GoogleTranslate
  import opened Reconciler
  import GoogleZone
  import GoogleChain
  import GooglePublish
  import Route53

  /** One run of setEndpoints: the gateway as it is then, the order the geos are visited in, the probes. */
  datatype Pass = Pass(target: GatewayTarget, order: seq<string>, health: Health)

  ghost function Asked(p: Pass, host: string): seq<Request> {
    Requests(p.target, host, p.order)
  }

  /** The record's endpoints after these runs, none at first. */
  ghost function RecordAfter(passes: seq<Pass>, host: string, looksLikeIp: string -> bool): seq<Endpoint> {
    if passes == [] then []
    else
      var last := passes[|passes| - 1];
      Run(Asked(last, host), RecordAfter(passes[..|passes| - 1], host, looksLikeIp), last.health, looksLikeIp)
  }

  /** Two states of one gateway: no short code of the one is a geo label of the other. */
  ghost predicate Compatible(t: GatewayTarget, u: GatewayTarget) {
    t.shortCode == u.shortCode &&
    forall c, d | c in t.clusters && d in u.clusters ::
      ToLower(c.shortCode) != ToLower(d.geo) && ToLower(c.geo) != ToLower(d.shortCode)
  }

  ghost predicate Sensible(p: Pass, host: string) {
    DistinctParts(p.target, host) && IsOrder(p.target, p.order)
  }

  /** Each state by itself has distinct labels and host names, and all are compatible. */
  ghost predicate History(passes: seq<Pass>, host: string) {
    && (forall i | 0 <= i < |passes| :: Sensible(passes[i], host))
    && (forall i, j | 0 <= i < |passes| && 0 <= j < |passes| :: Compatible(passes[i].target, passes[j].target))
  }

  lemma HistoryPrefix(passes: seq<Pass>, n: nat, host: string)
    requires History(passes, host) && n <= |passes|
    ensures History(passes[..n], host)
  {
    hide Sensible, Compatible;
  }

  // ----- an id tells what it is for -----

  /** The two requests are for the same name, set identifier and type, and set the same property. */
  ghost predicate SameRole(r: Request, q: Request) {
    && r.dnsName == q.dnsName && r.setIdentifier == q.setIdentifier && r.recordType == q.recordType
    && (r.prop.None? <==> q.prop.None?) && (r.prop.Some? ==> r.prop.value.name == q.prop.value.name)
  }

  /** Where the name of a request hangs: at a label below the lb name, at the lb name, or at the host. */
  datatype Place = Code(c: ClusterTarget) | Geo(c: ClusterTarget) | Lb | Top

  function LabelOf(p: Place): string {
    match p
    case Code(c) => c.shortCode
    case Geo(c) => c.geo
    case _ => ""
  }

  ghost predicate At(t: GatewayTarget, host: string, r: Request, p: Place) {
    var lb := LbName(t, host);
    match p
    case Code(c) => c in t.clusters && r.dnsName == Below(c.shortCode, lb) && r.setIdentifier == "" &&
      r.recordType == A && r.prop.None?
    case Geo(c) => c in t.clusters && r.dnsName == Below(c.geo, lb) && r.recordType == CNAME && r.prop.Some? &&
      r.prop.value.name == WEIGHT
    case Lb => r.dnsName == lb && r.recordType == CNAME && r.prop.Some? && r.prop.value.name == GEO_CODE
    case Top => r.dnsName == host && r.setIdentifier == "" && r.recordType == CNAME && r.prop.None?
  }

  lemma PlaceOf(t: GatewayTarget, host: string, r: Request) returns (p: Place)
    requires IsKnown(t, host, r)
    ensures At(t, host, r, p) && r.targets != []
  {
    hide LbName, Below;
    var lb := LbName(t, host);
    if IsAddressRequest(t, lb, r) {
      var c :| c in t.clusters && r == AddressRequest(c, lb);
      p := Code(c);
    } else if IsWeightedRequest(t, lb, r) {
      var c :| c in t.clusters && |r.targets| == 1 && r == WeightedRequest(Below(c.geo, lb), r.targets[0], c.weight);
      p := Geo(c);
    } else if IsLbRequest(t, lb, r) {
      p := Lb;
    } else {
      p := Top;
    }
  }

  lemma LabelFacts(t: GatewayTarget, host: string, p: Place)
    requires DistinctParts(t, host) && (p.Code? || p.Geo?) && p.c in t.clusters
    ensures IsLabel(t, LabelOf(p)) && !HasPrefix(LabelOf(p), "*")
  {
    hide ToLower, ForeignAddresses, AllApart, DistinctGeos, NoRepeats;
  }

  /** Names below the lb name, and ids that start with them, differ from all others. */
  lemma BelowDiffers(t: GatewayTarget, host: string, p: Place, x: string, y: string)
    requires DistinctParts(t, host) && (p.Code? || p.Geo?) && p.c in t.clusters
    ensures Below(LabelOf(p), LbName(t, host)) + x != LbName(t, host) + y
    ensures Below(LabelOf(p), LbName(t, host)) + x != host
  {
    hide Below, LbName, DistinctParts, IsLabel;
    LabelFacts(t, host, p);
    assert DotFree(t.shortCode) by { CodeDotFree(t, host); }
    BelowApartLb(t, host, LabelOf(p), x, y);
    BelowStarts(t, host, LabelOf(p), x);
  }

  lemma CodeDotFree(t: GatewayTarget, host: string)
    requires DistinctParts(t, host)
    ensures DotFree(t.shortCode)
  {}

  lemma LbDiffers(t: GatewayTarget, host: string, x: string)
    ensures LbName(t, host) + x != host
  {
    hide LbName;
    LbNameApart(t, host);
    NotTheHost(LbName(t, host), x, host);
  }

  /** Two names below the lb name with a common id are the same name of the same kind. */
  lemma BelowTells(t: GatewayTarget, u: GatewayTarget, host: string, p: Place, q: Place, x: string, y: string)
    requires DistinctParts(t, host) && DistinctParts(u, host) && Compatible(t, u)
    requires (p.Code? || p.Geo?) && p.c in t.clusters && (q.Code? || q.Geo?) && q.c in u.clusters
    requires Below(LabelOf(p), LbName(t, host)) + x == Below(LabelOf(q), LbName(t, host)) + y
    ensures Below(LabelOf(p), LbName(t, host)) == Below(LabelOf(q), LbName(t, host)) && x == y && (p.Code? <==> q.Code?)
  {
    hide Below, LbName, DistinctParts, ToLower;
    var lb := LbName(t, host);
    assert DotFree(LabelOf(p)) && DotFree(LabelOf(q)) by { LabelFacts(t, host, p); LabelFacts(u, host, q); }
    assert ToLower(LabelOf(p)) == ToLower(LabelOf(q)) by {
      if ToLower(LabelOf(p)) != ToLower(LabelOf(q)) {
        BelowApartIds(LabelOf(p), LabelOf(q), lb, x, y);
      }
    }
    BelowInjective(LabelOf(p), LabelOf(q), lb);
    SameStart(Below(LabelOf(p), lb), x, y);
  }

  lemma SameLbName(t: GatewayTarget, u: GatewayTarget, host: string)
    requires Compatible(t, u)
    ensures LbName(t, host) == LbName(u, host)
  {}

  /** Requests with the same id, from any two states of the gateway, have the same role. */
  lemma KeyTells(t: GatewayTarget, u: GatewayTarget, host: string, r: Request, q: Request)
    requires DistinctParts(t, host) && DistinctParts(u, host) && Compatible(t, u)
    requires IsKnown(t, host, r) && IsKnown(u, host, q) && Key(r) == Key(q)
    ensures SameRole(r, q)
  {
    hide Below, LbName, DistinctParts, IsKnown, Compatible;
    SameLbName(t, u, host);
    var a := PlaceOf(t, host, r);
    var b := PlaceOf(u, host, q);
    PlacesTell(t, u, host, r, a, q, b);
  }

  lemma PlacesTell(t: GatewayTarget, u: GatewayTarget, host: string, r: Request, a: Place, q: Request, b: Place)
    requires DistinctParts(t, host) && DistinctParts(u, host) && Compatible(t, u) && LbName(t, host) == LbName(u, host)
    requires At(t, host, r, a) && At(u, host, q, b) && Key(r) == Key(q)
    ensures SameRole(r, q)
  {
    hide Below, LbName, DistinctParts, Compatible;
    var lb, x, y := LbName(t, host), r.setIdentifier, q.setIdentifier;
    assert (a.Top? ==> Key(r) == host) && (b.Top? ==> Key(q) == host);
    if a.Code? || a.Geo? {
      BelowDiffers(t, host, a, x, y);
      if b.Code? || b.Geo? {
        BelowTells(t, u, host, a, b, x, y);
      }
    } else if b.Code? || b.Geo? {
      BelowDiffers(u, host, b, y, x);
    } else {
      LbDiffers(t, host, x);
      LbDiffers(t, host, y);
      SameStart(lb, x, y);
    }
  }

  // ----- what a run stores -----

  /** Everything a run stores was made for one of its requests, under that request's id. */
  lemma RunStored(requests: seq<Request>, record: seq<Endpoint>, h: Health, looksLikeIp: string -> bool, i: nat)
    returns (r: Request)
    requires DistinctKeys(requests, Key) && SplitsAgree(ById(record), requests)
    requires i < |Run(requests, record, h, looksLikeIp)|
    ensures var e := Run(requests, record, h, looksLikeIp)[i];
            && r in requests && e.SetId() == Key(r) && e.setIdentifier == r.setIdentifier
            && e.dnsName == r.dnsName && e.recordType == r.recordType && e.targets == r.targets
  {
    hide DistinctKeys, Map, SortBy, Selected, ById, Realize;
    var current, s := ById(record), SortBy(requests, Key);
    SortMembers(requests, s);
    DistinctKeysPermute(requests, s, Key);
    FullListIsMap(requests, current);
    PublishedIsMap(s, current, h, looksLikeIp);
    SelectedFacts(s, current, h, looksLikeIp);
    r := Selected(s, h, looksLikeIp)[i];
    assert r in Selected(s, h, looksLikeIp);
    RealizedId(r, current);
    GoogleChain.RealizedTargets(r, current);
  }

  lemma RunDistinct(requests: seq<Request>, record: seq<Endpoint>, h: Health, looksLikeIp: string -> bool)
    requires DistinctKeys(requests, Key) && SplitsAgree(ById(record), requests)
    ensures DistinctKeys(Run(requests, record, h, looksLikeIp), SetIdOf)
  {
    hide DistinctKeys, Map, SortBy, Selected, ById, Realize;
    var current, s := ById(record), SortBy(requests, Key);
    SortMembers(requests, s);
    DistinctKeysPermute(requests, s, Key);
    FullListIsMap(requests, current);
    PublishedIsMap(s, current, h, looksLikeIp);
    SelectedFacts(s, current, h, looksLikeIp);
    RealizedIds(Selected(s, h, looksLikeIp), current);
  }

  lemma AskedDistinct(p: Pass, host: string)
    requires Sensible(p, host)
    ensures DistinctKeys(Asked(p, host), Key)
  {
    hide DistinctParts, DistinctKeys;
    IdsDistinct(p.target, host, p.order);
  }

  lemma AskedKnown(p: Pass, host: string, r: Request)
    requires Sensible(p, host) && r in Asked(p, host)
    ensures IsKnown(p.target, host, r)
  {
    hide IsKnown, DistinctParts, IsOrder;
    RequestKinds(p.target, host, p.order, r);
  }

  lemma AskedTell(p: Pass, next: Pass, host: string, r: Request, q: Request)
    requires Sensible(p, host) && Sensible(next, host) && Compatible(p.target, next.target)
    requires r in Asked(p, host) && q in Asked(next, host) && Key(r) == Key(q)
    ensures SameRole(r, q)
  {
    hide IsKnown, DistinctParts, IsOrder, Asked, Compatible, Key, SameRole;
    AskedKnown(p, host, r);
    AskedKnown(next, host, q);
    KeyTells(p.target, next.target, host, r, q);
  }

  /** What one run stores suits the next. */
  lemma StoredSuits(p: Pass, record: seq<Endpoint>, next: Pass, host: string, looksLikeIp: string -> bool)
    requires Sensible(p, host) && Sensible(next, host) && Compatible(p.target, next.target)
    requires Suits(record, p, host)
    ensures Suits(Run(Asked(p, host), record, p.health, looksLikeIp), next, host)
  {
    hide Sensible, Compatible, Asked, Run, Key, DistinctKeys, SameRole, ById;
    var requests, out := Asked(p, host), Run(Asked(p, host), record, p.health, looksLikeIp);
    AskedDistinct(p, host);
    forall r, q | r in requests && q in Asked(next, host) && Key(r) == Key(q) ensures SameRole(r, q) {
      AskedTell(p, next, host, r, q);
    }
    RunDistinct(requests, record, p.health, looksLikeIp);
    forall q | q in Asked(next, host) && Key(q) in ById(out) ensures ById(out)[Key(q)].setIdentifier ==
      q.setIdentifier {
      ByIdOnly(out, Key(q));
      var i :| 0 <= i < |out| && out[i].SetId() == Key(q);
      ByIdFinds(out, i);
      var r := RunStored(requests, record, p.health, looksLikeIp, i);
      assert SameRole(r, q);
      RoleIds(r, q);
    }
    CleanNext(requests, Asked(next, host), record, p.health, looksLikeIp);
  }

  lemma RoleIds(r: Request, q: Request)
    requires SameRole(r, q)
    ensures r.setIdentifier == q.setIdentifier
  {}

  lemma CleanNext(
    requests: seq<Request>, next: seq<Request>, record: seq<Endpoint>, h: Health, looksLikeIp: string -> bool)
    requires DistinctKeys(requests, Key) && SplitsAgree(ById(record), requests)
    requires GoogleChain.CleanReuse(ById(record), requests)
    requires forall r, q | r in requests && q in next && Key(r) == Key(q) :: SameRole(r, q)
    ensures GoogleChain.CleanReuse(ById(Run(requests, record, h, looksLikeIp)), next)
  {
    hide DistinctKeys, SplitsAgree, GoogleChain.CleanReuse, Run, Key;
    forall r, q | r in requests && q in next && Key(r) == Key(q)
      ensures (r.prop.None? <==> q.prop.None?) && (r.prop.Some? ==> r.prop.value.name == q.prop.value.name)
    {
      assert SameRole(r, q);
    }
    GoogleChain.CleanAfterRun(requests, next, record, h, looksLikeIp);
  }

  /** The stored record is as the results about a run assume it. */
  ghost predicate Suits(record: seq<Endpoint>, p: Pass, host: string) {
    SplitsAgree(ById(record), Asked(p, host)) && GoogleChain.CleanReuse(ById(record), Asked(p, host))
  }

  lemma NothingSuits(p: Pass, host: string)
    ensures Suits([], p, host)
  {
    assert ById([]) == map[];
  }

  /** Every record reached from an empty one, with clusters coming and going, suits the next run. */
  lemma {:induction false} ReachedSuits(passes: seq<Pass>, next: Pass, host: string, looksLikeIp: string -> bool)
    requires History(passes + [next], host)
    ensures Suits(RecordAfter(passes, host, looksLikeIp), next, host)
    decreases |passes|
  {
    hide Sensible, Compatible, Suits, Run, Asked;
    if passes == [] {
      NothingSuits(next, host);
    } else {
      var n := |passes| - 1;
      var front, last, all := passes[..n], passes[n], passes + [next];
      assert all[..n + 1] == front + [last] && all[n] == last && all[n + 1] == next;
      HistoryPrefix(all, n + 1, host);
      ReachedSuits(front, last, host, looksLikeIp);
      StoredSuits(last, RecordAfter(front, host, looksLikeIp), next, host, looksLikeIp);
    }
  }

  /** So running again on a reached record, with the same gateway in any order, changes nothing. */
  lemma SecondRunOfReached(
    passes: seq<Pass>, p: Pass, u: GatewayTarget, other: seq<string>, host: string, looksLikeIp: string -> bool)
    requires History(passes + [p], host) && Settled(p.target, LbName(p.target, host))
    requires SameGateway(p.target, u) && IsOrder(u, other)
    ensures var once := RecordAfter(passes + [p], host, looksLikeIp);
            Run(Requests(u, host, other), once, p.health, looksLikeIp) == once
  {
    hide Run, Settled, LbName, SameGateway, IsOrder, DistinctKeys, SplitsAgree, GoogleChain.CleanReuse, DistinctParts;
    LastOf(passes, p, host);
    ReachedSuits(passes, p, host, looksLikeIp);
    AskedDistinct(p, host);
    assert (passes + [p])[..|passes|] == passes;
    SecondRunChangesNothing(p.target, u, host, p.order, other, RecordAfter(passes, host, looksLikeIp), p.health,
      looksLikeIp);
  }

  lemma LastOf(passes: seq<Pass>, p: Pass, host: string)
    requires History(passes + [p], host)
    ensures Sensible(p, host)
  {
    assert (passes + [p])[|passes|] == p;
  }

  // ----- what is reached can be published -----

  /** The list is what the record holds after some of the runs. */
  ghost predicate IsReached(eps: seq<Endpoint>, passes: seq<Pass>, host: string, looksLikeIp: string -> bool) {
    exists n :: 0 <= n <= |passes| && eps == RecordAfter(passes[..n], host, looksLikeIp)
  }

  /** Unless empty, a reached list was stored by a run that it suited. */
  lemma ReachedBy(passes: seq<Pass>, n: nat, host: string, looksLikeIp: string -> bool)
    requires History(passes, host) && 0 < n <= |passes|
    ensures Sensible(passes[n - 1], host) && DistinctKeys(Asked(passes[n - 1], host), Key)
    ensures var record := RecordAfter(passes[..n - 1], host, looksLikeIp);
            && Suits(record, passes[n - 1], host)
            && RecordAfter(passes[..n], host, looksLikeIp) ==
               Run(Asked(passes[n - 1], host), record, passes[n - 1].health, looksLikeIp)
  {
    hide Sensible, Compatible, Suits, Run, Asked, DistinctKeys;
    assert passes[..n][..n - 1] == passes[..n - 1] && passes[..n] == passes[..n - 1] + [passes[n - 1]];
    HistoryPrefix(passes, n, host);
    ReachedSuits(passes[..n - 1], passes[n - 1], host, looksLikeIp);
    AskedDistinct(passes[n - 1], host);
  }

  /** Everything in a reached list was made for a request of the last run. */
  lemma ReachedFrom(passes: seq<Pass>, n: nat, host: string, looksLikeIp: string -> bool, i: nat) returns (r: Request)
    requires History(passes, host) && 0 < n <= |passes| && i < |RecordAfter(passes[..n], host, looksLikeIp)|
    ensures var e := RecordAfter(passes[..n], host, looksLikeIp)[i];
            && r in Asked(passes[n - 1], host) && IsKnown(passes[n - 1].target, host, r)
            && e.SetId() == Key(r) && e.setIdentifier == r.setIdentifier && e.dnsName == r.dnsName
            && e.recordType == r.recordType && e.targets == r.targets
  {
    hide Sensible, Run, Asked, DistinctKeys, IsKnown, SplitsAgree, Key;
    var p := passes[n - 1];
    ReachedBy(passes, n, host, looksLikeIp);
    r := RunStored(Asked(p, host), RecordAfter(passes[..n - 1], host, looksLikeIp), p.health, looksLikeIp, i);
    AskedKnown(p, host, r);
  }

  // ----- names that a zone can hold -----

  predicate EndsInDot(s: string) {
    s == "" || s[|s| - 1] == '.'
  }

  lemma {:induction false} RemoveAllKeepsEnd(s: string)
    requires !EndsInDot(s)
    ensures !EndsInDot(RemoveAll(s, "*."))
    decreases |s|
  {
    var i := IndexFrom(s, "*.", 0);
    if i <= |s| {
      assert s[i..i + 2][1] == '.';
      RemoveAllKeepsEnd(s[i + 2..]);
    }
  }

  lemma LowerKeepsEnd(s: string)
    requires !EndsInDot(s)
    ensures !EndsInDot(ToLower(s))
  {}

  lemma LbEnds(t: GatewayTarget, host: string)
    requires !EndsInDot(host)
    ensures !EndsInDot(LbName(t, host))
  {
    if HasPrefix(host, "*") {
      RemoveAllKeepsEnd(host);
    }
    var s := "lb-" + t.shortCode + "." + CnameHost(host);
    assert s[|s| - 1] == CnameHost(host)[|CnameHost(host)| - 1];
    LowerKeepsEnd(s);
  }

  lemma BelowEnds(code: string, lb: string)
    requires !EndsInDot(lb)
    ensures !EndsInDot(Below(code, lb))
  {
    var s := code + "." + lb;
    assert s[|s| - 1] == lb[|lb| - 1];
    LowerKeepsEnd(s);
  }

  lemma OwnNameEnds(t: GatewayTarget, host: string, name: string)
    requires !EndsInDot(host) && IsOwnName(t, host, name)
    ensures !EndsInDot(name)
  {
    hide LbName, Below, EndsInDot;
    LbEnds(t, host);
    if IsGeoName(t, host, name) {
      var c :| c in t.clusters && name == Below(c.geo, LbName(t, host));
      BelowEnds(c.geo, LbName(t, host));
    } else if IsClusterName(t, host, name) {
      var c :| c in t.clusters && name == Below(c.shortCode, LbName(t, host));
      BelowEnds(c.shortCode, LbName(t, host));
    }
  }

  /** Some state of the gateway publishes this name. */
  ghost predicate IsNameOf(passes: seq<Pass>, host: string, name: string) {
    exists i :: 0 <= i < |passes| && IsOwnName(passes[i].target, host, name)
  }

  lemma ReachedNames(passes: seq<Pass>, n: nat, host: string, looksLikeIp: string -> bool, name: string)
    requires History(passes, host) && n <= |passes| && name in DnsNames(RecordAfter(passes[..n], host, looksLikeIp))
    ensures n > 0 && IsOwnName(passes[n - 1].target, host, name) && IsNameOf(passes, host, name)
  {
    hide IsOwnName, IsKnown, History;
    var l := RecordAfter(passes[..n], host, looksLikeIp);
    var i :| 0 <= i < |l| && l[i].dnsName == name;
    assert n > 0;
    var r := ReachedFrom(passes, n, host, looksLikeIp, i);
    RequestsAreOwn(passes[n - 1].target, host, r);
  }

  // ----- Google -----

  /** The host is no root name, none of the names is an address, and nobody else has them in the zone. */
  ghost predicate GoogleNames(passes: seq<Pass>, host: string, foreign: GoogleZone.Zone, parsesAsIp: string -> bool) {
    && !EndsInDot(host)
    && (forall name | IsNameOf(passes, host, name) :: !parsesAsIp(name))
    && (forall k, name | k in foreign && IsNameOf(passes, host, name) :: k.name != Dotted(name, parsesAsIp))
  }

  lemma DottedApart(a: string, b: string, parsesAsIp: string -> bool)
    requires !EndsInDot(a) && !EndsInDot(b) && !parsesAsIp(a) && !parsesAsIp(b) && a != b
    ensures Dotted(a, parsesAsIp) != Dotted(b, parsesAsIp)
  {
    assert a == (a + ".")[..|a|] && b == (b + ".")[..|b|];
    NoDotSuffix(a);
    NoDotSuffix(b);
  }

  lemma NoDotSuffix(s: string)
    requires !EndsInDot(s)
    ensures !HasSuffix(s, ".")
  {
    assert s[|s| - 1..][0] == s[|s| - 1];
  }

  lemma ReachedTranslates(
    passes: seq<Pass>, n: nat, host: string, looksLikeIp: string -> bool, parsesAsIp: string -> bool, name: string)
    requires History(passes, host) && n <= |passes| && name in DnsNames(RecordAfter(passes[..n], host, looksLikeIp))
    ensures GoogleChain.Complete(RecordAfter(passes[..n], host, looksLikeIp), name, parsesAsIp)
  {
    hide Run, Requests, DistinctKeys, SplitsAgree, GoogleChain.CleanReuse, GoogleChain.Complete, DnsNames, History,
      IsOwnName;
    ReachedNames(passes, n, host, looksLikeIp, name);
    ReachedBy(passes, n, host, looksLikeIp);
    var p := passes[n - 1];
    GoogleChain.TranslationComplete(
      p.target, host, p.order, RecordAfter(passes[..n - 1], host, looksLikeIp), p.health, looksLikeIp, parsesAsIp,
        name);
  }

  lemma CompleteTranslates(l: seq<Endpoint>, name: string, parsesAsIp: string -> bool)
    requires GoogleChain.Complete(l, name, parsesAsIp)
    ensures TranslateName(l, name, parsesAsIp).Some?
  {}

  /** Every list setEndpoints reaches is as the results about Google zones ask. */
  lemma ReachedAdmissible(
    passes: seq<Pass>, eps: seq<Endpoint>, host: string, foreign: GoogleZone.Zone, looksLikeIp: string -> bool,
    parsesAsIp: string -> bool)
    requires History(passes, host) && GoogleNames(passes, host, foreign, parsesAsIp)
    requires IsReached(eps, passes, host, looksLikeIp)
    ensures GooglePublish.Admissible(eps, foreign, parsesAsIp)
  {
    hide History, DnsNames, RecordAfter, TranslateName, Dotted, EndsInDot, GoogleChain.Complete, IsOwnName, IsNameOf;
    var n :| 0 <= n <= |passes| && eps == RecordAfter(passes[..n], host, looksLikeIp);
    forall name | name in DnsNames(eps)
      ensures IsNameOf(passes, host, name) && !EndsInDot(name) && TranslateName(eps, name, parsesAsIp).Some?
    {
      ReachedNames(passes, n, host, looksLikeIp, name);
      OwnNameEnds(passes[n - 1].target, host, name);
      ReachedTranslates(passes, n, host, looksLikeIp, parsesAsIp, name);
      CompleteTranslates(eps, name, parsesAsIp);
    }
    forall a, b | a in DnsNames(eps) && b in DnsNames(eps) &&
      a != b ensures Dotted(a, parsesAsIp) != Dotted(b, parsesAsIp) {
      DottedApart(a, b, parsesAsIp);
    }
  }

  /** All specs of a run of the reconciler are lists that setEndpoints reached. */
  ghost predicate Edited<Salt>(
    spec: seq<Endpoint>, steps: seq<Step<Salt>>, passes: seq<Pass>, host: string, looksLikeIp: string -> bool) {
    && IsReached(spec, passes, host, looksLikeIp)
    && forall i | 0 <= i < |steps| && steps[i].Edit? :: IsReached(steps[i].spec, passes, host, looksLikeIp)
  }

  lemma EmptyReached(passes: seq<Pass>, host: string, looksLikeIp: string -> bool)
    ensures IsReached([], passes, host, looksLikeIp)
  {
    assert passes[..0] == [] && RecordAfter(passes[..0], host, looksLikeIp) == [];
  }

  lemma ListsReached<Z(!new), Salt(!new)>(
    r: Record, zone: Z, steps: seq<Step<Salt>>, passes: seq<Pass>, host: string, looksLikeIp: string -> bool,
      eps: seq<Endpoint>)
    requires r.statusEndpoints == [] && Edited(r.spec, steps, passes, host, looksLikeIp)
    requires IsStatusOf(State(Some(r), zone), steps, eps)
    ensures IsReached(eps, passes, host, looksLikeIp)
  {
    hide IsReached;
    EmptyReached(passes, host, looksLikeIp);
  }

  /** From clusters to a Google zone: whatever the clusters do, whenever setEndpoints and the reconciler
      run, the zone is the foreign records, untouched, and exactly the translation of the endpoints that
      were published last. */
  lemma GoogleEndToEnd(
    r: Record, passes: seq<Pass>, steps: seq<Step<GooglePublish.Visit>>, host: string, foreign: GoogleZone.Zone,
    looksLikeIp: string -> bool, parsesAsIp: string -> bool)
    requires GooglePublish.IsNew(r) && History(passes, host) && GoogleNames(passes, host, foreign, parsesAsIp)
    requires Edited(r.spec, steps, passes, host, looksLikeIp)
    requires PossibleRun(State(Some(r), foreign), steps, GooglePublish.GoogleEnsure(), GooglePublish.GoogleDelete(),
               GooglePublish.GooglePossible(parsesAsIp))
    ensures var s := After(State(Some(r), foreign), steps, GooglePublish.GoogleEnsure(), GooglePublish.GoogleDelete());
            s.record.Some? ==>
              && IsReached(s.record.value.statusEndpoints, passes, host, looksLikeIp)
              && s.zone == GooglePublish.ZoneFor(s.record.value.statusEndpoints, foreign, parsesAsIp)
              && (s.record.value.observedGeneration == s.record.value.generation ==>
                  s.zone == GooglePublish.ZoneFor(s.record.value.spec, foreign, parsesAsIp))
  {
    hide History, GoogleNames, Edited, IsReached, GooglePublish.Admissible, GooglePublish.ZoneFor, PossibleRun, After,
      IsStatusOf;
    var start := State(Some(r), foreign);
    forall eps | IsStatusOf(start, steps, eps)
      ensures GooglePublish.Admissible(eps, foreign, parsesAsIp) && IsReached(eps, passes, host, looksLikeIp)
    {
      ListsReached(r, foreign, steps, passes, host, looksLikeIp, eps);
      ReachedAdmissible(passes, eps, host, foreign, looksLikeIp, parsesAsIp);
    }
    GooglePublish.GoogleRun(r, foreign, steps, parsesAsIp);
    ListsOfRun(start, steps, GooglePublish.GoogleEnsure(), GooglePublish.GoogleDelete());
  }

  // ----- Route53 -----

  /** Nobody else has the names in the hosted zone. */
  ghost predicate RouteNames(passes: seq<Pass>, host: string, foreign: Route53.Zone) {
    !EndsInDot(host) && forall k, name | k in foreign && IsNameOf(passes, host, name) :: k.name != name
  }

  lemma ReachedSupported(passes: seq<Pass>, n: nat, host: string, looksLikeIp: string -> bool, foreign: Route53.Zone)
    requires History(passes, host) && RouteNames(passes, host, foreign) && n <= |passes|
    ensures var eps := RecordAfter(passes[..n], host, looksLikeIp);
            Route53.AllSupported(eps) && Route53.WellIdentified(eps) && Route53.NoClash(eps, foreign)
  {
    hide History, RecordAfter, IsKnown, IsOwnName, IsNameOf, DnsNames, At;
    var eps := RecordAfter(passes[..n], host, looksLikeIp);
    forall i | 0 <= i < |eps| ensures Route53.IsSupported(eps[i]) && Route53.KeyOf(eps[i]) !in foreign {
      InDnsNames(eps, i);
      ReachedNames(passes, n, host, looksLikeIp, eps[i].dnsName);
      OwnNameEnds(passes[n - 1].target, host, eps[i].dnsName);
      var r := ReachedFrom(passes, n, host, looksLikeIp, i);
      var p := PlaceOf(passes[n - 1].target, host, r);
      PlaceType(passes[n - 1].target, host, r, p);
    }
    ReachedDistinct(passes, n, host, looksLikeIp);
    forall i, j | 0 <= i < j < |eps| ensures eps[i].SetId() != eps[j].SetId() {
      assert SetIdOf(eps[i]) != SetIdOf(eps[j]);
    }
  }

  lemma InDnsNames(eps: seq<Endpoint>, i: nat)
    requires i < |eps|
    ensures eps[i].dnsName in DnsNames(eps)
  {}

  lemma PlaceType(t: GatewayTarget, host: string, r: Request, p: Place)
    requires At(t, host, r, p)
    ensures r.recordType == A || r.recordType == CNAME
  {}

  lemma ReachedDistinct(passes: seq<Pass>, n: nat, host: string, looksLikeIp: string -> bool)
    requires History(passes, host) && n <= |passes|
    ensures DistinctKeys(RecordAfter(passes[..n], host, looksLikeIp), SetIdOf)
  {
    if n > 0 {
      hide History, RecordAfter, Asked, Run, SplitsAgree;
      ReachedBy(passes, n, host, looksLikeIp);
      var p := passes[n - 1];
      RunDistinct(Asked(p, host), RecordAfter(passes[..n - 1], host, looksLikeIp), p.health, looksLikeIp);
    }
  }

  lemma ReachedAlike(passes: seq<Pass>, n: nat, m: nat, host: string, looksLikeIp: string -> bool)
    requires History(passes, host) && n <= |passes| && m <= |passes|
    ensures Route53.IdentifiedAlike(RecordAfter(passes[..n], host, looksLikeIp),
            RecordAfter(passes[..m], host, looksLikeIp))
  {
    hide RecordAfter, Sensible, Compatible, SameRole, Asked, IsKnown, Key;
    var a, b := RecordAfter(passes[..n], host, looksLikeIp), RecordAfter(passes[..m], host, looksLikeIp);
    forall x, y | x in a && y in b ensures x.SetId() == y.SetId() <==> Route53.KeyOf(x) == Route53.KeyOf(y) {
      var i :| 0 <= i < |a| && a[i] == x;
      var j :| 0 <= j < |b| && b[j] == y;
      SomePass(passes, n, host, looksLikeIp, i);
      SomePass(passes, m, host, looksLikeIp, j);
      var r := ReachedFrom(passes, n, host, looksLikeIp, i);
      var q := ReachedFrom(passes, m, host, looksLikeIp, j);
      if x.SetId() == y.SetId() {
        AskedTell(passes[n - 1], passes[m - 1], host, r, q);
        RoleKeys(r, q);
      }
    }
  }

  lemma SomePass(passes: seq<Pass>, n: nat, host: string, looksLikeIp: string -> bool, i: nat)
    requires n <= |passes| && i < |RecordAfter(passes[..n], host, looksLikeIp)|
    ensures n > 0
  {}

  lemma RoleKeys(r: Request, q: Request)
    requires SameRole(r, q)
    ensures r.dnsName == q.dnsName && r.setIdentifier == q.setIdentifier && r.recordType == q.recordType
  {}

  /** Any two lists setEndpoints reaches are as the results about Route53 ask. */
  lemma ReachedFit(
    passes: seq<Pass>, spec: seq<Endpoint>, status: seq<Endpoint>, host: string, foreign: Route53.Zone,
      looksLikeIp: string -> bool)
    requires History(passes, host) && RouteNames(passes, host, foreign)
    requires IsReached(spec, passes, host, looksLikeIp) && IsReached(status, passes, host, looksLikeIp)
    ensures Route53.Fit(spec, status, foreign)
  {
    hide History, RouteNames, RecordAfter, Route53.AllSupported, Route53.WellIdentified, Route53.NoClash,
      Route53.IdentifiedAlike;
    var n :| 0 <= n <= |passes| && spec == RecordAfter(passes[..n], host, looksLikeIp);
    var m :| 0 <= m <= |passes| && status == RecordAfter(passes[..m], host, looksLikeIp);
    ReachedSupported(passes, n, host, looksLikeIp, foreign);
    ReachedSupported(passes, m, host, looksLikeIp, foreign);
    ReachedAlike(passes, m, n, host, looksLikeIp);
  }

  /** From clusters to a hosted zone, as long as setEndpoints always finds an address. */
  lemma RouteEndToEnd(
    r: Record, passes: seq<Pass>, steps: seq<Step<Route53.NoSalt>>, host: string, foreign: Route53.Zone,
    looksLikeIp: string -> bool, codec: Route53.Codec)
    requires GooglePublish.IsNew(r) && History(passes, host) && RouteNames(passes, host, foreign)
    requires Edited(r.spec, steps, passes, host, looksLikeIp)
    requires r.spec != [] && forall i | 0 <= i < |steps| && steps[i].Edit? :: steps[i].spec != []
    ensures var s := After(State(Some(r), foreign), steps, Route53.RouteEnsure(codec), Route53.RouteDelete(codec));
            s.record.Some? ==>
              && IsReached(s.record.value.statusEndpoints, passes, host, looksLikeIp)
              && s.zone == Route53.ZoneFor(s.record.value.statusEndpoints, foreign, codec)
              && (s.record.value.observedGeneration == s.record.value.generation ==>
                  s.zone == Route53.ZoneFor(s.record.value.spec, foreign, codec))
  {
    hide History, RouteNames, Edited, IsReached, Route53.Fit, Route53.ZoneFor, After;
    var start := State(Some(r), foreign);
    forall eps | IsStatusOf(start, steps, eps) ensures IsReached(eps, passes, host, looksLikeIp) {
      ListsReached(r, foreign, steps, passes, host, looksLikeIp, eps);
    }
    forall a, b | IsSpecOf(start, steps, a) && IsStatusOf(start, steps, b) ensures a != [] &&
      Route53.Fit(a, b, foreign) {
      assert IsStatusOf(start, steps, a);
      ReachedFit(passes, a, b, host, foreign, looksLikeIp);
    }
    Route53.RouteRun(r, foreign, steps, codec);
    ListsOfRun(start, steps, Route53.RouteEnsure(codec), Route53.RouteDelete(codec));
  }

  // ----- the zones catch up -----

  /** Whatever happened before, two reconciles with the zone ready make the Google zone that of the
      endpoints the record now has. */
  lemma GoogleCatchesUp(
    r: Record, passes: seq<Pass>, steps: seq<Step<GooglePublish.Visit>>, a: GooglePublish.Visit, b: GooglePublish.Visit,
    host: string, foreign: GoogleZone.Zone, looksLikeIp: string -> bool, parsesAsIp: string -> bool)
    requires GooglePublish.IsNew(r) && History(passes, host) && GoogleNames(passes, host, foreign, parsesAsIp)
    requires Edited(r.spec, steps, passes, host, looksLikeIp)
    requires PossibleRun(State(Some(r), foreign), ThenReady(steps, a, b), GooglePublish.GoogleEnsure(),
               GooglePublish.GoogleDelete(), GooglePublish.GooglePossible(parsesAsIp))
    requires var s := After(State(Some(r), foreign), steps, GooglePublish.GoogleEnsure(), GooglePublish.GoogleDelete());
             s.record.Some? && !s.record.value.deleting
    ensures var s := After(State(Some(r), foreign), steps, GooglePublish.GoogleEnsure(), GooglePublish.GoogleDelete());
            && IsReached(s.record.value.spec, passes, host, looksLikeIp)
            && UpToDate(After(State(Some(r), foreign), ThenReady(steps, a, b), GooglePublish.GoogleEnsure(),
                 GooglePublish.GoogleDelete()), s.record.value.spec, GooglePublish.GoogleZoneFor(foreign, parsesAsIp))
  {
    hide History, GoogleNames, Edited, IsReached, GooglePublish.Admissible, PossibleRun, After, ThenReady, UpToDate;
    var start := State(Some(r), foreign);
    forall eps | IsStatusOf(start, steps, eps)
      ensures GooglePublish.Admissible(eps, foreign, parsesAsIp) && IsReached(eps, passes, host, looksLikeIp)
    {
      ListsReached(r, foreign, steps, passes, host, looksLikeIp, eps);
      ReachedAdmissible(passes, eps, host, foreign, looksLikeIp, parsesAsIp);
    }
    GooglePublish.GoogleSettles(r, foreign, steps, a, b, parsesAsIp);
    ListsOfRun(start, steps, GooglePublish.GoogleEnsure(), GooglePublish.GoogleDelete());
  }

  /** And the hosted zone. */
  lemma RouteCatchesUp(
    r: Record, passes: seq<Pass>, steps: seq<Step<Route53.NoSalt>>, host: string, foreign: Route53.Zone,
    looksLikeIp: string -> bool, codec: Route53.Codec)
    requires GooglePublish.IsNew(r) && History(passes, host) && RouteNames(passes, host, foreign)
    requires Edited(r.spec, steps, passes, host, looksLikeIp)
    requires r.spec != [] && forall i | 0 <= i < |steps| && steps[i].Edit? :: steps[i].spec != []
    requires var s := After(State(Some(r), foreign), steps, Route53.RouteEnsure(codec), Route53.RouteDelete(codec));
             s.record.Some? && !s.record.value.deleting
    ensures var s := After(State(Some(r), foreign), steps, Route53.RouteEnsure(codec), Route53.RouteDelete(codec));
            && IsReached(s.record.value.spec, passes, host, looksLikeIp)
            && UpToDate(After(State(Some(r), foreign), ThenReady(steps, Route53.NoSalt, Route53.NoSalt),
                 Route53.RouteEnsure(codec), Route53.RouteDelete(codec)), s.record.value.spec,
                 Route53.RouteZoneFor(foreign, codec))
  {
    hide History, RouteNames, Edited, IsReached, Route53.Fit, After, ThenReady, UpToDate;
    var start := State(Some(r), foreign);
    forall eps | IsStatusOf(start, steps, eps) ensures IsReached(eps, passes, host, looksLikeIp) {
      ListsReached(r, foreign, steps, passes, host, looksLikeIp, eps);
    }
    forall a, b | IsSpecOf(start, steps, a) && IsStatusOf(start, steps, b) ensures a != [] &&
      Route53.Fit(a, b, foreign) {
      assert IsStatusOf(start, steps, a);
      ReachedFit(passes, a, b, host, foreign, looksLikeIp);
    }
    Route53.RouteSettles(r, foreign, steps, codec);
    ListsOfRun(start, steps, Route53.RouteEnsure(codec), Route53.RouteDelete(codec));
  }
}

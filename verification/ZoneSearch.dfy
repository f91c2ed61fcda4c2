/** Finding the managed zone for a host (pkg/controllers/dnspolicy/dns_helper.go:45-81). The public
    suffix lookup is a parameter. */
module ZoneSearch {
  import opened Strings

  datatype ManagedZone = ManagedZone(name: string, domainName: string)

  datatype Search =
    | Found(zone: ManagedZone, subdomain: string)
    | NoManagedZoneForHost(host: string)
    | NoValidZone(originalHost: string)

  function Domain(z: ManagedZone): string {
    ToLower(z.domainName)
  }

  /** `slice.Find`: the first zone of this domain, or |zones|. */
  function FirstZone(zones: seq<ManagedZone>, domain: string, from: nat): (i: nat)
    requires from <= |zones|
    ensures from <= i <= |zones|
    ensures i < |zones| ==> Domain(zones[i]) == domain
    ensures forall j | from <= j < i :: Domain(zones[j]) != domain
    decreases |zones| - from
  {
    if from == |zones| || Domain(zones[from]) == domain then from else FirstZone(zones, domain, from + 1)
  }

  /** Where the first label ends. */
  function FirstDot(h: string, from: nat): (i: nat)
    requires from <= |h|
    ensures from <= i <= |h|
    ensures i < |h| ==> h[i] == '.'
    ensures forall j | from <= j < i :: h[j] != '.'
    decreases |h| - from
  {
    if from == |h| || h[from] == '.' then from else FirstDot(h, from + 1)
  }

  function FindMatchingManagedZone(
    originalHost: string, host: string, zones: seq<ManagedZone>, publicSuffix: string -> string): Search
    decreases |host|
  {
    if |zones| == 0 then NoManagedZoneForHost(host)
    else
      var h := ToLower(host);
      var dot := FirstDot(h, 0);
      if h == publicSuffix(h) || dot == |h| then NoValidZone(originalHost)
      else
        var parent := h[dot + 1..];
        var i := FirstZone(zones, h, 0);
        if h != originalHost && i < |zones| then
          Found(zones[i], Subdomain(originalHost, zones[i]))
        else
          FindMatchingManagedZone(originalHost, parent, zones, publicSuffix)
  }

  /** What is left of the host without the first `.zone` in it. */
  function Subdomain(originalHost: string, zone: ManagedZone): string {
    RemoveFirst(ToLower(originalHost), "." + Domain(zone))
  }

  // ----- which domains come into question -----

  /** d is h without some of its first labels. */
  predicate LabelSuffix(d: string, h: string) {
    d == h || (|d| < |h| && h[|h| - |d| - 1] == '.' && h[|h| - |d|..] == d)
  }

  /** d has more than one label and, from h up to d, nothing is a public suffix. */
  ghost predicate Eligible(d: string, h: string, publicSuffix: string -> string) {
    && LabelSuffix(d, h) && '.' in d
    && forall x | LabelSuffix(x, h) && |d| <= |x| :: x != publicSuffix(x)
  }

  ghost predicate Candidate(z: ManagedZone, originalHost: string, host: string, publicSuffix: string -> string) {
    Domain(z) != originalHost && Eligible(Domain(z), host, publicSuffix)
  }

  /** The zone at i is the first of the deepest candidates. */
  ghost predicate Deepest(
    zones: seq<ManagedZone>, i: int, originalHost: string, host: string, publicSuffix: string -> string) {
    && 0 <= i < |zones| && Candidate(zones[i], originalHost, host, publicSuffix)
    && (forall z | z in zones && Candidate(z, originalHost, host, publicSuffix) :: |Domain(z)| <= |Domain(zones[i])|)
    && (forall j | 0 <= j < i :: Domain(zones[j]) != Domain(zones[i]))
  }

  lemma SuffixOfSame(a: string, b: string, h: string)
    requires LabelSuffix(a, h) && LabelSuffix(b, h) && |b| <= |a|
    ensures LabelSuffix(b, a)
  {
    if b != h && a != h {
      assert a == h[|h| - |a|..] && b == h[|h| - |b|..];
      if |b| < |a| {
        assert a[|a| - |b| - 1] == h[|h| - |b| - 1];
        assert a[|a| - |b|..] == h[|h| - |b|..];
      }
    }
  }

  /** The label suffixes of h other than h are those of its parent. */
  lemma ParentSuffixes(d: string, h: string)
    requires FirstDot(h, 0) < |h|
    ensures LabelSuffix(d, h) <==> d == h || LabelSuffix(d, h[FirstDot(h, 0) + 1..])
  {
    var dot := FirstDot(h, 0);
    if d != h && LabelSuffix(d, h) {
      BelowParent(d, h, dot);
    }
    if LabelSuffix(d, h[dot + 1..]) {
      AboveParent(d, h, dot);
    }
  }

  lemma BelowParent(d: string, h: string, dot: nat)
    requires dot < |h| && (forall j | 0 <= j < dot :: h[j] != '.') && d != h && LabelSuffix(d, h)
    ensures LabelSuffix(d, h[dot + 1..])
  {
    var at := |h| - |d| - 1;
    assert dot <= at;
    assert at > dot ==> h[dot + 1..][at - dot - 1] == '.';
    assert h[dot + 1..][at - dot..] == h[at + 1..];
  }

  lemma AboveParent(d: string, h: string, dot: nat)
    requires dot < |h| && h[dot] == '.' && LabelSuffix(d, h[dot + 1..])
    ensures LabelSuffix(d, h)
  {
    var parent := h[dot + 1..];
    assert parent[|parent| - |d|..] == h[|h| - |d|..];
  }

  lemma SuffixShorter(d: string, h: string)
    requires LabelSuffix(d, h)
    ensures |d| <= |h| && (|d| == |h| ==> d == h) && (forall c | c in d :: c in h)
  {
    assert d == h[|h| - |d|..];
  }

  lemma EligibleParent(d: string, h: string, publicSuffix: string -> string)
    requires FirstDot(h, 0) < |h| && h != publicSuffix(h)
    ensures Eligible(d, h, publicSuffix) <==> d == h || Eligible(d, h[FirstDot(h, 0) + 1..], publicSuffix)
  {
    hide LabelSuffix;
    var parent := h[FirstDot(h, 0) + 1..];
    assert '.' in h by { assert h[FirstDot(h, 0)] == '.'; }
    ParentSuffixes(d, h);
    ParentSuffixes(h, h);
    forall x ensures LabelSuffix(x, h) <==> x == h || LabelSuffix(x, parent) {
      ParentSuffixes(x, h);
    }
    forall x | LabelSuffix(x, h) ensures |x| <= |h| && (|x| == |h| ==> x == h) {
      SuffixShorter(x, h);
    }
  }

  lemma NoneEligible(d: string, h: string, publicSuffix: string -> string)
    requires FirstDot(h, 0) == |h| || h == publicSuffix(h)
    ensures !Eligible(d, h, publicSuffix)
  {
    assert LabelSuffix(h, h);
    if LabelSuffix(d, h) {
      SuffixShorter(d, h);
    }
  }

  /** What the search should come to. */
  ghost predicate Right(
    r: Search, originalHost: string, host: string, zones: seq<ManagedZone>, publicSuffix: string -> string) {
    match r
    case Found(zone, sub) =>
      && (exists i :: Deepest(zones, i, originalHost, host, publicSuffix) && zone == zones[i])
      && sub == Subdomain(originalHost, zone)
    case NoValidZone(o) => o == originalHost && forall z | z in zones :: !Candidate(z, originalHost, host, publicSuffix)
    case NoManagedZoneForHost(_) => false
  }

  /** The search finds the first zone of the longest domain that comes into question, and fails
      exactly when no zone comes into question. */
  lemma {:induction false} FindsDeepest(
    originalHost: string, host: string, zones: seq<ManagedZone>, publicSuffix: string -> string)
    requires zones != []
    ensures Right(FindMatchingManagedZone(originalHost, host, zones, publicSuffix), originalHost, ToLower(host), zones,
            publicSuffix)
    decreases |host|
  {
    hide Eligible, Subdomain, ToLower, LabelSuffix, Right, Candidate;
    var h := ToLower(host);
    if h == publicSuffix(h) || FirstDot(h, 0) == |h| {
      NoneRight(originalHost, h, zones, publicSuffix);
    } else {
      var parent := h[FirstDot(h, 0) + 1..];
      LowerParent(host, FirstDot(h, 0));
      if h != originalHost && FirstZone(zones, h, 0) < |zones| {
        HereRight(originalHost, h, zones, publicSuffix);
      } else {
        FindsDeepest(originalHost, parent, zones, publicSuffix);
        AboveRight(FindMatchingManagedZone(originalHost, parent, zones, publicSuffix), originalHost, h, zones,
          publicSuffix);
      }
    }
  }

  /** Without zones the error is another one, and says for which host. */
  lemma NoZones(originalHost: string, host: string, publicSuffix: string -> string)
    ensures FindMatchingManagedZone(originalHost, host, [], publicSuffix) == NoManagedZoneForHost(host)
  {}

  lemma NoneRight(originalHost: string, h: string, zones: seq<ManagedZone>, publicSuffix: string -> string)
    requires FirstDot(h, 0) == |h| || h == publicSuffix(h)
    ensures Right(NoValidZone(originalHost), originalHost, h, zones, publicSuffix)
  {
    hide Eligible, ToLower;
    forall z | z in zones ensures !Candidate(z, originalHost, h, publicSuffix) {
      NoneEligible(Domain(z), h, publicSuffix);
    }
  }

  lemma HereRight(originalHost: string, h: string, zones: seq<ManagedZone>, publicSuffix: string -> string)
    requires h != publicSuffix(h) && FirstDot(h, 0) < |h| && h != originalHost && FirstZone(zones, h, 0) < |zones|
    ensures var zone := zones[FirstZone(zones, h, 0)];
            Right(Found(zone, Subdomain(originalHost, zone)), originalHost, h, zones, publicSuffix)
  {
    hide Eligible, ToLower;
    var i := FirstZone(zones, h, 0);
    EligibleParent(h, h, publicSuffix);
    forall z | z in zones && Candidate(z, originalHost, h, publicSuffix) ensures |Domain(z)| <= |h| {
      EligibleShorter(Domain(z), h, publicSuffix);
    }
    assert Deepest(zones, i, originalHost, h, publicSuffix);
  }

  lemma AboveRight(r: Search, originalHost: string, h: string, zones: seq<ManagedZone>, publicSuffix: string -> string)
    requires h != publicSuffix(h) && FirstDot(h, 0) < |h| && (h == originalHost || FirstZone(zones, h, 0) == |zones|)
    requires Right(r, originalHost, h[FirstDot(h, 0) + 1..], zones, publicSuffix)
    ensures Right(r, originalHost, h, zones, publicSuffix)
  {
    hide Eligible, ToLower, Subdomain;
    var parent := h[FirstDot(h, 0) + 1..];
    forall z | z in zones
      ensures Candidate(z, originalHost, h, publicSuffix) <==> Candidate(z, originalHost, parent, publicSuffix)
    {
      EligibleParent(Domain(z), h, publicSuffix);
      assert h != originalHost ==> Domain(z) != h;
    }
    if r.Found? {
      var i :| Deepest(zones, i, originalHost, parent, publicSuffix) && r.zone == zones[i];
      assert Deepest(zones, i, originalHost, h, publicSuffix);
    }
  }

  lemma EligibleShorter(d: string, h: string, publicSuffix: string -> string)
    requires Eligible(d, h, publicSuffix)
    ensures |d| <= |h| && (|d| == |h| ==> d == h)
  {
    SuffixShorter(d, h);
  }

  lemma LowerParent(host: string, dot: nat)
    requires dot < |host|
    ensures ToLower(ToLower(host)[dot + 1..]) == ToLower(host)[dot + 1..]
  {}

  /** A lookup that gives everything from h down to the suffix of h that same suffix, as suffix rules
      without exceptions do. */
  ghost predicate Uniform(h: string, publicSuffix: string -> string) {
    LabelSuffix(publicSuffix(h), h) && forall x | LabelSuffix(x, h) && |publicSuffix(h)| <= |x| ::
        publicSuffix(x) == publicSuffix(h)
  }

  /** Then what comes into question is what lies above the public suffix. */
  lemma EligibleAboveSuffix(d: string, h: string, publicSuffix: string -> string)
    requires Uniform(h, publicSuffix)
    ensures Eligible(d, h, publicSuffix) <==> LabelSuffix(d, h) && |d| > |publicSuffix(h)|
  {
    var s := publicSuffix(h);
    if LabelSuffix(d, h) && |d| > |s| {
      SuffixOfSame(d, s, h);
      assert d[|d| - |s| - 1] == '.';
    }
  }

  /** For a host in lower case only proper parents come into question. */
  lemma ProperParents(host: string, z: ManagedZone, publicSuffix: string -> string)
    requires Candidate(z, host, host, publicSuffix)
    ensures HasSuffix(host, "." + Domain(z))
  {
    hide Domain, LabelSuffix;
    ProperSuffix(Domain(z), host);
  }

  lemma ProperSuffix(d: string, h: string)
    requires LabelSuffix(d, h) && d != h
    ensures HasSuffix(h, "." + d)
  {
    assert h[|h| - |d| - 1..] == "." + h[|h| - |d|..];
  }

  /** A host gets the zone of its own name, which has no place for its records, if and only if it is
      not written in lower case and that zone comes into question. */
  lemma ApexFoundExactly(host: string, zones: seq<ManagedZone>, publicSuffix: string -> string)
    requires zones != []
    ensures var r := FindMatchingManagedZone(host, host, zones, publicSuffix);
            (r.Found? && Domain(r.zone) == ToLower(host)) <==>
            (host != ToLower(host) && Eligible(ToLower(host), ToLower(host), publicSuffix) &&
              HasZone(zones, ToLower(host)))
  {
    hide ToLower, LabelSuffix, FindMatchingManagedZone, Subdomain, Eligible;
    var h := ToLower(host);
    FindsDeepest(host, host, zones, publicSuffix);
    var r := FindMatchingManagedZone(host, host, zones, publicSuffix);
    if r.Found? {
      var i :| Deepest(zones, i, host, h, publicSuffix) && r.zone == zones[i];
      EligibleShorter(Domain(zones[i]), h, publicSuffix);
    }
    if host != h && Eligible(h, h, publicSuffix) && HasZone(zones, h) {
      var z :| z in zones && Domain(z) == h;
      assert Candidate(z, host, h, publicSuffix);
    }
  }

  ghost predicate HasZone(zones: seq<ManagedZone>, domain: string) {
    exists z :: z in zones && Domain(z) == domain
  }

  /** An example: the subdomain is then the host itself. */
  lemma ApexFound()
    ensures var zone := ManagedZone("apex", "a.b");
            FindMatchingManagedZone("A.b", "A.b", [zone], s => "b") == Found(zone, "a.b")
  {
    var zone := ManagedZone("apex", "a.b");
    assert ToLower("A.b") == "a.b" == ToLower("a.b");
    assert "a.b"[0] == 'a' && "a.b"[1] == '.';
    assert FirstDot("a.b", 0) == 1;
    assert Domain(zone) == "a.b";
    assert FirstZone([zone], "a.b", 0) == 0;
    LongerNeverOccurs("a.b", ".a.b");
  }

  lemma LongerNeverOccurs(s: string, p: string)
    requires |s| < |p|
    ensures RemoveFirst(s, p) == s
  {
    assert forall k: nat :: !OccursAt(s, p, k);
  }

  // ----- the order of the zones -----

  /** Whatever the order of the zones, the same domain and subdomain are found, or nothing is; with
      one zone per domain it is the same zone. */
  lemma ZoneOrderIrrelevant(
    originalHost: string, host: string, zones: seq<ManagedZone>, zones': seq<ManagedZone>,
    publicSuffix: string -> string)
    requires forall z :: z in zones <==> z in zones'
    ensures var r, r' := FindMatchingManagedZone(originalHost, host, zones, publicSuffix),
            FindMatchingManagedZone(originalHost, host, zones', publicSuffix);
            && (r.Found? <==> r'.Found?) && (!r.Found? ==> r == r')
            && (r.Found? ==> Domain(r.zone) == Domain(r'.zone) && r.subdomain == r'.subdomain)
            && (r.Found? && (forall y, z | y in zones && z in zones && Domain(y) == Domain(z) :: y == z) ==> r == r')
  {
    assert (zones' == [] || zones'[0] in zones) && (zones == [] || zones[0] in zones');
    if zones != [] {
      hide FindMatchingManagedZone;
      FindsDeepest(originalHost, host, zones, publicSuffix);
      FindsDeepest(originalHost, host, zones', publicSuffix);
      RightIsUnique(FindMatchingManagedZone(originalHost, host, zones, publicSuffix),
        FindMatchingManagedZone(originalHost, host, zones', publicSuffix),
                    originalHost, ToLower(host), zones, zones', publicSuffix);
    }
  }

  lemma RightIsUnique(
    r: Search, r': Search, originalHost: string, h: string, zones: seq<ManagedZone>, zones': seq<ManagedZone>,
    publicSuffix: string -> string)
    requires forall z :: z in zones <==> z in zones'
    requires Right(r, originalHost, h, zones, publicSuffix) && Right(r', originalHost, h, zones', publicSuffix)
    ensures (r.Found? <==> r'.Found?) && (!r.Found? ==> r == r')
    ensures r.Found? ==>
              r.zone in zones && r'.zone in zones && Domain(r.zone) == Domain(r'.zone) && r.subdomain == r'.subdomain
  {
    hide Eligible, ToLower;
    if r.Found? {
      var i :| Deepest(zones, i, originalHost, h, publicSuffix) && r.zone == zones[i];
      assert r.zone in zones' && Candidate(r.zone, originalHost, h, publicSuffix);
    }
    if r'.Found? {
      var i :| Deepest(zones', i, originalHost, h, publicSuffix) && r'.zone == zones'[i];
      assert r'.zone in zones && Candidate(r'.zone, originalHost, h, publicSuffix);
    }
    if r.Found? && r'.Found? {
      SameLength(Domain(r.zone), Domain(r'.zone), h, publicSuffix);
    }
  }

  lemma SameLength(a: string, b: string, h: string, publicSuffix: string -> string)
    requires Eligible(a, h, publicSuffix) && Eligible(b, h, publicSuffix) && |a| == |b|
    ensures a == b
  {
    SuffixOfSame(a, b, h);
  }

  // ----- the subdomain -----

  /** What follows the first `.zone` in the host repeats it; this holds when that is at the end. */
  ghost predicate OnlyRepeats(host: string, dotted: string) {
    RepeatsFrom(host, IndexFrom(host, dotted, 0), |dotted|)
  }

  /** From here on s has the period n. */
  ghost predicate RepeatsFrom(s: string, from: nat, n: nat) {
    forall j | from <= j < |s| - n :: s[j] == s[j + n]
  }

  lemma MovedToEnd(s: string, p: string, first: nat)
    requires HasSuffix(s, p) && first + |p| <= |s|
    ensures s[..first] + s[first + |p|..] + p == s <==> RepeatsFrom(s, first, |p|)
  {
    var moved := s[..first] + s[first + |p|..] + p;
    assert |moved| == |s|;
    forall j | 0 <= j < |s|
      ensures moved[j] == if first <= j < |s| - |p| then s[j + |p|] else s[j]
    {
      MovedAt(s, p, first, j);
    }
    if forall j | first <= j < |s| - |p| :: s[j] == s[j + |p|] {
      assert forall j | 0 <= j < |s| :: moved[j] == s[j];
    }
  }

  lemma MovedAt(s: string, p: string, first: nat, j: nat)
    requires HasSuffix(s, p) && first + |p| <= |s| && j < |s|
    ensures (s[..first] + s[first + |p|..] + p)[j] == if first <= j < |s| - |p| then s[j + |p|] else s[j]
  {
    if j >= |s| - |p| {
      assert s[|s| - |p|..][j - (|s| - |p|)] == p[j - (|s| - |p|)];
    }
  }

  lemma RemovedAndAdded(s: string, p: string)
    requires HasSuffix(s, p)
    ensures RemoveFirst(s, p) + p == s <==> OnlyRepeats(s, p)
  {
    hide IndexFrom, OccursAt, HasSuffix, RepeatsFrom;
    FirstFits(s, p);
    MovedToEnd(s, p, IndexFrom(s, p, 0));
  }

  lemma FirstFits(s: string, p: string)
    requires HasSuffix(s, p)
    ensures IndexFrom(s, p, 0) + |p| <= |s|
  {
    assert OccursAt(s, p, |s| - |p|);
  }

  /** Subdomain and zone make up the host again if and only if what follows the first `.zone` in it
      repeats it. */
  lemma HostRebuiltExactly(host: string, zones: seq<ManagedZone>, publicSuffix: string -> string)
    requires host == ToLower(host) && FindMatchingManagedZone(host, host, zones, publicSuffix).Found?
    ensures var r := FindMatchingManagedZone(host, host, zones, publicSuffix);
            var dotted := "." + Domain(r.zone);
            HasSuffix(host, dotted) && (r.subdomain + dotted == host <==> OnlyRepeats(host, dotted))
  {
    FindsDeepest(host, host, zones, publicSuffix);
    hide FindMatchingManagedZone, ToLower, RemoveFirst, Candidate, HasSuffix, OnlyRepeats;
    var r := FindMatchingManagedZone(host, host, zones, publicSuffix);
    ProperParents(host, r.zone, publicSuffix);
    RemovedAndAdded(host, "." + Domain(r.zone));
  }

  /** So it does when `.zone` occurs only at the end. */
  lemma OnceAtTheEnd(host: string, dotted: string)
    requires HasSuffix(host, dotted) && forall k: nat | OccursAt(host, dotted, k) :: k == |host| - |dotted|
    ensures OnlyRepeats(host, dotted)
  {
    assert OccursAt(host, dotted, |host| - |dotted|);
  }

  /** A zone that comes into question and is the only one is found. */
  lemma OnlyZoneFound(host: string, zone: ManagedZone, publicSuffix: string -> string)
    requires Candidate(zone, host, ToLower(host), publicSuffix)
    ensures FindMatchingManagedZone(host, host, [zone], publicSuffix) == Found(zone, Subdomain(host, zone))
  {
    hide FindMatchingManagedZone, ToLower, Candidate, Subdomain;
    FindsDeepest(host, host, [zone], publicSuffix);
    assert zone in [zone];
  }

  /** A host in which `.zone` occurs earlier as well can get the subdomain of another host. */
  lemma SubdomainOfAnother()
    ensures var host, zone := "w.a.b.c.a.b", ManagedZone("z", "a.b");
            && FindMatchingManagedZone(host, host, [zone], s => "b") == Found(zone, "w.c.a.b")
            && "w.c.a.b" + ".a.b" != host
  {
    hide FindMatchingManagedZone, ToLower, Subdomain, Candidate;
    var host, zone, suffix := "w.a.b.c.a.b", ManagedZone("z", "a.b"), (s: string) => "b";
    ExampleCandidate(suffix);
    OnlyZoneFound(host, zone, suffix);
    SubdomainExample();
    assert ("w.c.a.b" + ".a.b")[2] == 'c' && host[2] == 'a';
  }

  lemma ExampleCandidate(publicSuffix: string -> string)
    requires forall s :: publicSuffix(s) == "b"
    ensures var host := "w.a.b.c.a.b"; Candidate(ManagedZone("z", "a.b"), host, ToLower(host), publicSuffix)
  {
    hide ToLower;
    var host, domain := "w.a.b.c.a.b", "a.b";
    LowerExample();
    assert |host| == 11 && |domain| == 3;
    assert host[7] == '.' && host[8..] == domain && domain[1] == '.';
  }

  lemma SubdomainExample()
    ensures Subdomain("w.a.b.c.a.b", ManagedZone("z", "a.b")) == "w.c.a.b"
  {
    hide ToLower, IndexFrom;
    var host, dotted := "w.a.b.c.a.b", ".a.b";
    LowerExample();
    assert "." + "a.b" == dotted;
    assert host[0] == 'w' && host[0..4][0] == 'w' && !OccursAt(host, dotted, 0);
    assert host[1..5] == dotted && OccursAt(host, dotted, 1);
    assert IndexFrom(host, dotted, 0) == 1;
    assert host[..1] + host[5..] == "w.c.a.b";
  }

  lemma LowerExample()
    ensures ToLower("w.a.b.c.a.b") == "w.a.b.c.a.b" && ToLower("a.b") == "a.b"
  {}
}

/** Health filtering and pruning of a DNS endpoint list
    (pkg/controllers/dnspolicy/dns_helper.go:264-343). */
module Prune {
  import opened Options
  import opened Endpoints

  /** `re.FindAllString(target, -1)` finds something in one of the targets. */
  predicate HasIpTarget(e: Endpoint, looksLikeIp: string -> bool) {
    exists k :: 0 <= k < |e.targets| && looksLikeIp(e.targets[k])
  }

  predicate IsChild(c: Endpoint, parent: Endpoint) {
    c.dnsName in parent.targets
  }

  // ----- reference definition: the greatest closed sub-list -----

  /** keep is a set of positions of l in which everything has an IP-looking target or a child. */
  ghost predicate Closed(l: seq<Endpoint>, keep: set<nat>, looksLikeIp: string -> bool) {
    forall i | i in keep :: i < |l| && Supported(l, keep, i, looksLikeIp)
  }

  ghost predicate Supported(l: seq<Endpoint>, keep: set<nat>, i: nat, looksLikeIp: string -> bool)
    requires i < |l|
  {
    HasIpTarget(l[i], looksLikeIp) || exists j | j in keep :: j < |l| && IsChild(l[j], l[i])
  }

  ghost predicate InClosed(l: seq<Endpoint>, i: nat, looksLikeIp: string -> bool) {
    exists keep: set<nat> :: i in keep && Closed(l, keep, looksLikeIp)
  }

  /** The positions that belong to some closed set. */
  ghost function Survivors(l: seq<Endpoint>, looksLikeIp: string -> bool): set<nat> {
    set i: nat | i < |l| && InClosed(l, i, looksLikeIp)
  }

  /** The sub-list of l at the given positions, in the order of l. */
  ghost function Select<T>(l: seq<T>, keep: set<nat>): seq<T> {
    if l == [] then []
    else Select(l[..|l| - 1], keep) + if |l| - 1 in keep then [l[|l| - 1]] else []
  }

  /** The survivors form the greatest closed set: they are closed, and contain every closed set. */
  lemma SurvivorsGreatest(l: seq<Endpoint>, looksLikeIp: string -> bool)
    ensures Closed(l, Survivors(l, looksLikeIp), looksLikeIp)
    ensures forall keep: set<nat> | Closed(l, keep, looksLikeIp) :: keep <= Survivors(l, looksLikeIp)
  {
    var all := Survivors(l, looksLikeIp);
    forall i | i in all ensures Supported(l, all, i, looksLikeIp) {
      var keep: set<nat> :| i in keep && Closed(l, keep, looksLikeIp);
      assert Supported(l, keep, i, looksLikeIp);
      forall j | j in keep ensures j in all {
        assert InClosed(l, j, looksLikeIp);
      }
    }
    forall keep: set<nat>, i | Closed(l, keep, looksLikeIp) && i in keep ensures i in all {
      assert InClosed(l, i, looksLikeIp);
    }
  }

  // ----- sub-lists given by their positions -----

  ghost predicate Positions(idx: seq<nat>, n: nat) {
    && (forall i | 0 <= i < |idx| :: idx[i] < n)
    && (forall i, j | 0 <= i < j < |idx| :: idx[i] < idx[j])
  }

  ghost function SetOf(idx: seq<nat>): set<nat> {
    set i | i in idx
  }

  lemma SelectLast<T>(l: seq<T>, x: T, keep: set<nat>)
    ensures Select(l + [x], keep) == Select(l, keep) + if |l| in keep then [x] else []
  {
    assert (l + [x])[..|l|] == l;
  }

  /** A list of values at increasing positions is the sub-list selected by those positions. */
  lemma {:induction false} SelectPositions<T>(l: seq<T>, idx: seq<nat>, values: seq<T>)
    requires Positions(idx, |l|)
    requires |values| == |idx| && forall i | 0 <= i < |idx| :: values[i] == l[idx[i]]
    ensures values == Select(l, SetOf(idx))
  {
    if l != [] {
      hide Select;
      var m, n := |idx| - 1, |l| - 1;
      SelectLast(l[..n], l[n], SetOf(idx));
      assert l == l[..n] + [l[n]];
      if m >= 0 && idx[m] == n {
        SelectPositions(l[..n], idx[..m], values[..m]);
        SetOfLast(idx);
        SelectSame(l[..n], SetOf(idx), SetOf(idx[..m]));
        assert values == values[..m] + [l[n]];
      } else {
        SelectPositions(l[..n], idx, values);
        assert n !in SetOf(idx);
        assert values == values + [];
      }
    }
  }

  lemma SetOfLast(idx: seq<nat>)
    requires idx != []
    ensures SetOf(idx) == SetOf(idx[..|idx| - 1]) + {idx[|idx| - 1]}
  {
    assert idx == idx[..|idx| - 1] + [idx[|idx| - 1]];
  }

  lemma {:induction false} SelectSame<T>(l: seq<T>, a: set<nat>, b: set<nat>)
    requires forall i: nat | i < |l| :: i in a <==> i in b
    ensures Select(l, a) == Select(l, b)
  {
    if l != [] {
      SelectSame(l[..|l| - 1], a, b);
    }
  }

  lemma {:induction false} SelectMembers<T>(l: seq<T>, keep: set<nat>, x: T)
    ensures x in Select(l, keep) <==> exists i: nat | i in keep :: i < |l| && l[i] == x
  {
    if l != [] {
      SelectMembers(l[..|l| - 1], keep, x);
      if i: nat :| i in keep && i < |l| - 1 && l[..|l| - 1][i] == x {
        assert l[i] == x;
      }
    }
  }

  // ----- pruning -----

  /** Every listed endpoint named by a target of the parent, once per such target. */
  method FindChildren(endpoints: seq<Endpoint>, parent: Endpoint) returns (found: seq<Endpoint>)
    ensures forall c :: c in found <==> c in endpoints && IsChild(c, parent)
  {
    found := [];
    for i := 0 to |endpoints|
      invariant forall c :: c in found <==> c in endpoints[..i] && IsChild(c, parent)
    {
      ghost var before := found;
      for k := 0 to |parent.targets|
        invariant forall c :: c in found <==> c in before || (c == endpoints[i] && c.dnsName in parent.targets[..k])
      {
        if parent.targets[k] == endpoints[i].dnsName {
          found := found + [endpoints[i]];
        }
      }
      assert parent.targets[..|parent.targets|] == parent.targets;
      assert endpoints[..i + 1] == endpoints[..i] + [endpoints[i]];
    }
    assert endpoints[..|endpoints|] == endpoints;
  }

  /** kept is the sub-list of full at positions idx, and no closed set reaches outside it. */
  ghost predicate Tracks(full: seq<Endpoint>, kept: seq<Endpoint>, idx: seq<nat>, looksLikeIp: string -> bool) {
    && Positions(idx, |full|)
    && |idx| == |kept|
    && (forall i | 0 <= i < |idx| :: kept[i] == full[idx[i]])
    && (forall keep: set<nat> | Closed(full, keep, looksLikeIp) :: keep <= SetOf(idx))
  }

  /** An entry with neither an IP-looking target nor a child in the current list is in no closed set. */
  lemma DropUnsupported(full: seq<Endpoint>, kept: seq<Endpoint>, idx: seq<nat>, i: nat, looksLikeIp: string -> bool)
    requires Tracks(full, kept, idx, looksLikeIp) && i < |kept|
    requires !HasIpTarget(kept[i], looksLikeIp)
    requires forall c | c in kept :: !IsChild(c, kept[i])
    ensures Tracks(full, kept[..i] + kept[i + 1..], idx[..i] + idx[i + 1..], looksLikeIp)
  {
    var idx' := idx[..i] + idx[i + 1..];
    hide IsChild, HasIpTarget;
    forall keep: set<nat> | Closed(full, keep, looksLikeIp) ensures keep <= SetOf(idx') {
      UnsupportedOutside(full, kept, idx, i, keep, looksLikeIp);
      forall x | x in keep ensures x in SetOf(idx') {
        assert x in SetOf(idx);
        var k :| 0 <= k < |idx| && idx[k] == x;
        assert idx'[if k < i then k else k - 1] == x;
      }
    }
  }

  lemma UnsupportedOutside(
    full: seq<Endpoint>, kept: seq<Endpoint>, idx: seq<nat>, i: nat, keep: set<nat>, looksLikeIp: string -> bool)
    requires Tracks(full, kept, idx, looksLikeIp) && i < |kept| && Closed(full, keep, looksLikeIp)
    requires !HasIpTarget(kept[i], looksLikeIp)
    requires forall c | c in kept :: !IsChild(c, kept[i])
    ensures idx[i] !in keep
  {
    hide IsChild, HasIpTarget;
    forall j | j in keep ensures !IsChild(full[j], full[idx[i]]) {
      assert j in SetOf(idx);
      var k :| 0 <= k < |idx| && idx[k] == j;
      assert kept[k] in kept;
    }
    assert !Supported(full, keep, idx[i], looksLikeIp);
  }

  /** A tracked list in which every entry is supported is the greatest closed sub-list. */
  lemma FixpointIsGreatest(full: seq<Endpoint>, kept: seq<Endpoint>, idx: seq<nat>, looksLikeIp: string -> bool)
    requires Tracks(full, kept, idx, looksLikeIp) && Closed(full, SetOf(idx), looksLikeIp)
    ensures kept == Select(full, Survivors(full, looksLikeIp))
  {
    SurvivorsGreatest(full, looksLikeIp);
    assert SetOf(idx) <= Survivors(full, looksLikeIp) <= SetOf(idx);
    assert SetOf(idx) == Survivors(full, looksLikeIp);
    SelectPositions(full, idx, kept);
  }

  /** One pass of the prune loop. The index is not stepped back after a removal, so the entry that
      moves into the gap is not examined in this pass. */
  method PrunePass(
    kept: seq<Endpoint>, removed: nat, looksLikeIp: string -> bool, ghost full: seq<Endpoint>, ghost idx: seq<nat>)
    returns (kept': seq<Endpoint>, removed': nat, ghost idx': seq<nat>)
    requires Tracks(full, kept, idx, looksLikeIp)
    ensures Tracks(full, kept', idx', looksLikeIp)
    ensures removed' - removed == |kept| - |kept'| >= 0
    ensures removed' == removed ==> Closed(full, SetOf(idx'), looksLikeIp)
  {
    kept', removed', idx' := kept, removed, idx;
    var i := 0;
    while i < |kept'|
      invariant 0 <= i && (removed' == removed ==> i <= |kept'|)
      invariant Tracks(full, kept', idx', looksLikeIp)
      invariant removed' - removed == |kept| - |kept'| >= 0
      invariant removed' == removed ==> forall k | 0 <= k < i :: Supported(full, SetOf(idx'), idx'[k], looksLikeIp)
      decreases |kept'| - i
    {
      if !HasIpTarget(kept'[i], looksLikeIp) {
        var children := FindChildren(kept', kept'[i]);
        if |children| == 0 {
          DropUnsupported(full, kept', idx', i, looksLikeIp);
          kept', idx' := kept'[..i] + kept'[i + 1..], idx'[..i] + idx'[i + 1..];
          removed' := removed' + 1;
        } else {
          assert children[0] in kept';
          ghost var j :| 0 <= j < |kept'| && kept'[j] == children[0];
          assert idx'[j] in SetOf(idx');
        }
      }
      i := i + 1;
    }
  }

  /** The counter-driven prune loop. It starts from the number of endpoints the health filter
      removed, counts up on every removal and down on every pass. Whatever the list, duplicates and
      cycles included, it leaves the greatest closed sub-list in the original order, after exactly
      as many passes as endpoints were ever removed. */
  method PruneChildless(full: seq<Endpoint>, removed: nat, looksLikeIp: string -> bool)
    returns (kept: seq<Endpoint>, ghost passes: nat)
    ensures removed == 0 ==> kept == full
    ensures removed > 0 ==> kept == Select(full, Survivors(full, looksLikeIp))
    ensures passes + |kept| == removed + |full|
  {
    kept, passes := full, 0;
    var removedEndpoints := removed;
    ghost var idx: seq<nat> := seq(|full|, i requires 0 <= i => i);
    AllTracked(full, idx, looksLikeIp);
    while removedEndpoints > 0
      invariant Tracks(full, kept, idx, looksLikeIp)
      invariant removedEndpoints >= 0
      invariant passes + removedEndpoints + |kept| == removed + |full|
      invariant passes == 0 ==> kept == full && removedEndpoints == removed
      invariant removed == 0 ==> passes == 0
      invariant passes > 0 && removedEndpoints == 0 ==> Closed(full, SetOf(idx), looksLikeIp)
      decreases removedEndpoints + |kept|
    {
      kept, removedEndpoints, idx := PrunePass(kept, removedEndpoints, looksLikeIp, full, idx);
      removedEndpoints := removedEndpoints - 1;
      passes := passes + 1;
    }
    if removed > 0 {
      FixpointIsGreatest(full, kept, idx, looksLikeIp);
    }
  }

  lemma AllTracked(full: seq<Endpoint>, idx: seq<nat>, looksLikeIp: string -> bool)
    requires |idx| == |full| && forall i: nat | i < |full| :: idx[i] == i
    ensures Tracks(full, full, idx, looksLikeIp)
  {
    forall keep: set<nat>, x | Closed(full, keep, looksLikeIp) && x in keep ensures x in SetOf(idx) {
      assert idx[x] == x;
    }
  }

  // ----- what survives -----

  /** An entry survives if and only if one of its targets looks like an IP address or names an entry that
      survives. */
  lemma SurvivesExactly(l: seq<Endpoint>, i: nat, looksLikeIp: string -> bool)
    requires i < |l|
    ensures i in Survivors(l, looksLikeIp) <==>
            || (exists target | target in l[i].targets :: looksLikeIp(target))
            || (exists j | j in Survivors(l, looksLikeIp) :: j < |l| && l[j].dnsName in l[i].targets)
  {
    var all := Survivors(l, looksLikeIp);
    SurvivorsGreatest(l, looksLikeIp);
    if exists target | target in l[i].targets :: looksLikeIp(target) {
      var target :| target in l[i].targets && looksLikeIp(target);
      var k :| 0 <= k < |l[i].targets| && l[i].targets[k] == target;
      assert HasIpTarget(l[i], looksLikeIp);
    }
    if HasIpTarget(l[i], looksLikeIp) {
      var k :| 0 <= k < |l[i].targets| && looksLikeIp(l[i].targets[k]);
      assert l[i].targets[k] in l[i].targets;
    }
    if Supported(l, all, i, looksLikeIp) {
      WithOne(l, all, i, looksLikeIp);
    } else {
      assert i !in all;
    }
  }

  /** What is supported by the survivors is one of them. */
  lemma WithOne(l: seq<Endpoint>, all: set<nat>, i: nat, looksLikeIp: string -> bool)
    requires i < |l| && all == Survivors(l, looksLikeIp) && Supported(l, all, i, looksLikeIp)
    ensures i in all
  {
    SurvivorsGreatest(l, looksLikeIp);
    var more := all + {i};
    forall k | k in more ensures k < |l| && Supported(l, more, k, looksLikeIp) {
      assert Supported(l, all, k, looksLikeIp);
    }
    assert Closed(l, more, looksLikeIp);
  }

  lemma {:induction false} HealthyLast(
    l: seq<Endpoint>, x: Endpoint, probes: seq<Probe>, gateway: string, listener: string)
    ensures Healthy(l + [x], probes, gateway, listener) ==
            Healthy(l, probes, gateway, listener) + if Unhealthy(x, probes, gateway, listener) then [] else [x]
  {
    hide Unhealthy;
    if l == [] {
      assert [x][1..] == [] && l + [x] == [x];
    } else {
      HealthyLast(l[1..], x, probes, gateway, listener);
      assert (l + [x])[1..] == l[1..] + [x] && (l + [x])[0] == l[0];
    }
  }

  /** The health filter keeps exactly the entries that are healthy, in order. */
  lemma {:induction false} HealthyInOrder(
    l: seq<Endpoint>, keep: set<nat>, probes: seq<Probe>, gateway: string, listener: string)
    requires forall i: nat | i < |l| :: i in keep <==> !Unhealthy(l[i], probes, gateway, listener)
    ensures Healthy(l, probes, gateway, listener) == Select(l, keep)
  {
    if l != [] {
      hide Unhealthy, Healthy;
      var n := |l| - 1;
      HealthyInOrder(l[..n], keep, probes, gateway, listener);
      HealthyLast(l[..n], l[n], probes, gateway, listener);
      assert l == l[..n] + [l[n]];
    }
  }

  /** A probe is failing if and only if it reports unhealthy and has a threshold that its failures reach. */
  lemma FailingExactly(e: Endpoint, probes: seq<Probe>, gateway: string, listener: string)
    ensures Unhealthy(e, probes, gateway, listener) <==>
            exists p, target | p in probes && target in e.targets ::
              && p.name == target + "-" + gateway + "-" + listener
              && p.healthy == Some(false) && p.failureThreshold.Some?
              && p.consecutiveFailures >= p.failureThreshold.value
  {
    if Unhealthy(e, probes, gateway, listener) {
      var p :| p in probes && Watches(p, e, gateway, listener) && IsFailing(p);
      var k :| 0 <= k < |e.targets| && ProbeName(e.targets[k], gateway, listener) == p.name;
      assert e.targets[k] in e.targets;
    }
    if p, target :|
      && p in probes && target in e.targets && p.name == target + "-" + gateway + "-" + listener
      && p.healthy == Some(false) && p.failureThreshold.Some? && p.consecutiveFailures >= p.failureThreshold.value
    {
      var k :| 0 <= k < |e.targets| && e.targets[k] == target;
      assert ProbeName(e.targets[k], gateway, listener) == p.name;
      assert Watches(p, e, gateway, listener);
    }
  }

  /** e reaches an IP-looking target through entries of l in at most hops steps. */
  ghost predicate Reaches(l: seq<Endpoint>, e: Endpoint, hops: nat, looksLikeIp: string -> bool)
    decreases hops
  {
    HasIpTarget(e, looksLikeIp) ||
    (hops > 0 && exists c | c in l :: IsChild(c, e) && Reaches(l, c, hops - 1, looksLikeIp))
  }

  /** A rank that falls from parent to child: the list has no CNAME cycle. */
  ghost predicate Ranked(l: seq<Endpoint>, rank: Endpoint -> nat) {
    forall p, c | p in l && c in l && IsChild(c, p) :: rank(c) < rank(p)
  }

  lemma {:induction false} ReachesMore(l: seq<Endpoint>, e: Endpoint, hops: nat, more: nat, looksLikeIp: string -> bool)
    requires Reaches(l, e, hops, looksLikeIp) && hops <= more
    ensures Reaches(l, e, more, looksLikeIp)
    decreases hops
  {
    if !HasIpTarget(e, looksLikeIp) {
      var c :| c in l && IsChild(c, e) && Reaches(l, c, hops - 1, looksLikeIp);
      ReachesMore(l, c, hops - 1, more - 1, looksLikeIp);
    }
  }

  /** In any list, whatever reaches an IP-looking target survives. */
  lemma ReachingSurvives(l: seq<Endpoint>, i: nat, hops: nat, looksLikeIp: string -> bool)
    requires i < |l| && Reaches(l, l[i], hops, looksLikeIp)
    ensures i in Survivors(l, looksLikeIp)
  {
    var keep := set j: nat | j < |l| && Reaches(l, l[j], hops, looksLikeIp);
    forall j | j in keep ensures Supported(l, keep, j, looksLikeIp) {
      if !HasIpTarget(l[j], looksLikeIp) {
        var c :| c in l && IsChild(c, l[j]) && Reaches(l, c, hops - 1, looksLikeIp);
        ReachesMore(l, c, hops - 1, hops, looksLikeIp);
        var k :| 0 <= k < |l| && l[k] == c;
        assert k in keep;
      }
    }
    assert i in keep && Closed(l, keep, looksLikeIp);
    assert InClosed(l, i, looksLikeIp);
  }

  /** Without cycles the survivors are exactly what reaches an IP-looking target, and within as
      many hops as the rank allows. */
  lemma {:induction false} SurvivorsReach(l: seq<Endpoint>, rank: Endpoint -> nat, i: nat, looksLikeIp: string -> bool)
    requires Ranked(l, rank) && i < |l|
    ensures i in Survivors(l, looksLikeIp) <==> Reaches(l, l[i], rank(l[i]), looksLikeIp)
    decreases rank(l[i])
  {
    hide Survivors, Reaches, Ranked;
    if Reaches(l, l[i], rank(l[i]), looksLikeIp) {
      ReachingSurvives(l, i, rank(l[i]), looksLikeIp);
    }
    if i in Survivors(l, looksLikeIp) {
      var j := SupportingChild(l, i, looksLikeIp);
      if j < |l| {
        RankFalls(l, rank, l[i], l[j]);
        SurvivorsReach(l, rank, j, looksLikeIp);
        ReachesMore(l, l[j], rank(l[j]), rank(l[i]) - 1, looksLikeIp);
        ReachesThrough(l, l[i], l[j], rank(l[i]), looksLikeIp);
      } else {
        ReachesDirectly(l, l[i], rank(l[i]), looksLikeIp);
      }
    }
  }

  /** A survivor has an IP-looking target itself (j == |l|) or a surviving child at j. */
  lemma SupportingChild(l: seq<Endpoint>, i: nat, looksLikeIp: string -> bool) returns (j: nat)
    requires i in Survivors(l, looksLikeIp)
    ensures i < |l| && j <= |l|
    ensures j < |l| ==> j in Survivors(l, looksLikeIp) && IsChild(l[j], l[i])
    ensures j == |l| ==> HasIpTarget(l[i], looksLikeIp)
  {
    SurvivorsGreatest(l, looksLikeIp);
    assert Supported(l, Survivors(l, looksLikeIp), i, looksLikeIp);
    if HasIpTarget(l[i], looksLikeIp) {
      j := |l|;
    } else {
      j :| j in Survivors(l, looksLikeIp) && j < |l| && IsChild(l[j], l[i]);
    }
  }

  lemma RankFalls(l: seq<Endpoint>, rank: Endpoint -> nat, p: Endpoint, c: Endpoint)
    requires Ranked(l, rank) && p in l && c in l && IsChild(c, p)
    ensures rank(c) < rank(p)
  {}

  lemma ReachesThrough(l: seq<Endpoint>, e: Endpoint, c: Endpoint, hops: nat, looksLikeIp: string -> bool)
    requires hops > 0 && c in l && IsChild(c, e) && Reaches(l, c, hops - 1, looksLikeIp)
    ensures Reaches(l, e, hops, looksLikeIp)
  {}

  lemma ReachesDirectly(l: seq<Endpoint>, e: Endpoint, hops: nat, looksLikeIp: string -> bool)
    requires HasIpTarget(e, looksLikeIp)
    ensures Reaches(l, e, hops, looksLikeIp)
  {}

  /** Only names and targets matter. */
  predicate SameShape(a: Endpoint, b: Endpoint) {
    a.dnsName == b.dnsName && a.targets == b.targets
  }

  lemma SurvivorsOfSameShape(a: seq<Endpoint>, b: seq<Endpoint>, looksLikeIp: string -> bool)
    requires |a| == |b| && forall i | 0 <= i < |a| :: SameShape(a[i], b[i])
    ensures Survivors(a, looksLikeIp) == Survivors(b, looksLikeIp)
  {
    ClosedOfSameShape(a, b, Survivors(a, looksLikeIp), looksLikeIp);
    ClosedOfSameShape(b, a, Survivors(b, looksLikeIp), looksLikeIp);
    SurvivorsGreatest(a, looksLikeIp);
    SurvivorsGreatest(b, looksLikeIp);
  }

  lemma ClosedOfSameShape(a: seq<Endpoint>, b: seq<Endpoint>, keep: set<nat>, looksLikeIp: string -> bool)
    requires |a| == |b| && forall i | 0 <= i < |a| :: SameShape(a[i], b[i])
    ensures Closed(a, keep, looksLikeIp) ==> Closed(b, keep, looksLikeIp)
  {
    if Closed(a, keep, looksLikeIp) {
      forall i | i in keep ensures Supported(b, keep, i, looksLikeIp) {
        assert Supported(a, keep, i, looksLikeIp);
        if !HasIpTarget(a[i], looksLikeIp) {
          var j :| j in keep && j < |a| && IsChild(a[j], a[i]);
          assert IsChild(b[j], b[i]);
        } else {
          assert a[i].targets == b[i].targets;
        }
      }
    }
  }

  /** Two entries with the same targets survive together. */
  lemma TwinsSurviveTogether(l: seq<Endpoint>, i: nat, j: nat, looksLikeIp: string -> bool)
    requires i < |l| && j < |l| && l[i].targets == l[j].targets
    requires i in Survivors(l, looksLikeIp)
    ensures j in Survivors(l, looksLikeIp)
  {
    var all := Survivors(l, looksLikeIp);
    SurvivorsGreatest(l, looksLikeIp);
    assert Supported(l, all, i, looksLikeIp);
    var keep := all + {j};
    forall k | k in keep ensures Supported(l, keep, k, looksLikeIp) {
      var same := if k == j then i else k;
      assert Supported(l, all, same, looksLikeIp);
      if !HasIpTarget(l[k], looksLikeIp) {
        assert !HasIpTarget(l[same], looksLikeIp);
        var c :| c in all && c < |l| && IsChild(l[c], l[same]);
        assert c in keep && IsChild(l[c], l[k]);
      }
    }
    assert Closed(l, keep, looksLikeIp);
  }

  // ----- the health filter -----

  /** A DNSHealthCheckProbe: its name, failure threshold and status. */
  datatype Probe = Probe(name: string, failureThreshold: Option<int>, healthy: Option<bool>, consecutiveFailures: int)

  function ProbeName(target: string, gateway: string, listener: string): string {
    target + "-" + gateway + "-" + listener
  }

  predicate IsFailing(p: Probe) {
    p.healthy == Some(false) && p.failureThreshold.Some? && p.consecutiveFailures >= p.failureThreshold.value
  }

  predicate Watches(p: Probe, e: Endpoint, gateway: string, listener: string) {
    exists k :: 0 <= k < |e.targets| && ProbeName(e.targets[k], gateway, listener) == p.name
  }

  /** Some probe of some target is failing. */
  predicate Unhealthy(e: Endpoint, probes: seq<Probe>, gateway: string, listener: string) {
    exists p | p in probes :: Watches(p, e, gateway, listener) && IsFailing(p)
  }

  function Healthy(l: seq<Endpoint>, probes: seq<Probe>, gateway: string, listener: string): seq<Endpoint> {
    if l == [] then []
    else (if Unhealthy(l[0], probes, gateway, listener) then [] else
        [l[0]]) + Healthy(l[1..], probes, gateway, listener)
  }

  method GetProbesForEndpoint(
    e: Endpoint, probes: seq<Probe>, gateway: string, listener: string) returns (found: seq<Probe>)
    ensures forall p :: p in found <==> p in probes && Watches(p, e, gateway, listener)
  {
    found := [];
    for i := 0 to |probes|
      invariant forall p :: p in found <==> p in probes[..i] && Watches(p, e, gateway, listener)
    {
      ghost var before := found;
      for k := 0 to |e.targets|
        invariant forall p :: p in found <==> (p in before ||
            (p == probes[i] && exists j :: 0 <= j < k && ProbeName(e.targets[j], gateway, listener) == p.name))
      {
        if ProbeName(e.targets[k], gateway, listener) == probes[i].name {
          found := found + [probes[i]];
        }
      }
      assert probes[..i + 1] == probes[..i] + [probes[i]];
    }
    assert probes[..|probes|] == probes;
  }

  /** Does any probe of the endpoint report it unhealthy for long enough? */
  method HasFailingProbe(e: Endpoint, probes: seq<Probe>, gateway: string, listener: string) returns (failing: bool)
    ensures failing <==> Unhealthy(e, probes, gateway, listener)
  {
    var checkProbes := GetProbesForEndpoint(e, probes, gateway, listener);
    for k := 0 to |checkProbes|
      invariant forall j | 0 <= j < k :: !IsFailing(checkProbes[j])
    {
      if IsFailing(checkProbes[k]) {
        assert checkProbes[k] in checkProbes;
        return true;
      }
    }
    return false;
  }

  lemma HealthyStep(l: seq<Endpoint>, i: nat, probes: seq<Probe>, gateway: string, listener: string)
    requires i < |l|
    ensures Healthy(l[i..], probes, gateway, listener) ==
            (if Unhealthy(l[i], probes, gateway, listener) then [] else
                [l[i]]) + Healthy(l[i + 1..], probes, gateway, listener)
  {
    assert l[i..][1..] == l[i + 1..];
  }

  /** The in-place health filter: it steps its index back after a removal, so it removes exactly
      the unhealthy endpoints, and counts them. */
  method RemoveUnhealthy(endpoints: seq<Endpoint>, probes: seq<Probe>, gateway: string, listener: string)
    returns (kept: seq<Endpoint>, removed: nat)
    ensures kept == Healthy(endpoints, probes, gateway, listener)
    ensures removed == |endpoints| - |kept|
  {
    hide Healthy, Unhealthy;
    kept, removed := endpoints, 0;
    var i := 0;
    while i < |kept|
      invariant 0 <= i <= |kept|
      invariant removed == |endpoints| - |kept|
      invariant Healthy(endpoints, probes, gateway, listener) ==
                kept[..i] + Healthy(kept[i..], probes, gateway, listener)
      decreases |kept| - i
    {
      var failing := HasFailingProbe(kept[i], probes, gateway, listener);
      HealthyStep(kept, i, probes, gateway, listener);
      if failing {
        var rest := kept[..i] + kept[i + 1..];
        assert rest[..i] == kept[..i] && rest[i..] == kept[i + 1..];
        kept := rest;
        removed := removed + 1;
      } else {
        assert kept[..i + 1] == kept[..i] + [kept[i]];
        i := i + 1;
      }
    }
    HealthyNone(kept[i..], probes, gateway, listener);
  }

  lemma HealthyNone(l: seq<Endpoint>, probes: seq<Probe>, gateway: string, listener: string)
    requires l == []
    ensures Healthy(l, probes, gateway, listener) == []
  {}

  lemma {:induction false} HealthyMembers(
    l: seq<Endpoint>, probes: seq<Probe>, gateway: string, listener: string, e: Endpoint)
    ensures e in Healthy(l, probes, gateway, listener) <==> e in l && !Unhealthy(e, probes, gateway, listener)
  {
    if l != [] {
      HealthyMembers(l[1..], probes, gateway, listener, e);
      assert l == [l[0]] + l[1..];
    }
  }
}

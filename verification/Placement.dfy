/** Placing a gateway on clusters through manifest works, with graceful removal
    (pkg/placement/ocm.go:103-267 and 454-480, pkg/_internal/gracePeriod/gracePeriod.go). */
module Placement {
  import opened Options
  import opened Grace

  const RBAC := "gateway-rbac"

  datatype WorkKey = WorkKey(cluster: string, name: string)

  /** A ManifestWork: its workload, the WorkManifestLabel, the grace annotation and what its status and
      metadata say. */
  datatype Work = Work(spec: string, owner: string, grace: Annotation, applied: bool, deleting: bool)

  type Works = map<WorkKey, Work>
  type Removals = map<WorkKey, Readings>

  // ----- the hub's API -----

  datatype Fetched = Found(work: Work) | Missing | Unreachable

  /** The hub: the stored works, the ManagedClusters, a clock and an API of which any call may fail.
      history has the works after every write, and removed the times read for each graceful removal. */
  class Hub {
    const fails: nat -> bool
    const clock: nat -> int
    var works: Works
    var managed: set<string>
    var calls: nat
    var ticks: nat
    ghost var history: seq<Works>
    ghost var removed: Removals

    constructor (fails: nat -> bool, clock: nat -> int, works: Works, managed: set<string>)
      ensures this.fails == fails && this.clock == clock && this.works == works && this.managed == managed
      ensures history == [] && removed == map[]
    {
      this.fails, this.clock, this.works, this.managed := fails, clock, works, managed;
      calls, ticks, history, removed := 0, 0, [], map[];
    }

    method Now() returns (t: int)
      modifies this`ticks
      ensures t == clock(old(ticks)) && ticks == old(ticks) + 1
    {
      t := clock(ticks);
      ticks := ticks + 1;
    }

    method Get(k: WorkKey) returns (r: Fetched)
      modifies this`calls
      ensures calls == old(calls) + 1
      ensures r == if fails(old(calls)) then Unreachable else if k in works then Found(works[k]) else Missing
    {
      r := if fails(calls) then Unreachable else if k in works then Found(works[k]) else Missing;
      calls := calls + 1;
    }

    /** Create or Update. */
    method Write(k: WorkKey, w: Work) returns (ok: bool)
      modifies this`calls, this`works, this`history
      ensures calls == old(calls) + 1 && ok == !fails(old(calls))
      ensures works == if ok then old(works)[k := w] else old(works)
      ensures history == if ok then old(history) + [works] else old(history)
    {
      ok := !fails(calls);
      calls := calls + 1;
      if ok {
        works := works[k := w];
        history := history + [works];
      }
    }

    /** Delete, for which a missing object is no error. */
    method Delete(k: WorkKey) returns (ok: bool)
      modifies this`calls, this`works, this`history
      ensures calls == old(calls) + 1 && ok == !fails(old(calls))
      ensures works == if ok then old(works) - {k} else old(works)
      ensures history == if ok then old(history) + [works] else old(history)
    {
      ok := !fails(calls);
      calls := calls + 1;
      if ok {
        works := works - {k};
        history := history + [works];
      }
    }

    /** No API call in this range fails. */
    ghost predicate Fine(from: nat, to: nat) {
      forall n: nat | from <= n < to :: !fails(n)
    }

    /** These are consecutive readings of the clock, from this one on. */
    ghost predicate Reads(t: Readings, from: nat) {
      t.t0 == clock(from) && t.t1 == clock(from + 1) && t.t2 == clock(from + 2) && t.t3 in {t.t2, clock(from + 3)}
    }

    ghost predicate Monotone() {
      forall m: nat, n: nat | m <= n :: clock(m) <= clock(n)
    }

    lemma InOrder(n: nat)
      requires Monotone()
      ensures clock(n) <= clock(n + 1) <= clock(n + 2) <= clock(n + 3) <= clock(n + 4)
    {}

    /** createUpdateManifest. A work that exists keeps its label, its grace annotation and its status.
        When the Get fails for another reason than absence, the code goes on to update an object
        without a resource version, which the API server refuses. */
    method CreateUpdateManifest(k: WorkKey, spec: string, owner: string) returns (ok: bool)
      modifies this`calls, this`works, this`history
      ensures works == old(works) || works == Ensured(old(works), k, spec, owner)
      ensures ok ==> works == Ensured(old(works), k, spec, owner)
      ensures history == old(history) || history == old(history) + [works]
      ensures history == old(history) ==> works == old(works)
      ensures calls >= old(calls) && (Fine(old(calls), calls) ==> ok)
    {
      var r := Get(k);
      match r {
        case Missing =>
          ok := Write(k, Work(spec, owner, NoAnnotation, false, false));
        case Unreachable =>
          return false;
        case Found(w) =>
          ok := true;
          if w.spec != spec {
            ok := Write(k, w.(spec := spec));
          } else {
            assert works == works[k := w];
          }
      }
    }

    /** GracefulDelete of a work, with the times it read. Unless a call fails it does what Decide says. */
    method GracefulDelete(k: WorkKey, ignoreGrace: bool) returns (gone: bool, ghost t: Readings, ghost fine: bool)
      requires Monotone()
      modifies this`calls, this`ticks, this`works, this`history, this`removed
      ensures calls >= old(calls) && ticks >= old(ticks) && (Fine(old(calls), calls) ==> fine)
      ensures clock(old(ticks)) == t.t0 <= t.t1 <= t.t2 <= t.t3 <= clock(ticks)
      ensures history == old(history) || history == old(history) + [works]
      ensures history == old(history) ==> works == old(works)
      ensures removed == if gone then old(removed)[k := t] else old(removed)
      ensures gone ==> Reads(t, old(ticks))
      ensures DoneAsDecided(old(works), works, k, ignoreGrace, gone, t, fine)
    {
      hide Monotone, DoneAsDecided, Decide;
      InOrder(ticks);
      var now := Now();
      var r := Get(k);
      if !r.Found? {
        t, gone, fine := Readings(now, now, now, now), false, k !in works;
        NotFound(works, k, ignoreGrace, t, fine);
        return;
      }
      gone, t, fine := DeleteOrStamp(k, r.work, ignoreGrace, now);
    }

    /** The rest of GracefulDelete, once the work was found. */
    method DeleteOrStamp(
      k: WorkKey, w: Work, ignoreGrace: bool, now: int) returns (gone: bool, ghost t: Readings, ghost fine: bool)
      requires Monotone() && k in works && works[k] == w && ticks > 0 && now == clock(ticks - 1)
      modifies this`calls, this`ticks, this`works, this`history, this`removed
      ensures calls >= old(calls) && ticks >= old(ticks) && (Fine(old(calls), calls) ==> fine)
      ensures now == t.t0 <= t.t1 <= t.t2 <= t.t3 <= clock(ticks)
      ensures history == old(history) || history == old(history) + [works]
      ensures history == old(history) ==> works == old(works)
      ensures removed == if gone then old(removed)[k := t] else old(removed)
      ensures gone ==> Reads(t, old(ticks) - 1)
      ensures DoneAsDecided(old(works), works, k, ignoreGrace, gone, t, fine)
    {
      hide Monotone, Unix, DoneAsDecided, Decide, Fine;
      InOrder(ticks - 1);
      var at := now + GRACE;
      var again := Now();
      var third := Now();
      t := Readings(now, again, third, third);
      if ignoreGrace || at < again || at == third {
        Decided(w, ignoreGrace, t);
        gone, fine := DecidedDelete(k, ignoreGrace, t);
        return;
      }
      if !w.grace.DeleteAt? {
        Decided(w, ignoreGrace, t);
        fine := DecidedStamp(k, ignoreGrace, t, Unix(at));
        return false, t, fine;
      }
      var last := Now();
      t := Readings(now, again, third, last);
      Decided(w, ignoreGrace, t);
      if w.grace.seconds <= Unix(last) {
        gone, fine := DecidedDelete(k, ignoreGrace, t);
        return;
      }
      gone, fine := false, true;
      Tried(works, works, k, ignoreGrace, true, false, t, true);
    }

    method DecidedDelete(k: WorkKey, ghost ignoreGrace: bool, ghost t: Readings) returns (gone: bool, ghost fine: bool)
      requires k in works && t.Decision(works[k], ignoreGrace) == DeleteNow
      modifies this`calls, this`works, this`history, this`removed
      ensures calls >= old(calls) && (Fine(old(calls), calls) ==> fine)
      ensures history == old(history) || history == old(history) + [works]
      ensures history == old(history) ==> works == old(works)
      ensures removed == if gone then old(removed)[k := t] else old(removed)
      ensures DoneAsDecided(old(works), works, k, ignoreGrace, gone, t, fine)
    {
      hide Decide, DoneAsDecided;
      gone := Delete(k);
      fine := gone;
      if gone {
        removed := removed[k := t];
      }
      Tried(old(works), works, k, ignoreGrace, gone, gone, t, fine);
    }

    method DecidedStamp(k: WorkKey, ghost ignoreGrace: bool, ghost t: Readings, seconds: int) returns (ghost fine: bool)
      requires k in works && t.Decision(works[k], ignoreGrace) == Stamp(seconds)
      modifies this`calls, this`works, this`history
      ensures calls >= old(calls) && (Fine(old(calls), calls) ==> fine)
      ensures history == old(history) || history == old(history) + [works]
      ensures history == old(history) ==> works == old(works)
      ensures DoneAsDecided(old(works), works, k, ignoreGrace, false, t, fine)
    {
      hide Decide, DoneAsDecided;
      var ok := Write(k, works[k].(grace := DeleteAt(seconds)));
      fine := ok;
      Tried(old(works), works, k, ignoreGrace, ok, false, t, fine);
    }
  }

  /** Either nothing happened or what was decided; the latter if no call failed. Gone means deleted. */
  ghost predicate DoneAsDecided(
    a: Works, b: Works, k: WorkKey, ignoreGrace: bool, gone: bool, t: Readings, fine: bool) {
    if k !in a then b == a && !gone
    else
      var d := t.Decision(a[k], ignoreGrace);
      && (b == a || b == Effect(a, k, d))
      && (gone ==> d == DeleteNow && b == a - {k})
      && (!gone ==> k in b)
      && (fine ==> b == Effect(a, k, d) && (gone <==> d == DeleteNow))
  }

  lemma NotFound(a: Works, k: WorkKey, ignoreGrace: bool, t: Readings, fine: bool)
    requires fine ==> k !in a
    ensures DoneAsDecided(a, a, k, ignoreGrace, false, t, fine)
  {}

  lemma Tried(a: Works, b: Works, k: WorkKey, ignoreGrace: bool, ok: bool, gone: bool, t: Readings, fine: bool)
    requires k in a && (fine ==> ok) && b == if ok then Effect(a, k, t.Decision(a[k], ignoreGrace)) else a
    requires gone <==> ok && t.Decision(a[k], ignoreGrace) == DeleteNow
    ensures DoneAsDecided(a, b, k, ignoreGrace, gone, t, fine)
  {
    hide Decide;
  }

  lemma Decided(w: Work, ignoreGrace: bool, t: Readings)
    ensures var d, now := t.Decision(w, ignoreGrace), ignoreGrace || t.t0 + GRACE < t.t1 || t.t0 + GRACE == t.t2;
            && (now ==> d == DeleteNow)
            && (!now && !w.grace.DeleteAt? ==> d == Stamp(Unix(t.t0 + GRACE)))
            && (!now && w.grace.DeleteAt? ==> d == if w.grace.seconds <= Unix(t.t3) then DeleteNow else Wait)
  {
    hide Unix;
  }

  /** The times one GracefulDelete reads. */
  datatype Readings = Readings(t0: int, t1: int, t2: int, t3: int) {
    function Decision(w: Work, ignoreGrace: bool): Decision {
      Decide(w.grace, ignoreGrace, t0, t1, t2, t3)
    }

    /** Less than the grace period passed until the last comparison with the new deadline. */
    predicate Short() {
      t2 - t0 < GRACE
    }
  }

  /** The works after creating or updating one. */
  function Ensured(works: Works, k: WorkKey, spec: string, owner: string): Works {
    works[k := if k in works then works[k].(spec := spec) else Work(spec, owner, NoAnnotation, false, false)]
  }

  function Effect(works: Works, k: WorkKey, d: Decision): Works
    requires k in works
  {
    match d
    case DeleteNow => works - {k}
    case Stamp(seconds) => works[k := works[k].(grace := DeleteAt(seconds))]
    case Wait => works
  }

  // ----- what one call of Place does to the works -----

  function PlacedOn(works: Works, workname: string): set<string> {
    set k | k in works && works[k].owner == workname && works[k].applied && !works[k].deleting :: k.cluster
  }

  /** GetClusters: where the placement decisions of the gateway's placement say. Without a placement label
      that is nowhere; a failing list, or one without decisions, is an error. */
  method GetClusters(placement: string, decisions: Option<seq<seq<string>>>) returns (targets: Option<set<string>>)
    ensures targets.None? <==> placement != "" && (decisions.None? || decisions.value == [])
    ensures placement == "" ==> targets == Some({})
    ensures targets.Some? && placement != "" ==>
              forall c :: c in targets.value <==> exists d | d in decisions.value :: c in d
  {
    if placement == "" {
      return Some({});
    }
    if decisions.None? || |decisions.value| == 0 {
      return None;
    }
    var items := decisions.value;
    var found: set<string> := {};
    for i := 0 to |items|
      invariant forall c :: c in found <==> exists d | d in items[..i] :: c in d
    {
      ghost var before := found;
      for k := 0 to |items[i]|
        invariant forall c :: c in found <==> c in before || c in items[i][..k]
      {
        found := found + {items[i][k]};
      }
      assert items[i][..|items[i]|] == items[i];
      assert items[..i + 1] == items[..i] + [items[i]];
    }
    assert items[..|items|] == items;
    return Some(found);
  }

  /** A work that counts as placed: it carries the gateway's label, was applied and is not being deleted. */
  ghost predicate Counts(works: Works, k: WorkKey, workname: string) {
    k in works && works[k].owner == workname && works[k].applied && !works[k].deleting
  }

  method GetPlacedClusters(works: Works, workname: string) returns (clusters: set<string>)
    ensures forall c :: c in clusters <==> exists k :: Counts(works, k, workname) && k.cluster == c
    ensures clusters == PlacedOn(works, workname)
  {
    clusters := {};
    var items := works.Keys;
    while items != {}
      invariant items <= works.Keys
      invariant forall c :: c in clusters <==> exists k :: k !in items && Counts(works, k, workname) && k.cluster == c
    {
      var k :| k in items;
      var w := works[k];
      ghost var before := clusters;
      var rest := items - {k};
      if w.owner == workname {
        var deleting := w.deleting;
        if !deleting && w.applied {
          clusters := clusters + {k.cluster};
        }
      }
      forall c ensures c in clusters <==> exists q :: q !in rest && Counts(works, q, workname) && q.cluster == c {
        if c in before {
          var q :| q !in items && Counts(works, q, workname) && q.cluster == c;
          assert q !in rest;
        }
        if c in clusters && c !in before {
          assert k !in rest && Counts(works, k, workname);
        }
        if q :| q !in rest && Counts(works, q, workname) && q.cluster == c {
          assert q == k || q !in items;
        }
      }
      items := rest;
    }
    forall c ensures c in clusters <==> c in PlacedOn(works, workname) {
      if c in clusters {
        var k :| Counts(works, k, workname) && k.cluster == c;
      }
      if k :| k in works && works[k].owner == workname && works[k].applied && !works[k].deleting && k.cluster == c {
        assert Counts(works, k, workname);
      }
    }
  }

  /** Wherever the gateway's work is, its RBAC is. */
  ghost predicate RbacFirst(works: Works, workname: string) {
    forall c | WorkKey(c, workname) in works :: WorkKey(c, RBAC) in works
  }

  ghost predicate Same(a: Works, b: Works, k: WorkKey) {
    (k in a <==> k in b) && (k in a ==> a[k] == b[k])
  }

  /** Only the gateway's works and the RBAC works of these clusters differ. */
  ghost predicate OnlyTouches(a: Works, b: Works, clusters: set<string>, workname: string) {
    forall k :: Same(a, b, k) || (k.cluster in clusters && (k.name == workname || k.name == RBAC))
  }

  /** Works were created or had their workload replaced; none was removed and none lost its
      annotation or status. A new one has its own name for label, or none. */
  ghost predicate Grown(a: Works, b: Works) {
    && (forall k | k in a :: k in b && b[k] == a[k].(spec := b[k].spec))
    && (forall k | k in b && k !in a ::
        b[k].grace == NoAnnotation && !b[k].applied && (b[k].owner == "" || b[k].owner == k.name))
  }

  /** If RBAC came first at the start, then it did after every write since, and does now. */
  ghost predicate Safe(start: Works, history: seq<Works>, from: nat, works: Works, workname: string) {
    RbacFirst(start, workname) ==>
      RbacFirst(works, workname) && forall i | from <= i < |history| :: RbacFirst(history[i], workname)
  }

  lemma StaysSafe(
    start: Works, history: seq<Works>, from: nat, works: Works, history': seq<Works>, works': Works, workname: string)
    requires Safe(start, history, from, works, workname) && from <= |history|
    requires RbacFirst(works, workname) ==> RbacFirst(works', workname)
    requires history' == history + [works'] || (history' == history && works' == works)
    ensures Safe(start, history', from, works', workname)
  {
    hide RbacFirst;
  }

  lemma EnsureStep(
    start: Works, works: Works, k: WorkKey, spec: string, owner: string, clusters: set<string>, workname: string)
    requires Grown(start, works) && OnlyTouches(start, works, clusters, workname)
    requires k.cluster in clusters && (k.name == workname || k.name == RBAC) && (owner == "" || owner == k.name)
    ensures var after := Ensured(works, k, spec, owner);
            && Grown(start, after) && OnlyTouches(start, after, clusters, workname)
            && (RbacFirst(works, workname) && (k.name == RBAC || WorkKey(k.cluster, RBAC) in works) ==>
                RbacFirst(after, workname))
  {
    var after := Ensured(works, k, spec, owner);
    forall q ensures Same(start, after, q) || (q.cluster in clusters && (q.name == workname || q.name == RBAC)) {
      assert Same(start, works, q) || (q.cluster in clusters && (q.name == workname || q.name == RBAC));
    }
  }

  /** The work is there with this workload; one that was there has nothing else changed. */
  ghost predicate Installed(a: Works, b: Works, k: WorkKey, spec: string, owner: string) {
    k in b && b[k] == if k in a then a[k].(spec := spec) else Work(spec, owner, NoAnnotation, false, false)
  }

  /** These clusters have the RBAC work and the gateway's. */
  ghost predicate AllInstalled(
    a: Works, b: Works, clusters: set<string>, workname: string, spec: string, rbacSpec: string) {
    forall c | c in clusters ::
      Installed(a, b, WorkKey(c, RBAC), rbacSpec, "") && Installed(a, b, WorkKey(c, workname), spec, workname)
  }

  /** Nothing of this cluster was touched yet. */
  ghost predicate Fresh(a: Works, b: Works, cluster: string) {
    forall k: WorkKey | k.cluster == cluster :: Same(a, b, k)
  }

  lemma InstalledNext(
    a: Works, b: Works, done: set<string>, todo: set<string>, cluster: string, workname: string, spec: string,
    rbacSpec: string)
    requires AllInstalled(a, b, done, workname, spec, rbacSpec) && (forall c | c in todo :: Fresh(a, b, c))
    requires cluster in todo && done !! todo && workname != RBAC
    ensures var c := Ensured(Ensured(b, WorkKey(cluster, RBAC), rbacSpec, ""), WorkKey(cluster, workname), spec,
            workname);
            && AllInstalled(a, c, done + {cluster}, workname, spec, rbacSpec)
            && (forall d | d in todo - {cluster} :: Fresh(a, c, d))
  {
    var c := Ensured(Ensured(b, WorkKey(cluster, RBAC), rbacSpec, ""), WorkKey(cluster, workname), spec, workname);
    assert Same(a, b, WorkKey(cluster, RBAC)) && Same(a, b, WorkKey(cluster, workname));
    forall d | d in done
      ensures Installed(a, c, WorkKey(d, RBAC), rbacSpec, "") && Installed(a, c, WorkKey(d, workname), spec, workname)
    {
      assert Installed(a, b, WorkKey(d, RBAC), rbacSpec, "") && Installed(a, b, WorkKey(d, workname), spec, workname);
    }
    forall d | d in todo - {cluster} ensures Fresh(a, c, d) {
      assert Fresh(a, b, d);
    }
  }

  lemma NoneInstalled(works: Works, targets: set<string>, workname: string, spec: string, rbacSpec: string)
    ensures AllInstalled(works, works, {}, workname, spec, rbacSpec) && forall c | c in targets ::
              Fresh(works, works, c)
  {}

  /** The loop over the placement targets: on each cluster the RBAC work first, then the gateway's. */
  method PlaceOn(
    hub: Hub, workname: string, spec: string, rbacSpec: string, targets: set<string>, existing: set<string>)
    returns (placed: set<string>, ok: bool)
    requires workname != RBAC
    modifies hub`calls, hub`works, hub`history
    ensures hub.calls >= old(hub.calls) && (hub.Fine(old(hub.calls), hub.calls) ==> ok)
    ensures ok ==> placed == existing + targets
    ensures ok ==> AllInstalled(old(hub.works), hub.works, targets, workname, spec, rbacSpec)
    ensures Grown(old(hub.works), hub.works) && OnlyTouches(old(hub.works), hub.works, targets, workname)
    ensures old(hub.history) <= hub.history &&
            Safe(old(hub.works), hub.history, |old(hub.history)|, hub.works, workname)
  {
    hide Grown, OnlyTouches, RbacFirst, Safe, AllInstalled, Fresh, Ensured;
    placed := existing;
    var todo := targets;
    StartPlacing(hub.works, hub.history, targets, workname);
    NoneInstalled(hub.works, targets, workname, spec, rbacSpec);
    assert targets - todo == {};
    while todo != {}
      invariant todo <= targets && placed == existing + (targets - todo)
      invariant AllInstalled(old(hub.works), hub.works, targets - todo, workname, spec, rbacSpec)
      invariant forall c | c in todo :: Fresh(old(hub.works), hub.works, c)
      invariant hub.calls >= old(hub.calls)
      invariant Grown(old(hub.works), hub.works) && OnlyTouches(old(hub.works), hub.works, targets, workname)
      invariant old(hub.history) <= hub.history &&
                Safe(old(hub.works), hub.history, |old(hub.history)|, hub.works, workname)
    {
      var cluster :| cluster in todo;
      InstalledNext(old(hub.works), hub.works, targets - todo, todo, cluster, workname, spec, rbacSpec);
      assert targets - todo + {cluster} == targets - (todo - {cluster});
      ok := EnsureWork(hub, WorkKey(cluster, RBAC), rbacSpec, "", old(hub.works), |old(hub.history)|, targets,
        workname);
      if !ok {
        return placed, false;
      }
      ok := EnsureWork(hub, WorkKey(cluster, workname), spec, workname, old(hub.works), |old(hub.history)|, targets,
        workname);
      if !ok {
        return placed, false;
      }
      placed := placed + {cluster};
      todo := todo - {cluster};
    }
    assert targets - todo == targets;
    ok := true;
  }

  lemma StartPlacing(works: Works, history: seq<Works>, targets: set<string>, workname: string)
    ensures Grown(works, works) && OnlyTouches(works, works, targets, workname) &&
            Safe(works, history, |history|, works, workname)
  {}

  method EnsureWork(
    hub: Hub, k: WorkKey, spec: string, owner: string,
    ghost start: Works, ghost from: nat, ghost targets: set<string>, ghost workname: string) returns (ok: bool)
    requires owner == "" || owner == k.name
    requires k.cluster in targets && (k.name == RBAC || (k.name == workname && WorkKey(k.cluster, RBAC) in hub.works))
    requires Grown(start, hub.works) && OnlyTouches(start, hub.works, targets, workname)
    requires from <= |hub.history| && Safe(start, hub.history, from, hub.works, workname)
    modifies hub`calls, hub`works, hub`history
    ensures hub.calls >= old(hub.calls) && (hub.Fine(old(hub.calls), hub.calls) ==> ok)
    ensures ok ==> k in hub.works && hub.works == Ensured(old(hub.works), k, spec, owner)
    ensures Grown(start, hub.works) && OnlyTouches(start, hub.works, targets, workname)
    ensures old(hub.history) <= hub.history && Safe(start, hub.history, from, hub.works, workname)
  {
    hide Grown, OnlyTouches, RbacFirst, Safe;
    EnsureStep(start, hub.works, k, spec, owner, targets, workname);
    ok := hub.CreateUpdateManifest(k, spec, owner);
    StaysSafe(start, old(hub.history), from, old(hub.works), hub.history, hub.works, workname);
  }

  // ----- removing from stale clusters -----

  ghost predicate StampedBetween(g: Annotation, s: int, e: int) {
    exists t :: s <= t <= e && g == StampAt(t)
  }

  /** From a to b, between the times s and e: was the annotation kept, or set where there was none? */
  ghost predicate KeptOrStamped(a: Work, b: Work, s: int, e: int) {
    b == a || (!a.grace.DeleteAt? && b == a.(grace := b.grace) && StampedBetween(b.grace, s, e))
  }

  ghost predicate Expired(w: Work, t: int) {
    w.grace.DeleteAt? && w.grace.seconds <= Unix(t)
  }

  /** A work that went while its ManagedCluster existed had an annotation that was expired when it went,
      unless the one graceful delete lasted as long as the grace period. */
  ghost predicate RemovedRightly(w: Work, k: WorkKey, managed: set<string>, removed: Removals, s: int, e: int) {
    && k in removed && s <= removed[k].t0 <= removed[k].t1 <= removed[k].t2 <= removed[k].t3 <= e
    && (k.cluster in managed && removed[k].Short() ==> Expired(w, removed[k].t3))
  }

  /** One stale cluster: its gateway work was left alone, stamped, or rightly removed. */
  ghost predicate Handled(a: Works, b: Works, k: WorkKey, managed: set<string>, removed: Removals, s: int, e: int) {
    && (k in b ==> k in a && KeptOrStamped(a[k], b[k], s, e))
    && (k in a && k !in b ==> RemovedRightly(a[k], k, managed, removed, s, e))
  }

  lemma HandledLater(
    a: Works, b: Works, k: WorkKey, managed: set<string>, removed: Removals, s: int, e: int, s': int, e': int)
    requires Handled(a, b, k, managed, removed, s, e) && s' <= s && e <= e'
    ensures Handled(a, b, k, managed, removed, s', e')
  {
    if k in b && b[k] != a[k] {
      var t :| s <= t <= e && b[k].grace == StampAt(t);
      assert s' <= t <= e';
    }
    assert Unix(e) <= Unix(e');
  }

  lemma HandledSame(
    a: Works, b: Works, c: Works, k: WorkKey, managed: set<string>, removed: Removals, removed': Removals, s: int,
      e: int)
    requires Handled(a, b, k, managed, removed, s, e) && Same(b, c, k) &&
             (k in removed ==> k in removed' && removed'[k] == removed[k])
    ensures Handled(a, c, k, managed, removed', s, e)
  {}

  /** Stamping or deleting the gateway's work keeps RBAC first, and so does deleting the RBAC after it. */
  lemma DeletionSafe(works: Works, k: WorkKey, d: Decision, workname: string)
    requires k in works && k.name == workname
    ensures RbacFirst(works, workname) ==> RbacFirst(Effect(works, k, d), workname)
  {}

  lemma RbacGone(works: Works, c: string, workname: string)
    requires WorkKey(c, workname) !in works
    ensures RbacFirst(works, workname) ==> RbacFirst(works - {WorkKey(c, RBAC)}, workname)
  {}

  lemma EffectTouches(works: Works, k: WorkKey, d: Decision)
    requires k in works
    ensures OnlyTouches(works, Effect(works, k, d), {k.cluster}, k.name)
    ensures OnlyTouches(works, Effect(works, k, d) - {WorkKey(k.cluster, RBAC)}, {k.cluster}, k.name)
  {}

  /** Other works than the gateway's can only disappear. */
  ghost predicate OthersOnlyGo(a: Works, b: Works, workname: string) {
    forall q | q in b && q.name != workname :: q in a && b[q] == a[q]
  }

  /** Removal times were noted in one cluster at most. */
  ghost predicate NotedIn(removed: Removals, removed': Removals, cluster: string) {
    forall q | q in removed && q.cluster != cluster :: q in removed' && removed'[q] == removed[q]
  }

  /** Neither the gateway's work nor the RBAC work is there. */
  ghost predicate BothGone(works: Works, cluster: string, workname: string) {
    WorkKey(cluster, workname) !in works && WorkKey(cluster, RBAC) !in works
  }

  lemma StayGone(a: Works, b: Works, cluster: string, workname: string)
    requires BothGone(a, cluster, workname) && workname != RBAC
    requires Same(a, b, WorkKey(cluster, workname)) && OthersOnlyGo(a, b, workname)
    ensures BothGone(b, cluster, workname)
  {}

  /** One round of the removal loop. */
  method RemoveOne(
    hub: Hub, workname: string, cluster: string, ghost start: Works, ghost from: nat) returns (done: bool)
    requires hub.Monotone() && workname != RBAC
    requires from <= |hub.history| && Safe(start, hub.history, from, hub.works, workname)
    modifies hub`calls, hub`ticks, hub`works, hub`history, hub`removed
    ensures hub.calls >= old(hub.calls) && hub.ticks >= old(hub.ticks)
    ensures OnlyTouches(old(hub.works), hub.works, {cluster}, workname) &&
            OthersOnlyGo(old(hub.works), hub.works, workname)
    ensures Handled(old(hub.works), hub.works, WorkKey(cluster, workname), hub.managed, hub.removed,
            hub.clock(old(hub.ticks)), hub.clock(hub.ticks))
    ensures old(hub.history) <= hub.history && Safe(start, hub.history, from, hub.works, workname)
    ensures NotedIn(old(hub.removed), hub.removed, cluster)
    ensures done ==> BothGone(hub.works, cluster, workname)
    ensures WorkKey(cluster, workname) !in old(hub.works) ==> !done && hub.works == old(hub.works)
    ensures hub.Fine(old(hub.calls), hub.calls) && WorkKey(cluster, workname) in old(hub.works) &&
            cluster !in hub.managed ==>
              done
    ensures var k := WorkKey(cluster, workname);
            hub.Fine(old(hub.calls), hub.calls) && k in old(hub.works) &&
            (old(hub.works)[k].grace.DeleteAt? ==> Expired(old(hub.works)[k], hub.clock(old(hub.ticks)))) ==>
              done || (!old(hub.works)[k].grace.DeleteAt? && k in hub.works && hub.works[k].grace.DeleteAt?)
  {
    hide OnlyTouches, OthersOnlyGo, RbacFirst, Safe, Handled, NotedIn, DoneAsDecided, hub.Monotone;
    var k := WorkKey(cluster, workname);
    UntouchedYet(hub.works, cluster, workname, hub.removed);
    var r := hub.Get(k);
    if !r.Found? {
      hub.InOrder(hub.ticks);
      return false;
    }
    // the lookup of the ManagedCluster: only "not found" matters
    var ignoreGrace := !hub.fails(hub.calls) && cluster !in hub.managed;
    hub.calls := hub.calls + 1;
    ghost var before, history0, removed0 := hub.works, hub.history, hub.removed;
    var gone;
    ghost var t, fine;
    gone, t, fine := hub.GracefulDelete(k, ignoreGrace);
    ghost var works1, history1, removed1 := hub.works, hub.history, hub.removed;
    GracefulEffects(before, works1, k, ignoreGrace, gone, t, fine);
    RemovalHandled(before, works1, k, ignoreGrace, gone, t, fine, hub.managed, removed0, removed1,
      hub.clock(old(hub.ticks)), hub.clock(hub.ticks));
    StaysSafe(start, history0, from, before, history1, works1, workname);
    if !gone {
      return false;
    }
    done := hub.Delete(WorkKey(cluster, RBAC));
    RbacGone(works1, cluster, workname);
    HandledSame(before, works1, hub.works, k, hub.managed, removed1, hub.removed, hub.clock(old(hub.ticks)),
      hub.clock(hub.ticks));
    StaysSafe(start, history1, from, works1, hub.history, hub.works, workname);
  }

  /** What the rest of Place needs to know of a graceful delete of the gateway's work, with or without the
      deletion of the RBAC work after it. */
  lemma GracefulEffects(a: Works, b: Works, k: WorkKey, ignoreGrace: bool, gone: bool, t: Readings, fine: bool)
    requires k in a && k.name != RBAC && DoneAsDecided(a, b, k, ignoreGrace, gone, t, fine) && t.t0 <= t.t3
    ensures OnlyTouches(a, b, {k.cluster}, k.name) && OthersOnlyGo(a, b, k.name)
    ensures var c := b - {WorkKey(k.cluster, RBAC)};
            OnlyTouches(a, c, {k.cluster}, k.name) && OthersOnlyGo(a, c, k.name)
    ensures RbacFirst(a, k.name) ==> RbacFirst(b, k.name)
    ensures gone <==> k !in b
    ensures fine && ignoreGrace ==> gone
    ensures fine && (a[k].grace.DeleteAt? ==> Expired(a[k], t.t0)) ==>
              gone || (!a[k].grace.DeleteAt? && k in b && b[k].grace.DeleteAt?)
  {
    assert Unix(t.t0) <= Unix(t.t3);
    EffectTouches(a, k, t.Decision(a[k], ignoreGrace));
    DeletionSafe(a, k, t.Decision(a[k], ignoreGrace), k.name);
  }

  lemma UntouchedYet(works: Works, cluster: string, workname: string, removed: Removals)
    ensures OnlyTouches(works, works, {cluster}, workname) && OthersOnlyGo(works, works, workname)
    ensures NotedIn(removed, removed, cluster)
    ensures forall k, managed, removed, s, e :: Handled(works, works, k, managed, removed, s, e)
  {}

  lemma RemovalHandled(
    a: Works, b: Works, k: WorkKey, ignoreGrace: bool, gone: bool, t: Readings, fine: bool,
    managed: set<string>, removed0: Removals, removed: Removals, s: int, e: int)
    requires k in a && DoneAsDecided(a, b, k, ignoreGrace, gone, t, fine) && s == t.t0 <= t.t1 <= t.t2 <= t.t3 <= e
    requires ignoreGrace ==> k.cluster !in managed
    requires removed == if gone then removed0[k := t] else removed0
    ensures Handled(a, b, k, managed, removed, s, e) && NotedIn(removed0, removed, k.cluster)
  {
    var d := t.Decision(a[k], ignoreGrace);
    if d.Stamp? {
      assert DeleteAt(d.seconds) == StampAt(t.t0);
    }
  }

  /** All stale clusters were handled, and nothing else was touched. */
  ghost predicate AllHandled(
    a: Works, b: Works, stale: set<string>, workname: string, managed: set<string>, removed: Removals, s: int, e: int) {
    && OnlyTouches(a, b, stale, workname)
    && OthersOnlyGo(a, b, workname)
    && forall c | c in stale :: Handled(a, b, WorkKey(c, workname), managed, removed, s, e)
  }

  lemma HandledNext(
    a: Works, b: Works, c: Works, done: set<string>, cluster: string, workname: string, managed: set<string>,
    removed0: Removals, removed: Removals, s: int, m: int, e: int)
    requires AllHandled(a, b, done, workname, managed, removed0, s, m) && cluster !in done && s <= m <= e &&
             NotedIn(removed0, removed, cluster)
    requires OnlyTouches(b, c, {cluster}, workname) && OthersOnlyGo(b, c, workname) &&
             Handled(b, c, WorkKey(cluster, workname), managed, removed, m, e)
    ensures AllHandled(a, c, done + {cluster}, workname, managed, removed, s, e)
    ensures forall d | d in done :: Same(b, c, WorkKey(d, workname))
    ensures Same(a, b, WorkKey(cluster, workname))
  {
    hide Handled;
    var k := WorkKey(cluster, workname);
    assert Same(a, b, k);
    SwapStart(a, b, c, k, managed, removed, m, e);
    HandledLater(a, c, k, managed, removed, m, e, s, e);
    forall d | d in done ensures Handled(a, c, WorkKey(d, workname), managed, removed, s, e) {
      HandledSame(a, b, c, WorkKey(d, workname), managed, removed0, removed, s, m);
      HandledLater(a, c, WorkKey(d, workname), managed, removed, s, m, s, e);
    }
    forall q ensures Same(a, c, q) || (q.cluster in done + {cluster} && (q.name == workname || q.name == RBAC)) {
      assert Same(a, b, q) || (q.cluster in done && (q.name == workname || q.name == RBAC));
      assert Same(b, c, q) || (q.cluster in {cluster} && (q.name == workname || q.name == RBAC));
    }
  }

  lemma SwapStart(a: Works, b: Works, c: Works, k: WorkKey, managed: set<string>, removed: Removals, s: int, e: int)
    requires Handled(b, c, k, managed, removed, s, e) && Same(a, b, k)
    ensures Handled(a, c, k, managed, removed, s, e)
  {}

  /** Every stale work is there, with its annotation expired if it has one. */
  ghost predicate Ready(works: Works, stale: set<string>, workname: string, t: int) {
    forall c | c in stale ::
      WorkKey(c, workname) in works &&
      (works[WorkKey(c, workname)].grace.DeleteAt? ==> Expired(works[WorkKey(c, workname)], t))
  }

  /** The ManagedClusters of all these clusters are gone, and their works are still there. */
  ghost predicate Abandoned(works: Works, stale: set<string>, workname: string, managed: set<string>) {
    forall c | c in stale :: c !in managed && WorkKey(c, workname) in works
  }

  lemma AbandonedOne(
    a: Works, b: Works, stale: set<string>, cluster: string, workname: string, managed: set<string>)
    requires cluster in stale && Same(a, b, WorkKey(cluster, workname))
    ensures Abandoned(a, stale, workname, managed) ==> cluster !in managed && WorkKey(cluster, workname) in b
  {}

  lemma AbandonedStays(
    a: Works, b: Works, targets: set<string>, stale: set<string>, workname: string, managed: set<string>)
    requires OnlyTouches(a, b, targets, workname) && targets !! stale
    ensures Abandoned(a, stale, workname, managed) ==> Abandoned(b, stale, workname, managed)
  {
    forall c | c in stale ensures Same(a, b, WorkKey(c, workname)) {}
  }

  /** Somewhere a missing annotation was put on. */
  ghost predicate StampedSomewhere(a: Works, b: Works, stale: set<string>, workname: string) {
    exists c | c in stale :: NewlyStamped(a, b, WorkKey(c, workname))
  }

  ghost predicate NewlyStamped(a: Works, b: Works, k: WorkKey) {
    k in a && !a[k].grace.DeleteAt? && k in b && b[k].grace.DeleteAt?
  }

  /** The loop over the stale clusters, in any order, up to the first that is not gone at once. */
  method RemoveFrom(
    hub: Hub, workname: string, stale: set<string>, existing: set<string>, ghost start: Works, ghost from: nat)
    returns (placed: set<string>, ok: bool)
    requires hub.Monotone() && workname != RBAC
    requires from <= |hub.history| && Safe(start, hub.history, from, hub.works, workname)
    modifies hub`calls, hub`ticks, hub`works, hub`history, hub`removed
    ensures hub.calls >= old(hub.calls) && hub.ticks >= old(hub.ticks)
    ensures AllHandled(old(hub.works), hub.works, stale, workname, hub.managed, hub.removed, hub.clock(old(hub.ticks)),
            hub.clock(hub.ticks))
    ensures old(hub.history) <= hub.history && Safe(start, hub.history, from, hub.works, workname)
    ensures ok ==> placed == existing - stale && forall c | c in stale :: BothGone(hub.works, c, workname)
    ensures hub.Fine(old(hub.calls), hub.calls) && Ready(old(hub.works), stale, workname, hub.clock(old(hub.ticks))) ==>
              ok || StampedSomewhere(old(hub.works), hub.works, stale, workname)
    ensures hub.Fine(old(hub.calls), hub.calls) && Abandoned(old(hub.works), stale, workname, hub.managed) ==> ok
  {
    hide AllHandled, Safe, Ready, Handled, OnlyTouches, OthersOnlyGo, BothGone, Abandoned;
    ghost var works0, s := hub.works, hub.clock(hub.ticks);
    placed := existing;
    var todo := stale;
    NoneHandled(works0, stale - todo, workname, hub.managed, hub.removed, s);
    while todo != {}
      invariant todo <= stale && placed == existing - (stale - todo)
      invariant hub.calls >= old(hub.calls) && hub.ticks >= old(hub.ticks)
      invariant AllHandled(works0, hub.works, stale - todo, workname, hub.managed, hub.removed, s, hub.clock(hub.ticks))
      invariant old(hub.history) <= hub.history && Safe(start, hub.history, from, hub.works, workname)
      invariant forall c | c in stale - todo :: BothGone(hub.works, c, workname)
    {
      var cluster :| cluster in todo;
      ghost var works1, removed1, m := hub.works, hub.removed, hub.clock(hub.ticks);
      var done := RemoveOne(hub, workname, cluster, start, from);
      HandledNext(works0, works1, hub.works, stale - todo, cluster, workname, hub.managed, removed1, hub.removed, s, m,
        hub.clock(hub.ticks));
      assert stale - todo + {cluster} == stale - (todo - {cluster});
      forall c | c in stale - todo ensures BothGone(hub.works, c, workname) {
        StayGone(works1, hub.works, c, workname);
      }
      if !done {
        HandledMore(works0, hub.works, stale - todo + {cluster}, stale, workname, hub.managed, hub.removed, s,
          hub.clock(hub.ticks));
        ReadyOne(works0, stale, workname, s, cluster, m);
        AbandonedOne(works0, works1, stale, cluster, workname, hub.managed);
        assert NewlyStamped(works1, hub.works, WorkKey(cluster, workname)) ==>
            NewlyStamped(works0, hub.works, WorkKey(cluster, workname));
        return placed, false;
      }
      placed := placed - {cluster};
      todo := todo - {cluster};
    }
    assert stale - todo == stale;
    ok := true;
  }

  lemma NoneHandled(works: Works, none: set<string>, workname: string, managed: set<string>, removed: Removals, s: int)
    requires none == {}
    ensures AllHandled(works, works, none, workname, managed, removed, s, s)
  {}

  lemma HandledMore(
    a: Works, b: Works, done: set<string>, stale: set<string>, workname: string, managed: set<string>,
      removed: Removals,
    s: int, e: int)
    requires AllHandled(a, b, done, workname, managed, removed, s, e) && done <= stale
    ensures AllHandled(a, b, stale, workname, managed, removed, s, e)
  {
    forall q ensures Same(a, b, q) || (q.cluster in stale && (q.name == workname || q.name == RBAC)) {
      assert Same(a, b, q) || (q.cluster in done && (q.name == workname || q.name == RBAC));
    }
    forall c | c in stale ensures Handled(a, b, WorkKey(c, workname), managed, removed, s, e) {
      if c !in done {
        assert Same(a, b, WorkKey(c, workname));
      }
    }
  }

  lemma ReadyOne(works: Works, stale: set<string>, workname: string, s: int, cluster: string, m: int)
    requires cluster in stale && s <= m
    ensures Ready(works, stale, workname, s) ==>
              var k := WorkKey(cluster, workname); k in works && (works[k].grace.DeleteAt? ==> Expired(works[k], m))
  {
    assert Unix(s) <= Unix(m);
  }

  // ----- Place -----

  /** One call of Place that is not told to delete: the works before and after, its targets, the
      ManagedClusters, when removed works went, and when it started and ended. */
  datatype Call = Call(before: Works, after: Works, targets: set<string>, managed: set<string>, removed: Removals,
    start: int, end: int) {
    ghost function Stale(workname: string): set<string> {
      StaleOf(before, targets, workname)
    }

    /** Every annotation on a stale work has expired when the call starts. */
    ghost predicate Due(workname: string) {
      Ready(before, Stale(workname), workname, start)
    }
  }

  /** What every such call does to the annotations of the gateway's works, whatever fails. */
  ghost predicate GraceKept(call: Call, workname: string) {
    forall c :: GraceKeptAt(call, WorkKey(c, workname))
  }

  ghost predicate GraceKeptAt(call: Call, k: WorkKey) {
    var a, b := call.before, call.after;
    && (k in a && k in b ==>
        b[k].grace == a[k].grace || (!a[k].grace.DeleteAt? && StampedBetween(b[k].grace, call.start, call.end)))
    && (k in a && k in b ==> b[k] == a[k].(spec := b[k].spec, grace := b[k].grace))
    && (k in b && k !in a ==> b[k].grace == NoAnnotation)
    && (k in a && k !in b ==> RemovedRightly(a[k], k, call.managed, call.removed, call.start, call.end))
    && (k in a && k.cluster in call.targets ==> k in b && b[k].grace == a[k].grace)
  }

  /** The clusters the gateway is placed on but should not be. */
  function StaleOf(works: Works, targets: set<string>, workname: string): set<string> {
    PlacedOn(works, workname) - targets
  }

  function UnstampedOf(works: Works, targets: set<string>, workname: string): set<string> {
    set c | c in StaleOf(works, targets, workname) && WorkKey(c, workname) in works &&
      !works[WorkKey(c, workname)].grace.DeleteAt?
  }

  /** Works carry the gateway's label only under the gateway's name. */
  ghost predicate Owned(works: Works, workname: string) {
    forall k | k in works && works[k].owner == workname :: k.name == workname
  }

  /** Nothing becomes stale, and no stale work loses its annotation. */
  ghost predicate NoneNew(a: Works, b: Works, targets: set<string>, workname: string) {
    && StaleOf(b, targets, workname) <= StaleOf(a, targets, workname)
    && UnstampedOf(b, targets, workname) <= UnstampedOf(a, targets, workname)
  }

  /** And unless there was nothing to do, something went or got its annotation. */
  ghost predicate Progress(a: Works, b: Works, targets: set<string>, workname: string) {
    && NoneNew(a, b, targets, workname)
    && (StaleOf(a, targets, workname) != {} ==>
          || StaleOf(b, targets, workname) < StaleOf(a, targets, workname)
          || UnstampedOf(b, targets, workname) < UnstampedOf(a, targets, workname))
  }

  lemma TouchesBoth(a: Works, b: Works, c: Works, x: set<string>, y: set<string>, workname: string)
    requires OnlyTouches(a, b, x, workname) && OnlyTouches(b, c, y, workname)
    ensures OnlyTouches(a, c, x + y, workname)
  {
    forall q ensures Same(a, c, q) || (q.cluster in x + y && (q.name == workname || q.name == RBAC)) {
      assert Same(a, b, q) || (q.cluster in x && (q.name == workname || q.name == RBAC));
      assert Same(b, c, q) || (q.cluster in y && (q.name == workname || q.name == RBAC));
    }
  }

  /** The two phases together: first targets, then stale clusters, which are none of the targets. */
  lemma PhasesKeepGrace(
    a: Works, b: Works, c: Works, targets: set<string>, stale: set<string>, workname: string, managed: set<string>,
    removed: Removals, s: int, e: int)
    requires Grown(a, b) && OnlyTouches(a, b, targets, workname) && targets !! stale
    requires AllHandled(b, c, stale, workname, managed, removed, s, e)
    ensures GraceKept(Call(a, c, targets, managed, removed, s, e), workname)
  {
    forall d ensures GraceKeptAt(Call(a, c, targets, managed, removed, s, e), WorkKey(d, workname)) {
      var k := WorkKey(d, workname);
      if d in stale {
        assert Handled(b, c, k, managed, removed, s, e) && Same(a, b, k);
      } else {
        assert Same(b, c, k);
      }
    }
  }

  /** What is placed and stale afterwards was so before, and is still the same work. */
  lemma StaleBefore(
    a: Works, b: Works, c: Works, targets: set<string>, stale: set<string>, workname: string, managed: set<string>,
    removed: Removals, s: int, e: int, d: string)
    requires Grown(a, b) && OnlyTouches(a, b, targets, workname) && targets !! stale
    requires AllHandled(b, c, stale, workname, managed, removed, s, e) && Owned(a, workname) && workname != RBAC
    requires d in StaleOf(c, targets, workname)
    ensures d in StaleOf(a, targets, workname) && WorkKey(d, workname) in a && WorkKey(d, workname) in c
    ensures KeptOrStamped(a[WorkKey(d, workname)], c[WorkKey(d, workname)], s, e)
  {
    var k :| k in c && c[k].owner == workname && c[k].applied && !c[k].deleting && k.cluster == d;
    if k.name == workname && d in stale {
      assert Handled(b, c, k, managed, removed, s, e);
      assert Same(a, b, k);
    } else {
      assert Same(b, c, k);
      assert k in a && Same(a, b, k);
    }
  }

  lemma UnstampedBefore(
    a: Works, b: Works, c: Works, targets: set<string>, stale: set<string>, workname: string, managed: set<string>,
    removed: Removals, s: int, e: int)
    requires Grown(a, b) && OnlyTouches(a, b, targets, workname) && targets !! stale
    requires AllHandled(b, c, stale, workname, managed, removed, s, e) && Owned(a, workname) && workname != RBAC
    ensures StaleOf(c, targets, workname) <= StaleOf(a, targets, workname)
    ensures UnstampedOf(c, targets, workname) <= UnstampedOf(a, targets, workname)
  {
    hide Grown, OnlyTouches, AllHandled, PlacedOn;
    forall d | d in StaleOf(c, targets, workname)
      ensures d in StaleOf(a, targets, workname)
      ensures d in UnstampedOf(c, targets, workname) ==> d in UnstampedOf(a, targets, workname)
    {
      StaleBefore(a, b, c, targets, stale, workname, managed, removed, s, e, d);
    }
  }

  /** After a call in which nothing failed, either all stale works are gone or one got its stamp. */
  lemma PhasesProgress(
    a: Works, b: Works, c: Works, targets: set<string>, workname: string, managed: set<string>, removed: Removals,
      s: int,
    e: int)
    requires var stale := StaleOf(a, targets, workname);
      && Grown(a, b) && OnlyTouches(a, b, targets, workname) &&
        AllHandled(b, c, stale, workname, managed, removed, s, e)
      && Owned(a, workname) && workname != RBAC
      && ((forall d | d in stale :: WorkKey(d, workname) !in c) || StampedSomewhere(b, c, stale, workname))
    ensures Progress(a, c, targets, workname)
  {
    var stale := StaleOf(a, targets, workname);
    UnstampedBefore(a, b, c, targets, stale, workname, managed, removed, s, e);
    if stale != {} {
      if StampedSomewhere(b, c, stale, workname) {
        var d :| d in stale && NewlyStamped(b, c, WorkKey(d, workname));
        assert Same(a, b, WorkKey(d, workname));
        assert d in UnstampedOf(a, targets, workname) && d !in UnstampedOf(c, targets, workname);
      } else {
        var d :| d in stale;
        if d in StaleOf(c, targets, workname) {
          StaleBefore(a, b, c, targets, stale, workname, managed, removed, s, e, d);
        }
        assert d !in StaleOf(c, targets, workname);
      }
    }
  }

  /** Place: on success the gateway is placed exactly on its targets. Whatever fails, only its own and
      the RBAC works of target and stale clusters are written, RBAC comes first after every write,
      and no annotation is cut short. Without failures every call makes progress. */
  method Place(hub: Hub, workname: string, spec: string, rbacSpec: string, targets: Option<set<string>>, deleting: bool)
    returns (placed: set<string>, ok: bool)
    requires hub.Monotone() && workname != RBAC && workname != ""
    modifies hub`calls, hub`ticks, hub`works, hub`history, hub`removed
    ensures hub.calls >= old(hub.calls) && hub.ticks >= old(hub.ticks)
    ensures old(hub.history) <= hub.history &&
            Safe(old(hub.works), hub.history, |old(hub.history)|, hub.works, workname)
    ensures var wanted := if targets.Some? then targets.value else {};
            OnlyTouches(old(hub.works), hub.works, wanted + PlacedOn(old(hub.works), workname), workname)
    ensures ok && !deleting ==>
              && targets.Some? && placed == targets.value
              && AllInstalled(old(hub.works), hub.works, targets.value, workname, spec, rbacSpec)
              && forall c | c in StaleOf(old(hub.works), targets.value, workname) :: BothGone(hub.works, c, workname)
    ensures deleting ==> OnlyGateway(old(hub.works), hub.works, workname)
    ensures deleting && targets.Some? && hub.Fine(old(hub.calls), hub.calls) ==> ok
    ensures ok && deleting ==>
              placed == {} && forall c | c in PlacedOn(old(hub.works), workname) :: WorkKey(c, workname) !in hub.works
    ensures targets.Some? && !deleting ==>
              var call := Call(old(hub.works), hub.works, targets.value, hub.managed, hub.removed,
                hub.clock(old(hub.ticks)), hub.clock(hub.ticks));
              && GraceKept(call, workname)
              && (Owned(call.before, workname) ==>
                  Owned(call.after, workname) && NoneNew(call.before, call.after, call.targets, workname))
              && (hub.Fine(old(hub.calls), hub.calls) && Owned(call.before, workname) && call.Due(workname) ==>
                    Progress(call.before, call.after, call.targets, workname) && (call.Stale(workname) == {} ==> ok))
              && (Abandoned(call.before, call.Stale(workname), workname, call.managed) ==>
                    hub.Fine(old(hub.calls), hub.calls) ==> ok)
  {
    hide Safe, OnlyTouches, PlacedOn, GraceKept, NoneNew, Progress, Ready, AllHandled, Grown, Owned, StampedSomewhere,
      AllInstalled, OnlyGateway, BothGone, Abandoned;
    ghost var works0, from, s := hub.works, |hub.history|, hub.clock(hub.ticks);
    StartPlacing(works0, hub.history, {}, workname);
    NothingElse(works0, workname);
    Nothing(works0, if targets.Some? then targets.value else {}, workname, hub.managed, hub.removed, s);
    if targets.None? {
      TouchesMore(works0, works0, {}, {} + PlacedOn(works0, workname), workname);
      return {}, false;
    }
    TouchesMore(works0, works0, {}, targets.value + PlacedOn(works0, workname), workname);
    var listed := !hub.fails(hub.calls);
    hub.calls := hub.calls + 1;
    if !listed {
      return {}, false;
    }
    var existing := GetPlacedClusters(hub.works, workname);
    var removeFrom := existing - targets.value;
    if deleting {
      placed, ok := DeleteAll(hub, workname, existing, works0, from);
      TouchesMore(works0, hub.works, existing, targets.value + existing, workname);
      return placed, ok;
    }
    existing, ok := PlaceOn(hub, workname, spec, rbacSpec, targets.value, existing);
    ghost var works1 := hub.works;
    TouchesMore(works0, works1, targets.value, targets.value + PlacedOn(works0, workname), workname);
    NoneRemoved(works0, works1, targets.value, removeFrom, workname, hub.managed, hub.removed, s, hub.clock(hub.ticks));
    if !ok {
      return existing, false;
    }
    AbandonedStays(works0, works1, targets.value, removeFrom, workname, hub.managed);
    placed, ok := RemoveFrom(hub, workname, removeFrom, existing, works0, from);
    HandledTouches(works1, hub.works, removeFrom, workname, hub.managed, hub.removed, s, hub.clock(hub.ticks));
    InstalledStays(works0, works1, hub.works, targets.value, removeFrom, workname, spec, rbacSpec);
    GatewayGone(hub.works, removeFrom, workname);
    TouchesBoth2(works0, works1, hub.works, targets.value, removeFrom, workname, hub.managed, hub.removed, s,
      hub.clock(hub.ticks));
    TouchesMore(works0, hub.works, targets.value + removeFrom, targets.value + PlacedOn(works0, workname), workname);
    PhasesKeepGrace(works0, works1, hub.works, targets.value, removeFrom, workname, hub.managed, hub.removed, s,
      hub.clock(hub.ticks));
    OwnedStays(works0, works1, hub.works, targets.value, removeFrom, workname, hub.managed, hub.removed, s,
      hub.clock(hub.ticks));
    ReadyStays(works0, works1, targets.value, removeFrom, workname, s);
    NoneStamped(works1, hub.works, removeFrom, workname);
    if Owned(works0, workname) &&
      ((forall d | d in removeFrom :: WorkKey(d, workname) !in hub.works) ||
      StampedSomewhere(works1, hub.works, removeFrom, workname)) {
      PhasesProgress(works0, works1, hub.works, targets.value, workname, hub.managed, hub.removed, s,
        hub.clock(hub.ticks));
    }
  }

  lemma InstalledStays(
    a: Works, b: Works, c: Works, targets: set<string>, stale: set<string>, workname: string, spec: string,
    rbacSpec: string)
    requires AllInstalled(a, b, targets, workname, spec, rbacSpec) && OnlyTouches(b, c, stale, workname) &&
             targets !! stale
    ensures AllInstalled(a, c, targets, workname, spec, rbacSpec)
  {
    forall d | d in targets
      ensures Installed(a, c, WorkKey(d, RBAC), rbacSpec, "") && Installed(a, c, WorkKey(d, workname), spec, workname)
    {
      assert Installed(a, b, WorkKey(d, RBAC), rbacSpec, "") && Installed(a, b, WorkKey(d, workname), spec, workname);
      assert Same(b, c, WorkKey(d, RBAC)) && Same(b, c, WorkKey(d, workname));
    }
  }

  lemma GatewayGone(works: Works, stale: set<string>, workname: string)
    ensures (forall c | c in stale :: BothGone(works, c, workname)) ==> forall c | c in stale ::
              WorkKey(c, workname) !in works
  {}

  lemma HandledTouches(
    a: Works, b: Works, stale: set<string>, workname: string, managed: set<string>, removed: Removals, s: int, e: int)
    requires AllHandled(a, b, stale, workname, managed, removed, s, e)
    ensures OnlyTouches(a, b, stale, workname)
  {}

  /** No work of another name than the gateway's differs. */
  ghost predicate OnlyGateway(a: Works, b: Works, workname: string) {
    forall q: WorkKey | q.name != workname :: Same(a, b, q)
  }

  /** The gateway is being deleted: its works go, RBAC stays. */
  method DeleteAll(
    hub: Hub, workname: string, existing: set<string>, ghost start: Works,
    ghost from: nat) returns (placed: set<string>, ok: bool)
    requires from <= |hub.history| && Safe(start, hub.history, from, hub.works, workname) && workname != RBAC
    modifies hub`calls, hub`works, hub`history
    ensures hub.calls >= old(hub.calls)
    ensures OnlyTouches(old(hub.works), hub.works, existing, workname)
    ensures OnlyGateway(old(hub.works), hub.works, workname)
    ensures old(hub.history) <= hub.history && Safe(start, hub.history, from, hub.works, workname)
    ensures ok ==> placed == {} && forall c | c in existing :: WorkKey(c, workname) !in hub.works
    ensures hub.Fine(old(hub.calls), hub.calls) ==> ok
  {
    hide RbacFirst, Safe;
    placed := existing;
    var todo := existing;
    while todo != {}
      invariant todo <= existing && placed == todo
      invariant hub.calls >= old(hub.calls)
      invariant OnlyTouches(old(hub.works), hub.works, existing, workname)
      invariant OnlyGateway(old(hub.works), hub.works, workname)
      invariant old(hub.history) <= hub.history && Safe(start, hub.history, from, hub.works, workname)
      invariant forall c | c in existing - todo :: WorkKey(c, workname) !in hub.works
    {
      var cluster :| cluster in todo;
      ghost var works1, history1 := hub.works, hub.history;
      WorkGone(works1, cluster, workname);
      var deleted := hub.Delete(WorkKey(cluster, workname));
      StaysSafe(start, history1, from, works1, hub.history, hub.works, workname);
      TouchesDeleted(old(hub.works), works1, hub.works, existing, workname, cluster);
      if !deleted {
        return placed, false;
      }
      placed := placed - {cluster};
      todo := todo - {cluster};
    }
    ok := true;
  }

  lemma TouchesDeleted(a: Works, b: Works, c: Works, existing: set<string>, workname: string, cluster: string)
    requires OnlyTouches(a, b, existing, workname) && cluster in existing &&
             (c == b || c == b - {WorkKey(cluster, workname)})
    ensures OnlyTouches(a, c, existing, workname)
  {
    forall q ensures Same(a, c, q) || (q.cluster in existing && (q.name == workname || q.name == RBAC)) {
      assert Same(a, b, q) || (q.cluster in existing && (q.name == workname || q.name == RBAC));
    }
  }

  lemma WorkGone(works: Works, cluster: string, workname: string)
    requires workname != RBAC
    ensures RbacFirst(works, workname) ==> RbacFirst(works - {WorkKey(cluster, workname)}, workname)
  {}

  lemma TouchesMore(a: Works, b: Works, x: set<string>, y: set<string>, workname: string)
    requires OnlyTouches(a, b, x, workname) && x <= y
    ensures OnlyTouches(a, b, y, workname)
  {
    forall q ensures Same(a, b, q) || (q.cluster in y && (q.name == workname || q.name == RBAC)) {
      assert Same(a, b, q) || (q.cluster in x && (q.name == workname || q.name == RBAC));
    }
  }

  lemma TouchesBoth2(
    a: Works, b: Works, c: Works, targets: set<string>, stale: set<string>, workname: string, managed: set<string>,
    removed: Removals, s: int, e: int)
    requires OnlyTouches(a, b, targets, workname) && AllHandled(b, c, stale, workname, managed, removed, s, e)
    ensures OnlyTouches(a, c, targets + stale, workname)
  {
    TouchesBoth(a, b, c, targets, stale, workname);
  }

  lemma NothingElse(works: Works, workname: string)
    ensures OnlyGateway(works, works, workname)
  {}

  lemma Nothing(works: Works, targets: set<string>, workname: string, managed: set<string>, removed: Removals, s: int)
    ensures GraceKept(Call(works, works, targets, managed, removed, s, s), workname) &&
            NoneNew(works, works, targets, workname)
  {}

  lemma NoneRemoved(
    a: Works, b: Works, targets: set<string>, stale: set<string>, workname: string, managed: set<string>,
    removed: Removals, s: int, e: int)
    requires Grown(a, b) && OnlyTouches(a, b, targets, workname) && targets !! stale && workname != RBAC
    ensures GraceKept(Call(a, b, targets, managed, removed, s, e), workname)
    ensures workname != "" && Owned(a, workname) ==> Owned(b, workname) && NoneNew(a, b, targets, workname)
  {
    if Owned(a, workname) {
      AllKept(b, stale, workname, managed, removed, s, e);
      UnstampedBefore(a, b, b, targets, stale, workname, managed, removed, s, e);
    }
  }

  lemma AllKept(
    works: Works, stale: set<string>, workname: string, managed: set<string>, removed: Removals, s: int, e: int)
    ensures AllHandled(works, works, stale, workname, managed, removed, s, e)
  {}

  lemma OwnedStays(
    a: Works, b: Works, c: Works, targets: set<string>, stale: set<string>, workname: string, managed: set<string>,
    removed: Removals, s: int, e: int)
    requires Grown(a, b) && OnlyTouches(a, b, targets, workname) && targets !! stale && workname != RBAC
    requires AllHandled(b, c, stale, workname, managed, removed, s, e)
    ensures Owned(b, workname) ==> Owned(c, workname)
    ensures Owned(a, workname) ==> NoneNew(a, c, targets, workname)
  {
    if Owned(a, workname) {
      UnstampedBefore(a, b, c, targets, stale, workname, managed, removed, s, e);
    }
  }

  lemma NoneStamped(a: Works, b: Works, stale: set<string>, workname: string)
    ensures stale == {} ==> !StampedSomewhere(a, b, stale, workname)
  {}

  /** Placing on targets leaves the stale works as they were. */
  lemma ReadyStays(a: Works, b: Works, targets: set<string>, stale: set<string>, workname: string, t: int)
    requires Grown(a, b) && OnlyTouches(a, b, targets, workname) && targets !! stale
    ensures Ready(a, stale, workname, t) ==> Ready(b, stale, workname, t)
  {
    forall c | c in stale ensures Same(a, b, WorkKey(c, workname)) {}
  }

  // ----- runs of calls -----

  /** Between two calls others may change workloads and status, but no work of the gateway comes or
      goes or has its annotation changed. */
  ghost predicate Undisturbed(a: Works, b: Works, workname: string) {
    forall c :: SameGrace(a, b, WorkKey(c, workname))
  }

  ghost predicate SameGrace(a: Works, b: Works, k: WorkKey) {
    (k in a <==> k in b) && (k in a ==> a[k].grace == b[k].grace)
  }

  /** Calls one after another, as the clock has it. */
  ghost predicate Run(calls: seq<Call>, workname: string) {
    && (forall n | 0 <= n < |calls| :: calls[n].start <= calls[n].end && GraceKept(calls[n], workname))
    && (forall n | 0 < n < |calls| :: Follows(calls[n - 1], calls[n], workname))
  }

  ghost predicate Follows(c: Call, d: Call, workname: string) {
    c.end <= d.start && Undisturbed(c.after, d.before, workname)
  }

  /** In this call, at this time, the work was found un-targeted without a valid annotation. */
  ghost predicate FoundAt(call: Call, k: WorkKey, t: int) {
    && call.start <= t <= call.end && k.cluster !in call.targets
    && k in call.before && !call.before[k].grace.DeleteAt? && k in call.after && call.after[k].grace == StampAt(t)
  }

  ghost predicate FoundIn(calls: seq<Call>, k: WorkKey, m: int, t: int) {
    0 <= m < |calls| && FoundAt(calls[m], k, t)
  }

  /** A valid annotation on a work that had none before the run was put there by one of its calls. */
  lemma {:induction false} AnnotationOrigin(calls: seq<Call>, workname: string, cluster: string, n: nat)
    requires Run(calls, workname) && n < |calls|
    requires var k := WorkKey(cluster, workname);
      && (forall i | 0 <= i <= n :: k in calls[i].before)
      && !calls[0].before[k].grace.DeleteAt? && calls[n].before[k].grace.DeleteAt?
    ensures var k := WorkKey(cluster, workname);
            exists m, t :: m < n && FoundIn(calls, k, m, t) && calls[n].before[k].grace == StampAt(t)
  {
    var k := WorkKey(cluster, workname);
    var last := calls[n - 1];
    assert Follows(last, calls[n], workname) && SameGrace(last.after, calls[n].before, k);
    assert GraceKeptAt(last, k);
    if last.before[k].grace.DeleteAt? {
      AnnotationOrigin(calls, workname, cluster, n - 1);
    } else {
      var t :| last.start <= t <= last.end && last.after[k].grace == StampAt(t);
      assert FoundIn(calls, k, n - 1, t);
    }
  }

  /** Whatever fails and however targets change: a work of the gateway that had no valid annotation and
      goes while its ManagedCluster exists was found un-targeted by an earlier call, at least 600 clock
      seconds before it went, unless the one graceful delete that removed it lasted as long as the grace
      period. What the annotation's whole seconds lose is less than one second. */
  lemma NeverRemovedEarly(calls: seq<Call>, workname: string, cluster: string, n: nat)
    requires Run(calls, workname) && n < |calls| && cluster in calls[n].managed
    requires var k := WorkKey(cluster, workname);
      && (forall i | 0 <= i <= n :: k in calls[i].before)
      && !calls[0].before[k].grace.DeleteAt? && k !in calls[n].after
    ensures var k := WorkKey(cluster, workname);
            && k in calls[n].removed && calls[n].start <= calls[n].removed[k].t3 <= calls[n].end
            && (calls[n].removed[k].Short() ==> GrantedBefore(calls, k, n, calls[n].removed[k].t3))
  {
    hide Unix, StampedBetween;
    var k := WorkKey(cluster, workname);
    assert GraceKeptAt(calls[n], k);
    if calls[n].removed[k].Short() {
      AnnotationOrigin(calls, workname, cluster, n);
      var m, t :| m < n && FoundIn(calls, k, m, t) && calls[n].before[k].grace == StampAt(t);
      GraceGranted(t, calls[n].removed[k].t3);
    }
  }

  /** An earlier call found the work un-targeted at least 600 clock seconds before. */
  ghost predicate GrantedBefore(calls: seq<Call>, k: WorkKey, n: nat, gone: int) {
    exists m, t :: m < n && FoundIn(calls, k, m, t) && Unix(gone) - Unix(t) >= 600 && gone - t > GRACE - SECOND
  }

  /** An annotation stays as long as the work, whatever the targets. */
  lemma {:induction false} AnnotationStays(calls: seq<Call>, workname: string, cluster: string, m: nat, n: nat)
    requires Run(calls, workname) && m <= n < |calls|
    requires var k := WorkKey(cluster, workname);
      && (forall i | m <= i <= n :: k in calls[i].before) && calls[m].before[k].grace.DeleteAt?
    ensures var k := WorkKey(cluster, workname); calls[n].before[k].grace == calls[m].before[k].grace
  {
    if m < n {
      var k := WorkKey(cluster, workname);
      AnnotationStays(calls, workname, cluster, m, n - 1);
      var last := calls[n - 1];
      assert Follows(last, calls[n], workname) && SameGrace(last.after, calls[n].before, k);
      assert GraceKeptAt(last, k);
    }
  }

  /** There is no second grace period. A work that was once found un-targeted keeps that annotation, also
      when it is targeted again in between; a later call that finds it un-targeted removes it at once if
      and only if the annotation has expired, however recently it was targeted. */
  lemma NoSecondGraceExactly(calls: seq<Call>, workname: string, cluster: string, m: nat, n: nat, t: int, u: Readings)
    requires var k := WorkKey(cluster, workname);
      Run(calls, workname) && m < n < |calls| && FoundIn(calls, k, m, t) && forall i | m < i <= n ::
          k in calls[i].before
    requires u.t0 <= u.t1 <= u.t2 <= u.t3 && u.t2 - u.t0 < GRACE
    ensures var k := WorkKey(cluster, workname);
            && calls[n].before[k].grace == StampAt(t)
            && (u.Decision(calls[n].before[k], false) == DeleteNow <==> Unix(t + GRACE) <= Unix(u.t3))
  {
    var k := WorkKey(cluster, workname);
    assert Follows(calls[m], calls[m + 1], workname) && SameGrace(calls[m].after, calls[m + 1].before, k);
    AnnotationStays(calls, workname, cluster, m + 1, n);
  }

  /** Such a run of a work that is applied: found un-targeted; targeted again, where everything is
      installed already; and un-targeted and removed with its RBAC a nanosecond later. */
  lemma GoneWithoutGrace(workname: string, cluster: string, w: Work, rbac: Work) returns (calls: seq<Call>)
    requires w.grace == NoAnnotation && w.owner == workname && w.applied && !w.deleting
    requires workname != RBAC && rbac.owner != workname
    ensures var k := WorkKey(cluster, workname);
            && Run(calls, workname) && |calls| == 3 && FoundIn(calls, k, 0, 0)
            && (forall i | 0 <= i < 3 :: cluster in calls[i].managed && cluster in PlacedOn(calls[i].before, workname))
            && (forall i | 0 <= i < 3 :: RbacFirst(calls[i].before, workname) && RbacFirst(calls[i].after, workname))
            && calls[1].targets == {cluster} &&
               AllInstalled(calls[1].before, calls[1].after, {cluster}, workname, w.spec, rbac.spec)
            && calls[2].targets == {} && BothGone(calls[2].after, cluster, workname) &&
               calls[2].end - calls[1].end == 1
  {
    var k, q := WorkKey(cluster, workname), WorkKey(cluster, RBAC);
    var stamp := w.(grace := StampAt(0));
    var found, stamped := map[q := rbac, k := w], map[q := rbac, k := stamp];
    var at := GRACE + 1;
    var first := Call(found, stamped, {}, {cluster}, map[], 0, 0);
    var second := Call(stamped, stamped, {cluster}, {cluster}, map[], GRACE, GRACE);
    var third := Call(stamped, map[], {}, {cluster}, map[k := Readings(at, at, at, at)], at, at);
    calls := [first, second, third];
    OneRun(first, second, third, k, q, w, rbac);
    assert k in found && k in stamped;
    assert cluster in PlacedOn(found, workname) && cluster in PlacedOn(stamped, workname);
  }

  lemma OneRun(first: Call, second: Call, third: Call, k: WorkKey, q: WorkKey, w: Work, rbac: Work)
    requires w.grace == NoAnnotation && k.name != RBAC && q == WorkKey(k.cluster, RBAC)
    requires var stamped, at := map[q := rbac, k := w.(grace := StampAt(0))], GRACE + 1;
      && first == Call(map[q := rbac, k := w], stamped, {}, {k.cluster}, map[], 0, 0)
      && second == Call(stamped, stamped, {k.cluster}, {k.cluster}, map[], GRACE, GRACE)
      && third == Call(stamped, map[], {}, {k.cluster}, map[k := Readings(at, at, at, at)], at, at)
    ensures GraceKept(first, k.name) && GraceKept(second, k.name) && GraceKept(third, k.name)
    ensures Follows(first, second, k.name) && Follows(second, third, k.name)
  {
    assert StampedBetween(StampAt(0), 0, 0);
  }

  /** Between two calls nothing else becomes stale, and works carry the label under their name only. */
  ghost predicate Quiet(a: Works, b: Works, targets: set<string>, workname: string) {
    Undisturbed(a, b, workname) && StaleOf(b, targets, workname) == StaleOf(a, targets, workname) &&
      (Owned(a, workname) ==> Owned(b, workname))
  }

  /** Calls with the same targets, each without API errors, the grace period or more apart. */
  ghost predicate SteadyRun(calls: seq<Call>, targets: set<string>, workname: string) {
    && (forall n | 0 <= n < |calls| :: Steady(calls[n], targets, workname))
    && (forall n | 0 < n < |calls| ::
        calls[n - 1].end + GRACE <= calls[n].start && Quiet(calls[n - 1].after, calls[n].before, targets, workname))
  }

  /** What Place ensures of a call in which nothing fails. */
  ghost predicate Steady(call: Call, targets: set<string>, workname: string) {
    && call.targets == targets && call.start <= call.end && GraceKept(call, workname)
    && (Owned(call.before, workname) ==>
        Owned(call.after, workname) && NoneNew(call.before, call.after, targets, workname))
    && (Owned(call.before, workname) && call.Due(workname) ==> Progress(call.before, call.after, targets, workname))
  }

  /** Twice the stale works without annotation, plus those with one. */
  ghost function Remaining(works: Works, targets: set<string>, workname: string): nat {
    |StaleOf(works, targets, workname)| + |UnstampedOf(works, targets, workname)|
  }

  lemma SmallerSet(a: set<string>, b: set<string>)
    requires a <= b
    ensures |a| <= |b| && (a < b ==> |a| < |b|)
  {
    assert b == a + (b - a);
  }

  lemma RemainingFalls(a: Works, b: Works, targets: set<string>, workname: string)
    requires Progress(a, b, targets, workname)
    ensures Remaining(b, targets, workname) <= Remaining(a, targets, workname)
    ensures StaleOf(a, targets, workname) != {} ==> Remaining(b, targets, workname) < Remaining(a, targets, workname)
  {
    hide StaleOf, UnstampedOf;
    SmallerSet(StaleOf(b, targets, workname), StaleOf(a, targets, workname));
    SmallerSet(UnstampedOf(b, targets, workname), UnstampedOf(a, targets, workname));
  }

  lemma RemainingQuiet(a: Works, b: Works, targets: set<string>, workname: string)
    requires Quiet(a, b, targets, workname)
    ensures Remaining(b, targets, workname) == Remaining(a, targets, workname)
  {
    hide StaleOf, Owned;
    forall c ensures c in UnstampedOf(b, targets, workname) <==> c in UnstampedOf(a, targets, workname) {
      assert SameGrace(a, b, WorkKey(c, workname));
    }
    assert UnstampedOf(b, targets, workname) == UnstampedOf(a, targets, workname);
  }

  lemma OwnedStale(works: Works, targets: set<string>, workname: string, c: string)
    requires Owned(works, workname) && c in StaleOf(works, targets, workname)
    ensures WorkKey(c, workname) in works
  {
    var k :| k in works && works[k].owner == workname && k.cluster == c;
    assert k == WorkKey(c, workname);
  }

  /** A stamp of an earlier call has expired by the next one. */
  lemma StampExpires(g: Annotation, s: int, e: int, later: int)
    requires StampedBetween(g, s, e) && e + GRACE <= later
    ensures g.DeleteAt? && g.seconds <= Unix(later)
  {}

  /** The annotation of a work that is stale in the next call has expired by then, or it is what it was. */
  lemma StaleNext(call: Call, next: Call, targets: set<string>, workname: string, c: string)
    requires Steady(call, targets, workname) && Owned(call.before, workname)
    requires call.end + GRACE <= next.start && Quiet(call.after, next.before, targets, workname)
    requires c in StaleOf(next.before, targets, workname)
    ensures var k := WorkKey(c, workname);
            && c in StaleOf(call.before, targets, workname) && k in call.before && k in next.before
            && (next.before[k].grace == call.before[k].grace || Expired(next.before[k], next.start))
  {
    hide StaleOf, Owned, UnstampedOf, StampedBetween, Progress;
    var k := WorkKey(c, workname);
    OwnedStale(next.before, targets, workname, c);
    OwnedStale(call.before, targets, workname, c);
    assert SameGrace(call.after, next.before, k) && GraceKeptAt(call, k);
    if call.after[k].grace != call.before[k].grace {
      StampExpires(call.after[k].grace, call.start, call.end, next.start);
    }
  }

  lemma OwnedNext(call: Call, next: Call, targets: set<string>, workname: string)
    requires Steady(call, targets, workname) && Owned(call.before, workname) &&
             Quiet(call.after, next.before, targets, workname)
    ensures Owned(next.before, workname) &&
            StaleOf(next.before, targets, workname) <= StaleOf(call.before, targets, workname)
  {
    hide Owned, StaleOf, GraceKept, Progress, Undisturbed, Ready, UnstampedOf;
  }

  lemma DueNext(call: Call, next: Call, targets: set<string>, workname: string)
    requires Steady(call, targets, workname) && Owned(call.before, workname) && call.Due(workname)
    requires call.end + GRACE <= next.start && Quiet(call.after, next.before, targets, workname) &&
             next.targets == targets
    ensures Owned(next.before, workname) && next.Due(workname)
  {
    hide StaleOf, Owned, GraceKept, NoneNew, Progress, Undisturbed;
    OwnedNext(call, next, targets, workname);
    assert Unix(call.start) <= Unix(next.start);
    forall c | c in StaleOf(next.before, targets, workname)
      ensures var k := WorkKey(c, workname);
              k in next.before && (next.before[k].grace.DeleteAt? ==> Expired(next.before[k], next.start))
    {
      StaleNext(call, next, targets, workname, c);
    }
  }

  /** Each call strictly lowers what remains, until nothing is stale. */
  lemma {:induction false} CallsLower(calls: seq<Call>, targets: set<string>, workname: string, n: nat)
    requires SteadyRun(calls, targets, workname) && n < |calls|
    requires Owned(calls[0].before, workname) && calls[0].Due(workname)
    ensures Owned(calls[n].before, workname) && calls[n].Due(workname)
    ensures StaleOf(calls[n].after, targets, workname) == {} ||
            Remaining(calls[n].after, targets, workname) + n + 1 <= Remaining(calls[0].before, targets, workname)
  {
    hide Owned, StaleOf, Quiet, Remaining, Ready, Progress, GraceKept;
    if n > 0 {
      CallsLower(calls, targets, workname, n - 1);
      DueNext(calls[n - 1], calls[n], targets, workname);
      RemainingQuiet(calls[n - 1].after, calls[n].before, targets, workname);
    }
    StaleStays(calls[n], targets, workname);
    if n > 0 {
      QuietStale(calls[n - 1].after, calls[n].before, targets, workname);
    }
    RemainingFalls(calls[n].before, calls[n].after, targets, workname);
  }

  lemma QuietStale(a: Works, b: Works, targets: set<string>, workname: string)
    requires Quiet(a, b, targets, workname)
    ensures StaleOf(b, targets, workname) == StaleOf(a, targets, workname)
  {}

  lemma StaleStays(call: Call, targets: set<string>, workname: string)
    requires Steady(call, targets, workname) && Owned(call.before, workname) && call.Due(workname)
    ensures Progress(call.before, call.after, targets, workname)
    ensures StaleOf(call.before, targets, workname) == {} ==> StaleOf(call.after, targets, workname) == {}
  {
    hide StaleOf;
  }

  /** From a call on at which all annotations have expired, twice as many calls as there are stale
      clusters are enough. */
  lemma DueConverges(calls: seq<Call>, targets: set<string>, workname: string)
    requires SteadyRun(calls, targets, workname) && calls != []
    requires Owned(calls[0].before, workname) && calls[0].Due(workname)
    requires |calls| >= 2 * |StaleOf(calls[0].before, targets, workname)|
    ensures StaleOf(calls[|calls| - 1].after, targets, workname) == {}
  {
    hide StaleOf, SteadyRun, Owned, Ready;
    var stale := StaleOf(calls[0].before, targets, workname);
    CallsLower(calls, targets, workname, |calls| - 1);
    SmallerSet(UnstampedOf(calls[0].before, targets, workname), stale);
    var left := StaleOf(calls[|calls| - 1].after, targets, workname);
    assert left == {} || |left| > 0;
  }

  /** In the n-th call a stale work was stale from the start, and has the annotation it had then or one
      that has expired. */
  lemma {:induction false} StaleSinceStart(calls: seq<Call>, targets: set<string>, workname: string, n: nat)
    requires SteadyRun(calls, targets, workname) && n < |calls| && Owned(calls[0].before, workname)
    ensures Owned(calls[n].before, workname)
    ensures forall c | c in StaleOf(calls[n].before, targets, workname) :: SinceStart(calls, targets, workname, n, c)
  {
    hide Owned, StaleOf, Quiet, Steady;
    if n > 0 {
      StaleSinceStart(calls, targets, workname, n - 1);
      SpacedAt(calls, targets, workname, n);
      OwnedNext(calls[n - 1], calls[n], targets, workname);
      assert Unix(calls[n - 1].start) <= Unix(calls[n].start);
    }
    forall c | c in StaleOf(calls[n].before, targets, workname) ensures SinceStart(calls, targets, workname, n, c) {
      if n > 0 {
        StaleNext(calls[n - 1], calls[n], targets, workname, c);
        assert SinceStart(calls, targets, workname, n - 1, c);
      } else {
        OwnedStale(calls[0].before, targets, workname, c);
      }
    }
  }

  lemma SpacedAt(calls: seq<Call>, targets: set<string>, workname: string, n: nat)
    requires SteadyRun(calls, targets, workname) && 0 < n < |calls|
    ensures Steady(calls[n - 1], targets, workname) && Steady(calls[n], targets, workname)
    ensures calls[n - 1].start <= calls[n - 1].end && calls[n - 1].end + GRACE <= calls[n].start
    ensures Quiet(calls[n - 1].after, calls[n].before, targets, workname)
  {}

  ghost predicate SinceStart(calls: seq<Call>, targets: set<string>, workname: string, n: nat, c: string) {
    var k := WorkKey(c, workname);
    && n < |calls| && c in StaleOf(calls[0].before, targets, workname) && k in calls[0].before && k in calls[n].before
    && (calls[n].before[k].grace == calls[0].before[k].grace || Expired(calls[n].before[k], calls[n].start))
  }

  /** Convergence: whatever annotations there are at first, once they have expired twice as many calls as
      there were stale clusters are enough, in whatever order the calls take the clusters. */
  lemma PlaceConverges(calls: seq<Call>, targets: set<string>, workname: string, n: nat)
    requires SteadyRun(calls, targets, workname) && n < |calls| && Owned(calls[0].before, workname)
    requires var stale := StaleOf(calls[0].before, targets, workname);
             Ready(calls[0].before, stale, workname, calls[n].start) && |calls| - n >= 2 * |stale|
    ensures StaleOf(calls[|calls| - 1].after, targets, workname) == {}
  {
    hide Owned, StaleOf, Quiet, Steady;
    var rest := calls[n..];
    StaleSinceStart(calls, targets, workname, n);
    assert SteadyRun(rest, targets, workname) by { RestSteady(calls, targets, workname, n); }
    TargetsOfRun(calls, targets, workname, n);
    forall c | c in StaleOf(rest[0].before, targets, workname)
      ensures var k := WorkKey(c, workname);
              k in rest[0].before && (rest[0].before[k].grace.DeleteAt? ==> Expired(rest[0].before[k], rest[0].start))
      ensures c in StaleOf(calls[0].before, targets, workname)
    {
      assert SinceStart(calls, targets, workname, n, c);
    }
    SmallerSet(StaleOf(rest[0].before, targets, workname), StaleOf(calls[0].before, targets, workname));
    DueConverges(rest, targets, workname);
  }

  lemma TargetsOfRun(calls: seq<Call>, targets: set<string>, workname: string, n: nat)
    requires SteadyRun(calls, targets, workname) && n < |calls|
    ensures calls[n].targets == targets
  {}

  lemma RestSteady(calls: seq<Call>, targets: set<string>, workname: string, n: nat)
    requires SteadyRun(calls, targets, workname) && n <= |calls|
    ensures SteadyRun(calls[n..], targets, workname)
  {
    hide Steady, Quiet;
    var rest := calls[n..];
    forall m | 0 < m < |rest|
      ensures rest[m - 1].end + GRACE <= rest[m].start && Quiet(rest[m - 1].after, rest[m].before, targets, workname)
    {
      assert rest[m] == calls[n + m] && rest[m - 1] == calls[n + m - 1];
    }
  }
}

/** Health checks at the provider and the cache in front of them (pkg/dns/health.go:84-117,
    pkg/dns/aws/health.go:42-206). Failing API calls are a parameter of each call. */
module HealthCache {
  import opened Options
  import opened Endpoints
  import Route53

  const DEFAULT_PATH := "/"
  const DEFAULT_PORT := 80
  const DEFAULT_FAILURE_THRESHOLD := 3

  datatype Spec = Spec(id: string, name: string, port: Option<int>, threshold: Option<int>, protocol: Option<string>,
    path: string)

  /** A health check as the provider has it, with its two tags. */
  datatype Check = Check(
    fqdn: Option<string>, ip: Option<string>, path: Option<string>, port: Option<int>, threshold: Option<int>,
    kind: Option<string>, idTag: string, nameTag: string)

  /** The fields an update names; the others stay as they are. */
  datatype Update = Update(fqdn: Option<string>, ip: Option<string>, path: Option<string>, port: Option<int>,
    threshold: Option<int>)

  datatype Result = Created | Updated | Deleted | Noop | Error

  /** How the provider's API answers during one call: it does what is asked, it refuses, or it creates a
      check and then refuses to tag it. */
  datatype Api = Fine | Refused | NotTagged

  datatype Provider = Provider(checks: map<string, Check>, made: nat)

  datatype Outcome = Outcome(provider: Provider, endpoint: Endpoint, result: Result)

  function Address(e: Endpoint): string {
    if e.setIdentifier == "" || |e.targets| == 0 then "" else e.targets[0]
  }

  function OrDefault<T>(o: Option<T>, default: T): T {
    if o.Some? then o.value else default
  }

  function KindOf(protocol: Option<string>): Option<string> {
    if protocol == Some("HTTP") || protocol == Some("HTTPS") then protocol else None
  }

  function NewCheck(spec: Spec, e: Endpoint): Check {
    Check(Some(e.dnsName), Some(Address(e)), Some(spec.path), spec.port, spec.threshold, KindOf(spec.protocol), spec.id,
      spec.name)
  }

  // ----- updating a check -----

  ghost predicate Matches(c: Check, spec: Spec, e: Endpoint) {
    && c.fqdn == Some(e.dnsName) && c.ip == Some(Address(e)) && OrDefault(c.path, DEFAULT_PATH) == spec.path
    && OrDefault(c.port, DEFAULT_PORT) == OrDefault(spec.port, DEFAULT_PORT)
    && OrDefault(c.threshold, DEFAULT_FAILURE_THRESHOLD) == OrDefault(spec.threshold, DEFAULT_FAILURE_THRESHOLD)
  }

  function Merge<T>(o: Option<T>, change: Option<T>): Option<T> {
    if change.Some? then change else o
  }

  /** What the provider makes of an update. */
  function Applied(c: Check, u: Update): Check {
    c.(fqdn := Merge(c.fqdn, u.fqdn), ip := Merge(c.ip, u.ip), path := Merge(c.path, u.path),
       port := Merge(c.port, u.port), threshold := Merge(c.threshold, u.threshold))
  }

  /** The check a reconciliation leaves behind. A port or threshold that the specification does not
      state stays as it is, also where it is not the default. */
  function Reconciled(c: Check, spec: Spec, e: Endpoint): Check {
    c.(fqdn := Some(e.dnsName), ip := Some(Address(e)),
       path := if OrDefault(c.path, DEFAULT_PATH) == spec.path then c.path else Some(spec.path),
       port := if OrDefault(c.port, DEFAULT_PORT) == OrDefault(spec.port, DEFAULT_PORT) then c.port else
           Merge(c.port, spec.port),
       threshold := if OrDefault(c.threshold, DEFAULT_FAILURE_THRESHOLD) ==
         OrDefault(spec.threshold, DEFAULT_FAILURE_THRESHOLD) then c.threshold
                    else Merge(c.threshold, spec.threshold))
  }

  /** healthCheckDiff: an update exactly when something differs, and one that leads to Reconciled. */
  method HealthCheckDiff(c: Check, spec: Spec, e: Endpoint) returns (diff: Option<Update>)
    ensures diff.None? <==> Matches(c, spec, e)
    ensures Reconciled(c, spec, e) == if diff.Some? then Applied(c, diff.value) else c
  {
    var nothing := Update(None, None, None, None, None);
    diff := None;
    if c.fqdn != Some(e.dnsName) {
      diff := Some(OrDefault(diff, nothing).(fqdn := Some(e.dnsName)));
    }
    if c.ip != Some(Address(e)) {
      diff := Some(OrDefault(diff, nothing).(ip := Some(Address(e))));
    }
    if OrDefault(c.path, DEFAULT_PATH) != spec.path {
      diff := Some(OrDefault(diff, nothing).(path := Some(spec.path)));
    }
    if OrDefault(c.port, DEFAULT_PORT) != OrDefault(spec.port, DEFAULT_PORT) {
      diff := Some(OrDefault(diff, nothing).(port := spec.port));
    }
    if OrDefault(c.threshold, DEFAULT_FAILURE_THRESHOLD) != OrDefault(spec.threshold, DEFAULT_FAILURE_THRESHOLD) {
      diff := Some(OrDefault(diff, nothing).(threshold := spec.threshold));
    }
  }

  /** Reconciling a second time changes nothing. */
  lemma ReconciledTwice(c: Check, spec: Spec, e: Endpoint, e': Endpoint)
    requires e'.dnsName == e.dnsName && Address(e') == Address(e)
    ensures Reconciled(Reconciled(c, spec, e), spec, e') == Reconciled(c, spec, e)
  {}

  /** A port or threshold the specification leaves out is the default. */
  ghost predicate LeftOutIsDefault(c: Check, spec: Spec) {
    && (spec.port.None? ==> OrDefault(c.port, 80) == 80)
    && (spec.threshold.None? ==> OrDefault(c.threshold, 3) == 3)
  }

  /** One reconciliation settles the check, so that the next finds nothing to update, if and only if
      each value the specification leaves out is the default in the check as it was. Otherwise every
      further one sends an update that changes nothing. */
  lemma SettlesExactly(c: Check, spec: Spec, e: Endpoint)
    ensures Matches(Reconciled(c, spec, e), spec, e) <==> LeftOutIsDefault(c, spec)
  {}

  /** The check has what the endpoint and the specification say, as far as the specification says it. */
  predicate UpToDate(c: Check, spec: Spec, e: Endpoint) {
    && c.fqdn == Some(e.dnsName) && c.ip == Some(Address(e)) && OrDefault(c.path, DEFAULT_PATH) == spec.path
    && (spec.port.Some? ==> OrDefault(c.port, DEFAULT_PORT) == spec.port.value)
    && (spec.threshold.Some? ==> OrDefault(c.threshold, DEFAULT_FAILURE_THRESHOLD) == spec.threshold.value)
  }

  /** Reconciling brings a check up to date and leaves alone exactly those that are. */
  lemma ReconciledUpToDate(c: Check, spec: Spec, e: Endpoint)
    ensures UpToDate(Reconciled(c, spec, e), spec, e)
    ensures Reconciled(c, spec, e) == c <==> UpToDate(c, spec, e)
  {}

  /** A new check has what endpoint and specification say, its kind only for a known protocol, and both
      tags. The address is the endpoint's first target, if it has a set identifier. */
  lemma NewCheckExactly(spec: Spec, e: Endpoint)
    ensures var c := NewCheck(spec, e);
            && UpToDate(c, spec, e)
            && c.path == Some(spec.path) && c.port == spec.port && c.threshold == spec.threshold
            && c.fqdn == Some(e.dnsName) && c.idTag == spec.id && c.nameTag == spec.name
            && (c.kind.Some? <==> spec.protocol in {Some("HTTP"), Some("HTTPS")})
            && (c.kind.Some? ==> c.kind == spec.protocol)
            && (e.setIdentifier != "" && e.targets != [] ==> c.ip == Some(e.targets[0]))
            && (e.setIdentifier == "" || e.targets == [] ==> c.ip == Some(""))
  {}

  /** Reconciling changes neither kind nor tags, nor a port or threshold the specification leaves out. */
  lemma ReconciledKeeps(c: Check, spec: Spec, e: Endpoint)
    ensures var d := Reconciled(c, spec, e);
            && d.kind == c.kind && d.idTag == c.idTag && d.nameTag == c.nameTag
            && (spec.port.None? ==> d.port == c.port) && (spec.threshold.None? ==> d.threshold == c.threshold)
            && d.fqdn == Some(e.dnsName) && OrDefault(d.path, "/") == spec.path
            && (spec.port.Some? ==> OrDefault(d.port, 80) == spec.port.value)
            && (spec.threshold.Some? ==> OrDefault(d.threshold, 3) == spec.threshold.value)
  {}

  /** A port that is taken out of the specification again stays, and the check never settles: each
      reconciliation finds a difference, and none changes anything. */
  lemma NeverSettles(e: Endpoint)
    ensures var spec := Spec("id", "name", None, None, None, "/");
            var c := NewCheck(spec.(port := Some(8080)), e);
            && Reconciled(c, spec, e) == c && !Matches(c, spec, e)
  {
    var spec := Spec("id", "name", None, None, None, "/");
    SettlesExactly(NewCheck(spec.(port := Some(8080)), e), spec, e);
  }

  // ----- the delegate -----

  function IdOf(e: Endpoint): Option<string> {
    e.Get(Route53.HEALTH_CHECK_ID)
  }

  function WithId(e: Endpoint, id: string): Endpoint {
    e.With(Route53.HEALTH_CHECK_ID, id)
  }

  function WithoutId(e: Endpoint): Endpoint {
    e.(props := Erase(e.props, Route53.HEALTH_CHECK_ID))
  }

  /** Reconcile of the delegate: an endpoint without an id gets a new check, one whose id is unknown is
      an error, and a check that could not be tagged is left behind without the endpoint knowing its id. */
  ghost function Delegated(p: Provider, ids: nat -> string, spec: Spec, e: Endpoint, api: Api): Outcome {
    if api.Refused? then Outcome(p, e, Error)
    else
      match IdOf(e)
      case None =>
        var id := ids(p.made);
        if api.NotTagged? then
          Outcome(Provider(p.checks[id := NewCheck(spec, e).(idTag := "", nameTag := "")], p.made + 1), e, Error)
        else Outcome(Provider(p.checks[id := NewCheck(spec, e)], p.made + 1), WithId(e, id), Created)
      case Some(id) =>
        if id !in p.checks then Outcome(p, e, Error)
        else
          Outcome(p.(checks := p.checks[id := Reconciled(p.checks[id], spec, e)]), e,
            if Matches(p.checks[id], spec, e) then Noop else Updated)
  }

  ghost function DelegatedDelete(p: Provider, e: Endpoint, api: Api): Outcome {
    match IdOf(e)
    case None => Outcome(p, e, Noop)
    case Some(id) =>
      if api.Refused? || id !in p.checks then Outcome(p, e, Error)
      else Outcome(p.(checks := p.checks - {id}), WithoutId(e), Deleted)
  }

  /** All checks but this one are the same. */
  ghost predicate OthersSame(a: Provider, b: Provider, id: string) {
    forall x | x != id :: (x in a.checks <==> x in b.checks) && (x in a.checks ==> a.checks[x] == b.checks[x])
  }

  lemma MatchesExactly(c: Check, spec: Spec, e: Endpoint)
    ensures Matches(c, spec, e) <==> UpToDate(c, spec, e) && LeftOutIsDefault(c, spec)
  {}

  /** A call of the delegate that does not fail leaves the endpoint with the id of a check that is up to
      date: its own if it had one, else a new one. It fails if and only if the API refuses, the id is
      unknown, or a new check cannot be tagged. */
  lemma DelegateReaches(p: Provider, ids: nat -> string, spec: Spec, e: Endpoint, api: Api)
    ensures var o := Delegated(p, ids, spec, e, api);
            && (o.result == Error <==>
                  api == Refused || (IdOf(e).Some? && IdOf(e).value !in p.checks) ||
                    (IdOf(e).None? && api == NotTagged))
            && (o.result == Error ==> o.endpoint == e && (o.provider == p || (IdOf(e).None? && api == NotTagged)))
            && (o.result == Created <==> o.result != Error && IdOf(e).None?)
            && (o.result == Noop <==>
                  o.result != Error && IdOf(e).Some? && UpToDate(p.checks[IdOf(e).value], spec, e) &&
                  LeftOutIsDefault(p.checks[IdOf(e).value], spec))
            && (o.result != Error ==>
                  && IdOf(o.endpoint).Some? && IdOf(o.endpoint).value in o.provider.checks
                  && UpToDate(o.provider.checks[IdOf(o.endpoint).value], spec, e)
                  && IdOf(o.endpoint).value == (if IdOf(e).Some? then IdOf(e).value else ids(p.made))
                  && o.endpoint == e.(props := o.endpoint.props) && OthersSame(p, o.provider, IdOf(o.endpoint).value)
                  && forall name | name != "aws/health-check-id" :: o.endpoint.Get(name) == e.Get(name))
  {
    hide UpToDate, Reconciled, NewCheck, Matches, LeftOutIsDefault;
    match IdOf(e) {
      case None =>
        var id := ids(p.made);
        NewCheckExactly(spec, e);
        LookupAssign(e.props, Route53.HEALTH_CHECK_ID, id, Route53.HEALTH_CHECK_ID);
        forall name | name != "aws/health-check-id" ensures WithId(e, id).Get(name) == e.Get(name) {
          LookupAssign(e.props, Route53.HEALTH_CHECK_ID, id, name);
        }
      case Some(id) =>
        if id in p.checks {
          ReconciledUpToDate(p.checks[id], spec, e);
          MatchesExactly(p.checks[id], spec, e);
        }
    }
  }

  /** A delete that does not fail leaves the endpoint without id and the provider without its check. */
  lemma DeleteReaches(p: Provider, e: Endpoint, api: Api)
    ensures var o := DelegatedDelete(p, e, api);
            && (o.result == Error <==> IdOf(e).Some? && (api == Refused || IdOf(e).value !in p.checks))
            && (o.result == Noop <==> IdOf(e).None?) && (o.result == Error ==> o.provider == p && o.endpoint == e)
            && (o.result != Error ==>
                  && IdOf(o.endpoint).None? && o.endpoint == e.(props := o.endpoint.props)
                  && (IdOf(e).None? ==> o.provider == p)
                  && (IdOf(e).Some? ==> IdOf(e).value !in o.provider.checks && OthersSame(p, o.provider, IdOf(e).value))
                  && forall name | name != "aws/health-check-id" :: o.endpoint.Get(name) == e.Get(name))
  {
    if IdOf(e).Some? {
      LookupErase(e.props, Route53.HEALTH_CHECK_ID, Route53.HEALTH_CHECK_ID);
      forall name | name != "aws/health-check-id" ensures WithoutId(e).Get(name) == e.Get(name) {
        LookupErase(e.props, Route53.HEALTH_CHECK_ID, name);
      }
    }
  }

  /** The provider's health-check API behind the delegate. */
  class Route53HealthCheckReconciler {
    const ids: nat -> string
    var checks: map<string, Check>
    var made: nat

    constructor (ids: nat -> string)
      ensures this.ids == ids && State() == Provider(map[], 0)
    {
      this.ids, checks, made := ids, map[], 0;
    }

    ghost function State(): Provider
      reads this
    {
      Provider(checks, made)
    }

    method Reconcile(spec: Spec, endpoint: EndpointObject, api: Api) returns (result: Result)
      modifies this, endpoint`props
      ensures Outcome(State(), endpoint.View(), result) ==
              Delegated(old(State()), ids, spec, old(endpoint.View()), api)
    {
      hide Reconciled, NewCheck, Matches;
      if api.Refused? {
        return Error;
      }
      var found := endpoint.GetProviderSpecific(Route53.HEALTH_CHECK_ID);
      if found.Some? {
        var id := found.value;
        if id !in checks {
          return Error;
        }
        var diff := HealthCheckDiff(checks[id], spec, endpoint.View());
        checks := checks[id := if diff.Some? then Applied(checks[id], diff.value) else checks[id]];
        AssignCurrent(endpoint.props, Route53.HEALTH_CHECK_ID, id);
        endpoint.SetProviderSpecific(Route53.HEALTH_CHECK_ID, id);
        return if diff.Some? then Updated else Noop;
      }
      var id := ids(made);
      var check := NewCheck(spec, endpoint.View());
      if api.NotTagged? {
        checks, made := checks[id := check.(idTag := "", nameTag := "")], made + 1;
        return Error;
      }
      checks, made := checks[id := check], made + 1;
      endpoint.SetProviderSpecific(Route53.HEALTH_CHECK_ID, id);
      return Created;
    }

    method Delete(endpoint: EndpointObject, api: Api) returns (result: Result)
      modifies this, endpoint`props
      ensures Outcome(State(), endpoint.View(), result) == DelegatedDelete(old(State()), old(endpoint.View()), api)
    {
      var found := endpoint.GetProviderSpecific(Route53.HEALTH_CHECK_ID);
      if found.None? {
        return Noop;
      }
      if api.Refused? || found.value !in checks {
        return Error;
      }
      checks := checks - {found.value};
      var deleted := endpoint.DeleteProviderSpecific(Route53.HEALTH_CHECK_ID);
      return Deleted;
    }
  }

  // ----- the cache -----

  type Cache = map<string, Spec>

  predicate Hit(cache: Cache, spec: Spec, e: Endpoint) {
    IdOf(e).Some? && IdOf(e).value in cache && cache[IdOf(e).value] == spec
  }

  ghost function CachedOutcome(
    p: Provider, ids: nat -> string, cache: Cache, spec: Spec, e: Endpoint, api: Api): Outcome {
    if Hit(cache, spec, e) then Outcome(p, e, Noop) else Delegated(p, ids, spec, e, api)
  }

  /** The specification is remembered whatever came of it, but only under an id the endpoint had. */
  function Remembered(cache: Cache, spec: Spec, e: Endpoint): Cache {
    if IdOf(e).Some? then cache[IdOf(e).value := spec] else cache
  }

  function Forgotten(cache: Cache, e: Endpoint): Cache {
    if IdOf(e).Some? then cache - {IdOf(e).value} else cache
  }

  class CachedHealthCheckReconciler {
    const reconciler: Route53HealthCheckReconciler
    var syncCache: Cache

    constructor (reconciler: Route53HealthCheckReconciler)
      ensures this.reconciler == reconciler && syncCache == map[]
    {
      this.reconciler, syncCache := reconciler, map[];
    }

    method Reconcile(spec: Spec, endpoint: EndpointObject, api: Api) returns (result: Result)
      modifies this, reconciler, endpoint`props
      ensures Outcome(reconciler.State(), endpoint.View(), result) ==
              CachedOutcome(old(reconciler.State()), reconciler.ids, old(syncCache), spec, old(endpoint.View()), api)
      ensures syncCache == Remembered(old(syncCache), spec, old(endpoint.View()))
    {
      hide Delegated;
      var found := endpoint.GetProviderSpecific(Route53.HEALTH_CHECK_ID);
      if found.None? {
        result := reconciler.Reconcile(spec, endpoint, api);
        return;
      }
      var id := found.value;
      if id in syncCache && syncCache[id] == spec {
        result := Noop;
      } else {
        result := reconciler.Reconcile(spec, endpoint, api);
      }
      syncCache := syncCache[id := spec];
    }

    method Delete(endpoint: EndpointObject, api: Api) returns (result: Result)
      modifies this, reconciler, endpoint`props
      ensures Outcome(reconciler.State(), endpoint.View(), result) ==
              DelegatedDelete(old(reconciler.State()), old(endpoint.View()), api)
      ensures syncCache == Forgotten(old(syncCache), old(endpoint.View()))
    {
      var found := endpoint.GetProviderSpecific(Route53.HEALTH_CHECK_ID);
      if found.None? {
        return Noop;
      }
      result := reconciler.Delete(endpoint, api);
      syncCache := syncCache - {found.value};
    }
  }

  // ----- runs with and without the cache -----

  datatype Op = Reconcile(spec: Spec, endpoint: Endpoint, api: Api) | Delete(endpoint: Endpoint, api: Api)

  ghost function Direct(p: Provider, ids: nat -> string, op: Op): Outcome {
    match op
    case Reconcile(spec, e, api) => Delegated(p, ids, spec, e, api)
    case Delete(e, api) => DelegatedDelete(p, e, api)
  }

  ghost function Cached(p: Provider, ids: nat -> string, cache: Cache, op: Op): Outcome {
    match op
    case Reconcile(spec, e, api) => CachedOutcome(p, ids, cache, spec, e, api)
    case Delete(e, api) => DelegatedDelete(p, e, api)
  }

  function CacheAfter(cache: Cache, op: Op): Cache {
    match op
    case Reconcile(spec, e, _) => Remembered(cache, spec, e)
    case Delete(e, _) => Forgotten(cache, e)
  }

  /** The outcomes of a run without the cache. */
  ghost function DirectRun(p: Provider, ids: nat -> string, ops: seq<Op>): seq<Outcome>
    decreases |ops|
  {
    if ops == [] then [] else
      var o := Direct(p, ids, ops[0]);
      [o] + DirectRun(o.provider, ids, ops[1..])
  }

  ghost function CachedRun(p: Provider, ids: nat -> string, cache: Cache, ops: seq<Op>): seq<Outcome>
    decreases |ops|
  {
    if ops == [] then [] else
      var o := Cached(p, ids, cache, ops[0]);
      [o] + CachedRun(o.provider, ids, CacheAfter(cache, ops[0]), ops[1..])
  }

  ghost predicate ErrorFree(run: seq<Outcome>) {
    forall o | o in run :: o.result != Error
  }

  /** Equal but for what the call reports: a hit reports Noop where an update that changes nothing is
      reported as Updated. */
  ghost predicate SameEffects(a: seq<Outcome>, b: seq<Outcome>) {
    |a| == |b| && forall i | 0 <= i < |a| :: SameEffect(a[i], b[i])
  }

  ghost predicate SameEffect(a: Outcome, b: Outcome) {
    a.provider == b.provider && a.endpoint == b.endpoint && (a.result == Error <==> b.result == Error)
  }

  /** What a check is about does not change while it has its id. */
  datatype About = About(dnsName: string, address: string)

  ghost predicate Fixed(op: Op, about: string -> About) {
    IdOf(op.endpoint).Some? ==> about(IdOf(op.endpoint).value) == About(op.endpoint.dnsName, Address(op.endpoint))
  }

  ghost predicate StandsAt(c: Check, spec: Spec, a: About) {
    forall e: Endpoint | a == About(e.dnsName, Address(e)) :: Reconciled(c, spec, e) == c
  }

  /** What is remembered is what the provider has. */
  ghost predicate Sound(cache: Cache, p: Provider, about: string -> About) {
    forall id | id in cache :: id in p.checks && StandsAt(p.checks[id], cache[id], about(id))
  }

  /** New checks get ids that no check has yet. */
  ghost predicate FreshIds(p: Provider, ids: nat -> string) {
    && (forall n, m | p.made <= n < m :: ids(n) != ids(m))
    && (forall n: nat | p.made <= n :: ids(n) !in p.checks)
  }

  /** Skipping the delegate on a hit is harmless if and only if the check is up to date. */
  lemma HitHarmlessExactly(p: Provider, ids: nat -> string, cache: Cache, spec: Spec, e: Endpoint)
    requires Hit(cache, spec, e) && IdOf(e).value in p.checks
    ensures SameEffect(Cached(p, ids, cache, Reconcile(spec, e, Fine)), Direct(p, ids, Reconcile(spec, e, Fine))) <==>
            UpToDate(p.checks[IdOf(e).value], spec, e)
  {
    hide Reconciled, Matches, UpToDate;
    var id := IdOf(e).value;
    var q := Direct(p, ids, Reconcile(spec, e, Fine)).provider;
    assert q.checks[id] == Reconciled(p.checks[id], spec, e);
    ReconciledUpToDate(p.checks[id], spec, e);
    if Reconciled(p.checks[id], spec, e) == p.checks[id] {
      assert q.checks == p.checks;
    }
  }

  lemma StandsAfter(c: Check, spec: Spec, e: Endpoint)
    ensures StandsAt(Reconciled(c, spec, e), spec, About(e.dnsName, Address(e)))
  {
    forall e': Endpoint | About(e.dnsName, Address(e)) == About(e'.dnsName, Address(e'))
      ensures Reconciled(Reconciled(c, spec, e), spec, e') == Reconciled(c, spec, e)
    {
      ReconciledTwice(c, spec, e, e');
    }
  }

  lemma OneOp(p: Provider, ids: nat -> string, cache: Cache, op: Op, about: string -> About)
    requires Sound(cache, p, about) && FreshIds(p, ids) && Fixed(op, about)
    requires Direct(p, ids, op).result != Error
    ensures SameEffect(Cached(p, ids, cache, op), Direct(p, ids, op))
    ensures Sound(CacheAfter(cache, op), Direct(p, ids, op).provider, about) &&
            FreshIds(Direct(p, ids, op).provider, ids)
  {
    hide Reconciled, Matches, NewCheck, StandsAt, UpToDate;
    var q := Direct(p, ids, op).provider;
    if op.Reconcile? && IdOf(op.endpoint).Some? {
      var id := IdOf(op.endpoint).value;
      StandsAfter(p.checks[id], op.spec, op.endpoint);
      if Hit(cache, op.spec, op.endpoint) {
        Stands(p.checks[id], op.spec, op.endpoint);
        ReconciledUpToDate(p.checks[id], op.spec, op.endpoint);
        HitHarmlessExactly(p, ids, cache, op.spec, op.endpoint);
      }
    }
  }

  lemma Stands(c: Check, spec: Spec, e: Endpoint)
    requires StandsAt(c, spec, About(e.dnsName, Address(e)))
    ensures Reconciled(c, spec, e) == c
  {}

  /** The cache is transparent: in every run of Reconcile and Delete calls that is free of errors
      without it, and in which a health check keeps its name and address, the provider and the
      endpoints are the same with it after every call. */
  lemma {:induction false} CacheTransparent(
    p: Provider, ids: nat -> string, cache: Cache, ops: seq<Op>, about: string -> About)
    requires Sound(cache, p, about) && FreshIds(p, ids)
    requires forall op | op in ops :: Fixed(op, about)
    requires ErrorFree(DirectRun(p, ids, ops))
    ensures SameEffects(CachedRun(p, ids, cache, ops), DirectRun(p, ids, ops))
    decreases |ops|
  {
    hide Sound, FreshIds, Direct, Cached, CacheAfter, Fixed;
    if ops != [] {
      var o := Direct(p, ids, ops[0]);
      assert o in DirectRun(p, ids, ops);
      OneOp(p, ids, cache, ops[0], about);
      assert ErrorFree(DirectRun(o.provider, ids, ops[1..]));
      CacheTransparent(o.provider, ids, CacheAfter(cache, ops[0]), ops[1..], about);
      assert Cached(p, ids, cache, ops[0]).provider == o.provider;
    }
  }

  /** The empty cache is sound, so this covers every run from the start. */
  lemma TransparentFromStart(p: Provider, ids: nat -> string, ops: seq<Op>, about: string -> About)
    requires FreshIds(p, ids) && (forall op | op in ops :: Fixed(op, about)) && ErrorFree(DirectRun(p, ids, ops))
    ensures SameEffects(CachedRun(p, ids, map[], ops), DirectRun(p, ids, ops)) &&
            ErrorFree(CachedRun(p, ids, map[], ops))
  {
    hide FreshIds, DirectRun, CachedRun, Fixed;
    CacheTransparent(p, ids, map[], ops, about);
    var cached, direct := CachedRun(p, ids, map[], ops), DirectRun(p, ids, ops);
    forall o | o in cached ensures o.result != Error {
      var i :| 0 <= i < |cached| && cached[i] == o;
      assert SameEffect(cached[i], direct[i]) && direct[i] in direct;
    }
  }

  /** After a call for an id, whatever came of it, the delegate is not asked if and only if that was a
      reconciliation with the same specification; the other ids are answered as before. */
  lemma RemembersLastOnly(
    p: Provider, ids: nat -> string, cache: Cache, last: Op, spec: Spec, e: Endpoint, api: Api)
    requires IdOf(last.endpoint).Some?
    ensures var next := Reconcile(spec, e, api);
            var answer := Cached(p, ids, CacheAfter(cache, last), next);
            if IdOf(e) != IdOf(last.endpoint) then answer == Cached(p, ids, cache, next)
            else if last.Reconcile? && last.spec == spec then answer == Outcome(p, e, Noop)
            else answer == Direct(p, ids, next)
  {}

  /** Freedom from errors is needed: what failed is remembered as done. The same call again does
      nothing, and agrees with the delegate's if and only if the check was up to date all along. */
  lemma FailureRememberedExactly(p: Provider, ids: nat -> string, cache: Cache, spec: Spec, e: Endpoint)
    requires IdOf(e).Some? && IdOf(e).value in p.checks && !Hit(cache, spec, e)
    ensures var failing, again := Reconcile(spec, e, Refused), Reconcile(spec, e, Fine);
            && Cached(p, ids, cache, failing) == Direct(p, ids, failing) == Outcome(p, e, Error)
            && Cached(p, ids, CacheAfter(cache, failing), again) == Outcome(p, e, Noop)
            && (SameEffect(Cached(p, ids, CacheAfter(cache, failing), again), Direct(p, ids, again)) <==>
                UpToDate(p.checks[IdOf(e).value], spec, e))
  {
    HitHarmlessExactly(p, ids, Remembered(cache, spec, e), spec, e);
  }

  /** An example: an update of the path fails, and repeating the call does nothing, where the delegate
      would have set the path. */
  lemma FailureRemembered(ids: nat -> string)
    ensures var e := NEW_ENDPOINT.(dnsName := "a.b", props := [Property(Route53.HEALTH_CHECK_ID, "x")]);
            var spec := Spec("id", "name", None, None, None, "/");
            var p := Provider(map["x" := NewCheck(spec, e)], 1);
            var edited := spec.(path := "/healthz");
            var run, direct := CachedRun(p, ids, map[], [Reconcile(edited, e, Refused), Reconcile(edited, e, Fine)]),
                               DirectRun(p, ids, [Reconcile(edited, e, Refused), Reconcile(edited, e, Fine)]);
            && run == [Outcome(p, e, Error), Outcome(p, e, Noop)]
            && |direct| == 2 && direct[1].result == Updated && "x" in direct[1].provider.checks
            && direct[1].provider.checks["x"].path == Some("/healthz") && p.checks["x"].path == Some("/")
  {
    var e := NEW_ENDPOINT.(dnsName := "a.b", props := [Property(Route53.HEALTH_CHECK_ID, "x")]);
    var spec := Spec("id", "name", None, None, None, "/");
    var p := Provider(map["x" := NewCheck(spec, e)], 1);
    var edited := spec.(path := "/healthz");
    assert IdOf(e) == Some("x");
    assert |"/healthz"| != |"/"|;
    RunsOfTwo(p, ids, map[], Reconcile(edited, e, Refused), Reconcile(edited, e, Fine));
  }

  lemma RunsOfTwo(p: Provider, ids: nat -> string, cache: Cache, a: Op, b: Op)
    ensures var o := Direct(p, ids, a); DirectRun(p, ids, [a, b]) == [o, Direct(o.provider, ids, b)]
    ensures var o := Cached(p, ids, cache, a);
            CachedRun(p, ids, cache, [a, b]) == [o, Cached(o.provider, ids, CacheAfter(cache, a), b)]
  {
    hide Direct, Cached, CacheAfter;
    assert [a, b][1..] == [b] && [b][1..] == [];
    assert forall q :: DirectRun(q, ids, [b]) == [Direct(q, ids, b)];
    assert forall q, d :: CachedRun(q, ids, d, [b]) == [Cached(q, ids, d, b)];
  }
}

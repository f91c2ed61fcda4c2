/** The DNSRecord reconciler (pkg/controllers/dnsrecord/dnsrecord_controller.go:57-211), for any DNS
    provider: it remembers in the status what was published last and publishes again when the
    generation moved on. */
module Reconciler {
  import opened Options
  import opened Endpoints

  /** A stored DNSRecord. The API server counts spec edits in generation. */
  datatype Record = Record(
    spec: seq<Endpoint>, generation: int,
    statusEndpoints: seq<Endpoint>, observedGeneration: int,
    hasFinalizer: bool, deleting: bool, ready: Option<bool>)

  /** What looking up the ManagedZone gives. */
  datatype Lookup = ZoneMissing | ZoneNotReady | ZoneReady

  /** How the provider answers a deletion. */
  datatype Deletion<Z> = Deleted(zone: Z) | NotFound | NoEndpoints | OtherError

  /** The record, until its last finalizer is gone, and the provider's zone. */
  datatype State<Z> = State(record: Option<Record>, zone: Z)

  /** One call of Reconcile; ensured and deleted are the provider's answers should it be asked. */
  function Reconcile<Z>(s: State<Z>, lookup: Lookup, ensured: Option<Z>, deleted: Deletion<Z>): State<Z> {
    if s.record.None? then s
    else
      var r := s.record.value;
      if r.deleting then
        match lookup
        case ZoneMissing => State(None, s.zone)
        case ZoneNotReady => s
        case ZoneReady =>
          (match deleted
           case Deleted(zone) => State(None, zone)
           case NotFound => State(None, s.zone)
           case NoEndpoints => State(None, s.zone)
           case OtherError => s)
      else if !r.hasFinalizer then s.(record := Some(r.(hasFinalizer := true)))
      else
        var failed := s.(record := Some(r.(ready := Some(false))));
        var published := r.(observedGeneration := r.generation, statusEndpoints := r.spec, ready := Some(true));
        if !lookup.ZoneReady? then failed
        else if r.generation == r.observedGeneration then s.(record := Some(published))
        else if ensured.None? then failed
        else State(Some(published), ensured.value)
  }

  datatype Outcome = Done | Requeue | Failed

  /** The record is the same but for its Ready condition. */
  predicate OnlyReadyDiffers(a: Option<Record>, b: Option<Record>) {
    a == b || (a.Some? && b.Some? && b.value == a.value.(ready := b.value.ready))
  }

  /** The record is ready, and its status says what its spec does. */
  predicate Published(a: Record, b: Record) {
    && a.hasFinalizer && !a.deleting
    && b == a.(observedGeneration := a.generation, statusEndpoints := a.spec, ready := Some(true))
  }

  /** How the API server answers the update of the record or of its status. */
  datatype Write = Accepted | Conflict | Refused

  /** The stored object and the zone, as the reconciler changes them. */
  class Store<Z(0)> {
    var record: Option<Record>
    var zone: Z

    constructor (record: Option<Record>, zone: Z)
      ensures View() == State(record, zone)
    {
      this.record, this.zone := record, zone;
    }

    function View(): State<Z>
      reads this
    {
      State(record, zone)
    }

    /** publishRecord */
    method PublishRecord(r: Record, lookup: Lookup, ensured: Option<Z>) returns (ok: bool)
      modifies this`zone
      ensures ok <==> lookup.ZoneReady? && (r.generation == r.observedGeneration || ensured.Some?)
      ensures zone == if lookup.ZoneReady? && r.generation != r.observedGeneration && ensured.Some? then
                ensured.value else old(zone)
    {
      if !lookup.ZoneReady? {
        return false;
      }
      if r.generation == r.observedGeneration {
        return true;
      }
      if ensured.None? {
        return false;
      }
      zone := ensured.value;
      return true;
    }

    /** deleteRecord */
    method DeleteRecord(lookup: Lookup, deleted: Deletion<Z>) returns (ok: bool)
      modifies this`zone
      ensures ok <==> lookup.ZoneMissing? || (lookup.ZoneReady? && !deleted.OtherError?)
      ensures zone == if lookup.ZoneReady? && deleted.Deleted? then deleted.zone else old(zone)
    {
      match lookup {
        case ZoneMissing => return true;
        case ZoneNotReady => return false;
        case ZoneReady =>
          match deleted {
            case Deleted(z) =>
              zone := z;
              return true;
            case NotFound => return true;
            case NoEndpoints => return true;
            case OtherError => return false;
          }
      }
    }

    /** One call of Reconcile. If the API server does not accept the record, for a conflict or another
        reason, the zone has changed all the same. */
    method ReconcileRecord(lookup: Lookup, ensured: Option<Z>, deleted: Deletion<Z>, api: Write)
      returns (outcome: Outcome)
      modifies this
      ensures var next := Reconcile(old(View()), lookup, ensured, deleted);
              && View() == State(if api.Accepted? then next.record else old(record), next.zone)
              && (outcome == Failed ==> OnlyReadyDiffers(old(record), record))
              && (outcome == Done <==>
                    old(record).None? || record.None? ||
                    (record == next.record && Published(old(record).value, record.value)))
              && (outcome == Requeue <==>
                    old(record).Some? && !old(record).value.deleting &&
                    if old(record).value.hasFinalizer then api.Conflict? && next.record != old(record)
                    else api.Accepted?)
    {
      if record.None? {
        return Done;
      }
      var r := record.value;
      if r.deleting {
        var ok := DeleteRecord(lookup, deleted);
        if !ok {
          return Failed;
        }
        if !api.Accepted? {
          return Failed;
        }
        record := None;
        return Done;
      }
      if !r.hasFinalizer {
        if !api.Accepted? {
          return Failed;
        }
        record := Some(r.(hasFinalizer := true));
        return Requeue;
      }
      var ok := PublishRecord(r, lookup, ensured);
      if ok {
        r := r.(observedGeneration := r.generation);
        r := r.(statusEndpoints := r.spec);
      }
      r := r.(ready := Some(ok));
      if Some(r) != record {
        if !api.Accepted? {
          return if api.Conflict? then Requeue else Failed;
        }
        record := Some(r);
      }
      return if ok then Done else Failed;
    }
  }

  // ----- runs -----

  /** A provider: what a publish and a delete of a record with this spec and status do to a zone. The
      salt is what the provider's code does not fix, such as Go's map iteration order. */
  type Ensure<!Z, !Salt> = (seq<Endpoint>, seq<Endpoint>, Z, Salt) -> Option<Z>
  type Delete<!Z, !Salt> = (seq<Endpoint>, seq<Endpoint>, Z, Salt) -> Deletion<Z>
  type Possible<!Z, !Salt> = (seq<Endpoint>, seq<Endpoint>, Z, Salt) -> bool

  datatype Step<Salt> = Edit(spec: seq<Endpoint>) | RequestDeletion | Reconciled(lookup: Lookup, salt: Salt)

  /** One step. The API server counts a deletion request like an edit, and drops a record without
      finalizer at once. */
  ghost function Take<Z, Salt>(
    s: State<Z>, step: Step<Salt>, ensure: Ensure<Z, Salt>, delete: Delete<Z, Salt>): State<Z> {
    if s.record.None? then s
    else
      var r := s.record.value;
      match step
      case Edit(spec) => s.(record := Some(r.(spec := spec, generation := r.generation + 1)))
      case RequestDeletion =>
        if !r.hasFinalizer then s.(record := None)
        else if r.deleting then s
        else s.(record := Some(r.(deleting := true, generation := r.generation + 1)))
      case Reconciled(lookup, salt) =>
        Reconcile(s, lookup, ensure(r.spec, r.statusEndpoints, s.zone, salt),
          delete(r.spec, r.statusEndpoints, s.zone, salt))
  }

  ghost function After<Z, Salt>(
    s: State<Z>, steps: seq<Step<Salt>>, ensure: Ensure<Z, Salt>, delete: Delete<Z, Salt>): State<Z> {
    if steps == [] then s
    else Take(After(s, steps[..|steps| - 1], ensure, delete), steps[|steps| - 1], ensure, delete)
  }

  ghost predicate PossibleStep<Z, Salt>(s: State<Z>, step: Step<Salt>, possible: Possible<Z, Salt>) {
    s.record.Some? && step.Reconciled? ==>
        possible(s.record.value.spec, s.record.value.statusEndpoints, s.zone, step.salt)
  }

  /** Each reconcile visits its maps in an order that is possible where it happens. */
  ghost predicate PossibleRun<Z, Salt>(
    s: State<Z>, steps: seq<Step<Salt>>, ensure: Ensure<Z, Salt>, delete: Delete<Z, Salt>, possible: Possible<Z,
    Salt>) {
    steps == [] ||
    (PossibleRun(s, steps[..|steps| - 1], ensure, delete, possible) &&
     PossibleStep(After(s, steps[..|steps| - 1], ensure, delete), steps[|steps| - 1], possible))
  }

  /** The run goes on with two reconciles while the zone is ready. */
  function ThenReady<Salt>(steps: seq<Step<Salt>>, a: Salt, b: Salt): seq<Step<Salt>> {
    steps + [Reconciled(ZoneReady, a)] + [Reconciled(ZoneReady, b)]
  }

  /** Publishing replaces what the status says is there by what the spec asks for. */
  ghost predicate EnsureLaw<Z(!new), Salt(!new)>(
    ensure: Ensure<Z, Salt>, possible: Possible<Z, Salt>, zoneFor: seq<Endpoint> -> Z,
      admissible: (seq<Endpoint>, seq<Endpoint>) -> bool)
  {
    forall spec, status, salt: Salt | admissible(spec, status) && possible(spec, status, zoneFor(status), salt) ::
      ensure(spec, status, zoneFor(status), salt) == Some(zoneFor(spec))
  }

  /** The zone holds exactly what was published last, and the status says what that was. */
  ghost predicate InStep<Z>(s: State<Z>, zoneFor: seq<Endpoint> -> Z) {
    s.record.Some? ==>
      && s.zone == zoneFor(s.record.value.statusEndpoints)
      && s.record.value.observedGeneration <= s.record.value.generation
      && (s.record.value.observedGeneration == s.record.value.generation ==>
          s.record.value.statusEndpoints == s.record.value.spec)
  }

  /** Every step keeps zone and status in step. */
  lemma TakeKeepsInStep<Z(!new), Salt(!new)>(
    s: State<Z>, step: Step<Salt>, ensure: Ensure<Z, Salt>, delete: Delete<Z, Salt>, possible: Possible<Z, Salt>,
    zoneFor: seq<Endpoint> -> Z, admissible: (seq<Endpoint>, seq<Endpoint>) -> bool)
    requires InStep(s, zoneFor) && EnsureLaw(ensure, possible, zoneFor, admissible) && PossibleStep(s, step, possible)
    requires s.record.Some? ==> admissible(s.record.value.spec, s.record.value.statusEndpoints)
    ensures InStep(Take(s, step, ensure, delete), zoneFor)
  {
    if s.record.Some? && step.Reconciled? {
      var r := s.record.value;
      assert ensure(r.spec, r.statusEndpoints, zoneFor(r.statusEndpoints), step.salt) == Some(zoneFor(r.spec));
    }
  }

  /** The specs of a run: the first one and every edit. */
  ghost predicate IsSpecOf<Z, Salt>(s: State<Z>, steps: seq<Step<Salt>>, eps: seq<Endpoint>) {
    (s.record.Some? && eps == s.record.value.spec) || exists i :: 0 <= i < |steps| && steps[i] == Edit(eps)
  }

  /** What can be published last in a run: one of its specs, or what was at the start. */
  ghost predicate IsStatusOf<Z, Salt>(s: State<Z>, steps: seq<Step<Salt>>, eps: seq<Endpoint>) {
    (s.record.Some? && eps == s.record.value.statusEndpoints) || IsSpecOf(s, steps, eps)
  }

  lemma IsSpecEarlier<Z, Salt>(s: State<Z>, steps: seq<Step<Salt>>, n: nat, eps: seq<Endpoint>)
    requires n <= |steps| && IsSpecOf(s, steps[..n], eps)
    ensures IsSpecOf(s, steps, eps)
  {
    if i :| 0 <= i < n && steps[..n][i] == Edit(eps) {
      assert steps[i] == Edit(eps);
    }
  }

  lemma {:induction false} ListsOfRun<Z(!new), Salt(!new)>(
    s: State<Z>, steps: seq<Step<Salt>>, ensure: Ensure<Z, Salt>, delete: Delete<Z, Salt>)
    ensures var a := After(s, steps, ensure, delete);
            a.record.Some? ==>
              IsSpecOf(s, steps, a.record.value.spec) && IsStatusOf(s, steps, a.record.value.statusEndpoints)
  {
    if steps != [] {
      var n := |steps| - 1;
      ListsOfRun(s, steps[..n], ensure, delete);
      forall eps | IsSpecOf(s, steps[..n], eps) ensures IsSpecOf(s, steps, eps) {
        IsSpecEarlier(s, steps, n, eps);
      }
      if steps[n].Edit? {
        assert IsSpecOf(s, steps, steps[n].spec);
      }
    }
  }

  /** Over every run of spec edits, deletion requests and reconciles, with the ManagedZone ready or
      not, the zone holds exactly what the status says was published last. */
  lemma {:induction false} RunKeepsInStep<Z(!new), Salt(!new)>(
    s: State<Z>, steps: seq<Step<Salt>>, ensure: Ensure<Z, Salt>, delete: Delete<Z, Salt>, possible: Possible<Z, Salt>,
    zoneFor: seq<Endpoint> -> Z, admissible: (seq<Endpoint>, seq<Endpoint>) -> bool)
    requires InStep(s, zoneFor) && EnsureLaw(ensure, possible, zoneFor, admissible)
    requires PossibleRun(s, steps, ensure, delete, possible)
    requires forall a, b | IsSpecOf(s, steps, a) && IsStatusOf(s, steps, b) :: admissible(a, b)
    ensures InStep(After(s, steps, ensure, delete), zoneFor)
  {
    if steps != [] {
      hide IsSpecOf, EnsureLaw, InStep, Take;
      var n := |steps| - 1;
      forall eps | IsSpecOf(s, steps[..n], eps) ensures IsSpecOf(s, steps, eps) {
        IsSpecEarlier(s, steps, n, eps);
      }
      RunKeepsInStep(s, steps[..n], ensure, delete, possible, zoneFor, admissible);
      ListsOfRun(s, steps[..n], ensure, delete);
      TakeKeepsInStep(After(s, steps[..n], ensure, delete), steps[n], ensure, delete, possible, zoneFor, admissible);
    }
  }

  // ----- progress -----

  /** The record of the state was published: the status and the zone are those of its spec. */
  ghost predicate UpToDate<Z>(s: State<Z>, spec: seq<Endpoint>, zoneFor: seq<Endpoint> -> Z) {
    && s.record.Some? && s.record.value.spec == spec && s.record.value.statusEndpoints == spec
    && s.record.value.observedGeneration == s.record.value.generation && s.record.value.ready == Some(true)
    && s.zone == zoneFor(spec)
  }

  /** From a state in step, a reconcile with the zone ready publishes the spec, whether it is the first or
      not. */
  lemma ReadyReconcilePublishes<Z(!new), Salt(!new)>(
    s: State<Z>, salt: Salt, ensure: Ensure<Z, Salt>, delete: Delete<Z, Salt>, possible: Possible<Z, Salt>,
    zoneFor: seq<Endpoint> -> Z, admissible: (seq<Endpoint>, seq<Endpoint>) -> bool)
    requires InStep(s, zoneFor) && EnsureLaw(ensure, possible, zoneFor, admissible)
    requires PossibleStep(s, Reconciled(ZoneReady, salt), possible)
    requires s.record.Some? && s.record.value.hasFinalizer && !s.record.value.deleting
    requires admissible(s.record.value.spec, s.record.value.statusEndpoints)
    ensures UpToDate(Take(s, Reconciled(ZoneReady, salt), ensure, delete), s.record.value.spec, zoneFor)
    ensures Take(s, Reconciled(ZoneReady, salt), ensure, delete).record.value.hasFinalizer
  {
    var r := s.record.value;
    assert ensure(r.spec, r.statusEndpoints, zoneFor(r.statusEndpoints), salt) == Some(zoneFor(r.spec));
  }

  /** Before that it gets its finalizer, and nothing else changes. */
  lemma FinalizerFirst<Z(!new), Salt(!new)>(
    s: State<Z>, lookup: Lookup, salt: Salt, ensure: Ensure<Z, Salt>, delete: Delete<Z, Salt>)
    requires s.record.Some? && !s.record.value.hasFinalizer && !s.record.value.deleting
    ensures Take(s, Reconciled(lookup, salt), ensure, delete) ==
            State(Some(s.record.value.(hasFinalizer := true)), s.zone)
  {}

  /** What a reconcile does to a record with finalizer: if the zone is not ready, or the provider is asked
      and refuses, only the Ready condition says so; the provider is asked only if the generation moved
      on; and success is written down. */
  lemma ReconcileExactly<Z>(s: State<Z>, lookup: Lookup, ensured: Option<Z>, deleted: Deletion<Z>)
    requires s.record.Some? && !s.record.value.deleting && s.record.value.hasFinalizer
    ensures var r, t := s.record.value, Reconcile(s, lookup, ensured, deleted);
            var asked := r.generation != r.observedGeneration;
            if lookup != ZoneReady || (asked && ensured == None) then
              t == State(Some(r.(ready := Some(false))), s.zone)
            else
              && t.zone == (if asked then ensured.value else s.zone)
              && t.record == Some(r.(observedGeneration := r.generation, statusEndpoints := r.spec, ready :=
                Some(true)))
  {}

  /** A record that is being deleted goes if and only if its zone is missing, or ready and the provider
      deleted, did not find or had nothing to delete; the zone is what the provider made of it. */
  lemma DeletedExactly<Z>(s: State<Z>, lookup: Lookup, ensured: Option<Z>, deleted: Deletion<Z>)
    requires s.record.Some? && s.record.value.deleting
    ensures var t := Reconcile(s, lookup, ensured, deleted);
            && (t.record.None? <==> lookup == ZoneMissing || (lookup == ZoneReady && deleted != OtherError))
            && (t.record.Some? ==> t == s)
            && t.zone == if lookup == ZoneReady && deleted.Deleted? then deleted.zone else s.zone
  {}

  /** At the end of every run, two reconciles with the zone ready publish the current spec: the first may
      only set the finalizer. */
  lemma RunSettles<Z(!new), Salt(!new)>(
    s: State<Z>, steps: seq<Step<Salt>>, a: Salt, b: Salt, ensure: Ensure<Z, Salt>, delete: Delete<Z, Salt>,
    possible: Possible<Z, Salt>, zoneFor: seq<Endpoint> -> Z, admissible: (seq<Endpoint>, seq<Endpoint>) -> bool)
    requires InStep(s, zoneFor) && EnsureLaw(ensure, possible, zoneFor, admissible)
    requires PossibleRun(s, ThenReady(steps, a, b), ensure, delete, possible)
    requires forall x, y | IsSpecOf(s, steps, x) && IsStatusOf(s, steps, y) :: admissible(x, y)
    requires var end := After(s, steps, ensure, delete); end.record.Some? && !end.record.value.deleting
    ensures var end := After(s, steps, ensure, delete);
            UpToDate(After(s, ThenReady(steps, a, b), ensure, delete), end.record.value.spec, zoneFor)
  {
    var first := steps + [Reconciled(ZoneReady, a)];
    var both := first + [Reconciled(ZoneReady, b)];
    assert first[..|steps|] == steps && both[..|first|] == first;
    var end, next := After(s, steps, ensure, delete), After(s, first, ensure, delete);
    assert next == Take(end, Reconciled(ZoneReady, a), ensure, delete);
    assert After(s, both, ensure, delete) == Take(next, Reconciled(ZoneReady, b), ensure, delete);
    hide After, EnsureLaw, IsSpecOf, Take, UpToDate;
    RunKeepsInStep(s, steps, ensure, delete, possible, zoneFor, admissible);
    ListsOfRun(s, steps, ensure, delete);
    TakeKeepsInStep(end, Reconciled(ZoneReady, a), ensure, delete, possible, zoneFor, admissible);
    if end.record.value.hasFinalizer {
      ReadyReconcilePublishes(end, a, ensure, delete, possible, zoneFor, admissible);
      PublishedOnce(end, next, steps, s, zoneFor);
    } else {
      FinalizerFirst(end, ZoneReady, a, ensure, delete);
    }
    ReadyReconcilePublishes(next, b, ensure, delete, possible, zoneFor, admissible);
  }

  /** After a first publish spec and status are the same list of the run. */
  lemma PublishedOnce<Z(!new), Salt(!new)>(
    end: State<Z>, next: State<Z>, steps: seq<Step<Salt>>, s: State<Z>, zoneFor: seq<Endpoint> -> Z)
    requires end.record.Some? && IsSpecOf(s, steps, end.record.value.spec) &&
             UpToDate(next, end.record.value.spec, zoneFor)
    ensures IsSpecOf(s, steps, next.record.value.spec) && IsStatusOf(s, steps, next.record.value.statusEndpoints)
  {}
}

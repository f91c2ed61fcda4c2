/** The consecutive-failure counter of a health probe (pkg/controllers/dnshealthcheckprobe/notifier.go)
    and what it makes the health filter of setEndpoints drop. */
module Notifier {
  import opened Options
  import opened Sorting
  import opened Endpoints
  import opened Prune

  datatype ProbeResult = ProbeResult(healthy: bool, checkedAt: int, reason: string, status: int)

  datatype ProbeStatus = ProbeStatus(
    healthy: Option<bool>, consecutiveFailures: int, lastCheckedAt: int, reason: string, status: int)

  const FRESH_STATUS := ProbeStatus(None, 0, 0, "", 0)

  /** How the API server answers the Get and the status Update of one notification. */
  datatype ApiAnswer = GetFails | UpdateConflicts | UpdateFails | Accepted

  datatype Notification = Done | Requeue | Failed

  function Record(s: ProbeStatus, r: ProbeResult): ProbeStatus {
    var failures :=
      if r.healthy then 0
      else if s.healthy == Some(false) then s.consecutiveFailures + 1
      else 1;
    ProbeStatus(Some(r.healthy), failures, r.checkedAt, r.reason, r.status)
  }

  /** The stored probe object, as the notifier reads and writes it. */
  class ProbeObject {
    var stored: ProbeStatus

    constructor ()
      ensures stored == FRESH_STATUS
    {
      stored := FRESH_STATUS;
    }

    method Notify(result: ProbeResult, api: ApiAnswer) returns (n: Notification)
      modifies this
      ensures stored == if api.Accepted? then Record(old(stored), result) else old(stored)
      ensures n == match api { case Accepted => Done case UpdateConflicts => Requeue case _ => Failed }
    {
      if api.GetFails? {
        return Failed;
      }
      var probe := stored;
      if !result.healthy {
        var probeHealthy := true;
        if probe.healthy.Some? {
          probeHealthy := probe.healthy.value;
        }
        if probeHealthy {
          probe := probe.(consecutiveFailures := 1);
        } else {
          probe := probe.(consecutiveFailures := probe.consecutiveFailures + 1);
        }
      } else {
        probe := probe.(consecutiveFailures := 0);
      }
      probe := probe.(lastCheckedAt := result.checkedAt);
      if probe.healthy.None? {
        probe := probe.(healthy := Some(true));
      }
      probe := probe.(healthy := Some(result.healthy), reason := result.reason, status := result.status);
      if api.UpdateConflicts? {
        return Requeue;
      }
      if api.UpdateFails? {
        return Failed;
      }
      stored := probe;
      return Done;
    }
  }

  // ----- runs -----

  datatype Event = Event(result: ProbeResult, api: ApiAnswer)

  /** The status after a run of notifications on a new probe. */
  function After(events: seq<Event>): ProbeStatus {
    if events == [] then FRESH_STATUS
    else
      var before, e := After(events[..|events| - 1]), events[|events| - 1];
      if e.api.Accepted? then Record(before, e.result) else before
  }

  /** The results that were recorded, in order. */
  function Recorded(events: seq<Event>): seq<bool> {
    if events == [] then []
    else
      var e := events[|events| - 1];
      Recorded(events[..|events| - 1]) + if e.api.Accepted? then [e.result.healthy] else []
  }

  /** The length of the unhealthy run at the end. */
  function TrailingFailures(rs: seq<bool>): nat {
    if rs == [] || rs[|rs| - 1] then 0 else 1 + TrailingFailures(rs[..|rs| - 1])
  }

  /** The last k results all failed. */
  predicate LastFailed(rs: seq<bool>, k: int) {
    k <= |rs| && forall i | |rs| - k <= i < |rs| && 0 <= i :: !rs[i]
  }

  /** The status agrees with the recorded results. */
  predicate Counts(s: ProbeStatus, rs: seq<bool>) {
    && s.consecutiveFailures == TrailingFailures(rs)
    && s.healthy == if rs == [] then None else Some(rs[|rs| - 1])
  }

  lemma RecordCounts(s: ProbeStatus, rs: seq<bool>, r: ProbeResult)
    requires Counts(s, rs)
    ensures Counts(Record(s, r), rs + [r.healthy])
  {
    assert (rs + [r.healthy])[..|rs|] == rs;
  }

  /** The counter is the length of the trailing unhealthy run of recorded results. */
  lemma {:induction false} CounterIsTrailingRun(events: seq<Event>)
    ensures Counts(After(events), Recorded(events))
  {
    if events == [] {
      assert Counts(FRESH_STATUS, []);
    } else {
      hide Counts, Record;
      var n := |events| - 1;
      CounterIsTrailingRun(events[..n]);
      RecordCounts(After(events[..n]), Recorded(events[..n]), events[n].result);
      assert Recorded(events[..n]) + [] == Recorded(events[..n]);
    }
  }

  /** A recorded result leaves its time, reason and status behind; one that was not accepted nothing. */
  lemma LastResultStored(events: seq<Event>, e: Event)
    ensures var before, after := After(events), After(events + [e]);
            if e.api.Accepted? then
              && after.healthy == Some(e.result.healthy) && after.lastCheckedAt == e.result.checkedAt
              && after.reason == e.result.reason && after.status == e.result.status
            else after == before
  {
    assert (events + [e])[..|events|] == events;
  }

  lemma {:induction false} TrailingRun(rs: seq<bool>, k: int)
    ensures TrailingFailures(rs) >= k <==> LastFailed(rs, k)
  {
    if rs != [] && k > 0 {
      var n := |rs| - 1;
      TrailingRun(rs[..n], k - 1);
      if !rs[n] {
        assert LastFailed(rs, k) <==> LastFailed(rs[..n], k - 1) by {
          if LastFailed(rs, k) {
            assert forall i | n - (k - 1) <= i < n && 0 <= i :: rs[..n][i] == rs[i];
          }
        }
      }
    }
  }

  // ----- what the health filter drops -----

  /** A probe with the notifications it received. */
  datatype Monitored = Monitored(name: string, failureThreshold: Option<int>, events: seq<Event>)

  function ToProbe(m: Monitored): Probe {
    var s := After(m.events);
    Probe(m.name, m.failureThreshold, s.healthy, s.consecutiveFailures)
  }

  /** The last threshold-many recorded results, at least one, all failed. */
  predicate FailedLongEnough(m: Monitored) {
    m.failureThreshold.Some? &&
    LastFailed(Recorded(m.events), if m.failureThreshold.value < 1 then 1 else m.failureThreshold.value)
  }

  lemma FailingIffFailedLongEnough(m: Monitored)
    ensures IsFailing(ToProbe(m)) <==> FailedLongEnough(m)
  {
    var rs := Recorded(m.events);
    CounterIsTrailingRun(m.events);
    if m.failureThreshold.Some? {
      TrailingRun(rs, m.failureThreshold.value);
      TrailingRun(rs, 1);
    }
  }

  /** The health filter drops exactly the endpoints with a target whose probe has failed for at
      least its threshold of recorded results. */
  lemma FilterDropsExactly(l: seq<Endpoint>, ms: seq<Monitored>, gateway: string, listener: string, e: Endpoint)
    ensures e in Healthy(l, Map(ToProbe, ms), gateway, listener) <==>
            e in l && !exists m, target | m in ms && target in e.targets ::
              m.name == target + "-" + gateway + "-" + listener && FailedLongEnough(m)
  {
    var probes := Map(ToProbe, ms);
    HealthyMembers(l, probes, gateway, listener, e);
    if Unhealthy(e, probes, gateway, listener) {
      var p :| p in probes && Watches(p, e, gateway, listener) && IsFailing(p);
      var i :| 0 <= i < |ms| && probes[i] == p;
      FailingIffFailedLongEnough(ms[i]);
      var k :| 0 <= k < |e.targets| && ProbeName(e.targets[k], gateway, listener) == p.name;
      assert ms[i] in ms && e.targets[k] in e.targets;
    } else {
      forall m, target | m in ms && target in e.targets && m.name == ProbeName(target, gateway, listener)
        ensures !FailedLongEnough(m)
      {
        var i :| 0 <= i < |ms| && ms[i] == m;
        var k :| 0 <= k < |e.targets| && e.targets[k] == target;
        assert probes[i] in probes && Watches(probes[i], e, gateway, listener);
        FailingIffFailedLongEnough(m);
      }
    }
  }
}

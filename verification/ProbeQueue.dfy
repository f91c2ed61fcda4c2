/** The throttled queue of health probes as a system of atomic steps
    (pkg/health/queuedProbeWorker.go:49-125). A schedule is any interleaving of producers, the worker,
    its dequeuing goroutine, the goroutines of probes under way, and cancellation. */
module ProbeQueue {

  datatype HealthRequest = HealthRequest(host: string, path: string, address: string, protocol: string, port: int,
    notifier: string)

  /** Where the worker and its dequeuing goroutine are: between two requests; about to look whether the
      context is done; about to take the lock; with a request for the channel; channel closed; returned. */
  datatype Phase = Throttled | Looking | Locking | Holding(req: HealthRequest) | Closed | Stopped

  datatype Step =
    | Enqueue(req: HealthRequest)
    | Tick
    | Look
    | Lock
    | Receive
    | Finish(which: nat, requeue: bool)
    | Cancel
    | Done

  /** The queue, the worker, the probes under way, and what happened so far: all requests in the order
      in which they got into the queue, those handed to processing, those from producers, those put
      back, and those done with. */
  datatype State = State(
    queued: seq<HealthRequest>, phase: Phase, processing: seq<HealthRequest>, cancelled: bool,
    log: seq<HealthRequest>, handed: seq<HealthRequest>,
    submitted: seq<HealthRequest>, requeued: seq<HealthRequest>, finished: seq<HealthRequest>)
  {
    function InFlight(): seq<HealthRequest> {
      if phase.Holding? then [phase.req] else []
    }

    function Enqueued(req: HealthRequest): State {
      this.(queued := queued + [req], log := log + [req])
    }
  }

  const START := State([], Throttled, [], false, [], [], [], [], [])

  function Without<T>(s: seq<T>, i: nat): seq<T>
    requires i < |s|
  {
    s[..i] + s[i + 1..]
  }

  /** One step; one that is not possible does nothing. */
  function Next(s: State, step: Step): State {
    match step
    case Enqueue(req) => s.Enqueued(req).(submitted := s.submitted + [req])
    case Cancel => s.(cancelled := true)
    case Tick => if s.phase.Throttled? then s.(phase := Looking) else s
    case Done => if s.phase.Throttled? && s.cancelled then s.(phase := Stopped) else s
    case Look => if s.phase.Looking? then s.(phase := if s.cancelled then Closed else Locking) else s
    case Lock =>
      if !s.phase.Locking? then s
      else if s.queued == [] then s.(phase := Looking)
      else s.(phase := Holding(s.queued[0]), queued := s.queued[1..])
    case Receive =>
      if s.phase.Closed? then s.(phase := Stopped)
      else if s.phase.Holding? then
        s.(phase := Throttled, handed := s.handed + [s.phase.req], processing := s.processing + [s.phase.req])
      else s
    case Finish(i, requeue) =>
      if i >= |s.processing| then s
      else
        var req := s.processing[i];
        var t := s.(processing := Without(s.processing, i));
        if requeue then t.Enqueued(req).(requeued := s.requeued + [req]) else t.(finished := s.finished + [req])
  }

  function Exec(s: State, schedule: seq<Step>): State {
    if schedule == [] then s else Next(Exec(s, schedule[..|schedule| - 1]), schedule[|schedule| - 1])
  }

  /** The worker. The fields below the line record what happened. */
  class QueuedProbeWorker {
    var requests: seq<HealthRequest>
    var phase: Phase
    var processing: seq<HealthRequest>
    var cancelled: bool
    // -----
    ghost var log: seq<HealthRequest>
    ghost var handed: seq<HealthRequest>
    ghost var submitted: seq<HealthRequest>
    ghost var requeued: seq<HealthRequest>
    ghost var finished: seq<HealthRequest>

    ghost function View(): State
      reads this
    {
      State(requests, phase, processing, cancelled, log, handed, submitted, requeued, finished)
    }

    constructor ()
      ensures View() == START
    {
      requests, phase, processing, cancelled := [], Throttled, [], false;
      log, handed, submitted, requeued, finished := [], [], [], [], [];
    }

    /** The body of EnqueueCheck, under the lock. */
    method EnqueueCheck(req: HealthRequest)
      modifies this`requests, this`log
      ensures requests == old(requests) + [req] && log == old(log) + [req]
    {
      requests := requests + [req];
      log := log + [req];
    }

    /** One round of the dequeuing goroutine under the lock. */
    method TryPop()
      requires phase.Locking?
      modifies this`requests, this`phase
      ensures View() == Next(old(View()), Lock)
    {
      if |requests| == 0 {
        phase := Looking;
        return;
      }
      var req := requests[0];
      requests := requests[1..];
      phase := Holding(req);
    }

    /** The end of a probe under way: the notifier may ask for it to be queued again. */
    method FinishProbe(i: nat, requeue: bool)
      requires i < |processing|
      modifies this
      ensures View() == Next(old(View()), Finish(i, requeue))
    {
      var req := processing[i];
      processing := processing[..i] + processing[i + 1..];
      if requeue {
        EnqueueCheck(req);
        requeued := requeued + [req];
      } else {
        finished := finished + [req];
      }
    }

    method Perform(step: Step)
      modifies this
      ensures View() == Next(old(View()), step)
    {
      match step {
        case Enqueue(req) =>
          EnqueueCheck(req);
          submitted := submitted + [req];
        case Cancel =>
          cancelled := true;
        case Tick =>
          if phase.Throttled? {
            phase := Looking;
          }
        case Done =>
          if phase.Throttled? && cancelled {
            phase := Stopped;
          }
        case Look =>
          if phase.Looking? {
            phase := if cancelled then Closed else Locking;
          }
        case Lock =>
          if phase.Locking? {
            TryPop();
          }
        case Receive =>
          if phase.Closed? {
            phase := Stopped;
          } else if phase.Holding? {
            handed, processing := handed + [phase.req], processing + [phase.req];
            phase := Throttled;
          }
        case Finish(i, requeue) =>
          if i < |processing| {
            FinishProbe(i, requeue);
          }
      }
    }

    /** All steps of a schedule. */
    method Run(schedule: seq<Step>)
      modifies this
      ensures View() == Exec(old(View()), schedule)
    {
      hide Next;
      var i := 0;
      while i < |schedule|
        invariant 0 <= i <= |schedule| && View() == Exec(old(View()), schedule[..i])
      {
        Perform(schedule[i]);
        assert schedule[..i + 1][..i] == schedule[..i];
        i := i + 1;
      }
      assert schedule[..i] == schedule;
    }
  }

  // ----- nothing is lost, duplicated or reordered -----

  ghost predicate InOrder(s: State) {
    s.log == s.handed + s.InFlight() + s.queued
  }

  lemma StepInOrder(s: State, step: Step)
    requires InOrder(s)
    ensures InOrder(Next(s, step))
  {
    if step.Lock? && s.phase.Locking? && s.queued != [] {
      assert s.queued == [s.queued[0]] + s.queued[1..];
    }
  }

  ghost predicate Conserved(s: State) {
    && multiset(s.log) == multiset(s.submitted) + multiset(s.requeued)
    && multiset(s.handed) == multiset(s.processing) + multiset(s.finished) + multiset(s.requeued)
  }

  lemma WithoutOne<T>(s: seq<T>, i: nat)
    requires i < |s|
    ensures multiset(s) == multiset(Without(s, i)) + multiset{s[i]}
  {
    assert s == s[..i] + [s[i]] + s[i + 1..];
  }

  lemma StepConserves(s: State, step: Step)
    requires Conserved(s)
    ensures Conserved(Next(s, step))
  {
    if step.Finish? && step.which < |s.processing| {
      FinishConserves(s, step.which, step.requeue);
    }
  }

  lemma FinishConserves(s: State, i: nat, requeue: bool)
    requires Conserved(s) && i < |s.processing|
    ensures Conserved(Next(s, Finish(i, requeue)))
  {
    hide Without;
    var req := s.processing[i];
    WithoutOne(s.processing, i);
    assert multiset(s.requeued + [req]) == multiset(s.requeued) + multiset{req};
    assert multiset(s.finished + [req]) == multiset(s.finished) + multiset{req};
    assert multiset(s.log + [req]) == multiset(s.log) + multiset{req};
  }

  /** Under every interleaving, the requests in the order they were enqueued are those handed to
      processing, then any one in flight, then those still queued. */
  lemma {:induction false} EveryRunInOrder(schedule: seq<Step>)
    ensures InOrder(Exec(START, schedule)) && Conserved(Exec(START, schedule))
    decreases |schedule|
  {
    hide Next, InOrder, Conserved;
    if schedule == [] {
      StartsInOrder();
    } else {
      EveryRunInOrder(schedule[..|schedule| - 1]);
      var s := Exec(START, schedule[..|schedule| - 1]);
      StepInOrder(s, schedule[|schedule| - 1]);
      StepConserves(s, schedule[|schedule| - 1]);
    }
  }

  lemma StartsInOrder()
    ensures InOrder(START) && Conserved(START)
  {}

  /** Under every interleaving, and however often requests are put back, every request a producer
      submitted is exactly once either queued, in flight, under way or done with. */
  lemma NothingLost(schedule: seq<Step>)
    ensures var s := Exec(START, schedule);
            multiset(s.submitted) ==
              multiset(s.queued) + multiset(s.InFlight()) + multiset(s.processing) + multiset(s.finished)
  {
    hide Exec;
    EveryRunInOrder(schedule);
    var s := Exec(START, schedule);
    assert multiset(s.log) == multiset(s.handed) + multiset(s.InFlight()) + multiset(s.queued);
    Balance(multiset(s.log), multiset(s.submitted), multiset(s.requeued), multiset(s.handed), multiset(s.processing),
            multiset(s.finished), multiset(s.queued), multiset(s.InFlight()));
  }

  lemma Balance(
    log: multiset<HealthRequest>, submitted: multiset<HealthRequest>, requeued: multiset<HealthRequest>,
      handed: multiset<HealthRequest>,
    processing: multiset<HealthRequest>, finished: multiset<HealthRequest>, queued: multiset<HealthRequest>,
      inFlight: multiset<HealthRequest>)
    requires log == submitted + requeued == handed + inFlight + queued && handed == processing + finished + requeued
    ensures submitted == queued + inFlight + processing + finished
  {
    forall r: HealthRequest ensures submitted[r] == queued[r] + inFlight[r] + processing[r] + finished[r] {
      assert (submitted + requeued)[r] == (handed + inFlight + queued)[r];
    }
  }

  /** Cancelling loses nothing either: when the worker has returned, what was not handed over is queued. */
  lemma NothingInFlightWhenStopped(schedule: seq<Step>)
    requires Exec(START, schedule).phase.Stopped?
    ensures var s := Exec(START, schedule); s.log == s.handed + s.queued
  {
    hide Exec;
    EveryRunInOrder(schedule);
  }

  // ----- the queue drains -----

  const ROUND := [Tick, Look, Lock, Receive]

  function Rounds(n: nat): seq<Step> {
    if n == 0 then [] else ROUND + Rounds(n - 1)
  }

  lemma {:induction false} ExecConcat(s: State, a: seq<Step>, b: seq<Step>)
    ensures Exec(s, a + b) == Exec(Exec(s, a), b)
    decreases |b|
  {
    hide Next;
    if b == [] {
      assert a + b == a;
    } else {
      ExecConcat(s, a, b[..|b| - 1]);
      assert (a + b)[..|a + b| - 1] == a + b[..|b| - 1];
    }
  }

  lemma ExecOne(s: State, step: Step)
    ensures Exec(s, [step]) == Next(s, step)
  {
    assert [step][..0] == [];
  }

  lemma OneRound(s: State)
    requires s.phase.Throttled? && !s.cancelled && s.queued != []
    ensures Exec(s, ROUND) ==
            s.(queued := s.queued[1..], handed := s.handed + [s.queued[0]], processing := s.processing + [s.queued[0]])
  {
    hide Exec, Next;
    assert ROUND == [Tick] + [Look] + [Lock] + [Receive];
    ExecConcat(s, [Tick] + [Look] + [Lock], [Receive]);
    ExecConcat(s, [Tick] + [Look], [Lock]);
    ExecConcat(s, [Tick], [Look]);
    ExecOne(s, Tick);
    ExecOne(Next(s, Tick), Look);
    ExecOne(Next(Next(s, Tick), Look), Lock);
    ExecOne(Next(Next(Next(s, Tick), Look), Lock), Receive);
    RoundSteps(s);
  }

  lemma RoundSteps(s: State)
    requires s.phase.Throttled? && !s.cancelled && s.queued != []
    ensures Next(Next(Next(Next(s, Tick), Look), Lock), Receive) ==
            s.(queued := s.queued[1..], handed := s.handed + [s.queued[0]], processing := s.processing + [s.queued[0]])
  {}

  /** Left alone, the worker hands over the whole queue in order, one request for each tick. */
  lemma {:induction false} QueueDrains(s: State)
    requires s.phase.Throttled? && !s.cancelled
    ensures Exec(s, Rounds(|s.queued|)) ==
            s.(queued := [], handed := s.handed + s.queued, processing := s.processing + s.queued)
    decreases |s.queued|
  {
    hide Exec, Next;
    if s.queued == [] {
      ExecNone(s);
    } else {
      var t := s.(queued := s.queued[1..], handed := s.handed + [s.queued[0]], processing :=
        s.processing + [s.queued[0]]);
      OneRound(s);
      ExecConcat(s, ROUND, Rounds(|s.queued| - 1));
      QueueDrains(t);
      assert s.queued == [s.queued[0]] + s.queued[1..];
      assert t.handed + t.queued == s.handed + s.queued && t.processing + t.queued == s.processing + s.queued;
    }
  }

  lemma ExecNone(s: State)
    ensures Exec(s, []) == s
  {}

  // ----- cancelling -----

  /** The worker stops, or is about to, only when it was cancelled. */
  lemma {:induction false} StopsOnlyCancelled(schedule: seq<Step>)
    ensures var s := Exec(START, schedule); s.phase.Closed? || s.phase.Stopped? ==> s.cancelled
    decreases |schedule|
  {
    if schedule != [] {
      StopsOnlyCancelled(schedule[..|schedule| - 1]);
    }
  }

  /** Steps that make a cancelled worker return wherever it is. */
  const LAST_STEPS := [Lock] + [Receive] + [Look] + [Receive] + [Done]

  lemma CancelledStops(s: State)
    requires s.cancelled
    ensures Exec(s, LAST_STEPS).phase == Stopped
  {
    hide Exec, Next;
    ExecConcat(s, [Lock] + [Receive] + [Look] + [Receive], [Done]);
    ExecConcat(s, [Lock] + [Receive] + [Look], [Receive]);
    ExecConcat(s, [Lock] + [Receive], [Look]);
    ExecConcat(s, [Lock], [Receive]);
    ExecOne(s, Lock);
    var a := Next(s, Lock);
    ExecOne(a, Receive);
    var b := Next(a, Receive);
    ExecOne(b, Look);
    var c := Next(b, Look);
    ExecOne(c, Receive);
    var d := Next(c, Receive);
    ExecOne(d, Done);
    LastSteps(s);
  }

  lemma LastSteps(s: State)
    requires s.cancelled
    ensures Next(Next(Next(Next(Next(s, Lock), Receive), Look), Receive), Done).phase == Stopped
  {}

  /** How many more requests a cancelled worker can hand over: the one it has, or is about to take. */
  function Pending(s: State): nat {
    if s.phase.Locking? || s.phase.Holding? then 1 else 0
  }

  /** Once cancelled, it hands over one more request at most, whatever the interleaving. */
  lemma {:induction false} CancelledHandsOne(s: State, schedule: seq<Step>)
    requires s.cancelled
    ensures var t := Exec(s, schedule); t.cancelled && |t.handed| + Pending(t) <= |s.handed| + Pending(s)
    decreases |schedule|
  {
    if schedule != [] {
      CancelledHandsOne(s, schedule[..|schedule| - 1]);
    }
  }

  // ----- what producers submitted -----

  /** The requests of a schedule's producers, in order. */
  function Enqueues(schedule: seq<Step>): seq<HealthRequest> {
    if schedule == [] then []
    else
      var last := schedule[|schedule| - 1];
      Enqueues(schedule[..|schedule| - 1]) + if last.Enqueue? then [last.req] else []
  }

  /** Nothing a producer submits is dropped, and nothing else counts as submitted. */
  lemma {:induction false} SubmittedExactly(schedule: seq<Step>)
    ensures Exec(START, schedule).submitted == Enqueues(schedule)
    decreases |schedule|
  {
    if schedule != [] {
      SubmittedExactly(schedule[..|schedule| - 1]);
    }
  }

  /** A probe that ends is done with, or goes to the end of the queue when the notifier asks for that. */
  lemma FinishExactly(s: State, i: nat, requeue: bool)
    requires i < |s.processing|
    ensures var req, t := s.processing[i], Next(s, Finish(i, requeue));
            && t.processing == s.processing[..i] + s.processing[i + 1..] && t.handed == s.handed && t.phase == s.phase
            && t.queued == (if requeue then s.queued + [req] else s.queued)
            && t.finished == if requeue then s.finished else s.finished + [req]
  {}
}

/** Stop requests over one run of a job, from its dispatch to the end of its
    worker, whatever else the service does meanwhile. */
module SchedulerRequests {
  import opened JobRecords
  import opened SchedulerCore
  import opened SchedulerRuns
  import opened SchedulerInvariants
  import opened SchedulerOwners

  datatype StopRequest = CancelRequest | PauseRequest

  function AfterRequests(j: Job, requests: seq<StopRequest>): Job {
    if requests == [] then j
    else
      var before := AfterRequests(j, requests[..|requests| - 1]);
      match requests[|requests| - 1]
      case CancelRequest => CancelJob(before).0
      case PauseRequest => PauseJob(before).0
  }

  /** A cancel anywhere wins, since a pause is refused once cancelling. */
  lemma {:induction false} RequestsResolve(j: Job, requests: seq<StopRequest>)
    requires j.record.status.Running? && !j.cancelRequested
    ensures var after := AfterRequests(j, requests);
            if CancelRequest in requests then
              after.record.status.Cancelling? && after.cancelRequested && !after.pauseRequested
            else if PauseRequest in requests then
              after.record.status.Pausing? && after.pauseRequested && !after.cancelRequested
            else after == j
  {
    if requests != [] {
      var front, last := requests[..|requests| - 1], requests[|requests| - 1];
      RequestsResolve(j, front);
      assert requests == front + [last];
    }
  }

  /** The stop requests for one job among the events of a run. */
  function Requests(id: Id, events: seq<Event>): seq<StopRequest> {
    if events == [] then []
    else
      Requests(id, events[..|events| - 1]) +
      match events[|events| - 1]
      case Cancel(x) => if x == id then [CancelRequest] else []
      case Pause(x) => if x == id then [PauseRequest] else []
      case _ => []
  }

  /** The step neither restarts the service, nor ends a run of the job, nor rolls it back. */
  function Spares(id: Id): (Sys, Event) -> bool {
    (s: Sys, e: Event) =>
      && !e.Restart?
      && (e.Advance? && e.t < |s.threads| ==>
            match s.threads[e.t]
            case Executing(x) => x != id
            case EnqueueSaving(r) => e.ok || r.id != id
            case RetrySaving(r, _) => e.ok || r.id != id
            case _ => true)
  }

  function AfterEvent(id: Id, j: Job, e: Event): Job {
    match e
    case Cancel(x) => if x == id then CancelJob(j).0 else j
    case Pause(x) => if x == id then PauseJob(j).0 else j
    case _ => j
  }

  lemma OneRequest(j: Job, id: Id, e: Event)
    ensures AfterRequests(j, Requests(id, [e])) == AfterEvent(id, j, e)
  {
    assert [e][..0] == [];
    assert AfterRequests(j, []) == j;
    assert [CancelRequest][..0] == [] && [PauseRequest][..0] == [];
  }

  /** Only its own stop requests reach a job that is running. */
  lemma SparedStep(s: Sys, id: Id, e: Event)
    requires Inv(s) && ActiveIn(s.core, id) && Spares(id)(s, e)
    ensures var s' := Step(s, e);
            ActiveIn(s'.core, id) && s'.core.jobs[id] == AfterEvent(id, s.core.jobs[id], e)
  {
    StopReplies(s.core.jobs[id]);
    if e.Advance? {
      if e.t < |s.threads| { SparedProgress(s, id, e.t, e.ok, e.end); }
    } else {
      SparedRegion(s, id, e);
    }
  }

  lemma SparedRegion(s: Sys, id: Id, e: Event)
    requires Inv(s) && ActiveIn(s.core, id) && !e.Advance? && !e.Restart?
    ensures var s' := Step(s, e); id in s'.core.jobs && s'.core.jobs[id] == AfterEvent(id, s.core.jobs[id], e)
  {
    assert s.core.jobs[id].password == "";
    match e
    case Enqueue(_, _, _, _) => assert RecordEarned(s, s.core.jobs[id].record);
    case Cancel(x) => SparedStop(s, id, e);
    case Pause(x) => SparedStop(s, id, e);
    case Retry(x, _) => SparedRetry(s, id, e);
    case _ =>
  }

  lemma SparedStop(s: Sys, id: Id, e: Event)
    requires ActiveIn(s.core, id) && (e.Cancel? || e.Pause?)
    ensures var s' := Step(s, e); id in s'.core.jobs && s'.core.jobs[id] == AfterEvent(id, s.core.jobs[id], e)
  {
  }

  lemma SparedRetry(s: Sys, id: Id, e: Event)
    requires ActiveIn(s.core, id) && e.Retry?
    ensures var s' := Step(s, e); id in s'.core.jobs && s'.core.jobs[id] == s.core.jobs[id]
  {
  }

  lemma SparedProgress(s: Sys, id: Id, t: nat, ok: bool, end: RunEnd)
    requires Inv(s) && ActiveIn(s.core, id) && t < |s.threads| && Spares(id)(s, Advance(t, ok, end))
    ensures var s' := Progress(s, t, ok, end); id in s'.core.jobs && s'.core.jobs[id] == s.core.jobs[id]
  {
    if s.threads[t].Dispatching? {
      if DispatchOne(s.core).1.Some? { TakenFacts(s.core); }
    } else if s.threads[t].Executing? {
      FinishedFrees(s.core, s.threads[t].id, end);
    }
  }

  lemma {:induction false} RequestsConcat(j: Job, a: seq<StopRequest>, b: seq<StopRequest>)
    ensures AfterRequests(j, a + b) == AfterRequests(AfterRequests(j, a), b)
  {
    if b == [] {
      assert a + b == a;
    } else {
      var n := |b| - 1;
      RequestsConcat(j, a, b[..n]);
      assert (a + b)[..|a + b| - 1] == a + b[..n] && (a + b)[|a + b| - 1] == b[n];
    }
  }

  /** While its worker has not ended, a running job is what its stop requests have made of it. */
  lemma {:induction false} RunningJobFollowsRequests(s: Sys, id: Id, events: seq<Event>)
    requires Inv(s) && ActiveIn(s.core, id) && Always(Spares(id), s, events)
    ensures var s' := Run(s, events);
            && Inv(s') && ActiveIn(s'.core, id)
            && s'.core.jobs[id] == AfterRequests(s.core.jobs[id], Requests(id, events))
  {
    if events != [] {
      var front, e := events[..|events| - 1], events[|events| - 1];
      AlwaysBefore(Spares(id), s, events);
      RunningJobFollowsRequests(s, id, front);
      StepKeeps(Run(s, front), e);
      SparedStep(Run(s, front), id, e);
      OneRequest(Run(s, front).core.jobs[id], id, e);
      RequestsConcat(s.core.jobs[id], Requests(id, front), Requests(id, [e]));
      assert [e][..0] == [];
      assert Requests(id, events) == Requests(id, front) + Requests(id, [e]);
    }
  }

  function Asked(requests: seq<StopRequest>, interrupted: bool): Status {
    if CancelRequest in requests then Canceled
    else if PauseRequest in requests then Paused
    else if interrupted then Interrupted
    else Failed
  }

  lemma EndsAsAsked(j: Job, requests: seq<StopRequest>, end: RunEnd)
    requires j.record.status.Running? && !j.cancelRequested && end.Errored?
    ensures EndStatus(AfterRequests(j, requests), end) == Asked(requests, end.interrupted) <==> requests != [] || !j.pauseRequested
  {
    RequestsResolve(j, requests);
    if requests != [] { assert requests[0] in requests; }
  }

  /** A dispatched job runs with no cancel request, but keeps a pause request. */
  lemma DispatchStartsAfresh(s: Sys, d: nat, ok: bool, end: RunEnd)
    requires Inv(s) && d < |s.threads| && s.threads[d].Dispatching? && DispatchOne(s.core).1.Some?
    ensures var id := DispatchOne(s.core).1.value.record.id;
            var s' := Step(s, Advance(d, ok, end));
            && Inv(s') && id in s.core.jobs && ActiveIn(s'.core, id)
            && s'.core.jobs[id].record.status.Running? && !s'.core.jobs[id].cancelRequested
            && s'.core.jobs[id].pauseRequested == s.core.jobs[id].pauseRequested
  {
    TakenFacts(s.core);
    StepKeeps(s, Advance(d, ok, end));
  }

  /** A run that errors, from the time its job is running with no cancel request. */
  lemma ErroredFrom(s: Sys, id: Id, events: seq<Event>, t: nat, ok: bool, end: RunEnd)
    requires Inv(s) && id in s.core.jobs && s.core.jobs[id].record.status.Running? && !s.core.jobs[id].cancelRequested
    requires Always(Spares(id), s, events) && end.Errored?
    requires t < |Run(s, events).threads| && Run(s, events).threads[t] == Executing(id)
    ensures var ended := Step(Run(s, events), Advance(t, ok, end));
            && id in ended.core.jobs
            && (ended.core.jobs[id].record.status == Asked(Requests(id, events), end.interrupted) <==>
                Requests(id, events) != [] || !s.core.jobs[id].pauseRequested)
  {
    RunningJobFollowsRequests(s, id, events);
    EndsAsAsked(s.core.jobs[id], Requests(id, events), end);
    EndsAs(Run(s, events), id, t, ok, end);
  }

  lemma EndsAs(s: Sys, id: Id, t: nat, ok: bool, end: RunEnd)
    requires id in s.core.jobs && t < |s.threads| && s.threads[t] == Executing(id)
    ensures var c := Step(s, Advance(t, ok, end)).core;
            id in c.jobs && c.jobs[id].record.status == EndStatus(s.core.jobs[id], end)
  {
  }

  /** A job that is dispatched, and whose worker then runs and errors, ends
      Canceled if it was cancelled meanwhile, else Paused if it was paused, else
      Interrupted or Failed by the error alone, exactly when it was asked to stop
      or no pause was left over from before it was dispatched. */
  lemma {:induction false} ErroredRunEndsAsAsked(s: Sys, d: nat, events: seq<Event>, t: nat, ok: bool, end: RunEnd)
    requires Inv(s) && d < |s.threads| && s.threads[d].Dispatching? && DispatchOne(s.core).1.Some? && end.Errored?
    requires var id := DispatchOne(s.core).1.value.record.id;
             var taken := Step(s, Advance(d, ok, end));
             && Always(Spares(id), taken, events)
             && t < |Run(taken, events).threads| && Run(taken, events).threads[t] == Executing(id)
    ensures var id := DispatchOne(s.core).1.value.record.id;
            var requests := Requests(id, events);
            var ended := Step(Run(Step(s, Advance(d, ok, end)), events), Advance(t, ok, end));
            && id in s.core.jobs && id in ended.core.jobs
            && (ended.core.jobs[id].record.status == Asked(requests, end.interrupted) <==> requests != [] || !s.core.jobs[id].pauseRequested)
  {
    var id := DispatchOne(s.core).1.value.record.id;
    DispatchStartsAfresh(s, d, ok, end);
    ErroredFrom(Step(s, Advance(d, ok, end)), id, events, t, ok, end);
  }
}

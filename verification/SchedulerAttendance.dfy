/** When a queued job is sure to be looked at, and when the wake lock is let go. */
module SchedulerAttendance {
  import opened JobRecords
  import opened SchedulerCore
  import opened SchedulerRuns
  import opened SchedulerInvariants
  import opened SchedulerOwners

  /** A call that will run the dispatch loop, or an unfinished enqueue or retry of this very job. */
  predicate WillLook(t: Thread, id: Id) {
    match t
    case Dispatching => true
    case DispatchSaving(_, _) => true
    case FinishSaving(_) => true
    case EnqueueSaving(r) => r.id == id
    case RetrySaving(r, _) => r.id == id
    case _ => false
  }

  ghost predicate Attended(s: Sys, id: Id) {
    exists i :: 0 <= i < |s.threads| && WillLook(s.threads[i], id)
  }

  ghost predicate AllAttended(s: Sys) {
    forall id :: QueuedIn(s.core, id) ==> Attended(s, id)
  }

  /** In an open service with a free slot and no legacy transfer, every queued
      job has a call in flight that will look at it. */
  ghost predicate NoStranded(s: Sys) {
    !s.core.closed && !s.core.legacyActive && s.core.runningJobs < s.core.maxJobs ==> AllAttended(s)
  }

  /** The legacy transfer that ends here leaves nothing behind. */
  ghost predicate LegacyEndSafe(s: Sys, e: Event) {
    e.EndLegacy? ==> !s.core.legacyActive || s.core.closed || s.core.maxJobs == 0 || AllAttended(s)
  }

  /** A worker that gives its slot back because its job is gone. */
  predicate LosesJob(s: Sys, e: Event) {
    e.Advance? && e.t < |s.threads| && s.threads[e.t].Starting? && s.threads[e.t].id !in s.core.jobs
  }

  ghost predicate AttendanceSafe(s: Sys, e: Event) {
    LegacyEndSafe(s, e) && (LosesJob(s, e) ==> s.core.closed || AllAttended(s))
  }

  /** The wake lock is held exactly while something runs. */
  predicate WakeExact(s: Sys) {
    s.core.wakeLock <==> s.core.runningJobs > 0
  }

  predicate WakeSafe(s: Sys, e: Event) {
    LosesJob(s, e) ==> s.core.runningJobs > 1
  }

  // ---- Attendance over one step ----

  /** The calls that were in flight still are, but for the one that moved. */
  lemma AttendedAfter(s: Sys, s': Sys, k: nat, id: Id)
    requires Attended(s, id) && k < |s.threads|
    requires |s'.threads| >= |s.threads|
    requires forall i :: 0 <= i < |s.threads| && i != k ==> s'.threads[i] == s.threads[i]
    requires WillLook(s'.threads[k], id) || !WillLook(s.threads[k], id)
    ensures Attended(s', id)
  {
    var i :| 0 <= i < |s.threads| && WillLook(s.threads[i], id);
    assert WillLook(s'.threads[if i == k then k else i], id);
  }

  lemma AttendedMore(s: Sys, s': Sys, id: Id)
    requires Attended(s, id) && s.threads <= s'.threads
    ensures Attended(s', id)
  {
    var i :| 0 <= i < |s.threads| && WillLook(s.threads[i], id);
    assert WillLook(s'.threads[i], id);
  }

  /** A first region makes no job queued, except one that its own call attends. */
  ghost predicate OnlyOwnQueued(s: Sys, s': Sys) {
    && s.threads <= s'.threads
    && s'.core == s.core.(jobs := s'.core.jobs, jobOrder := s'.core.jobOrder)
    && forall id :: QueuedIn(s'.core, id) ==>
         QueuedIn(s.core, id) || (|s'.threads| > |s.threads| && WillLook(s'.threads[|s.threads|], id))
  }

  lemma OwnQueuedAttended(s: Sys, s': Sys)
    requires NoStranded(s) && OnlyOwnQueued(s, s')
    ensures NoStranded(s')
  {
    if !s.core.closed && !s.core.legacyActive && s.core.runningJobs < s.core.maxJobs {
      forall id | QueuedIn(s'.core, id) ensures Attended(s', id) {
        if QueuedIn(s.core, id) {
          AttendedMore(s, s', id);
        } else {
          assert WillLook(s'.threads[|s.threads|], id);
        }
      }
    }
  }

  lemma StopQueuesNothing(s: Sys, e: Event)
    requires e.Cancel? || e.Pause?
    ensures OnlyOwnQueued(s, Step(s, e))
  {
    if e.id in s.core.jobs { StopReplies(s.core.jobs[e.id]); }
  }

  lemma EnqueueQueuesItsOwn(s: Sys, e: Event)
    requires e.Enqueue?
    ensures OnlyOwnQueued(s, Step(s, e))
  {
  }

  lemma RetryQueuesItsOwn(s: Sys, e: Event)
    requires Inv(s) && e.Retry?
    ensures OnlyOwnQueued(s, Step(s, e))
  {
  }

  lemma RemoveQueuesNothing(s: Sys, e: Event)
    requires e.Remove?
    ensures OnlyOwnQueued(s, Step(s, e))
  {
  }

  /** The end of a legacy transfer starts no dispatch: it strands a job exactly
      when one is queued that nobody attends and that could start. */
  lemma LegacyEndExactly(s: Sys)
    requires Inv(s) && NoStranded(s)
    ensures NoStranded(Step(s, EndLegacy)) <==> LegacyEndSafe(s, EndLegacy)
  {
    var s' := Step(s, EndLegacy);
    assert forall id :: QueuedIn(s'.core, id) <==> QueuedIn(s.core, id);
    assert forall id :: Attended(s', id) <==> Attended(s, id) by {
      assert s'.threads == s.threads;
    }
  }

  lemma RegionKeepsAttendance(s: Sys, e: Event)
    requires Inv(s) && NoStranded(s) && !e.Advance?
    ensures NoStranded(Step(s, e)) <==> AttendanceSafe(s, e)
  {
    var s' := Step(s, e);
    match e
    case EndLegacy => LegacyEndExactly(s);
    case Restart(readable, saved) => NothingRunsAfterRestart(s, readable, saved);
    case Enqueue(_, _, _, _) => EnqueueQueuesItsOwn(s, e); OwnQueuedAttended(s, s');
    case Retry(_, _) => RetryQueuesItsOwn(s, e); OwnQueuedAttended(s, s');
    case Cancel(_) => StopQueuesNothing(s, e); OwnQueuedAttended(s, s');
    case Pause(_) => StopQueuesNothing(s, e); OwnQueuedAttended(s, s');
    case Remove(_) => RemoveQueuesNothing(s, e); OwnQueuedAttended(s, s');
    case BeginLegacy => if LegacyBegun(s.core).None? { assert s' == s; }
    case Close =>
  }

  // ---- Calls that move on ----

  lemma NoneQueued(c: Core)
    requires OrderInv(c) && FirstQueued(c, c.jobOrder) == |c.jobOrder|
    ensures forall id :: !QueuedIn(c, id)
  {
    forall id | id in c.jobs ensures !QueuedIn(c, id) {
      var k :| 0 <= k < |c.jobOrder| && c.jobOrder[k] == id;
    }
  }

  /** A dispatch loop stops only when nothing it could start is queued. */
  lemma IdleKeepsAttendance(s: Sys, t: nat, ok: bool, end: RunEnd)
    requires Inv(s) && t < |s.threads| && s.threads[t].Dispatching? && DispatchOne(s.core).1.None?
    ensures NoStranded(Progress(s, t, ok, end))
  {
    if FirstQueued(s.core, s.core.jobOrder) == |s.core.jobOrder| { NoneQueued(s.core); }
  }

  /** A call that still has the dispatch loop ahead of it attends every job. */
  lemma LookingAttendsAll(s: Sys, t: nat)
    requires t < |s.threads| && (s.threads[t].Dispatching? || s.threads[t].DispatchSaving? || s.threads[t].FinishSaving?)
    ensures AllAttended(s)
  {
    forall id | QueuedIn(s.core, id) ensures Attended(s, id) {
      assert WillLook(s.threads[t], id);
    }
  }

  lemma SlotsInUse(ts: seq<Thread>, t: nat)
    requires t < |ts| && IsWorker(ts[t])
    ensures CountWorkers(ts) > 0
  {
    CountUpdate(ts, t, Done);
  }

  /** A worker that has lost its job frees a slot and looks at nothing. */
  lemma LostExactly(s: Sys, t: nat, ok: bool, end: RunEnd)
    requires Inv(s) && NoStranded(s) && t < |s.threads| && s.threads[t].Starting?
    ensures NoStranded(Progress(s, t, ok, end)) <==> AttendanceSafe(s, Advance(t, ok, end))
  {
    var s' := Progress(s, t, ok, end);
    SlotsInUse(s.threads, t);
    assert forall id :: QueuedIn(s'.core, id) <==> QueuedIn(s.core, id);
    assert s'.threads == s.threads[t := s'.threads[t]];
    forall id ensures Attended(s', id) <==> Attended(s, id) {
      if Attended(s, id) { AttendedAfter(s, s', t, id); }
      if Attended(s', id) { AttendedAfter(s', s, t, id); }
    }
  }

  /** A save that moves on attends what it did, unless it has undone it. */
  lemma SavedAttendance(s: Sys, t: nat, ok: bool, end: RunEnd)
    requires Inv(s) && t < |s.threads| && SavingCall(s.threads[t])
    ensures var s' := Progress(s, t, ok, end);
            && s'.core == s.core.(jobs := s'.core.jobs, jobOrder := s'.core.jobOrder)
            && s'.threads == s.threads[t := s'.threads[t]]
            && (forall id :: QueuedIn(s'.core, id) ==>
                  QueuedIn(s.core, id) && (WillLook(s.threads[t], id) ==> WillLook(s'.threads[t], id)))
  {
    assert Handed(s.core, s.threads[t]);
  }

  lemma SavingKeepsAttendance(s: Sys, t: nat, ok: bool, end: RunEnd)
    requires Inv(s) && NoStranded(s) && t < |s.threads| && SavingCall(s.threads[t])
    ensures NoStranded(Progress(s, t, ok, end))
  {
    var s' := Progress(s, t, ok, end);
    SavedAttendance(s, t, ok, end);
    forall id | QueuedIn(s'.core, id) && Attended(s, id) ensures Attended(s', id) {
      AttendedAfter(s, s', t, id);
    }
  }

  lemma AdvanceKeepsAttendance(s: Sys, t: nat, ok: bool, end: RunEnd)
    requires Inv(s) && NoStranded(s) && t < |s.threads|
    ensures NoStranded(Progress(s, t, ok, end)) <==> AttendanceSafe(s, Advance(t, ok, end))
  {
    match s.threads[t]
    case Dispatching =>
      if DispatchOne(s.core).1.None? {
        IdleKeepsAttendance(s, t, ok, end);
      } else {
        LookingAttendsAll(Progress(s, t, ok, end), t);
      }
    case DispatchSaving(_, _) => LookingAttendsAll(Progress(s, t, ok, end), t);
    case Starting(_, _) => LostExactly(s, t, ok, end);
    case Executing(_) => LookingAttendsAll(Progress(s, t, ok, end), t);
    case _ => SavingKeepsAttendance(s, t, ok, end);
  }

  /** Which steps strand a job: the end of a legacy transfer and the loss of a
      worker's job, each exactly when a queued job that could start has nobody
      to look at it. No other step ever does. */
  lemma {:induction false} StrandsExactly(s: Sys, e: Event)
    requires Inv(s) && NoStranded(s)
    ensures NoStranded(Step(s, e)) <==> AttendanceSafe(s, e)
  {
    if e.Advance? {
      if e.t < |s.threads| { AdvanceKeepsAttendance(s, e.t, e.ok, e.end); }
    } else {
      RegionKeepsAttendance(s, e);
    }
  }

  // ---- The wake lock over one step ----

  /** The only step that gets the wake lock wrong: the last worker has lost its job. */
  lemma {:induction false} WakeLockExactly(s: Sys, e: Event)
    requires Inv(s) && WakeExact(s)
    ensures WakeExact(Step(s, e)) <==> WakeSafe(s, e)
  {
    match e
    case Restart(readable, saved) => NothingRunsAfterRestart(s, readable, saved);
    case Advance(t, ok, end) =>
      if t < |s.threads| {
        if IsWorker(s.threads[t]) { SlotsInUse(s.threads, t); }
        WakeAfterAdvance(s, t, ok, end);
      }
    case _ =>
  }

  lemma WakeAfterAdvance(s: Sys, t: nat, ok: bool, end: RunEnd)
    requires WakeExact(s) && t < |s.threads| && s.core.runningJobs >= 0 && (IsWorker(s.threads[t]) ==> s.core.runningJobs > 0)
    ensures WakeExact(Progress(s, t, ok, end)) <==> WakeSafe(s, Advance(t, ok, end))
  {
  }

  // ---- Every run ----

  /** In every state of every run whose steps are all safe, no job is stranded. */
  lemma {:induction false} NeverStranded(maxJobs: nat, events: seq<Event>)
    requires Always(AttendanceSafe, Init(maxJobs), events)
    ensures NoStranded(Run(Init(maxJobs), events))
  {
    if events != [] {
      var front := events[..|events| - 1];
      AlwaysBefore(AttendanceSafe, Init(maxJobs), events);
      NeverStranded(maxJobs, front);
      EveryRunKeeps(maxJobs, front);
      StrandsExactly(Run(Init(maxJobs), front), events[|events| - 1]);
    }
  }

  lemma {:induction false} WakeLockFollowsWorkers(maxJobs: nat, events: seq<Event>)
    requires Always(WakeSafe, Init(maxJobs), events)
    ensures WakeExact(Run(Init(maxJobs), events))
  {
    if events != [] {
      var front := events[..|events| - 1];
      AlwaysBefore(WakeSafe, Init(maxJobs), events);
      WakeLockFollowsWorkers(maxJobs, front);
      EveryRunKeeps(maxJobs, front);
      WakeLockExactly(Run(Init(maxJobs), front), events[|events| - 1]);
    }
  }

  predicate NoLegacy(s: Sys, e: Event) {
    !e.BeginLegacy? && !LosesJob(s, e)
  }

  /** In particular with no legacy transfer and no worker that loses its job. */
  lemma {:induction false} NeverStrandedWithoutLegacy(maxJobs: nat, events: seq<Event>)
    requires Always(NoLegacy, Init(maxJobs), events)
    ensures var s := Run(Init(maxJobs), events); !s.core.legacyActive && NoStranded(s) && WakeExact(s)
  {
    if events != [] {
      var front, e := events[..|events| - 1], events[|events| - 1];
      AlwaysBefore(NoLegacy, Init(maxJobs), events);
      NeverStrandedWithoutLegacy(maxJobs, front);
      EveryRunKeeps(maxJobs, front);
      StrandsExactly(Run(Init(maxJobs), front), e);
      WakeLockExactly(Run(Init(maxJobs), front), e);
      StaysWithoutLegacy(Run(Init(maxJobs), front), e);
    }
  }

  lemma StaysWithoutLegacy(s: Sys, e: Event)
    requires Inv(s) && !s.core.legacyActive && !e.BeginLegacy?
    ensures !Step(s, e).core.legacyActive
  {
    if e.Restart? { NothingRunsAfterRestart(s, e.readable, e.saved); }
  }

  ghost predicate Undisturbed(s: Sys, e: Event) {
    UndoSafe(s, e) && LegacyEndSafe(s, e)
  }

  /** If no save fails over an active job, workers never lose theirs: then only
      the end of a legacy transfer can strand a job, and the wake lock is held
      exactly while something runs. */
  lemma {:induction false} UndisturbedRuns(maxJobs: nat, events: seq<Event>)
    requires Always(Undisturbed, Init(maxJobs), events)
    ensures var s := Run(Init(maxJobs), events);
            OneOwner(s) && GoneOrActive(s) && NoOrphans(s) && ActiveJobsOwned(s) && NoStranded(s) && WakeExact(s)
  {
    if events != [] {
      var front, e := events[..|events| - 1], events[|events| - 1];
      var s := Run(Init(maxJobs), front);
      AlwaysBefore(Undisturbed, Init(maxJobs), events);
      UndisturbedRuns(maxJobs, front);
      EveryRunKeeps(maxJobs, front);
      assert !LosesJob(s, e);
      StepKeepsOwners(s, e);
      StrandsExactly(s, e);
      WakeLockExactly(s, e);
    }
  }
}

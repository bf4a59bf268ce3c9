/** Which worker owns which job, in every run, and what a failed save that is
    rolled back does to that. */
module SchedulerOwners {
  import opened JobRecords
  import opened SchedulerCore
  import opened SchedulerRuns
  import opened SchedulerInvariants

  predicate ActiveIn(c: Core, id: Id) {
    id in c.jobs && Active(c.jobs[id].record.status)
  }

  predicate QueuedIn(c: Core, id: Id) {
    id in c.jobs && c.jobs[id].record.status.Queued?
  }

  predicate Owns(t: Thread, id: Id) {
    IsWorker(t) && WorkerId(t) == id
  }

  ghost predicate Owned(s: Sys, id: Id) {
    exists i :: 0 <= i < |s.threads| && Owns(s.threads[i], id)
  }

  /** No job has two workers. */
  ghost predicate OneOwner(s: Sys) {
    forall i, j :: 0 <= i < j < |s.threads| && IsWorker(s.threads[i]) && IsWorker(s.threads[j]) ==>
      WorkerId(s.threads[i]) != WorkerId(s.threads[j])
  }

  /** A worker's job is active, unless it is gone. */
  ghost predicate GoneOrActive(s: Sys) {
    forall i :: 0 <= i < |s.threads| && IsWorker(s.threads[i]) && WorkerId(s.threads[i]) in s.core.jobs ==>
      ActiveIn(s.core, WorkerId(s.threads[i]))
  }

  /** No worker's job is gone. */
  ghost predicate NoOrphans(s: Sys) {
    forall i :: 0 <= i < |s.threads| && IsWorker(s.threads[i]) ==> WorkerId(s.threads[i]) in s.core.jobs
  }

  ghost predicate ActiveJobsOwned(s: Sys) {
    forall id :: ActiveIn(s.core, id) ==> Owned(s, id)
  }

  /** `guard` holds of every step of a run. */
  ghost predicate Always(guard: (Sys, Event) -> bool, s: Sys, events: seq<Event>) {
    forall n :: 0 <= n < |events| ==> guard(Run(s, events[..n]), events[n])
  }

  lemma AlwaysBefore(guard: (Sys, Event) -> bool, s: Sys, events: seq<Event>)
    requires Always(guard, s, events) && events != []
    ensures Always(guard, s, events[..|events| - 1])
    ensures guard(Run(s, events[..|events| - 1]), events[|events| - 1])
  {
    var front := events[..|events| - 1];
    forall n | 0 <= n < |front| ensures guard(Run(s, front[..n]), front[n]) {
      assert front[..n] == events[..n];
    }
  }

  /** A retry's save that fails here does not do so over an active job. */
  predicate RetryUndoSafe(s: Sys, e: Event) {
    e.Advance? && !e.ok && e.t < |s.threads| && s.threads[e.t].RetrySaving? ==> !ActiveIn(s.core, s.threads[e.t].record.id)
  }

  /** Nor does the first save of an enqueue. */
  predicate EnqueueUndoSafe(s: Sys, e: Event) {
    e.Advance? && !e.ok && e.t < |s.threads| && s.threads[e.t].EnqueueSaving? ==> !ActiveIn(s.core, s.threads[e.t].record.id)
  }

  predicate UndoSafe(s: Sys, e: Event) {
    RetryUndoSafe(s, e) && EnqueueUndoSafe(s, e)
  }

  // ---- What a step does to jobs and threads ----

  /** Jobs that were there stay active if they were, and the others are new. */
  ghost predicate JobsKeep(s: Sys, s': Sys) {
    forall id :: id in s'.core.jobs ==>
      (id in s.core.jobs && (ActiveIn(s.core, id) ==> ActiveIn(s'.core, id))) || id !in s.issued
  }

  /** Every worker there is was one already. */
  predicate NoNewWorkers(s: Sys, s': Sys) {
    forall i :: 0 <= i < |s'.threads| && IsWorker(s'.threads[i]) ==>
      i < |s.threads| && IsWorker(s.threads[i]) && WorkerId(s'.threads[i]) == WorkerId(s.threads[i])
  }

  lemma WorkersWereIssued(s: Sys)
    requires Inv(s)
    ensures forall i :: 0 <= i < |s.threads| && IsWorker(s.threads[i]) ==> WorkerId(s.threads[i]) in s.issued
  {
    forall i | 0 <= i < |s.threads| && IsWorker(s.threads[i]) ensures WorkerId(s.threads[i]) in s.issued {
      assert ThreadEarned(s, s.threads[i]);
    }
  }

  lemma OwnersKept(s: Sys, s': Sys)
    requires Inv(s) && OneOwner(s) && GoneOrActive(s)
    requires JobsKeep(s, s') && NoNewWorkers(s, s')
    ensures OneOwner(s') && GoneOrActive(s')
  {
    WorkersWereIssued(s);
  }

  /** An active job is owned as before, or not active any more. */
  ghost predicate OwnersStay(s: Sys, s': Sys) {
    && (forall id :: ActiveIn(s'.core, id) ==> ActiveIn(s.core, id))
    && (forall i :: 0 <= i < |s.threads| && IsWorker(s.threads[i]) && ActiveIn(s'.core, WorkerId(s.threads[i])) ==>
          i < |s'.threads| && Owns(s'.threads[i], WorkerId(s.threads[i])))
  }

  lemma ActiveStayOwned(s: Sys, s': Sys)
    requires ActiveJobsOwned(s) && OwnersStay(s, s')
    ensures ActiveJobsOwned(s')
  {
    forall id | ActiveIn(s'.core, id) ensures Owned(s', id) {
      var i :| 0 <= i < |s.threads| && Owns(s.threads[i], id);
      assert Owns(s'.threads[i], id);
    }
  }

  // ---- The first region of a call ----

  /** A stop request never makes a job queued and never frees or takes a worker. */
  lemma StopReplies(j: Job)
    ensures Active(CancelJob(j).0.record.status) <==> Active(j.record.status)
    ensures Active(PauseJob(j).0.record.status) <==> Active(j.record.status)
    ensures !CancelJob(j).0.record.status.Queued? && !PauseJob(j).0.record.status.Queued?
  {
  }

  /** What the first region of a call does to jobs: no active job stops being
      one, none becomes one, none disappears. */
  ghost predicate JobsUndisturbed(s: Sys, s': Sys) {
    && JobsKeep(s, s')
    && (forall id :: ActiveIn(s'.core, id) ==> ActiveIn(s.core, id))
    && (forall id :: ActiveIn(s.core, id) ==> id in s'.core.jobs)
  }

  lemma StopUndisturbed(s: Sys, e: Event)
    requires Inv(s) && (e.Cancel? || e.Pause?)
    ensures JobsUndisturbed(s, Step(s, e))
  {
    if e.id in s.core.jobs { StopReplies(s.core.jobs[e.id]); }
  }

  lemma EnqueueUndisturbed(s: Sys, e: Event)
    requires Inv(s) && e.Enqueue?
    ensures JobsUndisturbed(s, Step(s, e))
  {
    assert e.id in s.core.jobs ==> RecordEarned(s, s.core.jobs[e.id].record);
  }

  lemma RetryUndisturbed(s: Sys, e: Event)
    requires Inv(s) && e.Retry?
    ensures JobsUndisturbed(s, Step(s, e))
  {
    assert Retried(s.core, e.id, e.password).Some? ==> !ActiveIn(s.core, e.id) && !ActiveIn(Step(s, e).core, e.id);
  }

  lemma RemoveUndisturbed(s: Sys, e: Event)
    requires Inv(s) && e.Remove?
    ensures JobsUndisturbed(s, Step(s, e))
  {
    assert Removed(s.core, e.id).Some? ==> !ActiveIn(s.core, e.id);
  }

  lemma RegionKeepsJobs(s: Sys, e: Event)
    requires Inv(s) && !e.Advance? && !e.Restart?
    ensures JobsUndisturbed(s, Step(s, e))
  {
    match e
    case Enqueue(_, _, _, _) => EnqueueUndisturbed(s, e);
    case Cancel(_) => StopUndisturbed(s, e);
    case Pause(_) => StopUndisturbed(s, e);
    case Retry(_, _) => RetryUndisturbed(s, e);
    case Remove(_) => RemoveUndisturbed(s, e);
    case _ =>
  }

  lemma RegionThreads(s: Sys, e: Event)
    requires !e.Advance? && !e.Restart?
    ensures var s' := Step(s, e);
            s'.threads == s.threads || (exists t :: !IsWorker(t) && s'.threads == s.threads + [t])
  {
    var s' := Step(s, e);
    if s'.threads != s.threads {
      var t := s'.threads[|s.threads|];
      assert s'.threads == s.threads + [t];
    }
  }

  lemma RegionKeepsOwners(s: Sys, e: Event)
    requires Inv(s) && !e.Advance? && !e.Restart?
    ensures OneOwner(s) && GoneOrActive(s) ==> OneOwner(Step(s, e)) && GoneOrActive(Step(s, e))
    ensures OneOwner(s) && GoneOrActive(s) && NoOrphans(s) ==> NoOrphans(Step(s, e))
    ensures ActiveJobsOwned(s) ==> ActiveJobsOwned(Step(s, e))
  {
    var s' := Step(s, e);
    RegionKeepsJobs(s, e);
    RegionThreads(s, e);
    if OneOwner(s) && GoneOrActive(s) { OwnersKept(s, s'); }
    if ActiveJobsOwned(s) { ActiveStayOwned(s, s'); }
  }

  // ---- A restart ----

  /** Whatever was stored, a restart leaves no job queued or owned by a worker. */
  lemma NothingRunsAfterRestart(s: Sys, readable: bool, saved: seq<bool>)
    requires Inv(s)
    ensures var s' := Step(s, Restart(readable, saved));
            && s'.threads == [] && s'.core.runningJobs == 0
            && !s'.core.closed && !s'.core.legacyActive && !s'.core.wakeLock
            && forall id :: !QueuedIn(s'.core, id) && !ActiveIn(s'.core, id)
  {
    var listed := if readable then ByCreation(s.store) else [];
    RestoredFacts(s.core.maxJobs, listed);
    RestoredQuiet(s.core.maxJobs, listed);
  }

  lemma {:induction false} RestoredQuiet(maxJobs: nat, listed: seq<Record>)
    ensures forall id :: !QueuedIn(Restored(maxJobs, listed), id) && !ActiveIn(Restored(maxJobs, listed), id)
  {
    if listed != [] {
      var n := |listed| - 1;
      RestoredQuiet(maxJobs, listed[..n]);
      var before, after := Restored(maxJobs, listed[..n]), Restored(maxJobs, listed);
      forall id ensures !QueuedIn(after, id) && !ActiveIn(after, id) {
        assert !QueuedIn(before, id) && !ActiveIn(before, id);
      }
    }
  }

  // ---- The dispatch loop and the worker ----

  /** What taking a job does to the jobs. */
  lemma TakenFacts(c: Core)
    requires OrderInv(c) && DispatchOne(c).1.Some?
    ensures var (c', taken) := DispatchOne(c);
            var id := taken.value.record.id;
            && QueuedIn(c, id) && ActiveIn(c', id) && c'.jobs == c.jobs[id := c'.jobs[id]]
  {
  }

  lemma TakingKeepsOwners(s: Sys, t: nat, ok: bool, end: RunEnd)
    requires Inv(s) && t < |s.threads| && s.threads[t].Dispatching? && DispatchOne(s.core).1.Some?
    ensures var s' := Progress(s, t, ok, end);
            && (OneOwner(s) && GoneOrActive(s) ==> OneOwner(s') && GoneOrActive(s'))
            && (NoOrphans(s) ==> NoOrphans(s'))
            && (ActiveJobsOwned(s) ==> ActiveJobsOwned(s'))
  {
    TakenFacts(s.core);
    var s' := Progress(s, t, ok, end);
    var id := s'.threads[t].record.id;
    assert forall i :: 0 <= i < |s.threads| && i != t ==> s'.threads[i] == s.threads[i];
    if ActiveJobsOwned(s) {
      forall x | ActiveIn(s'.core, x) ensures Owned(s', x) {
        if x == id {
          assert Owns(s'.threads[t], x);
        } else {
          assert ActiveIn(s.core, x);
          var i :| 0 <= i < |s.threads| && Owns(s.threads[i], x);
          assert Owns(s'.threads[i], x);
        }
      }
    }
  }

  lemma SpawningKeepsOwners(s: Sys, t: nat, ok: bool, end: RunEnd)
    requires t < |s.threads| && s.threads[t].DispatchSaving?
    ensures var s' := Progress(s, t, ok, end);
            && (OneOwner(s) && GoneOrActive(s) ==> OneOwner(s') && GoneOrActive(s'))
            && (NoOrphans(s) ==> NoOrphans(s'))
            && (ActiveJobsOwned(s) ==> ActiveJobsOwned(s'))
  {
    var s', n := Progress(s, t, ok, end), |s.threads|;
    assert Owns(s'.threads[n], WorkerId(s.threads[t]));
    if ActiveJobsOwned(s) {
      forall id | ActiveIn(s'.core, id) ensures Owned(s', id) {
        assert ActiveIn(s.core, id);
        var i :| 0 <= i < |s.threads| && Owns(s.threads[i], id);
        assert Owns(s'.threads[if i == t then n else i], id);
      }
    }
  }

  lemma StartingKeepsOwners(s: Sys, t: nat, ok: bool, end: RunEnd)
    requires Inv(s) && t < |s.threads| && s.threads[t].Starting?
    ensures var s' := Progress(s, t, ok, end);
            && (OneOwner(s) && GoneOrActive(s) ==> OneOwner(s') && GoneOrActive(s'))
            && (NoOrphans(s) ==> NoOrphans(s'))
            && (ActiveJobsOwned(s) ==> ActiveJobsOwned(s'))
  {
    var s' := Progress(s, t, ok, end);
    assert s'.core.jobs == s.core.jobs && s'.threads == s.threads[t := s'.threads[t]];
    assert IsWorker(s'.threads[t]) || s.threads[t].id !in s.core.jobs;
    if OneOwner(s) && GoneOrActive(s) { OwnersKept(s, s'); }
    if ActiveJobsOwned(s) { ActiveStayOwned(s, s'); }
  }

  lemma FinishingKeepsOwners(s: Sys, t: nat, ok: bool, end: RunEnd)
    requires t < |s.threads| && s.threads[t].Executing?
    ensures var s' := Progress(s, t, ok, end);
            && (OneOwner(s) && GoneOrActive(s) ==> OneOwner(s') && GoneOrActive(s'))
            && (NoOrphans(s) ==> NoOrphans(s'))
            && (ActiveJobsOwned(s) ==> ActiveJobsOwned(s'))
  {
    var s', done := Progress(s, t, ok, end), s.threads[t].id;
    FinishedFrees(s.core, done, end);
    FinishingThreads(s, t, ok, end);
    assert forall x :: x != done ==> (ActiveIn(s'.core, x) <==> ActiveIn(s.core, x));
    if ActiveJobsOwned(s) { ActiveStayOwned(s, s'); }
  }

  lemma FinishingThreads(s: Sys, t: nat, ok: bool, end: RunEnd)
    requires t < |s.threads| && s.threads[t].Executing?
    ensures var s' := Progress(s, t, ok, end);
            && s'.core == Finished(s.core, s.threads[t].id, end).0
            && s'.threads == s.threads[t := s'.threads[t]] && !IsWorker(s'.threads[t])
  {
  }

  lemma FinishedFrees(c: Core, id: Id, end: RunEnd)
    ensures var c' := Finished(c, id, end).0;
            && c'.jobs.Keys == c.jobs.Keys && !ActiveIn(c', id) && !QueuedIn(c', id)
            && forall x :: x != id && x in c.jobs ==> c'.jobs[x] == c.jobs[x]
  {
  }

  // ---- Saves ----

  predicate SavingCall(t: Thread) {
    !IsWorker(t) && !t.Dispatching?
  }

  lemma SavedJobs(s: Sys, t: nat, ok: bool, end: RunEnd)
    requires Inv(s) && t < |s.threads| && SavingCall(s.threads[t])
    ensures var s' := Progress(s, t, ok, end);
            && s'.threads == s.threads[t := s'.threads[t]] && !IsWorker(s'.threads[t])
            && (forall id :: ActiveIn(s'.core, id) ==> ActiveIn(s.core, id))
            && (RetryUndoSafe(s, Advance(t, ok, end)) ==> JobsKeep(s, s'))
            && (EnqueueUndoSafe(s, Advance(t, ok, end)) ==> forall id :: ActiveIn(s.core, id) ==> id in s'.core.jobs)
  {
    assert Handed(s.core, s.threads[t]) && ThreadEarned(s, s.threads[t]);
  }

  lemma SavingKeepsOwners(s: Sys, t: nat, ok: bool, end: RunEnd)
    requires Inv(s) && t < |s.threads| && SavingCall(s.threads[t])
    ensures var s', e := Progress(s, t, ok, end), Advance(t, ok, end);
            && (RetryUndoSafe(s, e) && OneOwner(s) && GoneOrActive(s) ==> OneOwner(s') && GoneOrActive(s'))
            && (EnqueueUndoSafe(s, e) && GoneOrActive(s) && NoOrphans(s) ==> NoOrphans(s'))
            && (ActiveJobsOwned(s) ==> ActiveJobsOwned(s'))
  {
    var s' := Progress(s, t, ok, end);
    SavedJobs(s, t, ok, end);
    if RetryUndoSafe(s, Advance(t, ok, end)) && OneOwner(s) && GoneOrActive(s) { OwnersKept(s, s'); }
    if ActiveJobsOwned(s) { ActiveStayOwned(s, s'); }
  }

  // ---- Every step ----

  lemma AdvanceKeepsOwners(s: Sys, t: nat, ok: bool, end: RunEnd)
    requires Inv(s) && t < |s.threads|
    ensures var s', e := Progress(s, t, ok, end), Advance(t, ok, end);
            && (RetryUndoSafe(s, e) && OneOwner(s) && GoneOrActive(s) ==> OneOwner(s') && GoneOrActive(s'))
            && (EnqueueUndoSafe(s, e) && OneOwner(s) && GoneOrActive(s) && NoOrphans(s) ==> NoOrphans(s'))
            && (ActiveJobsOwned(s) ==> ActiveJobsOwned(s'))
  {
    match s.threads[t]
    case Dispatching =>
      if DispatchOne(s.core).1.Some? {
        TakingKeepsOwners(s, t, ok, end);
      } else {
        IdleKeepsOwners(s, t, ok, end);
      }
    case DispatchSaving(_, _) => SpawningKeepsOwners(s, t, ok, end);
    case Starting(_, _) => StartingKeepsOwners(s, t, ok, end);
    case Executing(_) => FinishingKeepsOwners(s, t, ok, end);
    case _ => SavingKeepsOwners(s, t, ok, end);
  }

  lemma IdleKeepsOwners(s: Sys, t: nat, ok: bool, end: RunEnd)
    requires Inv(s) && t < |s.threads| && s.threads[t].Dispatching? && DispatchOne(s.core).1.None?
    ensures var s' := Progress(s, t, ok, end);
            && (OneOwner(s) && GoneOrActive(s) ==> OneOwner(s') && GoneOrActive(s'))
            && (NoOrphans(s) ==> NoOrphans(s'))
            && (ActiveJobsOwned(s) ==> ActiveJobsOwned(s'))
  {
    var s' := Progress(s, t, ok, end);
    if OneOwner(s) && GoneOrActive(s) { OwnersKept(s, s'); }
    if ActiveJobsOwned(s) { ActiveStayOwned(s, s'); }
  }

  lemma {:induction false} StepKeepsOwners(s: Sys, e: Event)
    requires Inv(s)
    ensures RetryUndoSafe(s, e) && OneOwner(s) && GoneOrActive(s) ==> OneOwner(Step(s, e)) && GoneOrActive(Step(s, e))
    ensures EnqueueUndoSafe(s, e) && OneOwner(s) && GoneOrActive(s) && NoOrphans(s) ==> NoOrphans(Step(s, e))
    ensures ActiveJobsOwned(s) ==> ActiveJobsOwned(Step(s, e))
  {
    match e
    case Advance(t, ok, end) => if t < |s.threads| { AdvanceKeepsOwners(s, t, ok, end); }
    case Restart(readable, saved) => NothingRunsAfterRestart(s, readable, saved);
    case _ => RegionKeepsOwners(s, e);
  }

  // ---- Every run ----

  /** In every run at all, each active job has a live worker. */
  lemma {:induction false} ActiveJobsHaveWorkers(maxJobs: nat, events: seq<Event>)
    ensures ActiveJobsOwned(Run(Init(maxJobs), events))
  {
    if events != [] {
      var front := events[..|events| - 1];
      ActiveJobsHaveWorkers(maxJobs, front);
      EveryRunKeeps(maxJobs, front);
      StepKeepsOwners(Run(Init(maxJobs), front), events[|events| - 1]);
    }
  }

  /** Unless a retry's save fails over an active job, no job ever has two
      workers, whatever else fails, is removed, or runs beside the scheduler. */
  lemma {:induction false} OneWorkerPerJob(maxJobs: nat, events: seq<Event>)
    requires Always(RetryUndoSafe, Init(maxJobs), events)
    ensures OneOwner(Run(Init(maxJobs), events)) && GoneOrActive(Run(Init(maxJobs), events))
  {
    if events != [] {
      var front := events[..|events| - 1];
      AlwaysBefore(RetryUndoSafe, Init(maxJobs), events);
      OneWorkerPerJob(maxJobs, front);
      EveryRunKeeps(maxJobs, front);
      StepKeepsOwners(Run(Init(maxJobs), front), events[|events| - 1]);
    }
  }

  /** If no save fails over an active job, workers and active jobs match one to one. */
  lemma {:induction false} WorkersMatchActiveJobs(maxJobs: nat, events: seq<Event>)
    requires Always(UndoSafe, Init(maxJobs), events)
    ensures var s := Run(Init(maxJobs), events);
            OneOwner(s) && GoneOrActive(s) && NoOrphans(s) && ActiveJobsOwned(s)
  {
    if events != [] {
      var front := events[..|events| - 1];
      AlwaysBefore(UndoSafe, Init(maxJobs), events);
      WorkersMatchActiveJobs(maxJobs, front);
      EveryRunKeeps(maxJobs, front);
      StepKeepsOwners(Run(Init(maxJobs), front), events[|events| - 1]);
    }
  }

  // ---- The guards are exact ----

  /** A retry's save that fails leaves every worker's job active or gone exactly
      when the job it rolls back is not active. */
  lemma RetryUndoBreaksExactlyWhenActive(s: Sys, t: nat, end: RunEnd)
    requires Inv(s) && OneOwner(s) && GoneOrActive(s) && ActiveJobsOwned(s) && t < |s.threads| && s.threads[t].RetrySaving?
    ensures GoneOrActive(Progress(s, t, false, end)) <==> RetryUndoSafe(s, Advance(t, false, end))
  {
    SavingKeepsOwners(s, t, false, end);
    var id := s.threads[t].record.id;
    if ActiveIn(s.core, id) {
      var i :| 0 <= i < |s.threads| && Owns(s.threads[i], id);
      var s' := Progress(s, t, false, end);
      assert Handed(s.core, s.threads[t]);
      assert Owns(s'.threads[i], id) && id in s'.core.jobs && !ActiveIn(s'.core, id);
    }
  }

  /** An enqueue's save that fails leaves every worker its job exactly when the
      job it drops is not active. */
  lemma EnqueueUndoOrphansExactlyWhenActive(s: Sys, t: nat, end: RunEnd)
    requires Inv(s) && OneOwner(s) && GoneOrActive(s) && NoOrphans(s) && ActiveJobsOwned(s)
    requires t < |s.threads| && s.threads[t].EnqueueSaving?
    ensures NoOrphans(Progress(s, t, false, end)) <==> EnqueueUndoSafe(s, Advance(t, false, end))
  {
    SavingKeepsOwners(s, t, false, end);
    var id := s.threads[t].record.id;
    if ActiveIn(s.core, id) {
      var i :| 0 <= i < |s.threads| && Owns(s.threads[i], id);
      assert Owns(Progress(s, t, false, end).threads[i], id);
    }
  }
}

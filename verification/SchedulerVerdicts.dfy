/** When status Verified means what it says: that the engine returned the
    verdict. It is given to every run that returns no error, and a run that
    skipped its file returns none and no verdict either. */
module SchedulerVerdicts {
  import opened JobRecords
  import opened SchedulerCore
  import opened SchedulerRuns
  import opened SchedulerInvariants
  import opened SchedulerOwners

  predicate Backed(r: Record) {
    r.status.Verified? ==> r.verified
  }

  predicate ThreadBacked(t: Thread) {
    match t
    case DispatchSaving(r, _) => Backed(r)
    case FinishSaving(r) => Backed(r)
    case EnqueueSaving(r) => Backed(r)
    case RetrySaving(r, previous) => Backed(r) && Backed(previous)
    case Saving(r) => Backed(r)
    case _ => true
  }

  ghost predicate StoreBacked(records: seq<Record>) {
    forall r :: r in records ==> Backed(r)
  }

  ghost predicate JobsBacked(c: Core) {
    forall id :: id in c.jobs ==> Backed(c.jobs[id].record)
  }

  ghost predicate ThreadsBacked(threads: seq<Thread>) {
    forall t :: 0 <= t < |threads| ==> ThreadBacked(threads[t])
  }

  /** Whatever says Verified, in memory, on disk or on its way there, carries the verdict. */
  ghost predicate AllBacked(s: Sys) {
    StoreBacked(s.store) && JobsBacked(s.core) && ThreadsBacked(s.threads)
  }

  /** A run that ends here without an error returns the verdict, unless its job is gone. */
  predicate EndsBacked(s: Sys, e: Event) {
    e.Advance? && e.t < |s.threads| && s.threads[e.t].Executing? && s.threads[e.t].id in s.core.jobs && e.end.Succeeded? ==>
      e.end.verified
  }

  // ---- The first region of a call ----

  /** A stop request never makes a job verified. */
  lemma StopBacked(j: Job)
    requires Backed(j.record)
    ensures Backed(CancelJob(j).0.record) && Backed(PauseJob(j).0.record)
    ensures CancelJob(j).1.StoppedBeforeStart? ==> Backed(CancelJob(j).1.record)
    ensures PauseJob(j).1.StoppedBeforeStart? ==> Backed(PauseJob(j).1.record)
  {
  }

  lemma StopKeepsBacked(s: Sys, e: Event)
    requires AllBacked(s) && (e.Cancel? || e.Pause?)
    ensures AllBacked(Step(s, e))
  {
    if e.id in s.core.jobs { StopBacked(s.core.jobs[e.id]); }
  }

  lemma RetryKeepsBacked(s: Sys, e: Event)
    requires AllBacked(s) && e.Retry?
    ensures AllBacked(Step(s, e))
  {
  }

  lemma RegionKeepsBacked(s: Sys, e: Event)
    requires AllBacked(s) && !e.Advance? && !e.Restart?
    ensures AllBacked(Step(s, e))
  {
    match e
    case Cancel(_) => StopKeepsBacked(s, e);
    case Pause(_) => StopKeepsBacked(s, e);
    case Retry(_, _) => RetryKeepsBacked(s, e);
    case _ =>
  }

  // ---- A restart ----

  lemma RestartKeepsBacked(s: Sys, readable: bool, saved: seq<bool>)
    requires Inv(s) && AllBacked(s)
    ensures AllBacked(Step(s, Restart(readable, saved)))
  {
    var listed := if readable then ByCreation(s.store) else [];
    ByCreationFacts(s.store);
    RestoredBacked(s.core.maxJobs, listed);
    RestoredStoreFacts(s.store, listed, saved);
  }

  lemma RestoredBacked(maxJobs: nat, listed: seq<Record>)
    requires StoreBacked(listed)
    ensures JobsBacked(Restored(maxJobs, listed))
  {
    RestoredFacts(maxJobs, listed);
    var c := Restored(maxJobs, listed);
    forall id | id in c.jobs ensures Backed(c.jobs[id].record) {
      assert CameBack(c, listed, id);
    }
  }

  // ---- Calls that move on ----

  lemma StoredBacked(s: Sys, ok: bool, r: Record)
    requires UniqueIds(s.store) && StoreBacked(s.store) && Backed(r)
    ensures StoreBacked(Stored(s, ok, r).store)
  {
    UpsertFacts(s.store, r);
  }

  lemma SavingKeepsBacked(s: Sys, t: nat, ok: bool, end: RunEnd)
    requires Inv(s) && AllBacked(s) && t < |s.threads| && SavingCall(s.threads[t])
    ensures AllBacked(Progress(s, t, ok, end))
  {
    assert ThreadBacked(s.threads[t]);
    match s.threads[t]
    case FinishSaving(r) => StoredBacked(s, ok, r);
    case EnqueueSaving(r) => StoredBacked(s, ok, r);
    case RetrySaving(r, _) => StoredBacked(s, ok, r);
    case Saving(r) => StoredBacked(s, ok, r);
    case Deleting(id) => DeletedFacts(s.store, id);
    case Done =>
  }

  lemma TakingKeepsBacked(s: Sys, t: nat, ok: bool, end: RunEnd)
    requires Inv(s) && AllBacked(s) && t < |s.threads| && s.threads[t].Dispatching?
    ensures AllBacked(Progress(s, t, ok, end))
  {
    if DispatchOne(s.core).1.Some? { TakenFits(s); }
  }

  lemma SpawningKeepsBacked(s: Sys, t: nat, ok: bool, end: RunEnd)
    requires Inv(s) && AllBacked(s) && t < |s.threads| && s.threads[t].DispatchSaving?
    ensures AllBacked(Progress(s, t, ok, end))
  {
    assert ThreadBacked(s.threads[t]);
    StoredBacked(s, ok, s.threads[t].record);
  }

  /** The one step that can go wrong. */
  lemma FinishingBackedExactly(s: Sys, t: nat, ok: bool, end: RunEnd)
    requires AllBacked(s) && t < |s.threads| && s.threads[t].Executing?
    ensures AllBacked(Progress(s, t, ok, end)) <==> EndsBacked(s, Advance(t, ok, end))
  {
    var id, s' := s.threads[t].id, Progress(s, t, ok, end);
    FinishedFrees(s.core, id, end);
    FinishingThreads(s, t, ok, end);
    if id in s.core.jobs {
      var r := FinishJob(s.core.jobs[id], end).record;
      assert s'.core.jobs[id].record == r && s'.threads[t] == FinishSaving(r);
      assert Backed(r) <==> EndsBacked(s, Advance(t, ok, end));
    }
  }

  lemma AdvanceBackedExactly(s: Sys, t: nat, ok: bool, end: RunEnd)
    requires Inv(s) && AllBacked(s) && t < |s.threads|
    ensures AllBacked(Progress(s, t, ok, end)) <==> EndsBacked(s, Advance(t, ok, end))
  {
    match s.threads[t]
    case Dispatching => TakingKeepsBacked(s, t, ok, end);
    case DispatchSaving(_, _) => SpawningKeepsBacked(s, t, ok, end);
    case Starting(_, _) =>
    case Executing(_) => FinishingBackedExactly(s, t, ok, end);
    case _ => SavingKeepsBacked(s, t, ok, end);
  }

  /** Which step first gives status Verified to what the engine has not verified:
      the end of a run that returns no error and no verdict, and no other. */
  lemma {:induction false} VerdictExactly(s: Sys, e: Event)
    requires Inv(s) && AllBacked(s)
    ensures AllBacked(Step(s, e)) <==> EndsBacked(s, e)
  {
    match e
    case Advance(t, ok, end) => if t < |s.threads| { AdvanceBackedExactly(s, t, ok, end); }
    case Restart(readable, saved) => RestartKeepsBacked(s, readable, saved);
    case _ => RegionKeepsBacked(s, e);
  }

  /** In every run whose ends without an error all return the verdict, every
      record that says Verified carries it, for every order in which saves land. */
  lemma {:induction false} VerdictAlways(maxJobs: nat, events: seq<Event>)
    requires Always(EndsBacked, Init(maxJobs), events)
    ensures AllBacked(Run(Init(maxJobs), events))
    ensures forall r :: r in Run(Init(maxJobs), events).store && r.status.Verified? ==> r.verified
  {
    if events != [] {
      var front := events[..|events| - 1];
      AlwaysBefore(EndsBacked, Init(maxJobs), events);
      VerdictAlways(maxJobs, front);
      EveryRunKeeps(maxJobs, front);
      VerdictExactly(Run(Init(maxJobs), front), events[|events| - 1]);
    }
    assert StoreBacked(Run(Init(maxJobs), events).store);
  }
}

/** Concrete runs of the scheduler that reach what the theorems about ownership,
    attendance and stop requests exclude. */
module SchedulerCounterexamples {
  import opened JobRecords
  import opened SchedulerCore
  import opened SchedulerRuns
  import opened SchedulerInvariants
  import opened SchedulerOwners
  import opened SchedulerAttendance
  import opened SchedulerRequests

  const OK: RunEnd := Succeeded(true)

  function Rec(id: Id, s: Status): Record { Record(id, 0, KeyAuth, s, false) }

  function JobIn(id: Id, s: Status): Job { Job(Rec(id, s), "", false, false) }

  function CoreOf(maxJobs: nat, jobs: map<Id, Job>, order: seq<Id>, running: nat): Core {
    Core(jobs, order, running, maxJobs, false, false, running > 0)
  }

  /** `states` is the run of `events`. */
  ghost predicate Steps(states: seq<Sys>, events: seq<Event>) {
    && |states| == |events| + 1
    && forall i :: 0 <= i < |events| ==> Step(states[i], events[i]) == states[i + 1]
  }

  lemma {:induction false} StepsAreRun(states: seq<Sys>, events: seq<Event>)
    requires Steps(states, events)
    ensures Run(states[0], events) == states[|events|]
  {
    if events != [] {
      var n := |events| - 1;
      assert Steps(states[..n + 1], events[..n]);
      StepsAreRun(states[..n + 1], events[..n]);
    }
  }

  lemma RunOfTwo(s: Sys, first: Event, second: Event)
    ensures Run(s, [first, second]) == Step(Step(s, first), second)
  {
    StepsAreRun([s, Step(s, first), Step(Step(s, first), second)], [first, second]);
  }

  lemma EnqueueStepOf(s: Sys, id: Id)
    requires !s.core.closed && |s.core.jobs| < MAX_TRANSFER_JOBS && id !in s.issued
    ensures Step(s, Enqueue(id, 0, KeyAuth, "")) ==
            s.(core := s.core.(jobs := s.core.jobs[id := JobIn(id, Queued)], jobOrder := s.core.jobOrder + [id]),
               threads := s.threads + [EnqueueSaving(Rec(id, Queued))], issued := s.issued + {id})
  {
  }

  lemma CancelStepOf(s: Sys, id: Id)
    requires id in s.core.jobs && s.core.jobs[id] == JobIn(id, Queued)
    ensures Step(s, Cancel(id)) ==
            s.(core := s.core.(jobs := s.core.jobs[id := JobIn(id, Canceled)]), threads := s.threads + [Saving(Rec(id, Canceled))])
  {
  }

  lemma RetryStepOf(s: Sys, id: Id)
    requires id in s.core.jobs && s.core.jobs[id] == JobIn(id, Canceled)
    ensures Step(s, Retry(id, "")) ==
            s.(core := s.core.(jobs := s.core.jobs[id := JobIn(id, Queued)]),
               threads := s.threads + [RetrySaving(Rec(id, Queued), Rec(id, Canceled))])
  {
  }

  /** A failed retry save puts the canceled record over the running one. */
  lemma UndoneStepOf(s: Sys, t: nat, id: Id)
    requires t < |s.threads| && s.threads[t] == RetrySaving(Rec(id, Queued), Rec(id, Canceled))
    requires id in s.core.jobs && s.core.jobs[id] == JobIn(id, Running)
    ensures Step(s, Advance(t, false, OK)) ==
            s.(core := s.core.(jobs := s.core.jobs[id := JobIn(id, Canceled)]), threads := s.threads[t := Done])
  {
  }

  /** A job whose flag of an earlier pause may still be up. */
  function JobWith(id: Id, s: Status, paused: bool): Job { Job(Rec(id, s), "", false, paused) }

  /** A dispatch loop that finds the head of the queue waiting takes it. */
  lemma TakeHead(s: Sys, t: nat, id: Id, paused: bool)
    requires t < |s.threads| && s.threads[t].Dispatching?
    requires s.core.jobOrder != [] && s.core.jobOrder[0] == id && id in s.core.jobs
    requires s.core.jobs[id] == JobWith(id, Queued, paused)
    requires !s.core.closed && !s.core.legacyActive && s.core.runningJobs < s.core.maxJobs
    requires s.core.wakeLock == (s.core.runningJobs > 0)
    requires s.core.runningJobs >= 0
    ensures Step(s, Advance(t, true, OK)) ==
            s.(core := s.core.(jobs := s.core.jobs[id := JobWith(id, Running, paused)], runningJobs := s.core.runningJobs + 1, wakeLock := true),
               threads := s.threads[t := DispatchSaving(Rec(id, Running), "")])
  {
    assert FirstQueued(s.core, s.core.jobOrder) == 0;
  }

  lemma GiveUp(s: Sys, t: nat)
    requires t < |s.threads| && s.threads[t].Dispatching?
    requires s.core.legacyActive || s.core.runningJobs >= s.core.maxJobs
    ensures Step(s, Advance(t, true, OK)) == s.(threads := s.threads[t := Done])
  {
  }

  lemma SaveThen(s: Sys, t: nat)
    requires t < |s.threads| && (s.threads[t].EnqueueSaving? || s.threads[t].DispatchSaving?)
    ensures var s' := Step(s, Advance(t, true, OK));
            && s'.core == s.core && s'.issued == s.issued
            && s'.threads == s.threads[t := Dispatching] +
               (if s.threads[t].DispatchSaving? then [Starting(s.threads[t].record.id, s.threads[t].password)] else [])
  {
  }

  lemma {:induction false} RunConcat(s: Sys, before: seq<Event>, after: seq<Event>)
    ensures Run(s, before + after) == Run(Run(s, before), after)
  {
    if after == [] {
      assert before + after == before;
    } else {
      var n := |after| - 1;
      RunConcat(s, before, after[..n]);
      assert (before + after)[..|before + after| - 1] == before + after[..n];
    }
  }

  // ---- Two workers for one job ----

  function QueuedAgain(a: Id): seq<Event> {
    [Enqueue(a, 0, KeyAuth, ""), Cancel(a), Retry(a, "")]
  }

  function FirstSaveDispatches(): seq<Event> {
    [Advance(0, true, OK), Advance(0, true, OK)]
  }

  function DispatchedBeforeSave(a: Id): seq<Event> {
    QueuedAgain(a) + FirstSaveDispatches()
  }

  function SaveFailsThenRetry(a: Id): seq<Event> {
    [Advance(2, false, OK), Retry(a, "")]
  }

  /** A retry whose save fails after its job was dispatched lets a second worker
      take the same job. */
  lemma TwoWorkersAfterFailedRetrySave(a: Id)
    ensures !OneOwner(Run(Init(2), DispatchedBeforeSave(a) + SaveFailsThenRetry(a) + FirstSaveDispatches()))
  {
    var first, second := DispatchedBeforeSave(a), SaveFailsThenRetry(a);
    RetriedJobDispatched(a);
    RunConcat(Init(2), first, second);
    QueuedUnderItsWorker(Run(Init(2), first), a);
    RunConcat(Init(2), first + second, FirstSaveDispatches());
    SecondWorker(Run(Init(2), first + second), a);
  }

  lemma RetriedJobDispatched(a: Id)
    ensures var s := Run(Init(2), DispatchedBeforeSave(a));
            && s.core == CoreOf(2, map[a := JobIn(a, Running)], [a], 1)
            && s.threads == [DispatchSaving(Rec(a, Running), ""), Saving(Rec(a, Canceled)), RetrySaving(Rec(a, Queued), Rec(a, Canceled))]
  {
    JobQueuedAgain(a);
    RetryStillSaving(Run(Init(2), QueuedAgain(a)), a);
    RunConcat(Init(2), QueuedAgain(a), FirstSaveDispatches());
  }

  lemma JobQueuedAgain(a: Id)
    ensures var s := Run(Init(2), QueuedAgain(a));
            && s.core == CoreOf(2, map[a := JobIn(a, Queued)], [a], 0)
            && s.threads == [EnqueueSaving(Rec(a, Queued)), Saving(Rec(a, Canceled)), RetrySaving(Rec(a, Queued), Rec(a, Canceled))]
  {
    var s0 := Init(2);
    var s1 := Step(s0, Enqueue(a, 0, KeyAuth, ""));
    EnqueueStepOf(s0, a);
    var s2 := Step(s1, Cancel(a));
    CancelStepOf(s1, a);
    var s3 := Step(s2, Retry(a, ""));
    RetryStepOf(s2, a);
    StepsAreRun([s0, s1, s2, s3], QueuedAgain(a));
  }

  lemma RetryStillSaving(s3: Sys, a: Id)
    requires s3.core == CoreOf(2, map[a := JobIn(a, Queued)], [a], 0)
    requires s3.threads == [EnqueueSaving(Rec(a, Queued)), Saving(Rec(a, Canceled)), RetrySaving(Rec(a, Queued), Rec(a, Canceled))]
    ensures var s := Run(s3, FirstSaveDispatches());
            && s.core == CoreOf(2, map[a := JobIn(a, Running)], [a], 1)
            && s.threads == [DispatchSaving(Rec(a, Running), ""), Saving(Rec(a, Canceled)), RetrySaving(Rec(a, Queued), Rec(a, Canceled))]
  {
    var s4 := Step(s3, Advance(0, true, OK));
    SaveThen(s3, 0);
    var s5 := Step(s4, Advance(0, true, OK));
    TakeHead(s4, 0, a, false);
    StepsAreRun([s3, s4, s5], FirstSaveDispatches());
  }

  lemma QueuedUnderItsWorker(s5: Sys, a: Id)
    requires s5.core == CoreOf(2, map[a := JobIn(a, Running)], [a], 1)
    requires s5.threads == [DispatchSaving(Rec(a, Running), ""), Saving(Rec(a, Canceled)), RetrySaving(Rec(a, Queued), Rec(a, Canceled))]
    ensures var s := Run(s5, SaveFailsThenRetry(a));
            && s.core == CoreOf(2, map[a := JobIn(a, Queued)], [a], 1)
            && |s.threads| == 4 && s.threads[0] == s5.threads[0]
  {
    var s6 := Step(s5, Advance(2, false, OK));
    UndoneStepOf(s5, 2, a);
    assert s6.core == CoreOf(2, map[a := JobIn(a, Canceled)], [a], 1);
    var s7 := Step(s6, Retry(a, ""));
    RetryStepOf(s6, a);
    StepsAreRun([s5, s6, s7], SaveFailsThenRetry(a));
  }

  lemma SecondWorker(s7: Sys, a: Id)
    requires s7.core == CoreOf(2, map[a := JobIn(a, Queued)], [a], 1)
    requires |s7.threads| == 4 && s7.threads[0] == DispatchSaving(Rec(a, Running), "")
    ensures !OneOwner(Run(s7, FirstSaveDispatches()))
  {
    var s8 := Step(s7, Advance(0, true, OK));
    SaveThen(s7, 0);
    var s9 := Step(s8, Advance(0, true, OK));
    TakeHead(s8, 0, a, false);
    assert s9.threads[0] == DispatchSaving(Rec(a, Running), "") && s9.threads[4] == Starting(a, "");
    StepsAreRun([s7, s8, s9], FirstSaveDispatches());
  }

  // ---- Every rollback over an active job admits a second worker ----

  /** The save of a retry fails and the job is retried once more; then that save
      works, and its call runs the dispatch loop. */
  function UndoneAndRetried(t: nat, id: Id): seq<Event> {
    [Advance(t, false, OK), Retry(id, "password")]
  }

  function SavedAndDispatched(n: nat): seq<Event> {
    [Advance(n, true, OK), Advance(n, true, OK)]
  }

  /** In whatever state a retry's save fails over an active job, if a slot is
      free and nothing else is queued, the job can have two workers soon. */
  lemma UndoOverActiveAdmitsSecondWorker(s: Sys, t: nat)
    requires Inv(s) && ActiveJobsOwned(s) && t < |s.threads| && s.threads[t].RetrySaving?
    requires !RetryUndoSafe(s, Advance(t, false, OK))
    requires CanStart(s.core) && forall x :: !QueuedIn(s.core, x)
    ensures !OneOwner(Run(s, UndoneAndRetried(t, s.threads[t].record.id) + SavedAndDispatched(|s.threads|)))
  {
    var id := s.threads[t].record.id;
    var i :| 0 <= i < |s.threads| && Owns(s.threads[i], id);
    UndoneThenQueued(s, t, i);
    DispatchedBeside(Run(s, UndoneAndRetried(t, id)), |s.threads|, i, id);
    RunConcat(s, UndoneAndRetried(t, id), SavedAndDispatched(|s.threads|));
  }

  predicate CanStart(c: Core) {
    !c.closed && !c.legacyActive && c.runningJobs < c.maxJobs
  }

  /** The job waits again while thread `i` still works on it. */
  ghost predicate QueuedBeside(s: Sys, n: nat, i: nat, id: Id) {
    && Inv(s) && CanStart(s.core)
    && i < n < |s.threads| && Owns(s.threads[i], id) && s.threads[n].RetrySaving?
    && forall x :: QueuedIn(s.core, x) <==> x == id
  }

  /** The job is thought to have ended while thread `i` still works on it. */
  ghost predicate EndedBeside(s: Sys, i: nat, id: Id) {
    && Inv(s) && CanStart(s.core)
    && i < |s.threads| && Owns(s.threads[i], id)
    && id in s.core.jobs && Retryable(s.core.jobs[id].record.status)
    && forall x :: !QueuedIn(s.core, x)
  }

  lemma IdleAfterUndo(s: Sys, t: nat, i: nat)
    requires Inv(s) && t < |s.threads| && s.threads[t].RetrySaving? && ActiveIn(s.core, s.threads[t].record.id)
    requires i < |s.threads| && Owns(s.threads[i], s.threads[t].record.id)
    requires CanStart(s.core) && forall x :: !QueuedIn(s.core, x)
    ensures var s' := Step(s, Advance(t, false, OK));
            EndedBeside(s', i, s.threads[t].record.id) && |s'.threads| == |s.threads|
  {
    StepKeeps(s, Advance(t, false, OK));
    UndoneOverActive(s, t, OK);
  }

  lemma QueuedAfterRetry(s: Sys, i: nat, id: Id)
    requires EndedBeside(s, i, id)
    ensures QueuedBeside(Step(s, Retry(id, "password")), |s.threads|, i, id)
  {
    StepKeeps(s, Retry(id, "password"));
    RetriedUnderWorker(s, id);
    assert Step(s, Retry(id, "password")).threads[i] == s.threads[i];
  }

  lemma UndoneThenQueued(s: Sys, t: nat, i: nat)
    requires Inv(s) && t < |s.threads| && s.threads[t].RetrySaving? && ActiveIn(s.core, s.threads[t].record.id)
    requires i < |s.threads| && Owns(s.threads[i], s.threads[t].record.id)
    requires CanStart(s.core) && forall x :: !QueuedIn(s.core, x)
    ensures var id := s.threads[t].record.id; QueuedBeside(Run(s, UndoneAndRetried(t, id)), |s.threads|, i, id)
  {
    var id := s.threads[t].record.id;
    IdleAfterUndo(s, t, i);
    QueuedAfterRetry(Step(s, Advance(t, false, OK)), i, id);
    RunOfTwo(s, Advance(t, false, OK), Retry(id, "password"));
  }

  lemma DispatchedBeside(s: Sys, n: nat, i: nat, id: Id)
    requires QueuedBeside(s, n, i, id)
    ensures !OneOwner(Run(s, SavedAndDispatched(n)))
  {
    var s1 := Step(s, Advance(n, true, OK));
    StepKeeps(s, Advance(n, true, OK));
    RetrySavedStepOf(s, n, OK);
    SecondWorkerTaken(s1, n, i, id, OK);
    StepsAreRun([s, s1, Step(s1, Advance(n, true, OK))], SavedAndDispatched(n));
  }

  lemma UndoneOverActive(s: Sys, t: nat, end: RunEnd)
    requires Inv(s) && t < |s.threads| && s.threads[t].RetrySaving? && ActiveIn(s.core, s.threads[t].record.id)
    requires forall x :: !QueuedIn(s.core, x)
    ensures var s', id := Step(s, Advance(t, false, end)), s.threads[t].record.id;
            && s'.threads == s.threads[t := Done] && s'.core == s.core.(jobs := s'.core.jobs)
            && id in s'.core.jobs && Retryable(s'.core.jobs[id].record.status)
            && forall x :: !QueuedIn(s'.core, x)
  {
    assert Handed(s.core, s.threads[t]);
    forall x ensures !QueuedIn(Step(s, Advance(t, false, end)).core, x) {
      assert !QueuedIn(s.core, x);
    }
  }

  lemma RetriedUnderWorker(s: Sys, id: Id)
    requires Inv(s) && id in s.core.jobs && Retryable(s.core.jobs[id].record.status) && forall x :: !QueuedIn(s.core, x)
    ensures var s' := Step(s, Retry(id, "password"));
            && s'.core == s.core.(jobs := s'.core.jobs)
            && |s'.threads| == |s.threads| + 1 && s'.threads[..|s.threads|] == s.threads && s'.threads[|s.threads|].RetrySaving?
            && forall x :: QueuedIn(s'.core, x) <==> x == id
  {
    forall x ensures QueuedIn(Step(s, Retry(id, "password")).core, x) <==> x == id {
      assert !QueuedIn(s.core, x);
    }
  }

  lemma RetrySavedStepOf(s: Sys, t: nat, end: RunEnd)
    requires t < |s.threads| && s.threads[t].RetrySaving?
    ensures var s' := Step(s, Advance(t, true, end)); s'.core == s.core && s'.threads == s.threads[t := Dispatching]
  {
  }

  lemma SecondWorkerTaken(s: Sys, n: nat, i: nat, id: Id, end: RunEnd)
    requires Inv(s) && i < n < |s.threads| && s.threads[n].Dispatching? && Owns(s.threads[i], id)
    requires !s.core.closed && !s.core.legacyActive && s.core.runningJobs < s.core.maxJobs
    requires forall x :: QueuedIn(s.core, x) <==> x == id
    ensures !OneOwner(Step(s, Advance(n, true, end)))
  {
    OnlyQueuedIsTaken(s, n, id, end);
    assert Owns(Step(s, Advance(n, true, end)).threads[i], id);
  }

  lemma OnlyQueuedIsTaken(s: Sys, n: nat, id: Id, end: RunEnd)
    requires Inv(s) && n < |s.threads| && s.threads[n].Dispatching?
    requires !s.core.closed && !s.core.legacyActive && s.core.runningJobs < s.core.maxJobs
    requires forall x :: QueuedIn(s.core, x) <==> x == id
    ensures var s' := Step(s, Advance(n, true, end)); s'.threads == s.threads[n := s'.threads[n]] && Owns(s'.threads[n], id)
  {
    var i := FirstQueued(s.core, s.core.jobOrder);
    assert QueuedIn(s.core, id);
    if i == |s.core.jobOrder| {
      NoneQueued(s.core);
      assert false;
    }
    assert QueuedIn(s.core, s.core.jobOrder[i]);
  }

  // ---- A stranded job after a legacy transfer ----

  function LegacyRun(a: Id): seq<Event> {
    [BeginLegacy, Enqueue(a, 0, KeyAuth, ""), Advance(0, true, OK), Advance(0, true, OK), EndLegacy]
  }

  /** Ending a legacy transfer does not dispatch: the job queued meanwhile is stranded. */
  lemma LegacyEndStrands(a: Id)
    ensures !NoStranded(Run(Init(2), LegacyRun(a)))
  {
    var s0 := Init(2);
    var s1 := Step(s0, BeginLegacy);
    var s2 := Step(s1, Enqueue(a, 0, KeyAuth, ""));
    EnqueueStepOf(s1, a);
    var s3 := Step(s2, Advance(0, true, OK));
    SaveThen(s2, 0);
    var s4 := Step(s3, Advance(0, true, OK));
    GiveUp(s3, 0);
    var s5 := Step(s4, EndLegacy);
    assert QueuedIn(s5.core, a) && s5.threads == [Done];
    StepsAreRun([s0, s1, s2, s3, s4, s5], LegacyRun(a));
  }

  // ---- An orphaned worker ----

  function TwoEnqueued(a: Id, b: Id): seq<Event> {
    [Enqueue(a, 0, KeyAuth, ""), Enqueue(b, 0, KeyAuth, "")]
  }

  function SecondSaveDispatches(): seq<Event> {
    [Advance(1, true, OK), Advance(1, true, OK)]
  }

  function FirstJobTaken(a: Id, b: Id): seq<Event> {
    TwoEnqueued(a, b) + SecondSaveDispatches()
  }

  function FirstSaveFails(): seq<Event> {
    [Advance(1, true, OK), Advance(1, true, OK), Advance(0, false, OK), Advance(2, true, OK)]
  }

  /** An enqueue whose save fails after its job was dispatched orphans the
      worker, which gives its slot back without dispatching and without
      releasing the wake lock. */
  lemma OrphanStrandsAndLeaksWakeLock(a: Id, b: Id)
    requires a != b
    ensures var s := Run(Init(1), FirstJobTaken(a, b) + FirstSaveFails());
            !NoStranded(s) && s.core.wakeLock && s.core.runningJobs == 0
  {
    TwoQueuedOneTaken(a, b);
    WorkerOrphaned(Run(Init(1), FirstJobTaken(a, b)), a, b);
    RunConcat(Init(1), FirstJobTaken(a, b), FirstSaveFails());
  }

  lemma TwoQueuedOneTaken(a: Id, b: Id)
    requires a != b
    ensures var s := Run(Init(1), FirstJobTaken(a, b));
            && s.core == CoreOf(1, map[a := JobIn(a, Running), b := JobIn(b, Queued)], [a, b], 1)
            && s.threads == [EnqueueSaving(Rec(a, Queued)), DispatchSaving(Rec(a, Running), "")]
  {
    TwoQueued(a, b);
    OneTaken(Run(Init(1), TwoEnqueued(a, b)), a, b);
    RunConcat(Init(1), TwoEnqueued(a, b), SecondSaveDispatches());
  }

  lemma TwoQueued(a: Id, b: Id)
    requires a != b
    ensures var s := Run(Init(1), TwoEnqueued(a, b));
            && s.core == CoreOf(1, map[a := JobIn(a, Queued), b := JobIn(b, Queued)], [a, b], 0)
            && s.threads == [EnqueueSaving(Rec(a, Queued)), EnqueueSaving(Rec(b, Queued))]
  {
    var s0 := Init(1);
    var s1 := Step(s0, Enqueue(a, 0, KeyAuth, ""));
    EnqueueStepOf(s0, a);
    var s2 := Step(s1, Enqueue(b, 0, KeyAuth, ""));
    EnqueueStepOf(s1, b);
    StepsAreRun([s0, s1, s2], TwoEnqueued(a, b));
  }

  lemma OneTaken(s2: Sys, a: Id, b: Id)
    requires a != b
    requires s2.core == CoreOf(1, map[a := JobIn(a, Queued), b := JobIn(b, Queued)], [a, b], 0)
    requires s2.threads == [EnqueueSaving(Rec(a, Queued)), EnqueueSaving(Rec(b, Queued))]
    ensures var s := Run(s2, SecondSaveDispatches());
            && s.core == CoreOf(1, map[a := JobIn(a, Running), b := JobIn(b, Queued)], [a, b], 1)
            && s.threads == [EnqueueSaving(Rec(a, Queued)), DispatchSaving(Rec(a, Running), "")]
  {
    var s3 := Step(s2, Advance(1, true, OK));
    SaveThen(s2, 1);
    var s4 := Step(s3, Advance(1, true, OK));
    TakeHead(s3, 1, a, false);
    StepsAreRun([s2, s3, s4], SecondSaveDispatches());
  }

  lemma DroppedStepOf(s: Sys, t: nat, id: Id)
    requires t < |s.threads| && s.threads[t] == EnqueueSaving(Rec(id, Queued))
    ensures var s' := Step(s, Advance(t, false, OK));
            && s'.core == s.core.(jobs := s.core.jobs - {id}, jobOrder := s'.core.jobOrder)
            && s'.threads == s.threads[t := Done]
  {
  }

  lemma LostStepOf(s: Sys, t: nat, id: Id)
    requires t < |s.threads| && s.threads[t] == Starting(id, "") && id !in s.core.jobs
    ensures Step(s, Advance(t, true, OK)) == s.(core := WorkerLost(s.core), threads := s.threads[t := Done])
  {
  }

  lemma WorkerOrphaned(s4: Sys, a: Id, b: Id)
    requires a != b
    requires s4.core == CoreOf(1, map[a := JobIn(a, Running), b := JobIn(b, Queued)], [a, b], 1)
    requires s4.threads == [EnqueueSaving(Rec(a, Queued)), DispatchSaving(Rec(a, Running), "")]
    ensures var s := Run(s4, FirstSaveFails());
            !NoStranded(s) && s.core.wakeLock && s.core.runningJobs == 0
  {
    var s5 := Step(s4, Advance(1, true, OK));
    SaveThen(s4, 1);
    var s6 := Step(s5, Advance(1, true, OK));
    GiveUp(s5, 1);
    var s7 := Step(s6, Advance(0, false, OK));
    DroppedStepOf(s6, 0, a);
    var s8 := Step(s7, Advance(2, true, OK));
    LostStepOf(s7, 2, a);
    assert s8.threads == [Done, Done, Done] && QueuedIn(s8.core, b);
    StepsAreRun([s4, s5, s6, s7, s8], FirstSaveFails());
  }

  // ---- What a finished run leaves behind ----

  lemma StartStepOf(s: Sys, t: nat, id: Id)
    requires t < |s.threads| && s.threads[t] == Starting(id, "") && id in s.core.jobs
    ensures Step(s, Advance(t, true, OK)) == s.(threads := s.threads[t := Executing(id)])
  {
  }

  lemma EndStepOf(s: Sys, t: nat, id: Id, end: RunEnd)
    requires t < |s.threads| && s.threads[t] == Executing(id) && id in s.core.jobs && s.core.runningJobs == 1
    ensures var s', j := Step(s, Advance(t, true, end)), FinishJob(s.core.jobs[id], end);
            && s'.core == s.core.(jobs := s.core.jobs[id := j], runningJobs := 0, wakeLock := false)
            && s'.threads == s.threads[t := FinishSaving(j.record)]
  {
  }

  function Started(a: Id): seq<Event> {
    Launched(a) + [Advance(0, true, OK), Advance(1, true, OK)]
  }

  function Launched(a: Id): seq<Event> {
    [Enqueue(a, 0, KeyAuth, ""), Advance(0, true, OK), Advance(0, true, OK)]
  }

  lemma JobLaunched(a: Id)
    ensures var s := Run(Init(1), Launched(a));
            && s.core == CoreOf(1, map[a := JobWith(a, Running, false)], [a], 1)
            && s.threads == [DispatchSaving(Rec(a, Running), "")]
  {
    var s0 := Init(1);
    var s1 := Step(s0, Enqueue(a, 0, KeyAuth, ""));
    EnqueueStepOf(s0, a);
    var s2 := Step(s1, Advance(0, true, OK));
    SaveThen(s1, 0);
    var s3 := Step(s2, Advance(0, true, OK));
    TakeHead(s2, 0, a, false);
    StepsAreRun([s0, s1, s2, s3], Launched(a));
  }

  lemma JobStarted(a: Id)
    ensures var s := Run(Init(1), Started(a));
            && s.core == CoreOf(1, map[a := JobWith(a, Running, false)], [a], 1)
            && s.threads == [Dispatching, Executing(a)]
  {
    var s3 := Run(Init(1), Launched(a));
    JobLaunched(a);
    var s4 := Step(s3, Advance(0, true, OK));
    SaveThen(s3, 0);
    var s5 := Step(s4, Advance(1, true, OK));
    StartStepOf(s4, 1, a);
    StepsAreRun([s3, s4, s5], [Advance(0, true, OK), Advance(1, true, OK)]);
    RunConcat(Init(1), Launched(a), [Advance(0, true, OK), Advance(1, true, OK)]);
  }

  // ---- Status Verified without the verdict ----

  function EndsUnverified(): seq<Event> {
    [Advance(1, true, Succeeded(false)), Advance(1, true, OK)]
  }

  /** A run that skips its file returns no error and no verdict: its job is
      stored with status Verified all the same. */
  lemma StoredVerifiedWithoutVerdict(a: Id)
    ensures var s := Run(Init(1), Started(a) + EndsUnverified());
            exists r :: r in s.store && r.id == a && r.status.Verified? && !r.verified
  {
    var s5 := Run(Init(1), Started(a));
    JobStarted(a);
    EveryRunKeeps(1, Started(a));
    RunConcat(Init(1), Started(a), EndsUnverified());
    SavedUnverified(s5, a);
  }

  lemma SavedUnverified(s5: Sys, a: Id)
    requires Inv(s5) && s5.core == CoreOf(1, map[a := JobWith(a, Running, false)], [a], 1) && s5.threads == [Dispatching, Executing(a)]
    ensures Rec(a, Verified) in Run(s5, EndsUnverified()).store && !Rec(a, Verified).verified
  {
    var s6 := Step(s5, Advance(1, true, Succeeded(false)));
    EndStepOf(s5, 1, a, Succeeded(false));
    StepKeeps(s5, Advance(1, true, Succeeded(false)));
    var s7 := Step(s6, Advance(1, true, OK));
    FinishSavedStepOf(s6, 1, Rec(a, Verified));
    StepsAreRun([s5, s6, s7], EndsUnverified());
  }

  lemma FinishSavedStepOf(s: Sys, t: nat, r: Record)
    requires UniqueIds(s.store) && t < |s.threads| && s.threads[t] == FinishSaving(r)
    ensures r in Step(s, Advance(t, true, OK)).store
  {
    UpsertFacts(s.store, r);
  }

  // ---- A pause left over from an earlier run ----

  function PausedThenRetried(a: Id): seq<Event> {
    [Pause(a), Advance(1, true, Errored(true, false)), Retry(a, "")]
  }

  function RetriedStarts(): seq<Event> {
    [Advance(0, true, OK), Advance(0, true, OK), Advance(3, true, OK)]
  }

  function RetriedFails(): seq<Event> {
    RetriedStarts() + [Advance(3, true, Errored(false, false))]
  }

  /** Pause a run, retry its job, and let that run fail by itself: nobody asked
      for a pause, and the job ends paused. */
  lemma RetriedJobFailsAsPaused(a: Id)
    ensures var s := Run(Init(1), Started(a) + PausedThenRetried(a) + RetriedFails());
            a in s.core.jobs && s.core.jobs[a].record.status.Paused?
    ensures Requests(a, RetriedFails()) == []
  {
    var s5 := Run(Init(1), Started(a));
    JobStarted(a);
    PauseOutlivesItsRun(s5, a);
    var s8 := Run(s5, PausedThenRetried(a));
    RetriedJobStarts(s8, a);
    var s11 := Run(s8, RetriedStarts());
    EndStepOf(s11, 3, a, Errored(false, false));
    var last := [Advance(3, true, Errored(false, false))];
    StepsAreRun([s11, Step(s11, last[0])], last);
    RunConcat(s8, RetriedStarts(), last);
    RunConcat(Init(1), Started(a), PausedThenRetried(a));
    RunConcat(Init(1), Started(a) + PausedThenRetried(a), RetriedFails());
    NobodyAsked(a);
  }

  lemma NobodyAsked(a: Id)
    ensures Requests(a, RetriedFails()) == []
  {
    var e := RetriedFails();
    AdvancesAskNothing(a, e);
  }

  lemma {:induction false} AdvancesAskNothing(a: Id, events: seq<Event>)
    requires forall i :: 0 <= i < |events| ==> events[i].Advance?
    ensures Requests(a, events) == []
  {
    if events != [] { AdvancesAskNothing(a, events[..|events| - 1]); }
  }

  lemma PauseOutlivesItsRun(s5: Sys, a: Id)
    requires s5.core == CoreOf(1, map[a := JobWith(a, Running, false)], [a], 1) && s5.threads == [Dispatching, Executing(a)]
    ensures var s := Run(s5, PausedThenRetried(a));
            && s.core == CoreOf(1, map[a := JobWith(a, Queued, true)], [a], 0)
            && s.threads == [Dispatching, FinishSaving(Rec(a, Paused)), RetrySaving(Rec(a, Queued), Rec(a, Paused))]
  {
    var s6 := Step(s5, Pause(a));
    assert s6 == s5.(core := CoreOf(1, map[a := JobWith(a, Pausing, true)], [a], 1));
    var s7 := Step(s6, Advance(1, true, Errored(true, false)));
    EndStepOf(s6, 1, a, Errored(true, false));
    var s8 := Step(s7, Retry(a, ""));
    assert s7.core == CoreOf(1, map[a := JobWith(a, Paused, true)], [a], 0);
    StepsAreRun([s5, s6, s7, s8], PausedThenRetried(a));
  }

  lemma RetriedJobStarts(s8: Sys, a: Id)
    requires s8.core == CoreOf(1, map[a := JobWith(a, Queued, true)], [a], 0)
    requires |s8.threads| == 3 && s8.threads[0].Dispatching?
    ensures var s := Run(s8, RetriedStarts());
            && s.core == CoreOf(1, map[a := JobWith(a, Running, true)], [a], 1)
            && |s.threads| == 4 && s.threads[3] == Executing(a)
  {
    var s9 := Step(s8, Advance(0, true, OK));
    TakeHead(s8, 0, a, true);
    var s10 := Step(s9, Advance(0, true, OK));
    SaveThen(s9, 0);
    var s11 := Step(s10, Advance(3, true, OK));
    StartStepOf(s10, 3, a);
    StepsAreRun([s8, s9, s10, s11], RetriedStarts());
  }
}

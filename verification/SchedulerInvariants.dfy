/** Every step keeps the scheduler's invariant. */
module SchedulerInvariants {
  import opened JobRecords
  import opened SchedulerCore
  import opened SchedulerRuns

  /** What a region may do to a single job. */
  ghost predicate JobFits(s: Sys, id: Id, j: Job) {
    && j.record.id == id && RecordEarned(s, j.record)
    && (j.password != "" ==> j.record.status.Queued?)
    && (!s.core.closed && j.record.status.Queued? && j.record.auth.PasswordAuth? ==> j.password != "")
    && !(j.cancelRequested && j.pauseRequested)
    && (j.record.status.Cancelling? ==> j.cancelRequested)
    && (j.record.status.Pausing? ==> j.pauseRequested)
  }

  function WithJob(s: Sys, id: Id, j: Job): Sys {
    s.(core := s.core.(jobs := s.core.jobs[id := j]))
  }

  lemma JobReplaced(s: Sys, id: Id, j: Job)
    requires Inv(s) && id in s.core.jobs && JobFits(s, id, j) && j.record.auth == s.core.jobs[id].record.auth
    ensures Inv(WithJob(s, id, j))
  {
    var s' := WithJob(s, id, j);
    assert EarnedInv(s') by {
      forall t | 0 <= t < |s.threads| ensures ThreadEarned(s', s'.threads[t]) {
        assert ThreadEarned(s, s.threads[t]);
      }
    }
    forall t | 0 <= t < |s.threads| ensures Handed(s'.core, s'.threads[t]) {
      assert Handed(s.core, s.threads[t]) && ThreadEarned(s, s.threads[t]);
    }
  }

  /** A call that only has a store operation ahead of it. */
  ghost predicate FreshCall(s: Sys, t: Thread) {
    && (t.Saving? || t.Deleting? || t.EnqueueSaving? || t.RetrySaving?)
    && ThreadEarned(s, t)
    && (t.RetrySaving? ==> Retryable(t.previous.status) && SameAuth(s.core, t.previous))
  }

  lemma SpawnKeeps(s: Sys, t: Thread)
    requires Inv(s) && FreshCall(s, t)
    ensures Inv(Spawn(s, t))
  {
    CountAppend(s.threads, t);
  }

  function WithNewJob(s: Sys, id: Id, j: Job): Sys {
    s.(core := s.core.(jobs := s.core.jobs[id := j], jobOrder := s.core.jobOrder + [id]), issued := s.issued + {id})
  }

  lemma JobAdded(s: Sys, id: Id, j: Job)
    requires Inv(s) && id !in s.issued && j.record.status.Queued? && JobFits(WithNewJob(s, id, j), id, j)
    ensures Inv(WithNewJob(s, id, j))
  {
    var s' := WithNewJob(s, id, j);
    assert id in s.core.jobs ==> RecordEarned(s, s.core.jobs[id].record);
    assert OrderInv(s'.core) && SlotInv(s') && StopInv(s'.core);
    assert EarnedInv(s') by {
      forall t | 0 <= t < |s.threads| ensures ThreadEarned(s', s'.threads[t]) {
        assert ThreadEarned(s, s.threads[t]);
      }
    }
    forall t | 0 <= t < |s.threads| ensures Handed(s'.core, s'.threads[t]) {
      assert Handed(s.core, s.threads[t]) && ThreadEarned(s, s.threads[t]);
    }
  }

  lemma EnqueueKeeps(s: Sys, id: Id, created: int, auth: Auth, password: string)
    requires Inv(s)
    ensures Inv(Step(s, Enqueue(id, created, auth, password)))
  {
    var enqueued := Enqueued(s.core, id, created, auth, password);
    if enqueued.Some? && id !in s.issued {
      var j := enqueued.value.jobs[id];
      JobAdded(s, id, j);
      SpawnKeeps(WithNewJob(s, id, j), EnqueueSaving(j.record));
    }
  }

  lemma RetryKeeps(s: Sys, id: Id, password: string)
    requires Inv(s)
    ensures Inv(Step(s, Retry(id, password)))
  {
    var retried := Retried(s.core, id, password);
    if retried.Some? {
      var j := retried.value.jobs[id];
      var previous := s.core.jobs[id].record;
      JobReplaced(s, id, j);
      SpawnKeeps(WithJob(s, id, j), RetrySaving(j.record, previous));
    }
  }

  lemma StopKeeps(s: Sys, id: Id, j: Job, reply: StopReply)
    requires Inv(s) && id in s.core.jobs
    requires (j, reply) == CancelJob(s.core.jobs[id]) || (j, reply) == PauseJob(s.core.jobs[id])
    ensures Inv(Stop(s, (s.core.(jobs := s.core.jobs[id := j]), reply)))
  {
    JobReplaced(s, id, j);
    if reply.StoppedBeforeStart? {
      SpawnKeeps(WithJob(s, id, j), Saving(reply.record));
    }
  }

  lemma CancelKeeps(s: Sys, id: Id)
    requires Inv(s)
    ensures Inv(Step(s, Cancel(id)))
  {
    if id in s.core.jobs {
      var (j, reply) := CancelJob(s.core.jobs[id]);
      StopKeeps(s, id, j, reply);
    }
  }

  lemma PauseKeeps(s: Sys, id: Id)
    requires Inv(s)
    ensures Inv(Step(s, Pause(id)))
  {
    if id in s.core.jobs {
      var (j, reply) := PauseJob(s.core.jobs[id]);
      StopKeeps(s, id, j, reply);
    }
  }

  lemma JobDropped(s: Sys, id: Id)
    requires Inv(s)
    ensures Inv(s.(core := Dropped(s.core, id)))
  {
    WithoutFacts(s.core, id);
    var s' := s.(core := Dropped(s.core, id));
    assert EarnedInv(s') by {
      forall t | 0 <= t < |s.threads| ensures ThreadEarned(s', s'.threads[t]) {
        assert ThreadEarned(s, s.threads[t]);
      }
    }
    forall t | 0 <= t < |s.threads| ensures Handed(s'.core, s'.threads[t]) {
      assert Handed(s.core, s.threads[t]) && ThreadEarned(s, s.threads[t]);
    }
  }

  lemma RemoveKeeps(s: Sys, id: Id)
    requires Inv(s)
    ensures Inv(Step(s, Remove(id)))
  {
    if Removed(s.core, id).Some? {
      JobDropped(s, id);
      SpawnKeeps(s.(core := Dropped(s.core, id)), Deleting(id));
    }
  }

  lemma LegacyKeeps(s: Sys, e: Event)
    requires Inv(s) && (e.BeginLegacy? || e.EndLegacy?)
    ensures Inv(Step(s, e))
  {
    CarryOver(s, Step(s, e));
  }

  lemma CloseKeeps(s: Sys)
    requires Inv(s)
    ensures Inv(Step(s, Close))
  {
    CarryOver(s, Step(s, Close));
  }

  /** Threads and history stand, and every job keeps its record. */
  lemma CarryOver(s: Sys, s': Sys)
    requires EarnedInv(s) && PasswordInv(s)
    requires s' == s.(core := s'.core) && s'.core.jobs.Keys == s.core.jobs.Keys
    requires forall id :: id in s.core.jobs ==> s'.core.jobs[id].record == s.core.jobs[id].record
    ensures EarnedInv(s') && forall t :: 0 <= t < |s'.threads| ==> Handed(s'.core, s'.threads[t])
  {
    forall t | 0 <= t < |s.threads| ensures ThreadEarned(s', s.threads[t]) && Handed(s'.core, s.threads[t]) {
      assert ThreadEarned(s, s.threads[t]) && Handed(s.core, s.threads[t]);
    }
  }

  lemma RestartKeeps(s: Sys, readable: bool, saved: seq<bool>)
    requires Inv(s)
    ensures Inv(Step(s, Restart(readable, saved)))
  {
    var listed := if readable then ByCreation(s.store) else [];
    ByCreationFacts(s.store);
    RestartJobs(s, listed);
    RestartEarned(s, listed, saved);
    RestartedInv(s, listed, saved);
  }

  /** A restarted system that looks at the listed records. */
  function RestartedWith(s: Sys, listed: seq<Record>, saved: seq<bool>): Sys {
    s.(core := Restored(s.core.maxJobs, listed), store := RestoredStore(s.store, listed, saved), threads := [])
  }

  lemma RestartedInv(s: Sys, listed: seq<Record>, saved: seq<bool>)
    requires UniqueIds(listed)
    requires var c := Restored(s.core.maxJobs, listed);
             forall id :: id in c.jobs ==> RestoredJobFits(s, c.jobs[id])
    requires var store := RestoredStore(s.store, listed, saved);
             UniqueIds(store) && forall r :: r in store ==> RecordEarned(s, r)
    ensures Inv(RestartedWith(s, listed, saved))
  {
    RestoredOrder(s.core.maxJobs, listed);
    RestoredFacts(s.core.maxJobs, listed);
    var s' := RestartedWith(s, listed, saved);
    assert SlotInv(s') by { assert CountWorkers([]) == 0; }
    assert CorePasswords(s'.core) by {
      forall id | id in s'.core.jobs ensures s'.core.jobs[id].password == "" && !s'.core.jobs[id].record.status.Queued? {
        assert RestoredJobFits(s, s'.core.jobs[id]);
      }
    }
    assert EarnedInv(s') by {
      forall id | id in s'.core.jobs ensures RecordEarned(s', s'.core.jobs[id].record) {
        assert RestoredJobFits(s, s'.core.jobs[id]);
      }
    }
  }

  lemma RestartJobs(s: Sys, listed: seq<Record>)
    requires EarnedInv(s) && UniqueIds(listed) && forall r :: r in listed ==> r in s.store
    ensures var c := Restored(s.core.maxJobs, listed);
            forall id :: id in c.jobs ==> RestoredJobFits(s, c.jobs[id])
  {
    RestoredFacts(s.core.maxJobs, listed);
    var c := Restored(s.core.maxJobs, listed);
    forall id | id in c.jobs ensures RestoredJobFits(s, c.jobs[id]) {
      assert CameBack(c, listed, id);
      var r :| r in listed && r.id == id && c.jobs[id].record == RestoredRecord(r);
      assert RecordEarned(s, r);
    }
  }

  ghost predicate RestoredJobFits(s: Sys, j: Job) {
    j.password == "" && !j.record.status.Queued? && RecordEarned(s, j.record)
  }

  lemma RestartEarned(s: Sys, listed: seq<Record>, saved: seq<bool>)
    requires EarnedInv(s) && forall r :: r in listed ==> r in s.store
    ensures var store := RestoredStore(s.store, listed, saved);
            UniqueIds(store) && forall r :: r in store ==> RecordEarned(s, r)
  {
    RestoredStoreFacts(s.store, listed, saved);
    forall r | r in RestoredStore(s.store, listed, saved) ensures RecordEarned(s, r) {
      if r !in s.store {
        var q :| q in listed && r == RestoredRecord(q);
        assert RecordEarned(s, q);
      }
    }
  }

  lemma StoredKeeps(s: Sys, ok: bool, r: Record)
    requires Inv(s) && RecordEarned(s, r)
    ensures Inv(Stored(s, ok, r))
  {
    UpsertFacts(s.store, r);
  }

  /** The job a dispatch loop takes, and what it hands to the worker. */
  lemma TakenFits(s: Sys)
    requires Inv(s) && DispatchOne(s.core).1.Some?
    ensures var (c, taken) := DispatchOne(s.core);
            var Dispatched(r, password) := taken.value;
            && !s.core.legacyActive && s.core.runningJobs < s.core.maxJobs
            && r.id in s.core.jobs && r.id in c.jobs && r == c.jobs[r.id].record && r.auth == s.core.jobs[r.id].record.auth
            && JobFits(s, r.id, c.jobs[r.id]) && (r.auth.PasswordAuth? ==> password != "")
            && c == s.core.(jobs := s.core.jobs[r.id := c.jobs[r.id]], runningJobs := s.core.runningJobs + 1,
                            wakeLock := s.core.wakeLock || s.core.runningJobs + 1 == 1)
  {
    var i := FirstQueued(s.core, s.core.jobOrder);
    var id := s.core.jobOrder[i];
    assert s.core.jobs[id].record.id == id && RecordEarned(s, s.core.jobs[id].record);
  }

  lemma DispatchKeeps(s: Sys, t: nat, ok: bool, end: RunEnd)
    requires Inv(s) && t < |s.threads| && s.threads[t].Dispatching?
    ensures Inv(Progress(s, t, ok, end))
  {
    var (c, taken) := DispatchOne(s.core);
    if taken.None? {
      ThreadReplaced(s, t, Done);
    } else {
      var Dispatched(r, password) := taken.value;
      TakenFits(s);
      JobReplaced(s, r.id, c.jobs[r.id]);
      SlotTaken(WithJob(s, r.id, c.jobs[r.id]), t, DispatchSaving(r, password));
      DispatchTakes(s, t, ok, end);
    }
  }

  /** A dispatch that takes a job in two parts: the job, the slot. */
  lemma DispatchTakes(s: Sys, t: nat, ok: bool, end: RunEnd)
    requires Inv(s) && t < |s.threads| && s.threads[t].Dispatching? && DispatchOne(s.core).1.Some?
    ensures var (c, taken) := DispatchOne(s.core);
            var Dispatched(r, password) := taken.value;
            r.id in c.jobs && Progress(s, t, ok, end) == WithSlot(WithJob(s, r.id, c.jobs[r.id]), t, DispatchSaving(r, password))
  {
    TakenFits(s);
  }

  function WithSlot(s: Sys, t: nat, next: Thread): Sys
    requires t < |s.threads|
  {
    s.(core := s.core.(runningJobs := s.core.runningJobs + 1, wakeLock := s.core.wakeLock || s.core.runningJobs + 1 == 1),
       threads := s.threads[t := next])
  }

  lemma SlotTaken(s: Sys, t: nat, next: Thread)
    requires Inv(s) && t < |s.threads| && !IsWorker(s.threads[t]) && IsWorker(next)
    requires ThreadEarned(s, next) && Handed(s.core, next)
    requires !s.core.legacyActive && s.core.runningJobs < s.core.maxJobs
    ensures Inv(WithSlot(s, t, next))
  {
    CountUpdate(s.threads, t, next);
    var s' := WithSlot(s, t, next);
    ThreadsCarryOver(s, s', t, next);
  }

  /** Nothing that threads rely on has changed but the one thread. */
  lemma ThreadsCarryOver(s: Sys, s': Sys, t: nat, next: Thread)
    requires t < |s.threads| && s'.threads == s.threads[t := next]
    requires s'.issued == s.issued && s'.succeeded == s.succeeded && s'.vouched == s.vouched && s'.core.jobs == s.core.jobs
    requires forall i :: 0 <= i < |s.threads| ==> ThreadEarned(s, s.threads[i]) && Handed(s.core, s.threads[i])
    requires ThreadEarned(s, next) && Handed(s.core, next)
    ensures forall i :: 0 <= i < |s'.threads| ==> ThreadEarned(s', s'.threads[i]) && Handed(s'.core, s'.threads[i])
  {
    forall i | 0 <= i < |s'.threads| ensures ThreadEarned(s', s'.threads[i]) && Handed(s'.core, s'.threads[i]) {
      if i != t { assert s'.threads[i] == s.threads[i]; }
    }
  }

  lemma ThreadReplaced(s: Sys, t: nat, next: Thread)
    requires Inv(s) && t < |s.threads| && IsWorker(s.threads[t]) == IsWorker(next)
    requires ThreadEarned(s, next) && Handed(s.core, next)
    ensures Inv(s.(threads := s.threads[t := next]))
  {
    CountUpdate(s.threads, t, next);
    ThreadsCarryOver(s, s.(threads := s.threads[t := next]), t, next);
  }

  lemma TakenKeeps(s: Sys, t: nat, ok: bool, end: RunEnd)
    requires Inv(s) && t < |s.threads| && s.threads[t].DispatchSaving?
    ensures Inv(Progress(s, t, ok, end))
  {
    var DispatchSaving(r, password) := s.threads[t];
    StoredKeeps(s, ok, r);
    var mid := Stored(s, ok, r);
    CountUpdate(mid.threads, t, Dispatching);
    CountAppend(mid.threads[t := Dispatching], Starting(r.id, password));
  }

  lemma StartingKeeps(s: Sys, t: nat, ok: bool, end: RunEnd)
    requires Inv(s) && t < |s.threads| && s.threads[t].Starting?
    ensures Inv(Progress(s, t, ok, end))
  {
    var id := s.threads[t].id;
    assert ThreadEarned(s, s.threads[t]);
    if id in s.core.jobs {
      ThreadReplaced(s, t, Executing(id));
    } else {
      CountUpdate(s.threads, t, Done);
      ThreadsCarryOver(s, Progress(s, t, ok, end), t, Done);
    }
  }

  lemma ExecutingKeeps(s: Sys, t: nat, ok: bool, end: RunEnd)
    requires Inv(s) && t < |s.threads| && s.threads[t].Executing?
    ensures Inv(Progress(s, t, ok, end))
  {
    var id := s.threads[t].id;
    assert ThreadEarned(s, s.threads[t]);
    ExecutingEnds(s, t, ok, end);
    CreditKeeps(s, Credited(s, id, end));
    if id in s.core.jobs {
      FinishedFits(s, Credited(s, id, end), id, end);
      FinishKeeps(Credited(s, id, end), t, FinishJob(s.core.jobs[id], end));
    } else {
      SlotBackKeeps(Credited(s, id, end), t, Dispatching);
    }
  }

  /** The end of a run in three parts: the history, the job, the slot. */
  lemma ExecutingEnds(s: Sys, t: nat, ok: bool, end: RunEnd)
    requires t < |s.threads| && s.threads[t].Executing?
    ensures var id := s.threads[t].id;
            Progress(s, t, ok, end) ==
            if id in s.core.jobs then JobFinished(Credited(s, id, end), t, FinishJob(s.core.jobs[id], end))
            else SlotBack(Credited(s, id, end), t, Dispatching)
  {
  }

  function JobFinished(s: Sys, t: nat, j: Job): Sys
    requires t < |s.threads| && s.threads[t].Executing?
  {
    SlotBack(WithJob(s, s.threads[t].id, j), t, FinishSaving(j.record))
  }

  lemma FinishKeeps(s: Sys, t: nat, j: Job)
    requires Inv(s) && t < |s.threads| && s.threads[t].Executing?
    requires var id := s.threads[t].id; id in s.core.jobs && JobFits(s, id, j) && j.record.auth == s.core.jobs[id].record.auth
    ensures Inv(JobFinished(s, t, j))
  {
    JobReplaced(s, s.threads[t].id, j);
    SlotBackKeeps(WithJob(s, s.threads[t].id, j), t, FinishSaving(j.record));
  }

  function Credited(s: Sys, id: Id, end: RunEnd): Sys {
    s.(succeeded := if end.Succeeded? then s.succeeded + {id} else s.succeeded,
       vouched := if end.verified then s.vouched + {id} else s.vouched)
  }

  function SlotBack(s: Sys, t: nat, next: Thread): Sys
    requires t < |s.threads|
  {
    s.(core := SlotReleased(s.core), threads := s.threads[t := next])
  }

  lemma FinishedFits(s: Sys, credited: Sys, id: Id, end: RunEnd)
    requires Inv(s) && id in s.core.jobs && credited.issued == s.issued && credited.core == s.core
    requires end.Succeeded? ==> id in credited.succeeded
    requires end.verified ==> id in credited.vouched
    ensures JobFits(credited, id, FinishJob(s.core.jobs[id], end))
  {
    assert RecordEarned(s, s.core.jobs[id].record);
  }

  lemma CreditKeeps(s: Sys, s': Sys)
    requires Inv(s) && s.succeeded <= s'.succeeded && s.vouched <= s'.vouched
    requires s' == s.(succeeded := s'.succeeded, vouched := s'.vouched)
    ensures Inv(s')
  {
    forall t | 0 <= t < |s.threads| ensures ThreadEarned(s', s'.threads[t]) {
      assert ThreadEarned(s, s.threads[t]);
    }
    forall t | 0 <= t < |s.threads| ensures Handed(s'.core, s'.threads[t]) {
      assert Handed(s.core, s.threads[t]) && ThreadEarned(s, s.threads[t]);
    }
  }

  lemma SlotBackKeeps(s: Sys, t: nat, next: Thread)
    requires Inv(s) && t < |s.threads| && s.threads[t].Executing?
    requires next.Dispatching? || (next.FinishSaving? && RecordEarned(s, next.record))
    ensures Inv(SlotBack(s, t, next))
  {
    CountUpdate(s.threads, t, next);
    ThreadsCarryOver(s, SlotBack(s, t, next), t, next);
  }

  /** A call whose save worked: what is left of it changes nothing locked. */
  lemma SavedKeeps(s: Sys, t: nat, ok: bool, r: Record, next: Thread)
    requires Inv(s) && t < |s.threads| && !IsWorker(s.threads[t])
    requires RecordEarned(s, r) && (next.Dispatching? || next.Done?)
    ensures Inv(Stored(s, ok, r).(threads := s.threads[t := next]))
  {
    StoredKeeps(s, ok, r);
    CountUpdate(s.threads, t, next);
  }

  lemma EnqueueSavingKeeps(s: Sys, t: nat, ok: bool, end: RunEnd)
    requires Inv(s) && t < |s.threads| && s.threads[t].EnqueueSaving?
    ensures Inv(Progress(s, t, ok, end))
  {
    var r := s.threads[t].record;
    assert ThreadEarned(s, s.threads[t]);
    if ok {
      SavedKeeps(s, t, ok, r, Dispatching);
    } else {
      ThreadReplaced(s, t, Done);
      JobDropped(s.(threads := s.threads[t := Done]), r.id);
    }
  }

  lemma RetrySavingKeeps(s: Sys, t: nat, ok: bool, end: RunEnd)
    requires Inv(s) && t < |s.threads| && s.threads[t].RetrySaving?
    ensures Inv(Progress(s, t, ok, end))
  {
    var r := s.threads[t].record;
    assert ThreadEarned(s, s.threads[t]);
    if ok {
      SavedKeeps(s, t, ok, r, Dispatching);
    } else {
      SavedKeeps(s, t, false, r, Done);
      var s1 := s.(threads := s.threads[t := Done]);
      if r.id in s.core.jobs {
        JobReplaced(s1, r.id, s.core.jobs[r.id].(record := s.threads[t].previous, password := ""));
      }
    }
  }

  lemma DeletingKeeps(s: Sys, t: nat, ok: bool, end: RunEnd)
    requires Inv(s) && t < |s.threads| && s.threads[t].Deleting?
    ensures Inv(Progress(s, t, ok, end))
  {
    DeletedFacts(s.store, s.threads[t].id);
    CountUpdate(s.threads, t, Done);
  }

  lemma ThreadKeeps(s: Sys, t: nat, ok: bool, end: RunEnd)
    requires Inv(s) && t < |s.threads|
    ensures Inv(Progress(s, t, ok, end))
  {
    assert ThreadEarned(s, s.threads[t]);
    match s.threads[t]
    case Dispatching => DispatchKeeps(s, t, ok, end);
    case DispatchSaving(_, _) => TakenKeeps(s, t, ok, end);
    case Starting(_, _) => StartingKeeps(s, t, ok, end);
    case Executing(_) => ExecutingKeeps(s, t, ok, end);
    case FinishSaving(r) => SavedKeeps(s, t, ok, r, Dispatching);
    case EnqueueSaving(_) => EnqueueSavingKeeps(s, t, ok, end);
    case RetrySaving(_, _) => RetrySavingKeeps(s, t, ok, end);
    case Saving(r) => SavedKeeps(s, t, ok, r, Done);
    case Deleting(_) => DeletingKeeps(s, t, ok, end);
    case Done =>
  }

  lemma {:induction false} StepKeeps(s: Sys, e: Event)
    requires Inv(s)
    ensures Inv(Step(s, e))
  {
    match e
    case Enqueue(id, created, auth, password) => EnqueueKeeps(s, id, created, auth, password);
    case Retry(id, password) => RetryKeeps(s, id, password);
    case Cancel(id) => CancelKeeps(s, id);
    case Pause(id) => PauseKeeps(s, id);
    case Remove(id) => RemoveKeeps(s, id);
    case BeginLegacy => LegacyKeeps(s, e);
    case EndLegacy => LegacyKeeps(s, e);
    case Close => CloseKeeps(s);
    case Restart(readable, saved) => RestartKeeps(s, readable, saved);
    case Advance(t, ok, end) =>
      if t < |s.threads| {
        ThreadKeeps(s, t, ok, end);
      }
  }

  /** In every state of every run, whatever the interleaving and whichever
      saves fail: the queue order lists exactly the jobs, running slots equal
      live workers and stay within the limit, passwords live only while a job
      waits, stop requests never conflict, and "verified" is always earned. */
  lemma {:induction false} EveryRunKeeps(maxJobs: nat, events: seq<Event>)
    ensures Inv(Run(Init(maxJobs), events))
  {
    if events != [] {
      EveryRunKeeps(maxJobs, events[..|events| - 1]);
      StepKeeps(Run(Init(maxJobs), events[..|events| - 1]), events[|events| - 1]);
    }
  }
}

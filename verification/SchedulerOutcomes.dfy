/** What each call and each move of a worker comes to, told by statuses, flags
    and slots alone, for every state. */
module SchedulerOutcomes {
  import opened Basics
  import opened JobRecords
  import opened SchedulerCore
  import opened SchedulerRuns
  import opened SchedulerInvariants
  import opened SchedulerOwners
  import opened SchedulerAttendance
  import opened SchedulerRequests

  /** All jobs but one stand, in the same order, with the same slots and flags. */
  ghost predicate OnlyJob(c: Core, c': Core, id: Id) {
    && id in c.jobs && c'.jobs.Keys == c.jobs.Keys
    && (forall x :: x in c.jobs && x != id ==> c'.jobs[x] == c.jobs[x])
    && c' == c.(jobs := c'.jobs)
  }

  ghost predicate OneMoreCall(s: Sys, s': Sys, t: Thread) {
    s'.threads == s.threads + [t] && s' == s.(core := s'.core, threads := s'.threads, issued := s'.issued)
  }

  /** A job is taken on exactly when its password is at hand if it needs one, the
      manager is open and holds fewer than a hundred; it waits at the end of the
      queue, and its record is about to be saved. */
  lemma EnqueueOutcome(s: Sys, id: Id, created: int, auth: Auth, password: string)
    ensures var s', r := Step(s, Enqueue(id, created, auth, password)), Record(id, created, auth, Queued, false);
            if (auth.PasswordAuth? && password == "") || s.core.closed || |s.core.jobs| >= 100 || id in s.issued then s' == s
            else
              && id in s'.core.jobs && s'.core.jobs[id] == Job(r, password, false, false)
              && (forall x :: x in s'.core.jobs <==> x == id || x in s.core.jobs)
              && (forall x :: x in s.core.jobs && x != id ==> s'.core.jobs[x] == s.core.jobs[x])
              && s'.core == s.core.(jobs := s'.core.jobs, jobOrder := s.core.jobOrder + [id])
              && s'.issued == s.issued + {id} && OneMoreCall(s, s', EnqueueSaving(r))
  {
  }

  /** A retry is taken exactly of a job that stopped without success, again with
      its password; it waits anew, without verdict or cancel request but with the
      pause request of an earlier run, in its old place. */
  lemma RetryOutcome(s: Sys, id: Id, password: string)
    requires id in s.core.jobs
    ensures var s', j := Step(s, Retry(id, password)), s.core.jobs[id];
            var again := j.record.(status := Queued, verified := false);
            if j.record.status in {Paused, NeedsPassword, Interrupted, Failed, Canceled} && !(j.record.auth.PasswordAuth? && password == "")
            then
              && OnlyJob(s.core, s'.core, id) && s'.core.jobs[id] == Job(again, password, false, j.pauseRequested)
              && s'.issued == s.issued && OneMoreCall(s, s', RetrySaving(again, j.record))
            else s' == s
  {
  }

  /** A cancel ends a job that waits or is paused at once; one whose worker runs
      is asked to stop, which overrides a pause; an ended one stays as it is. */
  lemma CancelOutcome(s: Sys, id: Id)
    requires id in s.core.jobs
    ensures var s', j := Step(s, Cancel(id)), s.core.jobs[id];
            var ended := j.record.(status := Canceled);
            match j.record.status
            case Queued => StoppedAt(s, s', id, ended)
            case Paused => StoppedAt(s, s', id, ended)
            case NeedsPassword => StoppedAt(s, s', id, ended)
            case Running => AskedToStop(s, s', id, Cancelling, true, false)
            case Cancelling => AskedToStop(s, s', id, Cancelling, true, false)
            case Pausing => AskedToStop(s, s', id, Cancelling, true, false)
            case _ => s' == s
  {
    assert s.core.jobs[id := s.core.jobs[id]] == s.core.jobs;
  }

  /** A pause ends a waiting job at once; one that runs is asked to stop, unless
      it is being cancelled; a paused or ended one stays as it is. */
  lemma PauseOutcome(s: Sys, id: Id)
    requires id in s.core.jobs
    ensures var s', j := Step(s, Pause(id)), s.core.jobs[id];
            var ended := j.record.(status := Paused);
            match j.record.status
            case Queued => StoppedAt(s, s', id, ended)
            case NeedsPassword => StoppedAt(s, s', id, ended)
            case Running => AskedToStop(s, s', id, Pausing, false, true)
            case Pausing => AskedToStop(s, s', id, Pausing, false, true)
            case _ => s' == s
  {
    assert s.core.jobs[id := s.core.jobs[id]] == s.core.jobs;
  }

  /** What a cancel or a pause answers: no when there is no such job or nothing
      left to stop, and otherwise yes, with the record to save if no worker runs. */
  lemma StopReplies(c: Core, id: Id)
    ensures Cancelled(c, id).1 == (if id !in c.jobs || c.jobs[id].record.status in {Verified, Interrupted, Failed, Canceled} then
                                     Refused
                                   else if c.jobs[id].record.status in {Running, Cancelling, Pausing} then Signalled
                                   else StoppedBeforeStart(c.jobs[id].record.(status := Canceled)))
    ensures PausedBy(c, id).1 == (if id !in c.jobs
                                     || c.jobs[id].record.status in {Paused, Cancelling, Verified, Interrupted, Failed, Canceled} then
                                    Refused
                                  else if c.jobs[id].record.status in {Running, Pausing} then Signalled
                                  else StoppedBeforeStart(c.jobs[id].record.(status := Paused)))
  {
  }

  /** The job has its new status and no password, and that record is about to be saved. */
  ghost predicate StoppedAt(s: Sys, s': Sys, id: Id, ended: Record) {
    && OnlyJob(s.core, s'.core, id) && s'.core.jobs[id] == s.core.jobs[id].(record := ended, password := "")
    && s'.issued == s.issued && OneMoreCall(s, s', Saving(ended))
  }

  /** The job has a new status and both flags; nothing is saved. */
  ghost predicate AskedToStop(s: Sys, s': Sys, id: Id, status: Status, cancel: bool, pause: bool) {
    && OnlyJob(s.core, s'.core, id)
    && s'.core.jobs[id] ==
       s.core.jobs[id].(record := s.core.jobs[id].record.(status := status), cancelRequested := cancel, pauseRequested := pause)
    && s' == s.(core := s'.core)
  }

  /** Only an ended job is removed, and then from the queue order too. */
  lemma RemoveOutcome(s: Sys, id: Id)
    requires OrderInv(s.core) && id in s.core.jobs
    ensures var s' := Step(s, Remove(id));
            if s.core.jobs[id].record.status in {Verified, Interrupted, Failed, Canceled} then
              && s'.core.jobs == s.core.jobs - {id} && OrderLoses(s.core, s'.core, id)
              && s'.issued == s.issued && OneMoreCall(s, s', Deleting(id))
            else s' == s
  {
    WithoutAt(s.core.jobOrder, id);
  }

  /** No call does anything about a job that is not there. */
  lemma MissingJobOutcome(s: Sys, id: Id, password: string)
    requires id !in s.core.jobs
    ensures Step(s, Retry(id, password)) == s && Step(s, Cancel(id)) == s && Step(s, Pause(id)) == s && Step(s, Remove(id)) == s
  {
  }

  /** A legacy transfer begins only when nothing runs, and only marks itself. */
  lemma LegacyOutcome(s: Sys)
    ensures Step(s, BeginLegacy) == if !s.core.legacyActive && s.core.runningJobs <= 0 then s.(core := s.core.(legacyActive := true)) else s
    ensures Step(s, EndLegacy) == s.(core := s.core.(legacyActive := false))
  {
  }

  /** Closing forgets every password and touches nothing else. */
  lemma CloseOutcome(s: Sys)
    ensures var c, c' := s.core, Step(s, Close).core;
            && c'.closed && c'.jobs.Keys == c.jobs.Keys
            && (forall id :: id in c.jobs ==> c'.jobs[id] == c.jobs[id].(password := ""))
            && c' == c.(closed := true, jobs := c'.jobs) && Step(s, Close) == s.(core := c')
  {
  }

  /** Nothing is dispatched when the manager is closed or full, while a legacy
      transfer runs, or when nothing is queued. */
  ghost predicate NothingToDispatch(c: Core) {
    c.closed || c.legacyActive || c.runningJobs >= c.maxJobs || forall id :: !QueuedIn(c, id)
  }

  /** The dispatch loop gives the job that is queued first a slot and the worker
      its password: it runs, with no cancel request, with whatever pause request
      it had. */
  lemma DispatchOutcome(s: Sys, t: nat, ok: bool, end: RunEnd)
    requires Inv(s) && t < |s.threads| && s.threads[t].Dispatching?
    ensures var s' := Step(s, Advance(t, ok, end));
            if NothingToDispatch(s.core) then s' == s.(threads := s.threads[t := Done])
            else
              && t < |s'.threads| && s' == s.(core := s'.core, threads := s.threads[t := s'.threads[t]])
              && exists i: nat :: EarliestTaken(s.core, s'.core, i, s'.threads[t])
  {
    DispatchCore(s.core);
  }

  lemma DispatchCore(c: Core)
    requires OrderInv(c)
    ensures var (c', taken) := DispatchOne(c);
            if NothingToDispatch(c) then c' == c && taken == None
            else
              && taken.Some?
              && exists i: nat :: EarliestTaken(c, c', i, DispatchSaving(taken.value.record, taken.value.password))
  {
    var i := FirstQueued(c, c.jobOrder);
    if i == |c.jobOrder| {
      NoneQueued(c);
    } else {
      assert QueuedIn(c, c.jobOrder[i]) && Earliest(c, i);
      var (c', taken) := DispatchOne(c);
      assert taken.Some? ==> EarliestTaken(c, c', i, DispatchSaving(taken.value.record, taken.value.password));
    }
  }

  /** The i-th job of the order is the first that waits; it is taken, and handed
      to the worker with its record as it now is and the password it had. */
  ghost predicate EarliestTaken(c: Core, c': Core, i: nat, next: Thread) {
    && Earliest(c, i) && TakenFrom(c, c', c.jobOrder[i])
    && next == DispatchSaving(c'.jobs[c.jobOrder[i]].record, c.jobs[c.jobOrder[i]].password)
  }

  ghost predicate Earliest(c: Core, i: nat) {
    i < |c.jobOrder| && QueuedIn(c, c.jobOrder[i]) && forall k :: 0 <= k < i ==> !QueuedIn(c, c.jobOrder[k])
  }

  /** The job runs, with its record otherwise as it was, no other job is touched,
      and one more slot is in use. */
  ghost predicate TakenFrom(c: Core, c': Core, id: Id) {
    && id in c.jobs && c'.jobs.Keys == c.jobs.Keys
    && (forall x :: x in c.jobs && x != id ==> c'.jobs[x] == c.jobs[x])
    && c'.jobs[id] == Job(c.jobs[id].record.(status := Running), "", false, c.jobs[id].pauseRequested)
    && c'.runningJobs == c.runningJobs + 1 && (c.runningJobs >= 0 ==> c'.wakeLock == (c.wakeLock || c.runningJobs == 0))
    && c' == c.(jobs := c'.jobs, runningJobs := c'.runningJobs, wakeLock := c'.wakeLock)
  }

  /** How a run leaves its job: Verified without an error, and otherwise paused,
      canceled, interrupted or failed, in this order of precedence; always with
      the verdict the engine returned, no password and no cancel request. That
      record is about to be saved, and the slot is free again. */
  lemma FinishOutcome(s: Sys, t: nat, ok: bool, end: RunEnd)
    requires t < |s.threads| && s.threads[t].Executing? && s.threads[t].id in s.core.jobs && s.core.runningJobs > 0
    ensures var s', id := Step(s, Advance(t, ok, end)), s.threads[t].id;
            var j := s.core.jobs[id];
            && id in s'.core.jobs && s'.core.jobs.Keys == s.core.jobs.Keys
            && (forall x :: x in s.core.jobs && x != id ==> s'.core.jobs[x] == s.core.jobs[x])
            && EndedAs(j, end, s'.core.jobs[id])
            && s'.core == s.core.(jobs := s'.core.jobs, runningJobs := s.core.runningJobs - 1,
                                  wakeLock := s.core.wakeLock && s.core.runningJobs > 1)
            && s'.store == s.store && s'.threads == s.threads[t := FinishSaving(s'.core.jobs[id].record)]
            && s'.issued == s.issued && Remembered(s, s', id, end)
  {
  }

  /** A worker whose job is gone gives its slot back and looks for other work. */
  lemma LostFinishOutcome(s: Sys, t: nat, ok: bool, end: RunEnd)
    requires t < |s.threads| && s.threads[t].Executing? && s.threads[t].id !in s.core.jobs && s.core.runningJobs > 0
    ensures var s' := Step(s, Advance(t, ok, end));
            && s'.core == s.core.(runningJobs := s.core.runningJobs - 1, wakeLock := s.core.wakeLock && s.core.runningJobs > 1)
            && s'.store == s.store && s'.threads == s.threads[t := Dispatching]
            && s'.issued == s.issued && Remembered(s, s', s.threads[t].id, end)
  {
  }

  /** The history notes runs that returned no error, and those that returned the verdict. */
  ghost predicate Remembered(s: Sys, s': Sys, id: Id, end: RunEnd) {
    && (forall x :: x in s'.succeeded <==> x in s.succeeded || (x == id && end.Succeeded?))
    && (forall x :: x in s'.vouched <==> x in s.vouched || (x == id && end.verified))
  }

  /** What a job is once its run is over. */
  ghost predicate EndedAs(j: Job, end: RunEnd, after: Job) {
    && after == Job(j.record.(status := after.record.status, verified := end.verified), "", false, j.pauseRequested)
    && (end.Succeeded? ==> after.record.status == Verified)
    && (end.Errored? && j.pauseRequested ==> after.record.status == Paused)
    && (end.Errored? && !j.pauseRequested && j.cancelRequested ==> after.record.status == Canceled)
    && (end.Errored? && !j.pauseRequested && !j.cancelRequested && end.interrupted ==> after.record.status == Interrupted)
    && (end.Errored? && !j.pauseRequested && !j.cancelRequested && !end.interrupted ==> after.record.status == Failed)
  }

  /** The save of a job that was taken: one that works stores exactly its record
      in place of an older one, one that fails leaves the store as it was. Either
      way the worker starts, with its password, and the call looks for more work. */
  lemma DispatchSaveOutcome(s: Sys, t: nat, ok: bool, end: RunEnd)
    requires Inv(s) && t < |s.threads| && s.threads[t].DispatchSaving?
    ensures var s', thread := Step(s, Advance(t, ok, end)), s.threads[t];
            && SavedRecord(s, s', ok, thread.record)
            && s' == s.(store := s'.store, threads := s.threads[t := Dispatching] + [Starting(thread.record.id, thread.password)])
  {
    UpsertFacts(s.store, s.threads[t].record);
  }

  /** The save of a job that ended or was stopped: after the end of a run the call
      looks for more work, and otherwise it is over. */
  lemma SaveOutcome(s: Sys, t: nat, ok: bool, end: RunEnd)
    requires Inv(s) && t < |s.threads| && (s.threads[t].FinishSaving? || s.threads[t].Saving?)
    ensures var s' := Step(s, Advance(t, ok, end));
            && SavedRecord(s, s', ok, s.threads[t].record)
            && s' == s.(store := s'.store, threads := s.threads[t := if s.threads[t].FinishSaving? then Dispatching else Done])
  {
    UpsertFacts(s.store, s.threads[t].record);
  }

  /** The first save of a new job: when it fails, the job is dropped from the
      manager and from the queue order. */
  lemma EnqueueSaveOutcome(s: Sys, t: nat, ok: bool, end: RunEnd)
    requires Inv(s) && t < |s.threads| && s.threads[t].EnqueueSaving?
    ensures var s', r := Step(s, Advance(t, ok, end)), s.threads[t].record;
            && SavedRecord(s, s', ok, r) && s' == s.(core := s'.core, store := s'.store, threads := s'.threads)
            && s'.threads == s.threads[t := if ok then Dispatching else Done]
            && (ok ==> s'.core == s.core)
            && (!ok ==> s'.core.jobs == s.core.jobs - {r.id} && OrderLoses(s.core, s'.core, r.id))
  {
    UpsertFacts(s.store, s.threads[t].record);
    WithoutAt(s.core.jobOrder, s.threads[t].record.id);
  }

  ghost predicate OrderLoses(c: Core, c': Core, id: Id) {
    && c' == c.(jobs := c'.jobs, jobOrder := c'.jobOrder)
    && (forall k :: 0 <= k < |c.jobOrder| && c.jobOrder[k] == id ==> c'.jobOrder == c.jobOrder[..k] + c.jobOrder[k + 1..])
    && (id !in c.jobOrder ==> c'.jobOrder == c.jobOrder)
  }

  lemma WithoutAt(order: seq<Id>, id: Id)
    requires NoDup(order)
    ensures forall k :: 0 <= k < |order| && order[k] == id ==> Without(order, id) == order[..k] + order[k + 1..]
    ensures id !in order ==> Without(order, id) == order
  {
    forall k | 0 <= k < |order| && order[k] == id ensures Without(order, id) == order[..k] + order[k + 1..] {
      FilterDropsOne(order, k, (x: Id) => x != id);
    }
    if id !in order { FilterDropsNone(order, (x: Id) => x != id); }
  }

  /** The save of a retried job: when it fails, the record from before the retry
      is put back. */
  lemma RetrySaveOutcome(s: Sys, t: nat, ok: bool, end: RunEnd)
    requires Inv(s) && t < |s.threads| && s.threads[t].RetrySaving?
    ensures var s', r, previous := Step(s, Advance(t, ok, end)), s.threads[t].record, s.threads[t].previous;
            && SavedRecord(s, s', ok, r) && s' == s.(core := s'.core, store := s'.store, threads := s'.threads)
            && s'.threads == s.threads[t := if ok then Dispatching else Done]
            && (if ok || r.id !in s.core.jobs then s'.core == s.core
                else OnlyJob(s.core, s'.core, r.id) && s'.core.jobs[r.id] == s.core.jobs[r.id].(record := previous, password := ""))
  {
    UpsertFacts(s.store, s.threads[t].record);
  }

  /** Deleting a removed job from the store. */
  lemma DeleteOutcome(s: Sys, t: nat, ok: bool, end: RunEnd)
    requires Inv(s) && t < |s.threads| && s.threads[t].Deleting?
    ensures var s' := Step(s, Advance(t, ok, end));
            && s' == s.(store := s'.store, threads := s.threads[t := Done])
            && (if ok then forall r :: r in s'.store <==> r in s.store && r.id != s.threads[t].id else s'.store == s.store)
  {
    DeletedFacts(s.store, s.threads[t].id);
  }

  ghost predicate SavedRecord(s: Sys, s': Sys, ok: bool, r: Record) {
    if ok then forall x :: x in s'.store <==> x == r || (x in s.store && x.id != r.id) else s'.store == s.store
  }

  /** A worker that starts finds its job, or gives its slot back. */
  lemma StartOutcome(s: Sys, t: nat, ok: bool, end: RunEnd)
    requires t < |s.threads| && s.threads[t].Starting?
    ensures var s' := Step(s, Advance(t, ok, end));
            s' == if s.threads[t].id in s.core.jobs then s.(threads := s.threads[t := Executing(s.threads[t].id)])
                  else s.(core := s.core.(runningJobs := s.core.runningJobs - 1), threads := s.threads[t := Done])
  {
  }

  // ---- A restart ----

  /** How a stored job comes back: as it was if it had ended or was stopped, and
      otherwise paused, or waiting for the password it needs. */
  ghost predicate ComesBack(stored: Record, back: Record) {
    && back == stored.(status := back.status)
    && (stored.status in {Queued, Running, Cancelling, Pausing} ==>
          back.status == if stored.auth.PasswordAuth? then NeedsPassword else Paused)
    && (stored.status !in {Queued, Running, Cancelling, Pausing} ==> back.status == stored.status)
  }

  lemma RecordComesBack(stored: Record)
    ensures ComesBack(stored, RestoredRecord(stored))
  {
  }

  /** The store holds a listed record as it came back if that was saved, and
      otherwise as it was. */
  ghost predicate KeptAs(stored: Record, saved: bool, store: seq<Record>) {
    exists r :: r in store && if saved then ComesBack(stored, r) else r == stored
  }

  /** Exactly the stored jobs, by creation, each as ComesBack says, with no password and no request. */
  ghost predicate BroughtBack(store: seq<Record>, c: Core) {
    && |c.jobOrder| == |ByCreation(store)|
    && (forall i :: 0 <= i < |c.jobOrder| ==> c.jobOrder[i] == ByCreation(store)[i].id)
    && (forall id :: id in c.jobs <==> exists r :: r in store && r.id == id)
    && (forall r :: r in store ==> r.id in c.jobs && BackFrom(r, c.jobs[r.id]))
  }

  lemma RestoredJobs(maxJobs: nat, store: seq<Record>)
    requires UniqueIds(store)
    ensures BroughtBack(store, Restored(maxJobs, ByCreation(store)))
  {
    var listed := ByCreation(store);
    var c := Restored(maxJobs, listed);
    ByCreationFacts(store);
    RestoredOrder(maxJobs, listed);
    RestoredFacts(maxJobs, listed);
    forall id ensures id in c.jobs <==> exists r :: r in store && r.id == id {
      if id in c.jobs { assert CameBack(c, listed, id); }
      if r :| r in store && r.id == id { RestoredHas(c, listed, r); }
    }
    forall r | r in store ensures r.id in c.jobs && BackFrom(r, c.jobs[r.id]) {
      RestoredHas(c, listed, r);
      RestoredOnce(maxJobs, listed, r);
      RecordComesBack(r);
    }
  }

  /** A restart that can read the store brings back what is stored, and those whose
      save works are stored as they came back. One that cannot read it starts empty
      and leaves the store alone. */
  lemma RestartOutcome(s: Sys, readable: bool, saved: seq<bool>)
    requires Inv(s)
    ensures var s' := Step(s, Restart(readable, saved));
            && s'.threads == [] && !s'.core.closed && !s'.core.legacyActive && !s'.core.wakeLock
            && s'.core.runningJobs == 0 && s'.core.maxJobs == s.core.maxJobs
            && (if readable then BroughtBack(s.store, s'.core) && AllKept(s.store, saved, s'.store)
                else s'.core.jobs == map[] && s'.core.jobOrder == [] && s'.store == s.store)
  {
    RestartStep(s, readable, saved);
    RestoredFlags(s.core.maxJobs, if readable then ByCreation(s.store) else []);
    RestoredJobs(s.core.maxJobs, s.store);
    RestartKeeps(s.store, saved);
  }

  lemma RestartStep(s: Sys, readable: bool, saved: seq<bool>)
    ensures var s', listed := Step(s, Restart(readable, saved)), if readable then ByCreation(s.store) else [];
            s'.core == Restored(s.core.maxJobs, listed) && s'.store == RestoredStore(s.store, listed, saved) && s'.threads == []
    ensures RestoredStore(s.store, [], saved) == s.store
  {
  }

  lemma RestoredFlags(maxJobs: nat, listed: seq<Record>)
    ensures var c := Restored(maxJobs, listed);
            && !c.closed && !c.legacyActive && !c.wakeLock && c.runningJobs == 0 && c.maxJobs == maxJobs
            && (listed == [] ==> c.jobs == map[] && c.jobOrder == [])
  {
    RestoredFacts(maxJobs, listed);
  }

  ghost predicate AllKept(before: seq<Record>, saved: seq<bool>, after: seq<Record>) {
    forall i :: 0 <= i < |ByCreation(before)| ==> KeptAs(ByCreation(before)[i], i < |saved| && saved[i], after)
  }

  lemma RestartKeeps(store: seq<Record>, saved: seq<bool>)
    requires UniqueIds(store)
    ensures AllKept(store, saved, RestoredStore(store, ByCreation(store), saved))
  {
    var listed := ByCreation(store);
    ByCreationFacts(store);
    assert forall k :: 0 <= k < |listed| ==> listed[k] in listed;
    forall i | 0 <= i < |listed| ensures KeptAs(listed[i], i < |saved| && saved[i], RestoredStore(store, listed, saved)) {
      RecordComesBack(listed[i]);
      RestoredStoreHolds(store, listed, saved, i);
      assert AfterSave(listed, saved, i) in RestoredStore(store, listed, saved);
    }
  }

  ghost predicate BackFrom(stored: Record, j: Job) {
    ComesBack(stored, j.record) && j.password == "" && !j.cancelRequested && !j.pauseRequested
  }

  lemma RestoredHas(c: Core, listed: seq<Record>, r: Record)
    requires OrderInv(c) && |c.jobOrder| == |listed| && forall i :: 0 <= i < |listed| ==> c.jobOrder[i] == listed[i].id
    requires r in listed
    ensures r.id in c.jobs
  {
    var i :| 0 <= i < |listed| && listed[i] == r;
    assert c.jobOrder[i] in c.jobOrder;
  }

  lemma {:induction false} RestoredOnce(maxJobs: nat, listed: seq<Record>, r: Record)
    requires UniqueIds(listed) && r in listed
    ensures r.id in Restored(maxJobs, listed).jobs && Restored(maxJobs, listed).jobs[r.id] == Job(RestoredRecord(r), "", false, false)
  {
    var n := |listed| - 1;
    if r != listed[n] {
      var i :| 0 <= i < |listed| && listed[i] == r;
      assert listed[..n][i] == r && listed[n].id != r.id;
      RestoredOnce(maxJobs, listed[..n], r);
    }
  }

  /** What the store holds of a listed record once the restart has saved it, or not. */
  function AfterSave(listed: seq<Record>, saved: seq<bool>, i: nat): Record
    requires i < |listed|
  {
    if i < |saved| && saved[i] then RestoredRecord(listed[i]) else listed[i]
  }

  lemma {:induction false} RestoredStoreHolds(store: seq<Record>, listed: seq<Record>, saved: seq<bool>, i: nat)
    requires UniqueIds(store) && UniqueIds(listed) && i < |listed|
    requires forall k :: 0 <= k < |listed| ==> listed[k] in store
    ensures AfterSave(listed, saved, i) in RestoredStore(store, listed, saved)
  {
    var n := |listed| - 1;
    var front := listed[..n];
    if i < n {
      RestoredStoreHolds(store, front, saved, i);
      SaveOneMore(store, listed, saved, AfterSave(front, saved, i));
    } else {
      UnlistedStays(store, front, saved, listed[n]);
      SaveOneMore(store, listed, saved, listed[n]);
    }
  }

  /** The last save stores its record and keeps those of other jobs. */
  lemma SaveOneMore(store: seq<Record>, listed: seq<Record>, saved: seq<bool>, r: Record)
    requires UniqueIds(store) && listed != [] && r in RestoredStore(store, listed[..|listed| - 1], saved)
    ensures r.id != listed[|listed| - 1].id ==> r in RestoredStore(store, listed, saved)
    ensures r == listed[|listed| - 1] ==> AfterSave(listed, saved, |listed| - 1) in RestoredStore(store, listed, saved)
  {
    var n := |listed| - 1;
    RestoredStoreFacts(store, listed[..n], saved);
    UpsertFacts(RestoredStore(store, listed[..n], saved), RestoredRecord(listed[n]));
  }

  lemma {:induction false} UnlistedStays(store: seq<Record>, listed: seq<Record>, saved: seq<bool>, r: Record)
    requires UniqueIds(store) && r in store && forall k :: 0 <= k < |listed| ==> listed[k].id != r.id
    ensures r in RestoredStore(store, listed, saved)
  {
    if listed != [] {
      UnlistedStays(store, listed[..|listed| - 1], saved, r);
      SaveOneMore(store, listed, saved, r);
    }
  }

  // ---- A run without an error ----

  /** From the dispatch of a job to the end of a worker of it, whatever else
      happens: a run that returns no error leaves its job Verified, with the
      verdict the engine returned, and that is the record it goes on to save,
      whatever stop requests there were. */
  lemma {:induction false} SucceededRunEndsVerified(s: Sys, d: nat, events: seq<Event>, t: nat, ok: bool, end: RunEnd)
    requires Inv(s) && d < |s.threads| && s.threads[d].Dispatching? && DispatchOne(s.core).1.Some? && end.Succeeded?
    requires var id := DispatchOne(s.core).1.value.record.id;
             var taken := Step(s, Advance(d, ok, end));
             && Always(Spares(id), taken, events)
             && t < |Run(taken, events).threads| && Run(taken, events).threads[t] == Executing(id)
    ensures var id := DispatchOne(s.core).1.value.record.id;
            var ended := Step(Run(Step(s, Advance(d, ok, end)), events), Advance(t, ok, end));
            && id in s.core.jobs && id in ended.core.jobs
            && ended.core.jobs[id].record == s.core.jobs[id].record.(status := Verified, verified := end.verified)
            && t < |ended.threads| && ended.threads[t] == FinishSaving(ended.core.jobs[id].record)
  {
    var id := DispatchOne(s.core).1.value.record.id;
    DispatchStartsAfresh(s, d, ok, end);
    DispatchKeepsRecord(s, d, ok, end);
    SucceededFrom(Step(s, Advance(d, ok, end)), id, events, t, ok, end);
  }

  lemma DispatchKeepsRecord(s: Sys, d: nat, ok: bool, end: RunEnd)
    requires Inv(s) && d < |s.threads| && s.threads[d].Dispatching? && DispatchOne(s.core).1.Some?
    ensures var id, s' := DispatchOne(s.core).1.value.record.id, Step(s, Advance(d, ok, end));
            && id in s.core.jobs && id in s'.core.jobs
            && s'.core.jobs[id].record == s.core.jobs[id].record.(status := Running)
  {
    TakenFits(s);
  }

  lemma SucceededFrom(s: Sys, id: Id, events: seq<Event>, t: nat, ok: bool, end: RunEnd)
    requires Inv(s) && ActiveIn(s.core, id) && Always(Spares(id), s, events) && end.Succeeded?
    requires t < |Run(s, events).threads| && Run(s, events).threads[t] == Executing(id)
    ensures var ended := Step(Run(s, events), Advance(t, ok, end));
            && id in ended.core.jobs
            && ended.core.jobs[id].record == s.core.jobs[id].record.(status := Verified, verified := end.verified)
            && t < |ended.threads| && ended.threads[t] == FinishSaving(ended.core.jobs[id].record)
  {
    RunningJobFollowsRequests(s, id, events);
    RequestsKeepRecord(s.core.jobs[id], Requests(id, events));
    EndsVerified(Run(s, events), id, t, ok, end);
  }

  lemma EndsVerified(s: Sys, id: Id, t: nat, ok: bool, end: RunEnd)
    requires id in s.core.jobs && t < |s.threads| && s.threads[t] == Executing(id) && end.Succeeded?
    ensures var ended := Step(s, Advance(t, ok, end));
            && id in ended.core.jobs
            && ended.core.jobs[id].record == s.core.jobs[id].record.(status := Verified, verified := end.verified)
            && t < |ended.threads| && ended.threads[t] == FinishSaving(ended.core.jobs[id].record)
  {
  }

  /** Requests change nothing of a record but its status. */
  lemma {:induction false} RequestsKeepRecord(j: Job, requests: seq<StopRequest>)
    ensures var after := AfterRequests(j, requests); after.record == j.record.(status := after.record.status)
  {
    if requests != [] { RequestsKeepRecord(j, requests[..|requests| - 1]); }
  }
}

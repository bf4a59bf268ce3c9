/** The scheduler as a concurrent state machine: the locked core, the job list
    on disk, and every call that is between two locked regions. A step is one
    locked region or one store operation of one of those calls, so a run is any
    interleaving, with saves landing in any order, failing, or lost in a crash. */
module SchedulerRuns {
  import opened Basics
  import opened JobRecords
  import opened SchedulerCore

  /** A call or goroutine and where it stands. */
  datatype Thread =
    | Dispatching                                          // about to take the lock in dispatchJobs
    | DispatchSaving(record: Record, password: string)     // job taken, worker not yet spawned
    | Starting(id: Id, password: string)                   // runJob before it looks the job up
    | Executing(id: Id)                                    // runJob until finishJob's region
    | FinishSaving(record: Record)
    | EnqueueSaving(record: Record)
    | RetrySaving(record: Record, previous: Record)
    | Saving(record: Record)                               // cancel or pause of a waiting job
    | Deleting(id: Id)
    | Done

  /** `issued`, `succeeded` and `vouched` are history: identifiers ever handed
      out, those for which some run returned a nil error, and those for which
      some run returned the verdict "verified". */
  datatype Sys = Sys(core: Core, store: seq<Record>, threads: seq<Thread>, issued: set<Id>, succeeded: set<Id>, vouched: set<Id>)

  datatype Event =
    | Enqueue(id: Id, created: int, auth: Auth, password: string)
    | Retry(id: Id, password: string)
    | Cancel(id: Id)
    | Pause(id: Id)
    | Remove(id: Id)
    | BeginLegacy
    | EndLegacy
    | Close
    | Restart(readable: bool, saved: seq<bool>)
    | Advance(t: nat, ok: bool, end: RunEnd)

  predicate IsWorker(t: Thread) {
    t.DispatchSaving? || t.Starting? || t.Executing?
  }

  function WorkerId(t: Thread): Id
    requires IsWorker(t)
  {
    match t
    case DispatchSaving(r, _) => r.id
    case Starting(id, _) => id
    case Executing(id) => id
  }

  function CountWorkers(ts: seq<Thread>): nat {
    if ts == [] then 0
    else CountWorkers(ts[..|ts| - 1]) + if IsWorker(ts[|ts| - 1]) then 1 else 0
  }

  function Init(maxJobs: nat): Sys {
    Sys(Restored(maxJobs, []), [], [], {}, {}, {})
  }

  function Spawn(s: Sys, t: Thread): Sys {
    s.(threads := s.threads + [t])
  }

  function Stored(s: Sys, ok: bool, r: Record): Sys {
    if ok then s.(store := Upsert(s.store, r)) else s
  }

  /** One step. An event that is not possible in `s` leaves it as it is. */
  function Step(s: Sys, e: Event): Sys {
    match e
    case Enqueue(id, created, auth, password) =>
      (match Enqueued(s.core, id, created, auth, password)
       case None => s
       case Some(c) =>
         // Identifiers are random and never repeat.
         if id in s.issued then s
         else Spawn(s.(core := c, issued := s.issued + {id}), EnqueueSaving(c.jobs[id].record)))
    case Retry(id, password) =>
      (match Retried(s.core, id, password)
       case None => s
       case Some(c) => Spawn(s.(core := c), RetrySaving(c.jobs[id].record, s.core.jobs[id].record)))
    case Cancel(id) => Stop(s, Cancelled(s.core, id))
    case Pause(id) => Stop(s, PausedBy(s.core, id))
    case Remove(id) =>
      (match Removed(s.core, id)
       case None => s
       case Some(c) => Spawn(s.(core := c), Deleting(id)))
    case BeginLegacy =>
      (match LegacyBegun(s.core)
       case None => s
       case Some(c) => s.(core := c))
    case EndLegacy => s.(core := LegacyEnded(s.core))
    case Close => s.(core := ClosedDown(s.core))
    case Restart(readable, saved) =>
      var listed := if readable then ByCreation(s.store) else [];
      s.(core := Restored(s.core.maxJobs, listed), store := RestoredStore(s.store, listed, saved), threads := [])
    case Advance(t, ok, end) =>
      if t < |s.threads| then Progress(s, t, ok, end) else s
  }

  function Stop(s: Sys, outcome: (Core, StopReply)): Sys {
    var s' := s.(core := outcome.0);
    if outcome.1.StoppedBeforeStart? then Spawn(s', Saving(outcome.1.record)) else s'
  }

  function Progress(s: Sys, t: nat, ok: bool, end: RunEnd): Sys
    requires t < |s.threads|
  {
    match s.threads[t]
    case Dispatching =>
      var (c, taken) := DispatchOne(s.core);
      var next := if taken.Some? then DispatchSaving(taken.value.record, taken.value.password) else Done;
      s.(core := c, threads := s.threads[t := next])
    case DispatchSaving(r, password) =>
      Spawn(Stored(s, ok, r).(threads := s.threads[t := Dispatching]), Starting(r.id, password))
    case Starting(id, _) =>
      if id in s.core.jobs then s.(threads := s.threads[t := Executing(id)])
      else s.(core := WorkerLost(s.core), threads := s.threads[t := Done])
    case Executing(id) =>
      var (c, record) := Finished(s.core, id, end);
      var next := if record.Some? then FinishSaving(record.value) else Dispatching;
      s.(core := c, threads := s.threads[t := next],
         succeeded := if end.Succeeded? then s.succeeded + {id} else s.succeeded,
         vouched := if end.verified then s.vouched + {id} else s.vouched)
    case FinishSaving(r) => Stored(s, ok, r).(threads := s.threads[t := Dispatching])
    case EnqueueSaving(r) =>
      if ok then Stored(s, true, r).(threads := s.threads[t := Dispatching])
      else s.(core := Dropped(s.core, r.id), threads := s.threads[t := Done])
    case RetrySaving(r, previous) =>
      if ok then Stored(s, true, r).(threads := s.threads[t := Dispatching])
      else s.(core := RetryUndone(s.core, r.id, previous), threads := s.threads[t := Done])
    case Saving(r) => Stored(s, ok, r).(threads := s.threads[t := Done])
    case Deleting(id) =>
      (if ok then s.(store := Deleted(s.store, id)) else s).(threads := s.threads[t := Done])
    case Done => s
  }

  function Run(s: Sys, events: seq<Event>): Sys {
    if events == [] then s else Step(Run(s, events[..|events| - 1]), events[|events| - 1])
  }

  // ---- Counting workers ----

  lemma {:induction false} CountUpdate(ts: seq<Thread>, i: nat, t: Thread)
    requires i < |ts|
    ensures CountWorkers(ts[i := t]) ==
            CountWorkers(ts) - (if IsWorker(ts[i]) then 1 else 0) + if IsWorker(t) then 1 else 0
  {
    var n := |ts| - 1;
    if i == n {
      assert ts[i := t][..n] == ts[..n];
    } else {
      assert ts[i := t][..n] == ts[..n][i := t];
      CountUpdate(ts[..n], i, t);
    }
  }

  lemma CountAppend(ts: seq<Thread>, t: Thread)
    ensures CountWorkers(ts + [t]) == CountWorkers(ts) + if IsWorker(t) then 1 else 0
  {
    assert (ts + [t])[..|ts|] == ts;
  }

  // ---- The invariant of every run ----

  /** The queue order lists every job once and nothing else. */
  ghost predicate OrderInv(c: Core) {
    && NoDup(c.jobOrder)
    && (forall id :: id in c.jobOrder <==> id in c.jobs)
    && (forall id :: id in c.jobs ==> c.jobs[id].record.id == id)
  }

  ghost predicate SlotInv(s: Sys) {
    && s.core.runningJobs == CountWorkers(s.threads)
    && s.core.runningJobs <= s.core.maxJobs
    && (s.core.legacyActive ==> s.core.runningJobs == 0)
    && (s.core.runningJobs > 0 ==> s.core.wakeLock)
  }

  /** The way a job signs in never changes. */
  predicate SameAuth(c: Core, r: Record) {
    r.id in c.jobs ==> c.jobs[r.id].record.auth == r.auth
  }

  predicate NeedsPasswordIn(c: Core, id: Id) {
    id in c.jobs && c.jobs[id].record.auth.PasswordAuth?
  }

  /** A password is in memory only while its job waits, and a waiting job that
      needs one has it until Close. */
  ghost predicate CorePasswords(c: Core) {
    forall id :: id in c.jobs ==>
      var j := c.jobs[id];
      && (j.password != "" ==> j.record.status.Queued?)
      && (!c.closed && j.record.status.Queued? && j.record.auth.PasswordAuth? ==> j.password != "")
  }

  /** A worker of a job that needs a password was handed it. */
  predicate Handed(c: Core, t: Thread) {
    match t
    case DispatchSaving(r, password) => (r.auth.PasswordAuth? ==> password != "") && SameAuth(c, r)
    case Starting(id, password) => NeedsPasswordIn(c, id) ==> password != ""
    case RetrySaving(_, previous) => Retryable(previous.status) && SameAuth(c, previous)
    case _ => true
  }

  ghost predicate PasswordInv(s: Sys) {
    CorePasswords(s.core) && forall t :: 0 <= t < |s.threads| ==> Handed(s.core, s.threads[t])
  }

  ghost predicate StopInv(c: Core) {
    forall id :: id in c.jobs ==>
      var j := c.jobs[id];
      && !(j.cancelRequested && j.pauseRequested)
      && (j.record.status.Cancelling? ==> j.cancelRequested)
      && (j.record.status.Pausing? ==> j.pauseRequested)
  }

  ghost predicate RecordEarned(s: Sys, r: Record) {
    r.id in s.issued && (r.status.Verified? ==> r.id in s.succeeded) && (r.verified ==> r.id in s.vouched)
  }

  ghost predicate ThreadEarned(s: Sys, t: Thread) {
    match t
    case DispatchSaving(r, _) => RecordEarned(s, r)
    case Starting(id, _) => id in s.issued
    case Executing(id) => id in s.issued
    case FinishSaving(r) => RecordEarned(s, r)
    case EnqueueSaving(r) => RecordEarned(s, r)
    case RetrySaving(r, previous) => RecordEarned(s, r) && RecordEarned(s, previous) && previous.id == r.id
    case Saving(r) => RecordEarned(s, r)
    case Deleting(id) => true
    case Dispatching => true
    case Done => true
  }

  /** Nothing anywhere says "verified" about a job no run of which succeeded, or
      carries the verdict when no run returned it. */
  ghost predicate EarnedInv(s: Sys) {
    && UniqueIds(s.store)
    && (forall r :: r in s.store ==> RecordEarned(s, r))
    && (forall id :: id in s.core.jobs ==> RecordEarned(s, s.core.jobs[id].record))
    && (forall t :: 0 <= t < |s.threads| ==> ThreadEarned(s, s.threads[t]))
  }

  ghost predicate Inv(s: Sys) {
    OrderInv(s.core) && SlotInv(s) && PasswordInv(s) && StopInv(s.core) && EarnedInv(s)
  }

  // ---- Locked regions that are not immediate ----

  lemma WithoutFacts(c: Core, id: Id)
    requires OrderInv(c)
    ensures OrderInv(Dropped(c, id))
  {
    FilterNoDup(c.jobOrder, (x: Id) => x != id);
    FilterKeeps(c.jobOrder, (x: Id) => x != id);
  }

  /** The order lists the records as they were listed. */
  lemma {:induction false} RestoredOrder(maxJobs: nat, listed: seq<Record>)
    requires UniqueIds(listed)
    ensures OrderInv(Restored(maxJobs, listed))
    ensures |Restored(maxJobs, listed).jobOrder| == |listed|
    ensures forall i :: 0 <= i < |listed| ==> Restored(maxJobs, listed).jobOrder[i] == listed[i].id
  {
    if listed != [] {
      var n := |listed| - 1;
      RestoredOrder(maxJobs, listed[..n]);
      var before := Restored(maxJobs, listed[..n]);
      forall i | 0 <= i < n ensures before.jobOrder[i] != listed[n].id {
        assert before.jobOrder[i] == listed[..n][i].id;
      }
    }
  }

  /** `id` came back from a listed record, changed as a restart changes it. */
  ghost predicate CameBack(c: Core, listed: seq<Record>, id: Id)
    requires id in c.jobs
  {
    c.jobs[id].password == "" && exists r :: r in listed && r.id == id && c.jobs[id].record == RestoredRecord(r)
  }

  lemma {:induction false} RestoredFacts(maxJobs: nat, listed: seq<Record>)
    ensures StopInv(Restored(maxJobs, listed))
    ensures var c := Restored(maxJobs, listed);
            && c.runningJobs == 0 && c.maxJobs == maxJobs && !c.closed && !c.legacyActive && !c.wakeLock
    ensures forall id :: id in Restored(maxJobs, listed).jobs ==> CameBack(Restored(maxJobs, listed), listed, id)
  {
    if listed != [] {
      var n := |listed| - 1;
      RestoredFacts(maxJobs, listed[..n]);
      var before, after := Restored(maxJobs, listed[..n]), Restored(maxJobs, listed);
      forall id | id in after.jobs ensures CameBack(after, listed, id) {
        assert listed[n] in listed;
        if id != listed[n].id { assert CameBack(before, listed[..n], id); }
      }
    }
  }

  lemma {:induction false} RestoredStoreFacts(store: seq<Record>, listed: seq<Record>, ok: seq<bool>)
    requires UniqueIds(store)
    ensures UniqueIds(RestoredStore(store, listed, ok))
    ensures forall r :: r in RestoredStore(store, listed, ok) ==>
              r in store || exists q :: q in listed && r == RestoredRecord(q)
  {
    if listed != [] {
      var n := |listed| - 1;
      RestoredStoreFacts(store, listed[..n], ok);
      var before := RestoredStore(store, listed[..n], ok);
      UpsertFacts(before, RestoredRecord(listed[n]));
      assert listed[n] in listed;
    }
  }
}

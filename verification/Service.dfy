/** The desktop service's scheduler as the object it is: each method is one
    region under the service lock and leaves exactly the state that
    SchedulerCore specifies for it. */
module Service {
  import opened Basics
  import opened JobRecords
  import opened SchedulerCore
  import opened JobStore

  /** The queue order, a slice over a backing array that removal compacts in place. */
  class JobOrder {
    var data: array<Id>
    var len: nat

    ghost predicate Valid()
      reads this
    {
      len <= data.Length
    }

    ghost function Contents(): seq<Id>
      reads this, data
      requires Valid()
    {
      data[..len]
    }

    constructor ()
      ensures Valid() && Contents() == [] && fresh(data)
    {
      data := new Id[0];
      len := 0;
    }

    method Append(id: Id)
      requires Valid()
      modifies this, data
      ensures Valid() && (data == old(data) || fresh(data))
      ensures Contents() == old(Contents()) + [id]
    {
      if len == data.Length {
        var grown := new Id[2 * len + 1](_ => "");
        for i := 0 to len
          invariant grown[..i] == old(data[..i])
          invariant len == old(len) && data == old(data) && data[..] == old(data[..])
        {
          grown[i] := data[i];
        }
        data := grown;
      }
      data[len] := id;
      len := len + 1;
    }

    method Remove(id: Id)
      requires Valid()
      modifies this, data
      ensures Valid() && data == old(data)
      ensures Contents() == Without(old(Contents()), id)
    {
      len := FilterInPlace(data, len, (c: Id) => c != id);
    }
  }

  /** The dispatch loop on its own: regions until one takes nothing. */
  function DispatchAll(c: Core): (Core, seq<Dispatched>)
    decreases c.maxJobs - c.runningJobs
  {
    var (c', taken) := DispatchOne(c);
    if taken.None? then (c', [])
    else var (last, rest) := DispatchAll(c'); (last, [taken.value] + rest)
  }

  /** `all` is what was taken so far and then the rest. */
  ghost predicate Continued(all: (Core, seq<Dispatched>), taken: seq<Dispatched>, rest: (Core, seq<Dispatched>)) {
    all == (rest.0, taken + rest.1)
  }

  lemma DispatchAllUnfolds(c: Core, c': Core, next: Option<Dispatched>)
    requires (c', next) == DispatchOne(c)
    ensures DispatchAll(c) == if next.None? then (c, []) else (DispatchAll(c').0, [next.value] + DispatchAll(c').1)
  {
  }

  lemma OneMoreTaken(all: (Core, seq<Dispatched>), taken: seq<Dispatched>, next: Dispatched, rest: (Core, seq<Dispatched>))
    requires Continued(all, taken, (rest.0, [next] + rest.1))
    ensures Continued(all, taken + [next], rest)
  {
    assert taken + ([next] + rest.1) == (taken + [next]) + rest.1;
  }

  predicate Changed(r: Record) {
    r.id != "" && RestoredRecord(r) != r
  }

  /** Every changed record among the first was written back. */
  ghost predicate AllSaved(listed: seq<Record>, saved: seq<bool>) {
    |saved| <= |listed| && forall i :: 0 <= i < |saved| && Changed(listed[i]) ==> saved[i]
  }

  lemma OneMoreSaved(listed: seq<Record>, saved: seq<bool>, ok: bool)
    requires AllSaved(listed, saved) && |saved| < |listed| && (Changed(listed[|saved|]) ==> ok)
    ensures AllSaved(listed, saved + [ok])
  {
  }

  class Service {
    var jobs: map<Id, Job>
    const order: JobOrder
    var runningJobs: int
    const maxJobs: nat
    var closed: bool
    var legacyActive: bool
    var wakeLock: bool

    ghost predicate Valid()
      reads this, order
    {
      order.Valid()
    }

    ghost function View(): Core
      reads this, order, order.data
      requires Valid()
    {
      Core(jobs, order.Contents(), runningJobs, maxJobs, closed, legacyActive, wakeLock)
    }

    constructor (maxJobs: nat)
      ensures Valid() && fresh(order) && fresh(order.data)
      ensures View() == Restored(maxJobs, [])
    {
      jobs, runningJobs, closed, legacyActive, wakeLock := map[], 0, false, false, false;
      this.maxJobs := maxJobs;
      order := new JobOrder();
    }

    method EnqueueTransfer(id: Id, created: int, auth: Auth, password: string) returns (record: Option<Record>)
      requires Valid()
      modifies this, order, order.data
      ensures Valid() && (order.data == old(order.data) || fresh(order.data))
      ensures match Enqueued(old(View()), id, created, auth, password)
              case None => record == None && View() == old(View())
              case Some(c) => View() == c && record == Some(c.jobs[id].record)
    {
      if auth.PasswordAuth? && password == "" { return None; }
      if closed { return None; }
      if |jobs| >= MAX_TRANSFER_JOBS { return None; }
      var r := Record(id, created, auth, Queued, false);
      jobs := jobs[id := Job(r, password, false, false)];
      order.Append(id);
      record := Some(r);
    }

    /** What a failed first save undoes, and what removal does. */
    method Drop(id: Id)
      requires Valid()
      modifies this, order, order.data
      ensures Valid() && order.data == old(order.data)
      ensures View() == Dropped(old(View()), id)
    {
      jobs := jobs - {id};
      order.Remove(id);
    }

    method RetryTransferJob(id: Id, password: string) returns (reply: Option<(Record, Record)>)
      requires Valid()
      modifies this
      ensures Valid()
      ensures match Retried(old(View()), id, password)
              case None => reply == None && View() == old(View())
              case Some(c) => View() == c && reply == Some((c.jobs[id].record, old(View()).jobs[id].record))
    {
      if id !in jobs { return None; }
      var job := jobs[id];
      var status := job.record.status;
      if !status.Paused? && !status.NeedsPassword? && !status.Interrupted? && !status.Failed? && !status.Canceled? { return None; }
      if job.record.auth.PasswordAuth? && password == "" { return None; }
      var previous := job.record;
      job := job.(password := password, cancelRequested := false, record := previous.(status := Queued, verified := false));
      jobs := jobs[id := job];
      reply := Some((job.record, previous));
    }

    method UndoRetry(id: Id, previous: Record)
      requires Valid()
      modifies this
      ensures Valid() && View() == RetryUndone(old(View()), id, previous)
    {
      if id in jobs {
        jobs := jobs[id := jobs[id].(record := previous, password := "")];
      }
    }

    method CancelTransferJob(id: Id) returns (reply: StopReply)
      requires Valid()
      modifies this
      ensures Valid() && (View(), reply) == Cancelled(old(View()), id)
    {
      if id !in jobs { return Refused; }
      var job := jobs[id];
      var status := job.record.status;
      if status.Queued? || status.Paused? || status.NeedsPassword? {
        job := job.(password := "", record := job.record.(status := Canceled));
        jobs := jobs[id := job];
        return StoppedBeforeStart(job.record);
      }
      if !status.Running? && !status.Cancelling? && !status.Pausing? {
        assert jobs == jobs[id := job];
        return Refused;
      }
      jobs := jobs[id := job.(cancelRequested := true, pauseRequested := false, record := job.record.(status := Cancelling))];
      reply := Signalled;
    }

    method PauseTransferJob(id: Id) returns (reply: StopReply)
      requires Valid()
      modifies this
      ensures Valid() && (View(), reply) == PausedBy(old(View()), id)
    {
      if id !in jobs { return Refused; }
      var job := jobs[id];
      var status := job.record.status;
      if status.Queued? || status.NeedsPassword? {
        job := job.(password := "", record := job.record.(status := Paused));
        jobs := jobs[id := job];
        return StoppedBeforeStart(job.record);
      }
      if !status.Running? && !status.Pausing? {
        assert jobs == jobs[id := job];
        return Refused;
      }
      jobs := jobs[id := job.(pauseRequested := true, cancelRequested := false, record := job.record.(status := Pausing))];
      reply := Signalled;
    }

    method RemoveTransferJob(id: Id) returns (removed: bool)
      requires Valid()
      modifies this, order, order.data
      ensures Valid() && order.data == old(order.data)
      ensures match Removed(old(View()), id)
              case None => !removed && View() == old(View())
              case Some(c) => removed && View() == c
    {
      if id !in jobs || !Terminal(jobs[id].record.status) { return false; }
      Drop(id);
      removed := true;
    }

    /** One turn of the dispatch loop: scans the order for the first queued job. */
    method DispatchTurn() returns (taken: Option<Dispatched>)
      requires Valid()
      modifies this
      ensures Valid() && (View(), taken) == DispatchOne(old(View()))
    {
      if closed || legacyActive || runningJobs >= maxJobs { return None; }
      var i := 0;
      while i < order.len && !(order.data[i] in jobs && jobs[order.data[i]].record.status.Queued?)
        invariant i <= order.len
        invariant FirstQueued(View(), order.Contents()) == i + FirstQueued(View(), order.Contents()[i..])
      {
        assert order.Contents()[i..][1..] == order.Contents()[i + 1..];
        i := i + 1;
      }
      if i == order.len { return None; }
      var id := order.data[i];
      var job := jobs[id];
      var password := job.password;
      job := job.(cancelRequested := false, password := "", record := job.record.(status := Running));
      jobs := jobs[id := job];
      runningJobs := runningJobs + 1;
      if runningJobs == 1 { wakeLock := true; }
      taken := Some(Dispatched(job.record, password));
    }

    /** Undisturbed, the loop ends: each turn that takes a job fills a slot. */
    method DispatchJobs() returns (taken: seq<Dispatched>)
      requires Valid()
      modifies this
      ensures Valid() && (View(), taken) == DispatchAll(old(View()))
      ensures closed || legacyActive || runningJobs >= maxJobs ||
              forall k :: 0 <= k < |order.Contents()| ==> !(order.Contents()[k] in jobs && jobs[order.Contents()[k]].record.status.Queued?)
    {
      taken := [];
      ghost var all := DispatchAll(View());
      assert taken + all.1 == all.1;
      while true
        invariant Valid()
        invariant Continued(all, taken, DispatchAll(View()))
        decreases maxJobs - runningJobs
      {
        ghost var before := View();
        var next := DispatchTurn();
        DispatchAllUnfolds(before, View(), next);
        if next.None? {
          assert taken + [] == taken;
          return;
        }
        OneMoreTaken(all, taken, next.value, DispatchAll(View()));
        taken := taken + [next.value];
      }
    }

    /** The worker's lookup; without a job it only returns its slot. */
    method StartWorker(id: Id) returns (found: bool)
      requires Valid()
      modifies this
      ensures Valid() && found == (id in old(jobs))
      ensures View() == if found then old(View()) else WorkerLost(old(View()))
    {
      if id !in jobs {
        runningJobs := runningJobs - 1;
        return false;
      }
      found := true;
    }

    method ReleaseWakeLockIfIdle()
      requires Valid()
      modifies this`wakeLock
      ensures wakeLock == (old(wakeLock) && runningJobs != 0)
    {
      if runningJobs == 0 && wakeLock { wakeLock := false; }
    }

    method FinishJob(id: Id, end: RunEnd) returns (record: Option<Record>)
      requires Valid()
      modifies this
      ensures Valid() && (View(), record) == Finished(old(View()), id, end)
    {
      if id !in jobs {
        if runningJobs > 0 { runningJobs := runningJobs - 1; }
        ReleaseWakeLockIfIdle();
        return None;
      }
      var job := jobs[id];
      job := job.(password := "", record := job.record.(verified := end.verified));
      if end.Succeeded? {
        job := job.(record := job.record.(status := Verified));
      } else {
        job := job.(record := job.record.(status := Failed));
        if job.pauseRequested {
          job := job.(record := job.record.(status := Paused));
        } else if job.cancelRequested {
          job := job.(record := job.record.(status := Canceled));
        } else if end.interrupted {
          job := job.(record := job.record.(status := Interrupted));
        }
      }
      job := job.(cancelRequested := false);
      jobs := jobs[id := job];
      if runningJobs > 0 { runningJobs := runningJobs - 1; }
      ReleaseWakeLockIfIdle();
      record := Some(job.record);
    }

    method BeginTransfer() returns (ok: bool)
      requires Valid()
      modifies this
      ensures Valid()
      ensures match LegacyBegun(old(View()))
              case None => !ok && View() == old(View())
              case Some(c) => ok && View() == c
    {
      if legacyActive || runningJobs > 0 { return false; }
      legacyActive := true;
      ok := true;
    }

    method EndTransfer()
      requires Valid()
      modifies this
      ensures Valid() && View() == LegacyEnded(old(View()))
    {
      legacyActive := false;
    }

    method Close()
      requires Valid()
      modifies this
      ensures Valid() && View() == ClosedDown(old(View()))
    {
      closed := true;
      var pending := jobs.Keys;
      while pending != {}
        invariant pending <= jobs.Keys && jobs.Keys == old(jobs.Keys)
        invariant forall id :: id in jobs ==>
                    jobs[id] == if id in pending then old(jobs)[id] else old(jobs)[id].(password := "")
        invariant order.data == old(order.data) && order.Contents() == old(order.Contents())
        invariant closed && (runningJobs, legacyActive, wakeLock) == old((runningJobs, legacyActive, wakeLock))
        decreases pending
      {
        var id :| id in pending;
        jobs := jobs[id := jobs[id].(password := "")];
        pending := pending - {id};
      }
    }

    /** Writes a record that a restart changes back to the store. */
    static method SaveRestored(store: StateStore, stored: Record) returns (record: Record, ok: bool)
      requires Faithful(store.codec)
      modifies store.directory
      ensures record == RestoredRecord(stored)
      ensures ok ==> old(store.Loaded()).Some? && record != stored
      ensures store.directory.reliable && old(store.Loaded()).Some? && Changed(stored) ==> ok
      ensures store.Loaded() == if ok then
                                  Some(old(store.Loaded()).value.(jobs := Upsert(old(store.Loaded()).value.jobs, record)))
                                else old(store.Loaded())
    {
      record, ok := stored, false;
      if record.status.Queued? || record.status.Running? || record.status.Cancelling? || record.status.Pausing? {
        record := record.(status := if record.auth.PasswordAuth? then NeedsPassword else Paused);
        ok := store.SaveTransferJob(record);
      }
    }

    method RestoreOne(store: StateStore, stored: Record) returns (ok: bool)
      requires Valid() && Faithful(store.codec)
      modifies this, order, order.data, store.directory
      ensures Valid() && (order.data == old(order.data) || fresh(order.data))
      ensures ok ==> old(store.Loaded()).Some? && RestoredRecord(stored) != stored
      ensures store.directory.reliable && old(store.Loaded()).Some? && Changed(stored) ==> ok
      ensures var r := RestoredRecord(stored);
              && View() == old(View()).(jobs := old(jobs)[r.id := Job(r, "", false, false)], jobOrder := old(order.Contents()) + [r.id])
              && store.Loaded() == if ok then
                                     Some(old(store.Loaded()).value.(jobs := Upsert(old(store.Loaded()).value.jobs, r)))
                                   else old(store.Loaded())
    {
      var record;
      record, ok := SaveRestored(store, stored);
      jobs := jobs[record.id := Job(record, "", false, false)];
      order.Append(record.id);
    }

    /** Fills a new service from the store. `saved` reports which of the changed
        records could be written back. */
    method RestoreJobs(store: StateStore) returns (listed: seq<Record>, saved: seq<bool>)
      requires Valid() && View() == Restored(maxJobs, []) && Faithful(store.codec)
      modifies this, order, order.data, store.directory
      ensures Valid() && View() == Restored(maxJobs, listed)
      ensures listed == [] || (old(store.Loaded()).Some? && listed == ByCreation(old(store.Loaded()).value.jobs))
      ensures store.directory.reliable && old(store.Loaded()).Some? ==>
                listed == ByCreation(old(store.Loaded()).value.jobs) && |saved| == |listed| && AllSaved(listed, saved)
      ensures old(store.Loaded()).Some? ==>
                store.Loaded() == Some(old(store.Loaded()).value.(jobs := RestoredStore(old(store.Loaded()).value.jobs, listed, saved)))
    {
      saved := [];
      var list := store.ListTransferJobs();
      if list.None? { return [], []; }
      listed := list.value;
      ghost var before := store.Loaded().value;
      for i := 0 to |listed|
        invariant Valid() && (order.data == old(order.data) || fresh(order.data))
        invariant |saved| == i
        invariant store.directory.reliable ==> AllSaved(listed, saved)
        invariant View() == Restored(maxJobs, listed[..i])
        invariant store.Loaded() == Some(before.(jobs := RestoredStore(before.jobs, listed[..i], saved)))
      {
        var ok := RestoreOne(store, listed[i]);
        OneMoreRestored(maxJobs, before.jobs, listed, i, saved, ok);
        if store.directory.reliable { OneMoreSaved(listed, saved, ok); }
        saved := saved + [ok];
      }
      assert listed[..|listed|] == listed;
    }
  }

  /** Later saves do not matter to what earlier ones did. */
  lemma {:induction false} RestoredStoreExtends(store: seq<Record>, listed: seq<Record>, saved: seq<bool>, ok: bool)
    requires |saved| >= |listed|
    ensures RestoredStore(store, listed, saved + [ok]) == RestoredStore(store, listed, saved)
  {
    if listed != [] {
      RestoredStoreExtends(store, listed[..|listed| - 1], saved, ok);
    }
  }

  lemma OneMoreRestored(maxJobs: nat, store: seq<Record>, listed: seq<Record>, i: nat, saved: seq<bool>, ok: bool)
    requires |saved| == i < |listed|
    ensures var c, r := Restored(maxJobs, listed[..i]), RestoredRecord(listed[i]);
            && Restored(maxJobs, listed[..i + 1]) == c.(jobs := c.jobs[r.id := Job(r, "", false, false)], jobOrder := c.jobOrder + [r.id])
            && RestoredStore(store, listed[..i + 1], saved + [ok]) ==
               if r != listed[i] && ok then Upsert(RestoredStore(store, listed[..i], saved), r)
               else RestoredStore(store, listed[..i], saved)
  {
    assert listed[..i + 1][..i] == listed[..i];
    RestoredStoreExtends(store, listed[..i], saved, ok);
  }
}

/** The transfer manager's locked state and, for each region of code that runs
    under the service lock, the state it leaves. */
module SchedulerCore {
  import opened Basics
  import opened JobRecords

  const MAX_TRANSFER_JOBS: nat := 100

  /** A job in memory. The password is "" when there is none. */
  datatype Job = Job(record: Record, password: string, cancelRequested: bool, pauseRequested: bool)

  datatype Core = Core(
    jobs: map<Id, Job>, jobOrder: seq<Id>, runningJobs: int, maxJobs: nat,
    closed: bool, legacyActive: bool, wakeLock: bool)

  /** How a worker's run ended: nil error or error, with the verdict the engine
      returned and, for an error, whether it was an interruption. */
  datatype RunEnd = Succeeded(verified: bool) | Errored(interrupted: bool, verified: bool)

  datatype StopReply = Refused | StoppedBeforeStart(record: Record) | Signalled

  datatype Dispatched = Dispatched(record: Record, password: string)

  function Without(order: seq<Id>, id: Id): seq<Id> {
    Filter(order, (c: Id) => c != id)
  }

  function WithStatus(j: Job, s: Status): Job {
    j.(record := j.record.(status := s))
  }

  function Enqueued(c: Core, id: Id, created: int, auth: Auth, password: string): Option<Core> {
    if auth.PasswordAuth? && password == "" then None
    else if c.closed || |c.jobs| >= MAX_TRANSFER_JOBS then None
    else
      var job := Job(Record(id, created, auth, Queued, false), password, false, false);
      Some(c.(jobs := c.jobs[id := job], jobOrder := c.jobOrder + [id]))
  }

  function Dropped(c: Core, id: Id): Core {
    c.(jobs := c.jobs - {id}, jobOrder := Without(c.jobOrder, id))
  }

  function Retried(c: Core, id: Id, password: string): Option<Core> {
    if id !in c.jobs || !Retryable(c.jobs[id].record.status) then None
    else
      var job := c.jobs[id];
      if job.record.auth.PasswordAuth? && password == "" then None
      else
        var record := job.record.(status := Queued, verified := false);
        Some(c.(jobs := c.jobs[id := job.(record := record, password := password, cancelRequested := false)]))
  }

  /** A failed save puts the old record back, whatever happened meanwhile. */
  function RetryUndone(c: Core, id: Id, previous: Record): Core {
    if id in c.jobs then c.(jobs := c.jobs[id := c.jobs[id].(record := previous, password := "")]) else c
  }

  function CancelJob(j: Job): (Job, StopReply) {
    var s := j.record.status;
    if s.Queued? || s.Paused? || s.NeedsPassword? then
      var stopped := WithStatus(j, Canceled).(password := "");
      (stopped, StoppedBeforeStart(stopped.record))
    else if Active(s) then
      (WithStatus(j, Cancelling).(cancelRequested := true, pauseRequested := false), Signalled)
    else (j, Refused)
  }

  function PauseJob(j: Job): (Job, StopReply) {
    var s := j.record.status;
    if s.Queued? || s.NeedsPassword? then
      var stopped := WithStatus(j, Paused).(password := "");
      (stopped, StoppedBeforeStart(stopped.record))
    else if s.Running? || s.Pausing? then
      (WithStatus(j, Pausing).(pauseRequested := true, cancelRequested := false), Signalled)
    else (j, Refused)
  }

  function Cancelled(c: Core, id: Id): (Core, StopReply) {
    if id !in c.jobs then (c, Refused)
    else var (j, reply) := CancelJob(c.jobs[id]); (c.(jobs := c.jobs[id := j]), reply)
  }

  function PausedBy(c: Core, id: Id): (Core, StopReply) {
    if id !in c.jobs then (c, Refused)
    else var (j, reply) := PauseJob(c.jobs[id]); (c.(jobs := c.jobs[id := j]), reply)
  }

  function Removed(c: Core, id: Id): Option<Core> {
    if id in c.jobs && Terminal(c.jobs[id].record.status) then Some(Dropped(c, id)) else None
  }

  /** Index in the queue order of the first queued job, or its length. */
  function FirstQueued(c: Core, order: seq<Id>): (i: nat)
    ensures i <= |order|
    ensures i < |order| ==> order[i] in c.jobs && c.jobs[order[i]].record.status.Queued?
    ensures forall k :: 0 <= k < i ==> !(order[k] in c.jobs && c.jobs[order[k]].record.status.Queued?)
  {
    if order == [] then 0
    else if order[0] in c.jobs && c.jobs[order[0]].record.status.Queued? then 0
    else 1 + FirstQueued(c, order[1..])
  }

  function DispatchOne(c: Core): (Core, Option<Dispatched>) {
    var i := FirstQueued(c, c.jobOrder);
    if c.closed || c.legacyActive || c.runningJobs >= c.maxJobs || i == |c.jobOrder| then (c, None)
    else
      var id := c.jobOrder[i];
      var job := c.jobs[id];
      var started := WithStatus(job, Running).(cancelRequested := false, password := "");
      (c.(jobs := c.jobs[id := started],
          runningJobs := c.runningJobs + 1,
          wakeLock := c.wakeLock || c.runningJobs + 1 == 1),
       Some(Dispatched(started.record, job.password)))
  }

  /** The worker that finds no job under its identifier only gives its slot back. */
  function WorkerLost(c: Core): Core {
    c.(runningJobs := c.runningJobs - 1)
  }

  function EndStatus(j: Job, end: RunEnd): Status {
    if end.Succeeded? then Verified
    else if j.pauseRequested then Paused
    else if j.cancelRequested then Canceled
    else if end.interrupted then Interrupted
    else Failed
  }

  function FinishJob(j: Job, end: RunEnd): Job {
    j.(record := j.record.(status := EndStatus(j, end), verified := end.verified),
       password := "", cancelRequested := false)
  }

  function SlotReleased(c: Core): Core {
    var running := if c.runningJobs > 0 then c.runningJobs - 1 else c.runningJobs;
    c.(runningJobs := running, wakeLock := c.wakeLock && running != 0)
  }

  function Finished(c: Core, id: Id, end: RunEnd): (Core, Option<Record>) {
    if id !in c.jobs then (SlotReleased(c), None)
    else
      var j := FinishJob(c.jobs[id], end);
      (SlotReleased(c.(jobs := c.jobs[id := j])), Some(j.record))
  }

  function LegacyBegun(c: Core): Option<Core> {
    if c.legacyActive || c.runningJobs > 0 then None else Some(c.(legacyActive := true))
  }

  function LegacyEnded(c: Core): Core {
    c.(legacyActive := false)
  }

  function ClosedDown(c: Core): Core {
    c.(closed := true, jobs := map id | id in c.jobs :: c.jobs[id].(password := ""))
  }

  /** What a restart makes of a stored record. */
  function RestoredRecord(r: Record): Record {
    if r.status.Queued? || Active(r.status) then
      r.(status := if r.auth.PasswordAuth? then NeedsPassword else Paused)
    else r
  }

  function Restored(maxJobs: nat, listed: seq<Record>): Core {
    if listed == [] then Core(map[], [], 0, maxJobs, false, false, false)
    else
      var c := Restored(maxJobs, listed[..|listed| - 1]);
      var r := RestoredRecord(listed[|listed| - 1]);
      c.(jobs := c.jobs[r.id := Job(r, "", false, false)], jobOrder := c.jobOrder + [r.id])
  }

  /** The store after a restart has saved the records it changed; `ok[i]` says
      whether the save of the i-th listed record worked. */
  function RestoredStore(store: seq<Record>, listed: seq<Record>, ok: seq<bool>): seq<Record> {
    if listed == [] then store
    else
      var n := |listed| - 1;
      var before := RestoredStore(store, listed[..n], ok);
      if RestoredRecord(listed[n]) != listed[n] && n < |ok| && ok[n]
      then Upsert(before, RestoredRecord(listed[n])) else before
  }
}

/** What the invariants mean to a caller. */
module SchedulerTheorems {
  import opened JobRecords
  import opened SchedulerCore
  import opened SchedulerRuns
  import opened SchedulerInvariants
  import opened SchedulerOwners
  import opened SchedulerAttendance

  // ---- Capacity, shutdown, order, passwords ----

  /** No run ever has more live workers than slots, and none beside a legacy transfer. */
  lemma {:induction false} CapacityHolds(maxJobs: nat, events: seq<Event>)
    ensures var s := Run(Init(maxJobs), events);
            && s.core.runningJobs == CountWorkers(s.threads) <= s.core.maxJobs
            && (s.core.legacyActive ==> CountWorkers(s.threads) == 0)
            && (CountWorkers(s.threads) > 0 ==> s.core.wakeLock)
  {
    EveryRunKeeps(maxJobs, events);
  }

  /** Once closed, the service never gains a worker, whatever calls arrive. */
  lemma {:induction false} ClosedStaysIdle(s: Sys, events: seq<Event>)
    requires Inv(s) && s.core.closed
    requires forall i :: 0 <= i < |events| ==> !events[i].Restart?
    ensures Run(s, events).core.closed && Inv(Run(s, events))
    ensures CountWorkers(Run(s, events).threads) <= CountWorkers(s.threads)
  {
    if events != [] {
      var front, e := events[..|events| - 1], events[|events| - 1];
      ClosedStaysIdle(s, front);
      StepKeeps(Run(s, front), e);
      ClosedStep(Run(s, front), e);
    }
  }

  lemma ClosedStep(s: Sys, e: Event)
    requires s.core.closed && !e.Restart?
    ensures Step(s, e).core.closed && Step(s, e).core.runningJobs <= s.core.runningJobs
  {
    if e.Advance? && e.t < |s.threads| { ClosedProgress(s, e.t, e.ok, e.end); }
  }

  lemma ClosedProgress(s: Sys, t: nat, ok: bool, end: RunEnd)
    requires s.core.closed && t < |s.threads|
    ensures var s' := Progress(s, t, ok, end); s'.core.closed && s'.core.runningJobs <= s.core.runningJobs
  {
    if s.threads[t].Executing? { FinishingThreads(s, t, ok, end); }
  }

  /** The dispatch loop takes the earliest queued job in queue order, and takes
      none only if the service is closed, busy or full, or nothing is queued. */
  lemma DispatchTakesEarliest(c: Core)
    requires OrderInv(c)
    ensures var (c', taken) := DispatchOne(c);
            && (taken.None? <==> c.closed || c.legacyActive || c.runningJobs >= c.maxJobs || forall id :: !QueuedIn(c, id))
            && (taken.Some? ==>
                  && c'.runningJobs == c.runningJobs + 1
                  && exists i ::
                       && 0 <= i < |c.jobOrder| && c.jobOrder[i] == taken.value.record.id
                       && QueuedIn(c, c.jobOrder[i]) && c'.jobs[c.jobOrder[i]].record.status.Running?
                       && taken.value.password == c.jobs[c.jobOrder[i]].password
                       && (forall k :: 0 <= k < i ==> !QueuedIn(c, c.jobOrder[k])))
  {
    var i := FirstQueued(c, c.jobOrder);
    if i == |c.jobOrder| {
      NoneQueued(c);
    } else {
      assert QueuedIn(c, c.jobOrder[i]);
    }
  }

  /** Only waiting jobs hold a password. */
  ghost predicate PasswordsWait(c: Core) {
    forall id :: id in c.jobs && c.jobs[id].password != "" ==> QueuedIn(c, id)
  }

  /** Every waiting job that needs a password has one. */
  ghost predicate PasswordsAtHand(c: Core) {
    forall id :: QueuedIn(c, id) && c.jobs[id].record.auth.PasswordAuth? ==> c.jobs[id].password != ""
  }

  /** No worker of a password job was started without its password: neither the
      record taken from the queue nor the job the worker will look up. */
  ghost predicate PasswordsHandedOver(c: Core, threads: seq<Thread>) {
    forall t :: 0 <= t < |threads| ==>
                  && (threads[t].DispatchSaving? && (threads[t].record.auth.PasswordAuth? || NeedsPasswordIn(c, threads[t].record.id)) ==>
                        threads[t].password != "")
                  && (threads[t].Starting? && NeedsPasswordIn(c, threads[t].id) ==> threads[t].password != "")
  }

  /** The lifetime of passwords, in every reachable state. */
  lemma {:induction false} PasswordsLiveOnlyInTheQueue(maxJobs: nat, events: seq<Event>)
    ensures PasswordsWait(Run(Init(maxJobs), events).core)
    ensures !Run(Init(maxJobs), events).core.closed ==> PasswordsAtHand(Run(Init(maxJobs), events).core)
    ensures PasswordsHandedOver(Run(Init(maxJobs), events).core, Run(Init(maxJobs), events).threads)
  {
    EveryRunKeeps(maxJobs, events);
    var s := Run(Init(maxJobs), events);
    forall t | 0 <= t < |s.threads| ensures Handed(s.core, s.threads[t]) {}
  }

  // ---- Verified is earned, and a restart starts nothing ----

  /** A record on disk with status Verified belongs to a job some run of which
      returned no error, and one that carries the verdict to a job some run of
      which returned it, for every order in which saves land. */
  lemma {:induction false} VerifiedOnDiskWasEarned(maxJobs: nat, events: seq<Event>)
    ensures var s := Run(Init(maxJobs), events);
            && UniqueIds(s.store)
            && (forall r :: r in s.store && r.status.Verified? ==> r.id in s.succeeded)
            && (forall r :: r in s.store && r.verified ==> r.id in s.vouched)
  {
    EveryRunKeeps(maxJobs, events);
  }

  predicate Idle(t: Thread) {
    t.Saving? || t.Deleting? || t.Done?
  }

  /** Nothing waits, nothing runs, and no call will look for work. */
  ghost predicate Quiet(s: Sys) {
    && CountWorkers(s.threads) == 0
    && (forall t :: 0 <= t < |s.threads| ==> Idle(s.threads[t]))
    && (forall id :: !QueuedIn(s.core, id) && !ActiveIn(s.core, id))
  }

  /** After a restart from any reachable state, no worker starts until someone
      enqueues or retries, however long the service then runs. */
  lemma {:induction false} RestartStartsNothing(s: Sys, readable: bool, saved: seq<bool>, events: seq<Event>)
    requires Inv(s)
    requires forall i :: 0 <= i < |events| ==> !events[i].Enqueue? && !events[i].Retry?
    ensures var s' := Run(Step(s, Restart(readable, saved)), events); Inv(s') && Quiet(s')
  {
    var r := Step(s, Restart(readable, saved));
    if events == [] {
      StepKeeps(s, Restart(readable, saved));
      NothingRunsAfterRestart(s, readable, saved);
    } else {
      var front, e := events[..|events| - 1], events[|events| - 1];
      RestartStartsNothing(s, readable, saved, front);
      QuietStep(Run(r, front), e);
    }
  }

  lemma QuietStep(s: Sys, e: Event)
    requires Inv(s) && Quiet(s)
    requires !e.Enqueue? && !e.Retry?
    ensures Inv(Step(s, e)) && Quiet(Step(s, e))
  {
    StepKeeps(s, e);
    if e.Restart? {
      NothingRunsAfterRestart(s, e.readable, e.saved);
    } else {
      QuietJobs(s, e);
    }
  }

  lemma QuietJobs(s: Sys, e: Event)
    requires forall t :: 0 <= t < |s.threads| ==> Idle(s.threads[t])
    requires forall id :: !QueuedIn(s.core, id) && !ActiveIn(s.core, id)
    requires !e.Enqueue? && !e.Retry? && !e.Restart?
    ensures Step(s, e).core.runningJobs == s.core.runningJobs
    ensures forall t :: 0 <= t < |Step(s, e).threads| ==> Idle(Step(s, e).threads[t])
    ensures forall id :: !QueuedIn(Step(s, e).core, id) && !ActiveIn(Step(s, e).core, id)
  {
    var s' := Step(s, e);
    forall id ensures !QueuedIn(s'.core, id) && !ActiveIn(s'.core, id) {
      assert !QueuedIn(s.core, id) && !ActiveIn(s.core, id);
    }
  }
}

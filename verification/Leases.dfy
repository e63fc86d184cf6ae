/** What leases, waits and endings mean in time: how long a job is safe from the reaper, when
    it may be claimed again, and what its row says at the end. */
module Leases {
  import opened Prelude
  import opened Queue
  import opened WorkerProtocol
  import opened Fencing

  // ---------------------------------------------------------------- leases protect

  /** A live heartbeat of the slot on the job. */
  predicate Renews(st: State, ev: Event, j: JobId)
    requires Enabled(st, ev)
  {
    (ev.Beat? || ev.Pulse?) && PcOf(st, ev.slot).job == j && j in st.jobs && Holds(st.jobs[j], ev.slot)
  }

  /** The event gives a slot a lease on the job: a claim, or a live heartbeat. */
  predicate GivesLease(st: State, ev: Event, j: JobId)
    requires Enabled(st, ev)
  {
    Claims(st, ev, j) || Renews(st, ev, j)
  }

  /** The slot runs the job in this attempt, with a lease to `until` at least. */
  predicate KeptUntil(st: State, j: JobId, s: SlotId, attempts: nat, until: Instant) {
    && j in st.jobs && st.jobs[j].status == Running && st.jobs[j].lockedBy == Some(s)
    && st.jobs[j].attempts == attempts
    && st.jobs[j].leaseExpiresAt.Some? && st.jobs[j].leaseExpiresAt.value >= until
  }

  /** A claim and a live heartbeat give a lease to the moment they name, to their own slot. */
  lemma LeaseIsRenewed(st: State, ev: Event, j: JobId)
    requires Enabled(st, ev) && GivesLease(st, ev, j)
    ensures var next := Next(st, ev);
            && j in next.jobs && next.jobs[j].leaseExpiresAt == Some(ev.leaseUntil)
            && next.jobs[j].status == Running && next.jobs[j].lockedBy == Some(ev.slot)
            && next.jobs[j].attempts == st.jobs[j].attempts + (if Renews(st, ev, j) then 0 else 1)
  {
  }

  /** The reaper takes a job just when its lease is over: to QUEUED, open to claims at once,
      while an attempt is left, else to FAILED. */
  lemma ReapedExactlyWhen(st: State, ev: Event, j: JobId, now: Instant, t: Instant)
    requires Enabled(st, ev) && GivesLease(st, ev, j)
    ensures var next := Next(st, ev);
            && (Moves(next, Reap(now), j) <==> ev.leaseUntil < now)
            && var row := Next(next, Reap(now)).jobs[j];
               && (now <= ev.leaseUntil ==> row == next.jobs[j])
               && (ev.leaseUntil < now ==>
                     && row.lockedBy == None && row.leaseExpiresAt == None
                     && if next.jobs[j].attempts < next.jobs[j].maxAttempts
                        then row.status == Queued && (Eligible(row, t) <==> now <= t)
                        else row.status == Failed && row.finishedAt == Some(now)
                             && row.errorCode == Some("lease_expired"))
  {
    LeaseIsRenewed(st, ev, j);
  }

  /** Neither the reaper nor a later heartbeat of the slot works against this lease. */
  ghost predicate Respects(ev: Event, s: SlotId, until: Instant) {
    && (ev.Reap? ==> ev.now <= until)
    && ((ev.Beat? || ev.Pulse?) && ev.slot == s ==> ev.leaseUntil >= until)
  }

  ghost predicate NoFinisher(st: State, run: seq<Event>, j: JobId)
    requires Legal(st, run)
    decreases |run|
  {
    run == [] || (!Ends(st, run[0], j) && NoFinisher(Next(st, run[0]), run[1..], j))
  }

  lemma KeptStep(st: State, ev: Event, j: JobId, s: SlotId, attempts: nat, until: Instant)
    requires KeptUntil(st, j, s, attempts, until) && Enabled(st, ev) && !Ends(st, ev, j) && Respects(ev, s, until)
    ensures KeptUntil(Next(st, ev), j, s, attempts, until)
  {
    if Claims(st, ev, j) {
      ClaimedRow(st, ev, j);
      assert false;
    }
  }

  lemma {:induction false} KeptRun(st: State, run: seq<Event>, j: JobId, s: SlotId, attempts: nat, until: Instant)
    requires KeptUntil(st, j, s, attempts, until) && Legal(st, run) && NoFinisher(st, run, j)
    requires forall ev :: ev in run ==> Respects(ev, s, until)
    ensures KeptUntil(Exec(st, run), j, s, attempts, until)
    decreases |run|
  {
    if run != [] {
      assert run[0] in run;
      KeptStep(st, run[0], j, s, attempts, until);
      KeptRun(Next(st, run[0]), run[1..], j, s, attempts, until);
    }
  }

  /** A lease protects: from a claim or a live heartbeat on, whatever anyone does, the job
      stays the slot's until the lease is over, unless a finisher ends it. */
  lemma LeaseProtects(st: State, ev: Event, run: seq<Event>, j: JobId)
    requires Enabled(st, ev) && GivesLease(st, ev, j)
    requires Legal(Next(st, ev), run) && NoFinisher(Next(st, ev), run, j)
    requires forall e :: e in run ==> Respects(e, ev.slot, ev.leaseUntil)
    ensures KeptUntil(Exec(Next(st, ev), run), j, ev.slot, Next(st, ev).jobs[j].attempts, ev.leaseUntil)
  {
    LeaseIsRenewed(st, ev, j);
    KeptRun(Next(st, ev), run, j, ev.slot, Next(st, ev).jobs[j].attempts, ev.leaseUntil);
  }

  /** The percentage a heartbeat in the loop publishes: 15 and 80 hundredths of the files
      done, rounded down. */
  lemma ProgressIsPublished(st: State, ev: Event)
    requires Enabled(st, ev) && ev.Beat? && Renews(st, ev, PcOf(st, ev.slot).job)
    ensures var loop := PcOf(st, ev.slot).loop;
            var p := Next(st, ev).jobs[PcOf(st, ev.slot).job].progressPercent;
            && 15 <= p < 95
            && (p - 15) * |loop.files| <= 80 * loop.index < (p - 14) * |loop.files|
  {
    var loop := PcOf(st, ev.slot).loop;
    ShareOf(loop.index * 80, |loop.files|);
  }

  lemma ShareOf(part: nat, whole: nat)
    requires whole > 0 && part < 80 * whole
    ensures 0 <= part / whole < 80 && part / whole * whole <= part < (part / whole + 1) * whole
  {
    var q := part / whole;
    assert part == whole * q + part % whole;
    assert q >= 80 ==> whole * q >= whole * 80;
  }

  // ---------------------------------------------------------------- how an attempt ends

  /** The ways an attempt ends for the slot that holds the job, when it reads the committed
      row: a document or more is success; no document, and an error that is not worth
      a retry, fail the job; any other error requeues it while an attempt is left. */
  lemma AttemptEndsAs(st: State, ev: Event, t: Instant)
    requires Enabled(st, ev) && ev.Finish? && ev.read.Fresh?
    requires Holds(st.jobs[PcOf(st, ev.slot).job], ev.slot)
    ensures var verdict := PcOf(st, ev.slot).verdict;
            var before := st.jobs[PcOf(st, ev.slot).job];
            var row := Next(st, ev).jobs[PcOf(st, ev.slot).job];
            && row.leaseExpiresAt == None && row.attempts == before.attempts
            && if verdict.Documented? && verdict.loop.created >= 1 then
                 && row.status == Succeeded && row.finishedAt == Some(ev.now) && row.progressPercent == 100
                 && row.errorCode == None && row.lockedBy == Some(ev.slot)
               else if verdict.Documented? || !verdict.retryable || before.attempts >= before.maxAttempts then
                 && row.status == Failed && row.finishedAt == Some(ev.now) && row.errorCode == Some(ev.code)
                 && row.lockedBy == None
               else
                 && row.status == Queued && row.errorCode == Some(ev.code) && row.lockedBy == None
                 && (Eligible(row, t) <==> ev.now + BackoffSeconds(before.attempts) * 1_000_000 <= t)
  {
  }

  /** A failure names its code, unless a stale copy already had that code and the committed
      row has another: then the row keeps the other. */
  lemma FailureNamesItsCodeExactlyWhen(st: State, ev: Event)
    requires Enabled(st, ev) && ev.Finish? && !Succeeds(PcOf(st, ev.slot).verdict)
    requires var pc := PcOf(st, ev.slot);
             (if ev.read.Fresh? then st.jobs[pc.job] else pc.seen).lockedBy == Some(ev.slot)
    ensures var pc := PcOf(st, ev.slot);
            Next(st, ev).jobs[pc.job].errorCode == Some(ev.code) <==>
              ev.read.Fresh? || pc.seen.errorCode != Some(ev.code) || st.jobs[pc.job].errorCode == Some(ev.code)
  {
  }

  // ---------------------------------------------------------------- the backoff

  /** What the finisher takes the job's attempts from. */
  function Seen(st: State, ev: Event): Job
    requires Enabled(st, ev) && ev.Finish?
  {
    if ev.read.Fresh? then st.jobs[PcOf(st, ev.slot).job] else PcOf(st, ev.slot).seen
  }

  /** A failing finisher puts the job back for a retry. */
  predicate Requeues(st: State, ev: Event, j: JobId)
    requires Enabled(st, ev)
  {
    && Ends(st, ev, j) && !Succeeds(PcOf(st, ev.slot).verdict) && Seen(st, ev).lockedBy == Some(ev.slot)
    && Next(st, ev).jobs[j].status == Queued
  }

  function RetryAt(st: State, ev: Event): Instant
    requires Enabled(st, ev) && ev.Finish?
  {
    ev.now + BackoffSeconds(Seen(st, ev).attempts) * SECOND
  }

  /** The event looks for a job before this time, if it looks for one at all. */
  predicate LooksBefore(ev: Event, time: Instant) {
    ev.Claim? || ev.Select? ==> ev.now < time
  }

  /** The job rests: nobody has chosen it, and nobody may before `time`. */
  ghost predicate Rests(st: State, j: JobId, attempts: nat, time: Instant) {
    && j in st.jobs && st.jobs[j].status in {Queued, Cancelled} && st.jobs[j].attempts == attempts
    && (forall t :: t < time ==> !Eligible(st.jobs[j], t))
    && (forall s :: PcOf(st, s) != Selected(j))
  }

  lemma RestStep(st: State, ev: Event, j: JobId, attempts: nat, time: Instant)
    requires Rests(st, j, attempts, time) && Enabled(st, ev) && !Ends(st, ev, j) && LooksBefore(ev, time)
    ensures Rests(Next(st, ev), j, attempts, time)
  {
    var next := Next(st, ev);
    assert !Claims(st, ev, j);
    RestingRow(st, ev, j);
    forall t | t < time
      ensures !Eligible(next.jobs[j], t)
    {
      assert !Eligible(st.jobs[j], t);
    }
    forall s
      ensures PcOf(next, s) != Selected(j)
    {
      assert PcOf(st, s) != Selected(j);
    }
  }

  lemma RestingRow(st: State, ev: Event, j: JobId)
    requires Enabled(st, ev) && j in st.jobs && st.jobs[j].status in {Queued, Cancelled}
    requires !Claims(st, ev, j) && !Ends(st, ev, j)
    ensures j in Next(st, ev).jobs
    ensures Next(st, ev).jobs[j] == if ev.Cancel? && ev.job == j then CancelRow(st.jobs[j], ev.now) else st.jobs[j]
  {
  }

  lemma {:induction false} RestRun(st: State, run: seq<Event>, j: JobId, attempts: nat, time: Instant)
    requires Rests(st, j, attempts, time) && Legal(st, run) && NoFinisher(st, run, j)
    requires forall ev :: ev in run ==> LooksBefore(ev, time)
    ensures Rests(Exec(st, run), j, attempts, time)
    decreases |run|
  {
    if run != [] {
      assert run[0] in run;
      RestStep(st, run[0], j, attempts, time);
      RestRun(Next(st, run[0]), run[1..], j, attempts, time);
    }
  }

  lemma RequeuedRow(st: State, ev: Event, j: JobId, t: Instant)
    requires Enabled(st, ev) && Requeues(st, ev, j)
    ensures Eligible(Next(st, ev).jobs[j], t) <==> RetryAt(st, ev) <= t
    ensures Next(st, ev).jobs[j].lockedBy == None && Next(st, ev).jobs[j].attempts == st.jobs[j].attempts
  {
  }

  /** No run starts the job again before the time unless its slots look for jobs after it. */
  ghost predicate WaitsFor(st: State, j: JobId, attempts: nat, time: Instant) {
    forall run :: Legal(st, run) && NoFinisher(st, run, j) && (forall ev :: ev in run ==> LooksBefore(ev, time)) ==>
      StillWaits(Exec(st, run), j, attempts)
  }

  predicate StillWaits(st: State, j: JobId, attempts: nat) {
    j in st.jobs && st.jobs[j].status in {Queued, Cancelled} && st.jobs[j].attempts == attempts
  }

  /** The backoff, exactly: after a failure the next attempt waits it out in every run, if and
      only if no slot has chosen the job before and not yet taken it. Such a slot takes it
      at once: the guard of its UPDATE is the status alone. */
  lemma BackoffIsKeptExactlyWhen(st: State, ev: Event, j: JobId)
    requires Enabled(st, ev) && Requeues(st, ev, j)
    ensures WaitsFor(Next(st, ev), j, st.jobs[j].attempts, RetryAt(st, ev))
       <==> forall s :: PcOf(Next(st, ev), s) != Selected(j)
  {
    var next, attempts, time := Next(st, ev), st.jobs[j].attempts, RetryAt(st, ev);
    RequeuedRow(st, ev, j, time);
    if forall s :: PcOf(next, s) != Selected(j) {
      forall t | t < time
        ensures !Eligible(next.jobs[j], t)
      {
        RequeuedRow(st, ev, j, t);
      }
      forall run | Legal(next, run) && NoFinisher(next, run, j) && (forall e :: e in run ==> LooksBefore(e, time))
        ensures StillWaits(Exec(next, run), j, attempts)
      {
        RestRun(next, run, j, attempts, time);
      }
    } else {
      var s :| PcOf(next, s) == Selected(j);
      TakenAtOnce(next, j, s, attempts, time);
    }
  }

  lemma TakenAtOnce(st: State, j: JobId, s: SlotId, attempts: nat, time: Instant)
    requires PcOf(st, s) == Selected(j) && j in st.jobs && st.jobs[j].status == Queued
    ensures !WaitsFor(st, j, attempts, time)
  {
    var run := [TakeSelected(s, time)];
    assert run[1..] == [] && Legal(st, run) && NoFinisher(st, run, j);
    assert !StillWaits(Exec(st, run), j, attempts);
  }

  // ---------------------------------------------------------------- what a row says

  /** What never changes, and what a finished row says about itself. */
  ghost predicate SaysSo(row: Job, priority: int, maxAttempts: int) {
    && row.priority == priority && row.maxAttempts == maxAttempts
    && 0 <= row.progressPercent <= 100
    && (row.status.IsTerminal() ==> row.finishedAt.Some?)
    && (row.status == Succeeded ==> row.progressPercent == 100 && row.errorCode == None)
  }

  lemma StepSaysSo(st: State, ev: Event, j: JobId, priority: int, maxAttempts: int)
    requires Enabled(st, ev) && j in st.jobs && SaysSo(st.jobs[j], priority, maxAttempts)
    ensures j in Next(st, ev).jobs && SaysSo(Next(st, ev).jobs[j], priority, maxAttempts)
  {
  }

  lemma {:induction false} RunSaysSo(st: State, run: seq<Event>, j: JobId, priority: int, maxAttempts: int)
    requires Legal(st, run) && j in st.jobs && SaysSo(st.jobs[j], priority, maxAttempts)
    ensures j in Exec(st, run).jobs && SaysSo(Exec(st, run).jobs[j], priority, maxAttempts)
    decreases |run|
  {
    if run != [] {
      StepSaysSo(st, run[0], j, priority, maxAttempts);
      RunSaysSo(Next(st, run[0]), run[1..], j, priority, maxAttempts);
    }
  }

  /** From its enqueueing on, in every run, a job keeps its priority and its budget, shows a
      progress from 0 to 100, has an end time when it has ended, and shows 100 and no
      error when it succeeded. */
  lemma EnqueuedJobsSaySo(st: State, ev: Event, run: seq<Event>)
    requires Enabled(st, ev) && ev.Enqueue? && Legal(Next(st, ev), run)
    ensures Eligible(Next(st, ev).jobs[ev.job], ev.now)
    ensures var end := Exec(Next(st, ev), run);
            ev.job in end.jobs && SaysSo(end.jobs[ev.job], ev.priority, ev.maxAttempts)
  {
    RunSaysSo(Next(st, ev), run, ev.job, ev.priority, ev.maxAttempts);
  }
}

/** The job table of queue.py: one row function per UPDATE, and the class whose
    methods run those updates in place. */
module Queue {
  import opened Prelude

  type JobId = nat
  type SlotId = nat

  const BACKOFF_BASE_SECONDS: nat := 30
  const MAX_BACKOFF_SECONDS: nat := 900

  datatype Status = Queued | Running | Succeeded | Failed | Cancelled {
    predicate IsTerminal() {
      Succeeded? || Failed? || Cancelled?
    }
  }

  datatype Job = Job(
    status: Status,
    priority: int,
    attempts: nat,
    maxAttempts: int,
    scheduledAt: Instant,
    lockedBy: Option<SlotId>,
    leaseExpiresAt: Option<Instant>,
    progressPercent: int,
    finishedAt: Option<Instant>,
    errorCode: Option<string>)

  type Table = map<JobId, Job>

  // ---------------------------------------------------------------- rows

  function NewJob(priority: int, maxAttempts: int, now: Instant): Job {
    Job(Queued, priority, 0, maxAttempts, now, None, None, 0, None, None)
  }

  predicate Eligible(job: Job, now: Instant) {
    job.status == Queued && job.scheduledAt <= now
  }

  /** ORDER BY priority ASC, scheduled_at ASC; ties are left to the database. */
  predicate NotAfter(a: Job, b: Job) {
    a.priority < b.priority || (a.priority == b.priority && a.scheduledAt <= b.scheduledAt)
  }

  /** No job of a smaller number waits behind, and none of the same number that is due
      earlier. */
  predicate InLine(first: Job, other: Job) {
    first.priority <= other.priority && (first.priority == other.priority ==> first.scheduledAt <= other.scheduledAt)
  }

  predicate Expired(job: Job, now: Instant) {
    job.status == Running && job.leaseExpiresAt.Some? && job.leaseExpiresAt.value < now
  }

  function ClaimRow(job: Job, worker: SlotId, leaseUntil: Instant): Job {
    job.(status := Running, lockedBy := Some(worker), leaseExpiresAt := Some(leaseUntil), attempts := job.attempts + 1)
  }

  predicate Holds(job: Job, worker: SlotId) {
    job.status == Running && job.lockedBy == Some(worker)
  }

  function HeartbeatRow(job: Job, worker: SlotId, leaseUntil: Instant, percent: Option<int>): Job {
    if Holds(job, worker) then
      job.(leaseExpiresAt := Some(leaseUntil),
           progressPercent := if percent.Some? then Max(0, Min(100, percent.value)) else job.progressPercent)
    else
      job
  }

  /** The guard is the lock alone: neither the status nor the lease is looked at,
      and the lock is kept. */
  function CompleteRow(job: Job, worker: SlotId, now: Instant): Job {
    if job.lockedBy == Some(worker) then
      job.(status := Succeeded, finishedAt := Some(now), progressPercent := 100, leaseExpiresAt := None,
           errorCode := None)
    else
      job
  }

  /** 2 ** (attempts - 1) is one half when no attempt was counted. */
  function BackoffSeconds(attempts: nat): nat {
    if attempts == 0 then BACKOFF_BASE_SECONDS / 2
    else Min(BACKOFF_BASE_SECONDS * Pow2(attempts - 1), MAX_BACKOFF_SECONDS)
  }

  predicate RetriesAfter(seen: Job, retryable: bool) {
    retryable && seen.attempts < seen.maxAttempts
  }

  function FailTarget(seen: Job, retryable: bool): Status {
    if RetriesAfter(seen, retryable) then Queued else Failed
  }

  /** What fail_job leaves in the committed row `job` when its session reads the
      job as `seen`: guard, attempt count and maximum come from `seen`, and only
      assigned columns that differ from `seen` are written: an error code that is already
      there in the copy stays unwritten. A fresh read is `seen == job`. */
  function FailRow(job: Job, seen: Job, worker: SlotId, code: string, retryable: bool, now: Instant): Job {
    if seen.lockedBy != Some(worker) then job
    else if RetriesAfter(seen, retryable) then
      job.(status := Queued, scheduledAt := now + BackoffSeconds(seen.attempts) * SECOND,
           lockedBy := None, leaseExpiresAt := None, errorCode := Assigned(job.errorCode, seen.errorCode, Some(code)))
    else
      job.(status := Failed, finishedAt := Some(now), lockedBy := None, leaseExpiresAt := None,
           errorCode := Assigned(job.errorCode, seen.errorCode, Some(code)))
  }

  function ReapRow(job: Job, now: Instant): Job {
    if !Expired(job, now) then job
    else if job.attempts < job.maxAttempts then
      job.(status := Queued, lockedBy := None, leaseExpiresAt := None, scheduledAt := now)
    else
      job.(status := Failed, lockedBy := None, leaseExpiresAt := None, finishedAt := Some(now),
           errorCode := Some("lease_expired"))
  }

  function CancelRow(job: Job, now: Instant): Job {
    if job.status == Queued then job.(status := Cancelled, finishedAt := Some(now)) else job
  }

  // ---------------------------------------------------------------- row laws

  /** How lock and lease go with the status. complete_job keeps the lock, so a
      succeeded row still names its slot. */
  predicate RowShape(job: Job) {
    && (job.status == Running <==> job.leaseExpiresAt.Some?)
    && (job.status in {Running, Succeeded} <==> job.lockedBy.Some?)
    && (job.status == Running ==> job.attempts >= 1)
  }

  /** The number of claims a row can take. enqueue accepts any max_attempts, and
      even a row allowed none is claimed once. */
  function Budget(job: Job): nat {
    Max(job.maxAttempts, 1)
  }

  predicate WithinBudget(job: Job) {
    && job.attempts <= Budget(job)
    && (job.status in {Queued, Cancelled} ==> job.attempts < Budget(job))
  }

  /** How many status changes a row can still see. */
  function Life(job: Job): int {
    if job.status.IsTerminal() then 0
    else 2 * (Budget(job) - job.attempts) + (if job.status == Running then 1 else 0)
  }

  /** The wait before a retry starts at the base, doubles with every attempt and
      never passes the cap. */
  lemma {:induction false} BackoffDoublesUpToTheCap(attempts: nat)
    requires attempts >= 1
    ensures BackoffSeconds(0) == 15 && BackoffSeconds(1) == 30
    ensures BackoffSeconds(attempts) <= BackoffSeconds(attempts + 1) <= 900
    ensures BackoffSeconds(attempts + 1) == Min(2 * BackoffSeconds(attempts), 900)
    ensures attempts >= 6 <==> BackoffSeconds(attempts) == 900
  {
    if attempts >= 6 {
      Pow2AtLeast32(attempts - 1);
    } else {
      assert Pow2(1) == 2 && Pow2(2) == 4 && Pow2(3) == 8 && Pow2(4) == 16 && Pow2(5) == 32;
    }
  }

  lemma {:induction false} Pow2AtLeast32(k: nat)
    requires k >= 5
    ensures Pow2(k) >= 32
  {
    if k == 5 {
      assert Pow2(2) == 4 && Pow2(5) == 32;
    } else {
      Pow2AtLeast32(k - 1);
    }
  }

  /** Among finitely many rows some row comes first in the claim order. */
  lemma {:induction false} FirstRowExists(jobs: Table, ids: set<JobId>)
    requires ids != {} && ids <= jobs.Keys
    ensures exists id :: id in ids && forall other :: other in ids ==> NotAfter(jobs[id], jobs[other])
  {
    var x :| x in ids;
    var rest := ids - {x};
    if rest == {} {
      assert forall other :: other in ids ==> other in rest || other == x;
      assert x in ids && forall other :: other in ids ==> NotAfter(jobs[x], jobs[other]);
    } else {
      FirstRowExists(jobs, rest);
      var y :| y in rest && forall other :: other in rest ==> NotAfter(jobs[y], jobs[other]);
      var first := if NotAfter(jobs[x], jobs[y]) then x else y;
      assert forall other :: other in ids ==> other == x || other in rest;
      assert first in ids && forall other :: other in ids ==> NotAfter(jobs[first], jobs[other]);
    }
  }

  // ---------------------------------------------------------------- the table

  class JobQueue {
    var jobs: Table

    constructor ()
      ensures jobs == map[]
    {
      jobs := map[];
    }

    /** The table as a transaction finds it. */
    constructor Over(rows: Table)
      ensures jobs == rows
    {
      jobs := rows;
    }

    method Enqueue(id: JobId, priority: int, maxAttempts: int, now: Instant)
      requires id !in jobs
      modifies this
      ensures jobs == old(jobs)[id := NewJob(priority, maxAttempts, now)]
      ensures RowShape(jobs[id]) && WithinBudget(jobs[id]) && Life(jobs[id]) == 2 * Max(maxAttempts, 1)
      ensures jobs[id].priority == priority && forall t :: Eligible(jobs[id], t) <==> now <= t
    {
      var job := Job(Queued, priority, 0, maxAttempts, now, None, None, 0, None, None);
      jobs := jobs[id := job];
    }

    /** The single-statement claim. `skipped` are the rows other transactions
        hold locked at that moment (SKIP LOCKED). */
    method ClaimJob(worker: SlotId, leaseSeconds: int, now: Instant, skipped: set<JobId>)
      returns (claimed: Option<JobId>)
      modifies this
      ensures claimed.None? ==> jobs == old(jobs)
      ensures claimed.None? <==> forall id :: id in old(jobs) && id !in skipped ==> !Eligible(old(jobs)[id], now)
      ensures claimed.Some? ==>
                var id := claimed.value;
                && id in old(jobs) && id !in skipped && Eligible(old(jobs)[id], now)
                && (forall other :: other in old(jobs) && other !in skipped && Eligible(old(jobs)[other], now)
                      ==> NotAfter(old(jobs)[id], old(jobs)[other]) && InLine(old(jobs)[id], old(jobs)[other]))
                && jobs == old(jobs)[id := ClaimRow(old(jobs)[id], worker, now + leaseSeconds * SECOND)]
    {
      var due := set id | id in jobs && id !in skipped && Eligible(jobs[id], now);
      if due == {} {
        claimed := None;
        assert forall id :: id in jobs && id !in skipped && Eligible(jobs[id], now) ==> id in due;
        return;
      }
      FirstRowExists(jobs, due);
      var id :| id in due && forall other :: other in due ==> NotAfter(jobs[id], jobs[other]);
      var row := jobs[id];
      row := row.(status := Running);
      row := row.(lockedBy := Some(worker));
      row := row.(leaseExpiresAt := Some(now + leaseSeconds * SECOND));
      row := row.(attempts := row.attempts + 1);
      jobs := jobs[id := row];
      claimed := Some(id);
    }

    /** The two-statement claim, first half: read a candidate. */
    method SelectCandidate(now: Instant) returns (candidate: Option<JobId>)
      ensures candidate.None? <==> forall id :: id in jobs ==> !Eligible(jobs[id], now)
      ensures candidate.Some? ==>
                && candidate.value in jobs && Eligible(jobs[candidate.value], now)
                && forall other :: other in jobs && Eligible(jobs[other], now)
                     ==> NotAfter(jobs[candidate.value], jobs[other]) && InLine(jobs[candidate.value], jobs[other])
    {
      var due := set id | id in jobs && Eligible(jobs[id], now);
      if due == {} {
        assert forall id :: id in jobs && Eligible(jobs[id], now) ==> id in due;
        return None;
      }
      FirstRowExists(jobs, due);
      var id :| id in due && forall other :: other in due ==> NotAfter(jobs[id], jobs[other]);
      return Some(id);
    }

    /** Second half: take the candidate if it is still queued. */
    method ClaimCandidate(id: JobId, worker: SlotId, leaseUntil: Instant) returns (claimed: bool)
      modifies this
      ensures claimed == (id in old(jobs) && old(jobs)[id].status == Queued)
      ensures jobs == if claimed then old(jobs)[id := ClaimRow(old(jobs)[id], worker, leaseUntil)] else old(jobs)
    {
      claimed := id in jobs && jobs[id].status == Queued;
      if claimed {
        var row := jobs[id];
        jobs := jobs[id := row.(attempts := row.attempts + 1, status := Running, lockedBy := Some(worker),
                                leaseExpiresAt := Some(leaseUntil))];
      }
    }

    method Heartbeat(id: JobId, worker: SlotId, leaseUntil: Instant, percent: Option<int>) returns (alive: bool)
      modifies this
      ensures alive == (id in old(jobs) && Holds(old(jobs)[id], worker))
      ensures jobs == if id in old(jobs)
                      then old(jobs)[id := HeartbeatRow(old(jobs)[id], worker, leaseUntil, percent)] else old(jobs)
      ensures alive ==> jobs[id].leaseExpiresAt == Some(leaseUntil)
      ensures alive && percent.Some? ==>
                && 0 <= jobs[id].progressPercent <= 100
                && (0 <= percent.value <= 100 ==> jobs[id].progressPercent == percent.value)
    {
      alive := id in jobs && jobs[id].lockedBy == Some(worker) && jobs[id].status == Running;
      if alive {
        var row := jobs[id].(leaseExpiresAt := Some(leaseUntil));
        if percent.Some? {
          row := row.(progressPercent := Max(0, Min(100, percent.value)));
        }
        jobs := jobs[id := row];
      } else {
        assert id in jobs ==> jobs[id := jobs[id]] == jobs;
      }
    }

    method CompleteJob(id: JobId, worker: SlotId, now: Instant)
      modifies this
      ensures jobs == if id in old(jobs) then old(jobs)[id := CompleteRow(old(jobs)[id], worker, now)] else old(jobs)
    {
      if id in jobs && jobs[id].lockedBy == Some(worker) {
        var row := jobs[id].(status := Succeeded, finishedAt := Some(now), progressPercent := 100);
        jobs := jobs[id := row.(leaseExpiresAt := None, errorCode := None)];
      } else {
        assert id in jobs ==> jobs[id := jobs[id]] == jobs;
      }
    }

    /** `seen` is the job as the calling session holds it. */
    method FailJob(id: JobId, seen: Job, worker: SlotId, code: string, retryable: bool, now: Instant)
      returns (willRetry: bool)
      modifies this
      ensures id !in old(jobs) ==> jobs == old(jobs) && !willRetry
      ensures id in old(jobs) ==>
                && jobs == old(jobs)[id := FailRow(old(jobs)[id], seen, worker, code, retryable, now)]
                && willRetry == (seen.lockedBy == Some(worker) && RetriesAfter(seen, retryable))
    {
      if id !in jobs {
        return false;
      }
      if seen.lockedBy != Some(worker) {
        assert jobs[id := jobs[id]] == jobs;
        return false;
      }
      willRetry := retryable && seen.attempts < seen.maxAttempts;
      var row := jobs[id];
      if willRetry {
        row := row.(status := Queued, scheduledAt := now + BackoffSeconds(seen.attempts) * SECOND);
        row := row.(lockedBy := None, leaseExpiresAt := None);
      } else {
        row := row.(status := Failed, finishedAt := Some(now));
        row := row.(leaseExpiresAt := None, lockedBy := None);
      }
      if seen.errorCode != Some(code) {
        row := row.(errorCode := Some(code));
      }
      jobs := jobs[id := row];
    }

    /** Two UPDATEs, one after the other; together they treat every row once. */
    method ReapExpiredLeases(now: Instant) returns (requeued: nat)
      modifies this
      ensures jobs == map id | id in old(jobs) :: ReapRow(old(jobs)[id], now)
      ensures requeued == |set id | id in old(jobs) && old(jobs)[id].status == Running && jobs[id].status == Queued|
      ensures forall id :: id in jobs ==> !Expired(jobs[id], now)
    {
      var hit := set id | id in jobs && Expired(jobs[id], now) && jobs[id].attempts < jobs[id].maxAttempts;
      jobs := map id | id in jobs ::
        if id in hit then
          jobs[id].(status := Queued, lockedBy := None, leaseExpiresAt := None, scheduledAt := now)
        else jobs[id];
      requeued := |hit|;
      jobs := map id | id in jobs ::
        if Expired(jobs[id], now) && jobs[id].attempts >= jobs[id].maxAttempts then
          jobs[id].(status := Failed, lockedBy := None, leaseExpiresAt := None, finishedAt := Some(now),
                    errorCode := Some("lease_expired"))
        else jobs[id];
      assert hit == set id | id in old(jobs) && old(jobs)[id].status == Running && jobs[id].status == Queued;
    }

    method CancelJob(id: JobId, now: Instant) returns (cancelled: bool)
      modifies this
      ensures cancelled == (id in old(jobs) && old(jobs)[id].status == Queued)
      ensures jobs == if id in old(jobs) then old(jobs)[id := CancelRow(old(jobs)[id], now)] else old(jobs)
      ensures cancelled ==> jobs[id].status == Cancelled && jobs[id].finishedAt == Some(now)
    {
      cancelled := id in jobs && jobs[id].status == Queued;
      if cancelled {
        jobs := jobs[id := jobs[id].(status := Cancelled, finishedAt := Some(now))];
      } else {
        assert id in jobs ==> jobs[id := jobs[id]] == jobs;
      }
    }
  }
}

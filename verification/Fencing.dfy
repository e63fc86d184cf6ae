/** Which slot may move a job, and when a job stops moving: over every interleaving of
    claims, heartbeats, finishers, reaper passes, cancellations, aborts and crashes. */
module Fencing {
  import opened Prelude
  import opened Queue
  import opened WorkerProtocol

  ghost predicate Moves(st: State, ev: Event, j: JobId)
    requires Enabled(st, ev)
  {
    j in st.jobs && Next(st, ev).jobs[j].status != st.jobs[j].status
  }

  /** The slot made the latest claim of the job, and still runs under it. */
  predicate OwnsLatestClaim(st: State, s: SlotId, j: JobId) {
    && j in st.jobs && j in st.owner && st.owner[j] == s
    && st.jobs[j].status == Running
    && PcOf(st, s).On(j) && PcOf(st, s).epoch == st.jobs[j].attempts
  }

  /** What fencing asks of one event: a finisher that changes the status of a job
      belongs to the slot of the latest claim. */
  ghost predicate Fenced(st: State, ev: Event)
    requires Enabled(st, ev)
  {
    ev.Finish? ==> forall j | Moves(st, ev, j) :: OwnsLatestClaim(st, ev.slot, j)
  }

  /** The same for one job. */
  ghost predicate FencedOn(st: State, ev: Event, j: JobId)
    requires Enabled(st, ev)
  {
    ev.Finish? && Moves(st, ev, j) ==> OwnsLatestClaim(st, ev.slot, j)
  }

  ghost predicate AlwaysFenced(st: State, run: seq<Event>, j: JobId)
    requires Legal(st, run)
    decreases |run|
  {
    run == [] || (FencedOn(st, run[0], j) && AlwaysFenced(Next(st, run[0]), run[1..], j))
  }

  // ---------------------------------------------------------------- which events matter

  predicate Claims(st: State, ev: Event, j: JobId)
    requires Enabled(st, ev)
  {
    && j in st.jobs
    && (|| (ev.Claim? && ev.job == j)
        || (ev.TakeSelected? && PcOf(st, ev.slot).candidate == j && st.jobs[j].status == Queued))
  }

  predicate Ends(st: State, ev: Event, j: JobId)
    requires Enabled(st, ev)
  {
    ev.Finish? && PcOf(st, ev.slot).job == j
  }

  predicate SameStanding(a: Job, b: Job) {
    a.status == b.status && a.attempts == b.attempts && a.maxAttempts == b.maxAttempts && a.lockedBy == b.lockedBy
  }

  /** Status, attempts and lock of a job change by its claims and finishers, by the
      reaper and by a cancellation, and by nothing else. */
  lemma OtherEventsLeaveTheJob(st: State, ev: Event, j: JobId)
    requires Enabled(st, ev) && j in st.jobs
    requires !Claims(st, ev, j) && !Ends(st, ev, j) && !ev.Reap? && !(ev.Cancel? && ev.job == j)
    ensures j in Next(st, ev).jobs && SameStanding(Next(st, ev).jobs[j], st.jobs[j])
  {
  }

  lemma ClaimedRow(st: State, ev: Event, j: JobId)
    requires Enabled(st, ev) && Claims(st, ev, j)
    ensures st.jobs[j].status == Queued && j in Next(st, ev).jobs
    ensures Next(st, ev).jobs[j] == ClaimRow(st.jobs[j], ev.slot, ev.leaseUntil)
  {
  }

  lemma EndedRow(st: State, ev: Event, j: JobId)
    requires Enabled(st, ev) && Ends(st, ev, j)
    ensures j in st.jobs && j in Next(st, ev).jobs
    ensures Next(st, ev).jobs[j] == FinishedRow(st, ev.slot, ev.code, ev.now, ev.read)
  {
  }

  // ---------------------------------------------------------------- reachability

  /** What the row guards and the slot program keep together in every run, whatever
      fail_job reads. */
  lemma RowsOfReachableStates(supported: iset<Path>, run: seq<Event>, j: JobId)
    requires Legal(Init(supported), run)
    requires j in Exec(Init(supported), run).jobs
    ensures var st := Exec(Init(supported), run);
            var row := st.jobs[j];
            && (row.status == Running <==> row.leaseExpiresAt.Some?)
            && (row.status in {Running, Succeeded} <==> row.lockedBy.Some?)
            && (row.status == Running ==> row.attempts >= 1)
            && (row.lockedBy.Some? ==> j in st.owner && row.lockedBy == Some(st.owner[j]))
  {
    RunKeepsShape(Init(supported), run);
    assert JobShape(Exec(Init(supported), run), j);
  }

  lemma StepKeepsBudget(st: State, ev: Event, j: JobId)
    requires Shape(st) && Enabled(st, ev) && FencedOn(st, ev, j)
    requires j in st.jobs && WithinBudget(st.jobs[j])
    ensures j in Next(st, ev).jobs && WithinBudget(Next(st, ev).jobs[j])
  {
    assert JobShape(st, j);
    if Claims(st, ev, j) {
      ClaimedRow(st, ev, j);
    } else if Ends(st, ev, j) {
      SlotShapeOf(st, ev.slot);
      EndedRow(st, ev, j);
    } else if !ev.Reap? && !ev.Cancel? {
      OtherEventsLeaveTheJob(st, ev, j);
    }
  }

  lemma {:induction false} RunKeepsBudget(st: State, run: seq<Event>, j: JobId)
    requires Shape(st) && Legal(st, run) && AlwaysFenced(st, run, j)
    requires j in st.jobs ==> WithinBudget(st.jobs[j])
    ensures j in Exec(st, run).jobs ==> WithinBudget(Exec(st, run).jobs[j])
    decreases |run|
  {
    if run != [] {
      StepKeepsShape(st, run[0]);
      if j in st.jobs {
        StepKeepsBudget(st, run[0], j);
      }
      RunKeepsBudget(Next(st, run[0]), run[1..], j);
    }
  }

  /** As long as the finishers of a job are fenced, it is queued only with attempts left
      and runs only within them. */
  lemma AttemptsOfFencedJobs(supported: iset<Path>, run: seq<Event>, j: JobId)
    requires Legal(Init(supported), run) && AlwaysFenced(Init(supported), run, j)
    requires j in Exec(Init(supported), run).jobs
    ensures var row := Exec(Init(supported), run).jobs[j];
            && row.attempts <= Max(row.maxAttempts, 1)
            && (row.status == Queued ==> row.attempts < Max(row.maxAttempts, 1))
  {
    RunKeepsBudget(Init(supported), run, j);
  }

  // ---------------------------------------------------------------- fencing

  lemma OwnerOfLock(st: State, s: SlotId, j: JobId)
    requires Shape(st) && PcOf(st, s).On(j) && j in st.jobs && st.jobs[j].lockedBy == Some(s)
    ensures OwnsLatestClaim(st, s, j)
  {
    SlotShapeOf(st, s);
  }

  /** A successful finisher is fenced in every reachable state, whatever fail_job
      reads elsewhere: its UPDATE tests the committed lock, and a slot that still
      holds the lock inside an attempt holds it under the latest claim. */
  lemma CompletionIsFenced(supported: iset<Path>, run: seq<Event>, ev: Event)
    requires Legal(Init(supported), run)
    requires Enabled(Exec(Init(supported), run), ev)
    requires ev.Finish? && Succeeds(PcOf(Exec(Init(supported), run), ev.slot).verdict)
    ensures Fenced(Exec(Init(supported), run), ev)
  {
    var st := Exec(Init(supported), run);
    RunKeepsShape(Init(supported), run);
    forall j | Moves(st, ev, j)
      ensures OwnsLatestClaim(st, ev.slot, j)
    {
      assert j == PcOf(st, ev.slot).job;
      OwnerOfLock(st, ev.slot, j);
    }
  }

  /** A heartbeat that finds its job alive was sent by the slot of the latest
      claim. */
  lemma HeartbeatIsFenced(supported: iset<Path>, run: seq<Event>, s: SlotId)
    requires Legal(Init(supported), run)
    requires var st := Exec(Init(supported), run);
             PcOf(st, s).InAttempt() && PcOf(st, s).job in st.jobs && Holds(st.jobs[PcOf(st, s).job], s)
    ensures OwnsLatestClaim(Exec(Init(supported), run), s, PcOf(Exec(Init(supported), run), s).job)
  {
    RunKeepsShape(Init(supported), run);
    OwnerOfLock(Exec(Init(supported), run), s, PcOf(Exec(Init(supported), run), s).job);
  }

  lemma SafeStepsAreFenced(st: State, ev: Event)
    requires Shape(st) && Enabled(st, ev) && Safe(st, ev)
    ensures Fenced(st, ev)
  {
    if ev.Finish? {
      forall j | Moves(st, ev, j)
        ensures OwnsLatestClaim(st, ev.slot, j)
      {
        assert j == PcOf(st, ev.slot).job;
        OwnerOfLock(st, ev.slot, j);
      }
    }
  }

  /** What a failing finisher would write is what is there already. */
  predicate WritesWhatIsThere(st: State, ev: Event)
    requires ev.Finish? && Enabled(st, ev)
  {
    var pc := PcOf(st, ev.slot);
    st.jobs[pc.job].status == FailTarget(pc.seen, MayRetry(pc.verdict))
  }

  /** Fencing, exactly: after any run a finisher changes a status only under the latest
      claim if and only if it agrees with the committed lock or writes the status that is
      there already. */
  lemma FinishersAreFencedExactlyWhen(supported: iset<Path>, run: seq<Event>, ev: Event)
    requires Legal(Init(supported), run)
    requires Enabled(Exec(Init(supported), run), ev) && ev.Finish?
    ensures var st := Exec(Init(supported), run);
            Fenced(st, ev) <==> Safe(st, ev) || WritesWhatIsThere(st, ev)
  {
    RunKeepsShape(Init(supported), run);
    FencedExactlyWhen(Exec(Init(supported), run), ev);
  }

  lemma FencedExactlyWhen(st: State, ev: Event)
    requires Shape(st) && Enabled(st, ev) && ev.Finish?
    ensures Fenced(st, ev) <==> Safe(st, ev) || WritesWhatIsThere(st, ev)
  {
    var pc := PcOf(st, ev.slot);
    if Safe(st, ev) {
      SafeStepsAreFenced(st, ev);
    } else if !WritesWhatIsThere(st, ev) {
      assert JobShape(st, pc.job);
      assert Moves(st, ev, pc.job);
      assert !OwnsLatestClaim(st, ev.slot, pc.job);
    }
  }

  /** Runs whose failing finishers read the committed lock are fenced throughout. */
  lemma {:induction false} CommittedReadsAreFenced(st: State, run: seq<Event>, j: JobId)
    requires Shape(st) && Legal(st, run) && AllSafe(st, run)
    ensures AlwaysFenced(st, run, j)
    decreases |run|
  {
    if run != [] {
      SafeStepsAreFenced(st, run[0]);
      StepKeepsShape(st, run[0]);
      CommittedReadsAreFenced(Next(st, run[0]), run[1..], j);
    }
  }

  /** With the session's stale copy the fence can break, and this is exactly when
      it holds: the copy does not name the slot, or the committed row still does,
      or the status written is the one already there. */
  lemma StaleFailureIsFencedExactlyWhen(supported: iset<Path>, run: seq<Event>, ev: Event)
    requires Legal(Init(supported), run)
    requires Enabled(Exec(Init(supported), run), ev)
    requires ev.Finish? && ev.read.Cached? && !Succeeds(PcOf(Exec(Init(supported), run), ev.slot).verdict)
    ensures var st := Exec(Init(supported), run);
            var pc := PcOf(st, ev.slot);
            var row := st.jobs[pc.job];
            Fenced(st, ev) <==>
              || pc.seen.lockedBy != Some(ev.slot)
              || row.lockedBy == Some(ev.slot)
              || row.status == FailTarget(pc.seen, MayRetry(pc.verdict))
  {
    FinishersAreFencedExactlyWhen(supported, run, ev);
  }

  // ---------------------------------------------------------------- absorption

  /** A failure decided on the session's old copy that overwrites another status. */
  predicate Overwrites(st: State, ev: Event, j: JobId)
    requires Enabled(st, ev)
  {
    && ev.Finish? && ev.read.Cached? && PcOf(st, ev.slot).job == j && !Succeeds(PcOf(st, ev.slot).verdict)
    && PcOf(st, ev.slot).seen.lockedBy == Some(ev.slot) && !WritesWhatIsThere(st, ev)
  }

  /** The only way out of a terminal status. */
  lemma TerminalMovesExactlyWhen(st: State, ev: Event, j: JobId)
    requires Shape(st) && Enabled(st, ev) && j in st.jobs && st.jobs[j].status.IsTerminal()
    ensures Moves(st, ev, j) <==> Overwrites(st, ev, j)
  {
    assert JobShape(st, j);
    if Ends(st, ev, j) {
      SlotShapeOf(st, ev.slot);
      EndedRow(st, ev, j);
    } else if Claims(st, ev, j) {
      ClaimedRow(st, ev, j);
      assert false;
    } else if !ev.Reap? && !ev.Cancel? {
      OtherEventsLeaveTheJob(st, ev, j);
    }
  }

  ghost predicate KeepsStatus(st: State, run: seq<Event>, j: JobId, status: Status)
    requires Legal(st, run)
    decreases |run|
  {
    && j in st.jobs && st.jobs[j].status == status
    && (run == [] || KeepsStatus(Next(st, run[0]), run[1..], j, status))
  }

  ghost predicate NeverOverwritten(st: State, run: seq<Event>, j: JobId)
    requires Legal(st, run)
    decreases |run|
  {
    run == [] || (!Overwrites(st, run[0], j) && NeverOverwritten(Next(st, run[0]), run[1..], j))
  }

  /** Absorption, exactly: SUCCEEDED, FAILED or CANCELLED stays at every step of a run if
      and only if no stale failure overwrites it. */
  lemma {:induction false} TerminalStatusIsFinalExactlyWhen(st: State, run: seq<Event>, j: JobId)
    requires Shape(st) && Legal(st, run) && j in st.jobs && st.jobs[j].status.IsTerminal()
    ensures KeepsStatus(st, run, j, st.jobs[j].status) <==> NeverOverwritten(st, run, j)
    decreases |run|
  {
    if run != [] {
      StepKeepsShape(st, run[0]);
      TerminalMovesExactlyWhen(st, run[0], j);
      if !Moves(st, run[0], j) {
        TerminalStatusIsFinalExactlyWhen(Next(st, run[0]), run[1..], j);
      }
    }
  }

  /** The same, from the empty database: for a terminal status reached at the end of
      `before`, and every continuation. */
  lemma TerminalStatusIsFinalInRuns(supported: iset<Path>, before: seq<Event>, after: seq<Event>, j: JobId)
    requires Legal(Init(supported), before)
    requires Legal(Exec(Init(supported), before), after)
    requires var mid := Exec(Init(supported), before); j in mid.jobs && mid.jobs[j].status.IsTerminal()
    ensures var mid := Exec(Init(supported), before);
            KeepsStatus(mid, after, j, mid.jobs[j].status) <==> NeverOverwritten(mid, after, j)
    ensures AllSafe(Exec(Init(supported), before), after) ==>
              NeverOverwritten(Exec(Init(supported), before), after, j)
  {
    RunKeepsShape(Init(supported), before);
    TerminalStatusIsFinalExactlyWhen(Exec(Init(supported), before), after, j);
    if AllSafe(Exec(Init(supported), before), after) {
      CommittedReadsNeverOverwrite(Exec(Init(supported), before), after, j);
    }
  }

  lemma {:induction false} CommittedReadsNeverOverwrite(st: State, run: seq<Event>, j: JobId)
    requires Shape(st) && Legal(st, run) && AllSafe(st, run) && j in st.jobs && st.jobs[j].status.IsTerminal()
    ensures NeverOverwritten(st, run, j)
    decreases |run|
  {
    if run != [] {
      SafeStepsAreFenced(st, run[0]);
      StepKeepsShape(st, run[0]);
      TerminalMovesExactlyWhen(st, run[0], j);
      CommittedReadsNeverOverwrite(Next(st, run[0]), run[1..], j);
    }
  }

  // ---------------------------------------------------------------- the stale copy

  // The configured lease, and the times of the reaper, the user and the late slot.
  const LEASE: Instant := 900_000_000
  const SWEPT: Instant := 960_000_000
  const WITHDRAWN: Instant := 970_000_000
  const REPORTED: Instant := 980_000_000

  const REAPED: seq<Event> := [Enqueue(0, 100, 3, 0), Claim(1, 0, 0, LEASE), Load(1), Raise(1, false), Reap(SWEPT),
                               Cancel(0, WITHDRAWN)]

  function Row(status: Status, attempts: nat, holder: Option<SlotId>, lease: Option<Instant>): Job {
    Job(status, 100, attempts, 3, if status == Running then 0 else SWEPT, holder, lease, 0, None, None)
  }

  const HELD: Job := Row(Running, 1, Some(1), Some(LEASE))

  function Snapshot(row: Job, pc: Pc): State {
    State(map[0 := row], map[1 := pc], map[0 := 1], [], iset{})
  }

  const LATE: Pc := Ending(0, 1, HELD, Raised(false))
  const CANCELLED: Job := Row(Cancelled, 1, None, None).(finishedAt := Some(WITHDRAWN))

  lemma TheSlotClaims()
    ensures Enabled(Init(iset{}), REAPED[0])
    ensures var s1 := Next(Init(iset{}), REAPED[0]);
            Enabled(s1, REAPED[1]) && Next(s1, REAPED[1]) == Snapshot(HELD, Claimed(0, 1))
  {
    var s2 := Next(Next(Init(iset{}), REAPED[0]), REAPED[1]);
    assert s2.jobs == map[0 := HELD] && s2.slots == map[1 := Claimed(0, 1)] && s2.owner == map[0 := 1];
  }

  lemma TheSlotFails()
    ensures var s2, s3 := Snapshot(HELD, Claimed(0, 1)), Snapshot(HELD, Loaded(0, 1, HELD));
            && Enabled(s2, REAPED[2]) && Next(s2, REAPED[2]) == s3
            && Enabled(s3, REAPED[3]) && Next(s3, REAPED[3]) == Snapshot(HELD, LATE)
  {
    var s2, s3 := Snapshot(HELD, Claimed(0, 1)), Snapshot(HELD, Loaded(0, 1, HELD));
    assert Next(s2, REAPED[2]).slots == s3.slots && Next(s3, REAPED[3]).slots == map[1 := LATE];
  }

  lemma TheJobIsCancelled()
    ensures var s4, s5 := Snapshot(HELD, LATE), Snapshot(Row(Queued, 1, None, None), LATE);
            && Enabled(s4, REAPED[4]) && Next(s4, REAPED[4]) == s5
            && Enabled(s5, REAPED[5]) && Next(s5, REAPED[5]) == Snapshot(CANCELLED, LATE)
  {
    var s4, s5 := Snapshot(HELD, LATE), Snapshot(Row(Queued, 1, None, None), LATE);
    assert Next(s4, REAPED[4]).jobs == s5.jobs && Next(s5, REAPED[5]).jobs == map[0 := CANCELLED];
  }

  /** A slot claims the job, its attempt fails, its lease expires, and the user cancels
      the requeued job, all before the slot gets to report the failure. */
  lemma CancelledBehindTheSlot()
    ensures Legal(Init(iset{}), REAPED) && Exec(Init(iset{}), REAPED) == Snapshot(CANCELLED, LATE)
  {
    TheSlotClaims();
    TheSlotFails();
    TheJobIsCancelled();
    Unroll(Init(iset{}), REAPED, 6,
           [Next(Init(iset{}), REAPED[0]), Snapshot(HELD, Claimed(0, 1)), Snapshot(HELD, Loaded(0, 1, HELD)),
            Snapshot(HELD, LATE), Snapshot(Row(Queued, 1, None, None), LATE), Snapshot(CANCELLED, LATE)]);
  }

  /** A run is timely if these are the times between its events. */
  lemma {:induction false} TimelyBy(run: seq<Event>, times: seq<Instant>, lease: Instant)
    requires |times| == |run| + 1
    requires forall i :: 0 <= i < |run| ==> times[i] <= times[i + 1] == TimeOf(run[i], times[i], lease)
    requires forall i :: 0 <= i < |run| && run[i].Claim? ==> run[i].leaseUntil == run[i].now + lease
    ensures Timely(run, times[0], times[|run|], lease)
    decreases |run|
  {
    if run != [] {
      TimelyBy(run[1..], times[1..], lease);
    }
  }

  /** All of it on one clock, under a full lease. */
  lemma TheRunIsTimely(last: Event)
    requires last.Finish? && last.now == REPORTED
    ensures Timely(REAPED + [last], 0, REPORTED, LEASE)
  {
    TimelyBy(REAPED + [last], [0, 0, 0, 0, 0, SWEPT, WITHDRAWN, REPORTED], LEASE);
  }

  /** Fence and absorption both fail under stale reads: the slot now turns CANCELLED into
      FAILED, on a claim that was taken from it. */
  lemma StaleFailureOverturnsCancellation()
    ensures Legal(Init(iset{}), REAPED)
    ensures Timely(REAPED + [Finish(1, "validation_error", REPORTED, Cached)], 0, REPORTED, LEASE)
    ensures var st, last := Exec(Init(iset{}), REAPED), Finish(1, "validation_error", REPORTED, Cached);
            && Enabled(st, last) && !Fenced(st, last) && Overwrites(st, last, 0)
            && 0 in st.jobs && st.jobs[0].status == Cancelled && Next(st, last).jobs[0].status == Failed
  {
    CancelledBehindTheSlot();
    var st, last := Exec(Init(iset{}), REAPED), Finish(1, "validation_error", REPORTED, Cached);
    assert Moves(st, last, 0);
    TheRunIsTimely(last);
  }

  /** A run executed state by state. */
  lemma {:induction false} Unroll(st: State, run: seq<Event>, n: nat, states: seq<State>)
    requires |run| == |states| == n
    requires n > 0 ==> Enabled(st, run[0]) && states[0] == Next(st, run[0])
    requires forall i :: 1 <= i < n ==> Enabled(states[i - 1], run[i]) && states[i] == Next(states[i - 1], run[i])
    ensures Legal(st, run) && Exec(st, run) == if n == 0 then st else states[n - 1]
    decreases n
  {
    if n > 0 {
      Unroll(states[0], run[1..], n - 1, states[1..]);
    }
  }
}

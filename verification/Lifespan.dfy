/** For how long a job can move: how often its status changes and how often it is claimed,
    in every run, and in the runs whose finishers are fenced. */
module Lifespan {
  import opened Prelude
  import opened Queue
  import opened WorkerProtocol
  import opened Fencing

  ghost function StatusChanges(st: State, run: seq<Event>, j: JobId): nat
    requires Legal(st, run)
    decreases |run|
  {
    if run == [] then 0
    else (if Moves(st, run[0], j) then 1 else 0) + StatusChanges(Next(st, run[0]), run[1..], j)
  }

  // ---------------------------------------------------------------- every run

  function OnJob(st: State, j: JobId): set<SlotId> {
    set s | s in st.slots && st.slots[s].On(j)
  }

  /** The slots on the job whose failure can still requeue it. */
  function Early(st: State, j: JobId): set<SlotId>
    requires j in st.jobs
  {
    set s | s in OnJob(st, j) && st.slots[s].epoch < st.jobs[j].maxAttempts
  }

  function ClaimsAhead(row: Job): nat {
    Max(Budget(row) - 1 - row.attempts, 0)
  }

  /** What the row itself can still cost, in half status changes. */
  function Standing(row: Job): nat {
    match row.status
    case Queued => 5
    case Running => if row.attempts < row.maxAttempts then 7 else 2
    case Succeeded => 1
    case Cancelled => 1
    case Failed => 0
  }

  /** Half status changes still possible: a claim within the budget brings at most eleven,
      a slot at work one more, and six on top if it can requeue. */
  function Span(st: State, j: JobId): nat
    requires j in st.jobs
  {
    Standing(st.jobs[j]) + 11 * ClaimsAhead(st.jobs[j]) + |OnJob(st, j)| + 6 * |Early(st, j)|
  }

  /** Claims still possible: a requeue allows one each, and an attempt within the budget
      can be requeued twice, by the reaper and by its own late failure. */
  function ClaimsLeft(st: State, j: JobId): nat
    requires j in st.jobs
  {
    var row := st.jobs[j];
    (if row.status == Queued then 1 else 0) + (if row.status == Running && row.attempts < row.maxAttempts then 1 else 0)
    + 2 * ClaimsAhead(row) + |Early(st, j)|
  }

  lemma {:induction false} SubsetSize(a: set<SlotId>, b: set<SlotId>)
    requires a <= b
    ensures |a| <= |b|
  {
    if a != {} {
      var x :| x in a;
      SubsetSize(a - {x}, b - {x});
    }
  }

  lemma SlotOnlyLeaves(st: State, ev: Event, j: JobId, s: SlotId)
    requires Enabled(st, ev) && j in st.jobs && !Claims(st, ev, j) && PcOf(Next(st, ev), s).On(j)
    ensures PcOf(st, s).On(j) && PcOf(st, s).epoch == PcOf(Next(st, ev), s).epoch
    ensures !(Ends(st, ev, j) && ev.slot == s)
  {
  }

  lemma SlotsOnlyLeave(st: State, ev: Event, j: JobId)
    requires Enabled(st, ev) && j in st.jobs && !Claims(st, ev, j)
    ensures OnJob(Next(st, ev), j) <= OnJob(st, j)
    ensures forall s :: s in OnJob(Next(st, ev), j) ==> Next(st, ev).slots[s].epoch == st.slots[s].epoch
    ensures Ends(st, ev, j) ==> ev.slot in OnJob(st, j) && ev.slot !in OnJob(Next(st, ev), j)
  {
    var next := Next(st, ev);
    forall s | s in OnJob(next, j)
      ensures s in OnJob(st, j) && next.slots[s].epoch == st.slots[s].epoch && !(Ends(st, ev, j) && ev.slot == s)
    {
      SlotOnlyLeaves(st, ev, j, s);
    }
  }

  lemma ClaimAddsItsSlot(st: State, ev: Event, j: JobId)
    requires Enabled(st, ev) && Claims(st, ev, j)
    ensures ev.slot !in OnJob(st, j) && OnJob(Next(st, ev), j) == OnJob(st, j) + {ev.slot}
    ensures Next(st, ev).slots[ev.slot].epoch == st.jobs[j].attempts + 1
    ensures forall s :: s in OnJob(st, j) ==> Next(st, ev).slots[s] == st.slots[s]
  {
  }

  lemma FewerSlots(st: State, next: State, j: JobId)
    requires j in st.jobs && j in next.jobs && next.jobs[j].maxAttempts == st.jobs[j].maxAttempts
    requires OnJob(next, j) <= OnJob(st, j)
    requires forall s :: s in OnJob(next, j) ==> next.slots[s].epoch == st.slots[s].epoch
    ensures |OnJob(next, j)| <= |OnJob(st, j)| && |Early(next, j)| <= |Early(st, j)|
  {
    SubsetSize(OnJob(next, j), OnJob(st, j));
    SubsetSize(Early(next, j), Early(st, j));
  }

  lemma OneSlotFewer(st: State, next: State, j: JobId, left: SlotId)
    requires j in st.jobs && j in next.jobs && next.jobs[j].maxAttempts == st.jobs[j].maxAttempts
    requires OnJob(next, j) <= OnJob(st, j) && left in OnJob(st, j) && left !in OnJob(next, j)
    requires forall s :: s in OnJob(next, j) ==> next.slots[s].epoch == st.slots[s].epoch
    ensures |OnJob(next, j)| < |OnJob(st, j)| && |Early(next, j)| <= |Early(st, j)|
    ensures left in Early(st, j) ==> |Early(next, j)| < |Early(st, j)|
  {
    SubsetSize(OnJob(next, j), OnJob(st, j) - {left});
    SubsetSize(Early(next, j), Early(st, j) - {left});
  }

  lemma OneSlotMore(st: State, next: State, j: JobId, entered: SlotId)
    requires j in st.jobs && j in next.jobs && next.jobs[j].maxAttempts == st.jobs[j].maxAttempts
    requires entered !in OnJob(st, j) && OnJob(next, j) == OnJob(st, j) + {entered}
    requires forall s :: s in OnJob(st, j) ==> next.slots[s] == st.slots[s]
    ensures |OnJob(next, j)| == |OnJob(st, j)| + 1
    ensures |Early(next, j)| == |Early(st, j)| + (if next.slots[entered].epoch < st.jobs[j].maxAttempts then 1 else 0)
  {
    if next.slots[entered].epoch < st.jobs[j].maxAttempts {
      assert Early(next, j) == Early(st, j) + {entered};
    } else {
      assert Early(next, j) == Early(st, j);
    }
  }

  /** What a finisher does to the row, and that a requeue comes from an early slot. */
  lemma EndOfAttempt(st: State, ev: Event, j: JobId)
    requires Shape(st) && Enabled(st, ev) && Ends(st, ev, j)
    ensures j in st.jobs && j in Next(st, ev).jobs
    ensures Wanes(st.jobs[j], Next(st, ev).jobs[j], PcOf(st, ev.slot).epoch < st.jobs[j].maxAttempts)
  {
    EndedRow(st, ev, j);
    SlotShapeOf(st, ev.slot);
  }

  /** A step in which nothing is claimed: rows and slots before and after. */
  predicate Wanes(before: Job, after: Job, early: bool) {
    && after.attempts == before.attempts && after.maxAttempts == before.maxAttempts
    && (|| after.status == before.status
        || (after.status == Succeeded && before.status == Running)
        || after.status == Failed
        || (after.status == Queued && early))
  }

  lemma ClaimSpends(st: State, next: State, j: JobId, s: SlotId, leaseUntil: Instant)
    requires j in st.jobs && j in next.jobs && st.jobs[j].status == Queued
    requires next.jobs[j] == ClaimRow(st.jobs[j], s, leaseUntil)
    requires |OnJob(next, j)| == |OnJob(st, j)| + 1
    requires |Early(next, j)| == |Early(st, j)| + (if next.jobs[j].attempts < st.jobs[j].maxAttempts then 1 else 0)
    ensures Span(next, j) + 2 <= Span(st, j)
    ensures next.jobs[j].attempts + ClaimsLeft(next, j) <= st.jobs[j].attempts + ClaimsLeft(st, j)
  {
  }

  lemma EndSpends(st: State, next: State, j: JobId, early: bool)
    requires j in st.jobs && j in next.jobs && Wanes(st.jobs[j], next.jobs[j], early)
    requires |OnJob(next, j)| < |OnJob(st, j)| && |Early(next, j)| <= |Early(st, j)|
    requires early ==> |Early(next, j)| < |Early(st, j)|
    ensures Span(next, j) + (if next.jobs[j].status != st.jobs[j].status then 2 else 0) <= Span(st, j)
    ensures next.jobs[j].attempts + ClaimsLeft(next, j) <= st.jobs[j].attempts + ClaimsLeft(st, j)
  {
  }

  /** Over any step a job's span pays two halves for every change of its status, and its
      claims are paid from the claims left. */
  lemma EveryChangeCostsSpan(st: State, ev: Event, j: JobId)
    requires Shape(st) && Enabled(st, ev) && j in st.jobs
    ensures j in Next(st, ev).jobs && Next(st, ev).jobs[j].maxAttempts == st.jobs[j].maxAttempts
    ensures Span(Next(st, ev), j) + (if Moves(st, ev, j) then 2 else 0) <= Span(st, j)
    ensures Next(st, ev).jobs[j].attempts + ClaimsLeft(Next(st, ev), j) <= st.jobs[j].attempts + ClaimsLeft(st, j)
  {
    if Claims(st, ev, j) {
      ClaimedRow(st, ev, j);
      ClaimAddsItsSlot(st, ev, j);
      OneSlotMore(st, Next(st, ev), j, ev.slot);
      ClaimSpends(st, Next(st, ev), j, ev.slot, ev.leaseUntil);
    } else if Ends(st, ev, j) {
      EndOfAttempt(st, ev, j);
      SlotsOnlyLeave(st, ev, j);
      OneSlotFewer(st, Next(st, ev), j, ev.slot);
      EndSpends(st, Next(st, ev), j, PcOf(st, ev.slot).epoch < st.jobs[j].maxAttempts);
    } else {
      QuietStepCostsNothing(st, ev, j);
    }
  }

  /** The reaper, a cancellation, and every event that concerns other jobs or no row. */
  lemma QuietStepCostsNothing(st: State, ev: Event, j: JobId)
    requires Shape(st) && Enabled(st, ev) && j in st.jobs && !Claims(st, ev, j) && !Ends(st, ev, j)
    ensures j in Next(st, ev).jobs && Next(st, ev).jobs[j].maxAttempts == st.jobs[j].maxAttempts
    ensures Span(Next(st, ev), j) + (if Moves(st, ev, j) then 2 else 0) <= Span(st, j)
    ensures Next(st, ev).jobs[j].attempts + ClaimsLeft(Next(st, ev), j) <= st.jobs[j].attempts + ClaimsLeft(st, j)
  {
    if !ev.Reap? && !(ev.Cancel? && ev.job == j) {
      OtherEventsLeaveTheJob(st, ev, j);
    }
    SlotsOnlyLeave(st, ev, j);
    FewerSlots(st, Next(st, ev), j);
  }

  lemma NewJobSpan(st: State, ev: Event)
    requires Shape(st) && Enabled(st, ev) && ev.Enqueue?
    ensures Span(Next(st, ev), ev.job) == 11 * Max(ev.maxAttempts, 1) - 6
    ensures ClaimsLeft(Next(st, ev), ev.job) == 2 * Max(ev.maxAttempts, 1) - 1
  {
    forall s | s in st.slots
      ensures !st.slots[s].On(ev.job)
    {
      SlotShapeOf(st, s);
    }
    assert OnJob(Next(st, ev), ev.job) == {} && Early(Next(st, ev), ev.job) == {};
  }

  lemma {:induction false} SpanBoundsChanges(st: State, run: seq<Event>, j: JobId)
    requires Shape(st) && Legal(st, run) && j in Exec(st, run).jobs
    ensures j in st.jobs ==>
              && Exec(st, run).jobs[j].maxAttempts == st.jobs[j].maxAttempts
              && 2 * StatusChanges(st, run, j) <= Span(st, j)
              && Exec(st, run).jobs[j].attempts <= st.jobs[j].attempts + ClaimsLeft(st, j)
    ensures j !in st.jobs ==>
              var budget := Max(Exec(st, run).jobs[j].maxAttempts, 1);
              2 * StatusChanges(st, run, j) <= 11 * budget - 6 && Exec(st, run).jobs[j].attempts <= 2 * budget - 1
    decreases |run|
  {
    if run != [] {
      StepKeepsShape(st, run[0]);
      SpanBoundsChanges(Next(st, run[0]), run[1..], j);
      if j in st.jobs {
        EveryChangeCostsSpan(st, run[0], j);
      } else if run[0].Enqueue? && run[0].job == j {
        NewJobSpan(st, run[0]);
      }
    }
  }

  /** The life of a job is bounded in every run, whatever `fail_job` reads: with a budget
      of b attempts at most (11b - 6) / 2 status changes and 2b - 1 claims. */
  lemma EveryJobEnds(supported: iset<Path>, run: seq<Event>, j: JobId)
    requires Legal(Init(supported), run) && j in Exec(Init(supported), run).jobs
    ensures var row := Exec(Init(supported), run).jobs[j];
            && 2 * StatusChanges(Init(supported), run, j) <= 11 * Max(row.maxAttempts, 1) - 6
            && row.attempts <= 2 * Max(row.maxAttempts, 1) - 1
  {
    SpanBoundsChanges(Init(supported), run, j);
  }

  // ---------------------------------------------------------------- fenced runs

  /** A fenced status change costs the job at least one unit of its life. */
  lemma StatusChangeCostsLife(st: State, ev: Event, j: JobId)
    requires Shape(st) && Enabled(st, ev) && FencedOn(st, ev, j) && j in st.jobs && WithinBudget(st.jobs[j])
    ensures j in Next(st, ev).jobs && Budget(Next(st, ev).jobs[j]) == Budget(st.jobs[j])
    ensures Life(Next(st, ev).jobs[j]) + (if Moves(st, ev, j) then 1 else 0) <= Life(st.jobs[j])
  {
    assert JobShape(st, j);
    if Claims(st, ev, j) {
      ClaimedRow(st, ev, j);
    } else if Ends(st, ev, j) {
      SlotShapeOf(st, ev.slot);
      EndOfAttempt(st, ev, j);
    } else if !ev.Reap? && !ev.Cancel? {
      OtherEventsLeaveTheJob(st, ev, j);
    }
  }

  lemma {:induction false} LifeBoundsChanges(st: State, run: seq<Event>, j: JobId)
    requires Shape(st) && Legal(st, run) && AlwaysFenced(st, run, j) && j in Exec(st, run).jobs
    requires j in st.jobs ==> WithinBudget(st.jobs[j])
    ensures j in st.jobs ==>
              && Budget(Exec(st, run).jobs[j]) == Budget(st.jobs[j])
              && StatusChanges(st, run, j) + Life(Exec(st, run).jobs[j]) <= Life(st.jobs[j])
    ensures j !in st.jobs ==>
              StatusChanges(st, run, j) + Life(Exec(st, run).jobs[j]) <= 2 * Budget(Exec(st, run).jobs[j])
    decreases |run|
  {
    if run != [] {
      StepKeepsShape(st, run[0]);
      if j in st.jobs {
        StepKeepsBudget(st, run[0], j);
        StatusChangeCostsLife(st, run[0], j);
      }
      LifeBoundsChanges(Next(st, run[0]), run[1..], j);
    }
  }

  /** While its finishers are fenced a job changes status at most twice per allowed attempt. */
  lemma FencedJobLifeIsBounded(supported: iset<Path>, run: seq<Event>, j: JobId)
    requires Legal(Init(supported), run) && AlwaysFenced(Init(supported), run, j)
    requires j in Exec(Init(supported), run).jobs
    ensures StatusChanges(Init(supported), run, j) <= 2 * Max(Exec(Init(supported), run).jobs[j].maxAttempts, 1)
  {
    LifeBoundsChanges(Init(supported), run, j);
    RunKeepsBudget(Init(supported), run, j);
  }

  /** With a budget of one attempt there is nothing for a stale failure to overwrite. */
  lemma OneAttemptIsFenced(st: State, ev: Event, j: JobId)
    requires Shape(st) && Enabled(st, ev) && j in st.jobs && WithinBudget(st.jobs[j]) && st.jobs[j].maxAttempts <= 1
    ensures FencedOn(st, ev, j)
  {
    if Ends(st, ev, j) {
      assert JobShape(st, j);
      SlotShapeOf(st, ev.slot);
      FencedExactlyWhen(st, ev);
    }
  }

  lemma {:induction false} OneAttemptRunsAreFenced(st: State, run: seq<Event>, j: JobId)
    requires Shape(st) && Legal(st, run) && j in Exec(st, run).jobs && Exec(st, run).jobs[j].maxAttempts <= 1
    requires j in st.jobs ==> WithinBudget(st.jobs[j])
    ensures AlwaysFenced(st, run, j)
    decreases |run|
  {
    if run != [] {
      SpanBoundsChanges(st, run, j);
      StepKeepsShape(st, run[0]);
      if j in st.jobs {
        OneAttemptIsFenced(st, run[0], j);
        StepKeepsBudget(st, run[0], j);
      }
      OneAttemptRunsAreFenced(Next(st, run[0]), run[1..], j);
    }
  }

  // ---------------------------------------------------------------- the bound is reached

  /** A legal, timely run with n status changes of job 0. */
  ghost predicate Shows(st: State, run: seq<Event>, n: nat, from: Instant, to: Instant, lease: Instant) {
    Legal(st, run) && StatusChanges(st, run, 0) == n && Timely(run, from, to, lease)
  }

  lemma {:induction false} RunsJoin(st: State, a: seq<Event>, b: seq<Event>, n: nat, m: nat, from: Instant,
                                    mid: Instant, to: Instant, lease: Instant)
    requires Shows(st, a, n, from, mid, lease) && Shows(Exec(st, a), b, m, mid, to, lease)
    ensures Shows(st, a + b, n + m, from, to, lease) && Exec(st, a + b) == Exec(Exec(st, a), b)
    decreases |a|
  {
    if a == [] {
      assert a + b == b;
      EarlierStart(b, from, mid, to, lease);
    } else {
      var here := if Moves(st, a[0], 0) then 1 else 0;
      RunsJoin(Next(st, a[0]), a[1..], b, n - here, m, TimeOf(a[0], from, lease), mid, to, lease);
      assert (a + b)[1..] == a[1..] + b;
    }
  }

  lemma {:induction false} EarlierStart(run: seq<Event>, from: Instant, mid: Instant, to: Instant, lease: Instant)
    requires from <= mid && Timely(run, mid, to, lease)
    ensures Timely(run, from, to, lease)
    decreases |run|
  {
    if run != [] && TimeOf(run[0], from, lease) <= TimeOf(run[0], mid, lease) {
      EarlierStart(run[1..], TimeOf(run[0], from, lease), TimeOf(run[0], mid, lease), to, lease);
    }
  }

  lemma OneEvent(st: State, ev: Event, from: Instant, to: Instant, lease: Instant)
    requires Enabled(st, ev) && from <= TimeOf(ev, from, lease) <= to
    requires ev.Claim? ==> ev.leaseUntil == ev.now + lease
    ensures Shows(st, [ev], if Moves(st, ev, 0) then 1 else 0, from, to, lease) && Exec(st, [ev]) == Next(st, ev)
  {
    assert [ev][1..] == [];
  }

  /** A slot that has failed and not said so: it will requeue the job if its attempt was
      not the last one allowed, else fail it. */
  predicate Late(st: State, k: SlotId, m: int) {
    var pc := PcOf(st, k);
    && pc.Ending? && pc.job == 0 && pc.verdict == Raised(true)
    && pc.seen.lockedBy == Some(k) && pc.seen.attempts == k && pc.seen.maxAttempts == m
  }

  /** Job 0 with its attempts, each made by a slot of its own, some of which are late. */
  ghost predicate Scene(st: State, m: int, status: Status, attempts: nat, late: set<SlotId>) {
    && 0 in st.jobs && st.jobs[0].status == status && st.jobs[0].attempts == attempts && st.jobs[0].maxAttempts == m
    && (forall k :: k in late ==> k <= attempts && Late(st, k, m))
    && (forall k :: k in st.slots && k > attempts ==> st.slots[k] == Idle)
    && (forall p: Path :: p in st.supported)
    && (forall d :: d in st.documents ==> |d.path| <= attempts)
  }

  ghost predicate Waits(st: State, m: int, attempts: nat, late: set<SlotId>, at: Instant) {
    Scene(st, m, Queued, attempts, late) && st.jobs[0].scheduledAt <= at
  }

  /** The slot of the current attempt has loaded the job. */
  ghost predicate Works(st: State, m: int, s: nat, late: set<SlotId>, leaseUntil: Instant) {
    && s >= 1 && s !in late && Scene(st, m, Running, s, late)
    && st.jobs[0].lockedBy == Some(s) && st.jobs[0].leaseExpiresAt == Some(leaseUntil)
    && PcOf(st, s) == Loaded(0, s, st.jobs[0])
    && forall d :: d in st.documents ==> |d.path| < s
  }

  lemma NextAttempt(st: State, m: int, attempts: nat, late: set<SlotId>, at: Instant, lease: Instant)
    returns (run: seq<Event>)
    requires Waits(st, m, attempts, late, at) && lease >= SECOND
    ensures Shows(st, run, 1, at, at, lease)
    ensures Works(Exec(st, run), m, attempts + 1, late, at + lease)
  {
    var s := attempts + 1;
    var claim := Claim(s, 0, at, at + lease);
    OneEvent(st, claim, at, at, lease);
    var st1 := Next(st, claim);
    assert st1.jobs[0] == ClaimRow(st.jobs[0], s, at + lease) && PcOf(st1, s) == Claimed(0, s);
    OneEvent(st1, Load(s), at, at, lease);
    RunsJoin(st, [claim], [Load(s)], 1, 0, at, at, at, lease);
    run := [claim] + [Load(s)];
  }

  /** The attempt fails, and its lease runs out before it is reported. */
  lemma FailAndReap(st: State, m: int, s: nat, late: set<SlotId>, at: Instant, lease: Instant)
    returns (run: seq<Event>)
    requires Works(st, m, s, late, at + lease) && lease >= SECOND
    ensures Shows(st, run, 1, at, at + lease + 1, lease)
    ensures Scene(Exec(st, run), m, if s < m then Queued else Failed, s, late + {s})
    ensures s < m ==> Waits(Exec(st, run), m, s, late + {s}, at + lease + 1)
  {
    var fails, reap := Raise(s, true), Reap(at + lease + 1);
    AttemptRaises(st, m, s, late, at + lease);
    OneEvent(st, fails, at, at, lease);
    var st1 := Next(st, fails);
    AttemptIsReaped(st1, m, s, late + {s}, at + lease);
    OneEvent(st1, reap, at, at + lease + 1, lease);
    RunsJoin(st, [fails], [reap], 0, 1, at, at, at + lease + 1, lease);
    run := [fails] + [reap];
  }

  lemma AttemptRaises(st: State, m: int, s: nat, late: set<SlotId>, leaseUntil: Instant)
    requires Works(st, m, s, late, leaseUntil)
    ensures Enabled(st, Raise(s, true)) && !Moves(st, Raise(s, true), 0)
    ensures var next := Next(st, Raise(s, true));
            Scene(next, m, Running, s, late + {s}) && next.jobs[0].leaseExpiresAt == Some(leaseUntil)
  {
    var next := Next(st, Raise(s, true));
    assert Late(next, s, m) && next.jobs == st.jobs;
  }

  lemma AttemptIsReaped(st: State, m: int, s: nat, late: set<SlotId>, leaseUntil: Instant)
    requires Scene(st, m, Running, s, late) && st.jobs[0].leaseExpiresAt == Some(leaseUntil)
    ensures var next := Next(st, Reap(leaseUntil + 1));
            && Scene(next, m, if s < m then Queued else Failed, s, late)
            && (s < m ==> Waits(next, m, s, late, leaseUntil + 1))
  {
    var next := Next(st, Reap(leaseUntil + 1));
    assert next.slots == st.slots && next.jobs[0] == ReapRow(st.jobs[0], leaseUntil + 1);
  }

  /** The slot has stored its one file and holds the job. */
  ghost predicate Done(st: State, m: int, s: nat, late: set<SlotId>) {
    && s !in late && Scene(st, m, Running, s, late) && st.jobs[0].lockedBy == Some(s)
    && PcOf(st, s).Looping? && PcOf(st, s).job == 0
    && PcOf(st, s).loop.index == |PcOf(st, s).loop.files| && PcOf(st, s).loop.created == 1
  }

  /** The slot has its one file in the pipeline, and no document of that path exists. */
  ghost predicate Writes(st: State, m: int, s: nat, late: set<SlotId>) {
    && s !in late && Scene(st, m, Running, s, late) && st.jobs[0].lockedBy == Some(s)
    && PcOf(st, s).Piping? && PcOf(st, s).job == 0
    && |PcOf(st, s).loop.files| == 1 && |PcOf(st, s).loop.files[0]| == s
    && PcOf(st, s).loop.index == PcOf(st, s).loop.created == 0
    && forall d :: d in st.documents ==> |d.path| < s
  }

  lemma ReachTheFile(st: State, m: int, s: nat, late: set<SlotId>, at: Instant, lease: Instant)
    returns (run: seq<Event>)
    requires Works(st, m, s, late, at + lease) && lease >= SECOND
    ensures Shows(st, run, 0, at, at, lease) && Writes(Exec(st, run), m, s, late)
  {
    var path: Path := seq(s, i => 'a');
    var begins, beats := Begin(s, [path]), Beat(s, at + lease);
    OneEvent(st, begins, at, at, lease);
    var st1 := Next(st, begins);
    OneEvent(st1, beats, at, at, lease);
    assert PcOf(Next(st1, beats), s) == Piping(0, s, st.jobs[0], Loop([path], 0, 0, Paths(st.documents, 0), {}));
    RunsJoin(st, [begins], [beats], 0, 0, at, at, at, lease);
    run := [begins] + [beats];
  }

  lemma StoreOneFile(st: State, m: int, s: nat, late: set<SlotId>, at: Instant, lease: Instant)
    returns (run: seq<Event>)
    requires Works(st, m, s, late, at + lease) && lease >= SECOND
    ensures Shows(st, run, 0, at, at, lease) && Done(Exec(st, run), m, s, late)
  {
    var reaches := ReachTheFile(st, m, s, late, at, lease);
    var st1 := Exec(st, reaches);
    OneEvent(st1, Commit(s), at, at, lease);
    RunsJoin(st, reaches, [Commit(s)], 0, 0, at, at, at, lease);
    run := reaches + [Commit(s)];
  }

  lemma ReportSuccess(st: State, m: int, s: nat, late: set<SlotId>, at: Instant, lease: Instant)
    returns (run: seq<Event>)
    requires Done(st, m, s, late)
    ensures Shows(st, run, 1, at, at, lease) && Scene(Exec(st, run), m, Succeeded, s, late)
  {
    var ends := Finish(s, "", at, Fresh);
    OneEvent(st, EndLoop(s), at, at, lease);
    OneEvent(Next(st, EndLoop(s)), ends, at, at, lease);
    RunsJoin(st, [EndLoop(s)], [ends], 0, 1, at, at, at, lease);
    run := [EndLoop(s)] + [ends];
  }

  /** The attempt documents a file of its own and completes the job. */
  lemma Complete(st: State, m: int, s: nat, late: set<SlotId>, at: Instant, lease: Instant)
    returns (run: seq<Event>)
    requires Works(st, m, s, late, at + lease) && lease >= SECOND
    ensures Shows(st, run, 1, at, at, lease) && Scene(Exec(st, run), m, Succeeded, s, late)
  {
    var stores := StoreOneFile(st, m, s, late, at, lease);
    var ends := ReportSuccess(Exec(st, stores), m, s, late, at, lease);
    RunsJoin(st, stores, ends, 0, 1, at, at, at, lease);
    run := stores + ends;
  }

  /** A late slot reports its failure: an early one requeues the job, any other fails it. */
  lemma LateReport(st: State, m: int, status: Status, attempts: nat, late: set<SlotId>, k: SlotId, at: Instant,
                   lease: Instant)
    returns (run: seq<Event>)
    requires Scene(st, m, status, attempts, late) && k in late && k >= 1
    requires status != if k < m then Queued else Failed
    ensures Shows(st, run, 1, at, at, lease)
    ensures k < m ==> Waits(Exec(st, run), m, attempts, late - {k}, at + BackoffSeconds(k) * SECOND)
    ensures k >= m ==> Scene(Exec(st, run), m, Failed, attempts, late - {k})
  {
    var report := Finish(k, "internal_error", at, Cached);
    OneEvent(st, report, at, at, lease);
    run := [report];
  }

  /** An attempt that ends behind its lease: two changes, and one late slot more. */
  lemma LostAttempt(st: State, m: int, attempts: nat, late: set<SlotId>, at: Instant, lease: Instant)
    returns (run: seq<Event>)
    requires Waits(st, m, attempts, late, at) && lease >= SECOND
    ensures Shows(st, run, 2, at, at + lease + 1, lease)
    ensures var s := attempts + 1;
            && Scene(Exec(st, run), m, if s < m then Queued else Failed, s, late + {s})
            && (s < m ==> Waits(Exec(st, run), m, s, late + {s}, at + lease + 1))
  {
    var takes := NextAttempt(st, m, attempts, late, at, lease);
    var loses := FailAndReap(Exec(st, takes), m, attempts + 1, late, at, lease);
    RunsJoin(st, takes, loses, 1, 1, at, at, at + lease + 1, lease);
    run := takes + loses;
  }

  /** An attempt that succeeds, and a late failure that overwrites it: three changes, and
      one late slot fewer. */
  lemma OverwrittenAttempt(st: State, m: int, attempts: nat, late: set<SlotId>, k: SlotId, at: Instant, lease: Instant)
    returns (run: seq<Event>)
    requires Waits(st, m, attempts, late, at) && lease >= SECOND && k in late && k >= m && k >= 1
    ensures Shows(st, run, 3, at, at, lease)
    ensures Scene(Exec(st, run), m, Failed, attempts + 1, late - {k})
  {
    var takes := NextAttempt(st, m, attempts, late, at, lease);
    var st1 := Exec(st, takes);
    var succeeds := Complete(st1, m, attempts + 1, late, at, lease);
    var fails := LateReport(Exec(st1, succeeds), m, Succeeded, attempts + 1, late, k, at, lease);
    RunsJoin(st1, succeeds, fails, 1, 1, at, at, at, lease);
    RunsJoin(st, takes, succeeds + fails, 1, 2, at, at, at, lease);
    run := takes + (succeeds + fails);
  }

  predicate IsBetween(i: nat, k: nat, m: int) {
    i <= k < m
  }

  function Between(i: nat, m: int): set<SlotId> {
    set k: nat | k < m && IsBetween(i, k, m)
  }

  /** The attempts that can still be requeued: each is lost to the reaper. */
  lemma {:induction false} EarlyAttempts(st: State, m: int, n: nat, at: Instant, lease: Instant)
    returns (run: seq<Event>, to: Instant)
    requires Waits(st, m, 0, {}, at) && lease >= SECOND && (n == 0 || n < m)
    ensures Shows(st, run, 2 * n, at, to, lease) && Waits(Exec(st, run), m, n, Between(1, n + 1), to)
  {
    if n == 0 {
      NoEarlyAttempt(st, m, at, lease);
      return [], at;
    }
    var before, mid := EarlyAttempts(st, m, n - 1, at, lease);
    run := OneEarlyAttemptMore(st, m, n, before, at, mid, lease);
    to := mid + lease + 1;
  }

  lemma NoEarlyAttempt(st: State, m: int, at: Instant, lease: Instant)
    requires Waits(st, m, 0, {}, at)
    ensures Shows(st, [], 0, at, at, lease) && Waits(Exec(st, []), m, 0, Between(1, 1), at)
  {
    assert Between(1, 1) == {};
  }

  lemma OneEarlyAttemptMore(st: State, m: int, n: nat, before: seq<Event>, at: Instant, mid: Instant, lease: Instant)
    returns (run: seq<Event>)
    requires 0 < n < m && lease >= SECOND && Shows(st, before, 2 * (n - 1), at, mid, lease)
    requires Waits(Exec(st, before), m, n - 1, Between(1, n), mid)
    ensures Shows(st, run, 2 * n, at, mid + lease + 1, lease)
    ensures Waits(Exec(st, run), m, n, Between(1, n + 1), mid + lease + 1)
  {
    var last := LostAttempt(Exec(st, before), m, n - 1, Between(1, n), mid, lease);
    RunsJoin(st, before, last, 2 * (n - 1), 2, at, mid, mid + lease + 1, lease);
    assert Between(1, n) + {n} == Between(1, n + 1);
    run := before + last;
  }

  /** How many changes the last attempts bring when q late slots can requeue the job. */
  function LastChanges(q: nat): nat {
    (7 * q + 5) / 2
  }

  ghost predicate Ended(st: State, m: int, attempts: nat) {
    0 in st.jobs && st.jobs[0].maxAttempts == m && st.jobs[0].attempts == attempts
  }

  /** Attempts in pairs: one is lost to the reaper, a late slot requeues the job, the next
      succeeds, the lost one overwrites it, and another late slot requeues the job. */
  lemma {:induction false} LastAttempts(st: State, m: int, attempts: nat, i: nat, at: Instant, lease: Instant)
    returns (run: seq<Event>, to: Instant)
    requires Waits(st, m, attempts, Between(i, m), at) && lease >= SECOND
    requires attempts + 1 >= m && 1 <= i <= Max(m, 1)
    ensures Shows(st, run, LastChanges(Max(m, 1) - i), at, to, lease)
    ensures Ended(Exec(st, run), m, attempts + 1 + Max(m, 1) - i)
    decreases m - i
  {
    var lost := LostAttempt(st, m, attempts, Between(i, m), at, lease);
    var s, mid := attempts + 1, at + lease + 1;
    if i == Max(m, 1) {
      return lost, mid;
    }
    var rest;
    rest, to := AfterALostOne(Exec(st, lost), m, s, i, mid, lease);
    RunsJoin(st, lost, rest, 2, LastChanges(m - i) - 2, at, mid, to, lease);
    run := lost + rest;
  }

  lemma {:induction false} AfterALostOne(st: State, m: int, s: nat, i: nat, at: Instant, lease: Instant)
    returns (run: seq<Event>, to: Instant)
    requires Scene(st, m, Failed, s, Between(i, m) + {s}) && lease >= SECOND && s >= m && 1 <= i < m
    ensures Shows(st, run, LastChanges(m - i) - 2, at, to, lease) && Ended(Exec(st, run), m, s + m - i)
    decreases m - i, 0
  {
    var late, mid := Between(i, m) + {s} - {i}, at + BackoffSeconds(i) * SECOND;
    var requeues := LateReport(st, m, Failed, s, Between(i, m) + {s}, i, at, lease);
    WaitsBackoff(i);
    var st1 := Exec(st, requeues);
    var pair := OverwrittenAttempt(st1, m, s, late, s, mid, lease);
    EarlierStart([], at, mid, mid, lease);
    LaterEnd(requeues, at, at, mid, lease);
    RunsJoin(st, requeues, pair, 1, 3, at, mid, mid, lease);
    run, to := requeues + pair, mid;
    assert late - {s} == Between(i + 1, m);
    if i + 1 < m {
      var rest, end := AfterAnOverwrittenOne(Exec(st, run), m, s + 1, i + 1, mid, lease);
      RunsJoin(st, run, rest, 4, LastChanges(m - i) - 6, at, mid, end, lease);
      run, to := run + rest, end;
    }
  }

  lemma {:induction false} AfterAnOverwrittenOne(st: State, m: int, s: nat, i: nat, at: Instant, lease: Instant)
    returns (run: seq<Event>, to: Instant)
    requires Scene(st, m, Failed, s, Between(i, m)) && lease >= SECOND && s >= m && 1 <= i < m
    ensures Shows(st, run, 1 + LastChanges(m - i - 1), at, to, lease) && Ended(Exec(st, run), m, s + m - i)
    decreases m - i, 0
  {
    var mid := at + BackoffSeconds(i) * SECOND;
    var requeues := LateReport(st, m, Failed, s, Between(i, m), i, at, lease);
    WaitsBackoff(i);
    LaterEnd(requeues, at, at, mid, lease);
    assert Between(i, m) - {i} == Between(i + 1, m);
    var rest;
    rest, to := LastAttempts(Exec(st, requeues), m, s, i + 1, mid, lease);
    RunsJoin(st, requeues, rest, 1, LastChanges(m - i - 1), at, mid, to, lease);
    run := requeues + rest;
  }

  lemma WaitsBackoff(attempts: nat)
    ensures BackoffSeconds(attempts) * SECOND >= 0
  {
  }

  lemma {:induction false} LaterEnd(run: seq<Event>, from: Instant, mid: Instant, to: Instant, lease: Instant)
    requires Timely(run, from, mid, lease) && mid <= to
    ensures Timely(run, from, to, lease)
    decreases |run|
  {
    if run != [] {
      LaterEnd(run[1..], TimeOf(run[0], from, lease), mid, to, lease);
    }
  }

  ghost const EVERY_PATH: iset<Path> := iset p: Path | |p| >= 0

  lemma ReachTheBound(maxAttempts: int, lease: Instant) returns (run: seq<Event>, to: Instant)
    requires lease >= SECOND
    ensures var start, b := Init(EVERY_PATH), Max(maxAttempts, 1);
            && Shows(start, run, (11 * b - 6) / 2, 0, to, lease)
            && Ended(Exec(start, run), maxAttempts, 2 * b - 1)
  {
    var start, first := Init(EVERY_PATH), Enqueue(0, 100, maxAttempts, 0);
    var b := Max(maxAttempts, 1);
    OneEvent(start, first, 0, 0, lease);
    var st1 := Next(start, first);
    var early, mid := EarlyAttempts(st1, maxAttempts, b - 1, 0, lease);
    var st2 := Exec(st1, early);
    assert Between(1, b) == Between(1, maxAttempts);
    var last, end := LastAttempts(st2, maxAttempts, b - 1, 1, mid, lease);
    RunsJoin(st1, early, last, 2 * (b - 1), LastChanges(b - 1), 0, mid, end, lease);
    RunsJoin(start, [first], early + last, 0, 2 * (b - 1) + LastChanges(b - 1), 0, 0, end, lease);
    run, to := [first] + (early + last), end;
  }

  ghost predicate InTime(run: seq<Event>, lease: Instant) {
    exists to :: Timely(run, 0, to, lease)
  }

  ghost predicate Reaches(start: State, run: seq<Event>, changes: nat, maxAttempts: int, attempts: nat) {
    Legal(start, run) && StatusChanges(start, run, 0) == changes && Ended(Exec(start, run), maxAttempts, attempts)
  }

  /** The bounds of EveryJobEnds are reached: for every budget and every length of the lease
      a timely run changes the status (11b - 6) / 2 times, rounded down, with 2b - 1 claims. */
  lemma TheBoundIsReached(maxAttempts: int, lease: Instant)
    requires lease >= SECOND
    ensures var start, b := Init(EVERY_PATH), Max(maxAttempts, 1);
            exists run :: InTime(run, lease) && Reaches(start, run, (11 * b - 6) / 2, maxAttempts, 2 * b - 1)
  {
    var run, to := ReachTheBound(maxAttempts, lease);
    assert InTime(run, lease);
  }

  // ---------------------------------------------------------------- twice per attempt is not enough

  ghost predicate TwicePerAttempt(supported: iset<Path>, run: seq<Event>, j: JobId, maxAttempts: int) {
    Legal(Init(supported), run) && j in Exec(Init(supported), run).jobs
    && Exec(Init(supported), run).jobs[j].maxAttempts == maxAttempts ==>
      StatusChanges(Init(supported), run, j) <= 2 * Max(maxAttempts, 1)
  }

  /** Two status changes per allowed attempt are enough in every run, however `fail_job`
      reads, if and only if the job is allowed no second attempt; and the same for the runs
      that are timely, whatever the length of the lease. */
  lemma TwicePerAttemptExactlyWhen(maxAttempts: int, lease: Instant)
    requires lease >= SECOND
    ensures (forall supported, run, j :: TwicePerAttempt(supported, run, j, maxAttempts)) <==> maxAttempts <= 1
    ensures (forall supported, run, j | InTime(run, lease) :: TwicePerAttempt(supported, run, j, maxAttempts))
       <==> maxAttempts <= 1
  {
    if maxAttempts <= 1 {
      forall supported, run, j
        ensures TwicePerAttempt(supported, run, j, maxAttempts)
      {
        OneAttemptIsEnough(supported, run, j, maxAttempts);
      }
    } else {
      var run, to := ReachTheBound(maxAttempts, lease);
      assert InTime(run, lease) && !TwicePerAttempt(EVERY_PATH, run, 0, maxAttempts);
    }
  }

  lemma OneAttemptIsEnough(supported: iset<Path>, run: seq<Event>, j: JobId, maxAttempts: int)
    requires maxAttempts <= 1
    ensures TwicePerAttempt(supported, run, j, maxAttempts)
  {
    if Legal(Init(supported), run) && j in Exec(Init(supported), run).jobs
       && Exec(Init(supported), run).jobs[j].maxAttempts == maxAttempts {
      OneAttemptRunsAreFenced(Init(supported), run, j);
      FencedJobLifeIsBounded(supported, run, j);
    }
  }
}

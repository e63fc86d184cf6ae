/** The worker slots of runner.py and processor.py over the shared job table:
    every database transaction is one atomic event, and the events of all slots,
    of the reaper and of the API interleave freely. Clocks are arguments of the
    events and unrelated to each other. */
module WorkerProtocol {
  import opened Prelude
  import opened Queue

  type Path = string

  datatype Document = Document(job: JobId, path: Path)

  /** The local variables of the loop over the files of a job. `already` is the
      answer of the query made before the loop; `mine` are the paths this
      attempt has committed itself. */
  datatype Loop = Loop(files: seq<Path>, index: nat, created: nat, already: set<Path>, mine: set<Path>)

  datatype Verdict = Documented(loop: Loop) | Raised(retryable: bool)

  /** Where a slot stands. `epoch` is the attempt number its claim produced and
      `seen` the copy of the job its session loaded and keeps across commits. */
  datatype Pc =
    | Idle
    | Dead
    | Selected(candidate: JobId)
    | Claimed(job: JobId, epoch: nat)
    | Loaded(job: JobId, epoch: nat, seen: Job)
    | Looping(job: JobId, epoch: nat, seen: Job, loop: Loop)
    | Piping(job: JobId, epoch: nat, seen: Job, loop: Loop)
    | Ending(job: JobId, epoch: nat, seen: Job, verdict: Verdict)
  {
    predicate InAttempt() {
      Claimed? || HasSession()
    }

    predicate HasSession() {
      Loaded? || Looping? || Piping? || Ending?
    }

    predicate On(j: JobId) {
      InAttempt() && job == j
    }
  }

  /** `owner` remembers which slot made the latest claim of each job, and
      `supported` are the paths whose language is recognised. */
  datatype State = State(
    jobs: Table,
    slots: map<SlotId, Pc>,
    owner: map<JobId, SlotId>,
    documents: seq<Document>,
    supported: iset<Path>)

  /** How fail_job reads the job: from the committed row, or from the object the
      session has held since the attempt began. */
  datatype ReadMode = Fresh | Cached

  datatype Event =
    | Enqueue(job: JobId, priority: int, maxAttempts: int, now: Instant)
    | Select(slot: SlotId, job: JobId, now: Instant)
    | TakeSelected(slot: SlotId, leaseUntil: Instant)
    | Claim(slot: SlotId, job: JobId, now: Instant, leaseUntil: Instant)
    | Load(slot: SlotId)
    | Pulse(slot: SlotId, leaseUntil: Instant, percent: int)
    | Begin(slot: SlotId, files: seq<Path>)
    | Skip(slot: SlotId)
    | Beat(slot: SlotId, leaseUntil: Instant)
    | PipelineFails(slot: SlotId)
    | Commit(slot: SlotId)
    | EndLoop(slot: SlotId)
    | Raise(slot: SlotId, retryable: bool)
    | Abort(slot: SlotId)
    | Crash(slot: SlotId)
    | Finish(slot: SlotId, code: string, now: Instant, read: ReadMode)
    | Reap(now: Instant)
    | Cancel(job: JobId, now: Instant)

  // ---------------------------------------------------------------- steps

  function PcOf(st: State, s: SlotId): Pc {
    if s in st.slots then st.slots[s] else Idle
  }

  function SetPc(st: State, s: SlotId, pc: Pc): State {
    st.(slots := st.slots[s := pc])
  }

  function SetRow(st: State, j: JobId, row: Job): State {
    st.(jobs := st.jobs[j := row])
  }

  function Paths(documents: seq<Document>, j: JobId): set<Path> {
    set d | d in documents && d.job == j :: d.path
  }

  /** The files left over by the loop's two `continue` tests. */
  predicate Skips(st: State, loop: Loop)
    requires loop.index < |loop.files|
  {
    loop.files[loop.index] !in st.supported || loop.files[loop.index] in loop.already
  }

  function Percent(index: nat, total: nat): int {
    15 + index * 80 / Max(total, 1)
  }

  /** The finisher a verdict leads to: no document at all is a final failure. */
  predicate Succeeds(verdict: Verdict) {
    verdict.Documented? && verdict.loop.created > 0
  }

  predicate MayRetry(verdict: Verdict) {
    verdict.Raised? && verdict.retryable
  }

  predicate Enabled(st: State, ev: Event) {
    match ev
    case Enqueue(j, _, _, _) => j !in st.jobs
    case Select(s, j, now) => PcOf(st, s).Idle? && j in st.jobs && Eligible(st.jobs[j], now)
    case TakeSelected(s, _) => PcOf(st, s).Selected? && PcOf(st, s).candidate in st.jobs
    case Claim(s, j, now, _) => PcOf(st, s).Idle? && j in st.jobs && Eligible(st.jobs[j], now)
    case Load(s) => PcOf(st, s).Claimed? && PcOf(st, s).job in st.jobs
    case Pulse(s, _, _) => PcOf(st, s).Loaded? && PcOf(st, s).job in st.jobs
    case Begin(s, _) => PcOf(st, s).Loaded?
    case Skip(s) => PcOf(st, s).Looping? && AtFile(PcOf(st, s)) && Skips(st, PcOf(st, s).loop)
    case Beat(s, _) =>
      PcOf(st, s).Looping? && AtFile(PcOf(st, s)) && !Skips(st, PcOf(st, s).loop) && PcOf(st, s).job in st.jobs
    case PipelineFails(s) => PcOf(st, s).Piping? && AtFile(PcOf(st, s))
    case Commit(s) => PcOf(st, s).Piping? && AtFile(PcOf(st, s))
    case EndLoop(s) => PcOf(st, s).Looping? && !AtFile(PcOf(st, s))
    case Raise(s, _) => PcOf(st, s).Loaded? || PcOf(st, s).Looping? || PcOf(st, s).Piping?
    case Abort(s) => PcOf(st, s).InAttempt() || PcOf(st, s).Selected?
    case Crash(s) => true
    case Finish(s, _, _, _) => PcOf(st, s).Ending? && PcOf(st, s).job in st.jobs
    case Reap(_) => true
    case Cancel(j, _) => j in st.jobs
  }

  predicate AtFile(pc: Pc)
    requires pc.Looping? || pc.Piping?
  {
    pc.loop.index < |pc.loop.files|
  }

  function Next(st: State, ev: Event): State
    requires Enabled(st, ev)
  {
    match ev
    case Enqueue(j, priority, max, now) => SetRow(st, j, NewJob(priority, max, now))
    case Select(s, j, _) => SetPc(st, s, Selected(j))
    case TakeSelected(s, leaseUntil) =>
      var j := PcOf(st, s).candidate;
      if st.jobs[j].status == Queued then Take(st, s, j, leaseUntil) else SetPc(st, s, Idle)
    case Claim(s, j, _, leaseUntil) => Take(st, s, j, leaseUntil)
    case Load(s) => var pc := PcOf(st, s); SetPc(st, s, Loaded(pc.job, pc.epoch, st.jobs[pc.job]))
    case Pulse(s, leaseUntil, percent) =>
      var j := PcOf(st, s).job;
      SetRow(st, j, HeartbeatRow(st.jobs[j], s, leaseUntil, Some(percent)))
    case Begin(s, files) =>
      var pc := PcOf(st, s);
      SetPc(st, s, Looping(pc.job, pc.epoch, pc.seen, Loop(files, 0, 0, Paths(st.documents, pc.job), {})))
    case Skip(s) => SkipFile(st, s)
    case Beat(s, leaseUntil) => BeatFile(st, s, leaseUntil)
    case PipelineFails(s) =>
      var pc := PcOf(st, s);
      SetPc(st, s, Looping(pc.job, pc.epoch, pc.seen, pc.loop.(index := pc.loop.index + 1)))
    case Commit(s) => CommitFile(st, s)
    case EndLoop(s) => var pc := PcOf(st, s); SetPc(st, s, Ending(pc.job, pc.epoch, pc.seen, Documented(pc.loop)))
    case Raise(s, retryable) =>
      var pc := PcOf(st, s);
      SetPc(st, s, Ending(pc.job, pc.epoch, pc.seen, Raised(retryable)))
    case Abort(s) => SetPc(st, s, Idle)
    case Crash(s) => SetPc(st, s, Dead)
    case Finish(s, code, now, read) =>
      SetRow(SetPc(st, s, Idle), PcOf(st, s).job, FinishedRow(st, s, code, now, read))
    case Reap(now) => st.(jobs := map j | j in st.jobs :: ReapRow(st.jobs[j], now))
    case Cancel(j, now) => SetRow(st, j, CancelRow(st.jobs[j], now))
  }

  function Take(st: State, s: SlotId, j: JobId, leaseUntil: Instant): State
    requires j in st.jobs
  {
    st.(jobs := st.jobs[j := ClaimRow(st.jobs[j], s, leaseUntil)],
        slots := st.slots[s := Claimed(j, st.jobs[j].attempts + 1)],
        owner := st.owner[j := s])
  }

  /** Unsupported files are passed over; stored ones count as created. */
  function SkipFile(st: State, s: SlotId): State
    requires PcOf(st, s).Looping? && AtFile(PcOf(st, s))
  {
    var pc := PcOf(st, s);
    var counted := if pc.loop.files[pc.loop.index] in st.supported then 1 else 0;
    var loop := pc.loop.(index := pc.loop.index + 1, created := pc.loop.created + counted);
    SetPc(st, s, Looping(pc.job, pc.epoch, pc.seen, loop))
  }

  /** A heartbeat that finds the job gone breaks out of the loop. */
  function BeatFile(st: State, s: SlotId, leaseUntil: Instant): State
    requires PcOf(st, s).Looping? && AtFile(PcOf(st, s)) && PcOf(st, s).job in st.jobs
  {
    var pc := PcOf(st, s);
    var row := st.jobs[pc.job];
    if Holds(row, s) then
      SetRow(SetPc(st, s, Piping(pc.job, pc.epoch, pc.seen, pc.loop)), pc.job,
             HeartbeatRow(row, s, leaseUntil, Some(Percent(pc.loop.index, |pc.loop.files|))))
    else
      SetPc(st, s, Ending(pc.job, pc.epoch, pc.seen, Documented(pc.loop)))
  }

  /** The unique constraint on (job_id, path) turns a second document into an
      exception. */
  function CommitFile(st: State, s: SlotId): State
    requires PcOf(st, s).Piping? && AtFile(PcOf(st, s))
  {
    var pc := PcOf(st, s);
    var path := pc.loop.files[pc.loop.index];
    var document := Document(pc.job, path);
    if document in st.documents then
      SetPc(st, s, Ending(pc.job, pc.epoch, pc.seen, Raised(true)))
    else
      var loop := pc.loop.(index := pc.loop.index + 1, created := pc.loop.created + 1, mine := pc.loop.mine + {path});
      SetPc(st, s, Looping(pc.job, pc.epoch, pc.seen, loop)).(documents := st.documents + [document])
  }

  function FinishedRow(st: State, s: SlotId, code: string, now: Instant, read: ReadMode): Job
    requires PcOf(st, s).Ending? && PcOf(st, s).job in st.jobs
  {
    var pc := PcOf(st, s);
    var row := st.jobs[pc.job];
    if Succeeds(pc.verdict) then CompleteRow(row, s, now)
    else FailRow(row, if read.Fresh? then row else pc.seen, s, code, MayRetry(pc.verdict), now)
  }

  // ---------------------------------------------------------------- runs

  ghost predicate Legal(st: State, run: seq<Event>)
    decreases |run|
  {
    run == [] || (Enabled(st, run[0]) && Legal(Next(st, run[0]), run[1..]))
  }

  ghost function Exec(st: State, run: seq<Event>): State
    requires Legal(st, run)
    decreases |run|
  {
    if run == [] then st else Exec(Next(st, run[0]), run[1..])
  }

  function Init(supported: iset<Path>): State {
    State(map[], map[], map[], [], supported)
  }

  /** A finisher is safe when its fail_job reads the committed row, or when its
      stale copy and the committed row agree on whether the slot holds the lock. */
  ghost predicate Safe(st: State, ev: Event)
    requires Enabled(st, ev)
  {
    ev.Finish? ==>
      var pc := PcOf(st, ev.slot);
      Succeeds(pc.verdict) || ev.read.Fresh?
      || pc.seen.lockedBy != Some(ev.slot) || st.jobs[pc.job].lockedBy == Some(ev.slot)
  }

  ghost predicate AllSafe(st: State, run: seq<Event>)
    requires Legal(st, run)
    decreases |run|
  {
    run == [] || (Safe(st, run[0]) && AllSafe(Next(st, run[0]), run[1..]))
  }

  /** When an event happens; an event that reads no clock happens at once. */
  function TimeOf(ev: Event, from: Instant, lease: Instant): Instant {
    match ev
    case Enqueue(_, _, _, now) => now
    case Select(_, _, now) => now
    case Claim(_, _, now, _) => now
    case Beat(_, leaseUntil) => leaseUntil - lease
    case Pulse(_, leaseUntil, _) => leaseUntil - lease
    case Finish(_, _, now, _) => now
    case Reap(now) => now
    case Cancel(_, now) => now
    case _ => from
  }

  /** A run as a deployment times it: one clock that never runs backwards, from `from` to
      `to`, and every lease of the configured length. The laws hold without this; the
      runs that show a law's limits keep to it. */
  ghost predicate Timely(run: seq<Event>, from: Instant, to: Instant, lease: Instant)
    decreases |run|
  {
    if run == [] then from <= to
    else
      && from <= TimeOf(run[0], from, lease)
      && (run[0].Claim? ==> run[0].leaseUntil == run[0].now + lease)
      && Timely(run[1..], TimeOf(run[0], from, lease), to, lease)
  }

  // ---------------------------------------------------------------- invariant

  ghost predicate SlotShape(st: State, s: SlotId) {
    var pc := PcOf(st, s);
    && (pc.Selected? ==> pc.candidate in st.jobs)
    && (pc.InAttempt() ==>
          && pc.job in st.jobs && pc.job in st.owner
          && var row := st.jobs[pc.job];
          && 1 <= pc.epoch <= row.attempts
          && (row.lockedBy == Some(s) ==> row.status == Running && row.attempts == pc.epoch)
          && (row.attempts == pc.epoch ==> st.owner[pc.job] == s))
    && (pc.HasSession() ==>
          && pc.seen.maxAttempts == st.jobs[pc.job].maxAttempts
          && (pc.seen.lockedBy == Some(s) ==> pc.seen.attempts == pc.epoch))
  }

  ghost predicate JobShape(st: State, j: JobId)
    requires j in st.jobs
  {
    && RowShape(st.jobs[j])
    && (st.jobs[j].status in {Running, Succeeded} ==> j in st.owner && st.jobs[j].lockedBy == Some(st.owner[j]))
  }

  /** Holds in every reachable state, however fail_job reads. */
  ghost predicate Shape(st: State) {
    && (forall j :: j in st.jobs ==> JobShape(st, j))
    && (forall s :: s in st.slots ==> SlotShape(st, s))
  }

  lemma SlotShapeOf(st: State, s: SlotId)
    requires Shape(st)
    ensures SlotShape(st, s)
  {
  }

  lemma SetPcKeepsShape(st: State, s: SlotId, pc: Pc)
    requires Shape(st) && SlotShape(SetPc(st, s, pc), s)
    ensures Shape(SetPc(st, s, pc))
  {
    var next := SetPc(st, s, pc);
    forall t | t in next.slots
      ensures SlotShape(next, t)
    {
      if t != s {
        assert SlotShape(st, t);
      }
    }
    forall j | j in next.jobs
      ensures JobShape(next, j)
    {
      assert JobShape(st, j);
    }
  }

  /** A row update that counts no attempt keeps the shape if it moves the lock to
      nobody and takes the status out of RUNNING only when no attempt is left
      holding the lock. */
  lemma SetRowKeepsShape(st: State, j: JobId, row: Job)
    requires Shape(st) && j in st.jobs && RowShape(row)
    requires row.attempts == st.jobs[j].attempts && row.maxAttempts == st.jobs[j].maxAttempts
    requires row.lockedBy.Some? ==> row.lockedBy == st.jobs[j].lockedBy
    requires row.status == Running ==> st.jobs[j].status == Running
    requires row.lockedBy.Some? && row.status != Running ==> !PcOf(st, row.lockedBy.value).On(j)
    ensures Shape(SetRow(st, j, row))
  {
    var next := SetRow(st, j, row);
    forall t | t in next.slots
      ensures SlotShape(next, t)
    {
      assert SlotShape(st, t);
    }
    forall k | k in next.jobs
      ensures JobShape(next, k)
    {
      assert JobShape(st, k);
    }
  }

  lemma TakeKeepsShape(st: State, s: SlotId, j: JobId, leaseUntil: Instant)
    requires Shape(st) && j in st.jobs && st.jobs[j].status == Queued
    ensures Shape(Take(st, s, j, leaseUntil))
  {
    var next := Take(st, s, j, leaseUntil);
    assert JobShape(st, j);
    forall t | t in next.slots
      ensures SlotShape(next, t)
    {
      if t != s {
        assert SlotShape(st, t);
      }
    }
    forall k | k in next.jobs
      ensures JobShape(next, k)
    {
      if k != j {
        assert JobShape(st, k);
      }
    }
  }

  lemma EnqueueKeepsShape(st: State, j: JobId, row: Job)
    requires Shape(st) && j !in st.jobs && RowShape(row) && row.status == Queued
    ensures Shape(SetRow(st, j, row))
  {
    var next := SetRow(st, j, row);
    forall t | t in next.slots
      ensures SlotShape(next, t)
    {
      assert SlotShape(st, t);
    }
    forall k | k in next.jobs
      ensures JobShape(next, k)
    {
      if k != j {
        assert JobShape(st, k);
      }
    }
  }

  lemma ReapKeepsShape(st: State, now: Instant)
    requires Shape(st)
    ensures Shape(Next(st, Reap(now)))
  {
    var next := Next(st, Reap(now));
    forall t | t in next.slots
      ensures SlotShape(next, t)
    {
      assert SlotShape(st, t);
    }
    forall k | k in next.jobs
      ensures JobShape(next, k)
    {
      assert JobShape(st, k);
    }
  }

  lemma FinishKeepsShape(st: State, ev: Event)
    requires Shape(st) && ev.Finish? && Enabled(st, ev)
    ensures Shape(Next(st, ev))
  {
    var pc := PcOf(st, ev.slot);
    SlotShapeOf(st, ev.slot);
    assert JobShape(st, pc.job);
    SetPcKeepsShape(st, ev.slot, Idle);
    var idle := SetPc(st, ev.slot, Idle);
    var row := FinishedRow(st, ev.slot, ev.code, ev.now, ev.read);
    if row.lockedBy.Some? && row.status != Running {
      var holder := row.lockedBy.value;
      if holder != ev.slot {
        SlotShapeOf(st, holder);
        assert !PcOf(idle, holder).On(pc.job);
      }
    }
    SetRowKeepsShape(idle, pc.job, row);
  }

  lemma BeatKeepsShape(st: State, s: SlotId, leaseUntil: Instant)
    requires Shape(st) && Enabled(st, Beat(s, leaseUntil))
    ensures Shape(BeatFile(st, s, leaseUntil))
  {
    var pc := PcOf(st, s);
    SlotShapeOf(st, s);
    if Holds(st.jobs[pc.job], s) {
      var piping := Piping(pc.job, pc.epoch, pc.seen, pc.loop);
      SetPcKeepsShape(st, s, piping);
      assert JobShape(st, pc.job);
      SetRowKeepsShape(SetPc(st, s, piping), pc.job,
                       HeartbeatRow(st.jobs[pc.job], s, leaseUntil, Some(Percent(pc.loop.index, |pc.loop.files|))));
    } else {
      SetPcKeepsShape(st, s, Ending(pc.job, pc.epoch, pc.seen, Documented(pc.loop)));
    }
  }

  lemma CommitKeepsShape(st: State, s: SlotId)
    requires Shape(st) && Enabled(st, Commit(s))
    ensures Shape(CommitFile(st, s))
  {
    var pc := PcOf(st, s);
    var next := CommitFile(st, s);
    SlotShapeOf(st, s);
    SetPcKeepsShape(st, s, PcOf(next, s));
    var moved := SetPc(st, s, PcOf(next, s));
    forall t | t in next.slots
      ensures SlotShape(next, t)
    {
      assert SlotShape(moved, t);
    }
    forall j | j in next.jobs
      ensures JobShape(next, j)
    {
      assert JobShape(moved, j);
    }
  }

  /** Every event keeps the shape, stale reads included. */
  lemma StepKeepsShape(st: State, ev: Event)
    requires Shape(st) && Enabled(st, ev)
    ensures Shape(Next(st, ev))
  {
    match ev
    case Enqueue(j, priority, max, now) => EnqueueKeepsShape(st, j, NewJob(priority, max, now));
    case Select(s, j, _) => SetPcKeepsShape(st, s, Selected(j));
    case TakeSelected(s, leaseUntil) =>
      var j := PcOf(st, s).candidate;
      if st.jobs[j].status == Queued {
        TakeKeepsShape(st, s, j, leaseUntil);
      } else {
        SetPcKeepsShape(st, s, Idle);
      }
    case Claim(s, j, _, leaseUntil) => TakeKeepsShape(st, s, j, leaseUntil);
    case Load(s) =>
      SlotShapeOf(st, s);
      SetPcKeepsShape(st, s, PcOf(Next(st, ev), s));
    case Pulse(s, leaseUntil, percent) =>
      var j := PcOf(st, s).job;
      assert JobShape(st, j);
      NobodyWorksOnSucceeded(st, j);
      SetRowKeepsShape(st, j, HeartbeatRow(st.jobs[j], s, leaseUntil, Some(percent)));
    case Beat(s, leaseUntil) => BeatKeepsShape(st, s, leaseUntil);
    case Commit(s) => CommitKeepsShape(st, s);
    case Abort(s) => SetPcKeepsShape(st, s, Idle);
    case Crash(s) => SetPcKeepsShape(st, s, Dead);
    case Finish(_, _, _, _) => FinishKeepsShape(st, ev);
    case Reap(now) => ReapKeepsShape(st, now);
    case Cancel(j, now) =>
      assert JobShape(st, j);
      NobodyWorksOnSucceeded(st, j);
      SetRowKeepsShape(st, j, CancelRow(st.jobs[j], now));
    case Begin(s, _) => SlotShapeOf(st, s); SetPcKeepsShape(st, s, PcOf(Next(st, ev), s));
    case Skip(s) => SlotShapeOf(st, s); SetPcKeepsShape(st, s, PcOf(Next(st, ev), s));
    case PipelineFails(s) => SlotShapeOf(st, s); SetPcKeepsShape(st, s, PcOf(Next(st, ev), s));
    case EndLoop(s) => SlotShapeOf(st, s); SetPcKeepsShape(st, s, PcOf(Next(st, ev), s));
    case Raise(s, _) => SlotShapeOf(st, s); SetPcKeepsShape(st, s, PcOf(Next(st, ev), s));
  }

  /** The slot named by a succeeded row is not at work on that job. */
  lemma NobodyWorksOnSucceeded(st: State, j: JobId)
    requires Shape(st) && j in st.jobs
    ensures st.jobs[j].lockedBy.Some? && st.jobs[j].status != Running ==> !PcOf(st, st.jobs[j].lockedBy.value).On(j)
  {
    if st.jobs[j].lockedBy.Some? {
      SlotShapeOf(st, st.jobs[j].lockedBy.value);
    }
  }

  lemma {:induction false} RunKeepsShape(st: State, run: seq<Event>)
    requires Shape(st) && Legal(st, run)
    ensures Shape(Exec(st, run))
    decreases |run|
  {
    if run != [] {
      StepKeepsShape(st, run[0]);
      RunKeepsShape(Next(st, run[0]), run[1..]);
    }
  }
}

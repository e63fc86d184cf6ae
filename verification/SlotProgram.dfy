/** The slot program as it is written: sequential code with local variables over a
    database that other slots, the reaper and the API change between any two of
    its statements. Every execution is a run of the protocol, so the theorems of
    Fencing and Resume are theorems about this code. */
module SlotProgram {
  import opened Prelude
  import opened Queue
  import opened WorkerProtocol

  predicate IsFinish(ev: Event, s: SlotId) {
    ev.Finish? && ev.slot == s
  }

  /** How many finishers of a slot a trace holds. */
  ghost function FinishesOf(trace: seq<Event>, s: SlotId): nat {
    if trace == [] then 0
    else FinishesOf(trace[..|trace| - 1], s) + if IsFinish(trace[|trace| - 1], s) then 1 else 0
  }

  lemma OneEventMore(trace: seq<Event>, ev: Event, s: SlotId)
    ensures FinishesOf(trace + [ev], s) == FinishesOf(trace, s) + if IsFinish(ev, s) then 1 else 0
  {
    assert (trace + [ev])[..|trace|] == trace;
  }

  /** What a call of the documentation pipeline can do. */
  datatype Outcome = Produced | Refused | Broken

  predicate IsMine(ev: Event, s: SlotId) {
    match ev
    case Enqueue(_, _, _, _) => false
    case Reap(_) => false
    case Cancel(_, _) => false
    case _ => ev.slot == s
  }

  lemma OthersLeavePcAlone(st: State, ev: Event, s: SlotId)
    requires Enabled(st, ev) && !IsMine(ev, s)
    ensures PcOf(Next(st, ev), s) == PcOf(st, s)
    ensures Next(st, ev).supported == st.supported
    ensures forall j :: j in st.jobs ==> j in Next(st, ev).jobs
  {
  }

  lemma {:induction false} RunExtends(st: State, run: seq<Event>, ev: Event)
    requires Legal(st, run) && Enabled(Exec(st, run), ev)
    ensures Legal(st, run + [ev]) && Exec(st, run + [ev]) == Next(Exec(st, run), ev)
    decreases |run|
  {
    if run == [] {
      assert (run + [ev])[1..] == [];
    } else {
      RunExtends(Next(st, run[0]), run[1..], ev);
      assert (run + [ev])[1..] == run[1..] + [ev];
    }
  }

  /** How claim_job works: in one statement that skips the rows others hold locked, or in
      two with others in between. */
  datatype ClaimForm = OneStatement(skipped: set<JobId>) | TwoStatements(between: seq<Event>)

  class World {
    var st: State
    ghost const start: State
    ghost var trace: seq<Event>

    ghost predicate Valid()
      reads this
    {
      Legal(start, trace) && Exec(start, trace) == st
    }

    constructor (initial: State)
      ensures Valid() && st == initial && start == initial && trace == []
    {
      st := initial;
      start := initial;
      trace := [];
    }

    method Step(ev: Event)
      requires Valid() && Enabled(st, ev)
      modifies this
      ensures Valid() && st == Next(old(st), ev) && trace == old(trace) + [ev]
    {
      RunExtends(start, trace, ev);
      st := Next(st, ev);
      trace := trace + [ev];
    }

    /** A step of one slot that is no finisher. */
    method Move(s: SlotId, ev: Event)
      requires Valid() && Enabled(st, ev) && !IsFinish(ev, s)
      modifies this
      ensures Valid() && st == Next(old(st), ev) && trace == old(trace) + [ev]
      ensures FinishesOf(trace, s) == FinishesOf(old(trace), s)
    {
      OneEventMore(trace, ev, s);
      Step(ev);
    }

    /** claim_job in one statement. */
    method ClaimJob(s: SlotId, leaseSeconds: int, now: Instant, skipped: set<JobId>) returns (claimed: Option<JobId>)
      requires Valid() && PcOf(st, s).Idle?
      modifies this
      ensures Valid() && FinishesOf(trace, s) == FinishesOf(old(trace), s)
      ensures claimed.None? <==> forall j :: j in old(st).jobs && j !in skipped ==> !Eligible(old(st).jobs[j], now)
      ensures claimed.None? ==> st == old(st) && trace == old(trace)
      ensures claimed.Some? ==>
                && trace == old(trace) + [Claim(s, claimed.value, now, now + leaseSeconds * SECOND)]
                && claimed.value in old(st).jobs && claimed.value in st.jobs
                && PcOf(st, s).Claimed? && PcOf(st, s).job == claimed.value
                && st.jobs == old(st).jobs[claimed.value := ClaimRow(old(st).jobs[claimed.value], s,
                                                                     now + leaseSeconds * SECOND)]
    {
      var table := new JobQueue.Over(st.jobs);
      claimed := table.ClaimJob(s, leaseSeconds, now, skipped);
      if claimed.Some? {
        Move(s, Claim(s, claimed.value, now, now + leaseSeconds * SECOND));
        assert st.jobs == table.jobs;
      }
    }

    /** claim_job in two statements, with whatever others do in between. */
    method ClaimInTwo(s: SlotId, leaseSeconds: int, now: Instant, between: seq<Event>)
      returns (claimed: Option<JobId>)
      requires Valid() && PcOf(st, s).Idle?
      modifies this
      ensures Valid() && old(trace) <= trace && FinishesOf(trace, s) == FinishesOf(old(trace), s)
      ensures claimed.None? ==> PcOf(st, s).Idle?
      ensures claimed.Some? ==>
                && claimed.value in st.jobs && PcOf(st, s).Claimed? && PcOf(st, s).job == claimed.value
                && trace != [] && trace[|trace| - 1] == TakeSelected(s, now + leaseSeconds * SECOND)
    {
      var leaseUntil := now + leaseSeconds * SECOND;
      claimed := SelectCandidate(s, now);
      if claimed.Some? {
        var taken := TakeAfter(s, between, leaseUntil);
        if !taken {
          claimed := None;
        }
      }
    }

    /** What comes between the two statements, and the second one. */
    method TakeAfter(s: SlotId, between: seq<Event>, leaseUntil: Instant) returns (taken: bool)
      requires Valid() && PcOf(st, s).Selected? && PcOf(st, s).candidate in st.jobs
      modifies this
      ensures Valid() && old(trace) <= trace && FinishesOf(trace, s) == FinishesOf(old(trace), s)
      ensures trace != [] && trace[|trace| - 1] == TakeSelected(s, leaseUntil)
      ensures !taken ==> PcOf(st, s).Idle?
      ensures taken ==>
                PcOf(st, s).Claimed? && PcOf(st, s).job == PcOf(old(st), s).candidate && PcOf(st, s).job in st.jobs
    {
      Interfere(s, between);
      taken := TakeCandidate(s, leaseUntil);
    }

    /** The SELECT of the two-statement claim. */
    method SelectCandidate(s: SlotId, now: Instant) returns (candidate: Option<JobId>)
      requires Valid() && PcOf(st, s).Idle?
      modifies this
      ensures Valid() && FinishesOf(trace, s) == FinishesOf(old(trace), s) && st.jobs == old(st).jobs
      ensures candidate.None? <==> forall j :: j in st.jobs ==> !Eligible(st.jobs[j], now)
      ensures candidate.None? ==> st == old(st) && trace == old(trace)
      ensures candidate.Some? ==>
                && trace == old(trace) + [Select(s, candidate.value, now)]
                && PcOf(st, s) == Selected(candidate.value) && candidate.value in st.jobs
    {
      var table := new JobQueue.Over(st.jobs);
      candidate := table.SelectCandidate(now);
      if candidate.Some? {
        Move(s, Select(s, candidate.value, now));
      }
    }

    /** The guarded UPDATE of the two-statement claim. */
    method TakeCandidate(s: SlotId, leaseUntil: Instant) returns (taken: bool)
      requires Valid() && PcOf(st, s).Selected? && PcOf(st, s).candidate in st.jobs
      modifies this
      ensures Valid() && FinishesOf(trace, s) == FinishesOf(old(trace), s)
      ensures trace == old(trace) + [TakeSelected(s, leaseUntil)]
      ensures taken == (old(st).jobs[PcOf(old(st), s).candidate].status == Queued)
      ensures !taken ==> PcOf(st, s).Idle?
      ensures taken ==>
                PcOf(st, s).Claimed? && PcOf(st, s).job == PcOf(old(st), s).candidate && PcOf(st, s).job in st.jobs
    {
      var table := new JobQueue.Over(st.jobs);
      taken := table.ClaimCandidate(PcOf(st, s).candidate, s, leaseUntil);
      Move(s, TakeSelected(s, leaseUntil));
      assert st.jobs == table.jobs;
    }

    /** claim_job. */
    method TakeJob(s: SlotId, form: ClaimForm, leaseSeconds: int, now: Instant) returns (claimed: Option<JobId>)
      requires Valid() && PcOf(st, s).Idle?
      modifies this
      ensures Valid() && old(trace) <= trace && FinishesOf(trace, s) == FinishesOf(old(trace), s)
      ensures claimed.None? ==> PcOf(st, s).Idle?
      ensures claimed.Some? ==> PcOf(st, s).Claimed? && PcOf(st, s).job == claimed.value && claimed.value in st.jobs
      ensures form.OneStatement? ==>
                && (claimed.None? <==> forall j :: j in old(st).jobs && j !in form.skipped ==>
                                         !Eligible(old(st).jobs[j], now))
                && (claimed.None? ==> st == old(st) && trace == old(trace))
    {
      match form {
        case OneStatement(skipped) => claimed := ClaimJob(s, leaseSeconds, now, skipped);
        case TwoStatements(between) => claimed := ClaimInTwo(s, leaseSeconds, now, between);
      }
    }

    /** _progress before the files are known: the lease is renewed as always. */
    method ReportStage(s: SlotId, lease: Instant, percent: int) returns (alive: bool)
      requires Valid() && PcOf(st, s).Loaded? && PcOf(st, s).job in st.jobs
      modifies this
      ensures Valid() && trace == old(trace) + [Pulse(s, lease, percent)]
      ensures FinishesOf(trace, s) == FinishesOf(old(trace), s)
      ensures PcOf(st, s) == PcOf(old(st), s) && PcOf(st, s).job in st.jobs
      ensures alive == Holds(old(st).jobs[PcOf(st, s).job], s)
      ensures var j := PcOf(st, s).job;
              st.jobs[j] == if alive then HeartbeatRow(old(st).jobs[j], s, lease, Some(percent)) else old(st).jobs[j]
    {
      var job := PcOf(st, s).job;
      var table := new JobQueue.Over(st.jobs);
      alive := table.Heartbeat(job, s, lease, Some(percent));
      Move(s, Pulse(s, lease, percent));
      assert st.jobs == table.jobs;
    }

    method StartLoop(s: SlotId, files: seq<Path>) returns (already: set<Path>)
      requires Valid() && PcOf(st, s).Loaded? && PcOf(st, s).job in st.jobs
      modifies this
      ensures Valid() && old(trace) < trace && FinishesOf(trace, s) == FinishesOf(old(trace), s)
      ensures InLoop(st, s, PcOf(old(st), s), Loop(files, 0, 0, already, {}))
      ensures already == Paths(old(st).documents, PcOf(old(st), s).job)
    {
      already := Paths(st.documents, PcOf(st, s).job);
      Move(s, Begin(s, files));
    }

    method PassOver(s: SlotId)
      requires Valid() && PcOf(st, s).Looping? && PcOf(st, s).job in st.jobs && Enabled(st, Skip(s))
      modifies this
      ensures Valid() && old(trace) < trace && FinishesOf(trace, s) == FinishesOf(old(trace), s)
      ensures InLoop(st, s, PcOf(old(st), s), PcOf(SkipFile(old(st), s), s).loop)
    {
      Move(s, Skip(s));
    }

    /** _progress: renew the lease, publish the percentage, say whether the job is
        still this slot's. */
    method Progress(s: SlotId, lease: Instant) returns (alive: bool)
      requires Valid() && PcOf(st, s).Looping? && Enabled(st, Beat(s, lease))
      modifies this
      ensures Valid() && old(trace) < trace && FinishesOf(trace, s) == FinishesOf(old(trace), s)
      ensures PcOf(old(st), s).job in st.jobs && alive == Holds(old(st).jobs[PcOf(old(st), s).job], s)
      ensures var pc := PcOf(old(st), s);
              PcOf(st, s) == if alive then Piping(pc.job, pc.epoch, pc.seen, pc.loop)
                             else Ending(pc.job, pc.epoch, pc.seen, Documented(pc.loop))
    {
      var pc := PcOf(st, s);
      var table := new JobQueue.Over(st.jobs);
      alive := table.Heartbeat(pc.job, s, lease, Some(Percent(pc.loop.index, |pc.loop.files|)));
      Move(s, Beat(s, lease));
      assert st.jobs == table.jobs;
    }

    method GiveUpOnFile(s: SlotId)
      requires Valid() && PcOf(st, s).Piping? && AtFile(PcOf(st, s)) && PcOf(st, s).job in st.jobs
      modifies this
      ensures Valid() && old(trace) < trace && FinishesOf(trace, s) == FinishesOf(old(trace), s)
      ensures InLoop(st, s, PcOf(old(st), s), Past(PcOf(old(st), s).loop))
    {
      Move(s, PipelineFails(s));
    }

    method Throw(s: SlotId, retryable: bool)
      requires Valid() && (PcOf(st, s).Piping? || PcOf(st, s).Loaded?) && PcOf(st, s).job in st.jobs
      modifies this
      ensures Valid() && old(trace) < trace && FinishesOf(trace, s) == FinishesOf(old(trace), s)
      ensures AtEnd(st, s, PcOf(old(st), s), Raised(retryable))
    {
      Move(s, Raise(s, retryable));
    }

    /** _persist and the commit after it: false when the unique constraint throws. */
    method Persist(s: SlotId) returns (stored: bool)
      requires Valid() && PcOf(st, s).Piping? && AtFile(PcOf(st, s)) && PcOf(st, s).job in st.jobs
      modifies this
      ensures Valid() && old(trace) < trace && FinishesOf(trace, s) == FinishesOf(old(trace), s)
      ensures var document := DocumentAt(PcOf(old(st), s));
              && stored == (document !in old(st).documents)
              && st.documents == if stored then old(st).documents + [document] else old(st).documents
      ensures if stored then InLoop(st, s, PcOf(old(st), s), OneMore(PcOf(old(st), s).loop))
              else AtEnd(st, s, PcOf(old(st), s), Raised(true))
    {
      stored := DocumentAt(PcOf(st, s)) !in st.documents;
      Move(s, Commit(s));
    }

    method FinishLoop(s: SlotId)
      requires Valid() && PcOf(st, s).Looping? && !AtFile(PcOf(st, s)) && PcOf(st, s).job in st.jobs
      modifies this
      ensures Valid() && old(trace) < trace && FinishesOf(trace, s) == FinishesOf(old(trace), s)
      ensures AtEnd(st, s, PcOf(old(st), s), Documented(PcOf(old(st), s).loop))
    {
      Move(s, EndLoop(s));
    }

    /** The one call of complete_job or fail_job. */
    method Report(s: SlotId, code: string, now: Instant, read: ReadMode)
      requires Valid() && PcOf(st, s).Ending? && PcOf(st, s).job in st.jobs
      modifies this
      ensures Valid() && trace == old(trace) + [Finish(s, code, now, read)] && PcOf(st, s).Idle?
      ensures FinishesOf(trace, s) == FinishesOf(old(trace), s) + 1
    {
      var pc := PcOf(st, s);
      var table := new JobQueue.Over(st.jobs);
      if Succeeds(pc.verdict) {
        table.CompleteJob(pc.job, s, now);
      } else {
        var seen := if read.Fresh? then st.jobs[pc.job] else pc.seen;
        var requeued := table.FailJob(pc.job, seen, s, code, MayRetry(pc.verdict), now);
      }
      OneEventMore(trace, Finish(s, code, now, read), s);
      Step(Finish(s, code, now, read));
      assert st.jobs == table.jobs;
    }

    /** Whatever the rest of the system does before this slot's next statement. */
    method Interfere(s: SlotId, events: seq<Event>)
      requires Valid()
      modifies this
      ensures Valid() && old(trace) <= trace && FinishesOf(trace, s) == FinishesOf(old(trace), s)
      ensures PcOf(st, s) == PcOf(old(st), s) && st.supported == old(st).supported
      ensures forall j :: j in old(st).jobs ==> j in st.jobs
    {
      for i := 0 to |events|
        invariant Valid() && old(trace) <= trace && FinishesOf(trace, s) == FinishesOf(old(trace), s)
        invariant PcOf(st, s) == PcOf(old(st), s) && st.supported == old(st).supported
        invariant forall j :: j in old(st).jobs ==> j in st.jobs
      {
        if !IsMine(events[i], s) && Enabled(st, events[i]) {
          OthersLeavePcAlone(st, events[i], s);
          Move(s, events[i]);
        }
      }
    }

    /** One pass of _reaper. */
    method ReaperPass(now: Instant) returns (requeued: nat)
      requires Valid()
      modifies this
      ensures Valid() && trace == old(trace) + [Reap(now)]
      ensures forall j :: j in st.jobs ==> !Expired(st.jobs[j], now)
    {
      var table := new JobQueue.Over(st.jobs);
      requeued := table.ReapExpiredLeases(now);
      Step(Reap(now));
      assert st.jobs == table.jobs;
    }

    /** cancel_job from the API. */
    method CancelFromApi(j: JobId, now: Instant) returns (cancelled: bool)
      requires Valid() && j in st.jobs
      modifies this
      ensures Valid() && trace == old(trace) + [Cancel(j, now)]
      ensures cancelled == (old(st).jobs[j].status == Queued)
    {
      var table := new JobQueue.Over(st.jobs);
      cancelled := table.CancelJob(j, now);
      Step(Cancel(j, now));
      assert st.jobs == table.jobs;
    }
  }

  /** The slot is in the loop of the attempt it was in as `pc`. */
  predicate InLoop(st: State, s: SlotId, pc: Pc, loop: Loop) {
    pc.HasSession() && pc.job in st.jobs && PcOf(st, s) == Looping(pc.job, pc.epoch, pc.seen, loop)
  }

  predicate AtEnd(st: State, s: SlotId, pc: Pc, verdict: Verdict) {
    pc.HasSession() && pc.job in st.jobs && PcOf(st, s) == Ending(pc.job, pc.epoch, pc.seen, verdict)
  }

  function DocumentAt(pc: Pc): Document
    requires (pc.Looping? || pc.Piping?) && AtFile(pc)
  {
    Document(pc.job, pc.loop.files[pc.loop.index])
  }

  function Past(loop: Loop): Loop {
    loop.(index := loop.index + 1)
  }

  /** The loop after storing the document of its current file. */
  function OneMore(loop: Loop): Loop
    requires loop.index < |loop.files|
  {
    loop.(index := loop.index + 1, created := loop.created + 1, mine := loop.mine + {loop.files[loop.index]})
  }

  /** How one file of the loop ends. */
  datatype Turn = Foreign | Known | Kept | PassedUp | LeaseLost | Threw | Conflicted {
    predicate LeavesLoop() {
      LeaseLost? || Threw? || Conflicted?
    }
  }

  function LoopAfter(turn: Turn, loop: Loop): Loop
    requires loop.index < |loop.files| && !turn.LeavesLoop()
  {
    match turn
    case Known => Past(loop).(created := loop.created + 1)
    case Kept => OneMore(loop)
    case _ => Past(loop)
  }

  function VerdictOf(turn: Turn, loop: Loop): Verdict
    requires turn.LeavesLoop()
  {
    if turn.LeaseLost? then Documented(loop) else Raised(true)
  }

  /** The turn of one file that needs documenting: heartbeat, pipeline, commit. */
  method DocumentFile(w: World, s: SlotId, outcome: Outcome, lease: Instant, during: seq<Event>) returns (turn: Turn)
    requires w.Valid() && PcOf(w.st, s).Looping? && AtFile(PcOf(w.st, s)) && PcOf(w.st, s).job in w.st.jobs
    requires Enabled(w.st, Beat(s, lease))
    modifies w
    ensures w.Valid() && old(w.trace) <= w.trace && FinishesOf(w.trace, s) == FinishesOf(old(w.trace), s)
    ensures turn.LeaseLost? <==> !Holds(old(w.st).jobs[PcOf(old(w.st), s).job], s)
    ensures !turn.LeaseLost? ==>
              && (turn.PassedUp? <==> outcome.Refused?) && (turn.Threw? <==> outcome.Broken?)
              && (turn.Kept? || turn.Conflicted? <==> outcome.Produced?)
    ensures turn.Kept? || turn.Conflicted? ==> DocumentAt(PcOf(old(w.st), s)) in w.st.documents
    ensures !turn.Foreign? && !turn.Known?
    ensures var pc := PcOf(old(w.st), s);
            if turn.LeavesLoop() then AtEnd(w.st, s, pc, VerdictOf(turn, pc.loop))
            else InLoop(w.st, s, pc, LoopAfter(turn, pc.loop))
  {
    var alive := w.Progress(s, lease);
    if !alive {
      return LeaseLost;
    }
    w.Interfere(s, during);
    match outcome {
      case Refused =>
        w.GiveUpOnFile(s);
        return PassedUp;
      case Broken =>
        w.Throw(s, true);
        return Threw;
      case Produced =>
        var stored := w.Persist(s);
        return if stored then Kept else Conflicted;
    }
  }

  /** One round of the loop: a file of another language is passed over, a stored one is
      counted, any other is documented. */
  method OneFile(w: World, s: SlotId, before: seq<Event>, outcome: Outcome, lease: Instant, during: seq<Event>)
    returns (turn: Turn)
    requires w.Valid() && PcOf(w.st, s).Looping? && AtFile(PcOf(w.st, s)) && PcOf(w.st, s).job in w.st.jobs
    modifies w
    ensures w.Valid() && old(w.trace) <= w.trace && FinishesOf(w.trace, s) == FinishesOf(old(w.trace), s)
    ensures var pc := PcOf(old(w.st), s);
            && (turn.Foreign? <==> pc.loop.files[pc.loop.index] !in old(w.st).supported)
            && (turn.Known? <==> pc.loop.files[pc.loop.index] in old(w.st).supported
                                 && pc.loop.files[pc.loop.index] in pc.loop.already)
            && if turn.LeavesLoop() then AtEnd(w.st, s, pc, VerdictOf(turn, pc.loop))
               else InLoop(w.st, s, pc, LoopAfter(turn, pc.loop))
  {
    w.Interfere(s, before);
    var loop := PcOf(w.st, s).loop;
    var path := loop.files[loop.index];
    if path !in w.st.supported {
      w.PassOver(s);
      return Foreign;
    }
    if path in loop.already {
      w.PassOver(s);
      return Known;
    }
    turn := DocumentFile(w, s, outcome, lease, during);
  }

  /** How the loop over the files is left. */
  datatype Exit = Returned(created: nat) | PipelineThrew | CommitThrew

  /** _document_files, with `env` and `duringPipeline` supplying what the rest of the
      system does before a file's heartbeat and while its pipeline runs, and
      `pipeline` the outcome for each file. */
  method DocumentFiles(w: World, s: SlotId, files: seq<Path>, pipeline: nat -> Outcome, leases: nat -> Instant,
                       env: nat -> seq<Event>, duringPipeline: nat -> seq<Event>)
    returns (exit: Exit)
    requires w.Valid() && PcOf(w.st, s).Loaded? && PcOf(w.st, s).job in w.st.jobs
    modifies w
    ensures w.Valid() && old(w.trace) <= w.trace && FinishesOf(w.trace, s) == FinishesOf(old(w.trace), s)
    ensures PcOf(w.st, s).Ending? && AtEnd(w.st, s, PcOf(old(w.st), s), PcOf(w.st, s).verdict)
    ensures match exit
            case Returned(created) =>
              && PcOf(w.st, s).verdict.Documented? && PcOf(w.st, s).verdict.loop.created == created <= |files|
              && PcOf(w.st, s).verdict.loop.files == files
            case PipelineThrew => PcOf(w.st, s).verdict == Raised(true)
            case CommitThrew => PcOf(w.st, s).verdict == Raised(true)
  {
    ghost var loaded := PcOf(w.st, s);
    var already := w.StartLoop(s, files);
    var loop := Loop(files, 0, 0, already, {});
    while loop.index < |files|
      invariant loop.files == files && loop.created <= loop.index <= |files|
      invariant w.Valid() && old(w.trace) <= w.trace && FinishesOf(w.trace, s) == FinishesOf(old(w.trace), s)
      invariant InLoop(w.st, s, loaded, loop)
      decreases |files| - loop.index
    {
      var k := loop.index;
      var turn := OneFile(w, s, env(k), pipeline(k), leases(k), duringPipeline(k));
      if turn.LeavesLoop() {
        return if turn.LeaseLost? then Returned(loop.created) else if turn.Threw? then PipelineThrew else CommitThrew;
      }
      loop := LoopAfter(turn, loop);
    }
    w.FinishLoop(s);
    return Returned(loop.created);
  }

  /** A report of progress before the loop, and what others do before it. */
  datatype Stage = Stage(before: seq<Event>, lease: Instant)

  /** What comes before the loop: at 5 percent an archive is unpacked or a repository
      cloned, at 10 it is scanned. A snippet has no such stage, and an exception leaves out
      those after it. What the heartbeats answer is not looked at. */
  method Prepare(w: World, s: SlotId, stages: seq<Stage>)
    requires w.Valid() && PcOf(w.st, s).Loaded? && PcOf(w.st, s).job in w.st.jobs
    requires |stages| <= 2
    modifies w
    ensures w.Valid() && old(w.trace) <= w.trace && FinishesOf(w.trace, s) == FinishesOf(old(w.trace), s)
    ensures PcOf(w.st, s) == PcOf(old(w.st), s) && PcOf(w.st, s).job in w.st.jobs
    ensures |stages| > 0 ==>
              w.trace != [] && w.trace[|w.trace| - 1] == Pulse(s, stages[|stages| - 1].lease, 5 * |stages|)
  {
    if |stages| > 0 {
      w.Interfere(s, stages[0].before);
      var alive := w.ReportStage(s, stages[0].lease, 5);
    }
    if |stages| > 1 {
      w.Interfere(s, stages[1].before);
      var alive := w.ReportStage(s, stages[1].lease, 10);
    }
  }

  /** An attempt up to its end: load the job, prepare and document its files. `early` is an
      exception raised before the loop, by whether it is worth a retry. A commit that throws
      leaves a session in which nothing can be read or reported. */
  method Attempt(w: World, s: SlotId, beforeLoad: seq<Event>, stages: seq<Stage>, early: Option<bool>,
                 files: seq<Path>, pipeline: nat -> Outcome, leases: nat -> Instant, env: nat -> seq<Event>,
                 duringPipeline: nat -> seq<Event>)
    returns (reportable: bool)
    requires w.Valid() && PcOf(w.st, s).Claimed? && PcOf(w.st, s).job in w.st.jobs && |stages| <= 2
    modifies w
    ensures w.Valid() && old(w.trace) <= w.trace && FinishesOf(w.trace, s) == FinishesOf(old(w.trace), s)
    ensures PcOf(w.st, s).Ending? && PcOf(w.st, s).job == PcOf(old(w.st), s).job && PcOf(w.st, s).job in w.st.jobs
    ensures early.Some? ==> reportable && PcOf(w.st, s).verdict == Raised(early.value)
    ensures !reportable ==> PcOf(w.st, s).verdict == Raised(true)
  {
    w.Interfere(s, beforeLoad);
    w.Move(s, Load(s));
    Prepare(w, s, stages);
    if early.Some? {
      w.Throw(s, early.value);
      return true;
    }
    var exit := DocumentFiles(w, s, files, pipeline, leases, env, duringPipeline);
    return !exit.CommitThrew?;
  }

  /** _execute after the claim: the attempt, then one finisher. When nothing can be reported
      fail_job throws in its turn, and the attempt ends without a finisher. */
  method Execute(w: World, s: SlotId, beforeLoad: seq<Event>, stages: seq<Stage>, early: Option<bool>,
                 files: seq<Path>, pipeline: nat -> Outcome, leases: nat -> Instant, env: nat -> seq<Event>,
                 duringPipeline: nat -> seq<Event>, code: string, now: Instant, read: ReadMode)
    returns (reported: bool)
    requires w.Valid() && PcOf(w.st, s).Claimed? && PcOf(w.st, s).job in w.st.jobs && |stages| <= 2
    modifies w
    ensures w.Valid() && old(w.trace) <= w.trace && PcOf(w.st, s).Idle?
    ensures FinishesOf(w.trace, s) == FinishesOf(old(w.trace), s) + if reported then 1 else 0
    ensures w.trace != [] && w.trace[|w.trace| - 1] == if reported then Finish(s, code, now, read) else Abort(s)
    ensures early.Some? ==> reported
  {
    reported := Attempt(w, s, beforeLoad, stages, early, files, pipeline, leases, env, duringPipeline);
    w.Interfere(s, env(|files|));
    if reported {
      w.Report(s, code, now, read);
    } else {
      w.Move(s, Abort(s));
    }
  }

  /** _claim_and_run: false when the queue had nothing to take, or when the attempt left
      no finisher. */
  method ClaimAndRun(w: World, s: SlotId, form: ClaimForm, leaseSeconds: int, claimAt: Instant,
                     beforeLoad: seq<Event>, stages: seq<Stage>, early: Option<bool>, files: seq<Path>,
                     pipeline: nat -> Outcome, leases: nat -> Instant, env: nat -> seq<Event>,
                     duringPipeline: nat -> seq<Event>, code: string, now: Instant, read: ReadMode)
    returns (claimed: Option<JobId>, reported: bool)
    requires w.Valid() && PcOf(w.st, s).Idle? && |stages| <= 2
    modifies w
    ensures w.Valid() && old(w.trace) <= w.trace && PcOf(w.st, s).Idle?
    ensures FinishesOf(w.trace, s) == FinishesOf(old(w.trace), s) + if reported then 1 else 0
    ensures reported ==> claimed.Some? && w.trace != [] && w.trace[|w.trace| - 1] == Finish(s, code, now, read)
    ensures claimed.Some? && !reported ==> w.trace != [] && w.trace[|w.trace| - 1] == Abort(s)
    ensures form.OneStatement? ==>
              && (claimed.None? <==> forall j :: j in old(w.st).jobs && j !in form.skipped ==>
                                       !Eligible(old(w.st).jobs[j], claimAt))
              && (claimed.None? ==> w.st == old(w.st) && w.trace == old(w.trace))
  {
    reported := false;
    claimed := w.TakeJob(s, form, leaseSeconds, claimAt);
    if claimed.Some? {
      reported := Execute(w, s, beforeLoad, stages, early, files, pipeline, leases, env, duringPipeline, code, now,
                          read);
    }
  }
}

/** Resuming without duplication: what the stored documents of a job look like
    across attempts, whichever slots work on it. */
module Resume {
  import opened Prelude
  import opened Queue
  import opened WorkerProtocol

  ghost predicate Distinct<T(!new)>(xs: seq<T>) {
    forall i, k :: 0 <= i < k < |xs| ==> xs[i] != xs[k]
  }

  /** How many of these files, counted by position, have their path in `have`. */
  function Counted(files: seq<Path>, have: set<Path>): nat {
    if files == [] then 0
    else Counted(files[..|files| - 1], have) + (if files[|files| - 1] in have then 1 else 0)
  }

  ghost predicate DocumentsShape(st: State) {
    && Distinct(st.documents)
    && (forall d :: d in st.documents ==> d.path in st.supported)
  }

  predicate HasLoop(pc: Pc) {
    pc.Looping? || pc.Piping? || (pc.Ending? && pc.verdict.Documented?)
  }

  function LoopOf(pc: Pc): Loop
    requires HasLoop(pc)
  {
    if pc.Ending? then pc.verdict.loop else pc.loop
  }

  /** The loop's bookkeeping against the stored documents. */
  ghost predicate Accounts(loop: Loop, stored: set<Path>) {
    && loop.index <= |loop.files|
    && loop.already <= stored && loop.mine <= stored
    && (forall p :: p in loop.mine ==> p in loop.files[..loop.index])
    && loop.created <= Counted(loop.files[..loop.index], loop.already + loop.mine)
    && (Distinct(loop.files) ==> loop.created == Counted(loop.files[..loop.index], loop.already + loop.mine))
  }

  ghost predicate LoopShape(st: State, s: SlotId) {
    var pc := PcOf(st, s);
    && (HasLoop(pc) ==> Accounts(LoopOf(pc), Paths(st.documents, pc.job)))
    && (pc.Piping? ==> AtFile(pc) && !Skips(st, pc.loop))
  }

  ghost predicate Books(st: State) {
    DocumentsShape(st) && forall s :: s in st.slots ==> LoopShape(st, s)
  }

  // ---------------------------------------------------------------- counting

  lemma {:induction false} CountedGrows(files: seq<Path>, small: set<Path>, large: set<Path>)
    requires small <= large
    ensures Counted(files, small) <= Counted(files, large)
  {
    if files != [] {
      CountedGrows(files[..|files| - 1], small, large);
    }
  }

  lemma {:induction false} CountedIgnores(files: seq<Path>, have: set<Path>, p: Path)
    requires p !in files
    ensures Counted(files, have + {p}) == Counted(files, have)
  {
    if files != [] {
      CountedIgnores(files[..|files| - 1], have, p);
    }
  }

  lemma {:induction false} CountedAgrees(files: seq<Path>, a: set<Path>, b: set<Path>)
    requires forall p :: p in files ==> (p in a <==> p in b)
    ensures Counted(files, a) == Counted(files, b)
  {
    if files != [] {
      CountedAgrees(files[..|files| - 1], a, b);
    }
  }

  /** Counted is the size of a set of positions. */
  lemma {:induction false} CountedIsPositions(files: seq<Path>, have: set<Path>)
    ensures Counted(files, have) == |set k | 0 <= k < |files| && files[k] in have|
  {
    var positions := set k | 0 <= k < |files| && files[k] in have;
    if files != [] {
      var n := |files| - 1;
      var earlier := set k | 0 <= k < |files[..n]| && files[..n][k] in have;
      CountedIsPositions(files[..n], have);
      if files[n] in have {
        assert positions == earlier + {n};
      } else {
        assert positions == earlier;
      }
    }
  }

  lemma CountedNext(loop: Loop, have: set<Path>)
    requires loop.index < |loop.files|
    ensures Counted(loop.files[..loop.index + 1], have)
         == Counted(loop.files[..loop.index], have) + (if loop.files[loop.index] in have then 1 else 0)
  {
    assert loop.files[..loop.index + 1][..loop.index] == loop.files[..loop.index];
  }

  lemma PathsAfter(documents: seq<Document>, d: Document, j: JobId)
    ensures Paths(documents + [d], j) == if d.job == j then Paths(documents, j) + {d.path} else Paths(documents, j)
  {
    forall p
      ensures p in Paths(documents + [d], j) <==> p in Paths(documents, j) || (d.job == j && p == d.path)
    {
      if p in Paths(documents, j) {
        assert Document(j, p) in documents + [d];
      }
      if d.job == j && p == d.path {
        assert d == (documents + [d])[|documents|];
      }
    }
  }

  // ---------------------------------------------------------------- invariant

  lemma MovePcKeepsBooks(st: State, s: SlotId, pc: Pc)
    requires Books(st) && LoopShape(SetPc(st, s, pc), s)
    ensures Books(SetPc(st, s, pc))
  {
    var next := SetPc(st, s, pc);
    forall t | t in next.slots
      ensures LoopShape(next, t)
    {
      if t != s {
        assert LoopShape(st, t);
      }
    }
  }

  lemma PlainMoveKeepsBooks(st: State, s: SlotId, pc: Pc)
    requires Books(st) && !HasLoop(pc)
    ensures Books(SetPc(st, s, pc))
  {
    MovePcKeepsBooks(st, s, pc);
  }

  /** Books speak of slots and documents only. */
  lemma RowsDoNotMatter(st: State, next: State)
    requires Books(st)
    requires next.slots == st.slots && next.documents == st.documents && next.supported == st.supported
    ensures Books(next)
  {
    forall t | t in next.slots
      ensures LoopShape(next, t)
    {
      assert LoopShape(st, t);
    }
  }

  lemma BeginAccounts(files: seq<Path>, stored: set<Path>)
    ensures Accounts(Loop(files, 0, 0, stored, {}), stored)
  {
    assert files[..0] == [];
  }

  lemma SkipAccounts(loop: Loop, stored: set<Path>, counted: nat)
    requires Accounts(loop, stored) && loop.index < |loop.files|
    requires counted == 1 ==> loop.files[loop.index] in loop.already
    requires counted == 0 ==> loop.files[loop.index] !in loop.already + loop.mine
    requires counted <= 1
    ensures Accounts(loop.(index := loop.index + 1, created := loop.created + counted), stored)
  {
    CountedNext(loop, loop.already + loop.mine);
  }

  /** A pipeline failure moves on without counting. */
  lemma FailureAccounts(loop: Loop, stored: set<Path>)
    requires Accounts(loop, stored) && loop.index < |loop.files| && loop.files[loop.index] !in loop.already
    ensures Accounts(loop.(index := loop.index + 1), stored)
  {
    CountedNext(loop, loop.already + loop.mine);
    if Distinct(loop.files) {
      assert loop.files[loop.index] !in loop.files[..loop.index];
    }
  }

  lemma CommitAccounts(loop: Loop, stored: set<Path>)
    requires Accounts(loop, stored) && loop.index < |loop.files|
    requires var p := loop.files[loop.index]; p !in stored
    ensures var p := loop.files[loop.index];
            Accounts(loop.(index := loop.index + 1, created := loop.created + 1, mine := loop.mine + {p}), stored + {p})
  {
    var p := loop.files[loop.index];
    var before := loop.already + loop.mine;
    var after := loop.already + (loop.mine + {p});
    assert after == before + {p};
    CountedNext(loop, after);
    CountedGrows(loop.files[..loop.index], before, after);
    if Distinct(loop.files) {
      assert p !in loop.files[..loop.index];
      CountedIgnores(loop.files[..loop.index], before, p);
    }
    assert loop.files[..loop.index + 1] == loop.files[..loop.index] + [p];
  }

  lemma SkipKeepsBooks(st: State, s: SlotId)
    requires Books(st) && Enabled(st, Skip(s))
    ensures Books(SkipFile(st, s))
  {
    var pc := PcOf(st, s);
    assert LoopShape(st, s);
    assert SupportedOnly(st, pc.job);
    var counted := if pc.loop.files[pc.loop.index] in st.supported then 1 else 0;
    SkipAccounts(pc.loop, Paths(st.documents, pc.job), counted);
    MovePcKeepsBooks(st, s, PcOf(SkipFile(st, s), s));
  }

  ghost predicate SupportedOnly(st: State, j: JobId) {
    forall p :: p in Paths(st.documents, j) ==> p in st.supported
  }

  lemma CommitKeepsBooks(st: State, s: SlotId)
    requires Books(st) && Enabled(st, Commit(s))
    ensures Books(CommitFile(st, s))
  {
    var pc := PcOf(st, s);
    assert LoopShape(st, s);
    var p := pc.loop.files[pc.loop.index];
    var d := Document(pc.job, p);
    var next := CommitFile(st, s);
    if d in st.documents {
      PlainMoveKeepsBooks(st, s, PcOf(next, s));
    } else {
      CommitAccounts(pc.loop, Paths(st.documents, pc.job));
      PathsAfter(st.documents, d, pc.job);
      assert LoopShape(next, s);
      forall t | t in next.slots && t != s
        ensures LoopShape(next, t)
      {
        OneDocumentMore(st, next, d, t);
      }
      assert DocumentsShape(next);
    }
  }

  lemma OneDocumentMore(st: State, next: State, d: Document, t: SlotId)
    requires Books(st) && next.documents == st.documents + [d] && next.supported == st.supported
    requires PcOf(next, t) == PcOf(st, t) && t in st.slots && d !in st.documents
    ensures LoopShape(next, t)
  {
    assert LoopShape(st, t);
    if HasLoop(PcOf(st, t)) {
      PathsAfter(st.documents, d, PcOf(st, t).job);
    }
  }

  /** Every event keeps the books, whatever fail_job reads. */
  lemma StepKeepsBooks(st: State, ev: Event)
    requires Books(st) && Enabled(st, ev)
    ensures Books(Next(st, ev))
  {
    match ev
    case TakeSelected(s, _) => ClaimKeepsBooks(st, ev, s);
    case Claim(s, _, _, _) => ClaimKeepsBooks(st, ev, s);
    case Begin(s, files) =>
      BeginAccounts(files, Paths(st.documents, PcOf(st, s).job));
      MovePcKeepsBooks(st, s, PcOf(Next(st, ev), s));
    case Skip(s) => SkipKeepsBooks(st, s);
    case Beat(s, _) => BeatKeepsBooks(st, ev);
    case PipelineFails(s) =>
      assert LoopShape(st, s);
      FailureAccounts(PcOf(st, s).loop, Paths(st.documents, PcOf(st, s).job));
      MovePcKeepsBooks(st, s, PcOf(Next(st, ev), s));
    case Commit(s) => CommitKeepsBooks(st, s);
    case EndLoop(s) =>
      assert LoopShape(st, s);
      MovePcKeepsBooks(st, s, PcOf(Next(st, ev), s));
    case _ => OtherStepsKeepBooks(st, ev);
  }

  lemma BeatKeepsBooks(st: State, ev: Event)
    requires Books(st) && Enabled(st, ev) && ev.Beat?
    ensures Books(Next(st, ev))
  {
    assert LoopShape(st, ev.slot);
    MovePcKeepsBooks(st, ev.slot, PcOf(Next(st, ev), ev.slot));
    RowsDoNotMatter(SetPc(st, ev.slot, PcOf(Next(st, ev), ev.slot)), Next(st, ev));
  }

  /** Steps that only change rows, or leave a loop. */
  lemma OtherStepsKeepBooks(st: State, ev: Event)
    requires Books(st) && Enabled(st, ev)
    requires ev.Select? || ev.Load? || ev.Raise? || ev.Abort? || ev.Crash? || ev.Finish? || ev.Enqueue? || ev.Pulse?
             || ev.Reap? || ev.Cancel?
    ensures Books(Next(st, ev))
  {
    if ev.Enqueue? || ev.Pulse? || ev.Reap? || ev.Cancel? {
      RowsDoNotMatter(st, Next(st, ev));
    } else {
      PlainMoveKeepsBooks(st, ev.slot, PcOf(Next(st, ev), ev.slot));
      RowsDoNotMatter(SetPc(st, ev.slot, PcOf(Next(st, ev), ev.slot)), Next(st, ev));
    }
  }

  lemma ClaimKeepsBooks(st: State, ev: Event, s: SlotId)
    requires Books(st) && Enabled(st, ev) && (ev.TakeSelected? || ev.Claim?) && ev.slot == s
    ensures Books(Next(st, ev))
  {
    var moved := SetPc(st, s, PcOf(Next(st, ev), s));
    PlainMoveKeepsBooks(st, s, PcOf(Next(st, ev), s));
    RowsDoNotMatter(moved, Next(st, ev));
  }

  lemma {:induction false} RunKeepsBooks(st: State, run: seq<Event>)
    requires Books(st) && Legal(st, run)
    ensures Books(Exec(st, run))
    decreases |run|
  {
    if run != [] {
      StepKeepsBooks(st, run[0]);
      RunKeepsBooks(Next(st, run[0]), run[1..]);
    }
  }

  // ---------------------------------------------------------------- theorems

  /** Across all attempts of a job no path gets two documents, and none is stored
      for a file whose language is unknown. */
  lemma NoPathIsStoredTwice(supported: iset<Path>, run: seq<Event>)
    requires Legal(Init(supported), run)
    ensures var docs := Exec(Init(supported), run).documents;
            && (forall i, k :: 0 <= i < k < |docs| ==> docs[i].job != docs[k].job || docs[i].path != docs[k].path)
            && (forall d :: d in docs ==> d.path in Exec(Init(supported), run).supported)
  {
    RunKeepsBooks(Init(supported), run);
    assert DocumentsShape(Exec(Init(supported), run));
  }

  /** The reported number of documents never exceeds the files of the job, by
      position, that have a stored document. */
  lemma CreatedNeverExceedsStored(supported: iset<Path>, run: seq<Event>, s: SlotId)
    requires Legal(Init(supported), run)
    requires var pc := PcOf(Exec(Init(supported), run), s); pc.Ending? && pc.verdict.Documented?
    ensures var st := Exec(Init(supported), run);
            var pc := PcOf(st, s);
            var files := pc.verdict.loop.files;
            pc.verdict.loop.created <= |set k | 0 <= k < |files| && files[k] in Paths(st.documents, pc.job)|
  {
    RunKeepsBooks(Init(supported), run);
    var st := Exec(Init(supported), run);
    var pc := PcOf(st, s);
    assert LoopShape(st, s);
    var loop := pc.verdict.loop;
    CountedGrows(loop.files[..loop.index], loop.already + loop.mine, Paths(st.documents, pc.job));
    CountedPrefix(loop.files, loop.index, Paths(st.documents, pc.job));
    CountedIsPositions(loop.files, Paths(st.documents, pc.job));
  }

  lemma {:induction false} CountedPrefix(files: seq<Path>, n: nat, have: set<Path>)
    requires n <= |files|
    ensures Counted(files[..n], have) <= Counted(files, have)
    decreases |files|
  {
    if n == |files| {
      assert files[..n] == files;
    } else {
      var shorter := files[..|files| - 1];
      CountedPrefix(shorter, n, have);
      assert shorter[..n] == files[..n];
    }
  }

  /** Only this slot has stored documents of the job since its loop began. */
  ghost predicate NoOtherWriter(st: State, s: SlotId) {
    HasLoop(PcOf(st, s)) ==>
      Paths(st.documents, PcOf(st, s).job) == LoopOf(PcOf(st, s)).already + LoopOf(PcOf(st, s)).mine
  }

  ghost predicate StoresForeign(st: State, ev: Event, s: SlotId, j: JobId) {
    ev.Commit? && ev.slot != s && PcOf(st, ev.slot).On(j)
  }

  ghost predicate NoForeignCommit(st: State, run: seq<Event>, s: SlotId, j: JobId)
    requires Legal(st, run)
    decreases |run|
  {
    run == [] || (!StoresForeign(st, run[0], s, j) && NoForeignCommit(Next(st, run[0]), run[1..], s, j))
  }

  ghost predicate StaysOn(st: State, run: seq<Event>, s: SlotId, j: JobId)
    requires Legal(st, run)
    decreases |run|
  {
    HasLoop(PcOf(st, s)) && PcOf(st, s).job == j && (run == [] || StaysOn(Next(st, run[0]), run[1..], s, j))
  }

  lemma StepKeepsSoleWriter(st: State, ev: Event, s: SlotId, j: JobId)
    requires Books(st) && Enabled(st, ev) && NoOtherWriter(st, s)
    requires HasLoop(PcOf(st, s)) && PcOf(st, s).job == j && !StoresForeign(st, ev, s, j)
    requires HasLoop(PcOf(Next(st, ev), s)) && PcOf(Next(st, ev), s).job == j
    ensures NoOtherWriter(Next(st, ev), s)
    ensures LoopOf(PcOf(Next(st, ev), s)).files == LoopOf(PcOf(st, s)).files
  {
    if ev.Commit? {
      CommitKeepsSoleWriter(st, ev, s, j);
    } else {
      OnlyCommitsStore(st, ev);
    }
  }

  lemma OnlyCommitsStore(st: State, ev: Event)
    requires Enabled(st, ev) && !ev.Commit?
    ensures Next(st, ev).documents == st.documents
  {
  }

  lemma CommitKeepsSoleWriter(st: State, ev: Event, s: SlotId, j: JobId)
    requires Books(st) && Enabled(st, ev) && NoOtherWriter(st, s) && ev.Commit?
    requires HasLoop(PcOf(st, s)) && PcOf(st, s).job == j && !StoresForeign(st, ev, s, j)
    requires HasLoop(PcOf(Next(st, ev), s)) && PcOf(Next(st, ev), s).job == j
    ensures NoOtherWriter(Next(st, ev), s)
    ensures LoopOf(PcOf(Next(st, ev), s)).files == LoopOf(PcOf(st, s)).files
  {
    var pc := PcOf(st, ev.slot);
    var d := Document(pc.job, pc.loop.files[pc.loop.index]);
    PathsAfter(st.documents, d, j);
  }

  lemma {:induction false} RunKeepsSoleWriter(st: State, run: seq<Event>, s: SlotId, j: JobId)
    requires Books(st) && Legal(st, run) && NoOtherWriter(st, s)
    requires StaysOn(st, run, s, j) && NoForeignCommit(st, run, s, j)
    ensures Books(Exec(st, run)) && NoOtherWriter(Exec(st, run), s)
    ensures HasLoop(PcOf(Exec(st, run), s)) && PcOf(Exec(st, run), s).job == j
    ensures LoopOf(PcOf(Exec(st, run), s)).files == LoopOf(PcOf(st, s)).files
    decreases |run|
  {
    if run != [] {
      StepKeepsBooks(st, run[0]);
      StepKeepsSoleWriter(st, run[0], s, j);
      RunKeepsSoleWriter(Next(st, run[0]), run[1..], s, j);
    }
  }

  /** A loop that reached its last file, over distinct paths and with no other
      slot writing meanwhile, reports exactly the files that have a document. */
  lemma CreatedEqualsStored(supported: iset<Path>, before: seq<Event>, begin: Event, during: seq<Event>)
    requires Legal(Init(supported), before)
    requires begin.Begin? && Enabled(Exec(Init(supported), before), begin) && Distinct(begin.files)
    requires var started := Next(Exec(Init(supported), before), begin);
             && Legal(started, during)
             && StaysOn(started, during, begin.slot, PcOf(started, begin.slot).job)
             && NoForeignCommit(started, during, begin.slot, PcOf(started, begin.slot).job)
    requires var pc := PcOf(Exec(Next(Exec(Init(supported), before), begin), during), begin.slot);
             pc.Ending? && pc.verdict.Documented? && pc.verdict.loop.index == |begin.files|
    ensures var st := Exec(Next(Exec(Init(supported), before), begin), during);
            var pc := PcOf(st, begin.slot);
            var files := begin.files;
            pc.verdict.loop.created == |set k | 0 <= k < |files| && files[k] in Paths(st.documents, pc.job)|
  {
    RunKeepsBooks(Init(supported), before);
    var ready := Exec(Init(supported), before);
    StepKeepsBooks(ready, begin);
    var started := Next(ready, begin);
    RunKeepsSoleWriter(started, during, begin.slot, PcOf(started, begin.slot).job);
    var st := Exec(started, during);
    var pc := PcOf(st, begin.slot);
    assert LoopShape(st, begin.slot);
    assert begin.files[..|begin.files|] == begin.files;
    CountedIsPositions(begin.files, Paths(st.documents, pc.job));
  }

  /** The path a slot is sending through the pipeline. */
  ghost predicate Pipes(st: State, s: SlotId, j: JobId, p: Path) {
    var pc := PcOf(st, s);
    pc.Piping? && pc.job == j && AtFile(pc) && pc.loop.files[pc.loop.index] == p
  }

  /** A stored path is known to every loop of the slot on that job. */
  ghost predicate KnowsStored(st: State, s: SlotId, j: JobId, p: Path) {
    && Document(j, p) in st.documents
    && (HasLoop(PcOf(st, s)) && PcOf(st, s).job == j ==> p in LoopOf(PcOf(st, s)).already)
  }

  lemma DocumentsStay(st: State, ev: Event, d: Document)
    requires Enabled(st, ev) && d in st.documents
    ensures d in Next(st, ev).documents
  {
  }

  lemma LoopsKeepWhatTheyKnow(st: State, ev: Event, s: SlotId)
    requires Enabled(st, ev) && !(ev.Begin? && ev.slot == s) && HasLoop(PcOf(Next(st, ev), s))
    ensures HasLoop(PcOf(st, s)) && PcOf(Next(st, ev), s).job == PcOf(st, s).job
    ensures LoopOf(PcOf(Next(st, ev), s)).already == LoopOf(PcOf(st, s)).already
  {
  }

  lemma StepKeepsKnowledge(st: State, ev: Event, s: SlotId, j: JobId, p: Path)
    requires Enabled(st, ev) && KnowsStored(st, s, j, p)
    ensures KnowsStored(Next(st, ev), s, j, p)
  {
    DocumentsStay(st, ev, Document(j, p));
    if ev.Begin? && ev.slot == s {
      assert Document(j, p).path in Paths(st.documents, j);
    } else if HasLoop(PcOf(Next(st, ev), s)) {
      LoopsKeepWhatTheyKnow(st, ev, s);
    }
  }

  /** Resume: a path that has a document before a slot takes the job up never
      reaches the pipeline of that slot's attempts. */
  lemma {:induction false} StoredPathsAreNotDocumentedAgain(
    st: State, run: seq<Event>, s: SlotId, j: JobId, p: Path)
    requires Books(st) && Legal(st, run) && KnowsStored(st, s, j, p)
    ensures !Pipes(Exec(st, run), s, j, p)
    decreases |run|
  {
    if run == [] {
      assert PcOf(st, s).Piping? ==> LoopShape(st, s);
    } else {
      StepKeepsBooks(st, run[0]);
      StepKeepsKnowledge(st, run[0], s, j, p);
      StoredPathsAreNotDocumentedAgain(Next(st, run[0]), run[1..], s, j, p);
    }
  }

  /** The same, from the empty database: once `before` has stored the path and the
      slot is idle, no continuation sends it through that slot's pipeline. */
  lemma ResumeSkipsStoredPaths(
    supported: iset<Path>, before: seq<Event>, after: seq<Event>, s: SlotId, j: JobId, p: Path)
    requires Legal(Init(supported), before)
    requires Legal(Exec(Init(supported), before), after)
    requires PcOf(Exec(Init(supported), before), s).Idle?
    requires Document(j, p) in Exec(Init(supported), before).documents
    ensures !Pipes(Exec(Exec(Init(supported), before), after), s, j, p)
  {
    RunKeepsBooks(Init(supported), before);
    StoredPathsAreNotDocumentedAgain(Exec(Init(supported), before), after, s, j, p);
  }

  // ---------------------------------------------------------------- lost leases

  /** The attempt `epoch` of slot s on job j no longer holds the job. */
  ghost predicate Lost(st: State, s: SlotId, j: JobId, epoch: nat) {
    && j in st.jobs && epoch <= st.jobs[j].attempts
    && (PcOf(st, s).On(j) && PcOf(st, s).epoch == epoch ==> st.jobs[j].lockedBy != Some(s))
  }

  ghost predicate Stores(st: State, ev: Event, s: SlotId, j: JobId, epoch: nat)
    requires Enabled(st, ev)
  {
    && ev.Commit? && ev.slot == s && PcOf(st, s).On(j) && PcOf(st, s).epoch == epoch
    && Next(st, ev).documents != st.documents
  }

  ghost function CommitsOf(st: State, run: seq<Event>, s: SlotId, j: JobId, epoch: nat): nat
    requires Legal(st, run)
    decreases |run|
  {
    if run == [] then 0
    else (if Stores(st, run[0], s, j, epoch) then 1 else 0) + CommitsOf(Next(st, run[0]), run[1..], s, j, epoch)
  }

  /** One if the attempt is past its last heartbeat, zero otherwise. */
  function InFlight(st: State, s: SlotId, j: JobId, epoch: nat): nat {
    var pc := PcOf(st, s);
    if pc.Piping? && pc.job == j && pc.epoch == epoch then 1 else 0
  }

  lemma LostStaysLost(st: State, ev: Event, s: SlotId, j: JobId, epoch: nat)
    requires Shape(st) && Enabled(st, ev) && Lost(st, s, j, epoch)
    ensures Lost(Next(st, ev), s, j, epoch)
  {
    if ev.Claim? || ev.TakeSelected? {
      ClaimStartsNewEpoch(st, ev, j);
    } else {
      OnlyClaimsStartAttempts(st, ev, s, j);
    }
  }

  lemma OnlyClaimsStartAttempts(st: State, ev: Event, s: SlotId, j: JobId)
    requires Enabled(st, ev) && !ev.Claim? && !ev.TakeSelected? && j in st.jobs
    ensures j in Next(st, ev).jobs && Next(st, ev).jobs[j].attempts == st.jobs[j].attempts
    ensures Next(st, ev).jobs[j].lockedBy == Some(s) ==> st.jobs[j].lockedBy == Some(s)
    ensures PcOf(Next(st, ev), s).On(j) ==> PcOf(st, s).On(j) && PcOf(Next(st, ev), s).epoch == PcOf(st, s).epoch
  {
  }

  /** A claim raises the attempt count, so it never brings an old epoch back. */
  lemma ClaimStartsNewEpoch(st: State, ev: Event, j: JobId)
    requires Enabled(st, ev) && (ev.Claim? || ev.TakeSelected?) && j in st.jobs
    ensures j in Next(st, ev).jobs && st.jobs[j].attempts <= Next(st, ev).jobs[j].attempts
    ensures Next(st, ev).jobs[j] == st.jobs[j] || Next(st, ev).jobs[j].lockedBy == Some(ev.slot)
    ensures PcOf(Next(st, ev), ev.slot).On(j) ==> PcOf(Next(st, ev), ev.slot).epoch == st.jobs[j].attempts + 1
    ensures forall t :: t != ev.slot ==> PcOf(Next(st, ev), t) == PcOf(st, t)
  {
  }

  lemma CommitsUseUpTheFlight(st: State, ev: Event, s: SlotId, j: JobId, epoch: nat)
    requires Enabled(st, ev) && Lost(st, s, j, epoch)
    ensures InFlight(Next(st, ev), s, j, epoch) + (if Stores(st, ev, s, j, epoch) then 1 else 0)
         <= InFlight(st, s, j, epoch)
  {
  }

  lemma {:induction false} LostAttemptCommitsAtMostOnce(st: State, run: seq<Event>, s: SlotId, j: JobId, epoch: nat)
    requires Shape(st) && Legal(st, run) && Lost(st, s, j, epoch)
    ensures CommitsOf(st, run, s, j, epoch) <= InFlight(st, s, j, epoch)
    decreases |run|
  {
    if run != [] {
      StepKeepsShape(st, run[0]);
      LostStaysLost(st, run[0], s, j, epoch);
      CommitsUseUpTheFlight(st, run[0], s, j, epoch);
      LostAttemptCommitsAtMostOnce(Next(st, run[0]), run[1..], s, j, epoch);
    }
  }

  /** A slot that lost its job commits at most the one document it was already
      producing, in every continuation. */
  lemma LostSlotStoresAtMostOne(
    supported: iset<Path>, before: seq<Event>, after: seq<Event>, s: SlotId, j: JobId)
    requires Legal(Init(supported), before)
    requires Legal(Exec(Init(supported), before), after)
    requires var st := Exec(Init(supported), before);
             PcOf(st, s).On(j) && j in st.jobs && st.jobs[j].lockedBy != Some(s)
    ensures var st := Exec(Init(supported), before);
            && CommitsOf(st, after, s, j, PcOf(st, s).epoch) <= 1
            && (!PcOf(st, s).Piping? ==> CommitsOf(st, after, s, j, PcOf(st, s).epoch) == 0)
  {
    var st := Exec(Init(supported), before);
    RunKeepsShape(Init(supported), before);
    SlotShapeOf(st, s);
    LostAttemptCommitsAtMostOnce(st, after, s, j, PcOf(st, s).epoch);
  }
}

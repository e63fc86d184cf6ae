/** The audit and rewrite loop, and a whole run of the pipeline over one file, as
    pipeline.py does. Whatever a model answers is an arbitrary value. */
module Review {
  import opened Prelude
  import opened Spans
  import opened Text
  import opened Chunking
  import opened LineChunks
  import opened Anchoring

  /** What the writer answered for one rejected symbol: the target's place in the list of
      targets, and nothing when the provider failed. */
  datatype Rewrite = Rewrite(target: nat, answer: Option<seq<SymbolDoc>>)

  datatype Audit = Unavailable | Verdict(approved: bool, rejected: seq<string>, feedback: string)

  /** All the answers of one run. The audit of each round, and the rewrites of each round
      in the order in which they finish. */
  datatype Answers = Answers(audit: nat -> Audit, rewrites: nat -> seq<Rewrite>)

  predicate SameLines(a: SymbolDoc, b: SymbolDoc) {
    a.lineStart == b.lineStart && a.lineEnd == b.lineEnd
  }

  predicate SameAnchor(a: SymbolDoc, b: SymbolDoc) {
    a.name == b.name && SameLines(a, b)
  }

  // ---------------------------------------------------------------- rewriting

  function Targets(docs: seq<SymbolDoc>, rejected: set<string>): seq<SymbolDoc> {
    if docs == [] then []
    else
      var n := |docs| - 1;
      Targets(docs[..n], rejected) + if docs[n].name in rejected then [docs[n]] else []
  }

  /** The rewrites keep the place and the facts of the symbol they rewrite. */
  function Replacing(candidate: SymbolDoc, target: SymbolDoc): SymbolDoc {
    candidate.(lineStart := target.lineStart, lineEnd := target.lineEnd, language := target.language,
               complexity := target.complexity)
  }

  /** Every entry comes from a target of that name. */
  ghost predicate FromTargets(rewritten: map<string, SymbolDoc>, targets: seq<SymbolDoc>) {
    forall name :: name in rewritten ==>
      exists t :: 0 <= t < |targets| && targets[t].name == name && SameAnchor(rewritten[name], targets[t])
  }

  /** The last candidate of the right name wins. */
  function OneRewrite(rewritten: map<string, SymbolDoc>, target: SymbolDoc, candidates: seq<SymbolDoc>)
    : map<string, SymbolDoc>
  {
    if candidates == [] then rewritten
    else
      var n := |candidates| - 1;
      var before := OneRewrite(rewritten, target, candidates[..n]);
      if candidates[n].name == target.name then before[target.name := Replacing(candidates[n], target)] else before
  }

  function AllRewrites(targets: seq<SymbolDoc>, done: seq<Rewrite>): map<string, SymbolDoc> {
    if done == [] then map[]
    else
      var n := |done| - 1;
      var before := AllRewrites(targets, done[..n]);
      if done[n].target < |targets| && done[n].answer.Some? then
        OneRewrite(before, targets[done[n].target], done[n].answer.value)
      else before
  }

  function Replaced(docs: seq<SymbolDoc>, rewritten: map<string, SymbolDoc>): seq<SymbolDoc> {
    seq(|docs|, i requires 0 <= i < |docs| => if docs[i].name in rewritten then rewritten[docs[i].name] else docs[i])
  }

  function Rewritten(docs: seq<SymbolDoc>, rejected: set<string>, done: seq<Rewrite>): seq<SymbolDoc> {
    Replaced(docs, AllRewrites(Targets(docs, rejected), done))
  }

  /** _rewrite_rejected. */
  method RewriteRejected(docs: seq<SymbolDoc>, rejected: set<string>, done: seq<Rewrite>)
    returns (r: seq<SymbolDoc>)
    ensures r == Rewritten(docs, rejected, done)
  {
    var targets := [];
    for i := 0 to |docs|
      invariant targets == Targets(docs[..i], rejected)
    {
      assert docs[..i + 1][..i] == docs[..i];
      if docs[i].name in rejected {
        targets := targets + [docs[i]];
      }
    }
    assert docs[..|docs|] == docs;
    var rewritten: map<string, SymbolDoc> := map[];
    for i := 0 to |done|
      invariant rewritten == AllRewrites(targets, done[..i])
    {
      assert done[..i + 1][..i] == done[..i];
      if done[i].target < |targets| && done[i].answer.Some? {
        rewritten := RewriteOne(rewritten, targets[done[i].target], done[i].answer.value);
      }
    }
    assert done[..|done|] == done;
    r := seq(|docs|, i requires 0 <= i < |docs| =>
                     if docs[i].name in rewritten then rewritten[docs[i].name] else docs[i]);
  }

  method RewriteOne(before: map<string, SymbolDoc>, target: SymbolDoc, candidates: seq<SymbolDoc>)
    returns (rewritten: map<string, SymbolDoc>)
    ensures rewritten == OneRewrite(before, target, candidates)
  {
    rewritten := before;
    for j := 0 to |candidates|
      invariant rewritten == OneRewrite(before, target, candidates[..j])
    {
      assert candidates[..j + 1][..j] == candidates[..j];
      if candidates[j].name == target.name {
        rewritten := rewritten[target.name := Replacing(candidates[j], target)];
      }
    }
    assert candidates[..|candidates|] == candidates;
  }

  lemma {:induction false} TargetsAreRejected(docs: seq<SymbolDoc>, rejected: set<string>)
    ensures forall d :: d in Targets(docs, rejected) <==> d in docs && d.name in rejected
  {
    if docs != [] {
      var n := |docs| - 1;
      TargetsAreRejected(docs[..n], rejected);
      assert docs == docs[..n] + [docs[n]];
    }
  }

  lemma {:induction false} OneRewriteIsAnchored(before: map<string, SymbolDoc>, targets: seq<SymbolDoc>, t: nat,
                                                candidates: seq<SymbolDoc>)
    requires FromTargets(before, targets) && t < |targets|
    ensures FromTargets(OneRewrite(before, targets[t], candidates), targets)
  {
    if candidates != [] {
      OneRewriteIsAnchored(before, targets, t, candidates[..|candidates| - 1]);
    }
  }

  lemma {:induction false} AllRewritesAreAnchored(targets: seq<SymbolDoc>, done: seq<Rewrite>)
    ensures FromTargets(AllRewrites(targets, done), targets)
  {
    if done != [] {
      var n := |done| - 1;
      AllRewritesAreAnchored(targets, done[..n]);
      if done[n].target < |targets| && done[n].answer.Some? {
        OneRewriteIsAnchored(AllRewrites(targets, done[..n]), targets, done[n].target, done[n].answer.value);
      }
    }
  }

  /** A rewrite round keeps the number of symbols and every name; what it writes at a place
      carries the lines of some symbol of that name; a name not rejected is not touched. */
  lemma RewritingStaysAnchored(docs: seq<SymbolDoc>, rejected: set<string>, done: seq<Rewrite>, i: nat)
    requires i < |docs|
    ensures |Rewritten(docs, rejected, done)| == |docs|
    ensures docs[i].name !in rejected ==> Rewritten(docs, rejected, done)[i] == docs[i]
    ensures exists j :: 0 <= j < |docs| && docs[j].name == docs[i].name
                        && SameAnchor(Rewritten(docs, rejected, done)[i], docs[j])
  {
    var targets := Targets(docs, rejected);
    var rewritten := AllRewrites(targets, done);
    TargetsAreRejected(docs, rejected);
    AllRewritesAreAnchored(targets, done);
    if docs[i].name in rewritten {
      var t :| 0 <= t < |targets| && targets[t].name == docs[i].name
               && SameAnchor(rewritten[docs[i].name], targets[t]);
      assert targets[t] in targets;
      var j :| 0 <= j < |docs| && docs[j] == targets[t];
    } else {
      assert SameAnchor(Rewritten(docs, rejected, done)[i], docs[i]);
    }
  }

  /** Rewrites are filed by bare name, so a place is sure to keep its own lines exactly
      when rejected symbols of one name all have the same lines. */
  ghost predicate NamesTellLines(docs: seq<SymbolDoc>, rejected: set<string>) {
    forall i, j :: 0 <= i < |docs| && 0 <= j < |docs| && docs[i].name == docs[j].name && docs[i].name in rejected ==>
      SameLines(docs[i], docs[j])
  }

  ghost predicate KeepsLines(docs: seq<SymbolDoc>, rejected: set<string>, done: seq<Rewrite>) {
    forall i :: 0 <= i < |docs| ==> SameLines(Rewritten(docs, rejected, done)[i], docs[i])
  }

  lemma PlacesKeepTheirLinesExactlyWhen(docs: seq<SymbolDoc>, rejected: set<string>)
    ensures (forall done :: KeepsLines(docs, rejected, done)) <==> NamesTellLines(docs, rejected)
  {
    if NamesTellLines(docs, rejected) {
      forall done
        ensures KeepsLines(docs, rejected, done)
      {
        forall i | 0 <= i < |docs|
          ensures SameLines(Rewritten(docs, rejected, done)[i], docs[i])
        {
          RewritingStaysAnchored(docs, rejected, done, i);
        }
      }
    }
    if !NamesTellLines(docs, rejected) {
      var i, j :| 0 <= i < |docs| && 0 <= j < |docs| && docs[i].name == docs[j].name && docs[i].name in rejected
                  && !SameLines(docs[i], docs[j]);
      var done := LinesOfAnother(docs, rejected, i, j);
      assert !KeepsLines(docs, rejected, done);
    }
  }

  /** One answer that echoes symbol j back puts its lines on symbol i of the same name. */
  lemma LinesOfAnother(docs: seq<SymbolDoc>, rejected: set<string>, i: nat, j: nat) returns (done: seq<Rewrite>)
    requires i < |docs| && j < |docs| && docs[i].name == docs[j].name && docs[i].name in rejected
    ensures SameLines(Rewritten(docs, rejected, done)[i], docs[j])
  {
    var targets := Targets(docs, rejected);
    TargetsAreRejected(docs, rejected);
    assert docs[j] in targets;
    var t :| 0 <= t < |targets| && targets[t] == docs[j];
    done := [Rewrite(t, Some([docs[j]]))];
    assert done[..0] == [] && [docs[j]][..0] == [];
    assert AllRewrites(targets, done[..0]) == map[];
    assert OneRewrite(map[], docs[j], [docs[j]][..0]) == map[];
    assert OneRewrite(map[], docs[j], [docs[j]]) == map[docs[j].name := Replacing(docs[j], docs[j])];
  }

  // ---------------------------------------------------------------- what a rewrite puts in place

  /** The document is the candidate's text at the target's place: what it says comes from the
      candidate, where it stands and what the parser measured from the target. */
  predicate IsRewriteOf(doc: SymbolDoc, candidate: SymbolDoc, target: SymbolDoc) {
    && doc.name == candidate.name && doc.parent == candidate.parent && doc.signature == candidate.signature
    && doc.description == candidate.description && doc.prose == candidate.prose
    && doc.lineStart == target.lineStart && doc.lineEnd == target.lineEnd
    && doc.language == target.language && doc.complexity == target.complexity
  }

  /** Candidate c is the last of the name in the list. */
  predicate LastOfName(candidates: seq<SymbolDoc>, name: string, c: nat) {
    c < |candidates| && candidates[c].name == name && forall d :: c < d < |candidates| ==> candidates[d].name != name
  }

  predicate HasName(candidates: seq<SymbolDoc>, name: string) {
    exists d :: 0 <= d < |candidates| && candidates[d].name == name
  }

  /** Answer k came for a rejected symbol of the name and has a candidate of the name. */
  predicate Speaks(targets: seq<SymbolDoc>, done: seq<Rewrite>, name: string, k: nat) {
    && k < |done| && done[k].target < |targets| && targets[done[k].target].name == name
    && done[k].answer.Some? && HasName(done[k].answer.value, name)
  }

  /** Answer k is the last that speaks of the name, and c its last candidate of the name. */
  predicate HasLastWord(targets: seq<SymbolDoc>, done: seq<Rewrite>, name: string, k: nat, c: nat) {
    && Speaks(targets, done, name, k) && LastOfName(done[k].answer.value, name, c)
    && forall l :: k < l < |done| ==> !Speaks(targets, done, name, l)
  }

  lemma {:induction false} LastCandidateWins(before: map<string, SymbolDoc>, target: SymbolDoc,
                                             candidates: seq<SymbolDoc>, c: nat)
    requires LastOfName(candidates, target.name, c)
    ensures target.name in OneRewrite(before, target, candidates)
    ensures IsRewriteOf(OneRewrite(before, target, candidates)[target.name], candidates[c], target)
  {
    var n := |candidates| - 1;
    if c < n {
      LastCandidateWins(before, target, candidates[..n], c);
    }
  }

  lemma {:induction false} OtherNamesStay(before: map<string, SymbolDoc>, target: SymbolDoc,
                                          candidates: seq<SymbolDoc>, name: string)
    requires target.name != name || !HasName(candidates, name)
    ensures name in OneRewrite(before, target, candidates) <==> name in before
    ensures name in before ==> OneRewrite(before, target, candidates)[name] == before[name]
  {
    if candidates != [] {
      var n := |candidates| - 1;
      assert target.name == name ==> candidates[n].name != name && !HasName(candidates[..n], name);
      OtherNamesStay(before, target, candidates[..n], name);
    }
  }

  /** One answer more that does not speak of the name. */
  lemma SilentAnswer(targets: seq<SymbolDoc>, done: seq<Rewrite>, name: string)
    requires done != [] && !Speaks(targets, done, name, |done| - 1)
    ensures name in AllRewrites(targets, done) <==> name in AllRewrites(targets, done[..|done| - 1])
    ensures name in AllRewrites(targets, done) ==>
              AllRewrites(targets, done)[name] == AllRewrites(targets, done[..|done| - 1])[name]
  {
    var n := |done| - 1;
    if done[n].target < |targets| && done[n].answer.Some? {
      OtherNamesStay(AllRewrites(targets, done[..n]), targets[done[n].target], done[n].answer.value, name);
    }
  }

  lemma {:induction false} LastWordCounts(targets: seq<SymbolDoc>, done: seq<Rewrite>, name: string, k: nat, c: nat)
    requires HasLastWord(targets, done, name, k, c)
    ensures name in AllRewrites(targets, done)
    ensures IsRewriteOf(AllRewrites(targets, done)[name], done[k].answer.value[c], targets[done[k].target])
    decreases |done|
  {
    var n := |done| - 1;
    if k == n {
      LastCandidateWins(AllRewrites(targets, done[..n]), targets[done[n].target], done[n].answer.value, c);
    } else {
      SilentAnswer(targets, done, name);
      assert forall l :: k < l < n ==> (Speaks(targets, done[..n], name, l) ==> Speaks(targets, done, name, l));
      LastWordCounts(targets, done[..n], name, k, c);
    }
  }

  lemma {:induction false} SilenceAdds(targets: seq<SymbolDoc>, done: seq<Rewrite>, name: string)
    requires forall k :: 0 <= k < |done| ==> !Speaks(targets, done, name, k)
    ensures name !in AllRewrites(targets, done)
    decreases |done|
  {
    if done != [] {
      SilentAnswer(targets, done, name);
      var front := done[..|done| - 1];
      assert forall k :: 0 <= k < |front| ==> (Speaks(targets, front, name, k) ==> Speaks(targets, done, name, k));
      SilenceAdds(targets, front, name);
    }
  }

  /** A rewrite takes effect: where some answer speaks of a rejected symbol's name, the symbol
      becomes the last candidate of the last such answer, at the place it was asked for. */
  lemma RewriteTakesEffect(docs: seq<SymbolDoc>, rejected: set<string>, done: seq<Rewrite>, i: nat, k: nat, c: nat)
    requires i < |docs| && HasLastWord(Targets(docs, rejected), done, docs[i].name, k, c)
    ensures i < |Rewritten(docs, rejected, done)|
    ensures IsRewriteOf(Rewritten(docs, rejected, done)[i], done[k].answer.value[c],
                        Targets(docs, rejected)[done[k].target])
  {
    LastWordCounts(Targets(docs, rejected), done, docs[i].name, k, c);
  }

  /** And only there: a symbol of whose name no answer speaks stays as it is. */
  lemma UnansweredStays(docs: seq<SymbolDoc>, rejected: set<string>, done: seq<Rewrite>, i: nat)
    requires i < |docs|
    requires forall k :: 0 <= k < |done| ==> !Speaks(Targets(docs, rejected), done, docs[i].name, k)
    ensures i < |Rewritten(docs, rejected, done)| && Rewritten(docs, rejected, done)[i] == docs[i]
  {
    SilenceAdds(Targets(docs, rejected), done, docs[i].name);
  }

  // ---------------------------------------------------------------- the review loop

  datatype Reviewed = Reviewed(symbols: seq<SymbolDoc>, feedback: string, approved: bool, rounds: nat, audits: nat,
                               warnings: nat)

  function Names(rejected: seq<string>): set<string> {
    set k | 0 <= k < |rejected| :: rejected[k]
  }

  predicate AsksForRewrite(audit: Audit) {
    audit.Verdict? && !audit.approved && audit.rejected != []
  }

  function AfterAudit(r: Reviewed, audit: Audit): Reviewed {
    if audit.Unavailable? then r.(audits := r.audits + 1, warnings := r.warnings + 1)
    else r.(audits := r.audits + 1, feedback := audit.feedback, approved := audit.approved)
  }

  /** The rejected symbols rewritten. */
  function NextDraft(r: Reviewed, audit: Audit, done: seq<Rewrite>): Reviewed
    requires AsksForRewrite(audit)
  {
    AfterAudit(r, audit).(rounds := r.rounds + 1, symbols := Rewritten(r.symbols, Names(audit.rejected), done))
  }

  /** The loop from `round` on, for at most `maxRounds` rewrites. */
  function ReviewFrom(r: Reviewed, answers: Answers, round: nat, maxRounds: int): Reviewed
    decreases maxRounds + 1 - round
  {
    var audit := answers.audit(round);
    if round > maxRounds then r
    else if !AsksForRewrite(audit) then AfterAudit(r, audit)
    else if round == maxRounds then AfterAudit(r, audit).(warnings := r.warnings + 1)
    else ReviewFrom(NextDraft(r, audit, answers.rewrites(round)), answers, round + 1, maxRounds)
  }

  ghost predicate HasAnchor(doc: SymbolDoc, given: seq<SymbolDoc>) {
    exists j :: 0 <= j < |given| && SameAnchor(doc, given[j])
  }

  /** Documents keep their names and stay within the anchors of the documents given. */
  ghost predicate WithinAnchors(docs: seq<SymbolDoc>, given: seq<SymbolDoc>) {
    |docs| == |given| &&
    forall i :: 0 <= i < |docs| ==> docs[i].name == given[i].name && HasAnchor(docs[i], given)
  }

  lemma RewritingStaysWithin(docs: seq<SymbolDoc>, given: seq<SymbolDoc>, rejected: set<string>, done: seq<Rewrite>)
    requires WithinAnchors(docs, given)
    ensures WithinAnchors(Rewritten(docs, rejected, done), given)
  {
    var next := Rewritten(docs, rejected, done);
    forall i | 0 <= i < |docs|
      ensures next[i].name == given[i].name && HasAnchor(next[i], given)
    {
      RewritingStaysAnchored(docs, rejected, done, i);
      var k :| 0 <= k < |docs| && docs[k].name == docs[i].name && SameAnchor(next[i], docs[k]);
      var j :| 0 <= j < |given| && SameAnchor(docs[k], given[j]);
      assert SameAnchor(next[i], given[j]);
    }
  }

  /** The loop never adds, drops or renames a symbol, and lines stay among those it was given. */
  lemma {:induction false} ReviewStaysAnchored(r: Reviewed, given: seq<SymbolDoc>, answers: Answers, round: nat,
                                               maxRounds: int, end: seq<SymbolDoc>)
    requires WithinAnchors(r.symbols, given)
    requires end == ReviewFrom(r, answers, round, maxRounds).symbols
    ensures WithinAnchors(end, given)
    decreases maxRounds + 1 - round
  {
    if round < maxRounds && AsksForRewrite(answers.audit(round)) {
      var next := NextDraft(r, answers.audit(round), answers.rewrites(round));
      RewritingStaysWithin(r.symbols, given, Names(answers.audit(round).rejected), answers.rewrites(round));
      ReviewStaysAnchored(next, given, answers, round + 1, maxRounds, end);
    }
  }

  /** At most maxRounds rewrites and maxRounds + 1 audits, an audit after every rewrite,
      and never a second audit of what was approved. */
  lemma {:induction false} ReviewIsBounded(r: Reviewed, answers: Answers, round: nat, maxRounds: int)
    ensures var end := ReviewFrom(r, answers, round, maxRounds);
            && 0 <= end.rounds - r.rounds <= Max(maxRounds - round, 0)
            && end.audits - r.audits == (if round > maxRounds then 0 else end.rounds - r.rounds + 1)
            && forall k :: round <= k < round + end.rounds - r.rounds ==>
                 AsksForRewrite(answers.audit(k))
    decreases maxRounds + 1 - round
  {
    if round < maxRounds && AsksForRewrite(answers.audit(round)) {
      ReviewIsBounded(NextDraft(r, answers.audit(round), answers.rewrites(round)), answers, round + 1, maxRounds);
    }
  }

  /** The rounds from `round` on up to `last` end with a rewrite, and the one after does not. */
  ghost predicate StopsAt(answers: Answers, round: nat, maxRounds: int, last: nat) {
    && round <= last <= maxRounds
    && (forall k :: round <= k < last ==> AsksForRewrite(answers.audit(k)))
    && (last == maxRounds || !AsksForRewrite(answers.audit(last)))
  }

  /** What the loop reports: the verdict and the feedback are those of the last audit that was
      answered, and a warning is due when the last audit failed or rejected what no
      round was left for. */
  lemma {:induction false} ReviewReports(r: Reviewed, answers: Answers, round: nat, maxRounds: int, last: nat)
    requires StopsAt(answers, round, maxRounds, last)
    ensures var end, audit := ReviewFrom(r, answers, round, maxRounds), answers.audit(last);
            && end.rounds == r.rounds + last - round && end.audits == r.audits + last - round + 1
            && (audit.Verdict? ==> end.approved == audit.approved && end.feedback == audit.feedback)
            && (audit.Unavailable? && last > round ==>
                  answers.audit(last - 1).Verdict? && !end.approved
                  && end.feedback == answers.audit(last - 1).feedback)
            && (audit.Unavailable? && last == round ==> end.approved == r.approved && end.feedback == r.feedback)
            && end.warnings == r.warnings + if audit.Unavailable? || AsksForRewrite(audit) then 1 else 0
    decreases last - round
  {
    if round < last {
      assert AsksForRewrite(answers.audit(round));
      var next := NextDraft(r, answers.audit(round), answers.rewrites(round));
      assert ReviewFrom(r, answers, round, maxRounds) == ReviewFrom(next, answers, round + 1, maxRounds);
      ReviewReports(next, answers, round + 1, maxRounds, last);
    }
  }

  /** What no audit rejects is what the writer wrote: it leaves the loop as it came. */
  lemma {:induction false} NeverRejectedStays(r: Reviewed, answers: Answers, round: nat, maxRounds: int, i: nat)
    requires i < |r.symbols|
    requires forall k :: round <= k < maxRounds && AsksForRewrite(answers.audit(k)) ==>
               r.symbols[i].name !in answers.audit(k).rejected
    ensures var end := ReviewFrom(r, answers, round, maxRounds);
            |end.symbols| == |r.symbols| && end.symbols[i] == r.symbols[i]
    decreases maxRounds + 1 - round
  {
    if round < maxRounds && AsksForRewrite(answers.audit(round)) {
      var rejected := Names(answers.audit(round).rejected);
      RewritingStaysAnchored(r.symbols, rejected, answers.rewrites(round), i);
      var next := NextDraft(r, answers.audit(round), answers.rewrites(round));
      NeverRejectedStays(next, answers, round + 1, maxRounds, i);
    }
  }

  class PipelineResult {
    var symbols: seq<SymbolDoc>
    var feedback: string
    var approved: bool
    var rounds: nat
    var chunksProcessed: nat
    var chunksFailed: nat
    var warnings: nat

    constructor ()
      ensures symbols == [] && feedback == "" && approved && rounds == 0
      ensures chunksProcessed == 0 && chunksFailed == 0 && warnings == 0
    {
      symbols, feedback, approved, rounds := [], "", true, 0;
      chunksProcessed, chunksFailed, warnings := 0, 0, 0;
    }

    ghost function Seen(audits: nat): Reviewed
      reads this
    {
      Reviewed(symbols, feedback, approved, rounds, audits, warnings)
    }
  }

  /** _review_loop. Returns how many audits it asked for. */
  method ReviewLoop(result: PipelineResult, answers: Answers, maxRounds: int) returns (audits: nat)
    modifies result`symbols, result`feedback, result`approved, result`rounds, result`warnings
    ensures result.Seen(audits) == ReviewFrom(old(result.Seen(0)), answers, 0, maxRounds)
  {
    audits := 0;
    var round := 0;
    while round < maxRounds + 1
      invariant ReviewFrom(result.Seen(audits), answers, round, maxRounds)
             == ReviewFrom(old(result.Seen(0)), answers, 0, maxRounds)
    {
      var audit := answers.audit(round);
      audits := audits + 1;
      if audit.Unavailable? {
        result.warnings := result.warnings + 1;
        return;
      }
      result.feedback := audit.feedback;
      result.approved := audit.approved;
      if audit.approved || audit.rejected == [] {
        return;
      }
      if round >= maxRounds {
        result.warnings := result.warnings + 1;
        return;
      }
      result.rounds := result.rounds + 1;
      result.symbols := RewriteRejected(result.symbols, Names(audit.rejected), answers.rewrites(round));
      round := round + 1;
    }
  }

  // ---------------------------------------------------------------- a whole run

  /** Everything the chunks keep, in chunk order; a chunk whose writer failed adds nothing. */
  function Gathered(chunks: seq<CodeChunk>, writer: nat -> Option<seq<SymbolDoc>>, language: string): seq<SymbolDoc> {
    if chunks == [] then []
    else
      var n := |chunks| - 1;
      Gathered(chunks[..n], writer, language) +
      if writer(n).Some? then Accepted(writer(n).value, chunks[n].symbols, language) else []
  }

  function Failures(n: nat, writer: nat -> Option<seq<SymbolDoc>>): nat {
    if n == 0 then 0 else Failures(n - 1, writer) + if writer(n - 1).None? then 1 else 0
  }

  function Discarded(docs: seq<SymbolDoc>, spans: seq<SymbolSpan>): seq<string> {
    if spans == [] then [] else Dropped(docs, spans)
  }

  /** The names that no chunk could anchor, in chunk order. */
  function Invented(chunks: seq<CodeChunk>, writer: nat -> Option<seq<SymbolDoc>>): seq<string> {
    if chunks == [] then []
    else
      var n := |chunks| - 1;
      Invented(chunks[..n], writer) + if writer(n).Some? then Discarded(writer(n).value, chunks[n].symbols) else []
  }

  /** How many documents the writers of the first n chunks gave. */
  function Written(n: nat, writer: nat -> Option<seq<SymbolDoc>>): nat {
    if n == 0 then 0 else Written(n - 1, writer) + if writer(n - 1).Some? then |writer(n - 1).value| else 0
  }

  /** Nothing is lost unreported: each document that a writer gave is kept or its name reported. */
  lemma {:induction false} EveryAnswerIsAccountedFor(
    chunks: seq<CodeChunk>, writer: nat -> Option<seq<SymbolDoc>>, language: string)
    ensures |Gathered(chunks, writer, language)| + |Invented(chunks, writer)| == Written(|chunks|, writer)
  {
    if chunks != [] {
      var n := |chunks| - 1;
      EveryAnswerIsAccountedFor(chunks[..n], writer, language);
      if writer(n).Some? {
        KeptIsAnchored(writer(n).value, chunks[n].symbols, language);
      }
    }
  }

  lemma {:induction false} FailuresCount(n: nat, writer: nat -> Option<seq<SymbolDoc>>)
    ensures Failures(n, writer) <= n
    ensures Failures(n, writer) == n <==> forall k :: 0 <= k < n ==> writer(k).None?
  {
    if n > 0 {
      FailuresCount(n - 1, writer);
    }
  }

  /** _process_chunks, writers only. */
  method ProcessChunks(chunks: seq<CodeChunk>, writer: nat -> Option<seq<SymbolDoc>>, language: string)
    returns (symbols: seq<SymbolDoc>, failed: nat, invented: seq<string>)
    ensures symbols == Sorted(Best(Gathered(chunks, writer, language)))
    ensures failed == Failures(|chunks|, writer) && invented == Invented(chunks, writer)
  {
    var gathered: seq<SymbolDoc> := [];
    failed, invented := 0, [];
    for i := 0 to |chunks|
      invariant gathered == Gathered(chunks[..i], writer, language) && failed == Failures(i, writer)
      invariant invented == Invented(chunks[..i], writer)
    {
      assert chunks[..i + 1][..i] == chunks[..i];
      if writer(i).None? {
        failed := failed + 1;
      } else {
        var accepted, discarded := Enrich(writer(i).value, chunks[i].symbols, language);
        gathered := gathered + accepted;
        invented := invented + discarded;
      }
    }
    assert chunks[..|chunks|] == chunks;
    symbols := DedupeSymbols(gathered);
  }

  lemma {:induction false} FlattenHolds(runs: seq<seq<SymbolSpan>>, r: nat, s: SymbolSpan)
    requires r < |runs| && s in runs[r]
    ensures s in Flatten(runs)
  {
    if r > 0 {
      FlattenHolds(runs[1..], r - 1, s);
    }
  }

  lemma {:induction false} GatheredIsAnchored(chunks: seq<CodeChunk>, writer: nat -> Option<seq<SymbolDoc>>,
                                              language: string, spans: seq<SymbolSpan>)
    requires forall c :: c in chunks ==> c.symbols != [] && forall s :: s in c.symbols ==> s in spans
    ensures AllAnchored(Gathered(chunks, writer, language), spans)
  {
    if chunks != [] {
      var n := |chunks| - 1;
      GatheredIsAnchored(chunks[..n], writer, language, spans);
      if writer(n).Some? {
        var own := chunks[n].symbols;
        var kept := Kept(writer(n).value, own, language);
        KeptIsAnchored(writer(n).value, own, language);
        forall i | 0 <= i < |kept|
          ensures Anchored(kept[i], spans)
        {
          var k :| 0 <= k < |own| && Describes(kept[i], own[k]);
          assert own[k] in spans;
        }
      }
    }
  }

  lemma SortedBestIsAnchored(docs: seq<SymbolDoc>, spans: seq<SymbolSpan>)
    requires AllAnchored(docs, spans)
    ensures AllAnchored(Sorted(Best(docs)), spans)
  {
    DedupeKeepsTheFirstLongest(docs);
    var kept := Sorted(Best(docs));
    forall i | 0 <= i < |kept|
      ensures Anchored(kept[i], spans)
    {
      assert kept[i] in docs;
    }
  }

  lemma WithinAnchorsIsAnchored(docs: seq<SymbolDoc>, given: seq<SymbolDoc>, spans: seq<SymbolSpan>)
    requires WithinAnchors(docs, given) && AllAnchored(given, spans)
    ensures AllAnchored(docs, spans)
  {
    forall i | 0 <= i < |docs|
      ensures Anchored(docs[i], spans)
    {
      var j :| 0 <= j < |given| && SameAnchor(docs[i], given[j]);
      var k :| 0 <= k < |spans| && Describes(given[j], spans[k]);
      assert Describes(docs[i], spans[k]);
    }
  }

  /** End to end, on every answer the models may give: chunks of the parser's spans, the
      writer's answers filtered and deduplicated, and any number of rewrites, leave only
      documents with the name and lines of some span of the file. */
  lemma DocumentationIsAnchored(spans: seq<SymbolSpan>, chunks: seq<CodeChunk>,
                                writer: nat -> Option<seq<SymbolDoc>>, language: string, answers: Answers,
                                maxRounds: int, r: Reviewed)
    requires Flatten(SymbolLists(chunks)) == spans
    requires forall i :: 0 <= i < |chunks| ==> chunks[i].symbols != []
    requires r.symbols == Sorted(Best(Gathered(chunks, writer, language)))
    ensures AllAnchored(r.symbols, spans)
    ensures AllAnchored(ReviewFrom(r, answers, 0, maxRounds).symbols, spans)
    ensures |ReviewFrom(r, answers, 0, maxRounds).symbols| == |r.symbols|
  {
    forall c | c in chunks
      ensures c.symbols != [] && forall s :: s in c.symbols ==> s in spans
    {
      var k :| 0 <= k < |chunks| && chunks[k] == c;
      assert SymbolLists(chunks)[k] == c.symbols;
      forall s | s in c.symbols
        ensures s in spans
      {
        FlattenHolds(SymbolLists(chunks), k, s);
      }
    }
    GatheredIsAnchored(chunks, writer, language, spans);
    SortedBestIsAnchored(Gathered(chunks, writer, language), spans);
    var end := ReviewFrom(r, answers, 0, maxRounds);
    assert WithinAnchors(r.symbols, r.symbols) by {
      forall i | 0 <= i < |r.symbols|
        ensures HasAnchor(r.symbols[i], r.symbols)
      {
        assert SameAnchor(r.symbols[i], r.symbols[i]);
      }
    }
    ReviewStaysAnchored(r, r.symbols, answers, 0, maxRounds, end.symbols);
    WithinAnchorsIsAnchored(end.symbols, r.symbols, spans);
  }

  /** What goes into the review: the gathered symbols, not yet audited and therefore approved,
      and a warning each for failed chunks and for names that no chunk could anchor. */
  function FirstDraft(chunks: seq<CodeChunk>, writer: nat -> Option<seq<SymbolDoc>>, language: string,
                      warnings: nat): Reviewed {
    Reviewed(Sorted(Best(Gathered(chunks, writer, language))), "", true, 0, 0,
             warnings + (if Failures(|chunks|, writer) > 0 then 1 else 0)
             + (if Invented(chunks, writer) != [] then 1 else 0))
  }

  /** The review, where there is something to review and the depth asks for it. */
  method ReviewIfDue(result: PipelineResult, answers: Answers, runsVerifier: bool, maxRounds: int)
    returns (ghost audits: nat)
    modifies result`symbols, result`feedback, result`approved, result`rounds, result`warnings
    ensures result.Seen(audits)
         == if runsVerifier && old(result.symbols) != [] then ReviewFrom(old(result.Seen(0)), answers, 0, maxRounds)
            else old(result.Seen(0))
  {
    audits := 0;
    if result.symbols != [] && runsVerifier {
      var asked := ReviewLoop(result, answers, maxRounds);
      audits := asked;
    }
  }

  /** The part of DocumentationPipeline.run after chunking: nothing when the provider
      failed on every chunk. */
  method Document(chunks: seq<CodeChunk>, writer: nat -> Option<seq<SymbolDoc>>, language: string, answers: Answers,
                  runsVerifier: bool, maxRounds: int, warnings: nat)
    returns (outcome: Option<PipelineResult>, ghost audits: nat)
    ensures outcome.None? <==> Failures(|chunks|, writer) == |chunks|
    ensures outcome.Some? ==> fresh(outcome.value) && outcome.value.chunksFailed == Failures(|chunks|, writer)
    ensures outcome.Some? ==> outcome.value.chunksProcessed + outcome.value.chunksFailed == |chunks|
    ensures outcome.Some? ==>
              var r := FirstDraft(chunks, writer, language, warnings);
              outcome.value.Seen(audits)
                == if runsVerifier && r.symbols != [] then ReviewFrom(r, answers, 0, maxRounds) else r
  {
    var symbols, failed, invented := ProcessChunks(chunks, writer, language);
    FailuresCount(|chunks|, writer);
    if failed == |chunks| {
      return None, 0;
    }
    var result := new PipelineResult();
    result.chunksProcessed := |chunks| - failed;
    result.chunksFailed := failed;
    result.warnings := warnings + (if failed > 0 then 1 else 0) + (if invented != [] then 1 else 0);
    result.symbols := symbols;
    assert result.Seen(0) == FirstDraft(chunks, writer, language, warnings);
    audits := ReviewIfDue(result, answers, runsVerifier, maxRounds);
    outcome := Some(result);
  }

  /** DocumentationPipeline.run. */
  method Run(parsed: ParsedFile, maxTokens: int, writer: nat -> Option<seq<SymbolDoc>>, answers: Answers,
             runsVerifier: bool, maxRounds: int)
    returns (outcome: Option<PipelineResult>, ghost chunks: seq<CodeChunk>, ghost audits: nat)
    ensures outcome.Some? && parsed.symbols != [] ==> AllAnchored(outcome.value.symbols, parsed.symbols)
    ensures outcome.Some? ==> outcome.value.rounds <= Max(maxRounds, 0)
    ensures parsed.symbols != [] ==>
              var n := |Pack(parsed.symbols, BudgetFor(maxTokens, HeaderFor(parsed, true)))|;
              outcome.None? <==> forall k :: 0 <= k < n ==> writer(k).None?
    ensures parsed.symbols != [] ==>
              var budget := BudgetFor(maxTokens, HeaderFor(parsed, true));
              Renders(chunks, Pack(parsed.symbols, budget), HeaderFor(parsed, true), budget)
    ensures parsed.symbols == [] ==> IsLineSplit(chunks, SplitLines(parsed.source), 0, 0, MaxChars(maxTokens))
    ensures chunks == [] ==> outcome.Some? && outcome.value.Seen(0) == Reviewed([], "", true, 0, 0, 1)
    ensures chunks != [] && outcome.Some? ==>
              var r := FirstDraft(chunks, writer, parsed.language, if parsed.parseFailed then 1 else 0);
              outcome.value.Seen(audits)
                == if runsVerifier && r.symbols != [] then ReviewFrom(r, answers, 0, maxRounds) else r
  {
    var cut := BuildChunks(parsed, maxTokens, true);
    chunks, audits := cut, 0;
    if cut == [] {
      var empty := new PipelineResult();
      empty.warnings := 1;
      return Some(empty), cut, 0;
    }
    ghost var r := FirstDraft(cut, writer, parsed.language, if parsed.parseFailed then 1 else 0);
    outcome, audits := Document(cut, writer, parsed.language, answers, runsVerifier, maxRounds,
                                if parsed.parseFailed then 1 else 0);
    FailuresCount(|cut|, writer);
    if outcome.Some? {
      ReviewIsBounded(r, answers, 0, maxRounds);
      if parsed.symbols != [] {
        DocumentationIsAnchored(parsed.symbols, cut, writer, parsed.language, answers, maxRounds, r);
      }
    }
  }
}

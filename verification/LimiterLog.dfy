/** The two counters against a full log of admitted requests, over whole runs of
    checks. */
module LimiterLog {
  import opened Prelude
  import opened RateLimit
  import opened Limiter

  // With no room for a key every check fails before it decides.
  type Capacity = n: nat | n >= 1 witness 1

  datatype Request = Request(key: Key, now: real)

  datatype Admission = Admission(key: Key, time: real)

  /** A limiter beside the log of everything it admitted. `since` is the length the
      log had when a key's counters were last created; `clock` is the time of the
      last check. */
  datatype Ledger = Ledger(tracker: Tracker, log: seq<Admission>, since: map<Key, nat>, clock: real)

  /** Admissions of the key in the aligned window, from position `from` of the log. */
  function InWindow(log: seq<Admission>, from: nat, key: Key, window: real, index: int): nat
    requires window > 0.0
  {
    if |log| <= from then 0
    else
      var last := log[|log| - 1];
      InWindow(log[..|log| - 1], from, key, window, index)
      + (if last.key == key && WindowIndex(last.time, window) == index then 1 else 0)
  }

  /** Every key is always checked under one rule: the caller prefixes the key with
      the name of the rule. */
  ghost predicate ValidRules(rules: Key -> Rule) {
    forall k :: rules(k).Valid()
  }

  function Step(l: Ledger, capacity: Capacity, rules: Key -> Rule, req: Request): Ledger
    requires rules(req.key).Valid()
  {
    var rule := rules(req.key);
    var admitted := Answer(l.tracker, req.key, rule, req.now).allowed;
    Ledger(Checked(l.tracker, capacity, req.key, rule, req.now),
           if admitted then l.log + [Admission(req.key, req.now)] else l.log,
           if req.key in l.tracker.states then l.since else l.since[req.key := |l.log|],
           req.now)
  }

  ghost function Run(l: Ledger, capacity: Capacity, rules: Key -> Rule, reqs: seq<Request>): Ledger
    requires ValidRules(rules)
    decreases |reqs|
  {
    if reqs == [] then l else Run(Step(l, capacity, rules, reqs[0]), capacity, rules, reqs[1..])
  }

  ghost predicate Monotone(clock: real, reqs: seq<Request>)
    decreases |reqs|
  {
    reqs == [] || (clock <= reqs[0].now && Monotone(reqs[0].now, reqs[1..]))
  }

  function Empty(clock: real): Ledger {
    Ledger(Tracker(map[], []), [], map[], clock)
  }

  // ---------------------------------------------------------------- invariant

  ghost predicate Agrees(state: KeyState, log: seq<Admission>, from: nat, key: Key, rule: Rule, clock: real)
    requires rule.Valid()
  {
    var w := rule.windowSeconds;
    && from <= |log|
    && state.windowIndex <= WindowIndex(clock, w)
    && state.current == InWindow(log, from, key, w, state.windowIndex)
    && state.previous == InWindow(log, from, key, w, state.windowIndex - 1)
    && (forall i :: i > state.windowIndex ==> InWindow(log, from, key, w, i) == 0)
    && (forall i :: InWindow(log, from, key, w, i) <= rule.maxRequests)
  }

  ghost predicate Faithful(l: Ledger, rules: Key -> Rule)
    requires ValidRules(rules)
  {
    forall k :: k in l.tracker.states ==>
      k in l.since && Agrees(l.tracker.states[k], l.log, l.since[k], k, rules(k), l.clock)
  }

  lemma LaterWindow(a: real, b: real, w: real)
    requires w > 0.0 && a <= b
    ensures WindowIndex(a, w) <= WindowIndex(b, w)
  {
    if a < b {
      DivideKeepsOrder(a, b, w);
    }
  }

  lemma EmptySince(log: seq<Admission>, key: Key, w: real, index: int)
    requires w > 0.0
    ensures InWindow(log, |log|, key, w, index) == 0
  {
  }

  lemma LogGrows(log: seq<Admission>, from: nat, key: Key, w: real, index: int, a: Admission)
    requires w > 0.0 && from <= |log|
    ensures InWindow(log + [a], from, key, w, index)
         == InWindow(log, from, key, w, index)
            + (if a.key == key && WindowIndex(a.time, w) == index then 1 else 0)
  {
    assert (log + [a])[..|log|] == log;
  }

  /** Rolling the counters forward to the window of `now` keeps them equal to the
      log. */
  lemma RollAgrees(state: KeyState, log: seq<Admission>, from: nat, key: Key, rule: Rule, clock: real, now: real)
    requires rule.Valid() && clock <= now
    requires Agrees(state, log, from, key, rule, clock)
    ensures Agrees(Roll(state, WindowIndex(now, rule.windowSeconds)), log, from, key, rule, now)
    ensures Roll(state, WindowIndex(now, rule.windowSeconds)).windowIndex == WindowIndex(now, rule.windowSeconds)
  {
    LaterWindow(clock, now, rule.windowSeconds);
  }

  lemma FreshAgrees(log: seq<Admission>, key: Key, rule: Rule, now: real)
    requires rule.Valid()
    ensures Agrees(KeyState(WindowIndex(now, rule.windowSeconds), 0, 0), log, |log|, key, rule, now)
  {
    forall i
      ensures InWindow(log, |log|, key, rule.windowSeconds, i) == 0
    {
      EmptySince(log, key, rule.windowSeconds, i);
    }
  }

  /** Another key's admission is not counted. */
  lemma OthersAgree(state: KeyState, log: seq<Admission>, from: nat, key: Key, rule: Rule, clock: real, a: Admission)
    requires rule.Valid() && a.key != key && clock <= a.time
    requires Agrees(state, log, from, key, rule, clock)
    ensures Agrees(state, log + [a], from, key, rule, a.time)
  {
    LaterWindow(clock, a.time, rule.windowSeconds);
    forall i
      ensures InWindow(log + [a], from, key, rule.windowSeconds, i) == InWindow(log, from, key, rule.windowSeconds, i)
    {
      LogGrows(log, from, key, rule.windowSeconds, i, a);
    }
  }

  lemma AdmissionBelowLimit(state: KeyState, rule: Rule, fraction: real)
    requires rule.Valid() && 0.0 <= fraction < 1.0 && !Refuses(state, rule, fraction)
    ensures state.current + 1 <= rule.maxRequests
  {
    NonNegativeProduct(state.previous as real, 1.0 - fraction);
  }

  lemma AdmitAgrees(state: KeyState, log: seq<Admission>, from: nat, key: Key, rule: Rule, now: real)
    requires rule.Valid() && state.windowIndex == WindowIndex(now, rule.windowSeconds)
    requires Agrees(state, log, from, key, rule, now)
    requires !Refuses(state, rule, ElapsedFraction(now, rule.windowSeconds))
    ensures Agrees(state.(current := state.current + 1), log + [Admission(key, now)], from, key, rule, now)
  {
    var w := rule.windowSeconds;
    FractionIsRest(now, w);
    AdmissionBelowLimit(state, rule, ElapsedFraction(now, w));
    forall i
      ensures InWindow(log + [Admission(key, now)], from, key, w, i)
           == InWindow(log, from, key, w, i) + (if i == state.windowIndex then 1 else 0)
    {
      LogGrows(log, from, key, w, i, Admission(key, now));
    }
  }

  /** The looked-up state of the checked key agrees with the log before the answer
      is given. */
  lemma LookedUpAgrees(l: Ledger, rules: Key -> Rule, key: Key, now: real)
    requires ValidRules(rules) && Faithful(l, rules) && l.clock <= now
    ensures var index := WindowIndex(now, rules(key).windowSeconds);
            var from := if key in l.tracker.states then l.since[key] else |l.log|;
            && Agrees(StateOf(l.tracker, key, index), l.log, from, key, rules(key), now)
            && StateOf(l.tracker, key, index).windowIndex == index
  {
    if key in l.tracker.states {
      RollAgrees(l.tracker.states[key], l.log, l.since[key], key, rules(key), l.clock, now);
    } else {
      FreshAgrees(l.log, key, rules(key), now);
    }
  }

  lemma StepKeepsFaith(l: Ledger, capacity: Capacity, rules: Key -> Rule, req: Request)
    requires ValidRules(rules) && Faithful(l, rules) && l.clock <= req.now
    ensures Faithful(Step(l, capacity, rules, req), rules)
  {
    var next := Step(l, capacity, rules, req);
    var rule := rules(req.key);
    LookedUpAgrees(l, rules, req.key, req.now);
    forall k | k in next.tracker.states
      ensures k in next.since && Agrees(next.tracker.states[k], next.log, next.since[k], k, rules(k), next.clock)
    {
      if k == req.key {
        var state := StateOf(l.tracker, k, WindowIndex(req.now, rule.windowSeconds));
        if !Refuses(state, rule, ElapsedFraction(req.now, rule.windowSeconds)) {
          AdmitAgrees(state, l.log, next.since[k], k, rule, req.now);
        }
      } else {
        assert next.tracker.states[k] == l.tracker.states[k];
        if next.log == l.log {
          LaterWindow(l.clock, req.now, rules(k).windowSeconds);
        } else {
          OthersAgree(l.tracker.states[k], l.log, l.since[k], k, rules(k), l.clock, Admission(req.key, req.now));
        }
      }
    }
  }

  lemma {:induction false} RunKeepsFaith(l: Ledger, capacity: Capacity, rules: Key -> Rule, reqs: seq<Request>)
    requires ValidRules(rules) && Faithful(l, rules) && Monotone(l.clock, reqs)
    ensures Faithful(Run(l, capacity, rules, reqs), rules)
    decreases |reqs|
  {
    if reqs != [] {
      StepKeepsFaith(l, capacity, rules, reqs[0]);
      RunKeepsFaith(Step(l, capacity, rules, reqs[0]), capacity, rules, reqs[1..]);
    }
  }

  // ---------------------------------------------------------------- theorems

  /** The weighted rule: the part of the previous window that still overlaps the
      last `window` seconds counts in proportion. */
  predicate BelowLimit(previous: nat, current: nat, fraction: real, rule: Rule) {
    previous as real * (1.0 - fraction) + current as real < rule.maxRequests as real
  }

  lemma AnswerIsTheWeightedRule(t: Tracker, key: Key, rule: Rule, now: real)
    requires rule.Valid()
    ensures var state := StateOf(t, key, WindowIndex(now, rule.windowSeconds));
            Answer(t, key, rule, now).allowed
              == BelowLimit(state.previous, state.current, ElapsedFraction(now, rule.windowSeconds), rule)
  {
  }

  lemma FaithfulCounters(l: Ledger, rules: Key -> Rule, key: Key, now: real)
    requires ValidRules(rules) && Faithful(l, rules) && key in l.tracker.states && l.clock <= now
    ensures var w := rules(key).windowSeconds;
            var index := WindowIndex(now, w);
            && key in l.since
            && StateOf(l.tracker, key, index).current == InWindow(l.log, l.since[key], key, w, index)
            && StateOf(l.tracker, key, index).previous == InWindow(l.log, l.since[key], key, w, index - 1)
            && (Answer(l.tracker, key, rules(key), now).allowed <==>
                  BelowLimit(InWindow(l.log, l.since[key], key, w, index - 1),
                             InWindow(l.log, l.since[key], key, w, index), ElapsedFraction(now, w), rules(key)))
  {
    LookedUpAgrees(l, rules, key, now);
    AnswerIsTheWeightedRule(l.tracker, key, rules(key), now);
  }

  /** While a key stays tracked, the two counters are exactly what the log says
      about the window of the next check and the one before, and the answer is the
      weighted rule over that log. */
  lemma CountersRefineTheLog(
    start: real, capacity: Capacity, rules: Key -> Rule, reqs: seq<Request>, key: Key, now: real)
    requires ValidRules(rules) && Monotone(start, reqs)
    requires var l := Run(Empty(start), capacity, rules, reqs); key in l.tracker.states && l.clock <= now
    ensures var l := Run(Empty(start), capacity, rules, reqs);
            var w := rules(key).windowSeconds;
            var index := WindowIndex(now, w);
            var f := ElapsedFraction(now, w);
            && key in l.since
            && StateOf(l.tracker, key, index).current == InWindow(l.log, l.since[key], key, w, index)
            && StateOf(l.tracker, key, index).previous == InWindow(l.log, l.since[key], key, w, index - 1)
            && (Answer(l.tracker, key, rules(key), now).allowed <==>
                  BelowLimit(InWindow(l.log, l.since[key], key, w, index - 1),
                             InWindow(l.log, l.since[key], key, w, index), f, rules(key)))
  {
    RunKeepsFaith(Empty(start), capacity, rules, reqs);
    FaithfulCounters(Run(Empty(start), capacity, rules, reqs), rules, key, now);
  }

  // ---------------------------------------------------------------- the header over runs

  ghost predicate NotOf(key: Key, reqs: seq<Request>) {
    forall i :: 0 <= i < |reqs| ==> reqs[i].key != key
  }

  /** Checks of other keys leave a key's counters alone, or forget the key for good. */
  lemma {:induction false} OthersLeaveTheKey(l: Ledger, capacity: Capacity, rules: Key -> Rule, reqs: seq<Request>,
                                             key: Key)
    requires ValidRules(rules) && NotOf(key, reqs)
    ensures var end := Run(l, capacity, rules, reqs).tracker;
            key in end.states ==> key in l.tracker.states && end.states[key] == l.tracker.states[key]
    decreases |reqs|
  {
    if reqs != [] {
      assert reqs[0].key != key;
      var next := Step(l, capacity, rules, reqs[0]);
      assert key in next.tracker.states ==>
               key in l.tracker.states && next.tracker.states[key] == l.tracker.states[key];
      OthersLeaveTheKey(next, capacity, rules, reqs[1..], key);
    }
  }

  lemma ForgottenIsAllowed(t: Tracker, key: Key, rule: Rule, now: real)
    requires rule.Valid() && key !in t.states
    ensures Answer(t, key, rule, now).allowed
  {
  }

  /** The promise of a header that said `r` to a check at `now`, for a check after `wait`. */
  ghost predicate Keeps(end: Tracker, key: Key, rule: Rule, now: real, r: int, wait: real)
    requires rule.Valid()
  {
    && (wait > r as real ==> Answer(end, key, rule, now + wait).allowed)
    && (wait <= r as real - 1.0 && key in end.states ==> !Answer(end, key, rule, now + wait).allowed)
  }

  lemma KeptWhileTracked(t: Tracker, capacity: Capacity, key: Key, rule: Rule, now: real, end: Tracker, wait: real)
    requires rule.Valid() && wait >= 0.0 && !Answer(t, key, rule, now).allowed
    requires NotAhead(t, key, WindowIndex(now, rule.windowSeconds))
    requires var checked := Checked(t, capacity, key, rule, now);
             key in checked.states && key in end.states && end.states[key] == checked.states[key]
    ensures Keeps(end, key, rule, now, Answer(t, key, rule, now).retryAfterSeconds, wait)
  {
    RefusalIsExact(t, capacity, key, rule, now, wait);
    SameAnswer(end, Checked(t, capacity, key, rule, now), key, rule, now + wait);
  }

  lemma HeaderIsKeptFrom(l: Ledger, capacity: Capacity, rules: Key -> Rule, req: Request, after: seq<Request>,
                         wait: real, end: Tracker)
    requires ValidRules(rules) && Faithful(l, rules) && l.clock <= req.now && wait >= 0.0 && NotOf(req.key, after)
    requires !Answer(l.tracker, req.key, rules(req.key), req.now).allowed
    requires end == Run(Step(l, capacity, rules, req), capacity, rules, after).tracker
    ensures Keeps(end, req.key, rules(req.key), req.now,
                  Answer(l.tracker, req.key, rules(req.key), req.now).retryAfterSeconds, wait)
  {
    var key, rule := req.key, rules(req.key);
    LookedUpIsCurrent(l, rules, key, req.now);
    OthersLeaveTheKey(Step(l, capacity, rules, req), capacity, rules, after, key);
    if key in end.states {
      KeptWhileTracked(l.tracker, capacity, key, rule, req.now, end, wait);
    } else {
      ForgottenIsAllowed(end, key, rule, req.now + wait);
    }
  }

  lemma LookedUpIsCurrent(l: Ledger, rules: Key -> Rule, key: Key, now: real)
    requires ValidRules(rules) && Faithful(l, rules) && l.clock <= now
    ensures NotAhead(l.tracker, key, WindowIndex(now, rules(key).windowSeconds))
  {
    LaterWindow(l.clock, now, rules(key).windowSeconds);
  }

  lemma SameAnswer(a: Tracker, b: Tracker, key: Key, rule: Rule, now: real)
    requires rule.Valid() && key in a.states && key in b.states && a.states[key] == b.states[key]
    ensures Answer(a, key, rule, now) == Answer(b, key, rule, now)
  {
  }

  /** The header is kept in every run: after any history, and whatever other keys are checked
      after the refusal, the key is let through after any longer wait, and refused after any wait
      shorter by a second for as long as it is tracked. */
  lemma HeaderIsKept(start: real, capacity: Capacity, rules: Key -> Rule, before: seq<Request>, req: Request,
                     after: seq<Request>, wait: real)
    requires ValidRules(rules) && Monotone(start, before) && wait >= 0.0 && NotOf(req.key, after)
    requires Run(Empty(start), capacity, rules, before).clock <= req.now
    requires !Answer(Run(Empty(start), capacity, rules, before).tracker, req.key, rules(req.key), req.now).allowed
    ensures var l := Run(Empty(start), capacity, rules, before);
            var r := Answer(l.tracker, req.key, rules(req.key), req.now).retryAfterSeconds;
            && r >= 1
            && Keeps(Run(Step(l, capacity, rules, req), capacity, rules, after).tracker, req.key, rules(req.key),
                     req.now, r, wait)
  {
    var l := Run(Empty(start), capacity, rules, before);
    RunKeepsFaith(Empty(start), capacity, rules, before);
    HeaderIsKeptFrom(l, capacity, rules, req, after, wait,
                     Run(Step(l, capacity, rules, req), capacity, rules, after).tracker);
  }

  /** No aligned window ever admits more than the rule allows a tracked key. */
  lemma NoWindowExceedsTheRule(
    start: real, capacity: Capacity, rules: Key -> Rule, reqs: seq<Request>, key: Key, index: int)
    requires ValidRules(rules) && Monotone(start, reqs)
    requires key in Run(Empty(start), capacity, rules, reqs).tracker.states
    ensures var l := Run(Empty(start), capacity, rules, reqs);
            && key in l.since
            && InWindow(l.log, l.since[key], key, rules(key).windowSeconds, index) <= rules(key).maxRequests
  {
    RunKeepsFaith(Empty(start), capacity, rules, reqs);
  }

  /** A key that was never forgotten is counted from its first request. */
  ghost predicate NeverForgotten(l: Ledger, key: Key) {
    key in l.since && forall i :: 0 <= i < |l.log| && l.log[i].key == key ==> l.since[key] <= i
  }

  lemma {:induction false} WholeLog(log: seq<Admission>, from: nat, key: Key, w: real, index: int)
    requires w > 0.0
    requires forall i :: 0 <= i < |log| && log[i].key == key ==> from <= i
    ensures InWindow(log, from, key, w, index) == InWindow(log, 0, key, w, index)
  {
    if |log| > 0 {
      var shorter := log[..|log| - 1];
      assert forall i :: 0 <= i < |shorter| && shorter[i].key == key ==> log[i].key == key;
      WholeLog(shorter, from, key, w, index);
    }
  }

  /** So for a key never forgotten the bound holds of the whole log of the run. */
  lemma NoWindowOfTheWholeLogExceedsTheRule(
    start: real, capacity: Capacity, rules: Key -> Rule, reqs: seq<Request>, key: Key, index: int)
    requires ValidRules(rules) && Monotone(start, reqs)
    requires var l := Run(Empty(start), capacity, rules, reqs); key in l.tracker.states && NeverForgotten(l, key)
    ensures var l := Run(Empty(start), capacity, rules, reqs);
            InWindow(l.log, 0, key, rules(key).windowSeconds, index) <= rules(key).maxRequests
  {
    var l := Run(Empty(start), capacity, rules, reqs);
    NoWindowExceedsTheRule(start, capacity, rules, reqs, key, index);
    WholeLog(l.log, l.since[key], key, rules(key).windowSeconds, index);
  }
}

/** The limiter object: counters per key in an ordered dictionary that forgets the
    least recently checked key. */
module Limiter {
  import opened Prelude
  import opened RateLimit

  // ---------------------------------------------------------------- recency

  ghost predicate Distinct(xs: seq<Key>) {
    forall i, j :: 0 <= i < j < |xs| ==> xs[i] != xs[j]
  }

  function Without(xs: seq<Key>, k: Key): seq<Key> {
    if xs == [] then []
    else if xs[0] == k then Without(xs[1..], k)
    else [xs[0]] + Without(xs[1..], k)
  }

  function MoveToEnd(xs: seq<Key>, k: Key): seq<Key> {
    Without(xs, k) + [k]
  }

  function Newest(xs: seq<Key>, n: nat): seq<Key> {
    if |xs| <= n then xs else xs[|xs| - n..]
  }

  /** All keys ever checked, each once, by the time of its last check. */
  function Recency(history: seq<Key>): seq<Key> {
    if history == [] then []
    else MoveToEnd(Recency(history[..|history| - 1]), history[|history| - 1])
  }

  lemma {:induction false} WithoutConcat(a: seq<Key>, b: seq<Key>, k: Key)
    ensures Without(a + b, k) == Without(a, k) + Without(b, k)
  {
    if a == [] {
      assert a + b == b;
    } else {
      WithoutConcat(a[1..], b, k);
      assert (a + b)[1..] == a[1..] + b;
      Regroup([a[0]], Without(a[1..], k), Without(b, k));
    }
  }

  lemma Regroup(a: seq<Key>, b: seq<Key>, c: seq<Key>)
    ensures (a + b) + c == a + (b + c)
  {
  }

  lemma {:induction false} WithoutAbsent(xs: seq<Key>, k: Key)
    requires k !in xs
    ensures Without(xs, k) == xs
  {
    if xs != [] {
      WithoutAbsent(xs[1..], k);
    }
  }

  lemma {:induction false} WithoutKeeps(xs: seq<Key>, k: Key)
    ensures forall x :: x in Without(xs, k) <==> x in xs && x != k
    ensures Distinct(xs) ==> Distinct(Without(xs, k))
    ensures Distinct(xs) ==> |Without(xs, k)| == if k in xs then |xs| - 1 else |xs|
  {
    if xs != [] {
      WithoutKeeps(xs[1..], k);
      if Distinct(xs) {
        assert Distinct(xs[1..]);
        if xs[0] == k {
          assert k !in xs[1..];
        } else {
          assert xs[0] !in xs[1..];
        }
      }
    }
  }

  lemma MoveToEndKeeps(xs: seq<Key>, k: Key)
    requires Distinct(xs)
    ensures Distinct(MoveToEnd(xs, k))
    ensures forall x :: x in MoveToEnd(xs, k) <==> x in xs || x == k
    ensures |MoveToEnd(xs, k)| == if k in xs then |xs| else |xs| + 1
  {
    WithoutKeeps(xs, k);
  }

  lemma {:induction false} RecencyIsDistinct(history: seq<Key>)
    ensures Distinct(Recency(history))
    ensures forall k :: k in Recency(history) <==> k in history
  {
    if history != [] {
      RecencyIsDistinct(history[..|history| - 1]);
      MoveToEndKeeps(Recency(history[..|history| - 1]), history[|history| - 1]);
      assert history == history[..|history| - 1] + [history[|history| - 1]];
    }
  }

  /** Keeping only the n newest and then touching a key is touching it in the full
      order and then keeping the n newest. */
  lemma NewestCommutes(xs: seq<Key>, k: Key, n: nat)
    requires Distinct(xs) && n >= 1
    ensures Newest(MoveToEnd(Newest(xs, n), k), n) == Newest(MoveToEnd(xs, k), n)
  {
    if |xs| > n {
      var oldest, newest := xs[..|xs| - n], xs[|xs| - n..];
      assert xs == oldest + newest;
      WithoutConcat(oldest, newest, k);
      MoveToEndKeeps(newest, k);
      assert MoveToEnd(xs, k) == Without(oldest, k) + MoveToEnd(newest, k);
      NewestOfConcat(Without(oldest, k), MoveToEnd(newest, k), n);
    }
  }

  lemma NewestOfConcat(a: seq<Key>, b: seq<Key>, n: nat)
    requires |b| >= n
    ensures Newest(a + b, n) == Newest(b, n)
  {
  }

  /** Recency around the last check of a key: what follows it are the keys checked
      since. */
  lemma {:induction false} RecencySplit(history: seq<Key>, i: nat) returns (before: seq<Key>, after: seq<Key>)
    requires i < |history| && history[i] !in history[i + 1..]
    ensures Recency(history) == before + [history[i]] + after
    ensures forall k :: k in after <==> k in history[i + 1..]
  {
    var n := |history| - 1;
    var shorter, last := history[..n], history[n];
    if i == n {
      before, after := Without(Recency(shorter), last), [];
    } else {
      assert shorter[i + 1..] + [last] == history[i + 1..];
      before, after := RecencySplit(shorter, i);
      WithoutConcat(before + [history[i]], after, last);
      WithoutConcat(before, [history[i]], last);
      WithoutKeeps(after, last);
      before, after := Without(before, last), Without(after, last) + [last];
    }
  }

  function KeysIn(xs: seq<Key>): set<Key> {
    set k | k in xs
  }

  lemma {:induction false} DistinctSize(xs: seq<Key>)
    requires Distinct(xs)
    ensures |KeysIn(xs)| == |xs|
  {
    if xs == [] {
      assert KeysIn(xs) == {};
    } else {
      DistinctSize(xs[1..]);
      assert xs[0] !in xs[1..];
      assert KeysIn(xs) == {xs[0]} + KeysIn(xs[1..]);
    }
  }

  lemma {:induction false} SizeDistinct(xs: seq<Key>)
    requires |KeysIn(xs)| == |xs|
    ensures Distinct(xs)
  {
    if xs != [] {
      var tail := xs[1..];
      SizeAtMost(tail);
      assert xs[0] in tail ==> KeysIn(xs) == KeysIn(tail);
      assert KeysIn(xs) == {xs[0]} + KeysIn(tail);
      SizeDistinct(tail);
    }
  }

  lemma {:induction false} SizeAtMost(xs: seq<Key>)
    ensures |KeysIn(xs)| <= |xs|
  {
    if xs == [] {
      assert KeysIn(xs) == {};
    } else {
      SizeAtMost(xs[1..]);
      assert KeysIn(xs) == {xs[0]} + KeysIn(xs[1..]);
    }
  }

  lemma AmongTheNewest(before: seq<Key>, k: Key, after: seq<Key>, n: nat)
    requires Distinct(before + [k] + after)
    ensures k in Newest(before + [k] + after, n) <==> |after| < n
  {
    var all := before + [k] + after;
    assert all[|before|] == k;
    if |all| > n {
      var cut := all[|all| - n..];
      if |after| < n {
        assert cut[n - 1 - |after|] == k;
      }
    }
  }

  /** A key that has been checked is among the n most recent exactly when fewer
      than n distinct other keys were checked since its own last check. */
  lemma RecentExactlyWhenFewOthers(history: seq<Key>, i: nat, n: nat)
    requires i < |history| && history[i] !in history[i + 1..]
    ensures history[i] in Newest(Recency(history), n) <==> |KeysIn(history[i + 1..])| < n
  {
    var before, after := RecencySplit(history, i);
    RecencyIsDistinct(history);
    AmongTheNewest(before, history[i], after, n);
    assert after == Recency(history)[|before| + 1..];
    DistinctSize(after);
    assert KeysIn(after) == KeysIn(history[i + 1..]);
  }

  // ---------------------------------------------------------------- one check, on values

  datatype Tracker = Tracker(states: map<Key, KeyState>, order: seq<Key>)

  function StateOf(t: Tracker, key: Key, windowIndex: int): KeyState {
    if key in t.states then Roll(t.states[key], windowIndex) else KeyState(windowIndex, 0, 0)
  }

  /** The tracker after its key was looked up: the key is the most recent one, and
      with a new key the oldest one beyond the capacity is gone. */
  function Touched(t: Tracker, capacity: nat, key: Key, windowIndex: int): Tracker {
    var order := Newest(MoveToEnd(t.order, key), capacity);
    Tracker(Restrict(t.states, order)[key := StateOf(t, key, windowIndex)], order)
  }

  /** The tracker after a check. */
  function Checked(t: Tracker, capacity: nat, key: Key, rule: Rule, now: real): Tracker
    requires rule.Valid()
  {
    var touched := Touched(t, capacity, key, WindowIndex(now, rule.windowSeconds));
    var fraction := ElapsedFraction(now, rule.windowSeconds);
    touched.(states := touched.states[key := Admit(touched.states[key], rule, fraction)])
  }

  function Answer(t: Tracker, key: Key, rule: Rule, now: real): Decision
    requires rule.Valid()
  {
    Decide(StateOf(t, key, WindowIndex(now, rule.windowSeconds)), rule, ElapsedFraction(now, rule.windowSeconds))
  }

  /** The entries of the keys listed. */
  function Restrict(states: map<Key, KeyState>, keys: seq<Key>): map<Key, KeyState> {
    map k | k in states && k in keys :: states[k]
  }

  lemma RestrictUpdate(states: map<Key, KeyState>, keys: seq<Key>, key: Key, state: KeyState)
    requires key in keys
    ensures Restrict(states[key := state], keys) == Restrict(states, keys)[key := state]
  {
  }

  /** Order and map hold the same keys, each once. */
  ghost predicate Coherent(t: Tracker) {
    t.states.Keys == KeysIn(t.order) && |t.states| == |t.order|
  }

  lemma OrderIsDistinct(t: Tracker)
    requires Coherent(t)
    ensures Distinct(t.order)
  {
    SizeDistinct(t.order);
  }

  lemma MakesCoherent(t: Tracker)
    requires Distinct(t.order) && forall k :: k in t.order <==> k in t.states
    ensures Coherent(t)
  {
    DistinctSize(t.order);
    assert t.states.Keys == KeysIn(t.order);
  }

  lemma NewKeyIsCoherent(t: Tracker, key: Key, state: KeyState)
    requires Coherent(t) && key !in t.states
    ensures Coherent(Tracker(t.states[key := state], t.order + [key]))
    ensures t.order + [key] == MoveToEnd(t.order, key)
    ensures Distinct(t.order + [key])
  {
    OrderIsDistinct(t);
    assert key !in t.order by {
      assert key in t.order ==> key in KeysIn(t.order);
    }
    WithoutAbsent(t.order, key);
    assert forall k :: k in t.order <==> k in KeysIn(t.order);
    MakesCoherent(Tracker(t.states[key := state], t.order + [key]));
  }

  lemma TouchKnown(t: Tracker, capacity: nat, key: Key, windowIndex: int)
    requires Coherent(t) && key in t.states && |t.order| <= capacity
    ensures Touched(t, capacity, key, windowIndex)
         == Tracker(t.states[key := Roll(t.states[key], windowIndex)], MoveToEnd(t.order, key))
  {
    OrderIsDistinct(t);
    MoveToEndKeeps(t.order, key);
    assert forall k :: k in t.order <==> k in KeysIn(t.order);
    assert Restrict(t.states, MoveToEnd(t.order, key)) == t.states;
  }

  lemma TouchNew(t: Tracker, capacity: nat, key: Key, windowIndex: int)
    requires Coherent(t) && key !in t.states && capacity >= 1
    ensures var order := Newest(t.order + [key], capacity);
            && MoveToEnd(order, key) == order
            && Touched(t, capacity, key, windowIndex)
                 == Tracker(Restrict(t.states[key := KeyState(windowIndex, 0, 0)], order), order)
  {
    NewKeyIsCoherent(t, key, KeyState(windowIndex, 0, 0));
    LastStaysLast(t.order + [key], capacity, key);
    NewKeyFits(t, key, capacity);
    RestrictUpdate(t.states, Newest(t.order + [key], capacity), key, KeyState(windowIndex, 0, 0));
  }

  lemma RestrictedKeys(states: map<Key, KeyState>, order: seq<Key>, key: Key, state: KeyState)
    requires key in order && forall k :: k in order ==> k in states || k == key
    ensures forall k :: k in order <==> k in Restrict(states, order)[key := state]
  {
  }

  lemma NewestKeeps(xs: seq<Key>, capacity: nat, key: Key)
    requires Distinct(xs) && xs != [] && xs[|xs| - 1] == key && capacity >= 1
    ensures var order := Newest(xs, capacity);
            Distinct(order) && key in order && |order| <= capacity && forall k :: k in order ==> k in xs
  {
    var order := Newest(xs, capacity);
    assert order[|order| - 1] == key;
  }

  lemma TouchedIsCoherent(t: Tracker, capacity: nat, key: Key, windowIndex: int)
    requires Coherent(t) && capacity >= 1
    ensures Coherent(Touched(t, capacity, key, windowIndex))
    ensures |Touched(t, capacity, key, windowIndex).order| <= capacity
  {
    OrderIsDistinct(t);
    MoveToEndKeeps(t.order, key);
    assert forall k :: k in t.order <==> k in KeysIn(t.order);
    var order := Newest(MoveToEnd(t.order, key), capacity);
    NewestKeeps(MoveToEnd(t.order, key), capacity, key);
    RestrictedKeys(t.states, order, key, StateOf(t, key, windowIndex));
    MakesCoherent(Touched(t, capacity, key, windowIndex));
  }

  lemma KeepsCoherence(t: Tracker, key: Key, state: KeyState)
    requires Coherent(t) && key in t.states
    ensures Coherent(Tracker(t.states[key := state], t.order))
    ensures |t.states[key := state]| == |t.states|
  {
    assert t.states[key := state].Keys == t.states.Keys;
  }

  lemma SuffixIsNewest(xs: seq<Key>, i: nat, n: nat)
    requires i <= |xs| && |xs| - i <= n && (i > 0 ==> |xs| - i == n)
    ensures xs[i..] == Newest(xs, n)
  {
  }

  /** The suffix of the order left after i evictions, and the map that goes with
      it. */
  function Evicted(t: Tracker, i: nat): Tracker
    requires i <= |t.order|
  {
    Tracker(Restrict(t.states, t.order[i..]), t.order[i..])
  }

  lemma EvictedIsCoherent(t: Tracker, i: nat)
    requires Coherent(t) && i <= |t.order|
    ensures Coherent(Evicted(t, i)) && |Evicted(t, i).states| == |t.order| - i
    ensures i == 0 ==> Evicted(t, i) == t
  {
    OrderIsDistinct(t);
    assert forall k :: k in t.order <==> k in KeysIn(t.order);
    MakesCoherent(Evicted(t, i));
  }

  lemma DropOldest(states: map<Key, KeyState>, oldest: Key, rest: seq<Key>, order: seq<Key>)
    requires order == [oldest] + rest && oldest !in rest
    ensures Restrict(states, order) - {oldest} == Restrict(states, rest)
  {
  }

  lemma EvictOneMore(t: Tracker, i: nat)
    requires Coherent(t) && i < |t.order|
    ensures var left := Evicted(t, i);
            left.order != [] && Tracker(left.states - {left.order[0]}, left.order[1..]) == Evicted(t, i + 1)
  {
    OrderIsDistinct(t);
    assert t.order[i] !in t.order[i + 1..];
    DropOldest(t.states, t.order[i], t.order[i + 1..], t.order[i..]);
  }

  lemma NewKeyFits(t: Tracker, key: Key, capacity: nat)
    requires capacity >= 1
    ensures key in Newest(t.order + [key], capacity)
  {
    var order := Newest(t.order + [key], capacity);
    assert order[|order| - 1] == key;
  }

  lemma StateAfterCheck(t: Tracker, capacity: nat, key: Key, rule: Rule, now: real)
    requires rule.Valid() && capacity >= 1
    ensures var next := Checked(t, capacity, key, rule, now);
            key in next.states
            && next.states[key] == Admit(StateOf(t, key, WindowIndex(now, rule.windowSeconds)), rule,
                                         ElapsedFraction(now, rule.windowSeconds))
  {
  }

  /** A client that obeys the header and is refused, from a new limiter on: three requests
      at second 1000 are admitted, the fourth is told to wait 24 seconds, and the one
      after exactly 24 seconds is refused again. */
  lemma ObeyingTheHeaderCanBeRefused(capacity: nat, key: Key)
    requires capacity >= 1
    ensures var rule := Rule(3, 64.0);
            var t0 := Tracker(map[], []);
            var t1 := Checked(t0, capacity, key, rule, 1000.0);
            var t2 := Checked(t1, capacity, key, rule, 1000.0);
            var t3 := Checked(t2, capacity, key, rule, 1000.0);
            var t4 := Checked(t3, capacity, key, rule, 1000.0);
            && Answer(t0, key, rule, 1000.0).allowed && Answer(t1, key, rule, 1000.0).allowed
            && Answer(t2, key, rule, 1000.0).allowed
            && Answer(t3, key, rule, 1000.0) == Decision(false, 0, 24)
            && !Answer(t4, key, rule, 1024.0).allowed
  {
    AdvertisedTimeCanStillBeRefused();
    var rule, t0 := Rule(3, 64.0), Tracker(map[], []);
    var t1 := Checked(t0, capacity, key, rule, 1000.0);
    StateAfterCheck(t0, capacity, key, rule, 1000.0);
    assert t1.states[key] == KeyState(15, 1, 0);
    var t2 := Checked(t1, capacity, key, rule, 1000.0);
    StateAfterCheck(t1, capacity, key, rule, 1000.0);
    assert t2.states[key] == KeyState(15, 2, 0);
    var t3 := Checked(t2, capacity, key, rule, 1000.0);
    StateAfterCheck(t2, capacity, key, rule, 1000.0);
    assert t3.states[key] == KeyState(15, 3, 0);
    StateAfterCheck(t3, capacity, key, rule, 1000.0);
  }

  /** The key was not checked in a later window. */
  predicate NotAhead(t: Tracker, key: Key, index: int) {
    key in t.states ==> t.states[key].windowIndex <= index
  }

  /** What a refusal answers: no remainder, and a wait of whole seconds. Checked again after
      any longer wait, the key is let through; after any wait shorter by a second, it is refused. */
  lemma RefusalIsExact(t: Tracker, capacity: nat, key: Key, rule: Rule, now: real, wait: real)
    requires rule.Valid() && capacity >= 1 && wait >= 0.0
    requires NotAhead(t, key, WindowIndex(now, rule.windowSeconds))
    requires !Answer(t, key, rule, now).allowed
    ensures var answer, next := Answer(t, key, rule, now), Checked(t, capacity, key, rule, now);
            && answer.remaining == 0 && answer.retryAfterSeconds >= 1
            && (wait > answer.retryAfterSeconds as real ==> Answer(next, key, rule, now + wait).allowed)
            && (wait <= answer.retryAfterSeconds as real - 1.0 ==> !Answer(next, key, rule, now + wait).allowed)
  {
    var state := StateOf(t, key, WindowIndex(now, rule.windowSeconds));
    StateAfterCheck(t, capacity, key, rule, now);
    RetryAfterIsExactToOneSecond(state, rule, now, wait);
  }

  /** The tracker after this many more checks of the key at the same instant. */
  function Again(t: Tracker, capacity: nat, key: Key, rule: Rule, now: real, times: nat): Tracker
    requires rule.Valid()
    decreases times
  {
    if times == 0 then t
    else Again(Checked(t, capacity, key, rule, now), capacity, key, rule, now, times - 1)
  }

  /** The key's counters as a check at `now` finds them. */
  ghost predicate Finds(t: Tracker, key: Key, rule: Rule, now: real, state: KeyState)
    requires rule.Valid()
  {
    var index := WindowIndex(now, rule.windowSeconds);
    NotAhead(t, key, index) && state == StateOf(t, key, index)
  }

  lemma FindsAfterOneMore(t: Tracker, capacity: nat, key: Key, rule: Rule, now: real, state: KeyState)
    requires rule.Valid() && capacity >= 1 && Finds(t, key, rule, now, state)
    ensures Finds(Checked(t, capacity, key, rule, now), key, rule, now,
                  Admit(state, rule, ElapsedFraction(now, rule.windowSeconds)))
  {
    StateAfterCheck(t, capacity, key, rule, now);
  }

  lemma {:induction false} FindsAgain(t: Tracker, capacity: nat, key: Key, rule: Rule, now: real, state: KeyState,
                                      times: nat)
    requires rule.Valid() && capacity >= 1 && Finds(t, key, rule, now, state)
    ensures Finds(Again(t, capacity, key, rule, now, times), key, rule, now,
                  AdmitTimes(state, rule, ElapsedFraction(now, rule.windowSeconds), times))
    decreases times
  {
    if times > 0 {
      FindsAfterOneMore(t, capacity, key, rule, now, state);
      FindsAgain(Checked(t, capacity, key, rule, now), capacity, key, rule, now,
                 Admit(state, rule, ElapsedFraction(now, rule.windowSeconds)), times - 1);
    }
  }

  /** What an admission answers: of the checks of the key that follow at the same instant,
      as many are let through as the remainder says, and no more. */
  lemma AdmissionIsExact(t: Tracker, capacity: nat, key: Key, rule: Rule, now: real, times: nat)
    requires rule.Valid() && capacity >= 1
    requires NotAhead(t, key, WindowIndex(now, rule.windowSeconds))
    requires Answer(t, key, rule, now).allowed
    ensures Answer(t, key, rule, now).retryAfterSeconds == 0
    ensures Answer(Again(t, capacity, key, rule, now, times + 1), key, rule, now).allowed
       <==> times < Answer(t, key, rule, now).remaining
  {
    FractionIsRest(now, rule.windowSeconds);
    var state := StateOf(t, key, WindowIndex(now, rule.windowSeconds));
    var fraction := ElapsedFraction(now, rule.windowSeconds);
    FindsAgain(t, capacity, key, rule, now, state, times + 1);
    RemainderIsUsedUp(state, rule, fraction, times);
  }

  /** An admission names no wait, a refusal no remainder and at least a second. */
  predicate IsReply(d: Decision) {
    if d.allowed then d.remaining >= 0 && d.retryAfterSeconds == 0 else d.remaining == 0 && d.retryAfterSeconds >= 1
  }

  // ---------------------------------------------------------------- the object

  /** __post_init__ of the rule. */
  function MakeRule(maxRequests: int, windowSeconds: real): (r: Result<Rule, string>)
    ensures r.Ok? <==> Rule(maxRequests, windowSeconds).Valid()
    ensures r.Ok? ==> r.value == Rule(maxRequests, windowSeconds)
  {
    if maxRequests < 1 then Err("max_requests")
    else if windowSeconds <= 0.0 then Err("window_seconds")
    else Ok(Rule(maxRequests, windowSeconds))
  }

  class SlidingWindowRateLimiter {
    var states: map<Key, KeyState>
    var order: seq<Key>
    const maxTrackedKeys: int
    ghost var history: seq<Key>

    ghost function Value(): Tracker
      reads this
    {
      Tracker(states, order)
    }

    /** The order is the recency of all checks so far, cut to the capacity; with no
        capacity at all nothing is ever kept. */
    ghost predicate Valid()
      reads this
    {
      && Coherent(Value())
      && (if maxTrackedKeys >= 1 then order == Newest(Recency(history), maxTrackedKeys) else order == [])
    }

    constructor (maxTrackedKeys: int)
      ensures Valid() && this.maxTrackedKeys == maxTrackedKeys && history == [] && states == map[]
    {
      this.maxTrackedKeys := maxTrackedKeys;
      states, order, history := map[], [], [];
    }

    method Reset()
      modifies this
      ensures Valid() && history == [] && states == map[]
    {
      states, order, history := map[], [], [];
    }

    /** popitem(last=False); False is the KeyError of an empty map. */
    method PopOldest() returns (ok: bool)
      modifies this`states, this`order
      ensures ok == (old(order) != [])
      ensures ok ==> states == old(states) - {old(order)[0]} && order == old(order)[1..]
      ensures !ok ==> states == old(states) && order == old(order)
    {
      if |order| == 0 {
        return false;
      }
      states := states - {order[0]};
      order := order[1..];
      ok := true;
    }

    /** Pops until the map fits. */
    method EvictIfOverCapacity() returns (ok: bool)
      requires Coherent(Tracker(states, order))
      modifies this`states, this`order
      ensures ok == (maxTrackedKeys >= 0)
      ensures order == Newest(old(order), Max(maxTrackedKeys, 0))
      ensures states == Restrict(old(states), order)
    {
      ghost var first := Tracker(states, order);
      ghost var i := 0;
      EvictedIsCoherent(first, 0);
      ok := true;
      while |states| > maxTrackedKeys
        invariant ok && i <= |first.order| && Tracker(states, order) == Evicted(first, i)
        invariant |states| == |first.order| - i
        invariant i > 0 ==> |states| >= maxTrackedKeys
        decreases |first.order| - i
      {
        if i < |first.order| {
          EvictOneMore(first, i);
          EvictedIsCoherent(first, i + 1);
        }
        ok := PopOldest();
        if !ok {
          SuffixIsNewest(first.order, i, 0);
          return;
        }
        i := i + 1;
      }
      SuffixIsNewest(first.order, i, maxTrackedKeys);
    }

    /** False is the KeyError of a limiter without capacity. */
    method StateFor(key: Key, windowIndex: int) returns (ok: bool)
      requires Coherent(Tracker(states, order)) && |order| <= Max(maxTrackedKeys, 0)
      modifies this`states, this`order
      ensures ok == (maxTrackedKeys >= 1)
      ensures !ok ==> order == [] && states == map[]
      ensures ok ==>
                Tracker(states, order) == Touched(Tracker(old(states), old(order)), maxTrackedKeys, key, windowIndex)
    {
      ghost var before := Tracker(states, order);
      if key !in states {
        states := states[key := KeyState(windowIndex, 0, 0)];
        order := order + [key];
        NewKeyIsCoherent(before, key, KeyState(windowIndex, 0, 0));
        ok := EvictIfOverCapacity();
        if maxTrackedKeys >= 1 {
          NewKeyFits(before, key, maxTrackedKeys);
        }
        if !ok || key !in states {
          return false;
        }
        TouchNew(before, maxTrackedKeys, key, windowIndex);
      } else {
        states := states[key := Roll(states[key], windowIndex)];
        TouchKnown(before, maxTrackedKeys, key, windowIndex);
      }
      order := MoveToEnd(order, key);
      ok := true;
    }

    lemma RecencyOfNext(key: Key)
      requires Valid() && maxTrackedKeys >= 1
      ensures Newest(MoveToEnd(order, key), maxTrackedKeys) == Newest(Recency(history + [key]), maxTrackedKeys)
    {
      RecencyIsDistinct(history);
      NewestCommutes(Recency(history), key, maxTrackedKeys);
      assert (history + [key])[..|history|] == history;
    }

    method Check(key: Key, rule: Rule, now: real) returns (r: Result<Decision, string>)
      requires Valid() && rule.Valid()
      modifies this
      ensures Valid()
      ensures r.Err? <==> maxTrackedKeys < 1
      ensures history == if r.Ok? then old(history) + [key] else old(history)
      ensures r.Ok? ==>
                && Value() == Checked(old(Value()), maxTrackedKeys, key, rule, now)
                && r.value == Answer(old(Value()), key, rule, now)
                && IsReply(r.value)
                && |states| <= maxTrackedKeys
    {
      ghost var before := Value();
      if maxTrackedKeys >= 1 {
        RecencyOfNext(key);
      }
      var windowIndex := (now / rule.windowSeconds).Floor;
      var fraction := ElapsedFraction(now, rule.windowSeconds);
      var ok := StateFor(key, windowIndex);
      if !ok {
        return Err("KeyError");
      }
      history := history + [key];
      ghost var touched := Touched(before, maxTrackedKeys, key, windowIndex);
      TouchedIsCoherent(before, maxTrackedKeys, key, windowIndex);
      r := Judge(key, rule, fraction);
      KeepsCoherence(touched, key, states[key]);
      assert Value() == Tracker(touched.states[key := states[key]], touched.order);
    }

    /** The rest of check, once the state of the key is up to date. */
    method Judge(key: Key, rule: Rule, fraction: real) returns (r: Result<Decision, string>)
      requires key in states
      modifies this`states
      ensures r == Ok(Decide(old(states)[key], rule, fraction)) && IsReply(r.value)
      ensures states == old(states)[key := Admit(old(states)[key], rule, fraction)]
    {
      var state := states[key];
      var estimated := state.previous as real * (1.0 - fraction) + state.current as real;
      assert estimated == Estimate(state, fraction);
      if estimated >= rule.maxRequests as real {
        assert states[key := state] == states;
        return Ok(Decision(false, 0, SecondsUntilAllowed(state, rule, fraction)));
      }
      states := states[key := state.(current := state.current + 1)];
      return Ok(Decision(true, Max(0, rule.maxRequests - estimated.Floor - 1), 0));
    }

    /** What the map holds, in terms of the checks made: exactly the keys with
        fewer than the capacity of other keys checked since. */
    lemma TracksTheMostRecent(i: nat)
      requires Valid() && maxTrackedKeys >= 1
      requires i < |history| && history[i] !in history[i + 1..]
      ensures history[i] in states <==> |KeysIn(history[i + 1..])| < maxTrackedKeys
      ensures |states| <= maxTrackedKeys
    {
      RecentExactlyWhenFewOthers(history, i, maxTrackedKeys);
      assert history[i] in order <==> history[i] in KeysIn(order);
    }
  }

  /** Moving the last key to the end changes nothing. */
  lemma LastStaysLast(xs: seq<Key>, n: nat, k: Key)
    requires Distinct(xs) && n >= 1 && xs != [] && xs[|xs| - 1] == k
    ensures MoveToEnd(Newest(xs, n), k) == Newest(xs, n)
  {
    var cut := Newest(xs, n);
    var front := cut[..|cut| - 1];
    assert cut == front + [k];
    WithoutConcat(front, [k], k);
    WithoutAbsent(front, k);
  }
}

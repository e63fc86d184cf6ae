/** The sliding-window limiter of ratelimit.py: the arithmetic of one key, and the
    class that keeps the keys in least-recently-checked order. Time is a real. */
module RateLimit {
  import opened Prelude

  type Key = string

  datatype Rule = Rule(maxRequests: int, windowSeconds: real) {
    predicate Valid() {
      maxRequests >= 1 && windowSeconds > 0.0
    }
  }

  datatype KeyState = KeyState(windowIndex: int, current: nat, previous: nat)

  datatype Decision = Decision(allowed: bool, remaining: int, retryAfterSeconds: int)

  /** now // window_seconds */
  function WindowIndex(now: real, window: real): int
    requires window > 0.0
  {
    (now / window).Floor
  }

  /** (now % window_seconds) / window_seconds */
  function ElapsedFraction(now: real, window: real): real
    requires window > 0.0
  {
    (now - WindowIndex(now, window) as real * window) / window
  }

  function Estimate(state: KeyState, fraction: real): real {
    state.previous as real * (1.0 - fraction) + state.current as real
  }

  function Roll(state: KeyState, windowIndex: int): KeyState {
    var elapsed := windowIndex - state.windowIndex;
    if elapsed <= 0 then state
    else KeyState(windowIndex, 0, if elapsed == 1 then state.current else 0)
  }

  function Ceil(value: real): int {
    -((-value).Floor)
  }

  function AtLeastOneSecond(value: real): int {
    Max(1, Ceil(value))
  }

  /** The wait before rounding up, in closed form. */
  function ExactWait(state: KeyState, rule: Rule, fraction: real): real {
    var headroom := rule.maxRequests - state.current;
    if headroom > 0 && state.previous > 0 then
      (1.0 - headroom as real / state.previous as real - fraction) * rule.windowSeconds
    else
      (1.0 - fraction) * rule.windowSeconds
      + MaxReal(0.0, 1.0 - rule.maxRequests as real / Max(state.current, 1) as real) * rule.windowSeconds
  }

  function SecondsUntilAllowed(state: KeyState, rule: Rule, fraction: real): int {
    AtLeastOneSecond(ExactWait(state, rule, fraction))
  }

  predicate Refuses(state: KeyState, rule: Rule, fraction: real) {
    Estimate(state, fraction) >= rule.maxRequests as real
  }

  function Decide(state: KeyState, rule: Rule, fraction: real): Decision {
    if Refuses(state, rule, fraction) then
      Decision(false, 0, SecondsUntilAllowed(state, rule, fraction))
    else
      Decision(true, Max(0, rule.maxRequests - Estimate(state, fraction).Floor - 1), 0)
  }

  function Admit(state: KeyState, rule: Rule, fraction: real): KeyState {
    if Refuses(state, rule, fraction) then state else state.(current := state.current + 1)
  }

  /** Would a check of this key at `now` be let through? */
  predicate Admits(state: KeyState, rule: Rule, now: real)
    requires rule.Valid()
  {
    !Refuses(Roll(state, WindowIndex(now, rule.windowSeconds)), rule, ElapsedFraction(now, rule.windowSeconds))
  }

  // ---------------------------------------------------------------- window arithmetic

  lemma DivideAfterMultiply(x: real, w: real)
    requires w > 0.0
    ensures x * w / w == x && x / w * w == x
  {
  }

  lemma FractionIsRest(now: real, w: real)
    requires w > 0.0
    ensures ElapsedFraction(now, w) == now / w - WindowIndex(now, w) as real
    ensures 0.0 <= ElapsedFraction(now, w) < 1.0
  {
    var u := now / w;
    var i := u.Floor as real;
    DivideAfterMultiply(now, w);
    assert now - i * w == (u - i) * w;
    DivideAfterMultiply(u - i, w);
  }

  /** Where a wait of d seconds lands, in windows. */
  lemma WaitMovesTheWindow(now: real, d: real, w: real)
    requires w > 0.0 && d >= 0.0
    ensures var i, f := WindowIndex(now, w), ElapsedFraction(now, w);
            var j, g := WindowIndex(now + d, w), ElapsedFraction(now + d, w);
            && j as real + g == i as real + f + d / w
            && (f + d / w < 1.0 ==> j == i && g == f + d / w)
            && (1.0 <= f + d / w < 2.0 ==> j == i + 1 && g == f + d / w - 1.0)
            && (2.0 <= f + d / w ==> j >= i + 2)
            && d / w >= 0.0
  {
    FractionIsRest(now, w);
    FractionIsRest(now + d, w);
    DivideAfterMultiply(now, w);
    DivideAfterMultiply(d, w);
    assert (now / w + d / w) * w == now + d;
    DivideAfterMultiply(now / w + d / w, w);
  }

  lemma MultiplyKeepsOrder(a: real, b: real, w: real)
    requires w > 0.0
    ensures a < b <==> a * w < b * w
  {
    if a < b {
      assert (b - a) * w > 0.0;
    } else {
      assert (a - b) * w >= 0.0;
    }
  }

  lemma DivideKeepsOrder(a: real, b: real, w: real)
    requires w > 0.0
    ensures a < b <==> a / w < b / w
  {
    MultiplyKeepsOrder(a / w, b / w, w);
    DivideAfterMultiply(a, w);
    DivideAfterMultiply(b, w);
  }

  // ---------------------------------------------------------------- Retry-After

  lemma LinearDecay(p: real, h: real, g: real)
    requires p > 0.0
    ensures p * (1.0 - g) < h <==> g > 1.0 - h / p
  {
    DivideAfterMultiply(h, p);
    MultiplyKeepsOrder(1.0 - g, h / p, p);
    assert p * (1.0 - g) == (1.0 - g) * p;
  }

  /** Within the window of the refusal the old requests decay linearly. */
  lemma DecayInWindow(state: KeyState, rule: Rule, g: real)
    requires rule.maxRequests - state.current > 0 && state.previous > 0
    ensures !Refuses(state, rule, g) <==>
              g > 1.0 - (rule.maxRequests - state.current) as real / state.previous as real
  {
    LinearDecay(state.previous as real, (rule.maxRequests - state.current) as real, g);
  }

  /** The window after: what was admitted in this one decays in its turn. */
  lemma DecayInNextWindow(state: KeyState, rule: Rule, g: real)
    requires rule.Valid() && state.current >= rule.maxRequests
    ensures !Refuses(KeyState(state.windowIndex + 1, 0, state.current), rule, g) <==>
              g > 1.0 - rule.maxRequests as real / state.current as real
  {
    LinearDecay(state.current as real, rule.maxRequests as real, g);
  }

  lemma NeverRefusesFewer(state: KeyState, rule: Rule, g: real)
    requires state.previous < rule.maxRequests && state.current == 0 && 0.0 <= g < 1.0
    ensures !Refuses(state, rule, g)
  {
    var p := state.previous as real;
    assert p * (1.0 - g) <= p;
  }

  lemma WaitInWindow(state: KeyState, rule: Rule, now: real, wait: real)
    requires rule.Valid() && wait >= 0.0
    requires state.windowIndex == WindowIndex(now, rule.windowSeconds)
    requires rule.maxRequests - state.current > 0 && state.previous > 0
    requires Refuses(state, rule, ElapsedFraction(now, rule.windowSeconds))
    ensures Admits(state, rule, now + wait) <==>
              wait > ExactWait(state, rule, ElapsedFraction(now, rule.windowSeconds))
    ensures ExactWait(state, rule, ElapsedFraction(now, rule.windowSeconds)) >= 0.0
  {
    var w := rule.windowSeconds;
    var f := ElapsedFraction(now, w);
    var h := (rule.maxRequests - state.current) as real;
    var target := 1.0 - h / state.previous as real;
    FractionIsRest(now, w);
    FractionIsRest(now + wait, w);
    WaitMovesTheWindow(now, wait, w);
    DecayInWindow(state, rule, f);
    PositiveQuotient(h, state.previous as real);
    assert f <= target < 1.0;
    WaitInWindows(wait, target - f, w);
    NonNegativeProduct(target - f, w);
    var later := Roll(state, WindowIndex(now + wait, w));
    if f + wait / w < 1.0 {
      DecayInWindow(state, rule, f + wait / w);
    } else {
      NeverRefusesFewer(later, rule, ElapsedFraction(now + wait, w));
    }
  }

  lemma PositiveQuotient(a: real, b: real)
    requires a > 0.0 && b > 0.0
    ensures a / b > 0.0
  {
    DivideKeepsOrder(0.0, a, b);
  }

  lemma NonNegativeProduct(a: real, b: real)
    requires a >= 0.0 && b >= 0.0
    ensures a * b >= 0.0
  {
  }

  lemma WaitInWindows(wait: real, windows: real, w: real)
    requires w > 0.0
    ensures wait > windows * w <==> wait / w > windows
  {
    MultiplyKeepsOrder(windows, wait / w, w);
    DivideAfterMultiply(wait, w);
  }

  lemma ExactWaitAcross(state: KeyState, rule: Rule, f: real)
    requires rule.Valid() && state.current >= rule.maxRequests
    ensures ExactWait(state, rule, f)
         == (1.0 - f + (1.0 - rule.maxRequests as real / state.current as real)) * rule.windowSeconds
  {
    QuotientAtMostOne(rule.maxRequests as real, state.current as real);
    Distribute(1.0 - f, 1.0 - rule.maxRequests as real / state.current as real, rule.windowSeconds);
  }

  lemma Distribute(a: real, b: real, w: real)
    ensures (a + b) * w == a * w + b * w
  {
  }

  lemma WaitAcrossWindows(state: KeyState, rule: Rule, now: real, wait: real)
    requires rule.Valid() && wait >= 0.0
    requires state.windowIndex == WindowIndex(now, rule.windowSeconds)
    requires state.current >= rule.maxRequests
    ensures Admits(state, rule, now + wait) <==>
              wait > ExactWait(state, rule, ElapsedFraction(now, rule.windowSeconds))
    ensures ExactWait(state, rule, ElapsedFraction(now, rule.windowSeconds)) >= 0.0
  {
    var w := rule.windowSeconds;
    var f := ElapsedFraction(now, w);
    var c := state.current as real;
    var decay := 1.0 - rule.maxRequests as real / c;
    FractionIsRest(now, w);
    FractionIsRest(now + wait, w);
    WaitMovesTheWindow(now, wait, w);
    PositiveQuotient(rule.maxRequests as real, c);
    QuotientAtMostOne(rule.maxRequests as real, c);
    assert 0.0 <= decay < 1.0;
    ExactWaitAcross(state, rule, f);
    NonNegativeProduct(1.0 - f + decay, w);
    WaitInWindows(wait, 1.0 - f + decay, w);
    var g := ElapsedFraction(now + wait, w);
    if f + wait / w < 1.0 {
      NonNegativeProduct(state.previous as real, 1.0 - g);
    } else if f + wait / w < 2.0 {
      DecayInNextWindow(state, rule, g);
    } else {
      NeverRefusesFewer(Roll(state, WindowIndex(now + wait, w)), rule, g);
    }
  }

  lemma QuotientAtMostOne(a: real, b: real)
    requires a <= b && b > 0.0
    ensures a / b <= 1.0
  {
    DivideKeepsOrder(b, a, b);
  }

  /** The closed form is exact: after a refusal, and with no other check of the key
      in between, a check is let through at precisely the waits longer than it,
      across any number of window rollovers. */
  lemma WaitIsExact(state: KeyState, rule: Rule, now: real, wait: real)
    requires rule.Valid() && wait >= 0.0
    requires state.windowIndex == WindowIndex(now, rule.windowSeconds)
    requires Refuses(state, rule, ElapsedFraction(now, rule.windowSeconds))
    ensures Admits(state, rule, now + wait) <==>
              wait > ExactWait(state, rule, ElapsedFraction(now, rule.windowSeconds))
    ensures ExactWait(state, rule, ElapsedFraction(now, rule.windowSeconds)) >= 0.0
  {
    if state.current >= rule.maxRequests {
      WaitAcrossWindows(state, rule, now, wait);
    } else {
      if state.previous == 0 {
        assert false;
      }
      WaitInWindow(state, rule, now, wait);
    }
  }

  lemma RoundingUp(x: real, wait: real)
    requires x >= 0.0
    ensures AtLeastOneSecond(x) as real >= x
    ensures 0.0 <= wait <= AtLeastOneSecond(x) as real - 1.0 ==> wait <= x
    ensures AtLeastOneSecond(x) as real > x <==> x == 0.0 || x != x.Floor as real
  {
    CeilBounds(x);
    if x == 0.0 {
      assert Ceil(x) == 0;
    } else {
      assert Ceil(x) >= 1;
    }
  }

  lemma CeilBounds(x: real)
    ensures Ceil(x) as real >= x > Ceil(x) as real - 1.0
    ensures Ceil(x) as real == x <==> x == x.Floor as real
  {
    FloorBounds(-x);
    FloorBounds(x);
    SameInteger(x, Ceil(x), x.Floor);
  }

  lemma SameInteger(x: real, above: int, below: int)
    requires above as real - 1.0 < x <= above as real
    requires below as real <= x < below as real + 1.0
    ensures above as real == x <==> x == below as real
  {
    if above as real == x {
      assert below <= above < below + 1;
    }
    if below as real == x {
      assert above - 1 < below <= above;
    }
  }

  lemma FloorBounds(v: real)
    ensures v.Floor as real <= v < v.Floor as real + 1.0
  {
  }

  /** Retry-After is exact to one second: every longer wait is let through, and
      every wait shorter by a second or more is refused. */
  lemma RetryAfterIsExactToOneSecond(state: KeyState, rule: Rule, now: real, wait: real)
    requires rule.Valid() && wait >= 0.0
    requires state.windowIndex == WindowIndex(now, rule.windowSeconds)
    requires Refuses(state, rule, ElapsedFraction(now, rule.windowSeconds))
    ensures var r := SecondsUntilAllowed(state, rule, ElapsedFraction(now, rule.windowSeconds));
            && r >= 1
            && (wait > r as real ==> Admits(state, rule, now + wait))
            && (wait <= r as real - 1.0 ==> !Admits(state, rule, now + wait))
  {
    WaitIsExact(state, rule, now, wait);
    RoundingUp(ExactWait(state, rule, ElapsedFraction(now, rule.windowSeconds)), wait);
  }

  /** A client that waits exactly the advertised time is let through if and only if
      rounding up added something: an estimate equal to the limit is refused. */
  lemma WaitingExactlyTheAdvertisedTime(state: KeyState, rule: Rule, now: real)
    requires rule.Valid()
    requires state.windowIndex == WindowIndex(now, rule.windowSeconds)
    requires Refuses(state, rule, ElapsedFraction(now, rule.windowSeconds))
    ensures var x := ExactWait(state, rule, ElapsedFraction(now, rule.windowSeconds));
            var r := SecondsUntilAllowed(state, rule, ElapsedFraction(now, rule.windowSeconds));
            Admits(state, rule, now + r as real) <==> x == 0.0 || x != x.Floor as real
  {
    var x := ExactWait(state, rule, ElapsedFraction(now, rule.windowSeconds));
    var r := SecondsUntilAllowed(state, rule, ElapsedFraction(now, rule.windowSeconds));
    WaitIsExact(state, rule, now, r as real);
    RoundingUp(x, 0.0);
  }

  /** An input that doubles represent exactly: three requests in 64 seconds, all spent at
      second 1000. The header says 24, and at second 1024 the estimate is three. */
  lemma AdvertisedTimeCanStillBeRefused()
    ensures var rule := Rule(3, 64.0);
            var spent := KeyState(15, 3, 0);
            && rule.Valid() && WindowIndex(1000.0, 64.0) == 15 && ElapsedFraction(1000.0, 64.0) == 0.625
            && Refuses(spent, rule, 0.625) && SecondsUntilAllowed(spent, rule, 0.625) == 24
            && WindowIndex(1024.0, 64.0) == 16 && ElapsedFraction(1024.0, 64.0) == 0.0
            && Estimate(Roll(spent, 16), 0.0) == 3.0 && !Admits(spent, rule, 1024.0)
  {
    assert WindowIndex(1000.0, 64.0) == 15;
    assert WindowIndex(1024.0, 64.0) == 16;
    assert ElapsedFraction(1024.0, 64.0) == 0.0;
    assert ElapsedFraction(1000.0, 64.0) == 0.625;
    assert ExactWait(KeyState(15, 3, 0), Rule(3, 64.0), 0.625) == 24.0;
  }

  /** The advertised remainder counts exactly the further requests that would be
      let through at the same instant. */
  lemma RemainingIsExact(state: KeyState, rule: Rule, fraction: real, further: nat)
    requires rule.Valid() && 0.0 <= fraction < 1.0 && !Refuses(state, rule, fraction)
    ensures !Refuses(state.(current := state.current + 1 + further), rule, fraction)
       <==> further < Decide(state, rule, fraction).remaining
    ensures Decide(state, rule, fraction).remaining == rule.maxRequests - Estimate(state, fraction).Floor - 1
  {
    NonNegativeProduct(state.previous as real, 1.0 - fraction);
    var e := Estimate(state, fraction);
    assert Estimate(state.(current := state.current + 1 + further), fraction) == e + 1.0 + further as real;
  }

  /** The counters after this many checks at one instant. */
  function AdmitTimes(state: KeyState, rule: Rule, fraction: real, times: nat): KeyState
    decreases times
  {
    if times == 0 then state else AdmitTimes(Admit(state, rule, fraction), rule, fraction, times - 1)
  }

  lemma {:induction false} TimesCount(state: KeyState, rule: Rule, fraction: real, times: nat)
    requires rule.Valid() && 0.0 <= fraction < 1.0 && !Refuses(state, rule, fraction)
    ensures var m := Decide(state, rule, fraction).remaining;
            && m >= 0
            && AdmitTimes(state, rule, fraction, times + 1) == state.(current := state.current + 1 + Min(times, m))
    decreases times
  {
    var next := Admit(state, rule, fraction);
    RemainingIsExact(state, rule, fraction, 0);
    if times > 0 {
      if Refuses(next, rule, fraction) {
        RefusedTimes(next, rule, fraction, times);
      } else {
        TimesCount(next, rule, fraction, times - 1);
        OneRemainsLess(state, rule, fraction);
      }
    }
  }

  lemma {:induction false} RefusedTimes(state: KeyState, rule: Rule, fraction: real, times: nat)
    requires Refuses(state, rule, fraction)
    ensures AdmitTimes(state, rule, fraction, times) == state
    decreases times
  {
    if times > 0 {
      RefusedTimes(state, rule, fraction, times - 1);
    }
  }

  lemma OneRemainsLess(state: KeyState, rule: Rule, fraction: real)
    requires rule.Valid() && 0.0 <= fraction < 1.0 && !Refuses(state, rule, fraction)
    requires !Refuses(state.(current := state.current + 1), rule, fraction)
    ensures Decide(state.(current := state.current + 1), rule, fraction).remaining
         == Decide(state, rule, fraction).remaining - 1
  {
    RemainingIsExact(state, rule, fraction, 0);
    RemainingIsExact(state.(current := state.current + 1), rule, fraction, 0);
    assert Estimate(state.(current := state.current + 1), fraction) == Estimate(state, fraction) + 1.0;
  }

  /** Of the checks that follow an admission at the same instant, as many are let through as
      its remainder says, and no more. */
  lemma RemainderIsUsedUp(state: KeyState, rule: Rule, fraction: real, times: nat)
    requires rule.Valid() && 0.0 <= fraction < 1.0 && !Refuses(state, rule, fraction)
    ensures !Refuses(AdmitTimes(state, rule, fraction, times + 1), rule, fraction)
       <==> times < Decide(state, rule, fraction).remaining
  {
    TimesCount(state, rule, fraction, times);
    RemainingIsExact(state, rule, fraction, Min(times, Decide(state, rule, fraction).remaining));
  }
}

/** Login and its doubling lock, as routers/auth.py and security.py do them. Each login
    is one step here; Overlap takes it apart. */
module Lockout {
  import opened Prelude

  const MAX_FAILED_LOGINS: nat := 5
  const LOCKOUT_MINUTES: nat := 15
  const LONGEST_LOCK_MINUTES: nat := 24 * 60

  function LockMinutes(failed: nat): nat {
    if failed < MAX_FAILED_LOGINS then 0
    else Min(LOCKOUT_MINUTES * Pow2(failed - MAX_FAILED_LOGINS), LONGEST_LOCK_MINUTES)
  }

  function LockTime(failed: nat): (time: Instant)
    ensures 0 <= time && (failed < MAX_FAILED_LOGINS ==> time == 0)
  {
    Minutes(LockMinutes(failed))
  }

  /** In microseconds. */
  function Minutes(n: nat): Instant {
    n * 60_000_000
  }

  function LockoutUntil(failed: nat, now: Instant): Option<Instant> {
    if failed < MAX_FAILED_LOGINS then None else Some(now + LockTime(failed))
  }

  predicate IsLocked(lockedUntil: Option<Instant>, now: Instant) {
    lockedUntil.Some? && lockedUntil.value > now
  }

  datatype Account = Account(failed: nat, lockedUntil: Option<Instant>, active: bool)

  datatype Reply = Locked | LockedNow | WrongPassword | Deactivated | Granted

  /** One login: the lock is checked at `checked`, a failure is recorded at `recorded`. */
  function AfterLogin(a: Account, correct: bool, checked: Instant, recorded: Instant): (Account, Reply) {
    if IsLocked(a.lockedUntil, checked) then (a, Locked)
    else if !correct then
      var until := LockoutUntil(a.failed + 1, recorded);
      (a.(failed := a.failed + 1, lockedUntil := until), if until.Some? then LockedNow else WrongPassword)
    else if !a.active then (a, Deactivated)
    else (a.(failed := 0, lockedUntil := None), Granted)
  }

  class User {
    var failedLoginAttempts: nat
    var lockedUntil: Option<Instant>
    var isActive: bool

    constructor ()
      ensures Value() == NEW_ACCOUNT
    {
      failedLoginAttempts, lockedUntil, isActive := 0, None, true;
    }

    /** The row as a session loads it. */
    constructor Loaded(row: Account)
      ensures Value() == row
    {
      failedLoginAttempts, lockedUntil, isActive := row.failed, row.lockedUntil, row.active;
    }

    function Value(): Account
      reads this
    {
      Account(failedLoginAttempts, lockedUntil, isActive)
    }

    /** login, for an address that has an account. */
    method Login(correct: bool, checked: Instant, recorded: Instant) returns (reply: Reply)
      modifies this
      ensures (Value(), reply) == AfterLogin(old(Value()), correct, checked, recorded)
    {
      if IsLocked(lockedUntil, checked) {
        return Locked;
      }
      if !correct {
        failedLoginAttempts := failedLoginAttempts + 1;
        lockedUntil := LockoutUntil(failedLoginAttempts, recorded);
        return if lockedUntil.Some? then LockedNow else WrongPassword;
      }
      if !isActive {
        return Deactivated;
      }
      failedLoginAttempts := 0;
      lockedUntil := None;
      return Granted;
    }
  }

  const NEW_ACCOUNT := Account(0, None, true)

  /** From the fifth failure on the lock doubles with each, up to a day. */
  lemma {:induction false} LockDoublesUpToADay(failed: nat)
    requires failed >= MAX_FAILED_LOGINS
    ensures LockMinutes(5) == 15 <= LockMinutes(failed) <= LockMinutes(failed + 1)
    ensures LockMinutes(failed + 1) == Min(2 * LockMinutes(failed), 1440)
    ensures LockMinutes(failed) == 1440 <==> failed >= 12
    ensures LockTime(failed) == LockMinutes(failed) * 60 * 1_000_000
  {
    if failed > 12 {
      LockDoublesUpToADay(failed - 1);
    } else if failed == 12 {
      assert Pow2(7) == 2 * Pow2(6) == 4 * Pow2(5) == 8 * Pow2(4) == 16 * Pow2(3) == 128;
    } else {
      assert Pow2(6) == 2 * Pow2(5) == 4 * Pow2(4) == 8 * Pow2(3) == 64;
      assert failed - MAX_FAILED_LOGINS in {0, 1, 2, 3, 4, 5, 6};
    }
  }

  // ---------------------------------------------------------------- runs

  /** What may happen to an account between two resets of its counter. */
  datatype Event = Login(correct: bool, checked: Instant, recorded: Instant) | Deactivate

  function Next(a: Account, e: Event): Account {
    match e
    case Login(correct, checked, recorded) => AfterLogin(a, correct, checked, recorded).0
    case Deactivate => a.(active := false)
  }

  function After(a: Account, events: seq<Event>): Account {
    if events == [] then a else Next(After(a, events[..|events| - 1]), events[|events| - 1])
  }

  /** The password was looked at, and was wrong. */
  predicate Wrong(a: Account, e: Event) {
    e.Login? && AfterLogin(a, e.correct, e.checked, e.recorded).1 in {WrongPassword, LockedNow}
  }

  function WrongCount(a: Account, events: seq<Event>): nat {
    if events == [] then 0
    else
      var n := |events| - 1;
      WrongCount(a, events[..n]) + if Wrong(After(a, events[..n]), events[n]) then 1 else 0
  }

  /** No login of the run succeeds. */
  ghost predicate NoSuccess(a: Account, events: seq<Event>) {
    events == [] ||
      var n := |events| - 1;
      var e := events[n];
      && NoSuccess(a, events[..n])
      && (e.Login? ==> AfterLogin(After(a, events[..n]), e.correct, e.checked, e.recorded).1 != Granted)
  }

  /** The clock does not run backwards within or between the logins, and the run is over by `now`. */
  ghost predicate OverBy(events: seq<Event>, now: Instant) {
    events == [] ||
      var n := |events| - 1;
      match events[n]
      case Login(_, checked, recorded) => checked <= recorded <= now && OverBy(events[..n], checked)
      case Deactivate => OverBy(events[..n], now)
  }

  predicate IsShut(a: Account, now: Instant) {
    a.lockedUntil.Some? && now < a.lockedUntil.value
  }

  /** Who gets in: just an active account that is not shut, with the right password; it then
      starts afresh. A wrong password counts just when the account is not shut, whether active
      or not; it shuts the account from the fifth on. Nothing else leaves a trace. */
  lemma GrantedExactlyWhen(a: Account, correct: bool, checked: Instant, recorded: Instant)
    ensures var (next, reply) := AfterLogin(a, correct, checked, recorded);
            && (reply == Granted <==> correct && a.active && !IsShut(a, checked))
            && (reply == Granted ==> next == NEW_ACCOUNT)
            && (reply in {WrongPassword, LockedNow} <==> !correct && !IsShut(a, checked))
            && (reply in {WrongPassword, LockedNow} ==>
                  && next.failed == a.failed + 1 && next.active == a.active
                  && (reply == LockedNow <==> a.failed >= 4)
                  && (reply == LockedNow <==> next.lockedUntil.Some?)
                  && forall t :: IsShut(next, t) <==> a.failed >= 4 && t < recorded + LockTime(a.failed + 1))
            && (reply in {Locked, Deactivated} ==> next == a)
            && (reply == Locked <==> IsShut(a, checked))
  {
  }

  /** A shut account stays as it is, whatever is tried before the lock ends. */
  lemma {:induction false} LockHolds(a: Account, events: seq<Event>)
    requires forall e :: e in events && e.Login? ==> IsShut(a, e.checked)
    ensures After(a, events).failed == a.failed && After(a, events).lockedUntil == a.lockedUntil
    ensures WrongCount(a, events) == 0 && NoSuccess(a, events)
    decreases |events|
  {
    if events != [] {
      var n := |events| - 1;
      LockHolds(a, events[..n]);
      assert events[n] in events;
    }
  }

  predicate Succeeds(a: Account, e: Event) {
    e.Login? && AfterLogin(a, e.correct, e.checked, e.recorded).1 == Granted
  }

  /** The wrong passwords that were looked at since the last success, or since the start. */
  function WrongSinceSuccess(a: Account, events: seq<Event>): nat {
    if events == [] then a.failed
    else
      var n := |events| - 1;
      var before := After(a, events[..n]);
      if Succeeds(before, events[n]) then 0
      else WrongSinceSuccess(a, events[..n]) + if Wrong(before, events[n]) then 1 else 0
  }

  /** Over any run, successes included, the counter counts the wrong passwords that were
      looked at since the last success. */
  lemma {:induction false} CounterCountsSinceSuccess(a: Account, events: seq<Event>)
    ensures After(a, events).failed == WrongSinceSuccess(a, events)
    decreases |events|
  {
    if events != [] {
      CounterCountsSinceSuccess(a, events[..|events| - 1]);
    }
  }

  /** All the locks after the first `failed` failures, in microseconds. */
  function Waits(failed: nat): Instant {
    if failed == 0 then 0 else Waits(failed - 1) + LockTime(failed)
  }

  /** The counter counts exactly the wrong passwords that were looked at: attempts made
      while locked, even with the right password, never change it. */
  lemma {:induction false} CounterCountsWrongPasswords(a: Account, events: seq<Event>)
    requires NoSuccess(a, events)
    ensures After(a, events).failed == a.failed + WrongCount(a, events)
    decreases |events|
  {
    if events != [] {
      CounterCountsWrongPasswords(a, events[..|events| - 1]);
    }
  }

  /** The earliest moment at which a password can be looked at again. */
  function Opens(a: Account, now: Instant): Instant {
    if a.lockedUntil.Some? then Max(a.lockedUntil.value, now) else now
  }

  /** One step: a later event never opens the account earlier, and a wrong password adds
      its own lock. */
  lemma StepOpensNoEarlier(a: Account, e: Event, start: Instant, before: Instant, now: Instant)
    requires start + Waits(a.failed) <= Opens(a, before)
    requires e.Login? ==> e.checked == before && e.checked <= e.recorded <= now
    requires e.Login? ==> AfterLogin(a, e.correct, e.checked, e.recorded).1 != Granted
    requires e.Deactivate? ==> before == now
    ensures start + Waits(Next(a, e).failed) <= Opens(Next(a, e), now)
  {
    if Wrong(a, e) && a.failed + 1 < MAX_FAILED_LOGINS {
      assert LockTime(a.failed + 1) == 0;
    }
  }

  /** From the first wrong password on, the account opens no earlier than all the locks
      since then allow. */
  lemma {:induction false} LocksAddUp(a: Account, events: seq<Event>, first: nat, now: Instant)
    requires a.failed == 0 && NoSuccess(a, events) && OverBy(events, now)
    requires first < |events| && Wrong(After(a, events[..first]), events[first])
    requires WrongCount(a, events[..first]) == 0
    ensures events[first].checked + Waits(After(a, events).failed) <= Opens(After(a, events), now)
    decreases |events|
  {
    var n := |events| - 1;
    var front, e := events[..n], events[n];
    if n == first {
      CounterCountsWrongPasswords(a, front);
      assert Waits(0) == 0 && Waits(1) == LockTime(1) == 0;
    } else {
      var before := if e.Login? then e.checked else now;
      assert front[..first] == events[..first];
      LocksAddUp(a, front, first, before);
      StepOpensNoEarlier(After(a, front), e, events[first].checked, before, now);
    }
  }

  /** The time bound: a wrong password that is looked at after n others comes at least the
      sum of the locks for 1 to n failures after the first of them. */
  lemma WrongPasswordsAreSpacedOut(a: Account, events: seq<Event>, first: nat, next: Event)
    requires a.failed == 0 && NoSuccess(a, events)
    requires first < |events| && Wrong(After(a, events[..first]), events[first])
    requires WrongCount(a, events[..first]) == 0
    requires Wrong(After(a, events), next) && OverBy(events, next.checked)
    ensures next.checked - events[first].checked >= Waits(WrongCount(a, events))
  {
    CounterCountsWrongPasswords(a, events);
    LocksAddUp(a, events, first, next.checked);
  }

  /** The bound is tight: trying again at the very moment each lock ends. */
  function Eager(n: nat): (events: seq<Event>)
    ensures |events| == n
  {
    if n == 0 then [] else Eager(n - 1) + [Login(false, Waits(n - 1), Waits(n - 1))]
  }

  lemma {:induction false} WaitsAreNotNegative(n: nat)
    ensures 0 <= Waits(n)
  {
    if n > 0 {
      WaitsAreNotNegative(n - 1);
    }
  }

  function EagerAccount(n: nat): Account {
    Account(n, if n < MAX_FAILED_LOGINS then None else Some(Waits(n)), true)
  }

  lemma EagerStep(n: nat)
    ensures Next(EagerAccount(n), Login(false, Waits(n), Waits(n))) == EagerAccount(n + 1)
    ensures Wrong(EagerAccount(n), Login(false, Waits(n), Waits(n)))
    ensures Waits(n) <= Waits(n + 1)
  {
    WaitsAreNotNegative(n);
    assert Waits(n + 1) == Waits(n) + LockTime(n + 1);
  }

  lemma {:induction false} EagerIsARun(n: nat)
    ensures NoSuccess(NEW_ACCOUNT, Eager(n)) && OverBy(Eager(n), Waits(n))
    ensures After(NEW_ACCOUNT, Eager(n)) == EagerAccount(n) && WrongCount(NEW_ACCOUNT, Eager(n)) == n
    ensures n > 0 ==> Eager(n)[0] == Login(false, 0, 0)
  {
    if n > 0 {
      EagerIsARun(n - 1);
      EagerStep(n - 1);
      assert Eager(n)[..n - 1] == Eager(n - 1);
    }
  }

  /** No larger bound holds: a run of n wrong passwords, all looked at, after which one
      more is looked at exactly the sum of the locks after the first. */
  lemma TheBoundIsReached(n: nat)
    requires n > 0
    ensures var events, next := Eager(n), Login(false, Waits(n), Waits(n));
            && NoSuccess(NEW_ACCOUNT, events) && OverBy(events, next.checked)
            && Wrong(After(NEW_ACCOUNT, events[..0]), events[0]) && WrongCount(NEW_ACCOUNT, events[..0]) == 0
            && Wrong(After(NEW_ACCOUNT, events), next)
            && next.checked - events[0].checked == Waits(WrongCount(NEW_ACCOUNT, events))
  {
    EagerIsARun(n);
    assert Eager(n)[..0] == [];
  }
}

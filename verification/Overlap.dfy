/** Logins of one account that overlap: a login reads the row, checks the password, and
    writes its row back later, through the copy it read. Lockout takes each login as one
    step; here is exactly when the counter still counts, and when a run is one of Lockout. */
module Overlap {
  import opened Prelude
  import Lockout

  /** What a login in flight has read, and when. */
  datatype Reading = Reading(seen: Lockout.Account, checked: Instant)

  /** The row and the logins in flight that found it open. `behind` are those that read it
      before the last failure was recorded. */
  datatype Desk = Desk(row: Lockout.Account, open: map<nat, Reading>, behind: set<nat>)

  datatype Event =
    | Look(login: nat, checked: Instant)
    | Miss(login: nat, recorded: Instant)
    | Pass(login: nat)
    | Deactivate

  /** The row with this counter and lock assigned through a copy: a column is written if it
      differs from the copy's. */
  function Written(row: Lockout.Account, seen: Lockout.Account, failed: nat, lockedUntil: Option<Instant>)
    : Lockout.Account
  {
    row.(failed := Assigned(row.failed, seen.failed, failed),
         lockedUntil := Assigned(row.lockedUntil, seen.lockedUntil, lockedUntil))
  }

  function Left(d: Desk, login: nat): Desk {
    d.(open := d.open - {login}, behind := d.behind - {login})
  }

  function Next(d: Desk, e: Event): Desk {
    match e
    case Look(login, checked) =>
      if login in d.open || Lockout.IsLocked(d.row.lockedUntil, checked) then d
      else d.(open := d.open[login := Reading(d.row, checked)], behind := d.behind - {login})
    case Miss(login, recorded) =>
      if login !in d.open then d
      else
        var seen := d.open[login].seen;
        Desk(Written(d.row, seen, seen.failed + 1, Lockout.LockoutUntil(seen.failed + 1, recorded)),
             d.open - {login}, d.open.Keys - {login})
    case Pass(login) =>
      if login !in d.open then d
      else if !d.open[login].seen.active then Left(d, login)
      else Left(d, login).(row := Written(d.row, d.open[login].seen, 0, None))
    case Deactivate => d.(row := d.row.(active := false))
  }

  function Opened(row: Lockout.Account): Desk {
    Desk(row, map[], {})
  }

  function After(d: Desk, events: seq<Event>): Desk {
    if events == [] then d else Next(After(d, events[..|events| - 1]), events[|events| - 1])
  }

  /** A wrong password is recorded. */
  predicate Records(d: Desk, e: Event) {
    e.Miss? && e.login in d.open
  }

  function Count(d: Desk, events: seq<Event>): nat {
    if events == [] then 0
    else
      var n := |events| - 1;
      Count(d, events[..n]) + if Records(After(d, events[..n]), events[n]) then 1 else 0
  }

  predicate Grants(d: Desk, e: Event) {
    e.Pass? && e.login in d.open && d.open[e.login].seen.active
  }

  /** No login of the run succeeds. */
  predicate NoSuccess(d: Desk, events: seq<Event>) {
    events == [] ||
      var n := |events| - 1;
      NoSuccess(d, events[..n]) && !Grants(After(d, events[..n]), events[n])
  }

  /** No failure is recorded between a login's reading and the recording of its own failure. */
  predicate InTurn(d: Desk, events: seq<Event>) {
    events == [] ||
      var n := |events| - 1;
      var before := After(d, events[..n]);
      InTurn(d, events[..n]) && (Records(before, events[n]) ==> events[n].login !in before.behind)
  }

  /** The clock does not run backwards, and the run is over by `now`. */
  predicate OverBy(events: seq<Event>, now: Instant) {
    events == [] ||
      var n := |events| - 1;
      match events[n]
      case Look(_, checked) => checked <= now && OverBy(events[..n], checked)
      case Miss(_, recorded) => recorded <= now && OverBy(events[..n], recorded)
      case _ => OverBy(events[..n], now)
  }

  // ---------------------------------------------------------------- counting

  /** With `c` failures counted from the start: the row never shows more, a copy that is
      behind shows fewer, and any other copy shows what the row does. */
  ghost predicate Counted(d: Desk, c: nat) {
    && d.row.failed <= c && d.behind <= d.open.Keys
    && forall login :: login in d.open ==>
         if login in d.behind then d.open[login].seen.failed < c
         else d.open[login].seen.failed == d.row.failed && d.open[login].seen.lockedUntil == d.row.lockedUntil
  }

  lemma StepCounts(d: Desk, c: nat, e: Event)
    requires Counted(d, c) && !Grants(d, e)
    ensures Counted(Next(d, e), if Records(d, e) then c + 1 else c)
  {
  }

  lemma {:induction false} RunCounts(a: Lockout.Account, events: seq<Event>)
    requires NoSuccess(Opened(a), events)
    ensures var d, c := After(Opened(a), events), a.failed + Count(Opened(a), events);
            Counted(d, c) && (d.row.failed == c <==> InTurn(Opened(a), events))
    decreases |events|
  {
    if events != [] {
      var n := |events| - 1;
      RunCounts(a, events[..n]);
      StepCounts(After(Opened(a), events[..n]), a.failed + Count(Opened(a), events[..n]), events[n]);
    }
  }

  /** The counter never counts too many, and it counts every wrong password of a run without
      success if and only if the failing logins take turns. */
  lemma CounterCountsExactlyWhen(a: Lockout.Account, events: seq<Event>)
    requires NoSuccess(Opened(a), events)
    ensures After(Opened(a), events).row.failed <= a.failed + Count(Opened(a), events)
    ensures After(Opened(a), events).row.failed == a.failed + Count(Opened(a), events) <==> InTurn(Opened(a), events)
  {
    RunCounts(a, events);
  }

  // ---------------------------------------------------------------- success

  predicate IsOf(e: Event, login: nat) {
    !e.Deactivate? && e.login == login
  }

  lemma {:induction false} ReadingStays(d: Desk, others: seq<Event>, login: nat)
    requires login in d.open && forall i :: 0 <= i < |others| ==> !IsOf(others[i], login)
    ensures login in After(d, others).open && After(d, others).open[login] == d.open[login]
    decreases |others|
  {
    if others != [] {
      ReadingStays(d, others[..|others| - 1], login);
    }
  }

  /** A success clears the counter, with anything in between its reading and its writing, if and
      only if the counter was not zero when it was read, or is zero when it is written; and the
      lock likewise, be it over or not. */
  lemma SuccessClearsExactlyWhen(d: Desk, others: seq<Event>, login: nat)
    requires login in d.open && d.open[login].seen.active
    requires forall i :: 0 <= i < |others| ==> !IsOf(others[i], login)
    ensures var seen, before := d.open[login].seen, After(d, others).row;
            var after := Next(After(d, others), Pass(login)).row;
            && Grants(After(d, others), Pass(login))
            && (after.failed == 0 <==> seen.failed != 0 || before.failed == 0)
            && (after.lockedUntil == None <==> seen.lockedUntil != None || before.lockedUntil == None)
            && after.active == before.active
  {
    ReadingStays(d, others, login);
  }

  // ---------------------------------------------------------------- taking turns

  /** The same run with every login as one step, taken when its failure is recorded. */
  function Serial(d: Desk, events: seq<Event>): seq<Lockout.Event> {
    if events == [] then []
    else
      var n := |events| - 1;
      var e, before := events[n], After(d, events[..n]);
      Serial(d, events[..n]) +
      if Records(before, e) then [Lockout.Login(false, before.open[e.login].checked, e.recorded)]
      else if e.Deactivate? then [Lockout.Deactivate]
      else []
  }

  /** Every login in flight that is not behind could take its one step now. */
  ghost predicate CanStep(d: Desk, serial: seq<Lockout.Event>, now: Instant) {
    && Lockout.OverBy(serial, now)
    && forall login :: login in d.open && login !in d.behind ==>
         && !Lockout.IsLocked(d.row.lockedUntil, d.open[login].checked)
         && d.open[login].checked <= now && Lockout.OverBy(serial, d.open[login].checked)
  }

  lemma OneMore(a: Lockout.Account, serial: seq<Lockout.Event>, e: Lockout.Event)
    ensures Lockout.After(a, serial + [e]) == Lockout.Next(Lockout.After(a, serial), e)
    ensures Lockout.WrongCount(a, serial + [e])
         == Lockout.WrongCount(a, serial) + if Lockout.Wrong(Lockout.After(a, serial), e) then 1 else 0
    ensures Lockout.NoSuccess(a, serial) && (e.Login? ==> !e.correct) ==> Lockout.NoSuccess(a, serial + [e])
    ensures forall now :: Lockout.OverBy(serial + [e], now) <==>
                            if e.Login? then e.checked <= e.recorded <= now && Lockout.OverBy(serial, e.checked)
                            else Lockout.OverBy(serial, now)
  {
    assert (serial + [e])[..|serial|] == serial;
  }

  lemma {:induction false} OverLater(serial: seq<Lockout.Event>, now: Instant, later: Instant)
    requires Lockout.OverBy(serial, now) && now <= later
    ensures Lockout.OverBy(serial, later)
    decreases |serial|
  {
    if serial != [] && serial[|serial| - 1].Deactivate? {
      OverLater(serial[..|serial| - 1], now, later);
    }
  }

  /** A run whose failing logins take turns is a run of Lockout: same row, same number of wrong
      passwords, same clock. So Lockout's laws of counting and spacing hold of it. */
  lemma {:induction false} TurnsAreSteps(a: Lockout.Account, events: seq<Event>, now: Instant)
    requires NoSuccess(Opened(a), events) && InTurn(Opened(a), events) && OverBy(events, now)
    ensures var serial := Serial(Opened(a), events);
            && Lockout.NoSuccess(a, serial)
            && Lockout.After(a, serial) == After(Opened(a), events).row
            && Lockout.WrongCount(a, serial) == Count(Opened(a), events)
            && CanStep(After(Opened(a), events), serial, now)
    decreases |events|
  {
    if events != [] {
      var n := |events| - 1;
      var e := events[n];
      var front := events[..n];
      var d, serial := After(Opened(a), front), Serial(Opened(a), front);
      var before := if e.Look? then e.checked else if e.Miss? then e.recorded else now;
      TurnsAreSteps(a, front, before);
      RunCounts(a, front);
      OverLater(serial, before, now);
      if Records(d, e) {
        OneMore(a, serial, Lockout.Login(false, d.open[e.login].checked, e.recorded));
      } else if e.Deactivate? {
        OneMore(a, serial, Lockout.Deactivate);
      } else {
        assert serial + [] == serial;
      }
    }
  }
}

/** A month of an account: spends, settlements, new grants and changing ceilings in
    any order, and the object that performs them. */
module Settlement {
  import opened Prelude
  import opened Billing

  datatype Account = Account(grants: seq<Grant>, settled: Option<real>, spent: real)

  /** `ids` is the order in which the database lists the active grants. */
  datatype Event =
    | Spend(costUsd: real)
    | Settle(ceilingUsd: real, now: Instant, ids: seq<GrantId>)
    | NewGrant(ceilingUsd: real, createdAt: Instant, expiresAt: Instant)

  function SettledUsd(acc: Account): real {
    if acc.settled.Some? then acc.settled.value else 0.0
  }

  function Overflow(acc: Account, ceilingUsd: real): real {
    MaxReal(0.0, acc.spent - ceilingUsd)
  }

  ghost predicate Enabled(acc: Account, ev: Event) {
    ev.Settle? ==> ActiveOrder(acc.grants, ev.ids, ev.now)
  }

  ghost function SettleOnce(acc: Account, ceilingUsd: real, ids: seq<GrantId>): Account
    requires InTable(acc.grants, ids)
  {
    var pending := Overflow(acc, ceilingUsd) - SettledUsd(acc);
    if pending <= 0.0 then acc.(settled := Some(SettledUsd(acc)))
    else acc.(grants := Drain(acc.grants, ids, pending), settled := Some(Overflow(acc, ceilingUsd)))
  }

  ghost function Next(acc: Account, ev: Event): Account
    requires Enabled(acc, ev)
  {
    match ev
    case Spend(cost) => acc.(spent := acc.spent + cost)
    case Settle(ceiling, _, ids) => SettleOnce(acc, ceiling, ids)
    case NewGrant(ceiling, created, expires) => acc.(grants := acc.grants + [Grant(ceiling, ceiling, created, expires)])
  }

  ghost predicate Legal(acc: Account, run: seq<Event>)
    decreases |run|
  {
    run == [] || (Enabled(acc, run[0]) && Legal(Next(acc, run[0]), run[1..]))
  }

  ghost function Exec(acc: Account, run: seq<Event>): Account
    requires Legal(acc, run)
    decreases |run|
  {
    if run == [] then acc else Exec(Next(acc, run[0]), run[1..])
  }

  /** What has been taken from the grants since they were bought. */
  ghost function Debited(acc: Account): real {
    Ceilings(acc.grants) - Remaining(acc.grants)
  }

  // ---------------------------------------------------------------- one step

  lemma ListedHaveCredit(grants: seq<Grant>, ids: seq<GrantId>, now: Instant)
    requires ActiveOrder(grants, ids, now)
    ensures Nonnegative(grants, ids)
  {
    forall p | 0 <= p < |ids|
      ensures grants[ids[p]].remainingUsd >= 0.0
    {
      assert ids[p] in ids;
    }
  }

  lemma SettleStep(acc: Account, ceilingUsd: real, now: Instant, ids: seq<GrantId>)
    requires ActiveOrder(acc.grants, ids, now)
    ensures var next := SettleOnce(acc, ceilingUsd, ids);
            var pending := MaxReal(0.0, Overflow(acc, ceilingUsd) - SettledUsd(acc));
            && next.settled == Some(MaxReal(SettledUsd(acc), Overflow(acc, ceilingUsd)))
            && Debited(next) == Debited(acc) + MinReal(pending, UnexpiredCredit(acc.grants, now))
            && Remaining(next.grants) == Remaining(acc.grants) - MinReal(pending, UnexpiredCredit(acc.grants, now))
            && UnexpiredCredit(acc.grants, now) >= 0.0
  {
    ActiveCreditIsUnexpired(acc.grants, ids, now);
    ListedHaveCredit(acc.grants, ids, now);
    CreditIsNonnegative(acc.grants, ids);
    var pending := Overflow(acc, ceilingUsd) - SettledUsd(acc);
    if pending > 0.0 {
      DrainTakesExactly(acc.grants, ids, pending);
    }
  }

  lemma GrantStep(acc: Account, g: Grant)
    ensures Remaining(acc.grants + [g]) == Remaining(acc.grants) + g.remainingUsd
    ensures Ceilings(acc.grants + [g]) == Ceilings(acc.grants) + g.ceilingUsd
  {
    assert (acc.grants + [g])[..|acc.grants|] == acc.grants;
  }

  /** Grants that expire earlier are used first, and of those that expire together, the older. */
  predicate ExpiresBefore(a: Grant, b: Grant) {
    a.expiresAt < b.expiresAt || (a.expiresAt == b.expiresAt && a.createdAt < b.createdAt)
  }

  /** Exactness and order of one settlement: it takes the smaller of what is pending
      and the unexpired credit, touches no grant before those expiring earlier are
      empty, and touches no expired grant at all. */
  lemma OneSettlement(acc: Account, ceilingUsd: real, now: Instant, ids: seq<GrantId>, i: GrantId, k: GrantId)
    requires ActiveOrder(acc.grants, ids, now) && i < |acc.grants| && k < |acc.grants|
    ensures var next := SettleOnce(acc, ceilingUsd, ids);
            && |next.grants| == |acc.grants|
            && Debited(next) - Debited(acc)
                 == MinReal(MaxReal(0.0, Overflow(acc, ceilingUsd) - SettledUsd(acc)), UnexpiredCredit(acc.grants, now))
            && (next.grants[i] != acc.grants[i] ==>
                  acc.grants[i].expiresAt > now && next.grants[i].remainingUsd < acc.grants[i].remainingUsd)
            && (next.grants[i] == acc.grants[i] || next.grants[k].remainingUsd <= 0.0
                || acc.grants[k].expiresAt <= now || !ExpiresBefore(acc.grants[k], acc.grants[i]))
  {
    SettleStep(acc, ceilingUsd, now, ids);
    var pending := Overflow(acc, ceilingUsd) - SettledUsd(acc);
    if pending > 0.0 {
      DrainFrame(acc.grants, ids, pending, i);
      DrainFrame(acc.grants, ids, pending, k);
      ListedHaveCredit(acc.grants, ids, now);
      if i in ids && Active(acc.grants[k], now) && !NotAfter(acc.grants[i], acc.grants[k]) {
        assert k in ids;
        var q :| 0 <= q < |ids| && ids[q] == i;
        var p :| 0 <= p < |ids| && ids[p] == k;
        assert p != q;
        assert !(q < p);
        DrainsInOrder(acc.grants, ids, pending, p, q);
      }
    }
  }

  // ---------------------------------------------------------------- never overcharged

  /** The largest overflow any settlement of the run saw, or nothing. */
  ghost function Peak(acc: Account, run: seq<Event>): real
    requires Legal(acc, run)
    decreases |run|
  {
    if run == [] then 0.0
    else
      MaxReal(if run[0].Settle? then Overflow(acc, run[0].ceilingUsd) else 0.0,
              Peak(Next(acc, run[0]), run[1..]))
  }

  /** Never overcharged, from any moment of the month on: the settled amount is the
      running maximum of the overflows seen, and everything debited since that
      moment fits into what was settled since. In particular an overflow forgiven
      for want of credit is never charged to a grant bought later. */
  lemma {:induction false} DebitsFitTheSettledOverflow(acc: Account, run: seq<Event>)
    requires Legal(acc, run) && SettledUsd(acc) >= 0.0
    ensures SettledUsd(Exec(acc, run)) == MaxReal(SettledUsd(acc), Peak(acc, run))
    ensures 0.0 <= Debited(Exec(acc, run)) - Debited(acc) <= SettledUsd(Exec(acc, run)) - SettledUsd(acc)
    decreases |run|
  {
    if run != [] {
      var ev := run[0];
      match ev {
        case Spend(_) =>
        case Settle(ceiling, now, ids) => SettleStep(acc, ceiling, now, ids);
        case NewGrant(ceiling, created, expires) => GrantStep(acc, Grant(ceiling, ceiling, created, expires));
      }
      DebitsFitTheSettledOverflow(Next(acc, ev), run[1..]);
    }
  }

  /** As long as no settlement sees a larger overflow than the one already settled,
      nothing is debited, whatever credit is bought in between. */
  lemma ForgivenOverflowIsNeverCharged(acc: Account, run: seq<Event>)
    requires Legal(acc, run) && SettledUsd(acc) >= 0.0 && Peak(acc, run) <= SettledUsd(acc)
    ensures Debited(Exec(acc, run)) == Debited(acc)
  {
    DebitsFitTheSettledOverflow(acc, run);
  }

  ghost predicate SaneEvent(ev: Event) {
    (ev.NewGrant? ==> ev.ceilingUsd >= 0.0) && (ev.Spend? ==> ev.costUsd >= 0.0)
  }

  lemma {:induction false} GrantsStayWithinCeilings(acc: Account, run: seq<Event>)
    requires Legal(acc, run) && WithinCeilings(acc.grants)
    requires forall ev :: ev in run ==> SaneEvent(ev)
    ensures WithinCeilings(Exec(acc, run).grants)
    decreases |run|
  {
    if run != [] {
      var ev := run[0];
      assert SaneEvent(ev);
      if ev.Settle? {
        forall i | 0 <= i < |acc.grants|
          ensures 0.0 <= Next(acc, ev).grants[i].remainingUsd <= Next(acc, ev).grants[i].ceilingUsd
        {
          SettleWithin(acc, ev.ceilingUsd, ev.ids, i);
        }
      }
      GrantsStayWithinCeilings(Next(acc, ev), run[1..]);
    }
  }

  lemma SettleWithin(acc: Account, ceilingUsd: real, ids: seq<GrantId>, i: GrantId)
    requires InTable(acc.grants, ids) && Distinct(ids) && WithinCeilings(acc.grants) && i < |acc.grants|
    ensures var g := SettleOnce(acc, ceilingUsd, ids).grants[i]; 0.0 <= g.remainingUsd <= g.ceilingUsd
  {
    var pending := Overflow(acc, ceilingUsd) - SettledUsd(acc);
    if pending > 0.0 {
      DrainFrame(acc.grants, ids, pending, i);
    }
  }

  // ---------------------------------------------------------------- the balance

  /** What the spends of a run cost. */
  function Costs(run: seq<Event>): real {
    if run == [] then 0.0 else (if run[0].Spend? then run[0].costUsd else 0.0) + Costs(run[1..])
  }

  /** Every cost is counted once, and nothing else is: neither settling nor buying credit
      changes what was spent. */
  lemma {:induction false} SpentIsTheCosts(acc: Account, run: seq<Event>)
    requires Legal(acc, run)
    ensures Exec(acc, run).spent == acc.spent + Costs(run)
    decreases |run|
  {
    if run != [] {
      SpentIsTheCosts(Next(acc, run[0]), run[1..]);
    }
  }

  function PlanRemaining(acc: Account, ceilingUsd: real): real {
    MaxReal(0.0, ceilingUsd - acc.spent)
  }

  /** Balance.available_usd, once settled. */
  function AvailableUsd(acc: Account, ceilingUsd: real, now: Instant): real {
    PlanRemaining(acc, ceilingUsd) + UnexpiredCredit(acc.grants, now)
  }

  /** Spends and settlements only, under one ceiling and with no grant expiring. */
  ghost predicate Steady(acc: Account, run: seq<Event>, ceilingUsd: real) {
    forall ev :: ev in run ==>
      && SaneEvent(ev) && !ev.NewGrant?
      && (ev.Settle? ==> ev.ceilingUsd == ceilingUsd && Unexpired(acc.grants, ev.now))
  }

  ghost predicate Unexpired(grants: seq<Grant>, now: Instant) {
    forall i :: 0 <= i < |grants| ==> grants[i].expiresAt > now
  }

  lemma {:induction false} AllUnexpired(grants: seq<Grant>, now: Instant)
    requires Unexpired(grants, now) && WithinCeilings(grants)
    ensures UnexpiredCredit(grants, now) == Remaining(grants) >= 0.0
  {
    if grants != [] {
      AllUnexpired(grants[..|grants| - 1], now);
    }
  }

  lemma SettleKeepsDates(acc: Account, ceilingUsd: real, ids: seq<GrantId>, i: GrantId)
    requires InTable(acc.grants, ids) && i < |acc.grants|
    ensures |SettleOnce(acc, ceilingUsd, ids).grants| == |acc.grants|
    ensures SettleOnce(acc, ceilingUsd, ids).grants[i].expiresAt == acc.grants[i].expiresAt
  {
    var pending := Overflow(acc, ceilingUsd) - SettledUsd(acc);
    if pending > 0.0 {
      DrainFrame(acc.grants, ids, pending, i);
    }
  }

  lemma {:induction false} SteadyRun(acc: Account, run: seq<Event>, ceilingUsd: real, total: real)
    requires Legal(acc, run) && Steady(acc, run, ceilingUsd) && WithinCeilings(acc.grants)
    requires total >= 0.0 && SettledUsd(acc) >= 0.0
    requires Remaining(acc.grants) == MaxReal(0.0, total - SettledUsd(acc))
    requires SettledUsd(acc) <= Overflow(acc, ceilingUsd)
    ensures var end := Exec(acc, run);
            && Remaining(end.grants) == MaxReal(0.0, total - SettledUsd(end))
            && SettledUsd(end) <= Overflow(end, ceilingUsd)
            && (run != [] && run[|run| - 1].Settle? ==> SettledUsd(end) == Overflow(end, ceilingUsd))
            && WithinCeilings(end.grants)
            && |end.grants| == |acc.grants|
            && (forall i :: 0 <= i < |acc.grants| ==> end.grants[i].expiresAt == acc.grants[i].expiresAt)
    decreases |run|
  {
    if run != [] {
      var ev := run[0];
      assert ev in run;
      var next := Next(acc, ev);
      if ev.Settle? {
        SettleStep(acc, ceilingUsd, ev.now, ev.ids);
        AllUnexpired(acc.grants, ev.now);
        forall i | 0 <= i < |acc.grants|
          ensures |next.grants| == |acc.grants| && next.grants[i].expiresAt == acc.grants[i].expiresAt
          ensures 0.0 <= next.grants[i].remainingUsd <= next.grants[i].ceilingUsd
        {
          SettleKeepsDates(acc, ceilingUsd, ev.ids, i);
          SettleWithin(acc, ceilingUsd, ev.ids, i);
        }
      }
      SteadyRest(acc, run, ceilingUsd);
      SteadyRun(next, run[1..], ceilingUsd, total);
    }
  }

  lemma SteadyRest(acc: Account, run: seq<Event>, ceilingUsd: real)
    requires run != [] && Legal(acc, run) && Steady(acc, run, ceilingUsd)
    ensures Steady(Next(acc, run[0]), run[1..], ceilingUsd)
  {
    var ev := run[0];
    assert ev in run;
    var next := Next(acc, ev);
    forall i | 0 <= i < |acc.grants|
      ensures |next.grants| == |acc.grants| && next.grants[i].expiresAt == acc.grants[i].expiresAt
    {
      if ev.Settle? {
        SettleKeepsDates(acc, ev.ceilingUsd, ev.ids, i);
      }
    }
    if ev.Settle? && Overflow(acc, ev.ceilingUsd) - SettledUsd(acc) <= 0.0 {
      assert next.grants == acc.grants;
    }
    assert |next.grants| == |acc.grants|;
    forall e | e in run[1..]
      ensures SaneEvent(e) && !e.NewGrant?
      ensures e.Settle? ==> e.ceilingUsd == ceilingUsd && Unexpired(next.grants, e.now)
    {
      assert e in run;
    }
  }

  /** However often the account is settled between its spends, the balance after the
      last settlement is the one a single settlement would show: plan ceiling plus
      credit minus all that was spent, before the run and in it, never below zero. */
  lemma AvailableAfterAnyInterleaving(acc: Account, run: seq<Event>, ceilingUsd: real, now: Instant)
    requires Legal(acc, run) && Steady(acc, run, ceilingUsd) && WithinCeilings(acc.grants)
    requires acc.settled.None? && run != [] && run[|run| - 1].Settle?
    requires Unexpired(acc.grants, now)
    ensures var end := Exec(acc, run);
            AvailableUsd(end, ceilingUsd, now)
              == MaxReal(0.0, ceilingUsd + Remaining(acc.grants) - (acc.spent + Costs(run)))
  {
    SpentIsTheCosts(acc, run);
    RemainingIsNonnegative(acc.grants);
    SteadyRun(acc, run, ceilingUsd, Remaining(acc.grants));
    SettledBalance(Exec(acc, run), Remaining(acc.grants), ceilingUsd, now);
  }

  lemma SettledBalance(end: Account, total: real, ceilingUsd: real, now: Instant)
    requires Unexpired(end.grants, now) && WithinCeilings(end.grants) && total >= 0.0
    requires Remaining(end.grants) == MaxReal(0.0, total - SettledUsd(end))
    requires SettledUsd(end) == Overflow(end, ceilingUsd)
    ensures AvailableUsd(end, ceilingUsd, now) == MaxReal(0.0, ceilingUsd + total - end.spent)
  {
    AllUnexpired(end.grants, now);
    PlanAndCreditTogether(ceilingUsd, end.spent, total);
  }

  /** Overflow eats credit, and what is left of the plan and of the credit add up. */
  lemma PlanAndCreditTogether(ceilingUsd: real, spent: real, total: real)
    requires total >= 0.0
    ensures MaxReal(0.0, ceilingUsd - spent) + MaxReal(0.0, total - MaxReal(0.0, spent - ceilingUsd))
         == MaxReal(0.0, ceilingUsd + total - spent)
  {
  }

  lemma {:induction false} RemainingIsNonnegative(grants: seq<Grant>)
    requires WithinCeilings(grants)
    ensures Remaining(grants) >= 0.0
  {
    if grants != [] {
      RemainingIsNonnegative(grants[..|grants| - 1]);
    }
  }
}

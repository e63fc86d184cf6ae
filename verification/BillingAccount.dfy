/** The rows of one user and the functions of billing.py that change them. */
module BillingAccount {
  import opened Prelude
  import opened Billing
  import opened Settlement
  import opened AllMonths
  import Calendar

  class UserRows {
    var grants: seq<Grant>
    var settlements: map<Period, real>
    var usage: map<Period, real>

    ghost function All(): Rows
      reads this
    {
      Rows(grants, settlements, usage)
    }

    ghost function Month(period: Period): Account
      reads this
    {
      MonthOf(All(), period)
    }

    function SpentIn(period: Period): real
      reads this
    {
      if period in usage then usage[period] else 0.0
    }

    constructor ()
      ensures grants == [] && settlements == map[] && usage == map[]
    {
      grants, settlements, usage := [], map[], map[];
    }

    method RecordUsage(period: Period, costUsd: real)
      modifies this`usage
      ensures All() == After(old(All()), Entry(period, Spend(costUsd)))
      ensures SpentIn(period) == old(SpentIn(period)) + costUsd
      ensures forall other :: other != period ==> Month(other) == old(Month(other))
    {
      usage := usage[period := SpentIn(period) + costUsd];
    }

    /** The query behind every settlement: rows with credit, ordered, then those
        already expired left out. */
    method ActiveGrants(now: Instant) returns (ids: seq<GrantId>)
      ensures ActiveOrder(grants, ids, now)
    {
      var left := set i: GrantId | i < |grants| && Active(grants[i], now);
      ghost var all := left;
      ids := [];
      while left != {}
        invariant left <= all && InTable(grants, ids) && Distinct(ids) && Sorted(grants, ids)
        invariant forall i: GrantId :: i in all <==> i in left || i in ids
        invariant forall p :: 0 <= p < |ids| ==> ids[p] !in left
        invariant forall p, i: GrantId :: 0 <= p < |ids| && i in left ==> NotAfter(grants[ids[p]], grants[i])
        decreases |left|
      {
        EarliestExists(grants, left);
        var i :| i in left && forall k :: k in left ==> NotAfter(grants[i], grants[k]);
        ids := ids + [i];
        left := left - {i};
      }
    }

    /** Every pending dollar is taken from the earliest grant that still has one. */
    method TakePending(ids: seq<GrantId>, owed: real)
      requires InTable(grants, ids)
      modifies this`grants
      ensures grants == Drain(old(grants), ids, owed)
    {
      ghost var start := grants;
      var pending, p := owed, 0;
      while p < |ids|
        invariant p <= |ids| && InTable(grants, ids)
        invariant Drain(grants, ids[p..], pending) == Drain(start, ids, owed)
      {
        if pending <= 0.0 {
          break;
        }
        var i := ids[p];
        var taken := MinReal(grants[i].remainingUsd, pending);
        grants := grants[i := grants[i].(remainingUsd := grants[i].remainingUsd - taken)];
        pending := pending - taken;
        assert ids[p..][1..] == ids[p + 1..];
        p := p + 1;
      }
    }

    /** settle_overflow: the settlement row is created on first use, and what the overflow
        has grown by since is taken from the grants. */
    method SettleOverflow(planCeilingUsd: real, period: Period, now: Instant) returns (ghost order: seq<GrantId>)
      modifies this`grants, this`settlements
      ensures ActiveOrder(old(grants), order, now)
      ensures Month(period) == SettleOnce(old(Month(period)), planCeilingUsd, order)
      ensures All() == After(old(All()), Entry(period, Settle(planCeilingUsd, now, order)))
    {
      var spent := SpentIn(period);
      var overflow := MaxReal(0.0, spent - planCeilingUsd);
      if period !in settlements {
        settlements := settlements[period := 0.0];
      }
      var pending := overflow - settlements[period];
      var ids := ActiveGrants(now);
      order := ids;
      if pending <= 0.0 {
        return;
      }
      TakePending(ids, pending);
      settlements := settlements[period := overflow];
    }

    /** balance_for: settle, then read what the plan and the grants still cover. */
    method BalanceFor(planCeilingUsd: real, period: Period, now: Instant)
      returns (planRemainingUsd: real, topupRemainingUsd: real, ghost order: seq<GrantId>)
      modifies this`grants, this`settlements
      ensures ActiveOrder(old(grants), order, now)
      ensures Month(period) == SettleOnce(old(Month(period)), planCeilingUsd, order)
      ensures All() == After(old(All()), Entry(period, Settle(planCeilingUsd, now, order)))
      ensures planRemainingUsd == PlanRemaining(Month(period), planCeilingUsd)
      ensures topupRemainingUsd == UnexpiredCredit(grants, now)
      ensures planRemainingUsd + topupRemainingUsd == AvailableUsd(Month(period), planCeilingUsd, now)
    {
      order := SettleOverflow(planCeilingUsd, period, now);
      planRemainingUsd := MaxReal(0.0, planCeilingUsd - SpentIn(period));
      var ids := ActiveGrants(now);
      topupRemainingUsd := 0.0;
      for p := 0 to |ids|
        invariant topupRemainingUsd + CreditOf(grants, ids[p..]) == CreditOf(grants, ids)
      {
        topupRemainingUsd := topupRemainingUsd + grants[ids[p]].remainingUsd;
        assert ids[p..][1..] == ids[p + 1..];
      }
      ActiveCreditIsUnexpired(grants, ids, now);
    }

    /** The dollar ceiling is fixed when the credit is bought, and so is the expiry: the
        validity counted in months from the moment of purchase. A zero rate is the
        source's ZeroDivisionError. */
    method GrantCredit(creditsBrl: real, costRatio: real, fxRate: real, now: Calendar.Moment, validityMonths: int,
                       period: Period)
      returns (r: Result<GrantId, string>)
      requires now.Valid()
      modifies this`grants
      ensures r.Err? <==> fxRate == 0.0
      ensures r.Err? ==> grants == old(grants)
      ensures r.Ok? ==> r.value == |old(grants)| && |grants| == r.value + 1
      ensures r.Ok? ==> grants[r.value].ceilingUsd == grants[r.value].remainingUsd
      ensures r.Ok? ==> grants[r.value].ceilingUsd * fxRate == creditsBrl * costRatio
      ensures r.Ok? ==> grants[r.value].expiresAt == Calendar.InstantOf(Calendar.MonthsLater(now, validityMonths))
      ensures r.Ok? ==>
                var g := grants[r.value];
                All() == After(old(All()), Entry(period, NewGrant(g.ceilingUsd, Calendar.InstantOf(now), g.expiresAt)))
    {
      if fxRate == 0.0 {
        return Err("ZeroDivisionError");
      }
      var ceiling := creditsBrl * costRatio / fxRate;
      assert ceiling * fxRate == creditsBrl * costRatio;
      var expiresAt := Calendar.InstantOf(Calendar.MonthsLater(now, validityMonths));
      grants := grants + [Grant(ceiling, ceiling, Calendar.InstantOf(now), expiresAt)];
      r := Ok(|grants| - 1);
    }
  }

  lemma {:induction false} EarliestExists(grants: seq<Grant>, ids: set<GrantId>)
    requires ids != {} && forall i :: i in ids ==> i < |grants|
    ensures exists i :: i in ids && forall k :: k in ids ==> NotAfter(grants[i], grants[k])
  {
    var x :| x in ids;
    var rest := ids - {x};
    if rest == {} {
      assert forall k :: k in ids ==> k in rest || k == x;
      assert x in ids && forall k :: k in ids ==> NotAfter(grants[x], grants[k]);
    } else {
      EarliestExists(grants, rest);
      var y :| y in rest && forall k :: k in rest ==> NotAfter(grants[y], grants[k]);
      var first := if NotAfter(grants[x], grants[y]) then x else y;
      assert forall k :: k in ids ==> k in rest || k == x;
      assert first in ids && forall k :: k in ids ==> NotAfter(grants[first], grants[k]);
    }
  }
}

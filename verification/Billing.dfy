/** Credit settlement of billing.py: spend beyond the plan is drained from credit
    grants, oldest expiry first, up to a high-water mark per month. Money is a
    real. */
module Billing {
  import opened Prelude

  datatype Grant = Grant(ceilingUsd: real, remainingUsd: real, createdAt: Instant, expiresAt: Instant)

  // Rows are identified by their position in the table.
  type GrantId = nat

  predicate Active(g: Grant, now: Instant) {
    g.remainingUsd > 0.0 && g.expiresAt > now
  }

  /** ORDER BY expires_at ASC, created_at ASC; ties are left to the database. */
  predicate NotAfter(a: Grant, b: Grant) {
    a.expiresAt < b.expiresAt || (a.expiresAt == b.expiresAt && a.createdAt <= b.createdAt)
  }

  ghost predicate Distinct(ids: seq<GrantId>) {
    forall p, q :: 0 <= p < q < |ids| ==> ids[p] != ids[q]
  }

  ghost predicate InTable(grants: seq<Grant>, ids: seq<GrantId>) {
    forall p :: 0 <= p < |ids| ==> ids[p] < |grants|
  }

  ghost predicate Sorted(grants: seq<Grant>, ids: seq<GrantId>)
    requires InTable(grants, ids)
  {
    forall p, q :: 0 <= p < q < |ids| ==> NotAfter(grants[ids[p]], grants[ids[q]])
  }

  /** An answer _active_grants may give: the active rows, each once, in order. */
  ghost predicate ActiveOrder(grants: seq<Grant>, ids: seq<GrantId>, now: Instant) {
    && Distinct(ids) && InTable(grants, ids)
    && (forall i: GrantId :: i in ids <==> i < |grants| && Active(grants[i], now))
    && Sorted(grants, ids)
  }

  // ---------------------------------------------------------------- draining

  function Take(grants: seq<Grant>, i: GrantId, amount: real): seq<Grant>
    requires i < |grants|
  {
    grants[i := grants[i].(remainingUsd := grants[i].remainingUsd - amount)]
  }

  ghost function Drain(grants: seq<Grant>, ids: seq<GrantId>, pending: real): (r: seq<Grant>)
    requires InTable(grants, ids)
    ensures |r| == |grants|
    decreases |ids|
  {
    if ids == [] || pending <= 0.0 then grants
    else
      var taken := MinReal(grants[ids[0]].remainingUsd, pending);
      Drain(Take(grants, ids[0], taken), ids[1..], pending - taken)
  }

  /** The credit of the listed grants. */
  ghost function CreditOf(grants: seq<Grant>, ids: seq<GrantId>): real
    requires InTable(grants, ids)
  {
    if ids == [] then 0.0 else grants[ids[0]].remainingUsd + CreditOf(grants, ids[1..])
  }

  function Remaining(grants: seq<Grant>): real {
    if grants == [] then 0.0 else Remaining(grants[..|grants| - 1]) + grants[|grants| - 1].remainingUsd
  }

  function Ceilings(grants: seq<Grant>): real {
    if grants == [] then 0.0 else Ceilings(grants[..|grants| - 1]) + grants[|grants| - 1].ceilingUsd
  }

  /** The total of the grants that have credit and have not expired. */
  function UnexpiredCredit(grants: seq<Grant>, now: Instant): real {
    if grants == [] then 0.0
    else
      var last := grants[|grants| - 1];
      UnexpiredCredit(grants[..|grants| - 1], now) + (if Active(last, now) then last.remainingUsd else 0.0)
  }

  /** The total of the grants that have expired. */
  function ExpiredCredit(grants: seq<Grant>, now: Instant): real {
    if grants == [] then 0.0
    else
      var last := grants[|grants| - 1];
      ExpiredCredit(grants[..|grants| - 1], now) + (if last.expiresAt <= now then last.remainingUsd else 0.0)
  }

  ghost predicate Nonnegative(grants: seq<Grant>, ids: seq<GrantId>)
    requires InTable(grants, ids)
  {
    forall p :: 0 <= p < |ids| ==> grants[ids[p]].remainingUsd >= 0.0
  }

  ghost predicate WithinCeilings(grants: seq<Grant>) {
    forall i :: 0 <= i < |grants| ==> 0.0 <= grants[i].remainingUsd <= grants[i].ceilingUsd
  }

  // ---------------------------------------------------------------- laws of draining

  lemma {:induction false} RemainingAfterTake(grants: seq<Grant>, i: GrantId, amount: real)
    requires i < |grants|
    ensures Remaining(Take(grants, i, amount)) == Remaining(grants) - amount
    ensures Ceilings(Take(grants, i, amount)) == Ceilings(grants)
    decreases |grants|
  {
    var n := |grants| - 1;
    var taken := Take(grants, i, amount);
    if i == n {
      assert taken[..n] == grants[..n];
    } else {
      RemainingAfterTake(grants[..n], i, amount);
      assert taken[..n] == Take(grants[..n], i, amount);
    }
  }

  lemma {:induction false} CreditElsewhere(a: seq<Grant>, b: seq<Grant>, ids: seq<GrantId>)
    requires InTable(a, ids) && InTable(b, ids)
    requires forall p :: 0 <= p < |ids| ==> a[ids[p]].remainingUsd == b[ids[p]].remainingUsd
    ensures CreditOf(a, ids) == CreditOf(b, ids)
  {
    if ids != [] {
      CreditElsewhere(a, b, ids[1..]);
    }
  }

  lemma {:induction false} CreditIsNonnegative(grants: seq<Grant>, ids: seq<GrantId>)
    requires InTable(grants, ids) && Nonnegative(grants, ids)
    ensures CreditOf(grants, ids) >= 0.0
  {
    if ids != [] {
      CreditIsNonnegative(grants, ids[1..]);
    }
  }

  /** What one drain leaves alone. */
  lemma {:induction false} DrainFrame(grants: seq<Grant>, ids: seq<GrantId>, pending: real, i: GrantId)
    requires InTable(grants, ids) && i < |grants|
    ensures Drain(grants, ids, pending)[i] == grants[i].(remainingUsd := Drain(grants, ids, pending)[i].remainingUsd)
    ensures i !in ids ==> Drain(grants, ids, pending)[i] == grants[i]
    ensures Distinct(ids) && Nonnegative(grants, ids) && i in ids ==>
              0.0 <= Drain(grants, ids, pending)[i].remainingUsd <= grants[i].remainingUsd
    decreases |ids|
  {
    if ids != [] && pending > 0.0 {
      var taken := MinReal(grants[ids[0]].remainingUsd, pending);
      var next := Take(grants, ids[0], taken);
      DrainFrame(next, ids[1..], pending - taken, i);
      if Distinct(ids) && Nonnegative(grants, ids) {
        assert ids[0] !in ids[1..];
        assert Distinct(ids[1..]) && Nonnegative(next, ids[1..]);
      }
    }
  }

  /** Exactness: a drain takes the smaller of what is pending and what the listed
      grants hold, no more and no less. */
  lemma {:induction false} DrainTakesExactly(grants: seq<Grant>, ids: seq<GrantId>, pending: real)
    requires InTable(grants, ids) && Distinct(ids) && Nonnegative(grants, ids) && pending >= 0.0
    ensures Remaining(Drain(grants, ids, pending)) == Remaining(grants) - MinReal(pending, CreditOf(grants, ids))
    ensures Ceilings(Drain(grants, ids, pending)) == Ceilings(grants)
    decreases |ids|
  {
    if ids != [] {
      CreditIsNonnegative(grants, ids);
    }
    if ids != [] && pending > 0.0 {
      var taken := MinReal(grants[ids[0]].remainingUsd, pending);
      var next := Take(grants, ids[0], taken);
      assert ids[0] !in ids[1..];
      assert Distinct(ids[1..]) && Nonnegative(next, ids[1..]);
      DrainTakesExactly(next, ids[1..], pending - taken);
      RemainingAfterTake(grants, ids[0], taken);
      CreditElsewhere(grants, next, ids[1..]);
      CreditIsNonnegative(grants, ids[1..]);
    }
  }

  /** Order: a grant is touched only if every grant listed before it has been
      drained to zero. */
  lemma {:induction false} DrainsInOrder(grants: seq<Grant>, ids: seq<GrantId>, pending: real, p: nat, q: nat)
    requires InTable(grants, ids) && Distinct(ids) && Nonnegative(grants, ids)
    requires p < q < |ids|
    ensures Drain(grants, ids, pending)[ids[q]].remainingUsd != grants[ids[q]].remainingUsd
            ==> Drain(grants, ids, pending)[ids[p]].remainingUsd == 0.0
    decreases |ids|
  {
    if pending > 0.0 {
      var taken := MinReal(grants[ids[0]].remainingUsd, pending);
      var next := Take(grants, ids[0], taken);
      assert ids[0] !in ids[1..];
      assert Distinct(ids[1..]) && Nonnegative(next, ids[1..]);
      if p == 0 {
        DrainFrame(next, ids[1..], pending - taken, ids[0]);
        assert ids[q] == ids[1..][q - 1];
      } else {
        DrainsInOrder(next, ids[1..], pending - taken, p - 1, q - 1);
        assert ids[q] == ids[1..][q - 1];
      }
    }
  }

  /** The grants still holding credit, in the same order. */
  function StillFunded(grants: seq<Grant>, ids: seq<GrantId>): seq<GrantId>
    requires forall p :: 0 <= p < |ids| ==> ids[p] < |grants|
  {
    if ids == [] then []
    else if grants[ids[0]].remainingUsd > 0.0 then [ids[0]] + StillFunded(grants, ids[1..])
    else StillFunded(grants, ids[1..])
  }

  lemma {:induction false} StillFundedMeans(grants: seq<Grant>, ids: seq<GrantId>)
    requires InTable(grants, ids)
    ensures forall i :: i in StillFunded(grants, ids) <==> i in ids && grants[i].remainingUsd > 0.0
    ensures Distinct(ids) ==> Distinct(StillFunded(grants, ids))
    ensures InTable(grants, StillFunded(grants, ids))
  {
    if ids != [] {
      StillFundedMeans(grants, ids[1..]);
      if Distinct(ids) {
        assert ids[0] !in ids[1..];
        assert Distinct(ids[1..]);
      }
    }
  }

  lemma TailsAreSound(grants: seq<Grant>, ids: seq<GrantId>, amount: real)
    requires InTable(grants, ids) && Distinct(ids) && Nonnegative(grants, ids) && ids != []
    ensures ids[0] !in ids[1..] && Distinct(ids[1..])
    ensures InTable(Take(grants, ids[0], amount), ids[1..]) && Nonnegative(Take(grants, ids[0], amount), ids[1..])
  {
  }

  /** Empty grants in the list change nothing. */
  lemma {:induction false} DrainSkipsEmpty(grants: seq<Grant>, ids: seq<GrantId>, pending: real)
    requires InTable(grants, ids) && Distinct(ids) && Nonnegative(grants, ids)
    ensures InTable(grants, StillFunded(grants, ids))
    ensures Drain(grants, ids, pending) == Drain(grants, StillFunded(grants, ids), pending)
    decreases |ids|
  {
    StillFundedMeans(grants, ids);
    if ids != [] && pending > 0.0 {
      var taken := MinReal(grants[ids[0]].remainingUsd, pending);
      var next := Take(grants, ids[0], taken);
      TailsAreSound(grants, ids, taken);
      DrainSkipsEmpty(next, ids[1..], pending - taken);
      SameFunding(grants, next, ids[1..]);
      if grants[ids[0]].remainingUsd > 0.0 {
        assert StillFunded(grants, ids)[1..] == StillFunded(grants, ids[1..]);
      } else {
        assert next == grants;
      }
    }
  }

  lemma {:induction false} SameFunding(a: seq<Grant>, b: seq<Grant>, ids: seq<GrantId>)
    requires InTable(a, ids) && InTable(b, ids)
    requires forall p :: 0 <= p < |ids| ==> a[ids[p]].remainingUsd == b[ids[p]].remainingUsd
    ensures StillFunded(a, ids) == StillFunded(b, ids)
  {
    if ids != [] {
      SameFunding(a, b, ids[1..]);
    }
  }

  /** Composition: draining a and then b along the same list is draining a + b. */
  lemma {:induction false} DrainComposes(grants: seq<Grant>, ids: seq<GrantId>, a: real, b: real)
    requires InTable(grants, ids) && Distinct(ids) && Nonnegative(grants, ids) && a >= 0.0 && b >= 0.0
    ensures InTable(Drain(grants, ids, a), ids)
    ensures Drain(Drain(grants, ids, a), ids, b) == Drain(grants, ids, a + b)
    decreases |ids|
  {
    if ids != [] && a > 0.0 {
      var i, rest := ids[0], ids[1..];
      var r := grants[i].remainingUsd;
      assert i !in rest;
      assert Distinct(rest);
      var taken := MinReal(r, a);
      var next := Take(grants, i, taken);
      var first := Drain(grants, ids, a);
      assert Nonnegative(next, rest);
      assert first == Drain(next, rest, a - taken);
      DrainFrame(next, rest, a - taken, i);
      if a >= r {
        DrainComposes(next, rest, a - taken, b);
        if b > 0.0 {
          assert Take(first, i, 0.0) == first;
        }
      } else {
        assert first == next;
        var more := MinReal(r - a, b);
        assert Take(next, i, more) == Take(grants, i, MinReal(r, a + b));
      }
    }
  }

  /** Settling often is settling once: when the second settlement reads the grants
      that still hold credit, in the same order, both together leave the grants
      one settlement of the sum would leave. */
  lemma SettlingTwiceIsSettlingOnce(grants: seq<Grant>, ids: seq<GrantId>, now: Instant, a: real, b: real)
    requires ActiveOrder(grants, ids, now) && a >= 0.0 && b >= 0.0
    ensures InTable(Drain(grants, ids, a), ids)
    ensures var first := Drain(grants, ids, a);
            var again := StillFunded(first, ids);
            && ActiveOrder(first, again, now)
            && Drain(first, again, b) == Drain(grants, ids, a + b)
  {
    DrainComposes(grants, ids, a, b);
    var first := Drain(grants, ids, a);
    forall i | i in ids
      ensures first[i].remainingUsd >= 0.0
    {
      DrainFrame(grants, ids, a, i);
    }
    DrainSkipsEmpty(first, ids, b);
    StillFundedMeans(first, ids);
    ReorderedActive(grants, ids, now, a);
  }

  lemma SortedCons(grants: seq<Grant>, i: GrantId, tail: seq<GrantId>)
    requires i < |grants| && InTable(grants, tail) && Sorted(grants, tail)
    requires forall q :: 0 <= q < |tail| ==> NotAfter(grants[i], grants[tail[q]])
    ensures InTable(grants, [i] + tail) && Sorted(grants, [i] + tail)
  {
  }

  lemma SortedHead(grants: seq<Grant>, ids: seq<GrantId>, i: GrantId)
    requires InTable(grants, ids) && Sorted(grants, ids) && ids != [] && i in ids[1..]
    ensures i < |grants| && NotAfter(grants[ids[0]], grants[i])
  {
    var q :| 0 <= q < |ids[1..]| && ids[1..][q] == i;
    assert ids[q + 1] == i;
  }

  lemma {:induction false} StillFundedSorted(grants: seq<Grant>, ids: seq<GrantId>)
    requires InTable(grants, ids) && Sorted(grants, ids)
    ensures InTable(grants, StillFunded(grants, ids)) && Sorted(grants, StillFunded(grants, ids))
  {
    if ids != [] {
      StillFundedSorted(grants, ids[1..]);
      StillFundedMeans(grants, ids[1..]);
      var tail := StillFunded(grants, ids[1..]);
      forall q | 0 <= q < |tail|
        ensures NotAfter(grants[ids[0]], grants[tail[q]])
      {
        assert tail[q] in tail;
        SortedHead(grants, ids, tail[q]);
      }
      SortedCons(grants, ids[0], tail);
    }
  }

  lemma ReorderedActive(grants: seq<Grant>, ids: seq<GrantId>, now: Instant, a: real)
    requires ActiveOrder(grants, ids, now)
    ensures InTable(Drain(grants, ids, a), ids)
    ensures ActiveOrder(Drain(grants, ids, a), StillFunded(Drain(grants, ids, a), ids), now)
  {
    var first := Drain(grants, ids, a);
    forall i | 0 <= i < |grants|
      ensures first[i].expiresAt == grants[i].expiresAt && first[i].createdAt == grants[i].createdAt
      ensures i !in ids ==> first[i] == grants[i]
    {
      DrainFrame(grants, ids, a, i);
    }
    StillFundedMeans(first, ids);
    StillFundedSorted(first, ids);
  }

  // ---------------------------------------------------------------- expiry

  /** Credit counts until it expires, to the last cent, and not after. */
  lemma {:induction false} CreditCountsUntilItExpires(grants: seq<Grant>, now: Instant)
    requires forall i :: 0 <= i < |grants| ==> grants[i].remainingUsd >= 0.0
    ensures UnexpiredCredit(grants, now) + ExpiredCredit(grants, now) == Remaining(grants)
  {
    if grants != [] {
      CreditCountsUntilItExpires(grants[..|grants| - 1], now);
    }
  }

  // ---------------------------------------------------------------- order does not matter for totals

  lemma {:induction false} TotalOfChosen(grants: seq<Grant>, ids: seq<GrantId>)
    requires InTable(grants, ids) && Distinct(ids)
    ensures CreditOf(grants, ids) == Chosen(grants, ids)
    decreases |ids|
  {
    if ids == [] {
      ChosenNone(grants);
    } else {
      assert ids[0] !in ids[1..];
      assert Distinct(ids[1..]);
      TotalOfChosen(grants, ids[1..]);
      ChosenOneMore(grants, ids);
    }
  }

  /** The same total read along the table instead of along the list. */
  function Chosen(grants: seq<Grant>, ids: seq<GrantId>): real {
    if grants == [] then 0.0
    else
      Chosen(grants[..|grants| - 1], ids) + (if |grants| - 1 in ids then grants[|grants| - 1].remainingUsd else 0.0)
  }

  lemma {:induction false} ChosenNone(grants: seq<Grant>)
    ensures Chosen(grants, []) == 0.0
  {
    if grants != [] {
      ChosenNone(grants[..|grants| - 1]);
    }
  }

  lemma {:induction false} ChosenOneMore(grants: seq<Grant>, ids: seq<GrantId>)
    requires ids != [] && ids[0] !in ids[1..]
    ensures Chosen(grants, ids)
         == Chosen(grants, ids[1..]) + (if ids[0] < |grants| then grants[ids[0]].remainingUsd else 0.0)
    decreases |grants|
  {
    if grants != [] {
      ChosenOneMore(grants[..|grants| - 1], ids);
      assert forall i :: i in ids <==> i == ids[0] || i in ids[1..];
    }
  }

  lemma {:induction false} ChosenIsUnexpired(grants: seq<Grant>, ids: seq<GrantId>, now: Instant)
    requires forall i: GrantId :: i < |grants| ==> (i in ids <==> Active(grants[i], now))
    ensures Chosen(grants, ids) == UnexpiredCredit(grants, now)
    decreases |grants|
  {
    if grants != [] {
      ChosenIsUnexpired(grants[..|grants| - 1], ids, now);
    }
  }

  /** Whatever order the database returns ties in, the credit listed is the
      unexpired credit of the account. */
  lemma ActiveCreditIsUnexpired(grants: seq<Grant>, ids: seq<GrantId>, now: Instant)
    requires ActiveOrder(grants, ids, now)
    ensures CreditOf(grants, ids) == UnexpiredCredit(grants, now)
  {
    TotalOfChosen(grants, ids);
    ChosenIsUnexpired(grants, ids, now);
  }
}

/** The rows of one user over many months: every month has its own mark of what was
    settled, and all months draw on the same grants. */
module AllMonths {
  import opened Prelude
  import opened Billing
  import opened Settlement

  // A calendar month.
  type Period = int

  datatype Rows = Rows(grants: seq<Grant>, marks: map<Period, real>, usage: map<Period, real>)

  function MonthOf(rows: Rows, period: Period): Account {
    Account(rows.grants, if period in rows.marks then Some(rows.marks[period]) else None,
            if period in rows.usage then rows.usage[period] else 0.0)
  }

  datatype Entry = Entry(period: Period, event: Event)

  ghost predicate Possible(rows: Rows, run: seq<Entry>)
    decreases |run|
  {
    run == [] ||
      (Enabled(MonthOf(rows, run[0].period), run[0].event) && Possible(After(rows, run[0]), run[1..]))
  }

  ghost function After(rows: Rows, entry: Entry): Rows
    requires Enabled(MonthOf(rows, entry.period), entry.event)
  {
    var month := Next(MonthOf(rows, entry.period), entry.event);
    Rows(month.grants,
         if month.settled.Some? then rows.marks[entry.period := month.settled.value] else rows.marks,
         if entry.event.Spend? then rows.usage[entry.period := month.spent] else rows.usage)
  }

  ghost function AtEnd(rows: Rows, run: seq<Entry>): Rows
    requires Possible(rows, run)
    decreases |run|
  {
    if run == [] then rows else AtEnd(After(rows, run[0]), run[1..])
  }

  // ---------------------------------------------------------------- the sum of all marks

  ghost function Total(marks: map<Period, real>): real
    decreases |marks|
  {
    if forall p :: p !in marks then 0.0
    else
      var p :| p in marks;
      marks[p] + Total(marks - {p})
  }

  lemma {:induction false} TotalWithout(marks: map<Period, real>, p: Period)
    requires p in marks
    ensures Total(marks) == marks[p] + Total(marks - {p})
    decreases |marks|
  {
    var q :| q in marks.Keys && Total(marks) == marks[q] + Total(marks - {q});
    if q != p {
      TotalWithout(marks - {q}, p);
      TotalWithout(marks - {p}, q);
      assert (marks - {q}) - {p} == (marks - {p}) - {q};
    }
  }

  lemma OneMark(marks: map<Period, real>, p: Period, value: real)
    ensures Total(marks[p := value]) == Total(marks) - (if p in marks then marks[p] else 0.0) + value
  {
    TotalWithout(marks[p := value], p);
    assert marks[p := value] - {p} == marks - {p};
    if p in marks {
      TotalWithout(marks, p);
    } else {
      assert marks - {p} == marks;
    }
  }

  // ---------------------------------------------------------------- never overcharged, over all months

  ghost predicate NoNegativeMark(marks: map<Period, real>) {
    forall p :: p in marks ==> marks[p] >= 0.0
  }

  function DebitedFrom(grants: seq<Grant>): real {
    Ceilings(grants) - Remaining(grants)
  }

  lemma OneEntry(rows: Rows, entry: Entry)
    requires NoNegativeMark(rows.marks) && Enabled(MonthOf(rows, entry.period), entry.event)
    ensures NoNegativeMark(After(rows, entry).marks)
    ensures 0.0 <= DebitedFrom(After(rows, entry).grants) - DebitedFrom(rows.grants)
                <= Total(After(rows, entry).marks) - Total(rows.marks)
    ensures forall p :: p in rows.marks ==>
              p in After(rows, entry).marks && rows.marks[p] <= After(rows, entry).marks[p]
  {
    var month := MonthOf(rows, entry.period);
    var next := Next(month, entry.event);
    match entry.event {
      case Spend(_) =>
      case Settle(ceiling, now, ids) => SettleStep(month, ceiling, now, ids);
      case NewGrant(ceiling, created, expires) => GrantStep(month, Grant(ceiling, ceiling, created, expires));
    }
    if next.settled.Some? {
      OneMark(rows.marks, entry.period, next.settled.value);
    }
  }

  /** Over any run through any months, in any order: marks only grow, and everything ever
      taken from the shared grants fits into the sum of the marks of all months. */
  lemma {:induction false} DebitsFitTheMarksOfAllMonths(rows: Rows, run: seq<Entry>)
    requires NoNegativeMark(rows.marks) && Possible(rows, run)
    ensures 0.0 <= DebitedFrom(AtEnd(rows, run).grants) - DebitedFrom(rows.grants)
                <= Total(AtEnd(rows, run).marks) - Total(rows.marks)
    ensures forall p :: p in rows.marks ==> p in AtEnd(rows, run).marks && rows.marks[p] <= AtEnd(rows, run).marks[p]
    decreases |run|
  {
    if run != [] {
      OneEntry(rows, run[0]);
      DebitsFitTheMarksOfAllMonths(After(rows, run[0]), run[1..]);
    }
  }

  /** What the spends of a run in one month cost. */
  function CostsIn(run: seq<Entry>, period: Period): real {
    if run == [] then 0.0
    else
      (if run[0].period == period && run[0].event.Spend? then run[0].event.costUsd else 0.0) + CostsIn(run[1..], period)
  }

  /** A cost is counted in its own month and in no other, over any run through any months. */
  lemma {:induction false} CostsStayInTheirMonth(rows: Rows, run: seq<Entry>, period: Period)
    requires Possible(rows, run)
    ensures MonthOf(AtEnd(rows, run), period).spent == MonthOf(rows, period).spent + CostsIn(run, period)
    decreases |run|
  {
    if run != [] {
      CostsStayInTheirMonth(After(rows, run[0]), run[1..], period);
    }
  }

  /** From an empty account: all debits together are at most the sum of all marks. */
  lemma NeverOverchargedOverAllMonths(run: seq<Entry>)
    requires Possible(Rows([], map[], map[]), run)
    ensures DebitedFrom(AtEnd(Rows([], map[], map[]), run).grants) <= Total(AtEnd(Rows([], map[], map[]), run).marks)
  {
    DebitsFitTheMarksOfAllMonths(Rows([], map[], map[]), run);
  }
}

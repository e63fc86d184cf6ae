/** The month arithmetic that dates credit expiry and renewals. */
module Calendar {
  import opened Prelude

  datatype Date = Date(year: int, month: int, day: int) {
    predicate Valid() {
      1 <= month <= 12 && 1 <= day <= DaysIn(year, month)
    }
  }

  predicate Leap(year: int) {
    year % 4 == 0 && (year % 100 != 0 || year % 400 == 0)
  }

  function DaysIn(year: int, month: int): int {
    if month == 2 then (if Leap(year) then 29 else 28)
    else if month in {4, 6, 9, 11} then 30
    else 31
  }

  function MonthStart(d: Date): Date {
    Date(d.year, d.month, 1)
  }

  function NextMonthStart(d: Date): Date {
    Date(d.year + d.month / 12, d.month % 12 + 1, 1)
  }

  function AddMonths(d: Date, months: int): Date {
    var index := d.month - 1 + months;
    var year, month := d.year + index / 12, index % 12 + 1;
    Date(year, month, Min(d.day, DaysIn(year, month)))
  }

  predicate Before(a: Date, b: Date) {
    a.year < b.year || (a.year == b.year && (a.month < b.month || (a.month == b.month && a.day < b.day)))
  }

  /** Counting months from year zero, AddMonths is addition; the day is the last
      one of the target month that is not after the original day. */
  lemma AddMonthsCountsMonths(d: Date, months: int, day: int)
    requires d.Valid()
    ensures var r := AddMonths(d, months);
            && r.Valid()
            && 12 * r.year + r.month == 12 * d.year + d.month + months
            && (Date(r.year, r.month, day).Valid() && day <= d.day ==> day <= r.day <= d.day)
  {
  }

  /** Renewal is one month after the start of the month, and later than any day of
      it. */
  lemma NextMonthIsOneMonthOn(d: Date)
    requires d.Valid()
    ensures NextMonthStart(d) == AddMonths(MonthStart(d), 1)
    ensures NextMonthStart(d).Valid() && Before(d, NextMonthStart(d)) && !Before(d, MonthStart(d))
  {
  }

  /** Going forward and back returns to the same day exactly when the target month
      has that day. */
  lemma AddMonthsRoundTrip(d: Date, months: int)
    requires d.Valid()
    ensures AddMonths(AddMonths(d, months), -months) == d
       <==> d.day <= DaysIn(AddMonths(d, months).year, AddMonths(d, months).month)
  {
    AddMonthsCountsMonths(d, months, 1);
    AddMonthsCountsMonths(AddMonths(d, months), -months, 1);
  }

  /** Whole dates never swap. */
  lemma AddMonthsKeepsOrder(a: Date, b: Date, months: int)
    requires a.Valid() && b.Valid() && !Before(b, a)
    ensures !Before(AddMonths(b, months), AddMonths(a, months))
  {
    AddMonthsCountsMonths(a, months, 1);
    AddMonthsCountsMonths(b, months, 1);
  }

  // ---------------------------------------------------------------- moments

  const MICROSECONDS_OF_DAY: int := 86_400_000_000

  /** What the code adds months to: a date and a time of day, which stays. */
  datatype Moment = Moment(date: Date, time: int) {
    predicate Valid() {
      date.Valid() && 0 <= time < MICROSECONDS_OF_DAY
    }
  }

  function MonthsLater(m: Moment, months: int): Moment {
    m.(date := AddMonths(m.date, months))
  }

  predicate Earlier(a: Moment, b: Moment) {
    Before(a.date, b.date) || (a.date == b.date && a.time < b.time)
  }

  /** Both days are cut to the last day of the target month. */
  predicate ClampTogether(a: Date, b: Date, months: int) {
    a.year == b.year && a.month == b.month && a.day != b.day
    && DaysIn(AddMonths(a, months).year, AddMonths(a, months).month) <= Min(a.day, b.day)
  }

  /** The later of two moments comes out earlier if and only if they lie on different days
      of one month that the target month cuts to its last day, and its time of day is the
      smaller one. */
  lemma MomentsSwapExactlyWhen(a: Moment, b: Moment, months: int)
    requires a.Valid() && b.Valid() && Earlier(a, b)
    ensures Earlier(MonthsLater(b, months), MonthsLater(a, months))
       <==> ClampTogether(a.date, b.date, months) && b.time < a.time
  {
    AddMonthsCountsMonths(a.date, months, 1);
    AddMonthsCountsMonths(b.date, months, 1);
    AddMonthsKeepsOrder(a.date, b.date, months);
  }

  /** Bought on 28 February 2024 at 23:00, and on 29 February at 01:00: a year later the
      second credit expires 22 hours before the first. */
  lemma LaterPurchaseCanExpireEarlier()
    ensures var first := Moment(Date(2024, 2, 28), 82_800_000_000);
            var second := Moment(Date(2024, 2, 29), 3_600_000_000);
            && first.Valid() && second.Valid() && Earlier(first, second)
            && MonthsLater(first, 12) == Moment(Date(2025, 2, 28), 82_800_000_000)
            && MonthsLater(second, 12) == Moment(Date(2025, 2, 28), 3_600_000_000)
            && Earlier(MonthsLater(second, 12), MonthsLater(first, 12))
  {
    assert DaysIn(2025, 2) == 28 && DaysIn(2024, 2) == 29;
  }

  // ---------------------------------------------------------------- one time line

  function DaysBeforeMonth(year: int, month: int): int {
    if month <= 1 then 0 else DaysBeforeMonth(year, month - 1) + DaysIn(year, month - 1)
  }

  /** Days up to the end of the year before. */
  function DaysBeforeYear(year: int): int {
    365 * (year - 1) + (year - 1) / 4 - (year - 1) / 100 + (year - 1) / 400
  }

  function DayNumber(d: Date): int {
    DaysBeforeYear(d.year) + DaysBeforeMonth(d.year, d.month) + d.day
  }

  function InstantOf(m: Moment): Instant {
    DayNumber(m.date) * 86_400_000_000 + m.time
  }

  lemma {:induction false} MonthsAddDays(year: int, m: int, n: int)
    requires 1 <= m < n
    ensures DaysBeforeMonth(year, m) + DaysIn(year, m) <= DaysBeforeMonth(year, n)
  {
    if m + 1 < n {
      MonthsAddDays(year, m, n - 1);
    }
  }

  lemma OneYearMore(year: int)
    ensures DaysBeforeYear(year + 1) == DaysBeforeYear(year) + if Leap(year) then 366 else 365
  {
    Quotients(year);
    Multiples(year);
  }

  lemma Multiples(n: int)
    ensures n % 400 == 0 ==> n % 100 == 0
    ensures n % 100 == 0 ==> n % 4 == 0
  {
    FourHundreds(n / 400);
    Hundreds(n / 100);
  }

  lemma FourHundreds(q: int)
    ensures 400 * q % 100 == 0
  {
  }

  lemma Hundreds(q: int)
    ensures 100 * q % 4 == 0
  {
  }

  lemma Quotients(n: int)
    ensures n / 4 == (n - 1) / 4 + if n % 4 == 0 then 1 else 0
    ensures n / 100 == (n - 1) / 100 + if n % 100 == 0 then 1 else 0
    ensures n / 400 == (n - 1) / 400 + if n % 400 == 0 then 1 else 0
  {
  }

  lemma YearHasItsMonths(year: int)
    ensures DaysBeforeMonth(year, 12) + 31 == if Leap(year) then 366 else 365
  {
    assert DaysBeforeMonth(year, 2) == 31 && DaysBeforeMonth(year, 3) == 31 + DaysIn(year, 2);
    assert DaysBeforeMonth(year, 4) == DaysBeforeMonth(year, 3) + 31;
    assert DaysBeforeMonth(year, 5) == DaysBeforeMonth(year, 4) + 30;
    assert DaysBeforeMonth(year, 6) == DaysBeforeMonth(year, 5) + 31;
    assert DaysBeforeMonth(year, 7) == DaysBeforeMonth(year, 6) + 30;
    assert DaysBeforeMonth(year, 8) == DaysBeforeMonth(year, 7) + 31;
    assert DaysBeforeMonth(year, 9) == DaysBeforeMonth(year, 8) + 31;
    assert DaysBeforeMonth(year, 10) == DaysBeforeMonth(year, 9) + 30;
    assert DaysBeforeMonth(year, 11) == DaysBeforeMonth(year, 10) + 31;
    assert DaysBeforeMonth(year, 12) == DaysBeforeMonth(year, 11) + 30;
  }

  lemma {:induction false} YearsAddDays(y: int, z: int)
    requires y <= z
    ensures DaysBeforeYear(y) <= DaysBeforeYear(z)
    decreases z - y
  {
    if y < z {
      OneYearMore(z - 1);
      YearsAddDays(y, z - 1);
    }
  }

  lemma DaysCount(a: Date, b: Date)
    requires a.Valid() && b.Valid() && Before(a, b)
    ensures DayNumber(a) < DayNumber(b)
  {
    if a.year < b.year {
      if a.month < 12 {
        MonthsAddDays(a.year, a.month, 12);
      }
      YearHasItsMonths(a.year);
      OneYearMore(a.year);
      YearsAddDays(a.year + 1, b.year);
      if b.month > 1 {
        MonthsAddDays(b.year, 1, b.month);
      }
    } else if a.month < b.month {
      MonthsAddDays(a.year, a.month, b.month);
    }
  }

  /** Instants order moments as dates and times of day do. */
  lemma InstantsFollowMoments(a: Moment, b: Moment)
    requires a.Valid() && b.Valid()
    ensures Earlier(a, b) <==> InstantOf(a) < InstantOf(b)
  {
    if Before(a.date, b.date) {
      DaysCount(a.date, b.date);
    } else if Before(b.date, a.date) {
      DaysCount(b.date, a.date);
    }
  }
}

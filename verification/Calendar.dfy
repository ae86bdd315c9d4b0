/**
 `_calculate_period` of backend/modules/fiscal/global_invoicing.py over the proleptic Gregorian
 calendar of Python's `date` (years 1 to 9999, ordinal 1 = Monday 1 January of year 1).
 */
module Calendar {
  import opened Text

  const MIN_YEAR := 1
  const MAX_YEAR := 9999
  const MAX_ORDINAL := 3652059

  datatype Date = Date(year: int, month: int, day: int)

  predicate Leap(y: int) { y % 4 == 0 && (y % 100 != 0 || y % 400 == 0) }

  function DaysInMonth(y: int, m: int): (n: int)
    ensures 28 <= n <= 31
  {
    if m == 2 then (if Leap(y) then 29 else 28)
    else if m == 4 || m == 6 || m == 9 || m == 11 then 30
    else 31
  }

  predicate Valid(d: Date) {
    MIN_YEAR <= d.year <= MAX_YEAR && 1 <= d.month <= 12 && 1 <= d.day <= DaysInMonth(d.year, d.month)
  }

  // ---------------------------------------------------------------- ordinals

  function DaysInYear(y: int): int { if Leap(y) then 366 else 365 }

  /** Days before 1 January of year `y`. */
  function DaysBeforeYear(y: int): int
    requires y >= MIN_YEAR
    decreases y
  {
    if y == MIN_YEAR then 0 else DaysBeforeYear(y - 1) + DaysInYear(y - 1)
  }

  function DaysBeforeMonth(y: int, m: int): int
    requires 1 <= m <= 13
    decreases m
  {
    if m == 1 then 0 else DaysBeforeMonth(y, m - 1) + DaysInMonth(y, m - 1)
  }

  /** `date.toordinal()` */
  function Ordinal(d: Date): int
    requires Valid(d)
  {
    DaysBeforeYear(d.year) + DaysBeforeMonth(d.year, d.month) + d.day
  }

  /** The month in which the n-th day of year `y` falls, searching from month `m`. */
  function MonthDay(y: int, m: int, n: int): (r: (int, int))
    requires 1 <= m <= 12 && 1 <= n <= DaysInYear(y) - DaysBeforeMonth(y, m)
    ensures m <= r.0 <= 12 && 1 <= r.1 <= DaysInMonth(y, r.0)
    ensures DaysBeforeMonth(y, r.0) + r.1 == DaysBeforeMonth(y, m) + n
    decreases 12 - m
  {
    if n <= DaysInMonth(y, m) then (m, n)
    else
      YearIsItsMonths(y);
      MonthDay(y, m + 1, n - DaysInMonth(y, m))
  }

  lemma YearIsItsMonths(y: int)
    ensures DaysBeforeMonth(y, 12) + 31 == DaysInYear(y)
    ensures DaysBeforeMonth(y, 13) == DaysInYear(y)
  {
  }

  /** The usual closed form of the days before a month. */
  lemma MonthsClosed(y: int, m: int)
    requires 1 <= m <= 12
    ensures DaysBeforeMonth(y, m) == (367 * m - 362) / 12 + (if m <= 2 then 0 else if Leap(y) then -1 else -2)
  {
    YearIsItsMonths(y);
    assert DaysBeforeMonth(y, 3) == 59 + if Leap(y) then 1 else 0;
    assert DaysBeforeMonth(y, 5) == DaysBeforeMonth(y, 3) + 61;
    assert DaysBeforeMonth(y, 7) == DaysBeforeMonth(y, 5) + 61;
    assert DaysBeforeMonth(y, 9) == DaysBeforeMonth(y, 7) + 62;
    assert DaysBeforeMonth(y, 11) == DaysBeforeMonth(y, 9) + 61;
  }

  lemma LeapQuotients(y: int)
    ensures (if y % 4 == 0 then 1 else 0) - (if y % 100 == 0 then 1 else 0) + (if y % 400 == 0 then 1 else 0)
            == if Leap(y) then 1 else 0
  {
  }

  /** CPython's closed form of the same count. */
  lemma {:induction false} DaysBeforeYearClosed(y: int)
    requires y >= MIN_YEAR
    ensures DaysBeforeYear(y) == 365 * (y - 1) + (y - 1) / 4 - (y - 1) / 100 + (y - 1) / 400
    decreases y
  {
    if y == MIN_YEAR {
    } else {
      DaysBeforeYearClosed(y - 1);
      QuotientStep(y - 1);
      LeapQuotients(y - 1);
    }
  }

  lemma QuotientStep(y: int)
    ensures y / 4 == (y - 1) / 4 + (if y % 4 == 0 then 1 else 0)
    ensures y / 100 == (y - 1) / 100 + (if y % 100 == 0 then 1 else 0)
    ensures y / 400 == (y - 1) / 400 + (if y % 400 == 0 then 1 else 0)
  {
  }

  lemma CalendarEnds()
    ensures DaysBeforeYear(MAX_YEAR + 1) == MAX_ORDINAL
  {
    DaysBeforeYearClosed(MAX_YEAR + 1);
  }

  /** The date of the n-th day counted from 1 January of year `y`. */
  function FromYear(y: int, n: int): (d: Date)
    requires MIN_YEAR <= y <= MAX_YEAR && 1 <= n && DaysBeforeYear(y) + n <= MAX_ORDINAL
    ensures Valid(d) && Ordinal(d) == DaysBeforeYear(y) + n
    decreases MAX_YEAR - y
  {
    if n <= DaysInYear(y) then
      var r := MonthDay(y, 1, n);
      Date(y, r.0, r.1)
    else
      CalendarEnds();
      FromYear(y + 1, n - DaysInYear(y))
  }

  /** `date.fromordinal(n)`, or None where Python raises. */
  function FromOrdinal(n: int): (r: Option<Date>)
    ensures r.Some? <==> 1 <= n <= MAX_ORDINAL
    ensures r.Some? ==> Valid(r.value) && Ordinal(r.value) == n
  {
    if 1 <= n <= MAX_ORDINAL then Some(FromYear(1, n)) else None
  }

  /** `d + timedelta(days=k)`; None is OverflowError. */
  function AddDays(d: Date, k: int): (r: Option<Date>)
    requires Valid(d)
    ensures r.Some? ==> Valid(r.value) && Ordinal(r.value) == Ordinal(d) + k
  {
    FromOrdinal(Ordinal(d) + k)
  }

  /** `d.weekday()`: Monday is 0. */
  function Weekday(d: Date): (k: int)
    requires Valid(d)
    ensures 0 <= k <= 6
  {
    Weekday0(Ordinal(d))
  }

  function Weekday0(n: int): (k: int)
    ensures 0 <= k <= 6
  {
    (n + 6) % 7
  }

  // ---------------------------------------------------------------- ordinals and dates correspond

  predicate Before(a: Date, b: Date) {
    a.year < b.year || (a.year == b.year && (a.month < b.month || (a.month == b.month && a.day < b.day)))
  }

  lemma {:induction false} MonthsAccumulate(y: int, m: int, k: int)
    requires 1 <= m < k <= 13
    ensures DaysBeforeMonth(y, m) + DaysInMonth(y, m) <= DaysBeforeMonth(y, k)
    decreases k
  {
    if k == m + 1 {
    } else {
      MonthsAccumulate(y, m, k - 1);
    }
  }

  lemma {:induction false} YearsAccumulate(y: int, z: int)
    requires MIN_YEAR <= y < z
    ensures DaysBeforeYear(y) + DaysInYear(y) <= DaysBeforeYear(z)
    decreases z - y
  {
    if y == z - 1 {
    } else {
      YearsAccumulate(y, z - 1);
    }
  }

  lemma OrdinalInYear(d: Date)
    requires Valid(d)
    ensures DaysBeforeYear(d.year) < Ordinal(d) <= DaysBeforeYear(d.year) + DaysInYear(d.year)
  {
    YearIsItsMonths(d.year);
    MonthsAccumulate(d.year, d.month, 13);
    if d.month > 1 {
      MonthsAccumulate(d.year, 1, d.month);
    }
  }

  /** Calendar order is ordinal order. */
  lemma OrdinalIsMonotone(a: Date, b: Date)
    requires Valid(a) && Valid(b)
    ensures Before(a, b) <==> Ordinal(a) < Ordinal(b)
    ensures a == b <==> Ordinal(a) == Ordinal(b)
  {
    if Before(a, b) {
      EarlierIsSmaller(a, b);
    } else if Before(b, a) {
      EarlierIsSmaller(b, a);
    } else {
      assert a == b;
    }
  }

  lemma EarlierIsSmaller(a: Date, b: Date)
    requires Valid(a) && Valid(b) && Before(a, b)
    ensures Ordinal(a) < Ordinal(b)
  {
    OrdinalInYear(a);
    OrdinalInYear(b);
    if a.year < b.year {
      YearsAccumulate(a.year, b.year);
    } else if a.month < b.month {
      MonthsAccumulate(a.year, a.month, b.month);
    }
  }

  /** Every date is an ordinal in range and comes back from it. */
  lemma OrdinalRoundTrip(d: Date)
    requires Valid(d)
    ensures 1 <= Ordinal(d) <= MAX_ORDINAL && FromOrdinal(Ordinal(d)) == Some(d)
  {
    OrdinalInYear(d);
    if d.year > 1 {
      YearsAccumulate(1, d.year);
    }
    YearsAccumulate(d.year, MAX_YEAR + 1);
    CalendarEnds();
    OrdinalIsMonotone(FromOrdinal(Ordinal(d)).value, d);
  }

  /** The last day of a month precedes the first of the next. */
  lemma MonthEndsBeforeNext(y: int, m: int)
    requires MIN_YEAR <= y <= MAX_YEAR && 1 <= m < 12
    ensures Ordinal(Date(y, m + 1, 1)) - 1 == Ordinal(Date(y, m, DaysInMonth(y, m)))
  {
  }

  lemma YearEndsBeforeNext(y: int)
    requires MIN_YEAR <= y < MAX_YEAR
    ensures Ordinal(Date(y + 1, 1, 1)) - 1 == Ordinal(Date(y, 12, 31))
  {
  }

  // ---------------------------------------------------------------- periods

  datatype PeriodType = Daily | Weekly | Monthly | Other(name: string)

  datatype Period = Period(start: Date, end: Date)

  datatype PeriodError = InvalidPeriodType | DateOverflow

  predicate ValidPeriod(p: Period) { Valid(p.start) && Valid(p.end) }

  /**
   `_calculate_period`.  `ref` is None when the text is not a date; the source then takes the
   present day.
   */
  function CalculatePeriod(ref: Option<Date>, now: Date, kind: PeriodType): (r: Result<Period, PeriodError>)
    requires Valid(now) && (ref.Some? ==> Valid(ref.value))
    ensures r.Success? ==> ValidPeriod(r.value)
  {
    PeriodOf(if ref.Some? then ref.value else now, kind)
  }

  function PeriodOf(d: Date, kind: PeriodType): (r: Result<Period, PeriodError>)
    requires Valid(d)
    ensures r.Success? ==> ValidPeriod(r.value)
  {
    match kind
    case Daily => Success(Period(d, d))
    case Weekly =>
      (match AddDays(d, -Weekday(d))
       case None => Failure(DateOverflow)
       case Some(start) =>
         match AddDays(start, 6)
         case None => Failure(DateOverflow)
         case Some(end) => Success(Period(start, end)))
    case Monthly =>
      var start := Date(d.year, d.month, 1);
      if d.month == 12 then Success(Period(start, Date(d.year, 12, 31)))
      else
        (match AddDays(Date(d.year, d.month + 1, 1), -1)
         case None => Failure(DateOverflow)
         case Some(end) => Success(Period(start, end)))
    case Other(_) => Failure(InvalidPeriodType)
  }

  predicate InPeriod(p: Period, d: Date)
    requires ValidPeriod(p) && Valid(d)
  {
    Ordinal(p.start) <= Ordinal(d) <= Ordinal(p.end)
  }

  /** A monthly period runs from the first to the last day of the month, leap Februaries included. */
  lemma MonthlyIsTheMonth(d: Date)
    requires Valid(d)
    ensures PeriodOf(d, Monthly) ==
            Success(Period(Date(d.year, d.month, 1), Date(d.year, d.month, DaysInMonth(d.year, d.month))))
  {
    if d.month < 12 {
      MonthEndsBeforeNext(d.year, d.month);
      OrdinalRoundTrip(Date(d.year, d.month, DaysInMonth(d.year, d.month)));
    }
  }

  lemma MondayExists(d: Date)
    requires Valid(d)
    ensures var monday := Ordinal(d) - Weekday(d);
            && 1 <= monday <= MAX_ORDINAL && Weekday0(monday) == 0
            && AddDays(d, -Weekday(d)).Some? && Ordinal(AddDays(d, -Weekday(d)).value) == monday
  {
    OrdinalRoundTrip(d);
    MondayOf(Ordinal(d));
  }

  /** A week is its Monday and the six days after; it exists unless it leaves the calendar. */
  lemma WeeklyIsTheWeek(d: Date)
    requires Valid(d)
    ensures var monday := Ordinal(d) - Weekday(d);
            && 1 <= monday && Weekday0(monday) == 0
            && (PeriodOf(d, Weekly).Success? <==> monday + 6 <= MAX_ORDINAL)
            && (PeriodOf(d, Weekly).Success? ==>
                  Ordinal(PeriodOf(d, Weekly).value.start) == monday
                  && Ordinal(PeriodOf(d, Weekly).value.end) == monday + 6)
  {
    MondayExists(d);
  }

  /** Which calls fail: an unknown type, or a week that ends after the last representable day. */
  lemma PeriodFailsExactly(d: Date, kind: PeriodType)
    requires Valid(d)
    ensures PeriodOf(d, kind).Failure? <==>
            kind.Other? || (kind.Weekly? && Ordinal(d) - Weekday(d) + 6 > MAX_ORDINAL)
  {
    WeeklyIsTheWeek(d);
    MonthlyIsTheMonth(d);
  }

  lemma SameMonth(d: Date, e: Date)
    requires Valid(d) && Valid(e)
    ensures var last := Date(d.year, d.month, DaysInMonth(d.year, d.month));
            Ordinal(Date(d.year, d.month, 1)) <= Ordinal(e) <= Ordinal(last)
            <==> e.year == d.year && e.month == d.month
  {
    var first, last := Date(d.year, d.month, 1), Date(d.year, d.month, DaysInMonth(d.year, d.month));
    OrdinalIsMonotone(e, first);
    OrdinalIsMonotone(last, e);
  }

  /** A daily period is the one day. */
  lemma DailyIsTheDay(d: Date, e: Date)
    requires Valid(d) && Valid(e)
    ensures PeriodOf(d, Daily).Success? && (InPeriod(PeriodOf(d, Daily).value, e) <==> e == d)
  {
    OrdinalIsMonotone(d, e);
  }

  lemma NewYearsDay(d: Date, y: int, n: int)
    requires Valid(d) && d == Date(y, 1, 1)
    requires n == 365 * (y - 1) + (y - 1) / 4 - (y - 1) / 100 + (y - 1) / 400 + 1
    ensures Ordinal(d) == n && Weekday(d) == (n + 6) % 7
  {
    DaysBeforeYearClosed(y);
  }

  /** 1 January 1970 is day 719163, a Thursday; 1 January 2024 is a Monday. */
  lemma Anchors(epoch: Date, monday: Date)
    requires epoch == Date(1970, 1, 1) && monday == Date(2024, 1, 1)
    ensures Ordinal(epoch) == 719163 && Weekday(epoch) == 3 && Weekday(monday) == 0
  {
    NewYearsDay(epoch, epoch.year, 719163);
    NewYearsDay(monday, monday.year, 738886);
  }

  predicate Partitioned(d: Date, e: Date, kind: PeriodType)
    requires Valid(d) && Valid(e) && PeriodOf(d, kind).Success?
  {
    && InPeriod(PeriodOf(d, kind).value, d)
    && (InPeriod(PeriodOf(d, kind).value, e) <==> PeriodOf(e, kind) == PeriodOf(d, kind))
  }

  lemma SameWeek(a: int, b: int)
    ensures var m := a - Weekday0(a);
            m <= b <= m + 6 <==> b - Weekday0(b) == m
  {
  }

  lemma MondayOf(n: int)
    ensures Weekday0(n - Weekday0(n)) == 0 && (n >= 1 ==> n - Weekday0(n) >= 1)
    ensures Weekday0(n - Weekday0(n) + 7) == 0
  {
  }

  lemma WeeksPartition(d: Date, e: Date)
    requires Valid(d) && Valid(e) && PeriodOf(d, Weekly).Success?
    ensures Partitioned(d, e, Weekly)
  {
    WeeklyIsTheWeek(d);
    WeeklyIsTheWeek(e);
    SameWeek(Ordinal(d), Ordinal(e));
    if Ordinal(d) - Weekday(d) == Ordinal(e) - Weekday(e) {
      var p, q := PeriodOf(d, Weekly).value, PeriodOf(e, Weekly).value;
      OrdinalIsMonotone(p.start, q.start);
      OrdinalIsMonotone(p.end, q.end);
    }
  }

  lemma MonthsPartition(d: Date, e: Date)
    requires Valid(d) && Valid(e)
    ensures PeriodOf(d, Monthly).Success? && Partitioned(d, e, Monthly)
  {
    MonthlyIsTheMonth(d);
    MonthlyIsTheMonth(e);
    SameMonth(d, d);
    SameMonth(d, e);
  }

  /** A period holds its reference date, and the dates in it are exactly those with that same period. */
  lemma PeriodsPartition(d: Date, e: Date, kind: PeriodType)
    requires Valid(d) && Valid(e) && PeriodOf(d, kind).Success?
    ensures InPeriod(PeriodOf(d, kind).value, d)
    ensures InPeriod(PeriodOf(d, kind).value, e) <==> PeriodOf(e, kind) == PeriodOf(d, kind)
  {
    match kind
    case Daily => OrdinalIsMonotone(d, e);
    case Weekly => WeeksPartition(d, e);
    case Monthly => MonthsPartition(d, e);
  }

  predicate Follows(d: Date, kind: PeriodType)
    requires Valid(d) && PeriodOf(d, kind).Success?
  {
    var next := AddDays(PeriodOf(d, kind).value.end, 1);
    && next.Some?
    && (PeriodOf(next.value, kind).Success? ==> PeriodOf(next.value, kind).value.start == next.value)
  }

  lemma NextWeek(d: Date)
    requires Valid(d) && PeriodOf(d, Weekly).Success? && Ordinal(PeriodOf(d, Weekly).value.end) < MAX_ORDINAL
    ensures Follows(d, Weekly)
  {
    WeeklyIsTheWeek(d);
    var n := Ordinal(PeriodOf(d, Weekly).value.end) + 1;
    NextMonday(Ordinal(d), n);
    var next := FromOrdinal(n).value;
    if PeriodOf(next, Weekly).Success? {
      MondayStartsItsWeek(next);
    }
  }

  lemma NextMonday(n: int, m: int)
    requires m == n - Weekday0(n) + 7
    ensures Weekday0(m) == 0
  {
  }

  lemma MondayStartsItsWeek(d: Date)
    requires Valid(d) && Weekday(d) == 0 && PeriodOf(d, Weekly).Success?
    ensures PeriodOf(d, Weekly).value.start == d
  {
    OrdinalRoundTrip(d);
  }

  /** The first day of the month after, where there is one. */
  lemma FirstOfNext(d: Date) returns (first: Date)
    requires Valid(d)
    requires Ordinal(Date(d.year, d.month, DaysInMonth(d.year, d.month))) < MAX_ORDINAL
    ensures Valid(first) && first.day == 1
    ensures Ordinal(first) == Ordinal(Date(d.year, d.month, DaysInMonth(d.year, d.month))) + 1
  {
    LastDay();
    first := if d.month < 12 then Date(d.year, d.month + 1, 1) else Date(d.year + 1, 1, 1);
    if d.month < 12 {
      MonthEndsBeforeNext(d.year, d.month);
    } else {
      YearEndsBeforeNext(d.year);
    }
  }

  lemma NextMonth(d: Date)
    requires Valid(d) && PeriodOf(d, Monthly).Success? && Ordinal(PeriodOf(d, Monthly).value.end) < MAX_ORDINAL
    ensures Follows(d, Monthly)
  {
    MonthlyIsTheMonth(d);
    var first := FirstOfNext(d);
    OrdinalRoundTrip(first);
    MonthlyIsTheMonth(first);
  }

  /** The day after a period opens the next one: no gap and no overlap. */
  lemma PeriodsAreConsecutive(d: Date, kind: PeriodType)
    requires Valid(d) && PeriodOf(d, kind).Success? && Ordinal(PeriodOf(d, kind).value.end) < MAX_ORDINAL
    ensures var next := AddDays(PeriodOf(d, kind).value.end, 1);
            && next.Some?
            && (PeriodOf(next.value, kind).Success? ==> PeriodOf(next.value, kind).value.start == next.value)
            && (PeriodOf(next.value, kind).Failure? ==> kind.Weekly?)
  {
    match kind
    case Daily => OrdinalRoundTrip(d);
    case Weekly => NextWeek(d);
    case Monthly =>
      NextMonth(d);
      PeriodFailsExactly(AddDays(PeriodOf(d, kind).value.end, 1).value, kind);
  }

  lemma LastDay()
    ensures Ordinal(Date(MAX_YEAR, 12, 31)) == MAX_ORDINAL
  {
    YearIsItsMonths(MAX_YEAR);
    CalendarEnds();
  }
}

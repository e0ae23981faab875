/** The proleptic Gregorian calendar of Python's `datetime`, years 1 to 9999.
    Timestamps throughout the model are whole seconds since 0001-01-01 00:00:00,
    so a timestamp's calendar day is its quotient by 86400. */
module Calendar {
  import opened Common

  const SecondsPerDay: int := 86400
  const SecondsPerHour: int := 3600
  const MinYear: int := 1
  const MaxYear: int := 9999

  predicate IsLeapYear(y: int)
  {
    y % 4 == 0 && (y % 100 != 0 || y % 400 == 0)
  }

  function DaysInYear(y: int): int
  {
    if IsLeapYear(y) then 366 else 365
  }

  function DaysInMonth(y: int, m: int): (n: int)
    requires 1 <= m <= 12
    ensures 28 <= n <= 31
  {
    if m == 2 then (if IsLeapYear(y) then 29 else 28)
    else if m == 4 || m == 6 || m == 9 || m == 11 then 30
    else 31
  }

  datatype Date = Date(year: int, month: int, day: int)

  predicate ValidDate(d: Date)
  {
    MinYear <= d.year <= MaxYear && 1 <= d.month <= 12 && 1 <= d.day <= DaysInMonth(d.year, d.month)
  }

  /** Days of all years before y. */
  function DaysBeforeYear(y: int): (n: int)
    requires y >= 1
    ensures n >= 365 * (y - 1)
    decreases y
  {
    if y == 1 then 0 else DaysBeforeYear(y - 1) + DaysInYear(y - 1)
  }

  /** Days of the months of year y before month m. */
  function DaysBeforeMonth(y: int, m: int): (n: int)
    requires 1 <= m <= 12
    ensures 28 * (m - 1) <= n <= 31 * (m - 1)
    decreases m
  {
    if m == 1 then 0 else DaysBeforeMonth(y, m - 1) + DaysInMonth(y, m - 1)
  }

  /** Days before the first day of month m of year y. */
  function MonthStart(y: int, m: int): int
    requires y >= 1 && 1 <= m <= 12
  {
    DaysBeforeYear(y) + DaysBeforeMonth(y, m)
  }

  /** Python's date.toordinal(): 0001-01-01 is day 1. */
  function Ordinal(d: Date): int
    requires ValidDate(d)
  {
    MonthStart(d.year, d.month) + d.day
  }

  /** Python's date.weekday(): Monday is 0, Sunday is 6. */
  function Weekday(d: Date): (w: int)
    requires ValidDate(d)
    ensures 0 <= w < 7
  {
    (Ordinal(d) + 6) % 7
  }

  datatype DateTime = DateTime(date: Date, hour: int, minute: int, second: int)

  predicate ValidDateTime(t: DateTime)
  {
    ValidDate(t.date) && 0 <= t.hour < 24 && 0 <= t.minute < 60 && 0 <= t.second < 60
  }

  function SecondOfDay(t: DateTime): int
  {
    t.hour * SecondsPerHour + t.minute * 60 + t.second
  }

  /** The timestamp of a calendar instant. */
  function ToTimestamp(t: DateTime): int
    requires ValidDateTime(t)
  {
    (Ordinal(t.date) - 1) * SecondsPerDay + SecondOfDay(t)
  }

  /** datetime.replace(hour=0, minute=0, second=0, microsecond=0) */
  function Midnight(d: Date): DateTime
  {
    DateTime(d, 0, 0, 0)
  }

  /** The timestamp of midnight of the given day index (a timestamp's quotient by 86400). */
  function DayStart(t: int): (s: int)
    ensures s <= t < s + SecondsPerDay
    ensures s % SecondsPerDay == 0
  {
    (t / SecondsPerDay) * SecondsPerDay
  }

  // ---------------------------------------------------------------------------
  // Ordering of months and of ordinals

  /** The month after (y, m), rolling December over to January of year y + 1. */
  function NextMonth(y: int, m: int): (r: (int, int))
    requires 1 <= m <= 12
    ensures 1 <= r.1 <= 12
  {
    if m == 12 then (y + 1, 1) else (y, m + 1)
  }

  /** A month's days follow straight on from its start, up to the next month's start. */
  lemma NextMonthStart(y: int, m: int)
    requires y >= 1 && 1 <= m <= 12
    ensures MonthStart(NextMonth(y, m).0, NextMonth(y, m).1) == MonthStart(y, m) + DaysInMonth(y, m)
  {
    if m == 12 {
      DaysBeforeDecember(y);
    }
  }

  lemma DaysBeforeDecember(y: int)
    ensures DaysBeforeMonth(y, 12) + DaysInMonth(y, 12) == DaysInYear(y)
  {
    assert DaysBeforeMonth(y, 2) == 31;
    assert DaysBeforeMonth(y, 12) == (if IsLeapYear(y) then 335 else 334);
  }

  /** Months in order: counting months from January of year 1. */
  function MonthIndex(y: int, m: int): int
  {
    12 * (y - 1) + (m - 1)
  }

  /** A later month starts after every day of an earlier month. */
  lemma {:induction false} MonthStartMonotone(y1: int, m1: int, y2: int, m2: int)
    requires y1 >= 1 && 1 <= m1 <= 12 && y2 >= 1 && 1 <= m2 <= 12
    requires MonthIndex(y1, m1) < MonthIndex(y2, m2)
    ensures MonthStart(y1, m1) + DaysInMonth(y1, m1) <= MonthStart(y2, m2)
    decreases MonthIndex(y2, m2) - MonthIndex(y1, m1)
  {
    var (y, m) := NextMonth(y1, m1);
    NextMonthStart(y1, m1);
    if MonthIndex(y, m) < MonthIndex(y2, m2) {
      MonthStartMonotone(y, m, y2, m2);
    } else {
      assert y == y2 && m == m2;
    }
  }

  /** The half-open day range [first of (y, m), first of the next month) holds
      exactly the dates of month m of year y. */
  lemma MonthWindowExact(d: Date, y: int, m: int)
    requires ValidDate(d) && y >= 1 && 1 <= m <= 12
    ensures (MonthStart(y, m) < Ordinal(d) <= MonthStart(y, m) + DaysInMonth(y, m))
        <==> (d.year == y && d.month == m)
  {
    if MonthIndex(d.year, d.month) < MonthIndex(y, m) {
      MonthStartMonotone(d.year, d.month, y, m);
    } else if MonthIndex(y, m) < MonthIndex(d.year, d.month) {
      MonthStartMonotone(y, m, d.year, d.month);
    }
  }

  /** Ordinals follow calendar order. */
  lemma OrdinalOrder(a: Date, b: Date)
    requires ValidDate(a) && ValidDate(b)
    ensures Ordinal(a) < Ordinal(b) <==>
      (MonthIndex(a.year, a.month) < MonthIndex(b.year, b.month)
       || (a.year == b.year && a.month == b.month && a.day < b.day))
  {
    if MonthIndex(a.year, a.month) < MonthIndex(b.year, b.month) {
      MonthStartMonotone(a.year, a.month, b.year, b.month);
    } else if MonthIndex(b.year, b.month) < MonthIndex(a.year, a.month) {
      MonthStartMonotone(b.year, b.month, a.year, a.month);
    } else {
      MonthIndexInjective(a.year, a.month, b.year, b.month);
    }
  }

  lemma MonthIndexInjective(y1: int, m1: int, y2: int, m2: int)
    requires 1 <= m1 <= 12 && 1 <= m2 <= 12
    requires MonthIndex(y1, m1) == MonthIndex(y2, m2)
    ensures y1 == y2 && m1 == m2
  {
  }

  // ---------------------------------------------------------------------------
  // Stepping back by days (timedelta(days=n) subtraction)

  function PrevDay(d: Date): (p: Date)
    requires ValidDate(d) && Ordinal(d) > 1
    ensures ValidDate(p) && Ordinal(p) == Ordinal(d) - 1
  {
    if d.day > 1 then
      Date(d.year, d.month, d.day - 1)
    else if d.month > 1 then
      LastDayOfPreviousMonth(d.year, d.month);
      Date(d.year, d.month - 1, DaysInMonth(d.year, d.month - 1))
    else
      LastDayOfPreviousYear(d);
      Date(d.year - 1, 12, 31)
  }

  lemma LastDayOfPreviousMonth(y: int, m: int)
    requires MinYear <= y <= MaxYear && 2 <= m <= 12
    ensures ValidDate(Date(y, m - 1, DaysInMonth(y, m - 1)))
    ensures Ordinal(Date(y, m - 1, DaysInMonth(y, m - 1))) + 1 == Ordinal(Date(y, m, 1))
  {
    NextMonthStart(y, m - 1);
  }

  lemma LastDayOfPreviousYear(d: Date)
    requires ValidDate(d) && Ordinal(d) > 1 && d.month == 1 && d.day == 1
    ensures ValidDate(Date(d.year - 1, 12, 31))
    ensures Ordinal(Date(d.year - 1, 12, 31)) + 1 == Ordinal(d)
  {
    NextMonthStart(d.year - 1, 12);
  }

  /** d - timedelta(days=n) */
  function DaysBack(d: Date, n: nat): (p: Date)
    requires ValidDate(d) && Ordinal(d) > n
    ensures ValidDate(p) && Ordinal(p) == Ordinal(d) - n
    decreases n
  {
    if n == 0 then d else DaysBack(PrevDay(d), n - 1)
  }
}

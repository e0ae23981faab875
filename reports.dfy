/** The report handlers of parking_gateout_app/routes.py: the daily, monthly and custom
    reports over ParkingTransactions. Every report window is half open, [start, end), on
    ProcessedAt; a row without ProcessedAt is in no window (SQL comparisons with NULL are
    never true). Request parsing (strptime, fromisoformat, int()) is outside the model: the
    handlers receive the parsed values. */
module Reports {
  import opened Common
  import opened Calendar
  import opened Seqs
  import opened Tally
  import opened Parking

  predicate InWindow(p: Payment, start: int, end: int)
  {
    p.processedAt.Some? && start <= p.processedAt.value < end
  }

  /** The query's .filter(ProcessedAt >= start).filter(ProcessedAt < end).all() */
  function Window(payments: seq<Payment>, start: int, end: int): (r: seq<Payment>)
    ensures forall i :: 0 <= i < |r| ==> InWindow(r[i], start, end)
  {
    Filter(payments, (p: Payment) => InWindow(p, start, end))
  }

  /** float(t.PaymentAmount or 0): a missing amount counts as 0. */
  function AmountOrZero(p: Payment): real
  {
    if p.paymentAmount.None? then 0.0 else p.paymentAmount.value
  }

  /** One line of a report's transaction listing. */
  datatype Line = Line(ticketId: Option<int>, amount: real, paymentMethod: Option<string>, processedAt: int)

  datatype Report = Report(totalVehicles: nat, totalRevenue: real, lines: seq<Line>)

  /** A report, or the 500 that an exception inside the handler turns into. */
  datatype ReportResult = ReportOk(report: Report) | ReportFailed

  /** The listing as written: float(t.PaymentAmount) fails on a row without an amount. */
  function ListingAsWritten(rows: seq<Payment>): Option<seq<Line>>
    requires forall i :: 0 <= i < |rows| ==> rows[i].processedAt.Some?
    decreases |rows|
  {
    if rows == [] then Some([])
    else
      var rest := ListingAsWritten(rows[1..]);
      if rows[0].paymentAmount.None? || rest.None? then None
      else Some([Line(rows[0].ticketId, rows[0].paymentAmount.value, rows[0].paymentMethod, rows[0].processedAt.value)] + rest.value)
  }

  /** The listing with a missing amount shown as 0, as the totals already count it. */
  function Listing(rows: seq<Payment>): (r: seq<Line>)
    requires forall i :: 0 <= i < |rows| ==> rows[i].processedAt.Some?
    ensures |r| == |rows|
    ensures forall i :: 0 <= i < |rows| ==>
      r[i] == Line(rows[i].ticketId, AmountOrZero(rows[i]), rows[i].paymentMethod, rows[i].processedAt.value)
    decreases |rows|
  {
    if rows == [] then []
    else [Line(rows[0].ticketId, AmountOrZero(rows[0]), rows[0].paymentMethod, rows[0].processedAt.value)] + Listing(rows[1..])
  }

  /** The body shared by the daily and custom reports, as written. */
  function RangeReportAsWritten(payments: seq<Payment>, start: int, end: int): ReportResult
  {
    var rows := Window(payments, start, end);
    var listing := ListingAsWritten(rows);
    if listing.None? then ReportFailed
    else ReportOk(Report(|rows|, Sum(rows, AmountOrZero), listing.value))
  }

  /** The body shared by the daily and custom reports, with the listing fixed. */
  function RangeReport(payments: seq<Payment>, start: int, end: int): Report
  {
    var rows := Window(payments, start, end);
    Report(|rows|, Sum(rows, AmountOrZero), Listing(rows))
  }

  function LineAmount(l: Line): real
  {
    l.amount
  }

  /** A report counts and lists exactly the transactions processed in [start, end), and
      its total revenue is the sum of the amounts its lines show, a missing amount as 0. */
  lemma RangeReportContents(payments: seq<Payment>, start: int, end: int)
    ensures var r := RangeReport(payments, start, end);
      && r.totalVehicles == Count(payments, (p: Payment) => InWindow(p, start, end))
      && |r.lines| == r.totalVehicles
      && r.totalRevenue == Sum(r.lines, LineAmount)
      && (forall i :: 0 <= i < |r.lines| ==> start <= r.lines[i].processedAt < end)
  {
    CountIsFilterLength(payments, (p: Payment) => InWindow(p, start, end));
    var rows := Window(payments, start, end);
    SumPointwise(rows, Listing(rows), AmountOrZero, LineAmount);
  }

  /** Sums agree over sequences that agree element by element. */
  lemma {:induction false} SumPointwise<T, U>(a: seq<T>, b: seq<U>, f: T -> real, g: U -> real)
    requires |a| == |b| && forall i :: 0 <= i < |a| ==> f(a[i]) == g(b[i])
    ensures Sum(a, f) == Sum(b, g)
    decreases |a|
  {
    if a != [] {
      SumPointwise(a[..|a| - 1], b[..|b| - 1], f, g);
    }
  }

  /** The listing as written agrees with the fixed one whenever every row has an amount,
      and fails exactly when one does not. */
  lemma {:induction false} ListingAsWrittenFails(rows: seq<Payment>)
    requires forall i :: 0 <= i < |rows| ==> rows[i].processedAt.Some?
    ensures ListingAsWritten(rows).None? <==> exists i :: 0 <= i < |rows| && rows[i].paymentAmount.None?
    ensures ListingAsWritten(rows).Some? ==> ListingAsWritten(rows).value == Listing(rows)
    decreases |rows|
  {
    if rows != [] {
      ListingAsWrittenFails(rows[1..]);
      if rows[0].paymentAmount.Some? && exists i :: 0 <= i < |rows| && rows[i].paymentAmount.None? {
        var i :| 0 <= i < |rows| && rows[i].paymentAmount.None?;
        assert rows[1..][i - 1].paymentAmount.None?;
      }
      if exists i :: 0 <= i < |rows[1..]| && rows[1..][i].paymentAmount.None? {
        var i :| 0 <= i < |rows[1..]| && rows[1..][i].paymentAmount.None?;
        assert rows[i + 1].paymentAmount.None?;
      }
    }
  }

  /** A single transaction processed in the window without an amount turns the report into
      a 500, while the totals alone would have counted it as 0. */
  lemma MissingAmountFailsReport(start: int)
    ensures var p := Payment(Some(1), Some("cash"), "COMPLETED", Some("u"), None, Some(start));
      && RangeReportAsWritten([p], start, start + 1) == ReportFailed
      && RangeReport([p], start, start + 1) == Report(1, 0.0, [Line(Some(1), 0.0, Some("cash"), start)])
  {
    var p := Payment(Some(1), Some("cash"), "COMPLETED", Some("u"), None, Some(start));
    assert [p][..0] == [];
    assert [p][1..] == [];
    assert Window([p], start, start + 1) == [p];
    assert Sum([p], AmountOrZero) == 0.0;
  }

  // ---------------------------------------------------------------------------
  // Daily report

  /** The date get_daily_report reports on: the requested one, or today's. */
  function ReportDate(date: Option<Date>, now: DateTime): (d: Date)
    requires ValidDateTime(now)
    requires date.Some? ==> ValidDate(date.value)
    ensures ValidDate(d)
  {
    if date.Some? then date.value else now.date
  }

  /** The window [date, date + 1 day) in seconds. */
  function DateStart(d: Date): int
    requires ValidDate(d)
  {
    (Ordinal(d) - 1) * SecondsPerDay
  }

  /** The transactions of one calendar day. */
  function DayWindow(payments: seq<Payment>, d: Date): seq<Payment>
    requires ValidDate(d)
  {
    Window(payments, DateStart(d), DateStart(d) + SecondsPerDay)
  }

  /** 9999-12-31, the last day `datetime` can represent: adding a day to it overflows. */
  predicate IsLastDay(d: Date)
  {
    d.year == MaxYear && d.month == 12 && d.day == 31
  }

  /** The report on one day as written: the day [d, d + 1 day); the timedelta addition
      fails on the last day, and the listing fails on a transaction without an amount. */
  function DayReportAsWritten(payments: seq<Payment>, d: Date): ReportResult
    requires ValidDate(d)
  {
    if IsLastDay(d) then ReportFailed
    else RangeReportAsWritten(payments, DateStart(d), DateStart(d) + SecondsPerDay)
  }

  /** The report on one day with the listing corrected to show a missing amount as 0. */
  function DayReport(payments: seq<Payment>, d: Date): ReportResult
    requires ValidDate(d)
  {
    if IsLastDay(d) then ReportFailed
    else ReportOk(RangeReport(payments, DateStart(d), DateStart(d) + SecondsPerDay))
  }

  /** get_daily_report as written, on the requested date or today's. */
  function DailyReportAsWritten(payments: seq<Payment>, date: Option<Date>, now: DateTime): ReportResult
    requires ValidDateTime(now)
    requires date.Some? ==> ValidDate(date.value)
  {
    DayReportAsWritten(payments, ReportDate(date, now))
  }

  /** get_daily_report with the corrected listing. */
  function DailyReport(payments: seq<Payment>, date: Option<Date>, now: DateTime): ReportResult
    requires ValidDateTime(now)
    requires date.Some? ==> ValidDate(date.value)
  {
    DayReport(payments, ReportDate(date, now))
  }

  /** The daily window holds exactly the transactions whose processing instant falls on the
      requested calendar day. */
  lemma DailyWindowIsTheDay(date: Date, p: Payment)
    requires ValidDate(date) && p.processedAt.Some?
    ensures InWindow(p, DateStart(date), DateStart(date) + SecondsPerDay)
        <==> p.processedAt.value / SecondsPerDay == Ordinal(date) - 1
  {
  }

  /** Both versions fail on 9999-12-31, whose next day does not exist. */
  lemma DailyReportLastDay(payments: seq<Payment>, date: Date)
    requires ValidDate(date) && IsLastDay(date)
    ensures DayReport(payments, date) == ReportFailed
    ensures DayReportAsWritten(payments, date) == ReportFailed
  {
  }

  /** On any other day the corrected version reports, and the one as written reports
      exactly when every transaction of the day has an amount, and then reports the same. */
  lemma DailyReportOutcome(payments: seq<Payment>, date: Date)
    requires ValidDate(date) && !IsLastDay(date)
    ensures DayReport(payments, date).ReportOk?
    ensures DayReportAsWritten(payments, date).ReportOk? <==> AllHaveAmounts(DayWindow(payments, date))
    ensures DayReportAsWritten(payments, date).ReportOk? ==>
      DayReportAsWritten(payments, date) == DayReport(payments, date)
  {
    RangeReportAgrees(payments, DateStart(date), DateStart(date) + SecondsPerDay);
  }

  /** Every row has an amount, so float(t.PaymentAmount) succeeds on each. */
  predicate AllHaveAmounts(rows: seq<Payment>)
  {
    forall i :: 0 <= i < |rows| ==> rows[i].paymentAmount.Some?
  }

  /** The range report as written fails exactly when a transaction of the window has no
      amount, and otherwise equals the corrected one. */
  lemma RangeReportAgrees(payments: seq<Payment>, start: int, end: int)
    ensures var rows := Window(payments, start, end);
      && ((RangeReportAsWritten(payments, start, end).ReportOk?)
            <==> AllHaveAmounts(rows))
      && (RangeReportAsWritten(payments, start, end).ReportOk? ==>
            RangeReportAsWritten(payments, start, end) == ReportOk(RangeReport(payments, start, end)))
  {
    ListingAsWrittenFails(Window(payments, start, end));
  }

  // ---------------------------------------------------------------------------
  // Custom report

  /** generate_custom_report as written: the window [start_date, end_date) from the request
      body; a missing date fails in fromisoformat(None), and the listing fails on a
      transaction without an amount. */
  function CustomReportAsWritten(payments: seq<Payment>, startDate: Option<int>, endDate: Option<int>): ReportResult
  {
    if startDate.None? || endDate.None? then ReportFailed
    else RangeReportAsWritten(payments, startDate.value, endDate.value)
  }

  /** generate_custom_report with the listing corrected to show a missing amount as 0. */
  function CustomReport(payments: seq<Payment>, startDate: Option<int>, endDate: Option<int>): ReportResult
  {
    if startDate.None? || endDate.None? then ReportFailed
    else ReportOk(RangeReport(payments, startDate.value, endDate.value))
  }

  /** Both handlers fail without both dates. Otherwise the corrected one always reports,
      and the one as written reports exactly when every transaction of the window has an
      amount, and then reports the same. */
  lemma CustomReportOutcome(payments: seq<Payment>, start: Option<int>, end: Option<int>)
    ensures CustomReport(payments, start, end).ReportOk? <==> start.Some? && end.Some?
    ensures start.Some? && end.Some? ==>
      var rows := Window(payments, start.value, end.value);
      (CustomReportAsWritten(payments, start, end).ReportOk?)
        <==> AllHaveAmounts(rows)
    ensures CustomReportAsWritten(payments, start, end).ReportOk? ==>
      CustomReportAsWritten(payments, start, end) == CustomReport(payments, start, end)
  {
    if start.Some? && end.Some? {
      RangeReportAgrees(payments, start.value, end.value);
    }
  }

  /** An empty or reversed window reports nothing, in both versions. */
  lemma CustomReportEmptyWindow(payments: seq<Payment>, start: int, end: int)
    requires end <= start
    ensures CustomReport(payments, Some(start), Some(end)) == ReportOk(Report(0, 0.0, []))
    ensures CustomReportAsWritten(payments, Some(start), Some(end)) == ReportOk(Report(0, 0.0, []))
  {
  }

  lemma WindowSnoc(payments: seq<Payment>, start: int, end: int)
    requires payments != []
    ensures var last := payments[|payments| - 1];
      Window(payments, start, end)
        == Window(payments[..|payments| - 1], start, end) + (if InWindow(last, start, end) then [last] else [])
  {
  }

  lemma SumSnoc(rows: seq<Payment>, p: Payment)
    ensures Sum(rows + [p], AmountOrZero) == Sum(rows, AmountOrZero) + AmountOrZero(p)
  {
    assert (rows + [p])[..|rows|] == rows;
  }

  /** Adjacent windows split a report: the count and the revenue of [a, c) are those of
      [a, b) plus those of [b, c). */
  lemma {:induction false} WindowsAdd(payments: seq<Payment>, a: int, b: int, c: int)
    requires a <= b <= c
    ensures |Window(payments, a, c)| == |Window(payments, a, b)| + |Window(payments, b, c)|
    ensures Sum(Window(payments, a, c), AmountOrZero)
         == Sum(Window(payments, a, b), AmountOrZero) + Sum(Window(payments, b, c), AmountOrZero)
    decreases |payments|
  {
    if payments != [] {
      var init := payments[..|payments| - 1];
      var last := payments[|payments| - 1];
      WindowsAdd(init, a, b, c);
      WindowSnoc(payments, a, c);
      WindowSnoc(payments, a, b);
      WindowSnoc(payments, b, c);
      if InWindow(last, a, b) {
        SumSnoc(Window(init, a, c), last);
        SumSnoc(Window(init, a, b), last);
      } else if InWindow(last, b, c) {
        SumSnoc(Window(init, a, c), last);
        SumSnoc(Window(init, b, c), last);
      }
    }
  }

  // ---------------------------------------------------------------------------
  // Monthly report

  /** datetime(year, month, 1) and the first of the next month as timestamps; datetime
      refuses a month outside 1..12 or a year outside 1..9999, which includes the January
      after December 9999. */
  function MonthWindow(year: int, month: int): Option<(int, int)>
  {
    if !(1 <= month <= 12) || !(MinYear <= year <= MaxYear) then None
    else
      var (nextYear, nextMonth) := NextMonth(year, month);
      if nextYear > MaxYear then None
      else Some((MonthStart(year, month) * SecondsPerDay, MonthStart(nextYear, nextMonth) * SecondsPerDay))
  }

  /** The window is [first of the month, first of the next month): December rolls over to
      January of the next year, and the window holds exactly the instants of that month. */
  lemma MonthWindowCoversMonth(year: int, month: int, t: DateTime)
    requires MonthWindow(year, month).Some? && ValidDateTime(t)
    ensures var (start, end) := MonthWindow(year, month).value;
      && (month == 12 ==> end == MonthStart(year + 1, 1) * SecondsPerDay)
      && (month < 12 ==> end == MonthStart(year, month + 1) * SecondsPerDay)
      && (start <= ToTimestamp(t) < end <==> t.date.year == year && t.date.month == month)
  {
    NextMonthStart(year, month);
    MonthWindowExact(t.date, year, month);
    var s := MonthStart(year, month);
    var n := Ordinal(t.date);
    var secs := SecondOfDay(t);
    assert 0 <= secs < SecondsPerDay;
    assert s * SecondsPerDay <= (n - 1) * SecondsPerDay + secs <==> s < n by {
      if s < n { assert s <= n - 1; SecondsOfDaysMonotone(s, n - 1); }
      else { SecondsOfDaysMonotone(n, s); }
    }
    var e := s + DaysInMonth(year, month);
    assert (n - 1) * SecondsPerDay + secs < e * SecondsPerDay <==> n <= e by {
      if n <= e { SecondsOfDaysMonotone(n, e); }
      else { SecondsOfDaysMonotone(e, n - 1); }
    }
  }

  lemma SecondsOfDaysMonotone(a: int, b: int)
    requires a <= b
    ensures a * SecondsPerDay <= b * SecondsPerDay
  {
  }

  /** The calendar day of a transaction, t.ProcessedAt.date(), as a day count. */
  function DayOf(p: Payment): int
  {
    if p.processedAt.Some? then p.processedAt.value / SecondsPerDay else 0
  }

  /** daily_totals after the loop: per day, in order of first appearance, the number of
      transactions (count) and their revenue (total). */
  function DailyTotals(rows: seq<Payment>): seq<Bucket<int>>
  {
    Group(rows, DayOf, AmountOrZero)
  }

  /** The grouping loop of get_monthly_report. */
  method GroupByDay(rows: seq<Payment>) returns (totals: seq<Bucket<int>>)
    ensures totals == DailyTotals(rows)
  {
    totals := [];
    var i := 0;
    assert rows[..0] == [];
    while i < |rows|
      invariant 0 <= i <= |rows|
      invariant totals == DailyTotals(rows[..i])
    {
      var t := rows[i];
      var day := DayOf(t);
      GroupPrefix(rows, i, DayOf, AmountOrZero);
      totals := Bump(totals, day, AmountOrZero(t));
      i := i + 1;
      assert totals == DailyTotals(rows[..i]);
    }
    assert rows[..|rows|] == rows;
  }

  function BucketDay(b: Bucket<int>): int
  {
    b.key
  }

  datatype MonthlyReport = MonthlyReport(month: int, year: int, dailyTotals: seq<Bucket<int>>)

  /** get_monthly_report: the month's window, the transactions grouped by day, the days
      sorted; month and year default to now's. */
  method GetMonthlyReport(payments: seq<Payment>, month: Option<int>, year: Option<int>, now: DateTime)
      returns (r: Option<MonthlyReport>)
    ensures var m := if month.Some? then month.value else now.date.month;
      var y := if year.Some? then year.value else now.date.year;
      && (r.None? <==> MonthWindow(y, m).None?)
      && (r.Some? ==>
           var (start, end) := MonthWindow(y, m).value;
           var rows := Window(payments, start, end);
           && r.value.month == m && r.value.year == y
           && r.value.dailyTotals == SortBy(DailyTotals(rows), BucketDay)
           && StrictlyAscending(r.value.dailyTotals)
           && Counts(r.value.dailyTotals) == |rows|
           && Totals(r.value.dailyTotals) == Sum(rows, AmountOrZero))
  {
    var m := if month.Some? then month.value else now.date.month;
    var y := if year.Some? then year.value else now.date.year;
    var window := MonthWindow(y, m);
    if window.None? {
      return None;
    }
    var (start, end) := window.value;
    var rows := Window(payments, start, end);
    var totals := GroupByDay(rows);
    GroupTotals(rows, DayOf, AmountOrZero);
    var sorted := SortBy(totals, BucketDay);
    SortedTotals(totals);
    r := Some(MonthlyReport(m, y, sorted));
  }

  predicate StrictlyAscending(bs: seq<Bucket<int>>)
  {
    forall i, j :: 0 <= i < j < |bs| ==> bs[i].key < bs[j].key
  }

  /** Sorting the distinct days puts each day once, in ascending order, and keeps every
      count and total. */
  lemma SortedTotals(bs: seq<Bucket<int>>)
    requires Distinct(bs)
    ensures StrictlyAscending(SortBy(bs, BucketDay))
    ensures Counts(SortBy(bs, BucketDay)) == Counts(bs)
    ensures Totals(SortBy(bs, BucketDay)) == Totals(bs)
  {
    var s := SortBy(bs, BucketDay);
    SortBySorted(bs, BucketDay);
    forall i, j | 0 <= i < j < |s| ensures s[i].key < s[j].key {
      assert s[i].key <= s[j].key;
      DistinctAfterPermutation(bs, s, i, j);
    }
    SumsOfPermutation(bs, s);
  }

  /** Two positions of a permutation of a table with distinct days hold different days. */
  lemma DistinctAfterPermutation(bs: seq<Bucket<int>>, s: seq<Bucket<int>>, i: nat, j: nat)
    requires Distinct(bs) && multiset(s) == multiset(bs)
    requires i < j < |s|
    ensures s[i].key != s[j].key
  {
    if s[i].key == s[j].key {
      assert s[i] in multiset(bs);
      assert s[j] in multiset(bs);
      var a :| 0 <= a < |bs| && bs[a] == s[i];
      var b :| 0 <= b < |bs| && bs[b] == s[j];
      if a == b {
        TwoOccurrences(s, i, j);
        SingleOccurrence(bs, a);
        assert false;
      } else {
        assert false;
      }
    }
  }

  lemma TwoOccurrences(s: seq<Bucket<int>>, i: nat, j: nat)
    requires i < j < |s| && s[i] == s[j]
    ensures multiset(s)[s[i]] >= 2
  {
    assert s == s[..i] + [s[i]] + s[i + 1..];
    assert multiset(s) == multiset(s[..i]) + multiset{s[i]} + multiset(s[i + 1..]);
    assert s[i + 1..][j - i - 1] == s[j];
    assert s[j] in multiset(s[i + 1..]);
  }

  lemma {:induction false} SingleOccurrence(bs: seq<Bucket<int>>, a: nat)
    requires Distinct(bs) && a < |bs|
    ensures multiset(bs)[bs[a]] == 1
    decreases |bs|
  {
    var last := |bs| - 1;
    assert bs == bs[..last] + [bs[last]];
    if a == last {
      forall k | 0 <= k < last
        ensures bs[..last][k] != bs[last]
      {
        assert bs[k].key != bs[last].key;
      }
      assert bs[last] !in bs[..last];
    } else {
      SingleOccurrence(bs[..last], a);
      assert bs[last].key != bs[a].key;
    }
  }

  /** Reordering the days keeps the sums. */
  lemma {:induction false} SumsOfPermutation(bs: seq<Bucket<int>>, s: seq<Bucket<int>>)
    requires multiset(s) == multiset(bs)
    ensures Counts(s) == Counts(bs) && Totals(s) == Totals(bs)
    decreases |bs|
  {
    if bs != [] {
      var b := bs[0];
      assert b in multiset(s);
      var k :| 0 <= k < |s| && s[k] == b;
      var rest := s[..k] + s[k + 1..];
      assert s == s[..k] + [b] + s[k + 1..];
      assert multiset(rest) == multiset(bs[1..]) by {
        assert bs == [b] + bs[1..];
        assert multiset(bs) == multiset{b} + multiset(bs[1..]);
        assert multiset(s) == multiset(s[..k]) + multiset{b} + multiset(s[k + 1..]);
        assert multiset(rest) == multiset(s[..k]) + multiset(s[k + 1..]);
        assert multiset(rest) + multiset{b} == multiset(s) == multiset(bs);
        forall x: Bucket<int> ensures multiset(rest)[x] == multiset(bs[1..])[x] {
          assert (multiset(rest) + multiset{b})[x] == (multiset(bs[1..]) + multiset{b})[x];
        }
      }
      SumsOfPermutation(bs[1..], rest);
      SumsMoveFront(s, k);
    }
  }

  lemma {:induction false} SumsMoveFront(s: seq<Bucket<int>>, k: nat)
    requires k < |s|
    ensures Counts(s) == s[k].count + Counts(s[..k] + s[k + 1..])
    ensures Totals(s) == s[k].total + Totals(s[..k] + s[k + 1..])
    decreases k
  {
    if k > 0 {
      SumsMoveFront(s[1..], k - 1);
      assert s[1..][..k - 1] + s[1..][k..] == (s[..k] + s[k + 1..])[1..];
    } else {
      assert s[..0] + s[1..] == s[1..];
    }
  }

  /** Each day's entry counts exactly the month's transactions processed on that day, and
      totals their amounts with a missing amount counted as 0. */
  lemma DailyCountsPerDay(rows: seq<Payment>, day: int)
    ensures CountOf(DailyTotals(rows), day) == Count(rows, (p: Payment) => DayOf(p) == day)
    ensures TotalOf(DailyTotals(rows), day) == Sum(Filter(rows, (p: Payment) => DayOf(p) == day), AmountOrZero)
  {
    GroupCountPerKey(rows, DayOf, AmountOrZero, day);
    CountSameFilter(rows, HasKey(DayOf, day), (p: Payment) => DayOf(p) == day);
    GroupTotalPerKey(rows, DayOf, AmountOrZero, day);
    FilterSame(rows, HasKey(DayOf, day), (p: Payment) => DayOf(p) == day);
  }
}

/** The proleptic Gregorian calendar as Python's datetime module counts it,
    the ISO 8601 week calendar (section 3.2.2 of ISO 8601:2004) built on it,
    and strptime with the format "%m/%d/%Y".  A day is its ordinal: 1 is
    0001-01-01, a Monday. */
module Calendar {
  import opened Common
  import opened Text

  datatype Date = Date(year: int, month: int, day: int)

  /** (ISO year, ISO week, ISO weekday), as date.isocalendar() returns it. */
  datatype IsoDate = IsoDate(year: int, week: int, weekday: int)

  // ---------------------------------------------------------------- Gregorian dates

  predicate IsLeap(y: int) { y % 4 == 0 && (y % 100 != 0 || y % 400 == 0) }

  function DaysInYear(y: int): int { if IsLeap(y) then 366 else 365 }

  function DaysInMonth(y: int, m: int): (r: int)
    requires 1 <= m <= 12
    ensures 28 <= r <= 31
  {
    if m == 2 then (if IsLeap(y) then 29 else 28)
    else if m == 4 || m == 6 || m == 9 || m == 11 then 30
    else 31
  }

  /** Days in the months of year y before month m. */
  function DaysBeforeMonth(y: int, m: int): (r: int)
    requires 1 <= m <= 12
    ensures r + DaysInMonth(y, m) <= DaysInYear(y)
    ensures m == 12 ==> r + DaysInMonth(y, m) == DaysInYear(y)
  {
    var common :=
      if m <= 6 then
        (if m == 1 then 0 else if m == 2 then 31 else if m == 3 then 59
         else if m == 4 then 90 else if m == 5 then 120 else 151)
      else
        (if m == 7 then 181 else if m == 8 then 212 else if m == 9 then 243
         else if m == 10 then 273 else if m == 11 then 304 else 334);
    common + (if m > 2 && IsLeap(y) then 1 else 0)
  }

  /** Days in the years before year y (floor division, as Python's //). */
  function DaysBeforeYear(y: int): int
  {
    var x := y - 1;
    x * 365 + x / 4 - x / 100 + x / 400
  }

  predicate ValidDate(d: Date)
  {
    1 <= d.month <= 12 && 1 <= d.day <= DaysInMonth(d.year, d.month)
  }

  /** date.toordinal(). */
  function Ordinal(d: Date): int
    requires 1 <= d.month <= 12
  {
    DaysBeforeYear(d.year) + DaysBeforeMonth(d.year, d.month) + d.day
  }

  /** One step of floor division: a+1 enters a new block of k exactly when it is a multiple of k. */
  lemma {:induction false} DivStep(a: int, k: int)
    requires k > 0
    ensures (a + 1) / k - a / k == if (a + 1) % k == 0 then 1 else 0
  {
    var q, r := a / k, a % k;
    assert a == k * q + r && 0 <= r < k;
    if r + 1 < k {
      assert a + 1 == k * q + (r + 1);
      DivModOf(a + 1, k, q, r + 1);
    } else {
      assert a + 1 == k * (q + 1);
      DivModOf(a + 1, k, q + 1, 0);
    }
  }

  lemma {:induction false} DivModOf(a: int, k: int, q: int, r: int)
    requires k > 0 && 0 <= r < k && a == k * q + r
    ensures a / k == q && a % k == r
  {
    var q', r' := a / k, a % k;
    assert a == k * q' + r' && 0 <= r' < k;
    MulMono(k, q + 1, q');
    MulMono(k, q' + 1, q);
  }

  /** Arithmetic helper: multiplying by a positive k keeps the order. */
  lemma {:induction false} MulMono(k: int, a: int, b: int)
    requires k > 0
    ensures a <= b ==> k * a <= k * b
  {
    assert k * b - k * a == k * (b - a);
  }

  /** A year has 365 days, 366 when it is a leap year. */
  lemma {:induction false} YearLength(y: int)
    ensures DaysBeforeYear(y + 1) - DaysBeforeYear(y) == DaysInYear(y)
  {
    var x := y - 1;
    DivStep(x, 4);
    DivStep(x, 100);
    DivStep(x, 400);
    assert (x + 1) % 4 == y % 4 && (x + 1) % 100 == y % 100 && (x + 1) % 400 == y % 400;
    if y % 100 == 0 {
      DivModOf(y, 4, 25 * (y / 100), 0);
    }
    if y % 400 == 0 {
      DivModOf(y, 100, 4 * (y / 400), 0);
    }
  }

  /** A valid date's ordinal lies inside its own year. */
  lemma {:induction false} OrdinalInYear(d: Date)
    requires ValidDate(d)
    ensures DaysBeforeYear(d.year) < Ordinal(d) <= DaysBeforeYear(d.year + 1)
  {
    YearLength(d.year);
  }

  /** The months tile the year: January starts it and each month starts where the previous one ends. */
  lemma {:induction false} MonthsTile(y: int, m: int)
    requires 1 <= m < 12
    ensures DaysBeforeMonth(y, 1) == 0
    ensures DaysBeforeMonth(y, m + 1) == DaysBeforeMonth(y, m) + DaysInMonth(y, m)
  {
  }

  /** A later month starts no earlier than an earlier month ends. */
  lemma {:induction false} MonthsOrdered(y: int, a: int, b: int)
    requires 1 <= a < b <= 12
    ensures DaysBeforeMonth(y, a) + DaysInMonth(y, a) <= DaysBeforeMonth(y, b)
    decreases b - a
  {
    MonthsTile(y, b - 1);
    if a < b - 1 {
      MonthsOrdered(y, a, b - 1);
    }
  }

  /** date.toordinal() is one-to-one on valid dates: distinct dates get distinct day numbers. */
  lemma {:induction false} OrdinalInjective(d: Date, e: Date)
    requires ValidDate(d) && ValidDate(e) && d != e
    ensures Ordinal(d) != Ordinal(e)
  {
    if d.year != e.year {
      var (x, z) := if d.year < e.year then (d, e) else (e, d);
      OrdinalInYear(x);
      OrdinalInYear(z);
      YearsOrdered(x.year + 1, z.year);
    } else if d.month != e.month {
      var (x, z) := if d.month < e.month then (d, e) else (e, d);
      MonthsOrdered(d.year, x.month, z.month);
    }
  }

  // ---------------------------------------------------------------- weekdays

  /** date.isoweekday() of an ordinal: toordinal() % 7 or 7; Monday is 1, Sunday 7. */
  function IsoWeekday(n: int): (r: int)
    ensures 1 <= r <= 7
  {
    if n % 7 == 0 then 7 else n % 7
  }

  /** Days a whole number of weeks apart share their weekday. */
  lemma {:induction false} WeekdayOfOffset(a: int, k: int, d: int)
    requires a % 7 == 1
    ensures IsoWeekday(a + (d - 1) + 7 * k) == IsoWeekday(d)
  {
    DivModOf(a + (d - 1) + 7 * k, 7, a / 7 + k + d / 7, d % 7);
  }

  // ---------------------------------------------------------------- the ISO week calendar

  /** iso_year_start: 4 January of y, stepped back to the Monday of its week.
      DaysBeforeYear(y) + 4 is the ordinal of 4 January of y. */
  function IsoYearStart(y: int): int
  {
    var fourthJan := DaysBeforeYear(y) + 4;
    fourthJan - (IsoWeekday(fourthJan) - 1)
  }

  /** Weekday arithmetic of IsoYearStart, for any day j taken as 4 January. */
  lemma {:induction false} StepBackToMonday(j: int)
    ensures var r := j - (IsoWeekday(j) - 1); r % 7 == 1 && j - 6 <= r <= j
  {
    var r := j - (IsoWeekday(j) - 1);
    DivModOf(r, 7, j / 7 - (if j % 7 == 0 then 1 else 0), 1);
  }

  /** The start of ISO year y is a Monday within six days before 4 January. */
  lemma {:induction false} IsoYearStartIsMonday(y: int)
    ensures IsoYearStart(y) % 7 == 1
    ensures DaysBeforeYear(y) - 2 <= IsoYearStart(y) <= DaysBeforeYear(y) + 4
  {
    StepBackToMonday(DaysBeforeYear(y) + 4);
  }

  /** iso_year_start(y) is a Monday from 29 December of y-1 to 4 January of y. */
  lemma {:induction false} IsoYearStartNearNewYear(y: int)
    ensures IsoWeekday(IsoYearStart(y)) == 1
    ensures Ordinal(Date(y - 1, 12, 29)) <= IsoYearStart(y) <= Ordinal(Date(y, 1, 4))
  {
    IsoYearStartIsMonday(y);
    YearLength(y - 1);
  }

  /** iso_to_gregorian(y, w, d): d-1 days and w-1 weeks after the start of ISO year y. */
  function IsoToGregorian(y: int, w: int, d: int): int
  {
    IsoYearStart(y) + (d - 1) + 7 * (w - 1)
  }

  /** The day iso_to_gregorian(y, w, d) falls on the weekday of d: day d of
      1..7 is the d-th day of the week, and the default iso_day=0 is the
      Sunday before the Monday of week w. */
  lemma {:induction false} IsoToGregorianWeekday(y: int, w: int, d: int)
    ensures IsoWeekday(IsoToGregorian(y, w, d)) == IsoWeekday(d)
    ensures 1 <= d <= 7 ==> IsoWeekday(IsoToGregorian(y, w, d)) == d
    ensures IsoToGregorian(y, w, 0) == IsoToGregorian(y, w, 1) - 1
    ensures IsoWeekday(IsoToGregorian(y, w, 0)) == 7
  {
    IsoYearStartIsMonday(y);
    WeekdaysFromMonday(IsoYearStart(y), w, d);
  }

  lemma {:induction false} WeekdaysFromMonday(a: int, w: int, d: int)
    requires a % 7 == 1
    ensures IsoWeekday(a + (d - 1) + 7 * (w - 1)) == IsoWeekday(d)
    ensures 1 <= d <= 7 ==> IsoWeekday(d) == d
    ensures IsoWeekday(a + (0 - 1) + 7 * (w - 1)) == 7
  {
    WeekdayOfOffset(a, w - 1, d);
    WeekdayOfOffset(a, w - 1, 0);
  }

  /** CPython's iso_week1_monday: the Monday on or before 1 January, moved a
      week later when 1 January is a Friday, Saturday or Sunday. */
  function Week1Monday(y: int): int
  {
    var firstDay := DaysBeforeYear(y) + 1;  // the ordinal of 1 January
    var firstWeekday := (firstDay + 6) % 7;
    var monday := firstDay - firstWeekday;
    if firstWeekday > 3 then monday + 7 else monday
  }

  /** Weekday arithmetic behind IsoYearStartIsWeek1Monday, for any day f taken as 1 January. */
  lemma {:induction false} FirstMondayArith(f: int)
    ensures var fw := (f + 6) % 7;
            (f + 3) - (IsoWeekday(f + 3) - 1) == if fw > 3 then f - fw + 7 else f - fw
  {
    var fw := (f + 6) % 7;
    DivModOf(f + 6, 7, (f + 6) / 7, fw);
    var q := (f + 6) / 7;
    if fw <= 2 {
      DivModOf(f + 3, 7, q - 1, fw + 4);
    } else if fw == 3 {
      DivModOf(f + 3, 7, q, 0);
    } else {
      DivModOf(f + 3, 7, q, fw - 3);
    }
  }

  /** The two definitions of the first Monday of an ISO year agree. */
  lemma {:induction false} IsoYearStartIsWeek1Monday(y: int)
    ensures IsoYearStart(y) == Week1Monday(y)
  {
    FirstMondayArith(DaysBeforeYear(y) + 1);
  }

  /** Number of weeks in ISO year y. */
  function WeeksInYear(y: int): int
  {
    (IsoYearStart(y + 1) - IsoYearStart(y)) / 7
  }

  /** Two Mondays near consecutive New Years are 52 or 53 weeks apart. */
  lemma {:induction false} MondayGap(a: int, b: int, b0: int, b1: int)
    requires a % 7 == 1 && b % 7 == 1
    requires b0 - 2 <= a <= b0 + 4 && b1 - 2 <= b <= b1 + 4 && 365 <= b1 - b0 <= 366
    ensures b - a == 7 * ((b - a) / 7) && (b - a == 364 || b - a == 371)
  {
    DivModOf(b - a, 7, b / 7 - a / 7, 0);
  }

  /** Consecutive ISO years start 52 or 53 whole weeks apart. */
  lemma {:induction false} IsoYearLength(y: int)
    ensures IsoYearStart(y + 1) - IsoYearStart(y) == 7 * WeeksInYear(y)
    ensures WeeksInYear(y) == 52 || WeeksInYear(y) == 53
  {
    YearLength(y);
    IsoYearStartIsMonday(y);
    IsoYearStartIsMonday(y + 1);
    MondayGap(IsoYearStart(y), IsoYearStart(y + 1), DaysBeforeYear(y), DaysBeforeYear(y + 1));
  }

  /** date.isocalendar(), as CPython computes it from the date's own year. */
  function IsoCalendar(d: Date): IsoDate
    requires 1 <= d.month <= 12
  {
    IsoCalendarOfDay(d.year, Ordinal(d))
  }

  /** date_isocalendar for the day with ordinal `today` in Gregorian year `year`. */
  function IsoCalendarOfDay(year: int, today: int): IsoDate
  {
    IsoWeekFrom(year, today, Week1Monday(year - 1), Week1Monday(year), Week1Monday(year + 1))
  }

  /** The body of CPython's date_isocalendar for the day `today` of Gregorian
      year `year`, given the first ISO Mondays of year-1, year and year+1:
      divmod from this year's Monday, one year back when the day precedes it,
      one year on when it is on or after next year's Monday. */
  function IsoWeekFrom(year: int, today: int, prevMonday: int, monday: int, nextMonday: int): IsoDate
  {
    var week := (today - monday) / 7;
    var day := (today - monday) % 7;
    if week < 0 then
      IsoDate(year - 1, (today - prevMonday) / 7 + 1, (today - prevMonday) % 7 + 1)
    else if week >= 52 && today >= nextMonday then
      IsoDate(year + 1, 1, day + 1)
    else
      IsoDate(year, week + 1, day + 1)
  }

  /** Days before the start of a year grow by at least 365 a year. */
  lemma {:induction false} YearsOrdered(a: int, b: int)
    requires a <= b
    ensures DaysBeforeYear(b) - DaysBeforeYear(a) >= 365 * (b - a)
    decreases b - a
  {
    if a < b {
      YearsOrdered(a, b - 1);
      YearLength(b - 1);
    }
  }

  /** The facts about Gregorian year gy that IsoWeekFrom relies on, over plain integers:
      n is a day of the year (b0, b1], and p, m, q are the ISO year starts of
      gy-1, gy, gy+1. */
  predicate YearFrame(n: int, b0: int, b1: int, p: int, m: int, q: int)
  {
    && b0 < n <= b1
    && 365 <= b1 - b0 <= 366
    && b0 - 2 <= m <= b0 + 4 && b1 - 2 <= q <= b1 + 4
    && (m - p == 364 || m - p == 371) && (q - m == 364 || q - m == 371)
  }

  lemma {:induction false} Week1MondayNearNewYear(y: int)
    ensures DaysBeforeYear(y) - 2 <= Week1Monday(y) <= DaysBeforeYear(y) + 4
  {
    IsoYearStartIsMonday(y);
    IsoYearStartIsWeek1Monday(y);
  }

  lemma {:induction false} Week1MondayGap(y: int)
    ensures var g := Week1Monday(y + 1) - Week1Monday(y); g == 364 || g == 371
  {
    IsoYearLength(y);
    IsoYearStartIsWeek1Monday(y);
    IsoYearStartIsWeek1Monday(y + 1);
  }

  lemma {:induction false} YearFrameOf(gy: int, n: int)
    requires DaysBeforeYear(gy) < n <= DaysBeforeYear(gy + 1)
    ensures YearFrame(n, DaysBeforeYear(gy), DaysBeforeYear(gy + 1),
                      Week1Monday(gy - 1), Week1Monday(gy), Week1Monday(gy + 1))
  {
    YearLength(gy);
    Week1MondayNearNewYear(gy);
    Week1MondayNearNewYear(gy + 1);
    Week1MondayGap(gy - 1);
    Week1MondayGap(gy);
  }

  /** IsoWeekFrom recovers week w, weekday d of the ISO year starting at s,
      whichever of the three candidate years s belongs to. */
  lemma {:induction false} IsoWeekFromArith(gy: int, n: int, b0: int, b1: int, p: int, m: int, q: int,
                         k: int, s: int, s': int, w: int, d: int)
    requires YearFrame(n, b0, b1, p, m, q)
    requires k == -1 || k == 0 || k == 1
    requires k == -1 ==> s == p && s' == m
    requires k == 0 ==> s == m && s' == q
    requires k == 1 ==> s == q && s' - q >= 364
    requires 1 <= d <= 7 && 1 <= w && n == s + 7 * (w - 1) + (d - 1) && n < s'
    ensures IsoWeekFrom(gy, n, p, m, q) == IsoDate(gy + k, w, d)
  {
    DivModOf(n - s, 7, w - 1, d - 1);
    if k == 1 {
      DivModOf(n - m, 7, (q - m) / 7, d - 1);
    } else if k == -1 {
      DivModOf(n - m, 7, -1, n - m + 7);
    }
  }

  /** A day of Gregorian year gy lies in ISO year gy-1, gy or gy+1. */
  lemma {:induction false} IsoYearNearGregorianYear(y: int, gy: int, n: int)
    requires IsoYearStart(y) <= n < IsoYearStart(y + 1)
    requires DaysBeforeYear(gy) < n <= DaysBeforeYear(gy + 1)
    ensures gy - 1 <= y <= gy + 1
  {
    IsoYearStartIsMonday(y);
    IsoYearStartIsMonday(y + 1);
    if gy + 2 <= y {
      YearsOrdered(gy + 2, y);
      YearLength(gy + 1);
    } else if y <= gy - 2 {
      YearsOrdered(y + 1, gy - 1);
      YearLength(gy - 1);
    }
  }

  /** The facts the round trip needs, over plain integers: day n lies in
      ISO year y, which starts at s and is `weeks` weeks long, and y is one
      of gy-1, gy, gy+1 with its start among p, m, q. */
  predicate RoundTripFrame(y: int, w: int, d: int, gy: int, n: int, weeks: int,
                           s: int, s': int, b0: int, b1: int, p: int, m: int, q: int)
  {
    && YearFrame(n, b0, b1, p, m, q)
    && s' - s == 7 * weeks && (weeks == 52 || weeks == 53)
    && 1 <= d <= 7 && 1 <= w <= weeks && n == s + 7 * (w - 1) + (d - 1)
    && gy - 1 <= y <= gy + 1
    && (y == gy - 1 ==> s == p && s' == m)
    && (y == gy ==> s == m && s' == q)
    && (y == gy + 1 ==> s == q)
  }

  lemma {:induction false} RoundTripArith(y: int, w: int, d: int, gy: int, n: int, weeks: int,
                         s: int, s': int, b0: int, b1: int, p: int, m: int, q: int)
    requires RoundTripFrame(y, w, d, gy, n, weeks, s, s', b0, b1, p, m, q)
    ensures IsoWeekFrom(gy, n, p, m, q) == IsoDate(y, w, d)
  {
    IsoWeekFromArith(gy, n, b0, b1, p, m, q, y - gy, s, s', w, d);
  }

  /** Round trip on a day n of Gregorian year gy. */
  lemma {:induction false} IsoCalendarOfDayRoundTrip(y: int, w: int, d: int, gy: int, n: int)
    requires 1 <= d <= 7 && 1 <= w <= WeeksInYear(y) && n == IsoToGregorian(y, w, d)
    requires DaysBeforeYear(gy) < n <= DaysBeforeYear(gy + 1)
    ensures IsoCalendarOfDay(gy, n) == IsoDate(y, w, d)
  {
    var s, s' := IsoYearStart(y), IsoYearStart(y + 1);
    var weeks := WeeksInYear(y);
    var b0, b1 := DaysBeforeYear(gy), DaysBeforeYear(gy + 1);
    var p, m, q := Week1Monday(gy - 1), Week1Monday(gy), Week1Monday(gy + 1);
    assert RoundTripFrame(y, w, d, gy, n, weeks, s, s', b0, b1, p, m, q) by {
      YearFrameOf(gy, n);
      IsoYearLength(y);
      IsoYearNearGregorianYear(y, gy, n);
      IsoYearStartIsWeek1Monday(y);
      IsoYearStartIsWeek1Monday(y + 1);
    }
    RoundTripArith(y, w, d, gy, n, weeks, s, s', b0, b1, p, m, q);
  }

  /** Round trip: the ISO calendar date of iso_to_gregorian(y, w, d) is (y, w, d),
      for every weekday 1..7 and every week that ISO year y has. */
  lemma {:induction false} IsoCalendarOfIsoToGregorian(y: int, w: int, d: int, date: Date)
    requires 1 <= d <= 7 && 1 <= w <= WeeksInYear(y)
    requires ValidDate(date) && Ordinal(date) == IsoToGregorian(y, w, d)
    ensures IsoCalendar(date) == IsoDate(y, w, d)
  {
    OrdinalInYear(date);
    IsoCalendarOfDayRoundTrip(y, w, d, date.year, Ordinal(date));
  }

  /** What IsoWeekFrom returns: a weekday 1..7 and a week counted from one of the three ISO year starts. */
  lemma {:induction false} IsoWeekFromCases(gy: int, n: int, b0: int, b1: int, p: int, m: int, q: int)
    requires YearFrame(n, b0, b1, p, m, q)
    ensures var c := IsoWeekFrom(gy, n, p, m, q);
            && 1 <= c.weekday <= 7 && 1 <= c.week
            && (|| (c.year == gy - 1 && n == p + 7 * (c.week - 1) + c.weekday - 1 && c.week <= (m - p) / 7)
                || (c.year == gy && n == m + 7 * (c.week - 1) + c.weekday - 1 && c.week <= (q - m) / 7)
                || (c.year == gy + 1 && c.week == 1 && n == q + c.weekday - 1))
  {
    var c := IsoWeekFrom(gy, n, p, m, q);
    var week, day := (n - m) / 7, (n - m) % 7;
    assert n - m == 7 * week + day;
    if week < 0 {
      var k := n - p;
      assert k == 7 * (k / 7) + k % 7;
      DivModOf(m - p, 7, (m - p) / 7, 0);
    } else if week >= 52 && n >= q {
      DivModOf(q - m, 7, (q - m) / 7, 0);
      assert n - q == 7 * (week - (q - m) / 7) + day;
    } else {
      DivModOf(q - m, 7, (q - m) / 7, 0);
    }
  }

  /** The facts the inverse needs, over plain integers: what IsoWeekFrom
      returned (year cy, week cw, weekday cd), and the start s and length
      `weeks` of ISO year cy, among p, m, q. */
  predicate InverseFrame(gy: int, n: int, cy: int, cw: int, cd: int, weeks: int,
                         s: int, s': int, p: int, m: int, q: int)
  {
    && 1 <= cd <= 7 && 1 <= cw
    && (|| (cy == gy - 1 && n == p + 7 * (cw - 1) + cd - 1 && cw <= (m - p) / 7)
        || (cy == gy && n == m + 7 * (cw - 1) + cd - 1 && cw <= (q - m) / 7)
        || (cy == gy + 1 && cw == 1 && n == q + cd - 1))
    && s' - s == 7 * weeks && (weeks == 52 || weeks == 53) && s % 7 == 1
    && (cy == gy - 1 ==> s == p && s' == m)
    && (cy == gy ==> s == m && s' == q)
    && (cy == gy + 1 ==> s == q)
  }

  lemma {:induction false} InverseArith(gy: int, n: int, cy: int, cw: int, cd: int, weeks: int,
                         s: int, s': int, p: int, m: int, q: int)
    requires InverseFrame(gy, n, cy, cw, cd, weeks, s, s', p, m, q)
    ensures 1 <= cw <= weeks && n == s + (cd - 1) + 7 * (cw - 1)
    ensures IsoWeekday(n) == cd
  {
    WeekdayOfOffset(s, cw - 1, cd);
    if cy == gy - 1 {
      DivModOf(m - p, 7, weeks, 0);
    } else if cy == gy {
      DivModOf(q - m, 7, weeks, 0);
    }
  }

  /** What IsoCalendarOfDay returns for the day n of Gregorian year gy, as
      (y, w, d) with the week counted from one of the three year starts. */
  lemma {:induction false} IsoWeekOfDay(gy: int, n: int) returns (y: int, w: int, d: int)
    requires DaysBeforeYear(gy) < n <= DaysBeforeYear(gy + 1)
    ensures IsoCalendarOfDay(gy, n) == IsoDate(y, w, d)
    ensures var p, m, q := Week1Monday(gy - 1), Week1Monday(gy), Week1Monday(gy + 1);
            && 1 <= d <= 7 && 1 <= w
            && (|| (y == gy - 1 && n == p + 7 * (w - 1) + d - 1 && w <= (m - p) / 7)
                || (y == gy && n == m + 7 * (w - 1) + d - 1 && w <= (q - m) / 7)
                || (y == gy + 1 && w == 1 && n == q + d - 1))
  {
    var p, m, q := Week1Monday(gy - 1), Week1Monday(gy), Week1Monday(gy + 1);
    var c := IsoWeekFrom(gy, n, p, m, q);
    y, w, d := c.year, c.week, c.weekday;
    YearFrameOf(gy, n);
    IsoWeekFromCases(gy, n, DaysBeforeYear(gy), DaysBeforeYear(gy + 1), p, m, q);
  }

  /** Where ISO year y starts and how long it lasts, over plain integers. */
  lemma {:induction false} IsoYearFacts(y: int)
    ensures var s, s', weeks := IsoYearStart(y), IsoYearStart(y + 1), WeeksInYear(y);
            s' - s == 7 * weeks && (weeks == 52 || weeks == 53) && s % 7 == 1
  {
    IsoYearLength(y);
    IsoYearStartIsMonday(y);
  }

  /** A year y next to gy starts at the matching first Monday. */
  lemma {:induction false} NeighbourStarts(gy: int, y: int)
    ensures var s, s' := IsoYearStart(y), IsoYearStart(y + 1);
            var p, m, q := Week1Monday(gy - 1), Week1Monday(gy), Week1Monday(gy + 1);
            && (y == gy - 1 ==> s == p && s' == m)
            && (y == gy ==> s == m && s' == q)
            && (y == gy + 1 ==> s == q)
  {
    IsoYearStartIsWeek1Monday(gy - 1);
    IsoYearStartIsWeek1Monday(gy);
    IsoYearStartIsWeek1Monday(gy + 1);
  }

  /** The integer facts behind the inverse, for the day n of Gregorian year
      gy: IsoCalendarOfDay returns (y, w, d), and y starts at one of the
      three candidate Mondays. */
  lemma {:induction false} InverseFrameOf(gy: int, n: int) returns (y: int, w: int, d: int)
    requires DaysBeforeYear(gy) < n <= DaysBeforeYear(gy + 1)
    ensures IsoCalendarOfDay(gy, n) == IsoDate(y, w, d)
    ensures InverseFrame(gy, n, y, w, d, WeeksInYear(y), IsoYearStart(y), IsoYearStart(y + 1),
                         Week1Monday(gy - 1), Week1Monday(gy), Week1Monday(gy + 1))
  {
    y, w, d := IsoWeekOfDay(gy, n);
    IsoYearFacts(y);
    NeighbourStarts(gy, y);
  }

  /** The other direction on a day n of Gregorian year gy. */
  lemma {:induction false} IsoCalendarOfDayInverse(gy: int, n: int)
    requires DaysBeforeYear(gy) < n <= DaysBeforeYear(gy + 1)
    ensures var c := IsoCalendarOfDay(gy, n);
            && 1 <= c.weekday <= 7 && c.weekday == IsoWeekday(n)
            && 1 <= c.week <= WeeksInYear(c.year)
            && IsoToGregorian(c.year, c.week, c.weekday) == n
  {
    var y, w, d := InverseFrameOf(gy, n);
    InverseArith(gy, n, y, w, d, WeeksInYear(y), IsoYearStart(y), IsoYearStart(y + 1),
                 Week1Monday(gy - 1), Week1Monday(gy), Week1Monday(gy + 1));
  }

  /** Round trip the other way: isocalendar() yields a weekday 1..7 equal to
      isoweekday(), a week the ISO year has, and iso_to_gregorian maps it back
      to the same day. */
  lemma {:induction false} IsoToGregorianOfIsoCalendar(date: Date)
    requires ValidDate(date)
    ensures var c := IsoCalendar(date);
            && 1 <= c.weekday <= 7 && c.weekday == IsoWeekday(Ordinal(date))
            && 1 <= c.week <= WeeksInYear(c.year)
            && IsoToGregorian(c.year, c.week, c.weekday) == Ordinal(date)
  {
    OrdinalInYear(date);
    IsoCalendarOfDayInverse(date.year, Ordinal(date));
  }

  /** The week number isocalendar() gives is 1..53. */
  lemma {:induction false} IsoWeekRange(date: Date)
    requires ValidDate(date)
    ensures 1 <= IsoCalendar(date).week <= 53
  {
    IsoToGregorianOfIsoCalendar(date);
    IsoYearLength(IsoCalendar(date).year);
  }

  /** The week label weekly_counts gives a day: iso_to_gregorian of its
      (ISO year, ISO week) with the default iso_day=0. */
  function WeekLabel(date: Date): int
    requires 1 <= date.month <= 12
  {
    var c := IsoCalendar(date);
    IsoToGregorian(c.year, c.week, 0)
  }

  /** The label is the Sunday just before the Monday of the day's ISO week,
      not that Monday. */
  lemma {:induction false} WeekLabelIsSundayBefore(date: Date)
    requires ValidDate(date)
    ensures WeekLabel(date) == Ordinal(date) - IsoWeekday(Ordinal(date))
    ensures IsoWeekday(WeekLabel(date)) == 7
  {
    IsoToGregorianOfIsoCalendar(date);
    var c := IsoCalendar(date);
    IsoToGregorianWeekday(c.year, c.week, 0);
  }

  // ---------------------------------------------------------------- strptime(s, "%m/%d/%Y")

  /** %m: "1".."9", "01".."09" or "10".."12". */
  predicate MonthField(t: string)
  {
    || (|t| == 1 && IsDigit(t[0]) && t[0] != '0')
    || (|t| == 2 && AllDigits(t) && 1 <= DigitsValue(t) <= 12)
  }

  /** %d: "1".."9", " 1".." 9", or "01".."31". */
  predicate DayField(t: string)
  {
    || (|t| == 1 && IsDigit(t[0]) && t[0] != '0')
    || (|t| == 2 && t[0] == ' ' && IsDigit(t[1]) && t[1] != '0')
    || (|t| == 2 && AllDigits(t) && 1 <= DigitsValue(t) <= 31)
  }

  /** %Y: exactly four digits. */
  predicate YearField(t: string)
  {
    |t| == 4 && AllDigits(t)
  }

  function FieldValue(t: string): int
    requires MonthField(t) || DayField(t) || YearField(t)
  {
    if |t| == 2 && t[0] == ' ' then DigitValue(t[1]) else DigitsValue(t)
  }

  /** datetime.strptime(s, '%m/%d/%Y'): None where strptime raises ValueError
      (no match, text left over, year 0, or a day the month does not have). */
  function ParseDate(s: string): (r: Option<Date>)
    ensures r.Some? ==> ValidDate(r.value) && 1 <= r.value.year <= 9999
  {
    var parts := Split(s, '/');
    if |parts| == 3 && MonthField(parts[0]) && DayField(parts[1]) && YearField(parts[2]) then
      var date := Date(FieldValue(parts[2]), FieldValue(parts[0]), FieldValue(parts[1]));
      if 1 <= date.year && date.day <= DaysInMonth(date.year, date.month) then Some(date) else None
    else None
  }

  /** Two decimal digits. */
  function TwoDigits(n: int): string
    requires 0 <= n < 100
  {
    [DigitChar(n / 10), DigitChar(n % 10)]
  }

  /** Four decimal digits. */
  function FourDigits(n: int): string
    requires 0 <= n < 10000
  {
    [DigitChar(n / 1000), DigitChar(n / 100 % 10), DigitChar(n / 10 % 10), DigitChar(n % 10)]
  }

  /** date.strftime('%m/%d/%Y'). */
  function FormatDate(d: Date): string
    requires ValidDate(d) && 0 <= d.year < 10000
  {
    TwoDigits(d.month) + "/" + TwoDigits(d.day) + "/" + FourDigits(d.year)
  }

  lemma {:induction false} TwoDigitsValue(n: int)
    requires 0 <= n < 100
    ensures AllDigits(TwoDigits(n)) && DigitsValue(TwoDigits(n)) == n
  {
    var t := TwoDigits(n);
    assert t[..1][..0] == [];
  }

  lemma {:induction false} FourDigitsValue(n: int)
    requires 0 <= n < 10000
    ensures AllDigits(FourDigits(n)) && DigitsValue(FourDigits(n)) == n
  {
    var t := FourDigits(n);
    var a, b, c, e := n / 1000, n / 100 % 10, n / 10 % 10, n % 10;
    assert n / 100 == 10 * (n / 100 / 10) + b;
    assert n / 10 == 10 * (n / 10 / 10) + c;
    assert n == 10 * (n / 10) + e;
    DivModOf(n, 100, n / 10 / 10, c * 10 + e);
    DivModOf(n, 1000, n / 100 / 10, b * 100 + c * 10 + e);
    assert n == 1000 * a + 100 * b + 10 * c + e;
    assert t[..3] == [t[0], t[1], t[2]];
    assert t[..3][..2] == [t[0], t[1]];
    assert t[..3][..2][..1] == [t[0]];
    assert t[..3][..2][..1][..0] == [];
    assert DigitsValue(t[..3][..2][..1]) == a;
    assert DigitsValue(t[..3][..2]) == a * 10 + b;
    assert DigitsValue(t[..3]) == (a * 10 + b) * 10 + c;
    assert DigitsValue(t) == ((a * 10 + b) * 10 + c) * 10 + e;
  }

  /** Every real date of years 1..9999, written as MM/DD/YYYY, is read back by strptime. */
  lemma {:induction false} ParseFormatRoundTrip(d: Date)
    requires ValidDate(d) && 1 <= d.year <= 9999
    ensures ParseDate(FormatDate(d)) == Some(d)
  {
    var mm, dd, yyyy := TwoDigits(d.month), TwoDigits(d.day), FourDigits(d.year);
    TwoDigitsValue(d.month);
    TwoDigitsValue(d.day);
    FourDigitsValue(d.year);
    assert forall i :: 0 <= i < 2 ==> mm[i] != '/' && dd[i] != '/';
    assert forall i :: 0 <= i < 4 ==> yyyy[i] != '/';
    SplitThree(mm, dd, yyyy, '/');
  }

  /** week_of_date: the ISO week number of an MM/DD/YYYY date; ValueError when
      strptime rejects the text. */
  function WeekOfDate(s: string): (r: Result<int>)
    ensures r.Ok? <==> ParseDate(s).Some?
    ensures r.Err? ==> r.error == ValueError
    ensures r.Ok? ==> 1 <= r.value <= 53 && r.value == IsoCalendar(ParseDate(s).value).week
  {
    match ParseDate(s)
    case None => Err(ValueError)
    case Some(d) => IsoWeekRange(d); Ok(IsoCalendar(d).week)
  }
}

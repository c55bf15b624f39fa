/** The proleptic Gregorian calendar that .NET's DateTime and DateTimeOffset
    use, on whole seconds of one reference clock (offset zero).  Day numbers
    count from 0001-01-01, which is day 0 and a Monday; the representable
    range ends at 9999-12-31T23:59:59. */
module Calendar {
  import opened Results

  /** An instant: whole seconds since 0001-01-01T00:00:00 on the reference clock. */
  type Instant = int

  const SecondsPerMinute: int := 60
  const SecondsPerHour: int := 3600
  const SecondsPerDay: int := 86400
  /** Days from 0001-01-01 to 10000-01-01, the first day DateTime cannot hold. */
  const DaysTo10000: int := 3652059
  /** 9999-12-31T23:59:59, the last whole second DateTime can hold. */
  const MaxInstant: int := DaysTo10000 * SecondsPerDay - 1

  /** DayOfWeek.Sunday, the value the week arithmetic is anchored on. */
  const Sunday: int := 0

  predicate InRange(t: int) {
    0 <= t <= MaxInstant
  }

  predicate IsLeapYear(year: int) {
    year % 4 == 0 && (year % 100 != 0 || year % 400 == 0)
  }

  function DaysInYear(year: int): int {
    if IsLeapYear(year) then 366 else 365
  }

  /** Days in the year before the first of `month` (13 stands for the end of
      the year): DateTime's DaysToMonth365 and DaysToMonth366 tables. */
  function DaysToMonth(year: int, month: int): (n: int)
    requires 1 <= month <= 13
    ensures month == 1 ==> n == 0
    ensures month == 13 ==> n == DaysInYear(year)
  {
    var table :=
      if IsLeapYear(year) then [0, 31, 60, 91, 121, 152, 182, 213, 244, 274, 305, 335, 366]
      else [0, 31, 59, 90, 120, 151, 181, 212, 243, 273, 304, 334, 365];
    table[month - 1]
  }

  /** DateTime.DaysInMonth: the difference of two consecutive table entries,
      which agrees with the usual rule for the length of each month. */
  function DaysInMonth(year: int, month: int): (n: int)
    requires 1 <= month <= 12
    ensures n == if month == 2 then (if IsLeapYear(year) then 29 else 28)
                 else if month == 4 || month == 6 || month == 9 || month == 11 then 30
                 else 31
  {
    DaysToMonth(year, month + 1) - DaysToMonth(year, month)
  }

  /** Days from 0001-01-01 to January 1 of `year`: the lengths of the years before it. */
  function DaysToYear(year: int): int
    requires 1 <= year
  {
    if year == 1 then 0 else DaysToYear(year - 1) + DaysInYear(year - 1)
  }

  /** DateTime's closed form for the same count, with one leap day every four
      years except centuries not divisible by 400. */
  function ClosedFormDaysToYear(year: int): int
    requires 1 <= year
  {
    var y := year - 1;
    y * 365 + y / 4 - y / 100 + y / 400
  }

  lemma ClosedFormStep(year: int)
    requires 1 <= year
    ensures ClosedFormDaysToYear(year + 1) == ClosedFormDaysToYear(year) + DaysInYear(year)
  {
    var y := year - 1;
    assert year / 4 - y / 4 == if year % 4 == 0 then 1 else 0;
    assert year / 100 - y / 100 == if year % 100 == 0 then 1 else 0;
    assert year / 400 - y / 400 == if year % 400 == 0 then 1 else 0;
  }

  /** The recursive count agrees with DateTime's closed form for every year. */
  lemma {:induction false} DaysToYearClosedForm(year: int)
    requires 1 <= year
    ensures DaysToYear(year) == ClosedFormDaysToYear(year)
  {
    if year > 1 {
      DaysToYearClosedForm(year - 1);
      ClosedFormStep(year - 1);
    }
  }

  lemma DaysToYearStep(year: int)
    requires 1 <= year
    ensures DaysToYear(year + 1) == DaysToYear(year) + DaysInYear(year)
  {
  }

  lemma {:induction false} DaysToYearMonotone(a: int, b: int)
    requires 1 <= a <= b
    ensures DaysToYear(a) + 365 * (b - a) <= DaysToYear(b)
    decreases b - a
  {
    if a < b {
      DaysToYearMonotone(a, b - 1);
      DaysToYearStep(b - 1);
    }
  }

  lemma DaysTo10000IsDaysToYear()
    ensures DaysToYear(10000) == DaysTo10000
  {
    DaysToYearClosedForm(10000);
  }

  /** The year a day number falls in, found by stepping forward from `year`. */
  function YearFrom(year: int, n: int): (y: int)
    requires 1 <= year && DaysToYear(year) <= n
    ensures year <= y && DaysToYear(y) <= n < DaysToYear(y + 1)
    decreases n - DaysToYear(year)
  {
    DaysToYearStep(year);
    if n < DaysToYear(year + 1) then year else YearFrom(year + 1, n)
  }

  /** The month a day-of-year offset `k` falls in, stepping forward from `month`. */
  function MonthFrom(year: int, month: int, k: int): (m: int)
    requires 1 <= month <= 12 && DaysToMonth(year, month) <= k < DaysInYear(year)
    ensures month <= m <= 12 && DaysToMonth(year, m) <= k < DaysToMonth(year, m + 1)
    decreases 12 - month
  {
    if k < DaysToMonth(year, month + 1) then month else MonthFrom(year, month + 1, k)
  }

  lemma YearUnique(a: int, b: int, n: int)
    requires 1 <= a && DaysToYear(a) <= n < DaysToYear(a + 1)
    requires 1 <= b && DaysToYear(b) <= n < DaysToYear(b + 1)
    ensures a == b
  {
    if a < b {
      DaysToYearMonotone(a + 1, b);
    } else if b < a {
      DaysToYearMonotone(b + 1, a);
    }
  }

  lemma {:induction false} DaysToMonthMonotone(year: int, a: int, b: int)
    requires 1 <= a <= b <= 13
    ensures DaysToMonth(year, a) + 28 * (b - a) <= DaysToMonth(year, b)
    decreases b - a
  {
    if a < b {
      DaysToMonthMonotone(year, a, b - 1);
      assert DaysToMonth(year, b) - DaysToMonth(year, b - 1) == DaysInMonth(year, b - 1);
    }
  }

  lemma MonthUnique(year: int, a: int, b: int, k: int)
    requires 1 <= a <= 12 && DaysToMonth(year, a) <= k < DaysToMonth(year, a + 1)
    requires 1 <= b <= 12 && DaysToMonth(year, b) <= k < DaysToMonth(year, b + 1)
    ensures a == b
  {
    if a < b {
      DaysToMonthMonotone(year, a + 1, b);
    } else if b < a {
      DaysToMonthMonotone(year, b + 1, a);
    }
  }

  /** A calendar date. */
  datatype Date = Date(year: int, month: int, day: int)

  /** A date DateTime can hold. */
  predicate ValidDate(d: Date) {
    && 1 <= d.year <= 9999
    && 1 <= d.month <= 12
    && 1 <= d.day <= DaysInMonth(d.year, d.month)
  }

  /** The day number of a date (DateTime's DateToTicks divided by a day). */
  function DaysOf(d: Date): (n: int)
    requires ValidDate(d)
    ensures 0 <= n < DaysTo10000
    ensures DaysToYear(d.year) <= n < DaysToYear(d.year + 1)
  {
    DaysToYearStep(d.year);
    DaysToYearMonotone(1, d.year);
    DaysToYearMonotone(d.year + 1, 10000);
    DaysTo10000IsDaysToYear();
    DaysToMonthMonotone(d.year, d.month + 1, 13);
    DaysToYear(d.year) + DaysToMonth(d.year, d.month) + d.day - 1
  }

  /** The date of a day number: the inverse of DaysOf. */
  function DateOfDay(n: int): (d: Date)
    requires 0 <= n < DaysTo10000
    ensures ValidDate(d) && DaysOf(d) == n
  {
    var y := YearFrom(1, n);
    if 10000 <= y then
      DaysToYearMonotone(10000, y);
      DaysTo10000IsDaysToYear();
      assert false;
      Date(1, 1, 1)
    else
      DaysToYearStep(y);
      var k := n - DaysToYear(y);
      var m := MonthFrom(y, 1, k);
      Date(y, m, k - DaysToMonth(y, m) + 1)
  }

  lemma DaysOfInjective(d: Date, e: Date)
    requires ValidDate(d) && ValidDate(e) && DaysOf(d) == DaysOf(e)
    ensures d == e
  {
    var n := DaysOf(d);
    YearUnique(d.year, e.year, n);
    var k := n - DaysToYear(d.year);
    MonthUnique(d.year, d.month, e.month, k);
  }

  /** Round trip the other way: every valid date is the date of its day number. */
  lemma DateOfDaysOf(d: Date)
    requires ValidDate(d)
    ensures DateOfDay(DaysOf(d)) == d
  {
    DaysOfInjective(DateOfDay(DaysOf(d)), d);
  }

  /** The calendar day after `d`, by the usual rule of rolling over the month and year. */
  function NextDate(d: Date): Date
    requires ValidDate(d)
  {
    if d.day < DaysInMonth(d.year, d.month) then Date(d.year, d.month, d.day + 1)
    else if d.month < 12 then Date(d.year, d.month + 1, 1)
    else Date(d.year + 1, 1, 1)
  }

  /** The day after a valid date, other than 9999-12-31, has the next day number. */
  lemma DaysOfNextDate(d: Date)
    requires ValidDate(d) && DaysOf(d) + 1 < DaysTo10000
    ensures ValidDate(NextDate(d)) && DaysOf(NextDate(d)) == DaysOf(d) + 1
  {
    if d.day == DaysInMonth(d.year, d.month) && d.month == 12 {
      YearRollover(d);
    }
  }

  lemma YearRollover(d: Date)
    requires ValidDate(d) && DaysOf(d) + 1 < DaysTo10000
    requires d.month == 12 && d.day == 31
    ensures d.year < 9999 && DaysOf(Date(d.year + 1, 1, 1)) == DaysOf(d) + 1
  {
    DaysToYearStep(d.year);
    var n := DaysOf(d);
    assert n + 1 == DaysToYear(d.year + 1);
    if d.year == 9999 {
      DaysTo10000IsDaysToYear();
      assert false;
    }
    var e := Date(d.year + 1, 1, 1);
    assert DaysToMonth(e.year, e.month) == 0;
    assert DaysOf(e) == DaysToYear(d.year + 1);
  }

  /** Consecutive day numbers are consecutive calendar dates. */
  lemma DayAfter(n: int)
    requires 0 <= n && n + 1 < DaysTo10000
    ensures DateOfDay(n + 1) == NextDate(DateOfDay(n))
  {
    var d := DateOfDay(n);
    DaysOfNextDate(d);
    DateOfDaysOf(NextDate(d));
  }

  /** The date of every day between the first and the last of a month lies in that month. */
  lemma DayInMonth(year: int, month: int, n: int)
    requires 1 <= year <= 9999 && 1 <= month <= 12
    requires DaysOf(Date(year, month, 1)) <= n <= DaysOf(Date(year, month, DaysInMonth(year, month)))
    ensures DateOfDay(n).year == year && DateOfDay(n).month == month
  {
    var d := Date(year, month, n - DaysOf(Date(year, month, 1)) + 1);
    assert DaysOf(d) == n;
    DateOfDaysOf(d);
  }

  /** The date of every day between January 1 and December 31 of a year lies in that year. */
  lemma DayInYear(year: int, n: int)
    requires 1 <= year <= 9999
    requires DaysOf(Date(year, 1, 1)) <= n <= DaysOf(Date(year, 12, 31))
    ensures DateOfDay(n).year == year
  {
    var d := DateOfDay(n);
    DaysToYearStep(year);
    YearUnique(d.year, year, n);
  }

  // Instants

  /** The day number of an instant. */
  function DayNumber(t: Instant): int {
    t / SecondsPerDay
  }

  /** `t.Date`: the instant truncated to its midnight. */
  function Midnight(t: Instant): (r: Instant)
    ensures r <= t < r + SecondsPerDay && r % SecondsPerDay == 0
    ensures DayNumber(r) == DayNumber(t)
  {
    DayNumber(t) * SecondsPerDay
  }

  /** `t.DayOfWeek` with Sunday = 0, Monday = 1, ..., Saturday = 6. */
  function DayOfWeek(t: Instant): (w: int)
    ensures 0 <= w < 7
  {
    (DayNumber(t) + 1) % 7
  }

  /** 0001-01-01, day 0, is a Monday, as in the proleptic Gregorian calendar. */
  lemma FirstDayIsMonday()
    ensures DayOfWeek(0) == 1
  {
  }

  /** One day later is one weekday later, Saturday (6) wrapping to Sunday (0). */
  lemma DayOfWeekStep(t: Instant)
    requires 0 <= t
    ensures DayOfWeek(t + SecondsPerDay) == (DayOfWeek(t) + 1) % 7
  {
    assert DayNumber(t + SecondsPerDay) == DayNumber(t) + 1;
  }

  /** The numbering agrees with the real calendar: 2023-01-01 was a Sunday. */
  lemma KnownSunday()
    ensures DayOfWeek(DaysOf(Date(2023, 1, 1)) * SecondsPerDay) == Sunday
  {
    DaysToYearClosedForm(2023);
    assert DaysToYear(2023) == 738520;
  }

  /** The calendar date of an instant. */
  function DateOf(t: Instant): (d: Date)
    requires InRange(t)
    ensures ValidDate(d) && DaysOf(d) == DayNumber(t)
  {
    DateOfDay(DayNumber(t))
  }

  /** The instant at `hour:minute:second` on date `d`. */
  function ToInstant(d: Date, hour: int, minute: int, second: int): (t: Instant)
    requires ValidDate(d) && 0 <= hour < 24 && 0 <= minute < 60 && 0 <= second < 60
    ensures InRange(t) && DateOf(t) == d
    ensures t % SecondsPerDay == hour * SecondsPerHour + minute * SecondsPerMinute + second
  {
    var t := DaysOf(d) * SecondsPerDay + hour * SecondsPerHour + minute * SecondsPerMinute + second;
    assert DayNumber(t) == DaysOf(d);
    DateOfDaysOf(d);
    t
  }

  /** `new DateTimeOffset(year, month, day, hour, minute, second, offset)`,
      which throws ArgumentOutOfRangeException (None) for a date or time of
      day that does not exist or a year outside 1..9999. */
  function MakeInstant(year: int, month: int, day: int, hour: int, minute: int, second: int): (r: Option<Instant>)
    ensures r.Some? <==> (1 <= year <= 9999 && 1 <= month <= 12 && 1 <= day <= DaysInMonth(year, month)
                          && 0 <= hour < 24 && 0 <= minute < 60 && 0 <= second < 60)
    ensures r.Some? ==> InRange(r.value) && DateOf(r.value) == Date(year, month, day)
  {
    if 1 <= year <= 9999 && 1 <= month <= 12 && 1 <= day <= DaysInMonth(year, month)
       && 0 <= hour < 24 && 0 <= minute < 60 && 0 <= second < 60
    then Some(ToInstant(Date(year, month, day), hour, minute, second))
    else None
  }

  /** `t.AddDays(days)`, which throws ArgumentOutOfRangeException (None) when
      the result leaves the representable range. */
  function AddDays(t: Instant, days: int): (r: Option<Instant>)
    ensures r.Some? <==> InRange(t + days * SecondsPerDay)
    ensures r.Some? ==> DayNumber(r.value) == DayNumber(t) + days
                        && r.value % SecondsPerDay == t % SecondsPerDay
  {
    var u := t + days * SecondsPerDay;
    if InRange(u) then Some(u) else None
  }

  /** Every instant from 00:00:00 on the first to 23:59:59 on the last day of
      a month has that month's year and month as its date. */
  lemma InstantInMonth(year: int, month: int, t: Instant)
    requires 1 <= year <= 9999 && 1 <= month <= 12
    requires ToInstant(Date(year, month, 1), 0, 0, 0) <= t
    requires t <= ToInstant(Date(year, month, DaysInMonth(year, month)), 23, 59, 59)
    ensures InRange(t) && DateOf(t).year == year && DateOf(t).month == month
  {
    var first := ToInstant(Date(year, month, 1), 0, 0, 0);
    var last := ToInstant(Date(year, month, DaysInMonth(year, month)), 23, 59, 59);
    assert DayNumber(first) <= DayNumber(t) <= DayNumber(last);
    DayInMonth(year, month, DayNumber(t));
  }

  /** Every instant from January 1 00:00:00 to December 31 23:59:59 of a year
      has that year as its date's year. */
  lemma InstantInYear(year: int, t: Instant)
    requires 1 <= year <= 9999
    requires ToInstant(Date(year, 1, 1), 0, 0, 0) <= t <= ToInstant(Date(year, 12, 31), 23, 59, 59)
    ensures InRange(t) && DateOf(t).year == year
  {
    var first := ToInstant(Date(year, 1, 1), 0, 0, 0);
    var last := ToInstant(Date(year, 12, 31), 23, 59, 59);
    assert DayNumber(first) <= DayNumber(t) <= DayNumber(last);
    DayInYear(year, DayNumber(t));
  }

  /** An instant lies at or after 00:00:00 on the first of its month and of its year. */
  lemma StartOfMonthAndYear(t: Instant)
    requires InRange(t)
    ensures ToInstant(Date(DateOf(t).year, DateOf(t).month, 1), 0, 0, 0) <= t
    ensures ToInstant(Date(DateOf(t).year, 1, 1), 0, 0, 0) <= t
  {
    var d := DateOf(t);
    assert DaysOf(Date(d.year, d.month, 1)) <= DaysOf(d);
    assert DaysOf(Date(d.year, 1, 1)) <= DaysOf(d);
  }

  /** The first instant of the day after `t` is the midnight of the next calendar date. */
  lemma NextMidnight(t: Instant)
    requires InRange(t) && InRange(Midnight(t) + SecondsPerDay)
    ensures DateOf(Midnight(t) + SecondsPerDay) == NextDate(DateOf(t))
  {
    var u := Midnight(t) + SecondsPerDay;
    assert DayNumber(u) == DayNumber(t) + 1;
    DayAfter(DayNumber(t));
  }

}

/** The proleptic Gregorian calendar over whole seconds since 1 January of year 1, 00:00:00,
    as read on a clock with a fixed offset. */
module Calendar {

  const MINUTE := 60
  const HOUR := 3600
  const DAY := 86400

  predicate IsLeap(y: int) { y % 4 == 0 && (y % 100 != 0 || y % 400 == 0) }

  function DaysInYear(y: int): int { if IsLeap(y) then 366 else 365 }

  function DaysInMonth(y: int, m: int): int
    requires 1 <= m <= 12
  {
    if m == 2 then (if IsLeap(y) then 29 else 28)
    else if m == 4 || m == 6 || m == 9 || m == 11 then 30
    else 31
  }

  /** Days from 1 January of year 1 to 1 January of year `y`. */
  function DaysBeforeYear(y: int): int
  {
    365 * (y - 1) + (y - 1) / 4 - (y - 1) / 100 + (y - 1) / 400
  }

  lemma DaysBeforeYearStep(y: int)
    ensures DaysBeforeYear(y + 1) == DaysBeforeYear(y) + DaysInYear(y)
  {
    MultiplesStep(y, 4);
    MultiplesStep(y, 100);
    MultiplesStep(y, 400);
    Multiples(y);
    assert y + 1 - 1 == y;
    var leap := if IsLeap(y) then 1 else 0;
    assert y / 4 - y / 100 + y / 400 == (y - 1) / 4 - (y - 1) / 100 + (y - 1) / 400 + leap;
  }

  lemma MultiplesStep(y: int, n: int)
    requires n == 4 || n == 100 || n == 400
    ensures y / n == (y - 1) / n + if y % n == 0 then 1 else 0
  {
  }

  lemma Multiples(y: int)
    ensures (y % 400 == 0 ==> y % 100 == 0) && (y % 100 == 0 ==> y % 4 == 0)
  {
  }

  /** Days from 1 January to the first of month `m`; month 13 stands for the next January. */
  function DaysBeforeMonth(y: int, m: int): int
    requires 1 <= m <= 13
  {
    if m == 1 then 0 else DaysBeforeMonth(y, m - 1) + DaysInMonth(y, m - 1)
  }

  lemma MonthsFillTheYear(y: int)
    ensures DaysBeforeMonth(y, 13) == DaysInYear(y)
  {
    assert DaysBeforeMonth(y, 2) == 31;
    assert DaysBeforeMonth(y, 3) == 31 + DaysInMonth(y, 2);
    assert DaysBeforeMonth(y, 5) == DaysBeforeMonth(y, 3) + 61;
    assert DaysBeforeMonth(y, 7) == DaysBeforeMonth(y, 5) + 61;
    assert DaysBeforeMonth(y, 9) == DaysBeforeMonth(y, 7) + 62;
    assert DaysBeforeMonth(y, 11) == DaysBeforeMonth(y, 9) + 61;
  }

  function YearFrom(n: int, guess: int): (y: int)
    ensures DaysBeforeYear(y) <= n < DaysBeforeYear(y + 1)
    decreases n < DaysBeforeYear(guess), if n < DaysBeforeYear(guess) then DaysBeforeYear(guess) - n
              else n - DaysBeforeYear(guess)
  {
    DaysBeforeYearStep(guess);
    DaysBeforeYearStep(guess - 1);
    if n < DaysBeforeYear(guess) then YearFrom(n, guess - 1)
    else if n >= DaysBeforeYear(guess + 1) then YearFrom(n, guess + 1)
    else guess
  }

  function MonthFrom(y: int, doy: int, guess: int): (m: int)
    requires 1 <= guess <= 12
    requires DaysBeforeMonth(y, guess) <= doy < DaysInYear(y)
    ensures 1 <= m <= 12
    ensures DaysBeforeMonth(y, m) <= doy < DaysBeforeMonth(y, m) + DaysInMonth(y, m)
    decreases 12 - guess
  {
    MonthsFillTheYear(y);
    if guess == 12 || doy < DaysBeforeMonth(y, guess + 1) then guess
    else MonthFrom(y, doy, guess + 1)
  }

  function DayNumber(t: int): int { t / DAY }

  function Year(t: int): int { YearFrom(DayNumber(t), DayNumber(t) / 366 + 1) }

  function Month(t: int): (m: int)
    ensures 1 <= m <= 12
  {
    DaysBeforeYearStep(Year(t));
    MonthFrom(Year(t), DayNumber(t) - DaysBeforeYear(Year(t)), 1)
  }

  function FirstOfMonth(t: int): int { DaysBeforeYear(Year(t)) + DaysBeforeMonth(Year(t), Month(t)) }

  function Day(t: int): (d: int)
    ensures 1 <= d <= DaysInMonth(Year(t), Month(t)) <= 31
  {
    DaysBeforeYearStep(Year(t));
    DayNumber(t) - FirstOfMonth(t) + 1
  }

  /** Sunday is 0; 1 January of year 1 was a Monday. */
  function Weekday(t: int): (w: int)
    ensures 0 <= w < 7
  {
    (DayNumber(t) + 1) % 7
  }

  function Hour(t: int): (h: int)
    ensures 0 <= h < 24
  {
    t / HOUR % 24
  }

  function Minute(t: int): (m: int)
    ensures 0 <= m < 60
  {
    t / MINUTE % 60
  }

  function Second(t: int): (s: int)
    ensures 0 <= s < 60
  {
    t % MINUTE
  }

  /** The instant named by calendar fields; months and days outside their range carry over. */
  function Date(y: int, m: int, d: int, hh: int, mm: int, ss: int): int
  {
    var y' := y + (m - 1) / 12;
    var m' := (m - 1) % 12 + 1;
    DAY * (DaysBeforeYear(y') + DaysBeforeMonth(y', m') + d - 1) + HOUR * hh + MINUTE * mm + ss
  }

  /** `t` with `months` and `days` added to its calendar fields. */
  function AddDate(t: int, months: int, days: int): int
  {
    Date(Year(t), Month(t) + months, Day(t) + days, Hour(t), Minute(t), Second(t))
  }

  lemma DaysBeforeYearMonotone(y1: int, y2: int)
    requires y1 <= y2
    ensures DaysBeforeYear(y1) <= DaysBeforeYear(y2)
  {
  }

  lemma YearUnique(t: int, y: int)
    requires DaysBeforeYear(y) <= DayNumber(t) < DaysBeforeYear(y + 1)
    ensures Year(t) == y
  {
    var y0 := Year(t);
    if y0 < y { DaysBeforeYearMonotone(y0 + 1, y); }
    if y < y0 { DaysBeforeYearMonotone(y + 1, y0); }
  }

  lemma {:induction false} DaysBeforeMonthMonotone(y: int, m1: int, m2: int)
    requires 1 <= m1 <= m2 <= 13
    ensures DaysBeforeMonth(y, m1) <= DaysBeforeMonth(y, m2)
    decreases m2 - m1
  {
    if m1 < m2 { DaysBeforeMonthMonotone(y, m1, m2 - 1); }
  }

  /** A day lies in exactly one month: the fields read back are the ones it was written with. */
  lemma FieldsUnique(t: int, y: int, m: int)
    requires 1 <= m <= 12
    requires DaysBeforeMonth(y, m) <= DayNumber(t) - DaysBeforeYear(y) < DaysBeforeMonth(y, m) + DaysInMonth(y, m)
    ensures Year(t) == y && Month(t) == m
  {
    hide DaysBeforeYear, DaysInYear, DayNumber, Year, Month, IsLeap;
    DaysBeforeMonthMonotone(y, 1, m);
    DaysBeforeMonthMonotone(y, m + 1, 13);
    DaysBeforeYearStep(y);
    MonthsFillTheYear(y);
    YearUnique(t, y);
    MonthSpan(t);
    var m0 := Month(t);
    if m0 < m { DaysBeforeMonthMonotone(y, m0 + 1, m); }
    if m < m0 { DaysBeforeMonthMonotone(y, m + 1, m0); }
  }

  lemma MonthSpan(t: int)
    ensures var y, m := Year(t), Month(t);
            DaysBeforeMonth(y, m) <= DayNumber(t) - DaysBeforeYear(y) < DaysBeforeMonth(y, m) + DaysInMonth(y, m)
  {
    hide DaysBeforeYear, DayNumber, Year;
    DaysBeforeYearStep(Year(t));
  }

  /** Splitting an instant into days and a time of day, and the time of day into its three parts. */
  lemma ClockParts(n: int, hh: int, mm: int, ss: int)
    requires 0 <= hh < 24 && 0 <= mm < 60 && 0 <= ss < 60
    ensures var t := DAY * n + HOUR * hh + MINUTE * mm + ss;
            DayNumber(t) == n && Hour(t) == hh && Minute(t) == mm && Second(t) == ss
  {
    Quotient(DAY, n, HOUR * hh + MINUTE * mm + ss);
    Quotient(HOUR, 24 * n + hh, MINUTE * mm + ss);
    Quotient(MINUTE, 1440 * n + 60 * hh + mm, ss);
  }

  lemma Quotient(u: int, q: int, r: int)
    requires u == DAY || u == HOUR || u == MINUTE
    requires 0 <= r < u
    ensures (u * q + r) / u == q && (u * q + r) % u == r
  {
  }

  /** Instants within one span of `u` seconds have the same quotient, and so the same span. */
  lemma SameQuotient(u: int, t: int, v: int)
    requires u == DAY || u == HOUR || u == MINUTE
    requires t - t % u <= v < t - t % u + u
    ensures v / u == t / u && v - v % u == t - t % u
  {
    assert t == u * (t / u) + t % u;
    Quotient(u, t / u, v - u * (t / u));
  }

  /** Writing a valid date and reading its fields is the identity. */
  lemma DateRoundTrip(y: int, m: int, d: int, hh: int, mm: int, ss: int)
    requires 1 <= m <= 12 && 1 <= d <= DaysInMonth(y, m)
    requires 0 <= hh < 24 && 0 <= mm < 60 && 0 <= ss < 60
    ensures var t := Date(y, m, d, hh, mm, ss);
            Year(t) == y && Month(t) == m && Day(t) == d && Hour(t) == hh && Minute(t) == mm && Second(t) == ss
  {
    assert (m - 1) / 12 == 0 && (m - 1) % 12 + 1 == m;
    var n := DaysBeforeYear(y) + DaysBeforeMonth(y, m) + d - 1;
    var t := DAY * n + HOUR * hh + MINUTE * mm + ss;
    assert Date(y, m, d, hh, mm, ss) == t;
    ClockParts(n, hh, mm, ss);
    FieldsUnique(t, y, m);
  }

  lemma SplitClock(t: int)
    ensures t == DAY * DayNumber(t) + HOUR * Hour(t) + MINUTE * Minute(t) + Second(t)
  {
    var n, r := t / DAY, t % DAY;
    var hh, r' := r / HOUR, r % HOUR;
    var mm, ss := r' / MINUTE, r' % MINUTE;
    assert t == DAY * n + HOUR * hh + MINUTE * mm + ss;
    ClockParts(n, hh, mm, ss);
  }

  /** Reading the fields of an instant and writing them back is the identity. */
  lemma DateOfFields(t: int)
    ensures Date(Year(t), Month(t), Day(t), Hour(t), Minute(t), Second(t)) == t
  {
    assert (Month(t) - 1) / 12 == 0 && (Month(t) - 1) % 12 + 1 == Month(t);
    SplitClock(t);
  }

  /** Where the calendar stands: the Unix epoch was a Thursday, 719162 days after 1 January of year 1;
      1 March 2000, after a leap day, a Wednesday; 1 March 1900, after none, a Thursday. */
  lemma KnownDates()
    ensures Date(1970, 1, 1, 0, 0, 0) == DAY * 719162 && Weekday(Date(1970, 1, 1, 0, 0, 0)) == 4
    ensures Date(2000, 3, 1, 0, 0, 0) == Date(2000, 2, 28, 0, 0, 0) + 2 * DAY && Weekday(Date(2000, 3, 1, 0, 0, 0)) == 3
    ensures Date(1900, 3, 1, 0, 0, 0) == Date(1900, 2, 28, 0, 0, 0) + DAY && Weekday(Date(1900, 3, 1, 0, 0, 0)) == 4
    ensures Date(2024, 3, 1, 0, 0, 0) == Date(2024, 2, 28, 0, 0, 0) + 2 * DAY && Weekday(Date(2024, 3, 1, 0, 0, 0)) == 5
    ensures Date(2023, 3, 1, 12, 34, 56) == Date(2023, 2, 28, 0, 0, 0) + DAY + 12 * HOUR + 34 * MINUTE + 56
  {
    assert forall y :: DaysBeforeMonth(y, 2) == 31;
    assert forall y :: DaysBeforeMonth(y, 3) == 31 + DaysInMonth(y, 2);
    Quotient(DAY, 719162, 0);
    Quotient(DAY, 730179, 0);
    Quotient(DAY, 693654, 0);
    Quotient(DAY, 738945, 0);
  }
}

/** The days of a schedule, in its bits: a day of the month and a day of the week are joined by OR when
    neither was written with a star, and by AND when one was. */
module CronDays {
  import opened Wrappers
  import opened Words
  import opened Calendar
  import opened CronSpec

  /** The month, the hour, the minute and the second of the clock are in the schedule. */
  predicate ClockHolds(s: SpecSchedule, c: int)
  {
    Month(c) in s.month && Hour(c) in s.hour && Minute(c) in s.minute && Second(c) in s.second
  }

  /** Bit 63 of a day field is its star. */
  predicate Starred(s: SpecSchedule) { 63 in s.dom || 63 in s.dow }

  lemma StarBits(s: SpecSchedule)
    ensures Starred(s) <==> And(s.dom, STAR_BIT) != ZERO || And(s.dow, STAR_BIT) != ZERO
  {
    assert 63 in s.dom <==> 63 in And(s.dom, STAR_BIT);
    assert 63 in s.dow <==> 63 in And(s.dow, STAR_BIT);
    assert forall i :: i in And(s.dom, STAR_BIT) ==> i == 63;
    assert forall i :: i in And(s.dow, STAR_BIT) ==> i == 63;
  }

  /** The clock and the days, by the rule of the star. */
  predicate InSchedule(s: SpecSchedule, c: int)
  {
    && ClockHolds(s, c)
    && if Starred(s) then Day(c) in s.dom && Weekday(c) in s.dow else Day(c) in s.dom || Weekday(c) in s.dow
  }

  lemma MatchInBits(s: SpecSchedule, c: int)
    ensures Matches(s, c) <==> InSchedule(s, c)
  {
    hide Year, Month, Day, Hour, Minute, Second, Weekday, And;
    StarBits(s);
  }

  /** The zone of the schedule: its own, or that of the time asked about. */
  function Offset(s: SpecSchedule, t: Time): int
  {
    match s.location case Local => t.zone case Fixed(offset) => offset
  }

  /** The reading of an instant on the clock of the schedule. */
  function Reading(s: SpecSchedule, t: Time, m: Time): int { m.sec + Offset(s, t) }

  /** `r` can be an answer: on a whole second after `t`, through the fifth year after that of the second
      after `t`. */
  predicate Answers(s: SpecSchedule, t: Time, r: Time)
  {
    && r.zone == t.zone && r.nano == 0
    && (t.sec < r.sec || (t.sec == r.sec && t.nano < r.nano))
    && Year(Reading(s, t, r)) <= Year(t.sec + 1 + Offset(s, t)) + 5
  }

  /** Without a star, the answer is the first second after the one asked about whose clock is in the
      schedule and whose day is in the days of the month or in the days of the week. */
  lemma EitherDay(s: SpecSchedule, t: Time, r: Time)
    requires t.Valid() && !Starred(s) && Offset(s, t) % MINUTE == 0
    ensures SearchResult(s, t) == Some(r) <==>
              var c := Reading(s, t, r);
              && Answers(s, t, r) && ClockHolds(s, c) && (Day(c) in s.dom || Weekday(c) in s.dow)
              && forall m: Time :: Answers(s, t, m) && Before(m, r) ==>
                   !(ClockHolds(s, Reading(s, t, m))
                     && (Day(Reading(s, t, m)) in s.dom || Weekday(Reading(s, t, m)) in s.dow))
  {
    hide ClockHolds, Year, Day, Weekday, Starred, SearchResult, Answers, Before, Reading;
    AnswerInSchedule(s, t, r);
  }

  /** With a star in either field, both the day of the month and the day of the week must hold. */
  lemma BothDays(s: SpecSchedule, t: Time, r: Time)
    requires t.Valid() && Starred(s) && Offset(s, t) % MINUTE == 0
    ensures SearchResult(s, t) == Some(r) <==>
              var c := Reading(s, t, r);
              && Answers(s, t, r) && ClockHolds(s, c) && Day(c) in s.dom && Weekday(c) in s.dow
              && forall m: Time :: Answers(s, t, m) && Before(m, r) ==>
                   !(ClockHolds(s, Reading(s, t, m))
                     && Day(Reading(s, t, m)) in s.dom && Weekday(Reading(s, t, m)) in s.dow)
  {
    hide ClockHolds, Year, Day, Weekday, Starred, SearchResult, Answers, Before, Reading;
    AnswerInSchedule(s, t, r);
    forall m: Time
      ensures InSchedule(s, Reading(s, t, m)) <==>
                ClockHolds(s, Reading(s, t, m)) && Day(Reading(s, t, m)) in s.dom && Weekday(Reading(s, t, m)) in s.dow
    {
    }
    hide InSchedule;
  }

  lemma AnswerInSchedule(s: SpecSchedule, t: Time, r: Time)
    requires t.Valid() && Offset(s, t) % MINUTE == 0
    ensures SearchResult(s, t) == Some(r) <==>
              && Answers(s, t, r) && InSchedule(s, Reading(s, t, r))
              && forall m: Time :: Answers(s, t, m) && Before(m, r) ==> !InSchedule(s, Reading(s, t, m))
  {
    hide Matches, SearchResult, Answers, Before, Reading, InSchedule;
    AnswerIsFirst(s, t, r);
    forall c ensures Matches(s, c) <==> InSchedule(s, c) { MatchInBits(s, c); }
  }

  lemma AnswerIsFirst(s: SpecSchedule, t: Time, r: Time)
    requires t.Valid() && Offset(s, t) % MINUTE == 0
    ensures SearchResult(s, t) == Some(r) <==>
              && Answers(s, t, r) && Matches(s, Reading(s, t, r))
              && forall m: Time :: Answers(s, t, m) && Before(m, r) ==> !Matches(s, Reading(s, t, m))
  {
    hide Matches, Year, SearchResult, NextActivation;
    SearchIsRightExactly(s, t);
    NextActivationIsEarliest(s, t);
    assert Offset(s, t) == ZoneFor(s, t) && YearLimit(s, t) == Year(t.sec + 1 + Offset(s, t)) + 5;
    var next := NextActivation(s, t);
    if next.Some? {
      assert Answers(s, t, next.value) && Matches(s, Reading(s, t, next.value));
      assert Before(next.value, r) || Before(r, next.value) || r.zone != t.zone || r == next.value;
      forall m: Time | Answers(s, t, m) && Before(m, next.value) ensures !Matches(s, Reading(s, t, m)) {
        assert !ActiveAt(s, ZoneFor(s, t), m);
      }
    } else {
      assert Answers(s, t, r) ==> !ActiveAt(s, ZoneFor(s, t), r);
    }
  }

  /** In every zone, an answer meets the clock and the days in this way. */
  lemma AnswerMeetsDays(s: SpecSchedule, t: Time)
    requires t.Valid() && SearchResult(s, t).Some?
    ensures var c := Reading(s, t, SearchResult(s, t).value);
            && ClockHolds(s, c)
            && (if Starred(s) then Day(c) in s.dom && Weekday(c) in s.dow else Day(c) in s.dom || Weekday(c) in s.dow)
  {
    hide Matches, ClockHolds, Year, Day, Weekday, Starred, SearchResult;
    SearchResultIsLater(s, t);
    MatchInBits(s, Reading(s, t, SearchResult(s, t).value));
  }

  /** `0 0 0 1 * *`, the first of every month: the day of the week is a star. */
  const FIRSTS := SpecSchedule({0}, {0}, {0}, {1}, (set m | 1 <= m < 13) + {63}, (set w | 0 <= w < 7) + {63}, Local)

  /** `0 0 0 1 * 1`, the first of every month and every Monday: neither day is a star. */
  const FIRSTS_AND_MONDAYS := FIRSTS.(dow := {1})

  lemma MidnightHolds(s: SpecSchedule, c: int)
    requires s.second == {0} && s.minute == {0} && s.hour == {0} && s.month == FIRSTS.month
    ensures ClockHolds(s, c) <==> c == DAY * DayNumber(c)
  {
    hide Year, Month;
    SplitClock(c);
    if c == DAY * DayNumber(c) { ClockParts(DayNumber(c), 0, 0, 0); }
  }

  /** The first match of a schedule without a zone of its own, within five years, is its answer. */
  lemma FirstMatchAnswers(s: SpecSchedule, t: int, u: int, zone: int)
    requires s.location == Local && t < u && Year(u) <= Year(t + 1) + 5
    requires forall v :: t < v <= u ==> (Matches(s, v) <==> v == u)
    ensures NextActivation(s, Time(t - zone, 0, zone)) == Some(Time(u - zone, 0, zone))
    ensures zone % MINUTE == 0 ==> SearchResult(s, Time(t - zone, 0, zone)) == Some(Time(u - zone, 0, zone))
  {
    hide Year, Matches, EndOf, SearchResult, LinearNext;
    var asked := Time(t - zone, 0, zone);
    BeforeEnd(u, YearLimit(s, asked));
    LinearFinds(s, t + 1, u, EndOf(YearLimit(s, asked)));
    SearchIsRightExactly(s, asked);
  }

  /** Asked at the first midnight of a month, `0 0 0 1 * *` answers with that of the next month, in any
      zone. */
  lemma FirstsAreMonthly(t: int, zone: int)
    requires AtStart(MonthField, t)
    ensures NextActivation(FIRSTS, Time(t - zone, 0, zone)) == Some(Time(SpanEnd(MonthField, t) - zone, 0, zone))
    ensures zone % MINUTE == 0 ==>
              SearchResult(FIRSTS, Time(t - zone, 0, zone)) == Some(Time(SpanEnd(MonthField, t) - zone, 0, zone))
  {
    hide Year, Month, Matches, NextActivation, SearchResult, SpanEnd, AtStart, FirstOfMonth;
    var u := SpanEnd(MonthField, t);
    LongerThanASecond(t);
    MonthsOn(t);
    forall v | t < v <= u ensures Matches(FIRSTS, v) <==> v == u { FirstsMatch(t, v); }
    FirstMatchAnswers(FIRSTS, t, u, zone);
  }

  lemma FirstsMatch(t: int, v: int)
    requires AtStart(MonthField, t) && t < v <= SpanEnd(MonthField, t)
    ensures Matches(FIRSTS, v) <==> v == SpanEnd(MonthField, t)
  {
    hide Year, Month, Weekday, Matches, Starred, ClockHolds, SpanEnd, AtStart, DayNumber;
    StarIn(FIRSTS);
    MatchInBits(FIRSTS, v);
    MidnightHolds(FIRSTS, v);
    WeekdayIn(v);
    if v < SpanEnd(MonthField, t) { OnlyFirstMidnight(t, v); } else { FirstDay(v, t); }
    hide Day;
  }

  lemma WeekdayIn(v: int)
    ensures Weekday(v) in FIRSTS.dow
  {
  }

  lemma StarIn(s: SpecSchedule)
    requires 63 in s.dow
    ensures Starred(s)
  {
  }

  /** Within a month, no other midnight is on its first day. */
  lemma OnlyFirstMidnight(t: int, v: int)
    requires AtStart(MonthField, t) && t < v < SpanEnd(MonthField, t)
    ensures !(v == DAY * DayNumber(v) && Day(v) == 1)
  {
    hide Year, Month, DayNumber, DaysBeforeYear, DaysInMonth;
    InMonth(t, v);
  }

  lemma FirstDay(u: int, t: int)
    requires u == SpanEnd(MonthField, t)
    ensures Day(u) == 1 && u == DAY * DayNumber(u)
  {
    hide Year, Month, DaysBeforeYear, DaysInMonth;
    EndIsStart(MonthField, t);
    Quotient(DAY, FirstOfMonth(u), 0);
  }

  /** The next month is at most a year on from the second after the start of this one. */
  lemma MonthsOn(t: int)
    requires AtStart(MonthField, t)
    ensures Year(SpanEnd(MonthField, t)) <= Year(t + 1) + 5
  {
    hide Year, Month, FirstOfMonth;
    NextMonth(t);
    SpanHolds(MonthField, t);
    LongerThanASecond(t);
    InMonth(t, t + 1);
  }

  lemma LongerThanASecond(t: int)
    requires AtStart(MonthField, t)
    ensures t + 1 < SpanEnd(MonthField, t)
  {
    hide Year, Month, DaysBeforeYear, DaysBeforeMonth;
  }

  /** Asked at the midnight of a Sunday, `0 0 0 1 * 1` answers with the midnight after it, whatever day
      of the month that Monday is. */
  lemma MondaysToo(day: int, zone: int)
    requires Weekday(DAY * day) == 0
    ensures var t := DAY * day;
            && NextActivation(FIRSTS_AND_MONDAYS, Time(t - zone, 0, zone)) == Some(Time(t + DAY - zone, 0, zone))
            && (zone % MINUTE == 0 ==>
                  SearchResult(FIRSTS_AND_MONDAYS, Time(t - zone, 0, zone)) == Some(Time(t + DAY - zone, 0, zone)))
  {
    hide Year, Matches, NextActivation, SearchResult, Weekday;
    var t := DAY * day;
    YearsOn(day);
    forall v | t < v <= t + DAY ensures Matches(FIRSTS_AND_MONDAYS, v) <==> v == t + DAY { MondaysMatch(day, v); }
    FirstMatchAnswers(FIRSTS_AND_MONDAYS, t, t + DAY, zone);
  }

  lemma MondaysMatch(day: int, v: int)
    requires Weekday(DAY * day) == 0 && DAY * day < v <= DAY * day + DAY
    ensures Matches(FIRSTS_AND_MONDAYS, v) <==> v == DAY * day + DAY
  {
    hide Year, Month, Day, Matches, Starred, ClockHolds, Weekday, DayNumber;
    NoStarIn(FIRSTS_AND_MONDAYS);
    MatchInBits(FIRSTS_AND_MONDAYS, v);
    MidnightHolds(FIRSTS_AND_MONDAYS, v);
    NextMidnight(day, v);
  }

  lemma NoStarIn(s: SpecSchedule)
    requires 63 !in s.dom && 63 !in s.dow
    ensures !Starred(s)
  {
  }

  lemma NextMidnight(day: int, v: int)
    requires Weekday(DAY * day) == 0 && DAY * day < v <= DAY * day + DAY
    ensures v == DAY * DayNumber(v) <==> v == DAY * day + DAY
    ensures v == DAY * day + DAY ==> Weekday(v) == 1
  {
    Quotient(DAY, day, 0);
    if v < DAY * day + DAY { Quotient(DAY, day, v - DAY * day); } else { Quotient(DAY, day + 1, 0); }
  }

  lemma YearsOn(day: int)
    ensures Year(DAY * day + DAY) <= Year(DAY * day + 1) + 5
  {
    hide Year, Month, Day, DaysBeforeYear;
    Quotient(DAY, day, 1);
    Quotient(DAY, day + 1, 0);
    NextYear(DAY * day + 1, DAY * day + DAY);
  }

  lemma NextYear(t: int, u: int)
    requires DayNumber(u) == DayNumber(t) + 1
    ensures Year(u) <= Year(t) + 1
  {
    hide Year, DayNumber;
    var y := Year(t);
    DaysBeforeYearStep(y + 1);
    YearBounds(t);
    YearBounds(u);
    if Year(u) > y + 1 { DaysBeforeYearMonotone(y + 2, Year(u)); }
  }

  lemma YearBounds(t: int)
    ensures DaysBeforeYear(Year(t)) <= DayNumber(t) < DaysBeforeYear(Year(t) + 1)
  {
  }
}

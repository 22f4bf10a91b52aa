/** Activation times of a cron schedule: `SpecSchedule.Next` and `dayMatches`. */
module CronSpec {
  import opened Wrappers
  import opened Words
  import opened Calendar

  /** An instant: `sec` whole seconds and `nano` nanoseconds, shown in the zone `zone` seconds east of UTC. */
  datatype Time = Time(sec: int, nano: nat, zone: int) {
    ghost predicate Valid() { nano < 1_000_000_000 }
  }

  /** The zone of a schedule: the zone of the time it is asked about, or a fixed one. */
  datatype Location = Local | Fixed(offset: int)

  datatype SpecSchedule = SpecSchedule(second: Word, minute: Word, hour: Word, dom: Word, month: Word, dow: Word,
                                       location: Location)

  function ZoneFor(s: SpecSchedule, t: Time): int
  {
    if s.location.Local? then t.zone else s.location.offset
  }

  predicate DayMatches(s: SpecSchedule, t: int)
  {
    var domMatch := HasBit(s.dom, Day(t));
    var dowMatch := HasBit(s.dow, Weekday(t));
    if And(s.dom, STAR_BIT) != ZERO || And(s.dow, STAR_BIT) != ZERO then domMatch && dowMatch
    else domMatch || dowMatch
  }

  /** All six fields hold of the clock reading `t`. */
  predicate Matches(s: SpecSchedule, t: int)
  {
    && HasBit(s.month, Month(t))
    && DayMatches(s, t)
    && HasBit(s.hour, Hour(t))
    && HasBit(s.minute, Minute(t))
    && HasBit(s.second, Second(t))
  }

  /** The clock reading of the upcoming second, and the last year searched. */
  function Start(s: SpecSchedule, t: Time): int { t.sec + 1 + ZoneFor(s, t) }

  function YearLimit(s: SpecSchedule, t: Time): int { Year(Start(s, t)) + 5 }

  /** `t` rounded down to a multiple of `unit` of the absolute time, on the clock of `zone`. */
  function Truncate(t: int, zone: int, unit: int): int
    requires unit > 0
  {
    t - (t - zone) % unit
  }

  // ----- The fields as nested spans of time

  datatype Field = MonthField | DayField | HourField | MinuteField | SecondField

  function Rank(f: Field): nat
  {
    match f
    case SecondField => 0
    case MinuteField => 1
    case HourField => 2
    case DayField => 3
    case MonthField => 4
  }

  predicate FieldMatches(s: SpecSchedule, f: Field, t: int)
  {
    match f
    case MonthField => HasBit(s.month, Month(t))
    case DayField => DayMatches(s, t)
    case HourField => HasBit(s.hour, Hour(t))
    case MinuteField => HasBit(s.minute, Minute(t))
    case SecondField => HasBit(s.second, Second(t))
  }

  /** The first second of the span of `f` that holds `t`. */
  function SpanStart(f: Field, t: int): int
  {
    match f
    case MonthField => DAY * FirstOfMonth(t)
    case DayField => t - t % DAY
    case HourField => t - t % HOUR
    case MinuteField => t - t % MINUTE
    case SecondField => t
  }

  /** The first second after the span of `f` that holds `t`. */
  function SpanEnd(f: Field, t: int): int
  {
    match f
    case MonthField => DAY * (FirstOfMonth(t) + DaysInMonth(Year(t), Month(t)))
    case DayField => t - t % DAY + DAY
    case HourField => t - t % HOUR + HOUR
    case MinuteField => t - t % MINUTE + MINUTE
    case SecondField => t + 1
  }

  lemma SpanHolds(f: Field, t: int)
    ensures SpanStart(f, t) <= t < SpanEnd(f, t)
  {
    assert t == DAY * DayNumber(t) + t % DAY;
    if f == MonthField { assert FirstOfMonth(t) <= DayNumber(t) < FirstOfMonth(t) + DaysInMonth(Year(t), Month(t)); }
  }

  /** Whether a field holds depends only on its span, and so do the span's ends. */
  lemma SameSpan(s: SpecSchedule, f: Field, t: int, u: int)
    requires SpanStart(f, t) <= u < SpanEnd(f, t)
    ensures SpanStart(f, u) == SpanStart(f, t) && SpanEnd(f, u) == SpanEnd(f, t)
    ensures f == MonthField ==> Year(u) == Year(t) && Month(u) == Month(t)
    ensures FieldMatches(s, f, u) == FieldMatches(s, f, t)
  {
    match f {
      case MonthField => InMonth(t, u);
      case DayField => InDay(s, t, u);
      case HourField => SameQuotient(HOUR, t, u);
      case MinuteField => SameQuotient(MINUTE, t, u);
      case SecondField =>
    }
  }

  lemma InDay(s: SpecSchedule, t: int, u: int)
    requires t - t % DAY <= u < t - t % DAY + DAY
    ensures u - u % DAY == t - t % DAY && DayMatches(s, u) == DayMatches(s, t)
  {
    SameQuotient(DAY, t, u);
    SameDay(s, t, u);
  }

  lemma SameDay(s: SpecSchedule, t: int, u: int)
    requires DayNumber(t) == DayNumber(u)
    ensures Year(t) == Year(u) && Month(t) == Month(u) && Day(t) == Day(u) && Weekday(t) == Weekday(u)
  {
    hide YearFrom, MonthFrom, DaysBeforeYear, DaysBeforeMonth, DaysInMonth;
  }

  lemma InMonth(t: int, u: int)
    requires SpanStart(MonthField, t) <= u < SpanEnd(MonthField, t)
    ensures Year(u) == Year(t) && Month(u) == Month(t)
  {
    assert u == DAY * DayNumber(u) + u % DAY;
    assert FirstOfMonth(t) <= DayNumber(u) < FirstOfMonth(t) + DaysInMonth(Year(t), Month(t));
    FieldsUnique(u, Year(t), Month(t));
  }

  predicate AtStart(f: Field, t: int) { SpanStart(f, t) == t }

  /** The span of a finer field lies inside the span of a coarser one. */
  lemma Nested(f: Field, g: Field, t: int)
    requires Rank(f) <= Rank(g)
    ensures SpanStart(g, t) <= SpanStart(f, t) && SpanEnd(f, t) <= SpanEnd(g, t)
  {
    SplitClock(t);
    assert t == DAY * DayNumber(t) + t % DAY;
    Quotient(HOUR, 24 * DayNumber(t) + Hour(t), MINUTE * Minute(t) + Second(t));
    SpanHolds(MonthField, t);
  }

  lemma EndIsStart(f: Field, t: int)
    ensures AtStart(f, SpanEnd(f, t))
  {
    var u := SpanEnd(f, t);
    match f {
      case MonthField => NextMonth(t);
      case DayField => Quotient(DAY, t / DAY + 1, 0);
      case HourField => Quotient(HOUR, t / HOUR + 1, 0);
      case MinuteField => Quotient(MINUTE, t / MINUTE + 1, 0);
      case SecondField =>
    }
  }

  /** The month after a month, across the end of the year. */
  lemma NextMonth(t: int)
    ensures var u := SpanEnd(MonthField, t);
            && AtStart(MonthField, u)
            && Month(u) == (if Month(t) == 12 then 1 else Month(t) + 1)
            && Year(u) == (if Month(t) == 12 then Year(t) + 1 else Year(t))
            && u <= DAY * DaysBeforeYear(Year(t) + 1)
  {
    var y, m := Year(t), Month(t);
    MonthsFillTheYear(y);
    DaysBeforeYearStep(y);
    DaysBeforeMonthMonotone(y, m + 1, 13);
    MonthStart(if m == 12 then y + 1 else y, if m == 12 then 1 else m + 1, SpanEnd(MonthField, t));
  }

  lemma MonthStart(y: int, m: int, u: int)
    requires 1 <= m <= 12
    requires u == DAY * (DaysBeforeYear(y) + DaysBeforeMonth(y, m))
    ensures Year(u) == y && Month(u) == m && AtStart(MonthField, u)
  {
    Quotient(DAY, DaysBeforeYear(y) + DaysBeforeMonth(y, m), 0);
    assert DayNumber(u) == DaysBeforeYear(y) + DaysBeforeMonth(y, m);
    FieldsUnique(u, y, m);
  }

  /** When a finer span runs out, the coarser span goes on or runs out with it. */
  lemma Carry(s: SpecSchedule, f: Field, g: Field, t: int)
    requires Rank(f) < Rank(g)
    ensures var u := SpanEnd(f, t);
            if u < SpanEnd(g, t) then FieldMatches(s, g, u) == FieldMatches(s, g, t)
              && (g == MonthField ==> Year(u) == Year(t))
            else u == SpanEnd(g, t) && AtStart(g, u)
  {
    Nested(f, g, t);
    SpanHolds(f, t);
    SpanHolds(g, t);
    if SpanEnd(f, t) < SpanEnd(g, t) { SameSpan(s, g, t, SpanEnd(f, t)); }
    EndIsStart(g, t);
  }

  /** Every field holds of `t`, or `t` is the first second of that field's span. */
  ghost predicate Settled(s: SpecSchedule, t: int)
  {
    forall f :: FieldMatches(s, f, t) || AtStart(f, t)
  }

  /** No second from `from` up to `t` matches. */
  ghost predicate NoneBefore(s: SpecSchedule, from: int, t: int)
  {
    forall u :: from <= u < t ==> !Matches(s, u)
  }

  ghost predicate CoarserMatch(s: SpecSchedule, f: Field, t: int)
  {
    forall g :: Rank(f) < Rank(g) ==> FieldMatches(s, g, t)
  }

  /** Skipping the rest of a span whose field does not hold skips no match, and leaves every field
      holding or at its minimum. Below the coarsest field that ran out, all fields still hold. */
  lemma Skip(s: SpecSchedule, f: Field, from: int, t: int)
    requires from <= t && NoneBefore(s, from, t)
    requires CoarserMatch(s, f, t) && !FieldMatches(s, f, t)
    ensures var u := SpanEnd(f, t);
            && t < u <= SpanEnd(MonthField, t)
            && NoneBefore(s, from, u)
            && Settled(s, u)
            && (forall g :: Rank(f) < Rank(g) && u < SpanEnd(g, t) ==> FieldMatches(s, g, u))
            && (u < SpanEnd(MonthField, t) ==> Year(u) == Year(t))
  {
    var u := SpanEnd(f, t);
    SpanHolds(f, t);
    Nested(f, MonthField, t);
    forall v | t <= v < u ensures !Matches(s, v) {
      SameSpan(s, f, t, v);
      assert !FieldMatches(s, f, v);
    }
    forall g ensures FieldMatches(s, g, u) || AtStart(g, u)
      ensures Rank(f) < Rank(g) && u < SpanEnd(g, t) ==> FieldMatches(s, g, u)
      ensures g == MonthField && u < SpanEnd(MonthField, t) ==> Year(u) == Year(t)
    {
      EndIsStart(f, t);
      if Rank(f) < Rank(g) {
        Carry(s, f, g, t);
      } else {
        Nested(g, f, u);
        SpanHolds(g, u);
      }
    }
  }

  // ----- What the steps of the search do to the clock

  lemma MonthReset(t: int)
    ensures Date(Year(t), Month(t), 1, 0, 0, 0) == SpanStart(MonthField, t)
  {
    assert (Month(t) - 1) / 12 == 0 && (Month(t) - 1) % 12 + 1 == Month(t);
  }

  /** Adding a month moves the clock on by the length of the month it shows. */
  lemma MonthStep(t: int)
    ensures AddDate(t, 1, 0) - t == SpanEnd(MonthField, t) - SpanStart(MonthField, t) > 0
  {
    hide Year, Month, Day, DaysBeforeYear, Hour, Minute, Second;
    var y, m := Year(t), Month(t);
    MonthCarry(y, m);
    DateOfFields(t);
    assert (m - 1) / 12 == 0 && (m - 1) % 12 + 1 == m;
  }

  lemma MonthCarry(y: int, m: int)
    requires 1 <= m <= 12
    ensures Date(y, m + 1, 1, 0, 0, 0) == DAY * (DaysBeforeYear(y) + DaysBeforeMonth(y, m) + DaysInMonth(y, m))
  {
    hide DaysBeforeYear, DaysInYear, DaysInMonth;
    MonthsFillTheYear(y);
    DaysBeforeYearStep(y);
    assert if m == 12 then m / 12 == 1 && m % 12 == 0 else m / 12 == 0 && m % 12 == m;
  }

  lemma DayReset(t: int)
    ensures Date(Year(t), Month(t), Day(t), 0, 0, 0) == SpanStart(DayField, t)
  {
    assert (Month(t) - 1) / 12 == 0 && (Month(t) - 1) % 12 + 1 == Month(t);
  }

  /** Adding a day keeps the time of day, on a clock with a fixed offset. */
  lemma DayStep(t: int)
    ensures AddDate(t, 0, 1) == t + DAY && Hour(t + DAY) == Hour(t)
  {
    hide Year, Month, Day, DaysBeforeYear, DaysInMonth;
    DateOfFields(t);
    SplitClock(t);
    ClockParts(DayNumber(t) + 1, Hour(t), Minute(t), Second(t));
  }

  lemma HourReset(t: int)
    ensures Date(Year(t), Month(t), Day(t), Hour(t), 0, 0) == SpanStart(HourField, t)
  {
    assert (Month(t) - 1) / 12 == 0 && (Month(t) - 1) % 12 + 1 == Month(t);
    SplitClock(t);
    Quotient(HOUR, 24 * DayNumber(t) + Hour(t), MINUTE * Minute(t) + Second(t));
  }

  /** Truncating the absolute time to minutes brings the second hand to 0 exactly in the zones whose
      offset is a whole number of minutes. */
  lemma TruncateAligns(t: int, zone: int)
    ensures Second(Truncate(t, zone, MINUTE)) == 0 <==> zone % MINUTE == 0
  {
    var v := t - zone;
    assert v == MINUTE * (v / MINUTE) + v % MINUTE;
    assert zone == MINUTE * (zone / MINUTE) + zone % MINUTE;
    assert Truncate(t, zone, MINUTE) == MINUTE * (v / MINUTE + zone / MINUTE) + zone % MINUTE;
    Quotient(MINUTE, v / MINUTE + zone / MINUTE, zone % MINUTE);
  }

  lemma MinuteReset(t: int, zone: int)
    requires zone % MINUTE == 0
    ensures Truncate(t, zone, MINUTE) == SpanStart(MinuteField, t)
  {
    var v := t - zone;
    assert v == MINUTE * (v / MINUTE) + v % MINUTE;
    assert zone == MINUTE * (zone / MINUTE);
    Quotient(MINUTE, v / MINUTE + zone / MINUTE, v % MINUTE);
  }

  lemma DayWrapped(t: int)
    ensures var u := SpanEnd(DayField, t);
            Day(u) == 1 <==> u == SpanEnd(MonthField, t)
  {
    var u := SpanEnd(DayField, t);
    Nested(DayField, MonthField, t);
    EndIsStart(DayField, t);
    EndIsStart(MonthField, t);
    assert u == DAY * DayNumber(u);
    if u < SpanEnd(MonthField, t) {
      SpanHolds(MonthField, t);
      SpanHolds(DayField, t);
      InMonth(t, u);
    }
  }

  // ----- The search second by second, and its jumping form

  /** The first matching clock reading from `u` on and before `end`. */
  function LinearNext(s: SpecSchedule, u: int, end: int): Option<int>
    decreases end - u
  {
    if u >= end then None
    else if Matches(s, u) then Some(u)
    else LinearNext(s, u + 1, end)
  }

  lemma {:induction false} LinearFinds(s: SpecSchedule, u: int, t: int, end: int)
    requires u <= t && NoneBefore(s, u, t)
    requires t >= end || Matches(s, t)
    ensures LinearNext(s, u, end) == if t < end then Some(t) else None
    decreases t - u
  {
    hide Matches;
    if u < t && u < end { LinearFinds(s, u + 1, t, end); }
  }

  lemma {:induction false} LinearIsFirst(s: SpecSchedule, u: int, end: int)
    ensures match LinearNext(s, u, end)
            case Some(t) => u <= t < end && Matches(s, t) && NoneBefore(s, u, t)
            case None => NoneBefore(s, u, end)
    decreases end - u
  {
    hide Matches;
    if u < end && !Matches(s, u) { LinearIsFirst(s, u + 1, end); }
  }

  /** The first second after the year `limit`. */
  function EndOf(limit: int): int { DAY * DaysBeforeYear(limit + 1) }

  /** The first second after the last year searched. */
  function SearchEnd(s: SpecSchedule, t: Time): int { EndOf(YearLimit(s, t)) }

  /** The next activation, by searching every second. */
  function NextActivation(s: SpecSchedule, t: Time): Option<Time>
  {
    match LinearNext(s, Start(s, t), SearchEnd(s, t))
    case Some(u) => Some(Time(u - ZoneFor(s, t), 0, t.zone))
    case None => None
  }

  predicate Before(a: Time, b: Time) { a.sec < b.sec || (a.sec == b.sec && a.nano < b.nano) }

  /** The schedule holds of an instant when it holds of the clock in the schedule's zone. */
  predicate ActiveAt(s: SpecSchedule, zone: int, t: Time) { t.nano == 0 && Matches(s, t.sec + zone) }

  lemma BeforeEnd(u: int, limit: int)
    ensures u < EndOf(limit) <==> Year(u) <= limit
  {
    hide DaysBeforeYear;
    assert u == DAY * DayNumber(u) + u % DAY;
    if Year(u) <= limit { DaysBeforeYearMonotone(Year(u) + 1, limit + 1); }
    else { DaysBeforeYearMonotone(limit + 1, Year(u)); }
  }

  /** The activation after `t` is the earliest matching second after `t`; there is none exactly when
      no second after `t` matches through the end of the fifth year after the upcoming second's. */
  lemma NextActivationIsEarliest(s: SpecSchedule, t: Time)
    requires t.Valid()
    ensures match NextActivation(s, t)
            case Some(r) =>
              && Before(t, r) && r.zone == t.zone && ActiveAt(s, ZoneFor(s, t), r)
              && Year(r.sec + ZoneFor(s, t)) <= YearLimit(s, t)
              && forall m: Time :: Before(t, m) && Before(m, r) ==> !ActiveAt(s, ZoneFor(s, t), m)
            case None =>
              forall m: Time :: Before(t, m) && Year(m.sec + ZoneFor(s, t)) <= YearLimit(s, t) ==>
                  !ActiveAt(s, ZoneFor(s, t), m)
  {
    hide Matches, Year;
    var zone := ZoneFor(s, t);
    LinearIsFirst(s, Start(s, t), SearchEnd(s, t));
    forall u { BeforeEnd(u, YearLimit(s, t)); }
    match NextActivation(s, t) {
      case Some(r) =>
        forall m: Time | Before(t, m) && Before(m, r) && m.nano == 0 ensures !Matches(s, m.sec + zone) {
          assert Start(s, t) <= m.sec + zone < r.sec + zone;
        }
      case None =>
        forall m: Time | Before(t, m) && Year(m.sec + zone) <= YearLimit(s, t) && m.nano == 0
          ensures !Matches(s, m.sec + zone) {
          assert Start(s, t) <= m.sec + zone < SearchEnd(s, t);
        }
    }
  }

  // ----- The jumping search, as a function

  /** The first field, month first, that does not hold. */
  function Coarsest(s: SpecSchedule, t: int): Option<Field>
  {
    if !FieldMatches(s, MonthField, t) then Some(MonthField)
    else if !FieldMatches(s, DayField, t) then Some(DayField)
    else if !FieldMatches(s, HourField, t) then Some(HourField)
    else if !FieldMatches(s, MinuteField, t) then Some(MinuteField)
    else if !FieldMatches(s, SecondField, t) then Some(SecondField)
    else None
  }

  /** The one reset of the search: the finer fields go back to their minimum. */
  function Reset(zone: int, f: Field, t: int): int
  {
    match f
    case MonthField => Date(Year(t), Month(t), 1, 0, 0, 0)
    case DayField => Date(Year(t), Month(t), Day(t), 0, 0, 0)
    case HourField => Date(Year(t), Month(t), Day(t), Hour(t), 0, 0)
    case MinuteField => Truncate(t, zone, MINUTE)
    case SecondField => Truncate(t, zone, 1)
  }

  /** The nearest midnight, from less than 12 hours before or after it. */
  function Midnight(t: int): int
  {
    if Hour(t) == 0 then t
    else if Hour(t) > 12 then t + (24 - Hour(t)) * HOUR
    else t - Hour(t) * HOUR
  }

  /** It is the hour of midnight, whole hours away and never more than twelve. */
  lemma MidnightIsNear(t: int)
    ensures Hour(Midnight(t)) == 0 && Minute(Midnight(t)) == Minute(t) && Second(Midnight(t)) == Second(t)
    ensures t - 12 * HOUR <= Midnight(t) < t + 12 * HOUR
  {
    hide Midnight;
    var h := Hour(t);
    var k := if h == 0 then 0 else if h > 12 then 24 - h else -h;
    MidnightMoves(t);
    HoursOn(t, k);
    hide Hour, Minute, Second;
  }

  lemma MidnightMoves(t: int)
    ensures Midnight(t) == t + HOUR * (if Hour(t) == 0 then 0 else if Hour(t) > 12 then 24 - Hour(t) else -Hour(t))
  {
    hide Hour;
  }

  lemma HoursOn(t: int, k: int)
    ensures Hour(t + HOUR * k) == (Hour(t) + k) % 24
    ensures Minute(t + HOUR * k) == Minute(t) && Second(t + HOUR * k) == Second(t)
  {
    HourOn(t, k);
    MinuteOn(t, k);
    hide Hour, Minute, Second;
  }

  lemma HourOn(t: int, k: int)
    ensures Hour(t + HOUR * k) == (Hour(t) + k) % 24
  {
    var q, r := t / HOUR, t % HOUR;
    assert t == HOUR * q + r;
    Quotient(HOUR, q + k, r);
    WholeDays(q, k);
  }

  lemma WholeDays(q: int, k: int)
    ensures (q + k) % 24 == (q % 24 + k) % 24
  {
    var d := q / 24;
    assert q + k == 24 * d + (q % 24 + k);
  }

  lemma MinuteOn(t: int, k: int)
    ensures Minute(t + HOUR * k) == Minute(t) && Second(t + HOUR * k) == Second(t)
  {
    var m, r := t / MINUTE, t % MINUTE;
    assert t == MINUTE * m + r && t + HOUR * k == MINUTE * (m + 60 * k) + r;
    Quotient(MINUTE, m + 60 * k, r);
    assert (m + 60 * k) % 60 == m % 60;
  }

  function Increment(f: Field, t: int): int
  {
    match f
    case MonthField => AddDate(t, 1, 0)
    case DayField => Midnight(AddDate(t, 0, 1))
    case HourField => t + HOUR
    case MinuteField => t + MINUTE
    case SecondField => t + 1
  }

  /** One pass of the loop of `f`; only the first pass of the whole search resets. */
  function Pass(zone: int, f: Field, t: int, added: bool): int
  {
    Increment(f, if added then t else Reset(zone, f, t))
  }

  /** Every pass moves the clock on, aligned or not. */
  lemma PassAdvances(zone: int, f: Field, t: int, added: bool)
    ensures t < Pass(zone, f, t, added)
  {
    hide Year, Month, Day, Hour, Minute, Second, Date, AddDate, FirstOfMonth, DaysInMonth;
    SpanHolds(f, t);
    match f {
      case MonthField =>
        MonthReset(t);
        SameStart(MonthField, t);
        MonthStep(if added then t else SpanStart(f, t));
      case DayField =>
        DayReset(t);
        DayStep(t);
        DayStep(SpanStart(f, t));
        DayStartsAtMidnight(t);
      case HourField => HourReset(t);
      case MinuteField =>
      case SecondField =>
    }
  }

  lemma SameStart(f: Field, t: int)
    ensures SpanStart(f, SpanStart(f, t)) == SpanStart(f, t) && SpanEnd(f, SpanStart(f, t)) == SpanEnd(f, t)
  {
    hide Year, Month, Day, Hour, Minute, Second;
    SpanHolds(f, t);
    var any := SpecSchedule(ZERO, ZERO, ZERO, ZERO, ZERO, ZERO, Local);
    SameSpan(any, f, t, SpanStart(f, t));
  }

  lemma DayStartsAtMidnight(t: int)
    ensures Hour(SpanStart(DayField, t)) == 0 && Hour(SpanEnd(DayField, t)) == 0
    ensures DayNumber(SpanStart(DayField, t)) == DayNumber(t) && DayNumber(SpanEnd(DayField, t)) == DayNumber(t) + 1
  {
    ClockParts(DayNumber(t), 0, 0, 0);
    ClockParts(DayNumber(t) + 1, 0, 0, 0);
  }

  /** The search from the clock reading `t` through the year `limit`: pass after pass of the loop of
      the coarsest field that does not hold. */
  function Search(s: SpecSchedule, zone: int, t: int, added: bool, limit: int): Option<int>
    decreases EndOf(limit) - t
  {
    if Year(t) > limit then None
    else match Coarsest(s, t)
         case None => Some(t)
         case Some(f) =>
           BeforeEnd(t, limit);
           PassAdvances(zone, f, t, added);
           Search(s, zone, Pass(zone, f, t, added), true, limit)
  }

  function SearchResult(s: SpecSchedule, t: Time): Option<Time>
  {
    match Search(s, ZoneFor(s, t), Start(s, t), false, YearLimit(s, t))
    case Some(u) => Some(Time(u - ZoneFor(s, t), 0, t.zone))
    case None => None
  }

  predicate Wraps(f: Field, u: int)
  {
    match f
    case MonthField => Month(u) == 1
    case DayField => Day(u) == 1
    case HourField => Hour(u) == 0
    case MinuteField => Minute(u) == 0
    case SecondField => Second(u) == 0
  }

  /** A month that does not hold is met at its first midnight, a day at its midnight. */
  predicate Ready(s: SpecSchedule, t: int)
  {
    && (!FieldMatches(s, MonthField, t) ==> Day(t) == 1 && Hour(t) == 0)
    && (!FieldMatches(s, DayField, t) ==> Hour(t) == 0)
  }

  /** The day after a day is in the same month, or the first of the next. */
  lemma NextDay(t: int, u: int)
    requires DayNumber(u) == DayNumber(t) + 1
    ensures Day(u) == 1 || (Year(u) == Year(t) && Month(u) == Month(t))
  {
    hide Year, Month, Day, Hour, FirstOfMonth, DaysInMonth, HasBit, DayMatches;
    var any := SpecSchedule(ZERO, ZERO, ZERO, ZERO, ZERO, ZERO, Local);
    var e := SpanEnd(DayField, t);
    DayStartsAtMidnight(t);
    SameDay(any, u, e);
    DayWrapped(t);
    Nested(DayField, MonthField, t);
    SpanHolds(DayField, t);
    SpanHolds(MonthField, t);
    if e < SpanEnd(MonthField, t) { InMonth(t, e); }
  }

  /** The first hour of a month, moved on by the length of the month, is in the first hour of the next. */
  lemma MonthToMidnight(t: int)
    requires Day(t) == 1 && Hour(t) == 0
    ensures var u := AddDate(t, 1, 0);
            Hour(u) == 0 && DayNumber(u) == DayNumber(SpanEnd(MonthField, t))
  {
    hide Year, Month, AddDate, DaysInMonth, DaysBeforeYear;
    MonthStep(t);
    SplitClock(t);
    var n := FirstOfMonth(t) + DaysInMonth(Year(t), Month(t));
    ClockParts(n, 0, Minute(t), Second(t));
    ClockParts(n, 0, 0, 0);
  }

  lemma DayToMidnight(t: int)
    requires Hour(t) == 0
    ensures var u := Midnight(AddDate(t, 0, 1));
            Hour(u) == 0 && DayNumber(u) == DayNumber(t) + 1
  {
    hide Year, Month, Day, AddDate;
    DayStep(t);
    SplitClock(t);
    ClockParts(DayNumber(t) + 1, 0, Minute(t), Second(t));
  }

  lemma FirstMidnight(t: int)
    requires AtStart(MonthField, t)
    ensures Day(t) == 1 && Hour(t) == 0
  {
    hide Year, Month, DaysInMonth, DaysBeforeYear;
    ClockParts(FirstOfMonth(t), 0, 0, 0);
  }

  /** Where a pass of the month or the day loop lands: in the first hour of the next span. */
  lemma PassToMidnight(s: SpecSchedule, zone: int, f: Field, t: int, added: bool)
    requires f == MonthField || f == DayField
    requires !FieldMatches(s, f, t)
    requires added ==> Ready(s, t)
    ensures var u := Pass(zone, f, t, added);
            Hour(u) == 0 && DayNumber(u) == DayNumber(SpanEnd(f, t))
  {
    hide Year, Month, Day, Hour, Minute, Second, Date, AddDate, HasBit, DayMatches, DaysInMonth, DaysBeforeYear,
         Midnight;
    var t1 := if added then t else Reset(zone, f, t);
    MonthReset(t);
    DayReset(t);
    SameStart(f, t);
    DayStartsAtMidnight(t);
    if f == DayField {
      DayToMidnight(t1);
    } else {
      if !added { FirstMidnight(t1); }
      MonthToMidnight(t1);
    }
  }

  /** After a pass the finer loops go on, or the search wraps: then a coarser span ran out. */
  lemma PassStays(s: SpecSchedule, zone: int, f: Field, t: int, added: bool)
    requires CoarserMatch(s, f, t) && !FieldMatches(s, f, t)
    requires added ==> Ready(s, t)
    ensures var u := Pass(zone, f, t, added);
            Ready(s, u) && (Wraps(f, u) || (Year(u) == Year(t) && CoarserMatch(s, f, u)))
  {
    hide Year, Month, Day, Hour, Minute, Second, Pass, HasBit, DayMatches, DaysInMonth, DaysBeforeYear, DayNumber;
    match f {
      case MonthField => MonthPassStays(s, zone, t, added);
      case DayField => DayPassStays(s, zone, t, added);
      case _ => ClockPassStays(s, zone, f, t, added);
    }
  }

  lemma MonthPassStays(s: SpecSchedule, zone: int, t: int, added: bool)
    requires !FieldMatches(s, MonthField, t)
    requires added ==> Ready(s, t)
    ensures var u := Pass(zone, MonthField, t, added);
            Ready(s, u) && (Wraps(MonthField, u) || Year(u) == Year(t)) && CoarserMatch(s, MonthField, u)
  {
    hide Year, Month, Day, Hour, Minute, Second, Pass, HasBit, DayMatches, DaysInMonth, DaysBeforeYear, DayNumber,
         SpanEnd;
    var u := Pass(zone, MonthField, t, added);
    PassToMidnight(s, zone, MonthField, t, added);
    NextMonth(t);
    FirstMidnight(SpanEnd(MonthField, t));
    SameDay(s, SpanEnd(MonthField, t), u);
  }

  lemma DayPassStays(s: SpecSchedule, zone: int, t: int, added: bool)
    requires FieldMatches(s, MonthField, t) && !FieldMatches(s, DayField, t)
    requires added ==> Ready(s, t)
    ensures var u := Pass(zone, DayField, t, added);
            Ready(s, u) && (Wraps(DayField, u) || (Year(u) == Year(t) && CoarserMatch(s, DayField, u)))
  {
    hide Year, Month, Day, Hour, Minute, Second, Pass, HasBit, DayMatches, DaysInMonth, DaysBeforeYear, DayNumber,
         SpanEnd;
    var u := Pass(zone, DayField, t, added);
    PassToMidnight(s, zone, DayField, t, added);
    DayStartsAtMidnight(t);
    NextDay(t, u);
  }

  /** The passes of the three loops of the clock move on by at most their unit. */
  lemma PassWithin(zone: int, f: Field, t: int, added: bool)
    requires Rank(f) < 3
    ensures t < Pass(zone, f, t, added) <= t + (match f case HourField => HOUR case MinuteField => MINUTE case _ => 1)
  {
    hide Year, Month, Day, Hour, Minute, Second, Date;
    PassAdvances(zone, f, t, added);
    HourReset(t);
  }

  /** Less than an hour on is the same day, or the first hour of the next. */
  lemma WithinHour(s: SpecSchedule, t: int, u: int)
    requires t < u <= t + HOUR
    requires FieldMatches(s, MonthField, t) && FieldMatches(s, DayField, t)
    ensures Ready(s, u)
    ensures DayNumber(u) == DayNumber(t) || Hour(u) == 0
  {
    hide Year, Month, Day, Minute, Second, HasBit, DayMatches, DaysInMonth, DaysBeforeYear;
    if u < SpanEnd(DayField, t) {
      InDay(s, t, u);
      SameQuotient(DAY, t, u);
      SameDay(s, t, u);
    } else {
      var n := DayNumber(t) + 1;
      assert u == DAY * n + (u - DAY * n);
      Quotient(DAY, n, u - DAY * n);
      if u < DAY * n + HOUR { Quotient(HOUR, 24 * n, u - DAY * n); }
      assert t == DAY * DayNumber(t) + t % DAY;
      NextDay(t, u);
    }
  }

  function NextCoarser(f: Field): Field
  {
    match f
    case SecondField => MinuteField
    case MinuteField => HourField
    case HourField => DayField
    case _ => MonthField
  }

  /** Within one unit after the coarser span ran out, a field of the clock is back at zero. */
  lemma BackAtZero(f: Field, t: int, u: int)
    requires Rank(f) < 3
    requires var e := SpanEnd(NextCoarser(f), t);
             e <= u < e + (match f case HourField => HOUR case MinuteField => MINUTE case _ => 1)
    ensures Wraps(f, u)
  {
    hide Hour, Minute, Second;
    var day, hour, minute := t / DAY + 1, t / HOUR + 1, t / MINUTE + 1;
    match f {
      case HourField => HourAtZero(day, u);
      case MinuteField => MinuteAtZero(hour, u);
      case _ => SecondAtZero(minute);
    }
  }

  lemma HourAtZero(day: int, u: int)
    requires DAY * day <= u < DAY * day + HOUR
    ensures Hour(u) == 0
  {
    Quotient(HOUR, 24 * day, u - DAY * day);
  }

  lemma MinuteAtZero(hour: int, u: int)
    requires HOUR * hour <= u < HOUR * hour + MINUTE
    ensures Minute(u) == 0
  {
    Quotient(MINUTE, 60 * hour, u - HOUR * hour);
  }

  lemma SecondAtZero(minute: int)
    ensures Second(MINUTE * minute) == 0
  {
    Quotient(MINUTE, minute, 0);
  }

  lemma ClockPassStays(s: SpecSchedule, zone: int, f: Field, t: int, added: bool)
    requires Rank(f) < 3
    requires CoarserMatch(s, f, t)
    ensures var u := Pass(zone, f, t, added);
            Ready(s, u) && (Wraps(f, u) || (Year(u) == Year(t) && CoarserMatch(s, f, u)))
  {
    hide Year, Month, Day, Hour, Minute, Second, Pass, HasBit, DayMatches, DaysInMonth, DaysBeforeYear, DayNumber,
         SpanStart, SpanEnd, Wraps;
    var u := Pass(zone, f, t, added);
    var next := NextCoarser(f);
    PassWithin(zone, f, t, added);
    assert FieldMatches(s, MonthField, t) && FieldMatches(s, DayField, t);
    WithinHour(s, t, u);
    SpanHolds(next, t);
    if u < SpanEnd(next, t) {
      forall g | Rank(f) < Rank(g)
        ensures FieldMatches(s, g, u) && (g == MonthField ==> Year(u) == Year(t))
      {
        Nested(next, g, t);
        SpanHolds(g, t);
        SameSpan(s, g, t, u);
      }
      assert Rank(f) < Rank(MonthField);
    } else {
      BackAtZero(f, t, u);
    }
  }

  /** One pass of one of the loops does one step of the search. */
  lemma PassIsStep(s: SpecSchedule, zone: int, f: Field, t: int, added: bool, limit: int)
    requires Year(t) <= limit
    requires f == MonthField || CoarserMatch(s, f, t)
    requires !FieldMatches(s, f, t)
    requires added ==> Ready(s, t)
    ensures var u := Pass(zone, f, t, added);
            && t < u
            && Search(s, zone, u, true, limit) == Search(s, zone, t, added, limit)
            && Ready(s, u)
            && (Wraps(f, u) || (Year(u) <= limit && CoarserMatch(s, f, u)))
  {
    hide Year, Pass, FieldMatches, Ready, Wraps, EndOf;
    PassAdvances(zone, f, t, added);
    PassStays(s, zone, f, t, added);
    CoarsestIs(s, f, t);
  }

  lemma CoarsestIs(s: SpecSchedule, f: Field, t: int)
    requires CoarserMatch(s, f, t) && !FieldMatches(s, f, t)
    ensures Coarsest(s, t) == Some(f)
  {
    hide FieldMatches;
  }

  lemma SearchEnds(s: SpecSchedule, zone: int, t: int, added: bool, limit: int)
    requires Year(t) <= limit
    requires CoarserMatch(s, SecondField, t) && FieldMatches(s, SecondField, t)
    ensures Search(s, zone, t, added, limit) == Some(t) && Matches(s, t)
  {
    hide FieldMatches, Year, Matches;
    AllFieldsMatch(s, t);
  }

  lemma AllFieldsMatch(s: SpecSchedule, t: int)
    requires CoarserMatch(s, SecondField, t) && FieldMatches(s, SecondField, t)
    ensures Matches(s, t)
  {
    hide DayMatches, HasBit, Year, Month, Day, Hour, Minute, Second;
    assert FieldMatches(s, MonthField, t) && FieldMatches(s, DayField, t);
    assert FieldMatches(s, HourField, t) && FieldMatches(s, MinuteField, t);
  }

  // ----- The search against the one second by second

  /** What the search finds matches, and lies neither before its start nor after its last year. */
  lemma {:induction false} SearchMatches(s: SpecSchedule, zone: int, t: int, added: bool, limit: int)
    ensures match Search(s, zone, t, added, limit)
            case Some(u) => t <= u && Year(u) <= limit && Matches(s, u)
            case None => true
    decreases EndOf(limit) - t
  {
    hide Year, Pass, EndOf, HasBit, DayMatches, Month, Hour, Minute, Second;
    if Year(t) <= limit && Coarsest(s, t).Some? {
      var f := Coarsest(s, t).value;
      BeforeEnd(t, limit);
      PassAdvances(zone, f, t, added);
      SearchMatches(s, zone, Pass(zone, f, t, added), true, limit);
    }
  }

  /** Whatever the zone, a result is an activation strictly after the time asked about; one that is
      not the next activation is later. */
  lemma SearchResultIsLater(s: SpecSchedule, t: Time)
    requires t.Valid()
    ensures match SearchResult(s, t)
            case Some(r) =>
              && Before(t, r) && r.zone == t.zone && ActiveAt(s, ZoneFor(s, t), r)
              && NextActivation(s, t).Some? && !Before(r, NextActivation(s, t).value)
            case None => true
  {
    hide Matches, Year, Search;
    SearchMatches(s, ZoneFor(s, t), Start(s, t), false, YearLimit(s, t));
    LinearIsFirst(s, Start(s, t), SearchEnd(s, t));
    match SearchResult(s, t) {
      case Some(r) => BeforeEnd(r.sec + ZoneFor(s, t), YearLimit(s, t));
      case None =>
    }
  }

  lemma {:induction false} LinearSkips(s: SpecSchedule, t: int, u: int, end: int)
    requires t <= u && NoneBefore(s, t, u)
    ensures LinearNext(s, t, end) == LinearNext(s, u, end)
    decreases u - t
  {
    hide Matches;
    if t < u && t < end { LinearSkips(s, t + 1, u, end); }
  }

  /** One pass on an aligned clock: it skips no match, moves strictly on to the end of the span, and
      leaves every field holding or at its minimum. */
  lemma StepTo(s: SpecSchedule, zone: int, f: Field, t: int, added: bool)
    requires CoarserMatch(s, f, t) && !FieldMatches(s, f, t)
    requires if added then Settled(s, t) else zone % MINUTE == 0 || f != MinuteField
    ensures var u := Pass(zone, f, t, added);
            u == SpanEnd(f, t) && t < u && NoneBefore(s, t, u) && Settled(s, u)
  {
    hide Matches, DayMatches, HasBit, Year, Month, Day, Hour, Minute, Second, DaysBeforeYear, DaysInMonth, FirstOfMonth,
         Date, AddDate, SpanStart, SpanEnd, Midnight;
    var t1 := SpanStart(f, t);
    SpanHolds(f, t);
    NoneBetween(s, t);
    Skip(s, f, t, t);
    SameStart(f, t);
    if !added { ResetAligns(zone, f, t); }
    assert t1 == if added then t else Reset(zone, f, t);
    StepFromStart(f, t1);
  }

  lemma ResetAligns(zone: int, f: Field, t: int)
    requires zone % MINUTE == 0 || f != MinuteField
    ensures Reset(zone, f, t) == SpanStart(f, t)
  {
    hide Year, Month, Day, Hour, Minute, Second, Date, FirstOfMonth;
    match f {
      case MonthField => MonthReset(t);
      case DayField => DayReset(t);
      case HourField => HourReset(t);
      case MinuteField => MinuteReset(t, zone);
      case SecondField =>
    }
  }

  lemma StepFromStart(f: Field, t: int)
    requires AtStart(f, t)
    ensures Increment(f, t) == SpanEnd(f, t)
  {
    hide Year, Month, Day, Hour, Minute, Second, FirstOfMonth, DaysInMonth, AddDate;
    match f {
      case MonthField => MonthStep(t);
      case DayField => DayStep(t); DayStartsAtMidnight(t);
      case _ =>
    }
  }

  lemma NoneBetween(s: SpecSchedule, t: int)
    ensures NoneBefore(s, t, t)
  {
  }

  /** Unless the truncation to a minute that cuts minutes comes first, the search is the one second by second. */
  lemma {:induction false} SearchIsLinear(s: SpecSchedule, zone: int, t: int, added: bool, limit: int)
    requires if added then Settled(s, t) else zone % MINUTE == 0 || Coarsest(s, t) != Some(MinuteField)
    ensures Search(s, zone, t, added, limit) == LinearNext(s, t, EndOf(limit))
    decreases EndOf(limit) - t
  {
    hide Year, Pass, EndOf, HasBit, DayMatches, Month, Hour, Minute, Second, FieldMatches, Matches, Settled, NoneBefore,
         SpanEnd;
    BeforeEnd(t, limit);
    if Year(t) <= limit {
      CoarserHold(s, t);
      match Coarsest(s, t) {
        case Some(f) =>
          StepTo(s, zone, f, t, added);
          var u := Pass(zone, f, t, added);
          LinearSkips(s, t, u, EndOf(limit));
          SearchIsLinear(s, zone, u, true, limit);
        case None => AllFieldsMatch(s, t);
      }
    }
  }

  lemma CoarserHold(s: SpecSchedule, t: int)
    ensures match Coarsest(s, t)
            case Some(f) => CoarserMatch(s, f, t) && !FieldMatches(s, f, t)
            case None => CoarserMatch(s, SecondField, t) && FieldMatches(s, SecondField, t)
  {
    hide FieldMatches;
  }

  // ----- The search on a clock that truncation leaves `r` seconds into the minute

  /** The month, the day, the hour and the minute hold. */
  ghost predicate OpenMinute(s: SpecSchedule, t: int) { CoarserMatch(s, SecondField, t) }

  /** No minute from `m` up to `n` is open. */
  ghost predicate NoneOpen(s: SpecSchedule, m: int, n: int)
  {
    forall u :: m <= u < n ==> !OpenMinute(s, u)
  }

  lemma SameMinute(s: SpecSchedule, m: int, r: int)
    requires AtStart(MinuteField, m) && 0 <= r < MINUTE
    ensures forall g :: 1 <= Rank(g) ==> FieldMatches(s, g, m + r) == FieldMatches(s, g, m)
    ensures forall g :: 1 <= Rank(g) ==> SpanStart(g, m + r) == SpanStart(g, m) && SpanEnd(g, m + r) == SpanEnd(g, m)
    ensures Second(m + r) == r && Year(m + r) == Year(m)
  {
    hide Year, Month, Day, Hour, Minute, FieldMatches, FirstOfMonth, DaysInMonth;
    Quotient(MINUTE, m / MINUTE, r);
    forall g | 1 <= Rank(g)
      ensures FieldMatches(s, g, m + r) == FieldMatches(s, g, m)
      ensures SpanStart(g, m + r) == SpanStart(g, m) && SpanEnd(g, m + r) == SpanEnd(g, m)
      ensures g == MonthField ==> Year(m + r) == Year(m)
    {
      Nested(MinuteField, g, m);
      SameSpan(s, g, m, m + r);
    }
    assert 1 <= Rank(MonthField);
  }

  /** An increment moves a clock within the first minute of a span to within the first minute of the next. */
  lemma OffIncrement(f: Field, m: int, r: int)
    requires AtStart(f, m) && 1 <= Rank(f) && 0 <= r < MINUTE
    ensures Increment(f, m + r) == SpanEnd(f, m) + r
  {
    hide Year, Month, Day, Hour, Minute, Second, FirstOfMonth, DaysInMonth, AddDate;
    var any := SpecSchedule(ZERO, ZERO, ZERO, ZERO, ZERO, ZERO, Local);
    Nested(MinuteField, f, m);
    SpanHolds(MinuteField, m);
    assert AtStart(MinuteField, m);
    SameMinute(any, m, r);
    match f {
      case MonthField => MonthStep(m + r);
      case DayField =>
        DayStep(m + r);
        DayStartsAtMidnight(m);
        ClockParts(DayNumber(m), 0, 0, r);
      case _ =>
    }
  }

  /** One pass of the misaligned clock: it follows the aligned one at `r` seconds. */
  lemma OffPass(s: SpecSchedule, zone: int, f: Field, m: int, r: int)
    requires AtStart(MinuteField, m) && Settled(s, m) && 0 <= r < MINUTE
    requires 1 <= Rank(f) && CoarserMatch(s, f, m) && !FieldMatches(s, f, m)
    ensures var u := SpanEnd(f, m);
            && Pass(zone, f, m + r, true) == u + r
            && Coarsest(s, m + r) == Some(f)
            && m < u && AtStart(MinuteField, u) && Settled(s, u) && NoneOpen(s, m, u)
  {
    hide Year, Month, Day, Hour, Minute, Second, FieldMatches, FirstOfMonth, DaysInMonth, Increment, SpanStart, SpanEnd;
    OffIncrement(f, m, r);
    SameMinute(s, m, r);
    CoarsestIs(s, f, m + r);
    NoneBetween(s, m);
    Skip(s, f, m, m);
    MinuteAtEnd(f, m);
    SpanHolds(f, m);
    forall u | m <= u < SpanEnd(f, m) ensures !OpenMinute(s, u) {
      SameSpan(s, f, m, u);
    }
  }

  lemma MinuteAtEnd(f: Field, m: int)
    requires 1 <= Rank(f)
    ensures AtStart(MinuteField, SpanEnd(f, m))
  {
    hide Year, Month, Day, Hour, Minute, FirstOfMonth, DaysInMonth, SpanEnd;
    var u := SpanEnd(f, m);
    EndIsStart(f, m);
    Nested(MinuteField, f, u);
    SpanHolds(MinuteField, u);
  }

  /** The misaligned search enters the first open minute `n` at its second `r`. */
  lemma {:induction false} OffSearch(s: SpecSchedule, zone: int, m: int, r: int, limit: int) returns (n: int)
    requires AtStart(MinuteField, m) && Settled(s, m) && 0 <= r < MINUTE
    ensures m <= n && AtStart(MinuteField, n) && NoneOpen(s, m, n)
    ensures if Year(n) > limit then Search(s, zone, m + r, true, limit) == None
            else OpenMinute(s, n) && Search(s, zone, m + r, true, limit) == LinearNext(s, n + r, EndOf(limit))
    decreases EndOf(limit) - m
  {
    hide Year, Pass, EndOf, HasBit, DayMatches, Month, Hour, Minute, Second, FieldMatches, Matches, NoneBefore,
         SpanStart, SpanEnd;
    n := m;
    SameMinute(s, m, r);
    BeforeEnd(m, limit);
    if Year(m) <= limit {
      CoarserHold(s, m);
      var c := Coarsest(s, m);
      if c.Some? && c.value != SecondField {
        OffPass(s, zone, c.value, m, r);
        n := OffSearch(s, zone, SpanEnd(c.value, m), r, limit);
      } else {
        SettledInside(s, m, r);
        SearchIsLinear(s, zone, m + r, true, limit);
      }
    }
  }

  lemma SettledInside(s: SpecSchedule, m: int, r: int)
    requires AtStart(MinuteField, m) && 0 <= r < MINUTE
    requires OpenMinute(s, m)
    ensures Settled(s, m + r)
  {
    hide FieldMatches, Year, Second;
    SameMinute(s, m, r);
    var u := m + r;
    forall f ensures FieldMatches(s, f, u) || AtStart(f, u) {
      assert f != SecondField ==> 1 <= Rank(f);
    }
  }

  /** The schedule has no second before the second `r`. */
  predicate SecondsFrom(s: SpecSchedule, r: int) { forall k :: 0 <= k < r && k < 60 ==> !HasBit(s.second, k) }

  /** Entering an open minute late loses its activations before that second, if it has any. */
  lemma LateInMinute(s: SpecSchedule, m: int, r: int, limit: int)
    requires AtStart(MinuteField, m) && OpenMinute(s, m) && 0 <= r < MINUTE && Year(m) <= limit
    ensures SecondsFrom(s, r) ==> LinearNext(s, m, EndOf(limit)) == LinearNext(s, m + r, EndOf(limit))
    ensures !SecondsFrom(s, r) ==>
              LinearNext(s, m, EndOf(limit)).Some?
                && LinearNext(s, m, EndOf(limit)) != LinearNext(s, m + r, EndOf(limit))
  {
    hide Year, DayMatches, Month, Hour, Minute, Second, EndOf, HasBit;
    var end := EndOf(limit);
    if SecondsFrom(s, r) {
      forall u | m <= u < m + r ensures !Matches(s, u) {
        SameMinute(s, m, u - m);
      }
      LinearSkips(s, m, m + r, end);
    } else {
      var k :| 0 <= k < r && k < 60 && HasBit(s.second, k);
      SameMinute(s, m, k);
      AllFieldsMatch(s, m + k);
      BeforeEnd(m + k, limit);
      LinearIsFirst(s, m, end);
      LinearIsFirst(s, m + r, end);
    }
  }

  /** Truncating a clock misaligned by `r` seconds and adding a minute. */
  lemma OffTruncate(t: int, zone: int)
    requires zone % MINUTE != 0
    ensures var r := zone % MINUTE;
            var m := SpanStart(MinuteField, t);
            Truncate(t, zone, MINUTE) + MINUTE == r + if t % MINUTE < r then m else m + MINUTE
  {
    var r, v := zone % MINUTE, t - zone;
    var q := t / MINUTE - zone / MINUTE;
    assert v == MINUTE * q + (t % MINUTE - r);
    if t % MINUTE < r {
      Quotient(MINUTE, q - 1, MINUTE + t % MINUTE - r);
      assert v == MINUTE * (q - 1) + (MINUTE + t % MINUTE - r);
    } else {
      Quotient(MINUTE, q, t % MINUTE - r);
    }
  }

  /** The start of a minute that does not hold, and its end, are settled. */
  lemma AroundMinute(s: SpecSchedule, t: int)
    requires Coarsest(s, t) == Some(MinuteField)
    ensures var m := SpanStart(MinuteField, t);
            && m <= t < m + MINUTE
            && AtStart(MinuteField, m) && AtStart(MinuteField, m + MINUTE)
            && Settled(s, m) && Settled(s, m + MINUTE)
            && NoneOpen(s, m, m + MINUTE)
  {
    hide Year, HasBit, DayMatches, Month, Hour, Minute, Second, FieldMatches;
    var m := SpanStart(MinuteField, t);
    CoarserHold(s, t);
    SpanHolds(MinuteField, t);
    SameStart(MinuteField, t);
    MinuteAtEnd(MinuteField, t);
    SameMinute(s, m, t - m);
    NoneBetween(s, t);
    Skip(s, MinuteField, t, t);
    forall u | m <= u < m + MINUTE ensures !OpenMinute(s, u) { SameMinute(s, m, u - m); }
  }

  /** A search that starts with a misaligned truncation enters the first open minute late. */
  lemma OffStart(s: SpecSchedule, zone: int, t: int, limit: int) returns (n: int)
    requires zone % MINUTE != 0 && Year(t) <= limit && Coarsest(s, t) == Some(MinuteField)
    ensures t < n && AtStart(MinuteField, n) && NoneOpen(s, t, n)
    ensures if Year(n) > limit then Search(s, zone, t, false, limit) == None
            else && OpenMinute(s, n)
                 && Search(s, zone, t, false, limit) == LinearNext(s, n + zone % MINUTE, EndOf(limit))
  {
    hide Year, EndOf, HasBit, DayMatches, Month, Hour, Minute, Second, FieldMatches, Matches, LinearNext, Settled,
         Coarsest;
    var r := zone % MINUTE;
    var m := SpanStart(MinuteField, t);
    OffTruncate(t, zone);
    AroundMinute(s, t);
    n := OffSearch(s, zone, if t % MINUTE < r then m else m + MINUTE, r, limit);
    SameMinute(s, m, t - m);
    if n < m + MINUTE { SameMinute(s, m, n - m); }
  }

  /** The search is the one second by second if and only if it does not start by truncating to a minute
      that cuts minutes, or the seconds that the truncation skips are not in the schedule, or there is
      nothing to find. */
  lemma SearchIsRightExactly(s: SpecSchedule, t: Time)
    ensures SearchResult(s, t) == NextActivation(s, t) <==>
              || ZoneFor(s, t) % MINUTE == 0
              || Coarsest(s, Start(s, t)) != Some(MinuteField)
              || SecondsFrom(s, ZoneFor(s, t) % MINUTE)
              || NextActivation(s, t).None?
  {
    hide Year, EndOf, HasBit, DayMatches, Month, Hour, Minute, Second, FieldMatches, Matches, LinearNext, Search,
         Coarsest;
    var zone, u, limit := ZoneFor(s, t), Start(s, t), YearLimit(s, t);
    if zone % MINUTE == 0 || Coarsest(s, u) != Some(MinuteField) {
      SearchIsLinear(s, zone, u, false, limit);
    } else {
      var n := OffStart(s, zone, u, limit);
      forall v | u <= v < n ensures !Matches(s, v) { OpenWhenMatching(s, v); }
      LinearSkips(s, u, n, EndOf(limit));
      BeforeEnd(n, limit);
      if Year(n) <= limit { LateInMinute(s, n, zone % MINUTE, limit); } else { LinearOver(s, n, EndOf(limit)); }
    }
  }

  lemma OpenWhenMatching(s: SpecSchedule, v: int)
    ensures Matches(s, v) ==> OpenMinute(s, v)
  {
    hide Year, HasBit, DayMatches, Month, Hour, Minute, Second;
  }

  lemma LinearOver(s: SpecSchedule, t: int, end: int)
    requires t >= end
    ensures LinearNext(s, t, end) == None
  {
  }

  /** At five past every hour. */
  const HOURLY := SpecSchedule({0}, {5}, (set h | 0 <= h < 24), (set d | 1 <= d < 32), (set m | 1 <= m < 13),
                               (set w | 0 <= w < 7), Local)

  lemma HourlyHolds(v: int)
    ensures Matches(HOURLY, v) <==> Minute(v) == 5 && Second(v) == 0
    ensures OpenMinute(HOURLY, v) <==> Minute(v) == 5
    ensures Minute(v) != 5 ==> Coarsest(HOURLY, v) == Some(MinuteField)
  {
    hide Year, Month, Day, Hour, Minute, Second, Weekday;
    assert FieldMatches(HOURLY, MonthField, v) && FieldMatches(HOURLY, HourField, v);
    assert HasBit(HOURLY.dom, Day(v)) && HasBit(HOURLY.dow, Weekday(v));
    assert FieldMatches(HOURLY, DayField, v);
    assert FieldMatches(HOURLY, MinuteField, v) <==> Minute(v) == 5;
    assert Rank(SecondField) < Rank(MinuteField);
  }

  lemma MinuteOf(q: int, k: int)
    requires 0 <= k < HOUR
    ensures Minute(HOUR * q + k) == k / MINUTE && Second(HOUR * q + k) == k % MINUTE
  {
    Quotient(MINUTE, 60 * q + k / MINUTE, k % MINUTE);
  }

  /** In the hour after `t` and the next, the hourly schedule holds at five past, and only then. */
  lemma HourlyTwice(q: int, k: int)
    requires 0 <= k < 2 * HOUR
    ensures Matches(HOURLY, HOUR * q + k) <==> k == 5 * MINUTE || k == HOUR + 5 * MINUTE
    ensures k < HOUR ==> (OpenMinute(HOURLY, HOUR * q + k) <==> 5 * MINUTE <= k < 6 * MINUTE)
    ensures k < MINUTE ==> Coarsest(HOURLY, HOUR * q + k) == Some(MinuteField)
  {
    hide Matches, OpenMinute, Coarsest, Minute, Second;
    HourlyHolds(HOUR * q + k);
    if k < HOUR {
      MinuteOf(q, k);
    } else {
      MinuteOf(q + 1, k - HOUR);
      assert HOUR * (q + 1) + (k - HOUR) == HOUR * q + k;
    }
  }

  lemma SameYear(day: int, hour: int, k: int)
    requires 0 <= hour < 23 && 0 <= k < 2 * HOUR
    ensures Year(DAY * day + HOUR * hour + k) == Year(DAY * day)
  {
    hide Year, Month, Day, Weekday;
    Quotient(DAY, day, HOUR * hour + k);
    Quotient(DAY, day, 0);
    SameDay(HOURLY, DAY * day + HOUR * hour + k, DAY * day);
  }

  /** In any zone that cuts minutes, asked on the hour for five past it, the search answers an hour late. */
  lemma ActivationMissed(day: int, hour: int, zone: int)
    requires 0 <= hour < 23 && zone % MINUTE != 0
    ensures var t := DAY * day + HOUR * hour;
            var asked := Time(t - zone, 0, zone);
            && NextActivation(HOURLY, asked) == Some(Time(t + 5 * MINUTE - zone, 0, zone))
            && SearchResult(HOURLY, asked) == Some(Time(t + HOUR + 5 * MINUTE - zone, 0, zone))
  {
    hide Year, EndOf, Matches, OpenMinute, Coarsest, LinearNext, Search;
    var t := DAY * day + HOUR * hour;
    var asked := Time(t - zone, 0, zone);
    var limit := YearLimit(HOURLY, asked);
    assert ZoneFor(HOURLY, asked) == zone && Start(HOURLY, asked) == t + 1;
    HourlySearched(day, hour, zone, limit);
  }

  lemma HourlyReadings(day: int, hour: int, v: int)
    requires 0 <= hour < 23
    requires var t := DAY * day + HOUR * hour; t <= v < t + 2 * HOUR
    ensures var t := DAY * day + HOUR * hour;
            && (Matches(HOURLY, v) <==> v == t + 5 * MINUTE || v == t + HOUR + 5 * MINUTE)
            && (v < t + HOUR ==> (OpenMinute(HOURLY, v) <==> t + 5 * MINUTE <= v < t + 6 * MINUTE))
            && (v < t + MINUTE ==> Coarsest(HOURLY, v) == Some(MinuteField))
            && Year(v) == Year(t + 1)
            && (v < EndOf(Year(t + 1) + 5))
  {
    hide Year, EndOf, Matches, OpenMinute, Coarsest;
    var t := DAY * day + HOUR * hour;
    assert t == HOUR * (24 * day + hour);
    HourlyTwice(24 * day + hour, v - t);
    SameYear(day, hour, v - t);
    SameYear(day, hour, 1);
    BeforeEnd(v, Year(t + 1) + 5);
  }

  lemma HourlySearched(day: int, hour: int, zone: int, limit: int)
    requires 0 <= hour < 23 && zone % MINUTE != 0
    requires limit == Year(DAY * day + HOUR * hour + 1) + 5
    ensures var t := DAY * day + HOUR * hour;
            && LinearNext(HOURLY, t + 1, EndOf(limit)) == Some(t + 5 * MINUTE)
            && Search(HOURLY, zone, t + 1, false, limit) == Some(t + HOUR + 5 * MINUTE)
  {
    hide Year, EndOf, Matches, OpenMinute, Coarsest, LinearNext, Search, SpanStart;
    var t := DAY * day + HOUR * hour;
    forall v | t <= v < t + 2 * HOUR
      ensures Matches(HOURLY, v) <==> v == t + 5 * MINUTE || v == t + HOUR + 5 * MINUTE
      ensures v < t + HOUR ==> (OpenMinute(HOURLY, v) <==> t + 5 * MINUTE <= v < t + 6 * MINUTE)
      ensures Year(v) <= limit && v < EndOf(limit)
    {
      HourlyReadings(day, hour, v);
    }
    HourlyReadings(day, hour, t + 1);
    var first, second := t + 5 * MINUTE, t + HOUR + 5 * MINUTE;
    var n := OffStart(HOURLY, zone, t + 1, limit);
    assert OpenMinute(HOURLY, first);
    assert t <= n <= first && Year(n) <= limit;
    MinuteStarts(n, first, t);
    LinearFinds(HOURLY, t + 1, first, EndOf(limit));
    LinearFinds(HOURLY, n + zone % MINUTE, second, EndOf(limit));
  }

  /** The first minute of two that start a whole number of minutes after `t`. */
  lemma MinuteStarts(n: int, first: int, t: int)
    requires AtStart(MinuteField, n) && first == t + 5 * MINUTE && t % MINUTE == 0
    requires first <= n < first + MINUTE || n == first
    ensures n == first
  {
  }

  /** The search is right for every schedule and time of a zone if and only if the zone does not cut minutes. */
  lemma RightExactlyInWholeMinutes(zone: int)
    ensures zone % MINUTE == 0 <==>
              forall s, t: Time :: t.Valid() && ZoneFor(s, t) == zone ==> SearchResult(s, t) == NextActivation(s, t)
  {
    hide SearchResult, NextActivation;
    if zone % MINUTE == 0 {
      forall s, t: Time | ZoneFor(s, t) == zone ensures SearchResult(s, t) == NextActivation(s, t) {
        SearchIsRightExactly(s, t);
      }
    } else {
      ActivationMissed(0, 0, zone);
      assert ZoneFor(HOURLY, Time(-zone, 0, zone)) == zone;
    }
  }

  function Finer(f: Field): Field
  {
    match f
    case MonthField => DayField
    case DayField => HourField
    case HourField => MinuteField
    case _ => SecondField
  }

  /** When a loop ends, its field and all coarser ones hold in the next. */
  lemma NextLoop(s: SpecSchedule, f: Field, t: int)
    requires f != SecondField && FieldMatches(s, f, t)
    requires f == MonthField || CoarserMatch(s, f, t)
    ensures CoarserMatch(s, Finer(f), t)
  {
    hide FieldMatches;
  }

  /** The jumping search. `continue WRAP` starts over from the month; the clock `t` is the reading in
      the schedule's zone. */
  method Next(s: SpecSchedule, t0: Time) returns (r: Option<Time>)
    requires t0.Valid()
    ensures r == SearchResult(s, t0)
    ensures ZoneFor(s, t0) % MINUTE == 0 ==> r == NextActivation(s, t0)
  {
    hide Matches, DayMatches, HasBit, Year, Month, Day, Hour, Minute, Second, AddDate, Date, DaysBeforeYear, EndOf,
         LinearNext, Search, Ready, CoarserMatch, NextActivation, Truncate, SecondsFrom, Coarsest;
    var origLocation := t0.zone;
    var zone := if s.location.Local? then t0.zone else s.location.offset;

    var t := t0.sec + 1 + zone;
    var added := false;
    var yearLimit := Year(t) + 5;
    ghost var found := Search(s, zone, t, false, yearLimit);
    SearchIsRightExactly(s, t0);

    label WRAP:
    while true
      invariant Search(s, zone, t, added, yearLimit) == found
      invariant added ==> Ready(s, t)
      decreases EndOf(yearLimit) - t
    {
      BeforeEnd(t, yearLimit);
      if Year(t) > yearLimit {
        SearchOver(s, zone, t, added, yearLimit);
        return None;
      }

      while !HasBit(s.month, Month(t))
        invariant Search(s, zone, t, added, yearLimit) == found
        invariant added ==> Ready(s, t)
        invariant Year(t) <= yearLimit
        decreases EndOf(yearLimit) - t
      {
        BeforeEnd(t, yearLimit);
        PassIsStep(s, zone, MonthField, t, added, yearLimit);
        if !added {
          added := true;
          t := Date(Year(t), Month(t), 1, 0, 0, 0);
        }
        t := AddDate(t, 1, 0);
        if Month(t) == 1 { continue WRAP; }
      }

      NextLoop(s, MonthField, t);
      while !DayMatches(s, t)
        invariant Search(s, zone, t, added, yearLimit) == found
        invariant added ==> Ready(s, t)
        invariant Year(t) <= yearLimit && CoarserMatch(s, DayField, t)
        decreases EndOf(yearLimit) - t
      {
        BeforeEnd(t, yearLimit);
        PassIsStep(s, zone, DayField, t, added, yearLimit);
        if !added {
          added := true;
          t := Date(Year(t), Month(t), Day(t), 0, 0, 0);
        }
        t := AddDate(t, 0, 1);
        if Hour(t) != 0 {
          if Hour(t) > 12 {
            t := t + (24 - Hour(t)) * HOUR;
          } else {
            t := t - Hour(t) * HOUR;
          }
        }
        if Day(t) == 1 { continue WRAP; }
      }

      NextLoop(s, DayField, t);
      while !HasBit(s.hour, Hour(t))
        invariant Search(s, zone, t, added, yearLimit) == found
        invariant added ==> Ready(s, t)
        invariant Year(t) <= yearLimit && CoarserMatch(s, HourField, t)
        decreases EndOf(yearLimit) - t
      {
        BeforeEnd(t, yearLimit);
        PassIsStep(s, zone, HourField, t, added, yearLimit);
        if !added {
          added := true;
          t := Date(Year(t), Month(t), Day(t), Hour(t), 0, 0);
        }
        t := t + HOUR;
        if Hour(t) == 0 { continue WRAP; }
      }

      NextLoop(s, HourField, t);
      while !HasBit(s.minute, Minute(t))
        invariant Search(s, zone, t, added, yearLimit) == found
        invariant added ==> Ready(s, t)
        invariant Year(t) <= yearLimit && CoarserMatch(s, MinuteField, t)
        decreases EndOf(yearLimit) - t
      {
        BeforeEnd(t, yearLimit);
        PassIsStep(s, zone, MinuteField, t, added, yearLimit);
        if !added {
          added := true;
          t := Truncate(t, zone, MINUTE);
        }
        t := t + MINUTE;
        if Minute(t) == 0 { continue WRAP; }
      }

      NextLoop(s, MinuteField, t);
      while !HasBit(s.second, Second(t))
        invariant Search(s, zone, t, added, yearLimit) == found
        invariant added ==> Ready(s, t)
        invariant Year(t) <= yearLimit && CoarserMatch(s, SecondField, t)
        decreases EndOf(yearLimit) - t
      {
        BeforeEnd(t, yearLimit);
        PassIsStep(s, zone, SecondField, t, added, yearLimit);
        if !added {
          added := true;
          t := Truncate(t, zone, 1);
        }
        t := t + 1;
        if Second(t) == 0 { continue WRAP; }
      }

      SearchEnds(s, zone, t, added, yearLimit);
      return Some(Time(t - zone, 0, origLocation));
    }
  }

  lemma SearchOver(s: SpecSchedule, zone: int, t: int, added: bool, limit: int)
    requires Year(t) > limit
    ensures Search(s, zone, t, added, limit) == None
  {
  }
}

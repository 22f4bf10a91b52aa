/** The crontab texts of the documentation and the numbers they stand for, written out. */
module CronLines {
  import opened Wrappers
  import opened Words
  import opened Strings
  import opened CronParser
  import opened CronText
  import S = CronSpec
  import CronDays

  // ----- Ranges

  function Num(n: nat): End { Numeral(PrintNat(n)) }

  lemma NumIs(n: nat, names: map<string, nat>)
    ensures Num(n).Valid(names) && Num(n).Text() == PrintNat(n) && NumberOf(PrintNat(n)) == n
    ensures Num(n).TooBig() <==> n > MAX_INT
  {
    DigitsOfPrint(n);
  }

  predicate IsOn(lo: nat, step: nat, i: int)
    requires step > 0
  {
    (i - lo) % step == 0
  }

  /** From `lo` on, every `step`-th number up to `hi`. */
  function Counted(lo: nat, hi: nat, step: nat): set<int>
    requires step > 0
  {
    set i | lo <= i <= hi && IsOn(lo, step, i)
  }

  /** What a range is read as, from its numbers: every error comes before the next. */
  ghost function Read(lo: nat, hi: nat, step: nat, star: bool, r: Bounds): Result<Word, FieldError>
    requires r.Valid()
  {
    if lo > MAX_INT || hi > MAX_INT || step > MAX_INT then Err(NotANumber)
    else if lo < r.min then Err(BelowMinimum)
    else if hi > r.max then Err(AboveMaximum)
    else if lo > hi then Err(StartAfterEnd)
    else if step == 0 then Err(ZeroStep)
    else Ok(Counted(lo, hi, step) + if star && step == 1 then {63} else {})
  }

  lemma ReadIsMeaning(item: Item, r: Bounds, lo: nat, hi: nat, step: nat)
    requires r.Valid() && item.Valid(r.names)
    requires item.step == Some(PrintNat(step)) || (item.step == None && step == 1)
    requires match item.base
             case Star(_) => lo == r.min && hi == r.max
             case One(n) => n == Num(lo) && hi == if item.step.Some? then r.max else lo
             case FromTo(low, high) => low == Num(lo) && high == Num(hi)
    ensures item.Meaning(r) == Read(lo, hi, step, item.base.Star?, r)
  {
    NumIs(lo, r.names);
    NumIs(hi, r.names);
    NumIs(step, r.names);
    hide PrintNat, DigitsValue, AllDigits;
    if step > 0 && hi < 63 { assert StepBits(lo, hi, step) == Counted(lo, hi, step); }
  }

  /** `*` and `?`, `a`, `a-b`, and each of them with a step: a number with a step runs to the maximum. */
  lemma Ranges(mark: char, a: nat, b: nat, step: nat, r: Bounds)
    requires r.Valid() && AreNames(r.names) && (mark == '*' || mark == '?')
    ensures GetRange([mark], r) == Read(r.min, r.max, 1, true, r)
    ensures GetRange([mark] + ("/" + PrintNat(step)), r) == Read(r.min, r.max, step, true, r)
    ensures GetRange(PrintNat(a), r) == Read(a, a, 1, false, r)
    ensures GetRange(PrintNat(a) + ("/" + PrintNat(step)), r) == Read(a, r.max, step, false, r)
    ensures GetRange(PrintNat(a) + "-" + PrintNat(b), r) == Read(a, b, 1, false, r)
    ensures GetRange(PrintNat(a) + "-" + PrintNat(b) + ("/" + PrintNat(step)), r) == Read(a, b, step, false, r)
  {
    RangeIs(Item(Star(mark), None), r, r.min, r.max, 1);
    RangeIs(Item(Star(mark), Some(PrintNat(step))), r, r.min, r.max, step);
    RangeIs(Item(One(Num(a)), None), r, a, a, 1);
    RangeIs(Item(One(Num(a)), Some(PrintNat(step))), r, a, r.max, step);
    RangeIs(Item(FromTo(Num(a), Num(b)), None), r, a, b, 1);
    RangeIs(Item(FromTo(Num(a), Num(b)), Some(PrintNat(step))), r, a, b, step);
    hide GetRange, Read, PrintNat;
    assert forall s: string :: s + "" == s;
  }

  lemma RangeIs(item: Item, r: Bounds, lo: nat, hi: nat, step: nat)
    requires r.Valid() && AreNames(r.names)
    requires item.step == Some(PrintNat(step)) || (item.step == None && step == 1)
    requires match item.base
             case Star(mark) => (mark == '*' || mark == '?') && lo == r.min && hi == r.max
             case One(n) => n == Num(lo) && hi == if item.step.Some? then r.max else lo
             case FromTo(low, high) => low == Num(lo) && high == Num(hi)
    ensures GetRange(item.Print(), r) == Read(lo, hi, step, item.base.Star?, r)
  {
    NumIs(lo, r.names);
    NumIs(hi, r.names);
    NumIs(step, r.names);
    hide GetRange, Read, PrintNat, AreNames;
    DigitsOfPrint(step);
    ReadIsMeaning(item, r, lo, hi, step);
    RangeText(item, r);
  }

  /** A second hyphen after a number, and a second slash after a range, are refused; a star reads no end. */
  lemma TooMany(a: nat, y: string, z: string, mark: char, r: Bounds)
    requires r.Valid() && AreNames(r.names) && a <= MAX_INT && (mark == '*' || mark == '?')
    requires '/' !in y && '/' !in z && '-' !in y
    ensures GetRange(PrintNat(a) + ("-" + (y + ("-" + z))), r) == Err(TooManyHyphens)
    ensures GetRange(PrintNat(a) + ("/" + (y + ("/" + z))), r) == Err(TooManySlashes)
    ensures GetRange([mark] + ("-" + z), r) == GetRange([mark], r)
  {
    hide StepBits, ToLower, MustParseInt, AreNames;
    var text := PrintNat(a);
    NumIs(a, r.names);
    EndIsRead(Num(a), r.names);
    SplitsInThree(text, y, z, '-');
    SplitsInThree(text, y, z, '/');
    hide ParseIntOrName, PrintNat;
    assert '/' !in text + ("-" + (y + ("-" + z)));
    SplitOne(text + ("-" + (y + ("-" + z))), '/');
    SplitOne(text, '-');
    SplitOne([mark] + ("-" + z), '/');
    SplitOne([mark], '/');
    SplitOne([mark], '-');
    assert [mark] + ['-'] + z == [mark] + ("-" + z);
    SplitFirst([mark], z, '-');
  }

  lemma SplitsInThree(x: string, y: string, z: string, c: char)
    requires c !in x && c !in y
    ensures Split(x + ([c] + (y + ([c] + z))), c) == [x, y] + Split(z, c)
  {
    assert x + [c] + (y + [c] + z) == x + ([c] + (y + ([c] + z)));
    SplitFirst(x, y + [c] + z, c);
    SplitFirst(y, z, c);
    assert [x] + ([y] + Split(z, c)) == [x, y] + Split(z, c);
  }

  /** Names of days and months, in either letter case, stand for their numbers. */
  lemma NamedRanges()
    ensures GetRange("mon-fri", DOW) == Ok({1, 2, 3, 4, 5}) && GetRange("SUN", DOW) == Ok({0})
    ensures GetRange("sat", DOW) == Ok({6}) && GetRange("Jan", MONTHS) == Ok({1})
    ensures GetRange("DEC", MONTHS) == Ok({12}) && GetRange("jun-aug", MONTHS) == Ok({6, 7, 8})
  {
    hide GetRange;
    NamedDays();
    NamedMonths();
  }

  lemma NamedDays()
    ensures GetRange("mon-fri", DOW) == Ok({1, 2, 3, 4, 5}) && GetRange("SUN", DOW) == Ok({0})
    ensures GetRange("sat", DOW) == Ok({6})
  {
    hide GetRange, AreNames, ToLower;
    DayNames();
    LowerNames();
    NamedRange("mon", "fri", "mon", "fri", DOW);
    NamedRange("SUN", "SUN", "sun", "sun", DOW);
    NamedRange("sat", "sat", "sat", "sat", DOW);
    assert Counted(1, 5, 1) == {1, 2, 3, 4, 5};
    assert "mon" + "-" + "fri" == "mon-fri";
  }

  lemma NamedMonths()
    ensures GetRange("Jan", MONTHS) == Ok({1}) && GetRange("DEC", MONTHS) == Ok({12})
    ensures GetRange("jun-aug", MONTHS) == Ok({6, 7, 8})
  {
    hide GetRange, AreNames, ToLower;
    MonthNames();
    LowerNames();
    NamedRange("Jan", "Jan", "jan", "jan", MONTHS);
    NamedRange("DEC", "DEC", "dec", "dec", MONTHS);
    NamedRange("jun", "aug", "jun", "aug", MONTHS);
    assert Counted(6, 8, 1) == {6, 7, 8};
    assert "jun" + "-" + "aug" == "jun-aug";
  }

  lemma LowerNames()
    ensures ToLower("mon") == "mon" && ToLower("fri") == "fri" && ToLower("SUN") == "sun" && ToLower("sat") == "sat"
    ensures ToLower("Jan") == "jan" && ToLower("DEC") == "dec" && ToLower("jun") == "jun" && ToLower("aug") == "aug"
  {
  }

  lemma NamedRange(low: string, high: string, lowName: string, highName: string, r: Bounds)
    requires r.Valid() && AreNames(r.names) && ToLower(low) == lowName && ToLower(high) == highName
    requires lowName in r.names && highName in r.names && r.names[lowName] <= r.names[highName]
    ensures GetRange(low + "-" + high, r) == Ok(Counted(r.names[lowName], r.names[highName], 1))
    ensures GetRange(low, r) == Ok({r.names[lowName]})
  {
    hide GetRange, AreNames, ToLower;
    var item, one := Item(FromTo(Name(low), Name(high)), None), Item(One(Name(low)), None);
    var lo, hi := r.names[lowName], r.names[highName];
    RangeText(item, r);
    RangeText(one, r);
    assert item.Print() == low + "-" + high && one.Print() == low;
    assert item.Meaning(r) == Ok(StepBits(lo, hi, 1) + {}) && one.Meaning(r) == Ok(StepBits(lo, lo, 1) + {});
    assert StepBits(lo, hi, 1) + {} == Counted(lo, hi, 1);
    assert StepBits(lo, lo, 1) + {} == {lo};
  }

  // ----- Letters

  /** Capital letters are read as small ones, and nothing else is changed. */
  lemma LowerCased(c: char, i: nat)
    requires i < 26
    ensures LowerChar(UPPER[i]) == LOWER[i] && (c !in UPPER ==> LowerChar(c) == c)
  {
    Alphanumerics(c);
    UpperCase(c);
    assert UPPER[i] == 'A' + i as char && LOWER[i] == 'a' + i as char by {
      assert forall k :: 0 <= k < 26 ==> UPPER[k] == 'A' + k as char;
      assert forall k :: 0 <= k < 26 ==> LOWER[k] == 'a' + k as char;
    }
  }

  // ----- Lines

  /** Options that include the last places, from `n` on, give the last fields. */
  lemma {:induction false} LastPlaces<T>(fields: seq<T>, options: set<ParseOption>, n: nat, from: nat)
    requires from <= |fields| == |PLACES| && n <= |PLACES|
    requires forall i :: 0 <= i < |PLACES| ==> (PLACES[i] in options <==> i >= n)
    ensures Given(fields, options, from) == if from >= n then fields[from..] else fields[n..]
    decreases |PLACES| - from
  {
    if from < |PLACES| {
      LastPlaces(fields, options, n, from + 1);
      GivenStep(fields, options, from);
    }
  }

  /** The parsers of the documentation: five fields, with the seconds at zero; six fields of which the
      seconds may be left out; and days only, of which those of the week may be left out. */
  method DocumentedParsers(texts: seq<string>)
    returns (standard: Result<seq<string>, NormalizeError>, seconds: Result<seq<string>, NormalizeError>,
             days: Result<seq<string>, NormalizeError>, both: Result<seq<string>, NormalizeError>)
    ensures standard == if |texts| == 5 then Ok(["0"] + texts) else Err(IncorrectNumber)
    ensures seconds == if |texts| == 6 then Ok(texts) else if |texts| == 5 then Ok(["0"] + texts)
                       else Err(IncorrectNumber)
    ensures days == if |texts| == 3 then Ok(["0", "0", "0"] + texts)
                    else if |texts| == 2 then Ok(["0", "0", "0"] + (texts + ["*"]))
                    else Err(IncorrectNumber)
    ensures both == Err(MultipleOptionals)
  {
    ghost var defaults := ["0", "0", "0", "*", "*", "*"];
    assert defaults[..0] == [] && defaults[..1] == ["0"] && defaults[..3] == ["0", "0", "0"];
    assert [] + texts == texts;
    standard := LastFields(texts, {Minute, Hour, Dom, Month, Dow}, 1);
    seconds := LastFields(texts, {SecondOptional, Minute, Hour, Dom, Month, Dow}, 0);
    days := LastFields(texts, {Dom, Month, DowOptional}, 3);
    both := NormalizeFields(texts, {SecondOptional, Minute, Hour, Dom, Month, DowOptional});
  }

  /** One optional field at most, and the places from `n` on. */
  method LastFields(texts: seq<string>, options: set<ParseOption>, n: nat)
    returns (res: Result<seq<string>, NormalizeError>)
    requires n <= 6 && !(SecondOptional in options && DowOptional in options)
    requires Second in options || SecondOptional in options <==> n == 0
    requires Minute in options <==> n <= 1
    requires Hour in options <==> n <= 2
    requires Dom in options <==> n <= 3
    requires Month in options <==> n <= 4
    requires Dow in options || DowOptional in options <==> n <= 5
    ensures |texts| == 6 - n ==> res == Ok(["0", "0", "0", "*", "*", "*"][..n] + texts)
    ensures |texts| == 5 - n && SecondOptional in options ==> res == Ok(["0"] + texts)
    ensures |texts| == 5 - n && DowOptional in options ==>
              res == Ok(["0", "0", "0", "*", "*", "*"][..n] + (texts + ["*"]))
    ensures |texts| != 6 - n && (|texts| != 5 - n || (SecondOptional !in options && DowOptional !in options)) ==>
              res == Err(IncorrectNumber)
  {
    hide Given;
    var all := WithOptionals(options);
    LastPlaces(PLACES, all, n, 0);
    res := NormalizeFields(texts, options);
    if res.Ok? {
      LastPlaces(res.value, all, n, 0);
      var fields := Completed(texts, options);
      assert res.value[n..] == fields;
      assert res.value[..n] == DEFAULTS[..n];
      assert res.value == res.value[..n] + res.value[n..];
    }
  }

  /** Every piece of the text is a range. */
  predicate Accepted(text: string, r: Bounds) { forall p :: p in Pieces(text) ==> GetRange(p, r).Ok? }

  lemma OnePiece(p: string, r: Bounds, bits: Word)
    requires p != "" && ',' !in p && GetRange(p, r).Ok?
    ensures Pieces(p) == [p] && Accepted(p, r)
    ensures IsField(p, r, bits) <==> bits == GetRange(p, r).value
  {
    hide GetRange;
    SplitOne(p, ',');
    assert [p][1..] == [];
    assert NonEmpty([p]) == [p] + NonEmpty([]);
    assert forall q :: q in Pieces(p) <==> q == p;
    hide Pieces;
    var value := GetRange(p, r).value;
    assert forall i :: i in value <==> exists q :: q in Pieces(p) && i in GetRange(q, r).value;
    if IsField(p, r, bits) { assert forall i :: i in bits <==> i in value; }
  }

  lemma ZeroSeconds(bits: Word)
    ensures GetRange("0", SECONDS) == Ok({0}) && Accepted("0", SECONDS) && Pieces("0") == ["0"]
    ensures IsField("0", SECONDS, bits) <==> bits == {0}
  {
    hide GetRange, Pieces, IsField, AreNames;
    BoundsAreValid();
    assert BOUNDS[0] == SECONDS;
    assert PrintNat(0) == "0";
    Ranges('*', 0, 0, 1, SECONDS);
    assert Counted(0, 0, 1) + {} == {0};
    OnePiece("0", SECONDS, bits);
  }

  /** A standard line of five fields: minutes, hours, days of the month, months and days of the week, on
      second zero. It is accepted exactly when every field is; otherwise the first that is not decides. */
  method ParseStandard(texts: seq<string>, location: S.Location) returns (res: Result<S.SpecSchedule, SpecError>)
    ensures |texts| != 5 ==> res == Err(InFields(IncorrectNumber))
    ensures |texts| == 5 ==>
              (res.Ok? <==>
                 Accepted(texts[0], MINUTES) && Accepted(texts[1], HOURS) && Accepted(texts[2], DOM)
                 && Accepted(texts[3], MONTHS) && Accepted(texts[4], DOW))
    ensures res.Ok? ==>
              && |texts| == 5 && res.value.location == location && res.value.second == {0}
              && IsField(texts[0], MINUTES, res.value.minute) && IsField(texts[1], HOURS, res.value.hour)
              && IsField(texts[2], DOM, res.value.dom) && IsField(texts[3], MONTHS, res.value.month)
              && IsField(texts[4], DOW, res.value.dow)
  {
    hide Given, IsField, Pieces, GetRange;
    var options := {Minute, Hour, Dom, Month, Dow};
    LastPlaces(PLACES, WithOptionals(options), 1, 0);
    var fields: seq<string>;
    res, fields := ParseFields(texts, options, location);
    if |texts| == 5 {
      LastPlaces(fields, WithOptionals(options), 1, 0);
      assert fields[1..] == texts && fields[0] == "0";
      if res.Ok? { ZeroSeconds(res.value.second); } else { ZeroSeconds({}); }
    }
  }

  /** `0 0 1 * *` is the first of every month at midnight. */
  method ParseMonthly(location: S.Location) returns (res: Result<S.SpecSchedule, SpecError>)
    ensures res == Ok(CronDays.FIRSTS.(location := location))
  {
    hide GetRange, IsField, Accepted, AreNames;
    res := ParseStandard(["0", "0", "1", "*", "*"], location);
    BoundsAreValid();
    assert BOUNDS[1] == MINUTES && BOUNDS[2] == HOURS && BOUNDS[3] == DOM && BOUNDS[4] == MONTHS && BOUNDS[5] == DOW;
    assert PrintNat(0) == "0" && PrintNat(1) == "1";
    Ranges('*', 0, 0, 1, MINUTES);
    Ranges('*', 0, 0, 1, HOURS);
    Ranges('*', 1, 1, 1, DOM);
    Ranges('*', 1, 1, 1, MONTHS);
    Ranges('*', 1, 1, 1, DOW);
    assert Counted(0, 0, 1) + {} == {0} && Counted(1, 1, 1) + {} == {1};
    assert Counted(1, 12, 1) + {63} == CronDays.FIRSTS.month && Counted(0, 6, 1) + {63} == CronDays.FIRSTS.dow;
    var s := if res.Ok? then res.value else CronDays.FIRSTS;
    OnePiece("0", MINUTES, s.minute);
    OnePiece("0", HOURS, s.hour);
    OnePiece("1", DOM, s.dom);
    OnePiece("*", MONTHS, s.month);
    OnePiece("*", DOW, s.dow);
  }
}

/** Cron fields as bit sets: `getField`, `getRange`, `getBits` and `normalizeFields`. */
module CronParser {
  import opened Wrappers
  import opened Words
  import opened Strings

  datatype Bounds = Bounds(min: nat, max: nat, names: map<string, nat>) {
    ghost predicate Valid() { min <= max < 63 && forall n :: n in names ==> min <= names[n] <= max }
  }

  const SECONDS := Bounds(0, 59, map[])
  const MINUTES := Bounds(0, 59, map[])
  const HOURS := Bounds(0, 23, map[])
  const DOM := Bounds(1, 31, map[])
  const MONTHS := Bounds(1, 12, map["jan" := 1, "feb" := 2, "mar" := 3, "apr" := 4, "may" := 5, "jun" := 6,
                                    "jul" := 7, "aug" := 8, "sep" := 9, "oct" := 10, "nov" := 11, "dec" := 12])
  const DOW := Bounds(0, 6, map["sun" := 0, "mon" := 1, "tue" := 2, "wed" := 3, "thu" := 4, "fri" := 5, "sat" := 6])

  /** The bounds of the six fields, in the order of their places. */
  const BOUNDS: seq<Bounds> := [SECONDS, MINUTES, HOURS, DOM, MONTHS, DOW]

  /** Names are words of lower-case letters. */
  ghost predicate AreNames(names: map<string, nat>)
  {
    forall n :: n in names ==> n != "" && forall c :: c in n ==> 'a' <= c <= 'z'
  }

  /** The fields' own bounds are what the range lemmas ask for. */
  lemma BoundsAreValid()
    ensures forall i :: 0 <= i < |BOUNDS| ==> BOUNDS[i].Valid() && AreNames(BOUNDS[i].names)
  {
    MonthNames();
    DayNames();
    assert AreNames(map[]);
    hide AreNames;
  }

  lemma MonthNames()
    ensures MONTHS.Valid() && AreNames(MONTHS.names)
  {
  }

  lemma DayNames()
    ensures DOW.Valid() && AreNames(DOW.names)
  {
  }

  datatype FieldError =
    | NotANumber
    | NegativeNumber
    | TooManyHyphens
    | TooManySlashes
    | BelowMinimum
    | AboveMaximum
    | StartAfterEnd
    | ZeroStep

  /** `i` is `lo` plus a multiple of `step`. */
  predicate OnStep(lo: nat, step: nat, i: int)
    requires step > 0
  {
    lo <= i && (i - lo) % step == 0
  }

  /** The positions `lo`, `lo + step`, `lo + 2 * step`, ... up to `hi`. */
  function StepBits(lo: nat, hi: nat, step: nat): Word
    requires step > 0
  {
    set i | 0 <= i < 64 && i <= hi && OnStep(lo, step, i)
  }

  /** All bits of a range: by shifts when the step is 1, and otherwise one by one. */
  method GetBits(min: nat, max: nat, step: nat) returns (bits: Word)
    requires step > 0
    ensures bits == StepBits(min, max, step)
  {
    hide OnStep;
    if step == 1 {
      ShiftBits(min, max);
      return And(Not(Shl(MAX, max + 1)), Shl(MAX, min));
    }
    bits := ZERO;
    var i := min;
    FirstMultiple(min, step);
    while i <= max
      invariant min <= i && OnStep(min, step, i)
      invariant forall j :: j in bits <==> 0 <= j < 64 && j <= max && j < i && OnStep(min, step, j)
      decreases max - i
    {
      ShiftedOne(i);
      NextMultiple(min, i, step);
      bits := Or(bits, Shl(ONE, i));
      i := i + step;
    }
  }

  lemma ShiftedOne(i: nat)
    ensures Shl(ONE, i) == if i < 64 then {i} else {}
  {
    assert i < 64 ==> 0 + i in Shl(ONE, i);
  }

  lemma ShiftedMax(k: nat, i: int)
    requires 0 <= i < 64
    ensures i in Shl(MAX, k) <==> k <= i
  {
    if k <= i { assert i - k in MAX && (i - k) + k in Shl(MAX, k); }
  }

  lemma ShiftBits(min: nat, max: nat)
    ensures And(Not(Shl(MAX, max + 1)), Shl(MAX, min)) == StepBits(min, max, 1)
  {
    var bits := And(Not(Shl(MAX, max + 1)), Shl(MAX, min));
    forall i | 0 <= i < 64 ensures i in bits <==> i in StepBits(min, max, 1) {
      ShiftedMax(max + 1, i);
      ShiftedMax(min, i);
    }
  }

  lemma FirstMultiple(lo: nat, step: nat)
    requires step > 0
    ensures OnStep(lo, step, lo)
    ensures forall j :: j < lo ==> !OnStep(lo, step, j)
  {
  }

  /** Between two neighbours of the progression there is no third. */
  lemma NextMultiple(lo: nat, i: nat, step: nat)
    requires step > 0 && OnStep(lo, step, i)
    ensures OnStep(lo, step, i + step)
    ensures forall j :: i < j < i + step ==> !OnStep(lo, step, j)
  {
    var q := (i - lo) / step;
    assert i - lo == step * q;
    assert i + step - lo == step * (q + 1) + 0;
    RemainderOf(i + step - lo, step, q + 1, 0);
    forall j | i < j < i + step ensures !OnStep(lo, step, j) { RemainderOf(j - lo, step, q, j - i); }
  }

  lemma RemainderOf(n: int, u: int, q: int, r: int)
    requires 0 <= r < u && n == u * q + r
    ensures n % u == r
  {
    DivisionUnique(u, q, r, n / u, n % u);
  }

  lemma DivisionUnique(u: int, q: int, r: int, q': int, r': int)
    requires 0 <= r < u && 0 <= r' < u && u * q + r == u * q' + r'
    ensures r == r'
  {
    if q < q' { Multiply(u, q + 1, q'); }
    if q' < q { Multiply(u, q' + 1, q); }
  }

  lemma Multiply(u: int, a: int, b: int)
    requires u > 0 && a <= b
    ensures u * a <= u * b
  {
  }

  // ----- One range

  function LowerChar(c: char): char { if 'A' <= c <= 'Z' then c + ' ' else c }

  function ToLower(s: string): string { seq(|s|, i requires 0 <= i < |s| => LowerChar(s[i])) }

  function MustParseInt(expr: string): Result<nat, FieldError>
  {
    match Atoi(expr)
    case None => Err(NotANumber)
    case Some(n) => if n < 0 then Err(NegativeNumber) else Ok(n)
  }

  function ParseIntOrName(expr: string, names: map<string, nat>): Result<nat, FieldError>
  {
    if ToLower(expr) in names then Ok(names[ToLower(expr)]) else MustParseInt(expr)
  }

  /** The numbers a range expression stands for; `star` says whether the star bit is added. */
  datatype Span = Span(lo: nat, hi: nat, step: nat, star: bool)

  predicate IsStar(low: string) { low == "*" || low == "?" }

  function LowAndHigh(parts: seq<string>, r: Bounds): Result<(nat, nat), FieldError>
    requires |parts| >= 1
  {
    if IsStar(parts[0]) then Ok((r.min, r.max))
    else match ParseIntOrName(parts[0], r.names)
      case Err(e) => Err(e)
      case Ok(start) =>
        if |parts| == 1 then Ok((start, start))
        else if |parts| == 2 then
          match ParseIntOrName(parts[1], r.names)
          case Err(e) => Err(e)
          case Ok(end) => Ok((start, end))
        else Err(TooManyHyphens)
  }

  function ReadSpan(expr: string, r: Bounds): Result<Span, FieldError>
  {
    var rangeAndStep := Split(expr, '/');
    var lowAndHigh := Split(rangeAndStep[0], '-');
    match LowAndHigh(lowAndHigh, r)
    case Err(e) => Err(e)
    case Ok((start, end)) =>
      if |rangeAndStep| == 1 then Ok(Span(start, end, 1, IsStar(lowAndHigh[0])))
      else if |rangeAndStep| == 2 then
        match MustParseInt(rangeAndStep[1])
        case Err(e) => Err(e)
        case Ok(step) =>
          Ok(Span(start, if |lowAndHigh| == 1 then r.max else end, step, IsStar(lowAndHigh[0]) && step <= 1))
      else Err(TooManySlashes)
  }

  function GetRange(expr: string, r: Bounds): Result<Word, FieldError>
  {
    match ReadSpan(expr, r)
    case Err(e) => Err(e)
    case Ok(Span(start, end, step, star)) =>
      if start < r.min then Err(BelowMinimum)
      else if end > r.max then Err(AboveMaximum)
      else if start > end then Err(StartAfterEnd)
      else if step == 0 then Err(ZeroStep)
      else Ok(Or(StepBits(start, end, step), if star then STAR_BIT else ZERO))
  }

  /** Whatever text is accepted, its bits are a progression within the bounds, plus the star bit
      exactly when the text was written with a star and the step is 1. */
  lemma RangeBits(expr: string, r: Bounds) returns (lo: nat, hi: nat, step: nat)
    requires r.Valid()
    requires GetRange(expr, r).Ok?
    ensures r.min <= lo <= hi <= r.max && step > 0
    ensures var bits := GetRange(expr, r).value;
            && (forall i :: 0 <= i < 63 ==> (i in bits <==> i <= hi && OnStep(lo, step, i)))
            && (63 in bits <==> IsStar(Split(Split(expr, '/')[0], '-')[0]) && step == 1)
    ensures GetRange(expr, r).value - STAR_BIT != {}
  {
    var span := ReadSpan(expr, r).value;
    lo, hi, step := span.lo, span.hi, span.step;
    FirstMultiple(lo, step);
    assert lo in GetRange(expr, r).value;
  }

  // ----- The texts of the documented grammar

  /** An end of a range: digits, leading zeros included, or a name in any letter case. */
  datatype End = Numeral(digits: string) | Name(word: string) {
    predicate Valid(names: map<string, nat>)
    {
      match this
      case Numeral(digits) => AllDigits(digits)
      case Name(word) => ToLower(word) in names
    }

    function Text(): string { match this case Numeral(digits) => digits case Name(word) => word }

    function Value(names: map<string, nat>): nat
      requires Valid(names)
    {
      match this
      case Numeral(digits) => NumberOf(digits)
      case Name(word) => names[ToLower(word)]
    }

    predicate TooBig() { Numeral? && AllDigits(digits) && NumberOf(digits) > MAX_INT }
  }

  /** The number that digits stand for. */
  function NumberOf(digits: string): nat
    requires AllDigits(digits)
  {
    DigitsHaveValue(digits);
    DigitsValue(digits).value
  }

  datatype Base = Star(mark: char) | One(n: End) | FromTo(low: End, high: End)

  datatype Item = Item(base: Base, step: Option<string>) {
    predicate Valid(names: map<string, nat>)
    {
      && (match base
          case Star(mark) => mark == '*' || mark == '?'
          case One(n) => n.Valid(names)
          case FromTo(low, high) => low.Valid(names) && high.Valid(names))
      && (step.Some? ==> AllDigits(step.value))
    }

    function Print(): string { PrintBase(base) + if step.Some? then "/" + step.value else "" }

    /** The bits the item means: from its low end, in steps, to its high end. */
    function Meaning(r: Bounds): Result<Word, FieldError>
      requires Valid(r.names)
    {
      var lo := match base case Star(_) => r.min case One(n) => n.Value(r.names)
        case FromTo(low, _) => low.Value(r.names);
      var hi := match base
                case Star(_) => r.max
                case One(n) => (if step.Some? then r.max else lo)
                case FromTo(_, high) => high.Value(r.names);
      var every := if step.Some? then NumberOf(step.value) else 1;
      if EndTooBig(base) || every > MAX_INT then Err(NotANumber)
      else if lo < r.min then Err(BelowMinimum)
      else if hi > r.max then Err(AboveMaximum)
      else if lo > hi then Err(StartAfterEnd)
      else if every == 0 then Err(ZeroStep)
      else Ok(StepBits(lo, hi, every) + if base.Star? && every == 1 then {63} else {})
    }
  }

  predicate EndTooBig(b: Base)
  {
    match b
    case Star(_) => false
    case One(n) => n.TooBig()
    case FromTo(low, high) => low.TooBig() || high.TooBig()
  }

  function PrintBase(b: Base): string
  {
    match b
    case Star(mark) => [mark]
    case One(n) => n.Text()
    case FromTo(low, high) => low.Text() + "-" + high.Text()
  }

  lemma DigitsAreRead(digits: string)
    requires AllDigits(digits)
    ensures MustParseInt(digits) == if NumberOf(digits) <= MAX_INT then Ok(NumberOf(digits)) else Err(NotANumber)
    ensures '/' !in digits
  {
    DigitsHaveValue(digits);
    assert IsDigit(digits[0]);
  }

  lemma NamesAreLetters(word: string, names: map<string, nat>)
    requires AreNames(names) && ToLower(word) in names
    ensures word != "" && forall i :: 0 <= i < |word| ==> 'a' <= LowerChar(word[i]) <= 'z'
  {
    var low := ToLower(word);
    assert forall i :: 0 <= i < |word| ==> low[i] == LowerChar(word[i]) && low[i] in low;
  }

  lemma DigitsAreNoName(digits: string, names: map<string, nat>)
    requires AreNames(names) && AllDigits(digits)
    ensures ToLower(digits) !in names
  {
    var low := ToLower(digits);
    assert low[0] == digits[0] && low[0] in low && IsDigit(digits[0]);
  }

  /** An end is read as its value, and its text splits nothing and is no star. */
  lemma EndIsRead(e: End, names: map<string, nat>)
    requires AreNames(names) && e.Valid(names)
    ensures ParseIntOrName(e.Text(), names) == if e.TooBig() then Err(NotANumber) else Ok(e.Value(names))
    ensures '-' !in e.Text() && '/' !in e.Text() && !IsStar(e.Text())
  {
    hide MustParseInt, ToLower;
    match e {
      case Numeral(digits) =>
        DigitsAreRead(digits);
        DigitsAreNoName(digits, names);
        assert IsDigit(digits[0]);
      case Name(word) =>
        NamesAreLetters(word, names);
        assert forall i :: 0 <= i < |word| ==> word[i] != '-' && word[i] != '/';
        assert word[0] != '*' && word[0] != '?';
    }
  }

  lemma PrintedBase(item: Item, r: Bounds)
    requires AreNames(r.names) && item.Valid(r.names)
    ensures '/' !in PrintBase(item.base)
    ensures Split(PrintBase(item.base), '-') ==
            match item.base
            case Star(mark) => [[mark]]
            case One(n) => [n.Text()]
            case FromTo(low, high) => [low.Text(), high.Text()]
  {
    hide ToLower, ParseIntOrName, AreNames;
    match item.base {
      case Star(mark) =>
        SplitOne([mark], '-');
      case One(n) =>
        EndIsRead(n, r.names);
        SplitOne(n.Text(), '-');
      case FromTo(low, high) =>
        EndIsRead(low, r.names);
        EndIsRead(high, r.names);
        SplitFirst(low.Text(), high.Text(), '-');
        SplitOne(high.Text(), '-');
    }
  }

  /** Reading the text of an item gives exactly the bits the item means, or the error it deserves. */
  lemma RangeText(item: Item, r: Bounds)
    requires r.Valid() && AreNames(r.names) && item.Valid(r.names)
    ensures GetRange(item.Print(), r) == item.Meaning(r)
  {
    hide Atoi, ToLower, Split, StepBits, MustParseInt, ParseIntOrName, PrintBase, NumberOf, AreNames;
    var base := PrintBase(item.base);
    PrintedBase(item, r);
    match item.base {
      case Star(mark) =>
      case One(n) => EndIsRead(n, r.names);
      case FromTo(low, high) => EndIsRead(low, r.names); EndIsRead(high, r.names);
    }
    if item.step.Some? {
      DigitsAreRead(item.step.value);
      SplitOne(item.step.value, '/');
      SplitFirst(base, item.step.value, '/');
      assert item.Print() == base + ['/'] + item.step.value;
    } else {
      SplitOne(base, '/');
      assert item.Print() == base;
    }
  }

  // ----- A field: the union of its ranges

  /** `strings.FieldsFunc` on commas: the non-empty pieces between them. */
  function Pieces(field: string): seq<string> { NonEmpty(Split(field, ',')) }

  function NonEmpty(pieces: seq<string>): (r: seq<string>)
    ensures forall p :: p in r <==> p in pieces && p != ""
  {
    if pieces == [] then []
    else if pieces[0] == "" then NonEmpty(pieces[1..])
    else [pieces[0]] + NonEmpty(pieces[1..])
  }

  /** A field is accepted exactly when all its ranges are, and then holds exactly their bits;
      otherwise the error is that of the first range that is not accepted. */
  method GetField(field: string, r: Bounds) returns (res: Result<Word, FieldError>)
    ensures res.Ok? <==> forall p :: p in Pieces(field) ==> GetRange(p, r).Ok?
    ensures res.Ok? ==> IsField(field, r, res.value)
    ensures res.Err? ==> exists k :: 0 <= k < |Pieces(field)| && GetRange(Pieces(field)[k], r) == res &&
                                     forall j :: 0 <= j < k ==> GetRange(Pieces(field)[j], r).Ok?
  {
    hide GetRange, Pieces;
    var bits := ZERO;
    var ranges := Pieces(field);
    for n := 0 to |ranges|
      invariant forall k :: 0 <= k < n ==> GetRange(ranges[k], r).Ok?
      invariant forall i :: i in bits <==> exists k :: 0 <= k < n && i in GetRange(ranges[k], r).value
    {
      match GetRange(ranges[n], r) {
        case Err(e) => return Err(e);
        case Ok(bit) => bits := Or(bits, bit);
      }
    }
    forall p | p in ranges ensures GetRange(p, r).Ok? { var k :| 0 <= k < |ranges| && ranges[k] == p; }
    forall i ensures i in bits <==> exists p :: p in ranges && i in GetRange(p, r).value {
      if p :| p in ranges && i in GetRange(p, r).value { var k :| 0 <= k < |ranges| && ranges[k] == p; }
    }
    return Ok(bits);
  }

  /** The bits of a field: the union of those of its ranges. */
  ghost predicate IsField(field: string, r: Bounds, bits: Word)
  {
    && (forall p :: p in Pieces(field) ==> GetRange(p, r).Ok?)
    && forall i :: i in bits <==> exists p :: p in Pieces(field) && i in GetRange(p, r).value
  }

  /** Apart from the star bit, no accepted field has a bit outside its bounds. */
  lemma FieldBitsInBounds(field: string, r: Bounds, bits: Word)
    requires r.Valid() && IsField(field, r, bits)
    ensures forall i :: i in bits && i != 63 ==> r.min <= i <= r.max
  {
    hide GetRange, Pieces;
    forall i | i in bits && i != 63 ensures r.min <= i <= r.max {
      var p :| p in Pieces(field) && i in GetRange(p, r).value;
      var lo, hi, step := RangeBits(p, r);
    }
  }

  // ----- The six fields in their places

  datatype ParseOption = Second | SecondOptional | Minute | Hour | Dom | Month | Dow | DowOptional | Descriptor

  const PLACES: seq<ParseOption> := [Second, Minute, Hour, Dom, Month, Dow]
  const DEFAULTS: seq<string> := ["0", "0", "0", "*", "*", "*"]

  datatype NormalizeError = MultipleOptionals | IncorrectNumber

  function WithOptionals(options: set<ParseOption>): set<ParseOption>
  {
    options + (if SecondOptional in options then {Second} else {}) + (if DowOptional in options then {Dow} else {})
  }

  /** The fields at the places from `from` on that the options include, in order. */
  function Given<T>(fields: seq<T>, options: set<ParseOption>, from: nat): seq<T>
    requires from <= |fields| == |PLACES|
    decreases |PLACES| - from
  {
    if from == |PLACES| then []
    else (if PLACES[from] in options then [fields[from]] else []) + Given(fields, options, from + 1)
  }

  /** How many places the options include. */
  function Wanted(options: set<ParseOption>): nat { |Given(PLACES, options, 0)| }

  lemma {:induction false} GivenCount<S, T>(a: seq<S>, b: seq<T>, options: set<ParseOption>, from: nat)
    requires from <= |a| == |b| == |PLACES|
    ensures |Given(a, options, from)| == |Given(b, options, from)|
    decreases |PLACES| - from
  {
    if from < |PLACES| { GivenCount(a, b, options, from + 1); }
  }

  /** The texts to place: the given ones, completed by the default of the optional field left out. */
  function Completed(fields: seq<string>, options: set<ParseOption>): seq<string>
  {
    if |fields| == Wanted(WithOptionals(options)) then fields
    else if DowOptional in options then fields + ["*"]
    else ["0"] + fields
  }

  /** Why a list of fields is refused: two of them optional, or a count that fits no reading. */
  function Refusal(fields: seq<string>, options: set<ParseOption>): Option<NormalizeError>
  {
    var max := Wanted(WithOptionals(options));
    var optionals := (if SecondOptional in options then 1 else 0) + (if DowOptional in options then 1 else 0);
    if optionals == 2 then Some(MultipleOptionals)
    else if |fields| > max || |fields| < max - optionals then Some(IncorrectNumber)
    else None
  }

  /** The given fields stand, in order, at the places the options include, and defaults elsewhere.
      The call is refused exactly when two fields are optional or the count is out of range. */
  method NormalizeFields(fields0: seq<string>, options0: set<ParseOption>)
    returns (res: Result<seq<string>, NormalizeError>)
    ensures match Refusal(fields0, options0)
            case Some(e) => res == Err(e)
            case None => res.Ok? && |res.value| == 6
    ensures res.Ok? ==> Given(res.value, WithOptionals(options0), 0) == Completed(fields0, options0)
    ensures res.Ok? ==> forall i :: 0 <= i < 6 && PLACES[i] !in WithOptionals(options0) ==> res.value[i] == DEFAULTS[i]
  {
    var fields, options := fields0, options0;
    var optionals := 0;
    if SecondOptional in options {
      options := options + {Second};
      optionals := optionals + 1;
    }
    if DowOptional in options {
      options := options + {Dow};
      optionals := optionals + 1;
    }
    assert options == WithOptionals(options0);
    hide WithOptionals, Given;
    if optionals > 1 { return Err(MultipleOptionals); }

    var max := CountPlaces(options);
    var min := max - optionals;

    if |fields| < min || |fields| > max { return Err(IncorrectNumber); }

    if min < max && |fields| == min {
      fields := if DowOptional in options then fields + [DEFAULTS[5]] else [DEFAULTS[0]] + fields;
    }
    assert fields == Completed(fields0, options0);

    var expanded := PlaceFields(fields, options);
    return Ok(expanded);
  }

  method CountPlaces(options: set<ParseOption>) returns (max: nat)
    ensures max == Wanted(options)
  {
    max := 0;
    for i := 0 to |PLACES|
      invariant max + |Given(PLACES, options, i)| == Wanted(options)
    {
      if PLACES[i] in options { max := max + 1; }
    }
  }

  method PlaceFields(fields: seq<string>, options: set<ParseOption>) returns (expanded: seq<string>)
    requires |fields| == Wanted(options)
    ensures |expanded| == |PLACES| && Given(expanded, options, 0) == fields
    ensures forall j :: 0 <= j < |PLACES| && PLACES[j] !in options ==> expanded[j] == DEFAULTS[j]
  {
    hide Given, Filled;
    GivenEnds(DEFAULTS, options);
    var n := 0;
    expanded := DEFAULTS;
    for i := 0 to |PLACES|
      invariant |expanded| == |PLACES|
      invariant 0 <= n && n + |Given(PLACES, options, i)| == |fields|
      invariant Filled(expanded, options, i) == fields[..n]
      invariant forall j :: 0 <= j < |PLACES| && PLACES[j] !in options ==> expanded[j] == DEFAULTS[j]
    {
      GivenStep(PLACES, options, i);
      if PLACES[i] in options {
        FilledUpdate(expanded, options, i, expanded[i := fields[n]]);
        expanded := expanded[i := fields[n]];
        n := n + 1;
        assert fields[..n] == fields[..n - 1] + [fields[n - 1]];
      }
      FilledStep(expanded, options, i + 1);
    }
    GivenEnds(expanded, options);
    FilledIsGiven(expanded, options, 6);
  }

  lemma GivenStep<T>(fields: seq<T>, options: set<ParseOption>, from: nat)
    requires from < |fields| == |PLACES|
    ensures Given(fields, options, from) ==
              (if PLACES[from] in options then [fields[from]] else []) + Given(fields, options, from + 1)
  {
  }

  lemma FilledStep(fields: seq<string>, options: set<ParseOption>, to: nat)
    requires 0 < to <= |fields| == |PLACES|
    ensures Filled(fields, options, to) ==
              Filled(fields, options, to - 1) + if PLACES[to - 1] in options then [fields[to - 1]] else []
  {
  }

  lemma GivenEnds(fields: seq<string>, options: set<ParseOption>)
    requires |fields| == |PLACES|
    ensures Given(fields, options, |PLACES|) == [] && Given(PLACES, options, |PLACES|) == []
            && Filled(fields, options, 0) == []
  {
  }

  /** The fields at the included places before `to`. */
  function Filled(fields: seq<string>, options: set<ParseOption>, to: nat): seq<string>
    requires to <= |fields| == |PLACES|
  {
    if to == 0 then []
    else Filled(fields, options, to - 1) + if PLACES[to - 1] in options then [fields[to - 1]] else []
  }

  lemma {:induction false} FilledUpdate(a: seq<string>, options: set<ParseOption>, to: nat, b: seq<string>)
    requires to <= |a| == |b| == |PLACES| && a[..to] == b[..to]
    ensures Filled(a, options, to) == Filled(b, options, to)
  {
    if to > 0 {
      assert a[..to - 1] == a[..to][..to - 1] == b[..to][..to - 1] == b[..to - 1];
      assert a[to - 1] == a[..to][to - 1] == b[..to][to - 1] == b[to - 1];
      FilledUpdate(a, options, to - 1, b);
    }
  }

  lemma {:induction false} FilledIsGiven(fields: seq<string>, options: set<ParseOption>, to: nat)
    requires to <= |fields| == |PLACES|
    ensures Filled(fields, options, to) + Given(fields, options, to) == Given(fields, options, 0)
  {
    hide Given, Filled;
    GivenEnds(fields, options);
    if to > 0 {
      GivenStep(fields, options, to - 1);
      FilledStep(fields, options, to);
      FilledIsGiven(fields, options, to - 1);
      var here := if PLACES[to - 1] in options then [fields[to - 1]] else [];
      Reassociate(Filled(fields, options, to - 1), here, Given(fields, options, to));
    }
  }

  lemma Reassociate<T>(a: seq<T>, b: seq<T>, c: seq<T>)
    ensures (a + b) + c == a + (b + c)
  {
  }
}

/** From the fields of a crontab line to a schedule. */
module CronText {
  import opened Wrappers
  import opened Words
  import opened CronParser
  import S = CronSpec

  datatype SpecError = InFields(n: NormalizeError) | InField(place: nat, f: FieldError)

  /** The texts stand, in order, at the places the options include; defaults stand elsewhere. */
  predicate Stand(texts: seq<string>, options: set<ParseOption>, fields: seq<string>)
  {
    && |fields| == |PLACES|
    && Given(fields, WithOptionals(options), 0) == Completed(texts, options)
    && forall i :: 0 <= i < |PLACES| && PLACES[i] !in WithOptionals(options) ==> fields[i] == DEFAULTS[i]
  }

  /** Every piece of every field is accepted. */
  predicate AllAccepted(fields: seq<string>)
    requires |fields| == |BOUNDS|
  {
    forall i :: 0 <= i < |BOUNDS| ==> forall p :: p in Pieces(fields[i]) ==> GetRange(p, BOUNDS[i]).Ok?
  }

  /** The texts are accepted exactly when their number fits the options and every piece of every field
      is accepted. Then every field of the schedule has the bits of its text; otherwise the first field
      that is refused decides the error. */
  method ParseFields(texts: seq<string>, options: set<ParseOption>, location: S.Location)
    returns (res: Result<S.SpecSchedule, SpecError>, fields: seq<string>)
    ensures match Refusal(texts, options)
            case Some(e) => res == Err(InFields(e))
            case None =>
              && Stand(texts, options, fields)
              && (res.Ok? || res.error.InField?)
              && (res.Ok? <==> AllAccepted(fields))
    ensures res.Ok? ==>
              var s := res.value;
              && s.location == location && Stand(texts, options, fields)
              && IsField(fields[0], SECONDS, s.second) && IsField(fields[1], MINUTES, s.minute)
              && IsField(fields[2], HOURS, s.hour) && IsField(fields[3], DOM, s.dom)
              && IsField(fields[4], MONTHS, s.month) && IsField(fields[5], DOW, s.dow)
    ensures res.Err? && res.error.InField? ==>
              var k := res.error.place;
              && Stand(texts, options, fields) && k < |BOUNDS|
              && (exists p :: p in Pieces(fields[k]) && GetRange(p, BOUNDS[k]) == Err(res.error.f))
              && (forall j :: 0 <= j < k ==> forall p :: p in Pieces(fields[j]) ==> GetRange(p, BOUNDS[j]).Ok?)
  {
    hide IsField, GetRange, Pieces, Given, WithOptionals, Completed;
    fields := [];
    var normalized := NormalizeFields(texts, options);
    if normalized.Err? { return Err(InFields(normalized.error)), fields; }
    fields := normalized.value;
    var bits: seq<Word> := [];
    for i := 0 to |BOUNDS|
      invariant |bits| == i && forall j :: 0 <= j < i ==> IsField(fields[j], BOUNDS[j], bits[j])
      invariant forall j :: 0 <= j < i ==> forall p :: p in Pieces(fields[j]) ==> GetRange(p, BOUNDS[j]).Ok?
    {
      var field := GetField(fields[i], BOUNDS[i]);
      if field.Err? { return Err(InField(i, field.error)), fields; }
      bits := bits + [field.value];
    }
    return Ok(S.SpecSchedule(bits[0], bits[1], bits[2], bits[3], bits[4], bits[5], location)), fields;
  }

  /** A parsed schedule has no bit outside the bounds of its fields, apart from star bits. */
  lemma ScheduleInBounds(fields: seq<string>, s: S.SpecSchedule)
    requires |fields| == 6
    requires IsField(fields[0], SECONDS, s.second) && IsField(fields[1], MINUTES, s.minute)
             && IsField(fields[2], HOURS, s.hour)
    requires IsField(fields[3], DOM, s.dom) && IsField(fields[4], MONTHS, s.month) && IsField(fields[5], DOW, s.dow)
    ensures forall i :: i in s.second + s.minute && i != 63 ==> 0 <= i <= 59
    ensures forall i :: i in s.hour && i != 63 ==> 0 <= i <= 23
    ensures forall i :: i in s.dom && i != 63 ==> 1 <= i <= 31
    ensures forall i :: i in s.month && i != 63 ==> 1 <= i <= 12
    ensures forall i :: i in s.dow && i != 63 ==> 0 <= i <= 6
  {
    hide IsField;
    BoundsAreValid();
    assert forall i :: 0 <= i < |BOUNDS| ==> BOUNDS[i].Valid();
    assert BOUNDS[0].Valid() && BOUNDS[1].Valid() && BOUNDS[2].Valid();
    assert BOUNDS[3].Valid() && BOUNDS[4].Valid() && BOUNDS[5].Valid();
    FieldBitsInBounds(fields[0], SECONDS, s.second);
    FieldBitsInBounds(fields[1], MINUTES, s.minute);
    FieldBitsInBounds(fields[2], HOURS, s.hour);
    FieldBitsInBounds(fields[3], DOM, s.dom);
    FieldBitsInBounds(fields[4], MONTHS, s.month);
    FieldBitsInBounds(fields[5], DOW, s.dow);
  }
}

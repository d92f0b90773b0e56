/** Planning dates (apps/issue-service-nest/src/domain/planning.ts). */
module Planning {
  import opened Types
  import opened Text
  import opened Calendar

  /** A value of a JSON request body, as far as the validators look at it. */
  datatype Json = Undefined | Null | Str(text: string) | Other

  datatype ValidationError = NotAnIsoDate | NotAValidDate | TargetBeforeStart

  const MIDNIGHT := Clock(0, 0, 0, 0)

  /** toISOString(...).slice(0, 10). Years beyond 9999 print with a sign and six digits. */
  function IsoDate(t: int): string {
    var d := ToIsoFields(t).0;
    if 0 <= d.year <= 9999 && 0 <= d.month <= 99 && 0 <= d.day <= 99 then DateText(d) else "+"
  }

  function OptionalDate(value: Json): Result<Option<string>, ValidationError> {
    if value.Undefined? || value.Null? || value == Str("") then Ok(None)
    else if value.Other? || !DateShape(value.text) then Err(NotAnIsoDate)
    else
      var parsed := DateParse(FieldsOf(value.text), MIDNIGHT);
      if parsed.None? || IsoDate(parsed.value) != value.text then Err(NotAValidDate)
      else Ok(Some(value.text))
  }

  function PlanDates(startDate: Option<string>, endDate: Option<string>): Result<(), ValidationError> {
    if startDate.Some? && startDate.value != "" && endDate.Some? && endDate.value != "" &&
       Less(endDate.value, startDate.value)
    then Err(TargetBeforeStart) else Ok(())
  }

  /** A text is accepted, unchanged, exactly when it writes a real Gregorian date of the years 0000-9999. */
  lemma AcceptsExactlyRealDates(v: string)
    requires v != ""
    ensures OptionalDate(Str(v)).Ok? <==> exists d :: Real(d) && v == DateText(d)
    ensures OptionalDate(Str(v)).Ok? ==> OptionalDate(Str(v)) == Ok(Some(v))
    ensures OptionalDate(Str(v)) == Err(NotAnIsoDate) <==> !DateShape(v)
  {
    hide DateParse, ToIsoFields, DateText, FieldsOf, Decimal;
    if DateShape(v) { PrintsAsItself(v); }
    if d :| Real(d) && v == DateText(d) { FieldsOfText(d); }
  }

  lemma PrintsAsItself(v: string)
    requires DateShape(v)
    ensures var parsed := DateParse(FieldsOf(v), MIDNIGHT);
            parsed.Some? && IsoDate(parsed.value) == v ==> Real(FieldsOf(v)) && v == DateText(FieldsOf(v))
    ensures Real(FieldsOf(v)) ==>
              var parsed := DateParse(FieldsOf(v), MIDNIGHT); parsed.Some? && IsoDate(parsed.value) == v
  {
    hide DateText, FieldsOf, Decimal;
    var d := FieldsOf(v);
    TextOfFields(v);
    ParsePrintFixpoint(d, MIDNIGHT);
    var parsed := DateParse(d, MIDNIGHT);
    if parsed.Some? && IsoDate(parsed.value) == v {
      var printed := ToIsoFields(parsed.value).0;
      assert |v| == 10 && |"+"| == 1;
      FieldsOfText(printed);
      ClockIsMidnight(d);
    }
  }

  lemma ClockIsMidnight(d: Date)
    requires DateParse(d, MIDNIGHT).Some?
    ensures ToIsoFields(DateParse(d, MIDNIGHT).value).1 == MIDNIGHT
  {
    ClockRoundTrip(DayNumber(d), MIDNIGHT);
  }

  /** The accepted text determines its date. */
  ghost function DateOf(v: string): (d: Date)
    requires v != "" && OptionalDate(Str(v)).Ok?
    ensures Real(d) && v == DateText(d)
  {
    AcceptsExactlyRealDates(v);
    var d :| Real(d) && v == DateText(d);
    d
  }

  /** A plan is rejected exactly when it has both days and the target day is before the start day: on accepted dates the
      text comparison of planDates is that of the days. */
  lemma TextOrderIsCalendarOrder(start: Option<string>, end: Option<string>)
    requires Given(start) ==> OptionalDate(Str(start.value)).Ok?
    requires Given(end) ==> OptionalDate(Str(end.value)).Ok?
    ensures PlanDates(start, end).Err? <==>
              Given(start) && Given(end) && DayNumber(DateOf(end.value)) < DayNumber(DateOf(start.value))
  {
    if Given(start) && Given(end) {
      DateTextOrder(DateOf(end.value), DateOf(start.value));
      DayNumberOrder(DateOf(end.value), DateOf(start.value));
    }
  }

  predicate Given(date: Option<string>) { date.Some? && date.value != "" }
}

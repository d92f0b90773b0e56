/** The proleptic Gregorian calendar, and JavaScript's Date over the years 0000 to 9999:
    Date.parse of a fixed-width UTC timestamp and toISOString, as ECMA-262 defines them. */
module Calendar {
  import opened Types
  import opened Text

  predicate IsLeap(y: int) { y % 4 == 0 && (y % 100 != 0 || y % 400 == 0) }

  function DaysInYear(y: int): int { if IsLeap(y) then 366 else 365 }

  function DaysInMonth(y: int, m: int): int
    requires 1 <= m <= 12
  {
    if m == 2 then (if IsLeap(y) then 29 else 28)
    else if m == 4 || m == 6 || m == 9 || m == 11 then 30 else 31
  }

  datatype Date = Date(year: int, month: int, day: int)

  /** A date of the calendar, in a year that four digits can write. */
  predicate Real(d: Date) {
    0 <= d.year <= 9999 && 1 <= d.month <= 12 && 1 <= d.day <= DaysInMonth(d.year, d.month)
  }

  predicate Before(a: Date, b: Date) {
    a.year < b.year || (a.year == b.year && (a.month < b.month || (a.month == b.month && a.day < b.day)))
  }

  // ECMA-262 day arithmetic

  function DayFromYear(y: int): int {
    365 * (y - 1970) + (y - 1969) / 4 - (y - 1901) / 100 + (y - 1601) / 400
  }

  /** Days of year `y` before the first of month `m`. */
  function MonthStart(y: int, m: int): int
    requires 1 <= m <= 13
  {
    if m == 1 then 0 else MonthStart(y, m - 1) + DaysInMonth(y, m - 1)
  }

  /** Days since 1970-01-01. A day beyond the month's end runs on into the next month. */
  function DayNumber(d: Date): int
    requires 1 <= d.month <= 12
  {
    DayFromYear(d.year) + MonthStart(d.year, d.month) + d.day - 1
  }

  function YearFromDay(day: int, hi: nat): nat
  {
    if hi == 0 || DayFromYear(hi) <= day then hi else YearFromDay(day, hi - 1)
  }

  function MonthFromDay(y: int, k: int, m: int): (r: int)
    requires 1 <= m <= 12
    ensures 1 <= r <= m
  {
    if m == 1 || MonthStart(y, m) <= k then m else MonthFromDay(y, k, m - 1)
  }

  function DateFromDay(day: int): Date {
    var y := YearFromDay(day, 10000);
    var k := day - DayFromYear(y);
    var m := MonthFromDay(y, k, 12);
    Date(y, m, k - MonthStart(y, m) + 1)
  }

  lemma FourYears(y: int)
    ensures (y - 1968) / 4 == (y - 1969) / 4 + (if y % 4 == 0 then 1 else 0)
  {
  }

  lemma Century(y: int)
    ensures (y - 1900) / 100 == (y - 1901) / 100 + (if y % 100 == 0 then 1 else 0)
  {
  }

  lemma FourCenturies(y: int)
    ensures (y - 1600) / 400 == (y - 1601) / 400 + (if y % 400 == 0 then 1 else 0)
  {
  }

  lemma YearLength(y: int)
    ensures DayFromYear(y + 1) == DayFromYear(y) + DaysInYear(y)
  {
    FourYears(y);
    Century(y);
    FourCenturies(y);
    MultiplesNest(y);
    assert DayFromYear(y + 1) == 365 * (y - 1969) + (y - 1968) / 4 - (y - 1900) / 100 + (y - 1600) / 400;
  }

  lemma MultiplesNest(y: int)
    ensures y % 400 == 0 ==> y % 100 == 0
    ensures y % 100 == 0 ==> y % 4 == 0
  {
  }

  lemma {:induction false} YearsAscend(y: int, y': int)
    requires y <= y'
    ensures DayFromYear(y) + 365 * (y' - y) <= DayFromYear(y')
    decreases y' - y
  {
    if y < y' {
      YearLength(y' - 1);
      YearsAscend(y, y' - 1);
    }
  }

  lemma MonthsFillYear(y: int)
    ensures MonthStart(y, 13) == DaysInYear(y)
  {
    assert MonthStart(y, 2) == 31;
    assert MonthStart(y, 3) == 59 + (if IsLeap(y) then 1 else 0);
    assert MonthStart(y, 5) == MonthStart(y, 3) + 61;
    assert MonthStart(y, 7) == MonthStart(y, 5) + 61;
    assert MonthStart(y, 9) == MonthStart(y, 7) + 62;
    assert MonthStart(y, 11) == MonthStart(y, 9) + 61;
    assert MonthStart(y, 13) == MonthStart(y, 11) + 61;
  }

  lemma {:induction false} MonthsAscend(y: int, m: int, m': int)
    requires 1 <= m <= m' <= 13
    ensures MonthStart(y, m) + 28 * (m' - m) <= MonthStart(y, m')
    decreases m' - m
  {
    if m < m' { MonthsAscend(y, m, m' - 1); }
  }

  lemma {:induction false} YearFromDayFinds(y: nat, k: int, hi: nat)
    requires y <= hi && 0 <= k < DaysInYear(y)
    ensures YearFromDay(DayFromYear(y) + k, hi) == y
    decreases hi
  {
    if y < hi {
      YearLength(y);
      YearsAscend(y + 1, hi);
      YearFromDayFinds(y, k, hi - 1);
    }
  }

  lemma {:induction false} MonthFromDayFinds(y: int, m: int, k: int, hi: int)
    requires 1 <= m <= hi <= 12 && MonthStart(y, m) <= k < MonthStart(y, m + 1)
    ensures MonthFromDay(y, k, hi) == m
    decreases hi
  {
    if m < hi {
      MonthsAscend(y, m + 1, hi);
      MonthFromDayFinds(y, m, k, hi - 1);
    }
  }

  /** A real date survives the trip through its day number. */
  lemma DayNumberRoundTrip(d: Date)
    requires Real(d)
    ensures DateFromDay(DayNumber(d)) == d
  {
    var k := MonthStart(d.year, d.month) + d.day - 1;
    MonthsAscend(d.year, d.month + 1, 13);
    MonthsAscend(d.year, 1, d.month);
    MonthsFillYear(d.year);
    YearFromDayFinds(d.year, k, 10000);
    MonthFromDayFinds(d.year, d.month, k, 12);
  }

  /** Day numbers order real dates as the calendar does. */
  lemma DayNumberOrder(a: Date, b: Date)
    requires Real(a) && Real(b)
    ensures Before(a, b) <==> DayNumber(a) < DayNumber(b)
  {
    if Before(a, b) { DayNumberAscends(a, b); }
    if Before(b, a) { DayNumberAscends(b, a); }
  }

  lemma DayNumberAscends(a: Date, b: Date)
    requires Real(a) && Real(b) && Before(a, b)
    ensures DayNumber(a) < DayNumber(b)
  {
    MonthsAscend(a.year, a.month + 1, 13);
    MonthsFillYear(a.year);
    MonthsAscend(b.year, 1, b.month);
    YearLength(a.year);
    if a.year < b.year {
      YearsAscend(a.year + 1, b.year);
    } else if a.month < b.month {
      MonthsAscend(a.year, a.month + 1, b.month);
    }
  }

  function NextDay(d: Date): Date
    requires Real(d)
  {
    if d.day < DaysInMonth(d.year, d.month) then d.(day := d.day + 1)
    else if d.month < 12 then Date(d.year, d.month + 1, 1)
    else Date(d.year + 1, 1, 1)
  }

  /** The day number counts calendar days: one more per day, across month ends, leap days and year ends. */
  lemma DayNumberCountsDays(d: Date)
    requires Real(d)
    ensures DayNumber(NextDay(d)) == DayNumber(d) + 1
    ensures DayNumber(Date(1970, 1, 1)) == 0
  {
    YearLength(d.year);
    MonthsFillYear(d.year);
  }

  // Text

  function DateText(d: Date): (s: string)
    requires 0 <= d.year <= 9999 && 0 <= d.month <= 99 && 0 <= d.day <= 99
    ensures |s| == 10
  {
    Decimal(d.year, 4) + "-" + Decimal(d.month, 2) + "-" + Decimal(d.day, 2)
  }

  /** The pattern dddd-dd-dd. */
  predicate DateShape(s: string) {
    |s| == 10 && IsDigits(s[..4]) && s[4] == '-' && IsDigits(s[5..7]) && s[7] == '-' && IsDigits(s[8..])
  }

  function FieldsOf(s: string): (d: Date)
    requires DateShape(s)
    ensures 0 <= d.year <= 9999 && 0 <= d.month <= 99 && 0 <= d.day <= 99
  {
    Date(Number(s[..4]), Number(s[5..7]), Number(s[8..]))
  }

  lemma FieldsOfText(d: Date)
    requires 0 <= d.year <= 9999 && 0 <= d.month <= 99 && 0 <= d.day <= 99
    ensures DateShape(DateText(d)) && FieldsOf(DateText(d)) == d
  {
    var s := DateText(d);
    assert s[..4] == Decimal(d.year, 4) && s[5..7] == Decimal(d.month, 2) && s[8..] == Decimal(d.day, 2);
  }

  lemma TextOfFields(s: string)
    requires DateShape(s)
    ensures DateText(FieldsOf(s)) == s
  {
    var d := FieldsOf(s);
    NumberInjective(Decimal(d.year, 4), s[..4]);
    NumberInjective(Decimal(d.month, 2), s[5..7]);
    NumberInjective(Decimal(d.day, 2), s[8..]);
    assert s == s[..4] + "-" + s[5..7] + "-" + s[8..];
  }

  /** As text, written dates compare field by field. */
  lemma DateTextOrder(a: Date, b: Date)
    requires 0 <= a.year <= 9999 && 0 <= a.month <= 99 && 0 <= a.day <= 99
    requires 0 <= b.year <= 9999 && 0 <= b.month <= 99 && 0 <= b.day <= 99
    ensures Less(DateText(a), DateText(b)) <==> Before(a, b)
  {
    var (ya, ma, da) := (Decimal(a.year, 4), Decimal(a.month, 2), Decimal(a.day, 2));
    var (yb, mb, db) := (Decimal(b.year, 4), Decimal(b.month, 2), Decimal(b.day, 2));
    LessIsNumericOrder(ya, yb);
    LessIsNumericOrder(ma, mb);
    LessIsNumericOrder(da, db);
    SeparatedOrder(ma, da, mb, db, "-");
    SeparatedOrder(ya, ma + "-" + da, yb, mb + "-" + db, "-");
    assert DateText(a) == ya + "-" + (ma + "-" + da) && DateText(b) == yb + "-" + (mb + "-" + db);
  }

  lemma SeparatedOrder(a: string, a': string, b: string, b': string, sep: string)
    requires |a| == |b|
    ensures Less(a + sep + a', b + sep + b') <==> Less(a, b) || (a == b && Less(a', b'))
  {
    assert a + sep + a' == a + (sep + a') && b + sep + b' == b + (sep + b');
    LessConcat(a, sep + a', b, sep + b');
    LessConcat(sep, a', sep, b');
    LessIrreflexive(sep);
    LessIrreflexive(a);
  }

  // Timestamps

  const MS_PER_DAY := 86_400_000

  datatype Clock = Clock(hour: int, minute: int, second: int, ms: int)

  predicate FieldsInRange(c: Clock) {
    0 <= c.hour <= 99 && 0 <= c.minute <= 99 && 0 <= c.second <= 99 && 0 <= c.ms <= 999
  }

  /** Date.parse on the fields of a UTC timestamp: milliseconds since the epoch, or NaN. Days up to 31
      are accepted in every month and run on, as is 24:00:00.000. */
  function DateParse(d: Date, c: Clock): (t: Option<int>)
    requires FieldsInRange(c)
  {
    if 1 <= d.month <= 12 && 1 <= d.day <= 31 && c.minute <= 59 && c.second <= 59 &&
       (c.hour <= 23 || (c.hour == 24 && c.minute == 0 && c.second == 0 && c.ms == 0))
    then Some(DayNumber(d) * MS_PER_DAY + c.hour * 3_600_000 + c.minute * 60_000 + c.second * 1000 + c.ms)
    else None
  }

  /** The fields toISOString prints. */
  function ToIsoFields(t: int): (Date, Clock) {
    var r := t % MS_PER_DAY;
    (DateFromDay(t / MS_PER_DAY), Clock(r / 3_600_000, r / 60_000 % 60, r / 1000 % 60, r % 1000))
  }

  predicate RealClock(c: Clock) {
    0 <= c.hour <= 23 && 0 <= c.minute <= 59 && 0 <= c.second <= 59 && 0 <= c.ms <= 999
  }

  /** Parsing and printing again gives back the fields exactly when they name a real instant. */
  lemma ParsePrintFixpoint(d: Date, c: Clock)
    requires 0 <= d.year <= 9999 && FieldsInRange(c)
    ensures DateParse(d, c).Some? && ToIsoFields(DateParse(d, c).value) == (d, c) <==> Real(d) && RealClock(c)
  {
    hide DateFromDay, DayNumber;
    if RealClock(c) && 1 <= d.month <= 12 && 1 <= d.day <= 31 {
      if Real(d) { DayNumberRoundTrip(d); }
      ClockRoundTrip(DayNumber(d), c);
      PrintedDateIsReal(d);
    } else if DateParse(d, c).Some? {
      PrintedHour(DateParse(d, c).value);
    }
  }

  lemma PrintedHour(t: int)
    ensures ToIsoFields(t).1.hour <= 23
  {
  }

  lemma ClockRoundTrip(day: int, c: Clock)
    requires RealClock(c)
    ensures var t := day * MS_PER_DAY + c.hour * 3_600_000 + c.minute * 60_000 + c.second * 1000 + c.ms;
            ToIsoFields(t) == (DateFromDay(day), c)
  {
    hide DateFromDay;
    var r := c.hour * 3_600_000 + c.minute * 60_000 + c.second * 1000 + c.ms;
    DayAndRest(day, r);
    TimeFields(c, r);
  }

  lemma DayAndRest(day: int, r: int)
    requires 0 <= r < MS_PER_DAY
    ensures (day * MS_PER_DAY + r) / MS_PER_DAY == day && (day * MS_PER_DAY + r) % MS_PER_DAY == r
  {
  }

  lemma TimeFields(c: Clock, r: int)
    requires RealClock(c) && r == c.hour * 3_600_000 + c.minute * 60_000 + c.second * 1000 + c.ms
    ensures r / 3_600_000 == c.hour && r / 60_000 % 60 == c.minute && r / 1000 % 60 == c.second && r % 1000 == c.ms
  {
    assert r / 1000 == c.hour * 3600 + c.minute * 60 + c.second;
    assert r / 60_000 == c.hour * 60 + c.minute;
  }

  /** What a parsed day prints as is a real date, so an unreal date (30 February) never prints as itself. */
  lemma PrintedDateIsReal(d: Date)
    requires 0 <= d.year <= 9999 && 1 <= d.month <= 12 && 1 <= d.day <= 31
    ensures DateFromDay(DayNumber(d)) == d ==> Real(d)
  {
    if !Real(d) {
      var next := Date(d.year, d.month + 1, d.day - DaysInMonth(d.year, d.month));
      assert DayNumber(d) == DayNumber(next);
      DayNumberRoundTrip(next);
    }
  }
}

/** The opaque cursor of the issue list (apps/issue-service-nest/src/application/issue-list-query.ts). */
module Cursor {
  import opened Types
  import opened Text
  import opened Calendar
  import Base64Url

  /** The key of the last issue of a page: its creation time as PostgreSQL prints it, and its id. */
  datatype Position = Position(createdAt: string, id: string)

  datatype Error = InvalidCursor

  // uuid() of apps/issue-service-nest/src/domain/issue.ts

  predicate IsHex(c: char) { IsDigit(c) || 'a' <= LowerChar(c) <= 'f' }

  predicate AllHex(s: string) { forall i :: 0 <= i < |s| ==> IsHex(s[i]) }

  predicate UuidShape(s: string) {
    && |s| == 36 && s[8] == '-' && s[13] == '-' && s[18] == '-' && s[23] == '-'
    && AllHex(s[..8]) && AllHex(s[9..13]) && AllHex(s[14..18]) && AllHex(s[19..23]) && AllHex(s[24..])
    && '1' <= s[14] <= '5' && LowerChar(s[19]) in {'8', '9', 'a', 'b'}
  }

  predicate HexDigit(c: char) { c in "0123456789abcdefABCDEF" }

  /** A UUID of versions 1 to 5 in its usual form: hexadecimal digits of either case, with hyphens in four places. */
  lemma UuidShapeMeans(s: string)
    ensures UuidShape(s) <==>
              && |s| == 36 && s[14] in "12345" && s[19] in "89abAB"
              && forall i :: 0 <= i < 36 ==> if i in {8, 13, 18, 23} then s[i] == '-' else HexDigit(s[i])
  {
    HexIsHexDigit();
    if |s| == 36 {
      var parts := s[..8] + s[9..13] + s[14..18] + s[19..23] + s[24..];
      if UuidShape(s) {
        forall i | 0 <= i < 36 && i !in {8, 13, 18, 23} ensures HexDigit(s[i]) {
          assert IsHex(s[i]) by { HexInPart(s, i); }
        }
      }
    }
  }

  lemma HexIsHexDigit()
    ensures forall c :: IsHex(c) <==> HexDigit(c)
  {
    forall c ensures IsHex(c) <==> HexDigit(c) {
      var digits := "0123456789abcdefABCDEF";
      assert digits[0] == '0' && digits[9] == '9' && digits[10] == 'a' && digits[15] == 'f' && digits[16] == 'A' && digits[21] == 'F';
    }
  }

  lemma HexInPart(s: string, i: nat)
    requires UuidShape(s) && i < 36 && i !in {8, 13, 18, 23}
    ensures IsHex(s[i])
  {
    if i < 8 { assert s[i] == s[..8][i]; }
    else if i < 13 { assert s[i] == s[9..13][i - 9]; }
    else if i < 18 { assert s[i] == s[14..18][i - 14]; }
    else if i < 23 { assert s[i] == s[19..23][i - 19]; }
    else { assert s[i] == s[24..][i - 24]; }
  }

  function ParseUuid(s: string): Option<string> {
    if UuidShape(s) then Some(Lower(s)) else None
  }

  lemma UuidShapeIgnoresCase(s: string)
    ensures UuidShape(Lower(s)) <==> UuidShape(s)
  {
    LowerIsIdempotent(s);
    if |s| == 36 {
      HexIgnoresCase(s[..8], Lower(s)[..8]);
      HexIgnoresCase(s[9..13], Lower(s)[9..13]);
      HexIgnoresCase(s[14..18], Lower(s)[14..18]);
      HexIgnoresCase(s[19..23], Lower(s)[19..23]);
      HexIgnoresCase(s[24..], Lower(s)[24..]);
    }
  }

  lemma HexIgnoresCase(s: string, t: string)
    requires t == Lower(s)
    ensures AllHex(s) <==> AllHex(t)
  {
    forall i | 0 <= i < |s| ensures IsHex(s[i]) <==> IsHex(t[i]) { }
  }

  // The timestamp check

  /** The pattern dddd-dd-ddTdd:dd:dd.ddddddZ. */
  predicate TimestampShape(s: string) {
    && |s| == 27 && DateShape(s[..10]) && s[10] == 'T'
    && IsDigits(s[11..13]) && s[13] == ':' && IsDigits(s[14..16]) && s[16] == ':' && IsDigits(s[17..19])
    && s[19] == '.' && IsDigits(s[20..23]) && IsDigits(s[23..26]) && s[26] == 'Z'
  }

  function ClockOf(s: string): (c: Clock)
    requires TimestampShape(s)
    ensures FieldsInRange(c)
  {
    assert Pow10(2) == 100 && Pow10(3) == 1000;
    Clock(Number(s[11..13]), Number(s[14..16]), Number(s[17..19]), Number(s[20..23]))
  }

  function ClockText(c: Clock): string
    requires FieldsInRange(c)
  {
    Decimal(c.hour, 2) + ":" + Decimal(c.minute, 2) + ":" + Decimal(c.second, 2) + "." + Decimal(c.ms, 3)
  }

  /** new Date(t).toISOString().slice(0, 23) */
  function IsoPrefix(t: int): string {
    var (d, c) := ToIsoFields(t);
    if 0 <= d.year <= 9999 && 0 <= d.month <= 99 && 0 <= d.day <= 99 && FieldsInRange(c)
    then DateText(d) + "T" + ClockText(c) else "+"
  }

  predicate RealTimestamp(s: string) {
    TimestampShape(s) && Real(FieldsOf(s[..10])) && RealClock(ClockOf(s))
  }

  /** The checks decodeIssueCursor makes on the first field. */
  predicate TimestampAccepted(s: string) {
    TimestampShape(s) &&
    var time := DateParse(FieldsOf(s[..10]), ClockOf(s));
    time.Some? && IsoPrefix(time.value) == s[..23]
  }

  lemma ClockTextInjective(c: Clock, c': Clock)
    requires FieldsInRange(c) && FieldsInRange(c') && ClockText(c) == ClockText(c')
    ensures c == c'
  {
    ClockTextFields(c);
    ClockTextFields(c');
  }

  lemma ClockTextFields(c: Clock)
    requires FieldsInRange(c)
    ensures var s := ClockText(c);
            && |s| == 12 && IsDigits(s[..2]) && IsDigits(s[3..5]) && IsDigits(s[6..8]) && IsDigits(s[9..])
            && c == Clock(Number(s[..2]), Number(s[3..5]), Number(s[6..8]), Number(s[9..]))
  {
    var s := ClockText(c);
    assert s[..2] == Decimal(c.hour, 2) && s[3..5] == Decimal(c.minute, 2);
    assert s[6..8] == Decimal(c.second, 2) && s[9..] == Decimal(c.ms, 3);
  }

  lemma PrefixInjective(d: Date, c: Clock, d': Date, c': Clock)
    requires FieldsInRange(c) && FieldsInRange(c')
    requires 0 <= d.year <= 9999 && 0 <= d.month <= 99 && 0 <= d.day <= 99
    requires 0 <= d'.year <= 9999 && 0 <= d'.month <= 99 && 0 <= d'.day <= 99
    requires DateText(d) + "T" + ClockText(c) == DateText(d') + "T" + ClockText(c')
    ensures d == d' && c == c'
  {
    var (s, s') := (DateText(d) + "T" + ClockText(c), DateText(d') + "T" + ClockText(c'));
    assert s[..10] == DateText(d) && s'[..10] == DateText(d') && s[11..] == ClockText(c) && s'[11..] == ClockText(c');
    FieldsOfText(d);
    FieldsOfText(d');
    ClockTextInjective(c, c');
  }

  lemma TimestampParts(s: string)
    requires TimestampShape(s)
    ensures s[..23] == DateText(FieldsOf(s[..10])) + "T" + ClockText(ClockOf(s))
  {
    TextOfFields(s[..10]);
    var c := ClockOf(s);
    NumberInjective(Decimal(c.hour, 2), s[11..13]);
    NumberInjective(Decimal(c.minute, 2), s[14..16]);
    NumberInjective(Decimal(c.second, 2), s[17..19]);
    NumberInjective(Decimal(c.ms, 3), s[20..23]);
    var clock := s[11..13] + ":" + s[14..16] + ":" + s[17..19] + "." + s[20..23];
    assert clock == s[11..23];
    assert s[..23] == s[..10] + "T" + s[11..23];
  }

  /** The re-print check lets through exactly the texts that name a real instant. */
  lemma AcceptsExactlyRealInstants(s: string)
    ensures TimestampAccepted(s) <==> RealTimestamp(s)
  {
    if TimestampShape(s) {
      var (d, c) := (FieldsOf(s[..10]), ClockOf(s));
      TimestampParts(s);
      ParsePrintFixpoint(d, c);
      hide DateParse, ToIsoFields, Decimal;
      var time := DateParse(d, c);
      if time.Some? && IsoPrefix(time.value) == s[..23] {
        var (d', c') := ToIsoFields(time.value);
        assert s[..23][0] != '+';
        PrefixInjective(d, c, d', c');
      }
    }
  }

  // The codec

  function Split(s: string, sep: char): (parts: seq<string>)
    ensures |parts| >= 1
  {
    if s == "" then [""]
    else if s[0] == sep then [""] + Split(s[1..], sep)
    else
      var rest := Split(s[1..], sep);
      [[s[0]] + rest[0]] + rest[1..]
  }

  function EncodeText(text: string): string { Base64Url.Encode(Base64Url.Utf8(text)) }

  function EncodeIssueCursor(p: Position): string { EncodeText(p.createdAt + "|" + p.id) }

  function DecodeIssueCursor(cursor: string): Result<Position, Error> {
    var text := Base64Url.FromUtf8(Base64Url.Decode(cursor));
    var parts := Split(text, '|');
    var id := if |parts| > 1 then parts[1] else "";
    if |parts| > 2 || EncodeText(text) != cursor || !TimestampAccepted(parts[0]) then Err(InvalidCursor)
    else if ParseUuid(id).None? then Err(InvalidCursor)
    else Ok(Position(parts[0], ParseUuid(id).value))
  }

  /** A position the repository can hand out: a real instant, and a UUID in PostgreSQL's lower case. */
  predicate Valid(p: Position) {
    RealTimestamp(p.createdAt) && UuidShape(p.id) && Lower(p.id) == p.id
  }

  lemma {:induction false} SplitOnce(a: string, b: string, sep: char)
    requires sep !in a && sep !in b
    ensures Split(a + [sep] + b, sep) == [a, b]
  {
    if a == "" {
      SplitNone(b, sep);
      assert a + [sep] + b == [sep] + b;
    } else {
      SplitOnce(a[1..], b, sep);
      assert (a + [sep] + b)[1..] == a[1..] + [sep] + b;
      assert a == [a[0]] + a[1..];
    }
  }

  lemma {:induction false} SplitNone(s: string, sep: char)
    requires sep !in s
    ensures Split(s, sep) == [s]
  {
    if s != "" {
      SplitNone(s[1..], sep);
      assert s == [s[0]] + s[1..];
    }
  }

  lemma {:induction false} SplitJoins(s: string, sep: char)
    ensures |Split(s, sep)| == 1 ==> s == Split(s, sep)[0]
    ensures |Split(s, sep)| == 2 ==> s == Split(s, sep)[0] + [sep] + Split(s, sep)[1]
  {
    if s != "" { SplitJoins(s[1..], sep); }
  }

  predicate Plain(s: string) { forall i :: 0 <= i < |s| ==> s[i] as int < 124 }

  lemma PlainConcat(a: string, b: string)
    requires Plain(a) && Plain(b)
    ensures Plain(a + b)
  {
  }

  lemma DateIsPlain(s: string)
    requires DateShape(s)
    ensures Plain(s)
  {
    assert s == s[..4] + [s[4]] + s[5..7] + [s[7]] + s[8..];
  }

  lemma TimestampIsPlain(s: string)
    requires TimestampShape(s)
    ensures Plain(s)
  {
    DateIsPlain(s[..10]);
    assert Plain([s[10]] + s[11..13] + [s[13]] + s[14..16] + [s[16]]);
    assert Plain(s[17..19] + [s[19]] + s[20..23] + s[23..26] + [s[26]]);
    var (a, b) := ([s[10]] + s[11..13] + [s[13]] + s[14..16] + [s[16]], s[17..19] + [s[19]] + s[20..23] + s[23..26] + [s[26]]);
    PlainConcat(s[..10], a);
    PlainConcat(s[..10] + a, b);
    assert s == s[..10] + a + b;
  }

  lemma UuidIsPlain(s: string)
    requires UuidShape(s)
    ensures Plain(s)
  {
    var (a, b) := (s[..8] + [s[8]] + s[9..13] + [s[13]], s[14..18] + [s[18]] + s[19..23] + [s[23]] + s[24..]);
    assert Plain(a);
    assert Plain(b);
    PlainConcat(a, b);
    assert s == a + b;
  }

  lemma FieldsAreAscii(createdAt: string, id: string)
    requires TimestampShape(createdAt) && UuidShape(id)
    ensures '|' !in createdAt && '|' !in id
    ensures Base64Url.IsAscii(createdAt + "|" + id)
  {
    TimestampIsPlain(createdAt);
    UuidIsPlain(id);
  }

  /** Decoding a cursor made from a real timestamp and a UUID in any case gives the position back. */
  lemma DecodeOfEncode(createdAt: string, id: string)
    requires RealTimestamp(createdAt) && UuidShape(id)
    ensures DecodeIssueCursor(EncodeIssueCursor(Position(createdAt, id))) == Ok(Position(createdAt, Lower(id)))
  {
    var text := createdAt + "|" + id;
    FieldsAreAscii(createdAt, id);
    Base64Url.RoundTrip(Base64Url.Utf8(text));
    Base64Url.AsciiRoundTrip(text);
    SplitOnce(createdAt, id, '|');
    AcceptsExactlyRealInstants(createdAt);
  }

  /** decode(encode(p)) = p for every position the repository hands out. */
  lemma RoundTrip(p: Position)
    requires Valid(p)
    ensures DecodeIssueCursor(EncodeIssueCursor(p)) == Ok(p)
  {
    DecodeOfEncode(p.createdAt, p.id);
  }

  /** A cursor decodes to `p` exactly when `p` is a valid position and the cursor is the canonical encoding
      of it, up to the letter case of the id. */
  lemma AcceptsExactlyCanonicalCursors(cursor: string, p: Position)
    ensures DecodeIssueCursor(cursor) == Ok(p) <==>
            Valid(p) && exists id :: Lower(id) == p.id && cursor == EncodeIssueCursor(Position(p.createdAt, id))
  {
    if DecodeIssueCursor(cursor) == Ok(p) {
      var text := Base64Url.FromUtf8(Base64Url.Decode(cursor));
      var parts := Split(text, '|');
      SplitJoins(text, '|');
      AcceptsExactlyRealInstants(parts[0]);
      assert |parts| == 2;
      UuidShapeIgnoresCase(parts[1]);
      LowerIsIdempotent(parts[1]);
      assert cursor == EncodeIssueCursor(Position(p.createdAt, parts[1]));
    }
    if Valid(p) {
      forall id | Lower(id) == p.id && cursor == EncodeIssueCursor(Position(p.createdAt, id))
        ensures DecodeIssueCursor(cursor) == Ok(p)
      {
        UuidShapeIgnoresCase(id);
        DecodeOfEncode(p.createdAt, id);
      }
    }
  }

  // The order of positions

  /** Microseconds since the epoch. */
  function Micros(s: string): int
    requires RealTimestamp(s)
  {
    DayNumber(FieldsOf(s[..10])) * 86_400_000_000 + MicrosOfDay(s)
  }

  function MicrosOfDay(s: string): (r: int)
    requires RealTimestamp(s)
    ensures 0 <= r < 86_400_000_000
  {
    assert Pow10(3) == 1000;
    var c := ClockOf(s);
    ((c.hour * 60 + c.minute) * 60 + c.second) * 1_000_000 + c.ms * 1000 + Number(s[23..26])
  }

  lemma FieldOrder(a: string, a': string, b: string, b': string, sep: string)
    requires IsDigits(a) && IsDigits(b) && |a| == |b|
    ensures Less(a + sep + a', b + sep + b') <==> Number(a) < Number(b) || (Number(a) == Number(b) && Less(a', b'))
  {
    SeparatedOrder(a, a', b, b', sep);
    LessIsNumericOrder(a, b);
    if Number(a) == Number(b) { NumberInjective(a, b); }
  }

  function Fraction(s: string): string
    requires TimestampShape(s)
  {
    s[20..23] + "" + (s[23..26] + "Z" + "")
  }

  lemma FractionOrder(a: string, b: string)
    requires TimestampShape(a) && TimestampShape(b)
    ensures Less(Fraction(a), Fraction(b)) <==>
            Number(a[20..23]) * 1000 + Number(a[23..26]) < Number(b[20..23]) * 1000 + Number(b[23..26])
  {
    assert Pow10(3) == 1000;
    FieldOrder(a[23..26], "", b[23..26], "", "Z");
    FieldOrder(a[20..23], a[23..26] + "Z" + "", b[20..23], b[23..26] + "Z" + "", "");
  }

  function TimeOfDay(s: string): string
    requires TimestampShape(s)
  {
    s[11..13] + ":" + (s[14..16] + ":" + (s[17..19] + "." + Fraction(s)))
  }

  lemma TimeOfDayOrder(a: string, b: string)
    requires RealTimestamp(a) && RealTimestamp(b)
    ensures Less(TimeOfDay(a), TimeOfDay(b)) <==> MicrosOfDay(a) < MicrosOfDay(b)
  {
    assert Pow10(3) == 1000;
    FractionOrder(a, b);
    var (sa, sb) := (a[17..19] + "." + Fraction(a), b[17..19] + "." + Fraction(b));
    FieldOrder(a[17..19], Fraction(a), b[17..19], Fraction(b), ".");
    FieldOrder(a[14..16], sa, b[14..16], sb, ":");
    FieldOrder(a[11..13], a[14..16] + ":" + sa, b[11..13], b[14..16] + ":" + sb, ":");
  }

  /** The text order of timestamps is the order of the instants, so the model may compare positions as text. */
  lemma TextOrderIsTimeOrder(a: string, b: string)
    requires RealTimestamp(a) && RealTimestamp(b)
    ensures Less(a, b) <==> Micros(a) < Micros(b)
  {
    hide Less, Number, DayNumber, DateFromDay, ClockOf;
    assert a == a[..10] + "T" + TimeOfDay(a) && b == b[..10] + "T" + TimeOfDay(b);
    SeparatedOrder(a[..10], TimeOfDay(a), b[..10], TimeOfDay(b), "T");
    TimeOfDayOrder(a, b);
    DatePartOrder(a[..10], b[..10]);
  }

  lemma DatePartOrder(a: string, b: string)
    requires DateShape(a) && DateShape(b) && Real(FieldsOf(a)) && Real(FieldsOf(b))
    ensures Less(a, b) <==> DayNumber(FieldsOf(a)) < DayNumber(FieldsOf(b))
    ensures a == b <==> DayNumber(FieldsOf(a)) == DayNumber(FieldsOf(b))
  {
    TextOfFields(a);
    TextOfFields(b);
    DateTextOrder(FieldsOf(a), FieldsOf(b));
    DayNumberOrder(FieldsOf(a), FieldsOf(b));
    DayNumberRoundTrip(FieldsOf(a));
    DayNumberRoundTrip(FieldsOf(b));
  }

  /** (createdAt, id) < (createdAt, id), the row comparison of the keyset condition. */
  predicate Precedes(p: Position, q: Position) {
    Less(p.createdAt, q.createdAt) || (p.createdAt == q.createdAt && Less(p.id, q.id))
  }

  lemma PrecedesTransitive(p: Position, q: Position, r: Position)
    requires Precedes(p, q) && Precedes(q, r)
    ensures Precedes(p, r)
  {
    LessIrreflexive(p.createdAt);
    if Less(p.createdAt, q.createdAt) && Less(q.createdAt, r.createdAt) {
      LessTransitive(p.createdAt, q.createdAt, r.createdAt);
    }
    if p.createdAt == q.createdAt == r.createdAt { LessTransitive(p.id, q.id, r.id); }
  }

  lemma PrecedesTotal(p: Position, q: Position)
    ensures !Precedes(p, p)
    ensures Precedes(p, q) || p == q || Precedes(q, p)
  {
    LessIrreflexive(p.createdAt);
    LessIrreflexive(p.id);
    LessTotal(p.createdAt, q.createdAt);
    LessTotal(p.id, q.id);
  }
}

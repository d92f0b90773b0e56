/** Unpadded base64url (section 5 of RFC 4648), with Node's lenient decoder, and the byte form of text. */
module Base64Url {

  type Byte = b: int | 0 <= b < 256
  type Sextet = v: int | 0 <= v < 64

  function CharOf(v: Sextet): char {
    if v < 26 then ('A' as int + v) as char
    else if v < 52 then ('a' as int + v - 26) as char
    else if v < 62 then ('0' as int + v - 52) as char
    else if v == 62 then '-' else '_'
  }

  /** The URL-safe alphabet of RFC 4648: the letters, capitals first, the digits, then '-' and '_'. */
  lemma AlphabetIsUrlSafe(v: Sextet)
    ensures CharOf(0) == 'A' && CharOf(25) == 'Z' && CharOf(26) == 'a' && CharOf(51) == 'z' && CharOf(52) == '0' && CharOf(61) == '9'
    ensures CharOf(62) == '-' && CharOf(63) == '_'
    ensures v < 61 && v != 25 && v != 51 ==> CharOf(v + 1) as int == CharOf(v) as int + 1
  {
  }

  /** The decoder's table: both base64 alphabets; every other character is skipped. */
  predicate InAlphabet(c: char) {
    'A' <= c <= 'Z' || 'a' <= c <= 'z' || '0' <= c <= '9' || c == '-' || c == '_' || c == '+' || c == '/'
  }

  function ValueOf(c: char): Sextet
    requires InAlphabet(c)
  {
    if 'A' <= c <= 'Z' then c as int - 'A' as int
    else if 'a' <= c <= 'z' then c as int - 'a' as int + 26
    else if '0' <= c <= '9' then c as int - '0' as int + 52
    else if c == '-' || c == '+' then 62 else 63
  }

  lemma CharRoundTrip(v: Sextet)
    ensures InAlphabet(CharOf(v)) && ValueOf(CharOf(v)) == v
  {
  }

  /** Cuts bytes into six-bit digits; a last group of one or two bytes is filled up with zero bits. */
  function Cut(b: seq<Byte>): (d: seq<Sextet>) {
    if |b| == 0 then []
    else if |b| == 1 then [b[0] / 4, b[0] % 4 * 16]
    else if |b| == 2 then [b[0] / 4, b[0] % 4 * 16 + b[1] / 16, b[1] % 16 * 4]
    else [b[0] / 4, b[0] % 4 * 16 + b[1] / 16, b[1] % 16 * 4 + b[2] / 64, b[2] % 64] + Cut(b[3..])
  }

  /** A number's digits to this base, the most significant first. */
  function Digits(d: seq<int>, base: int): int {
    if d == [] then 0 else Digits(d[..|d| - 1], base) * base + d[|d| - 1]
  }

  /** Every three bytes become the four digits that write the same 24 bits; two bytes, or one, are first followed by two,
      or four, zero bits. */
  lemma CutKeepsBits(b: seq<Byte>)
    ensures |b| >= 3 ==> |Cut(b)| >= 4 && Digits(Cut(b)[..4], 64) == Digits(b[..3], 256) && Cut(b)[4..] == Cut(b[3..])
    ensures |b| == 2 ==> |Cut(b)| == 3 && Digits(Cut(b), 64) == Digits(b, 256) * 4
    ensures |b| == 1 ==> |Cut(b)| == 2 && Digits(Cut(b), 64) == Digits(b, 256) * 16
    ensures |b| == 0 ==> Cut(b) == []
  {
    if |b| >= 3 {
      var group := Cut(b)[..4];
      assert group == [b[0] / 4, b[0] % 4 * 16 + b[1] / 16, b[1] % 16 * 4 + b[2] / 64, b[2] % 64];
      FourDigits(group, 64);
      ThreeDigits(b[..3], 256);
      assert Cut(b)[4..] == Cut(b[3..]);
      SameBits(b[0], b[1], b[2]);
    } else if |b| == 2 {
      ThreeDigits(Cut(b), 64);
      TwoDigits(b, 256);
      SameBits(b[0], b[1], 0);
    } else if |b| == 1 {
      TwoDigits(Cut(b), 64);
      assert b[..0] == [];
      SameBits(b[0], 0, 0);
    }
  }

  lemma SameBits(x: Byte, y: Byte, z: Byte)
    ensures ((x / 4 * 64 + (x % 4 * 16 + y / 16)) * 64 + (y % 16 * 4 + z / 64)) * 64 + z % 64 == (x * 256 + y) * 256 + z
    ensures x / 4 * 64 + x % 4 * 16 == x * 16
    ensures (x / 4 * 64 + (x % 4 * 16 + y / 16)) * 64 + y % 16 * 4 == (x * 256 + y) * 4
  {
  }

  lemma TwoDigits(d: seq<int>, base: int)
    requires |d| == 2
    ensures Digits(d, base) == d[0] * base + d[1]
  {
    assert d[..1][..0] == [] && Digits([], base) == 0;
    assert Digits(d[..1], base) == d[0];
  }

  lemma ThreeDigits(d: seq<int>, base: int)
    requires |d| == 3
    ensures Digits(d, base) == (d[0] * base + d[1]) * base + d[2]
  {
    TwoDigits(d[..2], base);
  }

  lemma FourDigits(d: seq<int>, base: int)
    requires |d| == 4
    ensures Digits(d, base) == ((d[0] * base + d[1]) * base + d[2]) * base + d[3]
  {
    ThreeDigits(d[..3], base);
  }

  function First(u: Sextet, v: Sextet): Byte { (u as int) * 4 + (v as int) / 16 }

  function Second(u: Sextet, v: Sextet): Byte { (u as int) % 16 * 16 + (v as int) / 4 }

  function Third(u: Sextet, v: Sextet): Byte { (u as int) % 4 * 64 + (v as int) }

  /** Packs digits back into bytes, dropping the bits that do not fill one. */
  function Pack(d: seq<Sextet>): (b: seq<Byte>) {
    if |d| <= 1 then []
    else if |d| == 2 then [First(d[0], d[1])]
    else if |d| == 3 then [First(d[0], d[1]), Second(d[1], d[2])]
    else [First(d[0], d[1]), Second(d[1], d[2]), Third(d[2], d[3])] + Pack(d[4..])
  }

  lemma GroupRoundTrip(x: Byte, y: Byte, z: Byte)
    ensures First(x / 4, x % 4 * 16 + y / 16) == x
    ensures Second(x % 4 * 16 + y / 16, y % 16 * 4 + z / 64) == y
    ensures Third(y % 16 * 4 + z / 64, z % 64) == z
  {
  }

  lemma {:induction false} PackCut(b: seq<Byte>)
    ensures Pack(Cut(b)) == b
  {
    hide First, Second, Third;
    if |b| == 1 {
      GroupRoundTrip(b[0], 0, 0);
    } else if |b| == 2 {
      GroupRoundTrip(b[0], b[1], 0);
    } else if |b| >= 3 {
      GroupRoundTrip(b[0], b[1], b[2]);
      PackCut(b[3..]);
      PackGroup([b[0] / 4, b[0] % 4 * 16 + b[1] / 16, b[1] % 16 * 4 + b[2] / 64, b[2] % 64], Cut(b[3..]));
      assert b == [b[0], b[1], b[2]] + b[3..];
    }
  }

  lemma PackGroup(group: seq<Sextet>, rest: seq<Sextet>)
    requires |group| == 4
    ensures Pack(group + rest) ==
            [First(group[0], group[1]), Second(group[1], group[2]), Third(group[2], group[3])] + Pack(rest)
  {
    assert (group + rest)[4..] == rest;
  }

  function Write(d: seq<Sextet>): (s: string)
    ensures |s| == |d| && forall i :: 0 <= i < |d| ==> s[i] == CharOf(d[i])
  {
    seq(|d|, i requires 0 <= i < |d| => CharOf(d[i]))
  }

  function Read(s: string): seq<Sextet> {
    if s == "" then []
    else if InAlphabet(s[0]) then [ValueOf(s[0])] + Read(s[1..])
    else Read(s[1..])
  }

  lemma {:induction false} ReadWrite(d: seq<Sextet>)
    ensures Read(Write(d)) == d
  {
    if d != [] {
      ReadWrite(d[1..]);
      CharRoundTrip(d[0]);
      assert Write(d)[1..] == Write(d[1..]);
    }
  }

  function Encode(b: seq<Byte>): string { Write(Cut(b)) }

  function Decode(s: string): seq<Byte> { Pack(Read(s)) }

  /** Decoding inverts encoding, on every sequence of bytes. */
  lemma RoundTrip(b: seq<Byte>)
    ensures Decode(Encode(b)) == b
  {
    ReadWrite(Cut(b));
    PackCut(b);
  }

  predicate IsAscii(s: string) { forall i :: 0 <= i < |s| ==> s[i] as int < 128 }

  function CharBytes(c: char): seq<Byte> {
    var n := c as int;
    if n < 0x80 then [n]
    else if n < 0x800 then [0xC0 + n / 64, 0x80 + n % 64]
    else if n < 0x10000 then [0xE0 + n / 4096, 0x80 + n / 64 % 64, 0x80 + n % 64]
    else [0xF0 + n / 262144 % 8, 0x80 + n / 4096 % 64, 0x80 + n / 64 % 64, 0x80 + n % 64]
  }

  function Utf8(s: string): seq<Byte> {
    if s == "" then [] else CharBytes(s[0]) + Utf8(s[1..])
  }

  const REPLACEMENT := '\U{FFFD}'

  /** Bytes as text. A byte outside ASCII is read as a replacement character. */
  function FromUtf8(b: seq<Byte>): (s: string)
    ensures |s| == |b|
    ensures forall i :: 0 <= i < |b| ==> s[i] == if b[i] < 128 then b[i] as char else REPLACEMENT
  {
    seq(|b|, i requires 0 <= i < |b| => if b[i] < 128 then b[i] as char else REPLACEMENT)
  }

  lemma {:induction false} AsciiRoundTrip(s: string)
    requires IsAscii(s)
    ensures FromUtf8(Utf8(s)) == s
  {
    if s != "" {
      AsciiRoundTrip(s[1..]);
      assert Utf8(s) == [s[0] as int] + Utf8(s[1..]);
      assert FromUtf8(Utf8(s))[1..] == FromUtf8(Utf8(s[1..]));
    }
  }
}

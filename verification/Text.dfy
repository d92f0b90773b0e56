/** Text as the services handle it: ASCII case, trimming, and the order of JavaScript's `<` on strings. */
module Text {

  predicate IsDigit(c: char) { '0' <= c <= '9' }

  predicate IsLowerLetter(c: char) { 'a' <= c <= 'z' }

  predicate IsUpperLetter(c: char) { 'A' <= c <= 'Z' }

  predicate IsSpace(c: char) { c == ' ' || '\t' <= c <= '\r' }

  function LowerChar(c: char): char {
    if IsUpperLetter(c) then (c as int + 32) as char else c
  }

  /** ASCII lower-casing, character by character. */
  function Lower(s: string): (r: string)
    ensures |r| == |s| && forall i :: 0 <= i < |s| ==> r[i] == LowerChar(s[i])
  {
    seq(|s|, i requires 0 <= i < |s| => LowerChar(s[i]))
  }

  /** Any character-by-character mapping of a text. */
  function Fold(f: char -> char, s: string): (r: string)
    ensures |r| == |s| && forall i :: 0 <= i < |s| ==> r[i] == f(s[i])
  {
    seq(|s|, i requires 0 <= i < |s| => f(s[i]))
  }

  lemma FoldConcat(f: char -> char, s: string, t: string)
    ensures Fold(f, s + t) == Fold(f, s) + Fold(f, t)
  {
  }

  lemma LowerIsIdempotent(s: string)
    ensures Lower(Lower(s)) == Lower(s)
  {
    assert forall i :: 0 <= i < |s| ==> Lower(Lower(s))[i] == LowerChar(LowerChar(s[i]));
  }

  function TrimLeft(p: char -> bool, s: string): string {
    if s != "" && p(s[0]) then TrimLeft(p, s[1..]) else s
  }

  function TrimRight(p: char -> bool, s: string): string {
    if s != "" && p(s[|s| - 1]) then TrimRight(p, s[..|s| - 1]) else s
  }

  /** Removes the characters satisfying `p` from both ends. */
  function Trim(p: char -> bool, s: string): string { TrimLeft(p, TrimRight(p, s)) }

  lemma {:induction false} TrimLeftDropsRun(p: char -> bool, s: string)
    ensures var r := TrimLeft(p, s);
            && |r| <= |s| && r == s[|s| - |r|..] && (r != "" ==> !p(r[0]))
            && forall i :: 0 <= i < |s| - |r| ==> p(s[i])
  {
    if s != "" && p(s[0]) {
      var r := TrimLeft(p, s);
      TrimLeftDropsRun(p, s[1..]);
      assert s[1..][|s| - 1 - |r|..] == s[|s| - |r|..];
      forall i | 0 <= i < |s| - |r| ensures p(s[i]) { assert i > 0 ==> s[i] == s[1..][i - 1]; }
    }
  }

  lemma {:induction false} TrimRightDropsRun(p: char -> bool, s: string)
    ensures var r := TrimRight(p, s);
            && |r| <= |s| && r == s[..|r|] && (r != "" ==> !p(r[|r| - 1]))
            && forall i :: |r| <= i < |s| ==> p(s[i])
  {
    if s != "" && p(s[|s| - 1]) { TrimRightDropsRun(p, s[..|s| - 1]); }
  }

  /** What Trim drops satisfies `p`, and what it keeps neither starts nor ends so. */
  lemma TrimDropsRuns(p: char -> bool, s: string)
    ensures var r := Trim(p, s);
            && |r| <= |s| && (r != "" ==> !p(r[0]) && !p(r[|r| - 1]))
            && (forall c :: c in s && !p(c) ==> c in r)
            && forall c :: c in r ==> c in s
  {
    var right := TrimRight(p, s);
    var r := Trim(p, s);
    TrimRightDropsRun(p, s);
    TrimLeftDropsRun(p, right);
    assert r != "" ==> r[|r| - 1] == right[|right| - 1];
    forall c | c in s && !p(c) ensures c in r {
      var k :| 0 <= k < |s| && s[k] == c;
      assert right[k] == c;
      assert r[k - (|right| - |r|)] == c;
    }
  }

  /** Padding made of such characters is dropped. */
  lemma {:induction false} TrimDropsPadding(p: char -> bool, before: string, s: string, after: string)
    requires (forall c :: c in before ==> p(c)) && forall c :: c in after ==> p(c)
    ensures Trim(p, before + s + after) == Trim(p, s)
  {
    TrimRightDropsPadding(p, before + s, after);
    TrimRightBehind(p, before, s);
    if TrimRight(p, s) != "" { TrimLeftDropsPadding(p, before, TrimRight(p, s)); }
  }

  lemma {:induction false} TrimRightDropsPadding(p: char -> bool, s: string, after: string)
    requires forall c :: c in after ==> p(c)
    ensures TrimRight(p, s + after) == TrimRight(p, s)
  {
    if after == "" {
      assert s + after == s;
    } else {
      TrimRightDropsPadding(p, s, after[..|after| - 1]);
      assert (s + after)[..|s + after| - 1] == s + after[..|after| - 1];
      assert after[|after| - 1] in after;
    }
  }

  lemma {:induction false} TrimRightBehind(p: char -> bool, before: string, s: string)
    requires forall c :: c in before ==> p(c)
    ensures TrimRight(p, before + s) == if TrimRight(p, s) == "" then "" else before + TrimRight(p, s)
  {
    if s == "" {
      TrimRightDropsPadding(p, "", before);
      assert before + s == "" + before;
    } else {
      assert (before + s)[..|before + s| - 1] == before + s[..|s| - 1];
      TrimRightBehind(p, before, s[..|s| - 1]);
    }
  }

  lemma {:induction false} TrimLeftDropsPadding(p: char -> bool, before: string, s: string)
    requires forall c :: c in before ==> p(c)
    ensures TrimLeft(p, before + s) == TrimLeft(p, s)
  {
    if before == "" {
      assert before + s == s;
    } else {
      assert before[0] in before && (before + s)[1..] == before[1..] + s;
      TrimLeftDropsPadding(p, before[1..], s);
    }
  }

  /** A mapping that respects `p` commutes with trimming. */
  lemma {:induction false} TrimFold(p: char -> bool, f: char -> char, s: string)
    requires forall c :: p(f(c)) == p(c)
    ensures Trim(p, Fold(f, s)) == Fold(f, Trim(p, s))
  {
    TrimRightFold(p, f, s);
    TrimLeftFold(p, f, TrimRight(p, s));
  }

  lemma {:induction false} TrimRightFold(p: char -> bool, f: char -> char, s: string)
    requires forall c :: p(f(c)) == p(c)
    ensures TrimRight(p, Fold(f, s)) == Fold(f, TrimRight(p, s))
  {
    if s != "" {
      TrimRightFold(p, f, s[..|s| - 1]);
      assert Fold(f, s)[..|s| - 1] == Fold(f, s[..|s| - 1]);
    }
  }

  lemma {:induction false} TrimLeftFold(p: char -> bool, f: char -> char, s: string)
    requires forall c :: p(f(c)) == p(c)
    ensures TrimLeft(p, Fold(f, s)) == Fold(f, TrimLeft(p, s))
  {
    if s != "" {
      TrimLeftFold(p, f, s[1..]);
      assert Fold(f, s)[1..] == Fold(f, s[1..]);
    }
  }

  lemma TrimKeeps(p: char -> bool, s: string)
    requires s != "" ==> !p(s[0]) && !p(s[|s| - 1])
    ensures Trim(p, s) == s
  {
  }

  /** Lexicographic order by character code. */
  predicate Less(a: string, b: string) {
    b != "" && (a == "" || a[0] < b[0] || (a[0] == b[0] && Less(a[1..], b[1..])))
  }

  lemma {:induction false} LessIrreflexive(a: string)
    ensures !Less(a, a)
  {
    if a != "" { LessIrreflexive(a[1..]); }
  }

  lemma {:induction false} LessTransitive(a: string, b: string, c: string)
    requires Less(a, b) && Less(b, c)
    ensures Less(a, c)
  {
    if a != "" && a[0] == b[0] == c[0] {
      LessTransitive(a[1..], b[1..], c[1..]);
    }
  }

  lemma {:induction false} LessTotal(a: string, b: string)
    ensures Less(a, b) || a == b || Less(b, a)
  {
    if a != "" && b != "" && a[0] == b[0] {
      LessTotal(a[1..], b[1..]);
      assert a == [a[0]] + a[1..] && b == [b[0]] + b[1..];
    }
  }

  /** On parts of equal width the first part decides, and the second only on a tie. */
  lemma {:induction false} LessConcat(a: string, a': string, b: string, b': string)
    requires |a| == |b|
    ensures Less(a + a', b + b') <==> Less(a, b) || (a == b && Less(a', b'))
  {
    if a == "" {
      assert a + a' == a' && b + b' == b';
    } else {
      LessConcat(a[1..], a', b[1..], b');
      assert (a + a')[1..] == a[1..] + a' && (b + b')[1..] == b[1..] + b';
      assert a == b <==> a[0] == b[0] && a[1..] == b[1..];
    }
  }

  predicate IsDigits(s: string) { forall i :: 0 <= i < |s| ==> IsDigit(s[i]) }

  function DigitValue(c: char): (r: int)
    requires IsDigit(c)
    ensures 0 <= r <= 9
  {
    c as int - '0' as int
  }

  function DigitChar(d: int): (c: char)
    requires 0 <= d <= 9
    ensures IsDigit(c) && DigitValue(c) == d
  {
    (d + '0' as int) as char
  }

  function Pow10(n: nat): nat { if n == 0 then 1 else 10 * Pow10(n - 1) }

  /** The number written by a run of decimal digits. */
  function Number(s: string): (r: nat)
    requires IsDigits(s)
    ensures r < Pow10(|s|)
  {
    if s == "" then 0 else
      assert Number(s[..|s| - 1]) < Pow10(|s| - 1);
      10 * Number(s[..|s| - 1]) + DigitValue(s[|s| - 1])
  }

  /** `n` in decimal, padded with zeros to `width`. */
  function Decimal(n: nat, width: nat): (s: string)
    requires n < Pow10(width)
    ensures |s| == width && IsDigits(s) && Number(s) == n
  {
    if width == 0 then "" else
      var front := Decimal(n / 10, width - 1);
      var s := front + [DigitChar(n % 10)];
      assert s[..width - 1] == front;
      s
  }

  lemma SplitNumber(m: nat, d: nat, n: nat, e: nat)
    requires 10 * m + d == 10 * n + e && d < 10 && e < 10
    ensures m == n && d == e
  {
  }

  /** Digits of one width are determined by their number... */
  lemma {:induction false} NumberInjective(a: string, b: string)
    requires IsDigits(a) && IsDigits(b) && |a| == |b| && Number(a) == Number(b)
    ensures a == b
  {
    if a != "" {
      var n := |a| - 1;
      SplitNumber(Number(a[..n]), DigitValue(a[n]), Number(b[..n]), DigitValue(b[n]));
      NumberInjective(a[..n], b[..n]);
      assert a == a[..n] + [a[n]] && b == b[..n] + [b[n]];
    }
  }

  /** ...and ordered as text exactly as they are as numbers. */
  lemma {:induction false} LessIsNumericOrder(a: string, b: string)
    requires IsDigits(a) && IsDigits(b) && |a| == |b|
    ensures Less(a, b) <==> Number(a) < Number(b)
  {
    if a != "" {
      var n := |a| - 1;
      LessIsNumericOrder(a[..n], b[..n]);
      LessConcat(a[..n], a[n..], b[..n], b[n..]);
      assert a == a[..n] + a[n..] && b == b[..n] + b[n..];
      if Number(a[..n]) == Number(b[..n]) { NumberInjective(a[..n], b[..n]); }
      assert a[n..] == [a[n]] && b[n..] == [b[n]];
      assert [a[n]][1..] == "" && [b[n]][1..] == "";
    }
  }
}

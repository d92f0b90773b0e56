/** The summary search: escaping a text into an ILIKE pattern
    (apps/issue-service-nest/src/infrastructure/postgres-issue.repository.ts). */
module Like {
  import opened Text

  /** PostgreSQL's LIKE with the default escape character. */
  predicate Matches(s: string, p: string)
    decreases |s| + |p|
  {
    if p == "" then s == ""
    else if p[0] == '%' then Matches(s, p[1..]) || (s != "" && Matches(s[1..], p))
    else if s == "" then false
    else if p[0] == '_' then Matches(s[1..], p[1..])
    else if p[0] == '\\' then |p| >= 2 && s[0] == p[1] && Matches(s[1..], p[2..])
    else s[0] == p[0] && Matches(s[1..], p[1..])
  }

  /** A pattern ending in a bare escape character makes PostgreSQL raise an error. */
  predicate WellFormed(p: string) {
    p == "" || (if p[0] == '\\' then |p| >= 2 && WellFormed(p[2..]) else WellFormed(p[1..]))
  }

  /** ILIKE: both sides folded by the database's case mapping. */
  predicate IMatches(fold: char -> char, s: string, p: string) { Matches(Fold(fold, s), Fold(fold, p)) }

  /** The mapping leaves the pattern characters alone, and turns nothing else into one. */
  ghost predicate KeepsPatterns(fold: char -> char) {
    forall c: char :: (Special(c) ==> fold(c) == c) && (Special(fold(c)) ==> Special(c))
  }

  lemma AsciiKeepsPatterns()
    ensures KeepsPatterns(LowerChar)
  {
  }

  predicate Special(c: char) { c == '\\' || c == '%' || c == '_' }

  /** q.replace(/[\\%_]/g, '\\$&') */
  function Escape(q: string): string {
    if q == "" then "" else (if Special(q[0]) then ['\\', q[0]] else [q[0]]) + Escape(q[1..])
  }

  function SearchPattern(q: string): string { "%" + Escape(q) + "%" }

  ghost predicate Contains(s: string, q: string) {
    exists i :: 0 <= i <= |s| && q <= s[i..]
  }

  lemma {:induction false} PercentMatchesAll(s: string)
    ensures Matches(s, "%")
  {
    if s != "" { PercentMatchesAll(s[1..]); }
  }

  lemma {:induction false} EscapedMatchesPrefix(s: string, q: string)
    ensures Matches(s, Escape(q) + "%") <==> q <= s
    decreases |q|
  {
    var p := Escape(q) + "%";
    if q == "" {
      assert p == "%";
      PercentMatchesAll(s);
    } else if s != "" {
      EscapedMatchesPrefix(s[1..], q[1..]);
      var head := if Special(q[0]) then ['\\', q[0]] else [q[0]];
      assert p == head + (Escape(q[1..]) + "%");
      assert p[|head|..] == Escape(q[1..]) + "%";
      assert q <= s <==> q[0] == s[0] && q[1..] <= s[1..];
    }
  }

  lemma {:induction false} LeadingPercent(s: string, p: string)
    ensures Matches(s, "%" + p) <==> exists i :: 0 <= i <= |s| && Matches(s[i..], p)
  {
    assert ("%" + p)[1..] == p && s[0..] == s;
    if s != "" {
      LeadingPercent(s[1..], p);
      forall i | 0 <= i < |s| ensures s[1..][i..] == s[i + 1..] { }
      if i :| 0 <= i <= |s| && Matches(s[i..], p) {
        assert i > 0 ==> 0 <= i - 1 <= |s[1..]| && s[1..][i - 1..] == s[i..];
      }
      if i :| 0 <= i <= |s[1..]| && Matches(s[1..][i..], p) {
        assert s[1..][i..] == s[i + 1..];
      }
    }
  }

  /** For all texts, the escaped pattern matches exactly the summaries that contain the query literally. */
  lemma MatchesExactlySubstrings(s: string, q: string)
    ensures Matches(s, SearchPattern(q)) <==> Contains(s, q)
  {
    assert SearchPattern(q) == "%" + (Escape(q) + "%");
    LeadingPercent(s, Escape(q) + "%");
    forall i | 0 <= i <= |s| ensures Matches(s[i..], Escape(q) + "%") <==> q <= s[i..] {
      EscapedMatchesPrefix(s[i..], q);
    }
  }

  lemma {:induction false} FoldEscape(fold: char -> char, q: string)
    requires KeepsPatterns(fold)
    ensures Fold(fold, Escape(q)) == Escape(Fold(fold, q))
  {
    if q != "" {
      FoldEscape(fold, q[1..]);
      var head := if Special(q[0]) then ['\\', q[0]] else [q[0]];
      FoldConcat(fold, head, Escape(q[1..]));
      assert Fold(fold, q)[1..] == Fold(fold, q[1..]);
      assert Special('\\') && fold('\\') == '\\' && (Special(fold(q[0])) <==> Special(q[0]));
      assert Fold(fold, head) == if Special(q[0]) then ['\\', fold(q[0])] else [fold(q[0])];
    }
  }

  /** The same with case folded on both sides, whatever the database's case mapping, as long as it keeps patterns. */
  lemma SearchIsCaseBlindSubstring(fold: char -> char, s: string, q: string)
    requires KeepsPatterns(fold)
    ensures IMatches(fold, s, SearchPattern(q)) <==> Contains(Fold(fold, s), Fold(fold, q))
  {
    FoldConcat(fold, "%", Escape(q));
    FoldConcat(fold, "%" + Escape(q), "%");
    FoldEscape(fold, q);
    assert Special('%') && Fold(fold, "%") == "%";
    MatchesExactlySubstrings(Fold(fold, s), Fold(fold, q));
  }

  lemma HeadIsWellFormed(head: string, rest: string)
    requires WellFormed(rest) && ((|head| == 2 && head[0] == '\\') || (|head| == 1 && head[0] != '\\'))
    ensures WellFormed(head + rest)
  {
    assert (head + rest)[|head|..] == rest && (head + rest)[0] == head[0];
  }

  /** No query escapes into a pattern PostgreSQL rejects. */
  lemma {:induction false} EscapedIsWellFormed(q: string, p: string)
    requires WellFormed(p)
    ensures WellFormed(Escape(q) + p)
  {
    if q == "" {
      assert Escape(q) + p == p;
    } else {
      EscapedIsWellFormed(q[1..], p);
      var head := if Special(q[0]) then ['\\', q[0]] else [q[0]];
      var rest := Escape(q[1..]) + p;
      assert Escape(q) + p == head + rest;
      HeadIsWellFormed(head, rest);
    }
  }

  /** What escaping is for: unescaped, a search for an underscore finds every text but the empty one, and a search for a percent
      sign finds every text. */
  lemma {:induction false} EscapingIsNeeded(s: string)
    ensures s != "" ==> Matches(s, "%" + "_" + "%")
    ensures Matches(s, "%" + "%" + "%")
  {
    PercentMatchesAll(s);
    assert ("%" + "%" + "%")[1..] == "%" + "%" && ("%" + "%")[1..] == "%";
    if s != "" {
      PercentMatchesAll(s[1..]);
      assert ("%" + "_" + "%")[1..] == "_" + "%" && ("_" + "%")[1..] == "%";
    }
  }

  /** A pattern with one more escape character at its end is an error. */
  lemma {:induction false} BareEscapeIsAnError(p: string)
    requires WellFormed(p)
    ensures !WellFormed(p + "\\")
    decreases |p|
  {
    if p == "" {
      assert p + "\\" == "\\";
    } else if p[0] == '\\' {
      BareEscapeIsAnError(p[2..]);
      assert (p + "\\")[2..] == p[2..] + "\\";
    } else {
      BareEscapeIsAnError(p[1..]);
      assert (p + "\\")[1..] == p[1..] + "\\";
    }
  }

  lemma SearchPatternIsWellFormed(q: string)
    ensures WellFormed(SearchPattern(q))
  {
    EscapedIsWellFormed(q, "%");
    assert SearchPattern(q)[1..] == Escape(q) + "%";
  }
}

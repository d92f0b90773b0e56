/** Slug normalisation (apps/project-service-dotnet/Application/RequestValidation.cs). */
module Slug {
  import opened Types
  import opened Text

  datatype SlugError = Required | TooLong | BadCharacters

  const MAX_LENGTH := 80

  /** The platform's case mapping and white space, character by character. */
  datatype Unicode = Unicode(lower: char -> char, white: char -> bool)

  /** What is used of them: the characters of a slug are lower-case already, and not white space. */
  ghost predicate Sound(u: Unicode) {
    forall c: char :: Alphanumeric(c) || IsHyphen(c) ==> u.lower(c) == c && !u.white(c)
  }

  /** The ASCII mapping and white space, for one, satisfy it. */
  lemma AsciiIsSound()
    ensures Sound(Unicode(LowerChar, IsSpace))
  {
  }

  predicate AllSpaces(u: Unicode, s: string) { forall i :: 0 <= i < |s| ==> u.white(s[i]) }

  function RequiredString(u: Unicode, value: Option<string>, maxLength: nat): Result<string, SlugError> {
    if value.None? || AllSpaces(u, value.value) then Err(Required)
    else
      var normalized := Trim(u.white, value.value);
      if |normalized| > maxLength then Err(TooLong) else Ok(normalized)
  }

  predicate IsHyphen(c: char) { c == '-' }

  function SpaceOrUnderscore(u: Unicode): char -> bool { c => u.white(c) || c == '_' }

  function Separator(u: Unicode): char -> bool { c => SpaceOrUnderscore(u)(c) || IsHyphen(c) }

  predicate Alphanumeric(c: char) { IsLowerLetter(c) || IsDigit(c) }

  /** Regex replacement of every maximal run of `p` by one hyphen. `inRun`: the preceding character satisfied `p`. */
  function ReplaceRuns(p: char -> bool, s: string, inRun: bool): (r: string)
    ensures |r| <= |s|
  {
    if s == "" then ""
    else if p(s[0]) then (if inRun then "" else "-") + ReplaceRuns(p, s[1..], true)
    else [s[0]] + ReplaceRuns(p, s[1..], false)
  }

  /** The automaton of ^[a-z0-9]+(?:-[a-z0-9]+)*$: a word must start here. */
  predicate WordStart(s: string) {
    s != "" && Alphanumeric(s[0]) && InWord(s[1..])
  }

  predicate InWord(s: string) {
    s == "" || (if s[0] == '-' then WordStart(s[1..]) else Alphanumeric(s[0]) && InWord(s[1..]))
  }

  /** The two replacements and the trim that follow lower-casing. */
  function Hyphenate(u: Unicode, s: string): (slug: string)
    ensures |slug| <= |s|
  {
    var hyphenated := ReplaceRuns(IsHyphen, ReplaceRuns(SpaceOrUnderscore(u), s, false), false);
    TrimDropsRuns(IsHyphen, hyphenated);
    Trim(IsHyphen, hyphenated)
  }

  function NormalizeSlug(u: Unicode, value: Option<string>): Result<string, SlugError> {
    match RequiredString(u, value, MAX_LENGTH)
    case Err(error) => Err(error)
    case Ok(text) => CheckSlug(Hyphenate(u, Fold(u.lower, text)))
  }

  function CheckSlug(slug: string): Result<string, SlugError> {
    if slug == "" then Err(Required)
    else if |slug| > MAX_LENGTH then Err(TooLong)
    else if !WordStart(slug) then Err(BadCharacters)
    else Ok(slug)
  }

  // What a slug is

  /** The maximal alphanumeric runs of `s`, the first of which continues `word`. */
  function WordsFrom(word: string, s: string): seq<string>
    decreases |s|
  {
    var done := if word == "" then [] else [word];
    if s == "" then done
    else if Alphanumeric(s[0]) then WordsFrom(word + [s[0]], s[1..])
    else done + WordsFrom("", s[1..])
  }

  function Words(s: string): seq<string> { WordsFrom("", s) }

  function Join(words: seq<string>): string {
    if words == [] then ""
    else words[0] + (if words[1..] == [] then "" else "-" + Join(words[1..]))
  }

  predicate OnlySlugCharacters(u: Unicode, s: string) {
    forall i :: 0 <= i < |s| ==> Alphanumeric(s[i]) || Separator(u)(s[i])
  }

  /** Such texts are of the letters a to z, digits, white space, underscores and hyphens. */
  lemma SlugCharactersAre(u: Unicode, s: string)
    ensures OnlySlugCharacters(u, s) <==>
              forall c :: c in s ==> 'a' <= c <= 'z' || '0' <= c <= '9' || u.white(c) || c == '_' || c == '-'
  {
    forall c ensures Separator(u)(c) <==> u.white(c) || c == '_' || c == '-' {
      assert SpaceOrUnderscore(u)(c) <==> u.white(c) || c == '_';
    }
  }

  /** The two replacements together collapse mixed runs of spaces, underscores and hyphens. */
  lemma {:induction false} ReplacementsMerge(u: Unicode, s: string, inSpaces: bool, inHyphens: bool)
    requires Sound(u)
    requires inSpaces ==> inHyphens
    ensures ReplaceRuns(IsHyphen, ReplaceRuns(SpaceOrUnderscore(u), s, inSpaces), inHyphens)
         == ReplaceRuns(Separator(u), s, inHyphens)
  {
    if s != "" {
      var rest := ReplaceRuns(SpaceOrUnderscore(u), s[1..], SpaceOrUnderscore(u)(s[0]));
      if SpaceOrUnderscore(u)(s[0]) {
        ReplacementsMerge(u, s[1..], true, true);
        assert inSpaces ==> "" + rest == rest;
        assert ("-" + rest)[1..] == rest;
      } else {
        ReplacementsMerge(u, s[1..], false, IsHyphen(s[0]));
        assert ([s[0]] + rest)[1..] == rest;
      }
    }
  }

  lemma {:induction false} WordsAreNonEmpty(word: string, s: string)
    ensures forall i :: 0 <= i < |WordsFrom(word, s)| ==> WordsFrom(word, s)[i] != ""
    decreases |s|
  {
    if s != "" {
      WordsAreNonEmpty(if Alphanumeric(s[0]) then word + [s[0]] else "", s[1..]);
    }
  }

  lemma TrimRightCons(c: char, s: string)
    ensures TrimRight(IsHyphen, [c] + s) ==
            if TrimRight(IsHyphen, s) == "" && c == '-' then "" else [c] + TrimRight(IsHyphen, s)
  {
    if s != "" {
      assert ([c] + s)[..|s|] == [c] + s[..|s| - 1];
      if IsHyphen(s[|s| - 1]) { TrimRightCons(c, s[..|s| - 1]); }
    } else {
      assert [c][..0] == "";
    }
  }

  lemma JoinCons(word: string, words: seq<string>)
    requires forall i :: 0 <= i < |words| ==> words[i] != ""
    ensures Join([word] + words) == word + (if Join(words) == "" then "" else "-" + Join(words))
    ensures Join(words) == "" <==> words == []
  {
    assert ([word] + words)[1..] == words;
  }

  lemma {:induction false} CollapsedIsJoined(u: Unicode, word: string, s: string)
    requires Sound(u)
    requires OnlySlugCharacters(u, s)
    ensures Join(WordsFrom(word, s)) == word + TrimRight(IsHyphen, ReplaceRuns(Separator(u), s, word == ""))
    decreases |s|
  {
    if s == "" {
      assert word + "" == word;
    } else if Alphanumeric(s[0]) {
      CollapsedIsJoined(u, word + [s[0]], s[1..]);
      LetterContinuesWord(u, word, s, TrimRight(IsHyphen, ReplaceRuns(Separator(u), s[1..], false)));
    } else {
      CollapsedIsJoined(u, "", s[1..]);
      SeparatorEndsWord(u, word, s);
    }
  }

  lemma LetterSeparatesNothing(u: Unicode, c: char)
    requires Sound(u) && Alphanumeric(c)
    ensures !SpaceOrUnderscore(u)(c) && !Separator(u)(c) && u.lower(c) == c && c != '-'
  {
    assert !u.white(c);
    assert !SpaceOrUnderscore(u)(c);
  }

  lemma HyphenStays(u: Unicode)
    requires Sound(u)
    ensures Separator(u)('-') && !SpaceOrUnderscore(u)('-') && u.lower('-') == '-'
  {
    assert IsHyphen('-') && !u.white('-');
  }

  lemma LetterContinuesWord(u: Unicode, word: string, s: string, kept: string)
    requires Sound(u)
    requires s != "" && Alphanumeric(s[0])
    requires kept == TrimRight(IsHyphen, ReplaceRuns(Separator(u), s[1..], false))
    ensures WordsFrom(word, s) == WordsFrom(word + [s[0]], s[1..])
    ensures word + TrimRight(IsHyphen, ReplaceRuns(Separator(u), s, word == "")) == word + [s[0]] + kept
  {
    LetterSeparatesNothing(u, s[0]);
    TrimRightCons(s[0], ReplaceRuns(Separator(u), s[1..], false));
    assert word + ([s[0]] + kept) == word + [s[0]] + kept;
  }

  lemma SeparatorEndsWord(u: Unicode, word: string, s: string)
    requires Sound(u)
    requires s != "" && Separator(u)(s[0]) && !Alphanumeric(s[0])
    requires Join(Words(s[1..])) == "" + TrimRight(IsHyphen, ReplaceRuns(Separator(u), s[1..], true))
    ensures Join(WordsFrom(word, s)) == word + TrimRight(IsHyphen, ReplaceRuns(Separator(u), s, word == ""))
  {
    var others := Words(s[1..]);
    var tail := ReplaceRuns(Separator(u), s[1..], true);
    assert Join(others) == TrimRight(IsHyphen, tail);
    if word == "" {
      assert [] + others == others && "" + tail == tail;
    } else {
      WordsAreNonEmpty("", s[1..]);
      JoinCons(word, others);
      TrimRightCons('-', tail);
    }
  }

  lemma TrimWithoutLeading(t: string)
    requires t != "" ==> t[0] != '-'
    ensures Trim(IsHyphen, t) == TrimRight(IsHyphen, t)
  {
    TrimRightDropsRun(IsHyphen, t);
    var right := TrimRight(IsHyphen, t);
    assert right != "" ==> right[0] == t[0];
  }

  lemma TrimWithLeading(t: string)
    requires t != "" ==> t[0] != '-'
    ensures Trim(IsHyphen, "-" + t) == TrimRight(IsHyphen, t)
  {
    TrimWithoutLeading(t);
    TrimRightCons('-', t);
    var right := TrimRight(IsHyphen, t);
    if right != "" {
      assert TrimRight(IsHyphen, "-" + t) == ['-'] + right;
      assert (['-'] + right)[1..] == right;
    }
  }

  lemma LeadingRunIsTrimmed(u: Unicode, s: string)
    requires Sound(u)
    ensures Trim(IsHyphen, ReplaceRuns(Separator(u), s, false)) == TrimRight(IsHyphen, ReplaceRuns(Separator(u), s, true))
  {
    NoLeadingHyphen(u, s);
    var collapsed := ReplaceRuns(Separator(u), s, true);
    if s != "" && Separator(u)(s[0]) {
      var tail := ReplaceRuns(Separator(u), s[1..], true);
      assert collapsed == "" + tail == tail;
      assert ReplaceRuns(Separator(u), s, false) == "-" + tail;
      TrimWithLeading(tail);
    } else {
      TrimWithoutLeading(collapsed);
    }
  }

  lemma {:induction false} NoLeadingHyphen(u: Unicode, s: string)
    requires Sound(u)
    ensures var r := ReplaceRuns(Separator(u), s, true); r != "" ==> r[0] != '-'
  {
    if s != "" && Separator(u)(s[0]) { NoLeadingHyphen(u, s[1..]); }
  }

  lemma {:induction false} JoinedWordsMatch(word: string, s: string)
    requires forall i :: 0 <= i < |word| ==> Alphanumeric(word[i])
    ensures WordsFrom(word, s) != [] ==> WordStart(Join(WordsFrom(word, s)))
    decreases |s|
  {
    if s == "" {
      WordThen(word, "");
      assert word + "" == word;
    } else if Alphanumeric(s[0]) {
      JoinedWordsMatch(word + [s[0]], s[1..]);
    } else {
      JoinedWordsMatch("", s[1..]);
      var others := Words(s[1..]);
      WordsAreNonEmpty("", s[1..]);
      if word == "" {
        assert [] + others == others;
      } else {
        JoinCons(word, others);
        var tail := if others == [] then "" else "-" + Join(others);
        assert tail != "" ==> tail[1..] == Join(others);
        WordThen(word, tail);
      }
    }
  }

  lemma {:induction false} WordThen(word: string, tail: string)
    requires forall i :: 0 <= i < |word| ==> Alphanumeric(word[i])
    requires InWord(tail)
    ensures InWord(word + tail) && (word != "" ==> WordStart(word + tail))
  {
    if word == "" {
      assert word + tail == tail;
    } else {
      WordThen(word[1..], tail);
      assert (word + tail)[1..] == word[1..] + tail;
    }
  }

  lemma {:induction false} MatchedCharacters(s: string)
    requires InWord(s)
    ensures forall i :: 0 <= i < |s| ==> Alphanumeric(s[i]) || s[i] == '-'
  {
    if s != "" {
      MatchedCharacters(s[1..]);
      assert s == [s[0]] + s[1..];
    }
  }

  lemma {:induction false} KeptCharacters(u: Unicode, s: string, inRun: bool, c: char)
    requires Sound(u)
    requires c in s && !Separator(u)(c)
    ensures c in ReplaceRuns(Separator(u), s, inRun)
  {
    if c in s[1..] { KeptCharacters(u, s[1..], Separator(u)(s[0]), c); }
  }

  /** A normalised slug passes through every step unchanged. */
  lemma {:induction false} MatchedIsCollapsed(u: Unicode, s: string)
    requires Sound(u)
    ensures InWord(s) ==> ReplaceRuns(Separator(u), s, false) == s && (s != "" ==> s[|s| - 1] != '-')
    ensures WordStart(s) ==> ReplaceRuns(Separator(u), s, true) == s && ReplaceRuns(Separator(u), s, false) == s
    ensures InWord(s) || WordStart(s) ==> Fold(u.lower, s) == s
  {
    if s != "" {
      MatchedIsCollapsed(u, s[1..]);
      assert s == [s[0]] + s[1..];
      if Alphanumeric(s[0]) { LetterSeparatesNothing(u, s[0]); }
      HyphenStays(u);
      if Fold(u.lower, s[1..]) == s[1..] { FoldConcat(u.lower, [s[0]], s[1..]); }
      assert WordStart(s[1..]) ==> InWord(s[1..]);
      assert s[1..] != "" ==> s[|s| - 1] == s[1..][|s[1..]| - 1];
    }
  }

  function Collapsed(u: Unicode, s: string): string { Trim(IsHyphen, ReplaceRuns(Separator(u), s, false)) }

  lemma GoodTextCollapses(u: Unicode, s: string)
    requires Sound(u)
    requires OnlySlugCharacters(u, s)
    ensures Collapsed(u, s) == Join(Words(s))
    ensures Words(s) != [] <==> Collapsed(u, s) != ""
    ensures Words(s) != [] ==> WordStart(Collapsed(u, s))
  {
    CollapsedIsJoined(u, "", s);
    var right := TrimRight(IsHyphen, ReplaceRuns(Separator(u), s, true));
    assert "" + right == right;
    LeadingRunIsTrimmed(u, s);
    JoinedWordsMatch("", s);
  }

  lemma BadTextIsRejected(u: Unicode, s: string)
    requires Sound(u)
    requires !OnlySlugCharacters(u, s)
    ensures !WordStart(Collapsed(u, s))
  {
    var i :| 0 <= i < |s| && !(Alphanumeric(s[i]) || Separator(u)(s[i]));
    KeptCharacters(u, s, false, s[i]);
    TrimDropsRuns(IsHyphen, ReplaceRuns(Separator(u), s, false));
    if WordStart(Collapsed(u, s)) { MatchedCharacters(Collapsed(u, s)); }
  }

  lemma NormalizedText(u: Unicode, s: string)
    requires Sound(u)
    ensures Hyphenate(u, s) != "" && WordStart(Hyphenate(u, s)) <==> OnlySlugCharacters(u, s) && Words(s) != []
    ensures OnlySlugCharacters(u, s) ==> Hyphenate(u, s) == Join(Words(s))
  {
    ReplacementsMerge(u, s, false, false);
    assert Hyphenate(u, s) == Collapsed(u, s);
    if OnlySlugCharacters(u, s) { GoodTextCollapses(u, s); } else { BadTextIsRejected(u, s); }
  }

  /** The slug of a text, when there is one: trimmed to 1-80 characters, its lower-cased text uses only slug
      characters and separators, and the slug is its alphanumeric runs joined by single hyphens. */
  lemma SlugIsJoinedWords(u: Unicode, value: Option<string>, slug: string)
    requires Sound(u)
    ensures NormalizeSlug(u, value) == Ok(slug) <==>
            && value.Some? && !AllSpaces(u, value.value)
            && var text := Trim(u.white, value.value);
            && |text| <= MAX_LENGTH && OnlySlugCharacters(u, Fold(u.lower, text))
            && Words(Fold(u.lower, text)) != [] && slug == Join(Words(Fold(u.lower, text)))
  {
    if RequiredString(u, value, MAX_LENGTH).Ok? {
      var s := Fold(u.lower, Trim(u.white, value.value));
      NormalizedText(u, s);
      assert CheckSlug(Hyphenate(u, s)) == Ok(slug) <==>
             OnlySlugCharacters(u, s) && Words(s) != [] && slug == Join(Words(s));
    }
  }

  /** And when there is none, which error says so: something is required when no alphanumeric run is left of the text, and
      what is there has bad characters when it is not too long. */
  lemma ErrorsExactly(u: Unicode, value: Option<string>)
    requires Sound(u) && value.Some? && !AllSpaces(u, value.value) && |Trim(u.white, value.value)| <= MAX_LENGTH
    ensures var text := Fold(u.lower, Trim(u.white, value.value));
            && (NormalizeSlug(u, value) == Err(BadCharacters) <==> !OnlySlugCharacters(u, text))
            && (NormalizeSlug(u, value) == Err(Required) <==> OnlySlugCharacters(u, text) && Words(text) == [])
    ensures NormalizeSlug(u, None) == Err(Required)
  {
    var s := Fold(u.lower, Trim(u.white, value.value));
    NormalizedText(u, s);
    if OnlySlugCharacters(u, s) {
      GoodTextCollapses(u, s);
      ReplacementsMerge(u, s, false, false);
    } else {
      SomethingStays(u, s);
    }
  }

  lemma SomethingStays(u: Unicode, s: string)
    requires Sound(u) && !OnlySlugCharacters(u, s)
    ensures Hyphenate(u, s) != ""
  {
    var i :| 0 <= i < |s| && !(Alphanumeric(s[i]) || Separator(u)(s[i]));
    ReplacementsMerge(u, s, false, false);
    KeptCharacters(u, s, false, s[i]);
    TrimDropsRuns(IsHyphen, ReplaceRuns(Separator(u), s, false));
  }

  /** Normalising a slug again changes nothing. */
  lemma NormalizeIsIdempotent(u: Unicode, value: Option<string>, slug: string)
    requires Sound(u)
    requires NormalizeSlug(u, value) == Ok(slug)
    ensures NormalizeSlug(u, Some(slug)) == Ok(slug) && 1 <= |slug| <= MAX_LENGTH
  {
    MatchedSlugIsFixed(u, slug);
  }

  lemma MatchedSlugIsFixed(u: Unicode, slug: string)
    requires Sound(u)
    requires WordStart(slug) && |slug| <= MAX_LENGTH
    ensures NormalizeSlug(u, Some(slug)) == Ok(slug)
  {
    assert InWord(slug);
    MatchedCharacters(slug);
    MatchedIsCollapsed(u, slug);
    assert RequiredString(u, Some(slug), MAX_LENGTH) == Ok(slug) by {
      assert !AllSpaces(u, slug) by { assert !u.white(slug[0]); }
      TrimKeeps(u.white, slug);
    }
    assert Hyphenate(u, slug) == slug by {
      ReplacementsMerge(u, slug, false, false);
      TrimKeeps(IsHyphen, slug);
    }
  }

  /** The second length check can never fail: the replacements only shorten. */
  lemma TooLongOnlyFromInput(u: Unicode, value: Option<string>)
    ensures NormalizeSlug(u, value) == Err(TooLong) <==>
            value.Some? && !AllSpaces(u, value.value) && |Trim(u.white, value.value)| > MAX_LENGTH
  {
  }
}

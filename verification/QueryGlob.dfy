/**
  The values of a metadata query that may contain stars.

  The query language promises one wildcard, `*`.  The wildcard query of the search engine knows `?` as
  well, and a backslash that makes the next character stand for itself.  The two readings agree on
  exactly the values that use neither together with a star.
 */
module QueryGlob {

  /** What the query language promises: a star stands for any string, everything else for itself. */
  ghost predicate StarMatches(glob: string, text: string) {
    if glob == "" then text == ""
    else if glob[0] == '*' then exists k | 0 <= k <= |text| :: StarMatches(glob[1..], text[k..])
    else text != "" && text[0] == glob[0] && StarMatches(glob[1..], text[1..])
  }

  /** What a wildcard query selects; a backslash at the end of the pattern stands for itself. */
  ghost predicate EngineMatches(pattern: string, text: string)
    decreases |pattern|
  {
    if pattern == "" then text == ""
    else if pattern[0] == '*' then exists k | 0 <= k <= |text| :: EngineMatches(pattern[1..], text[k..])
    else if Escapes(pattern) then text != "" && text[0] == pattern[1] && EngineMatches(pattern[2..], text[1..])
    else text != "" && (pattern[0] == '?' || text[0] == pattern[0]) && EngineMatches(pattern[1..], text[1..])
  }

  predicate Escapes(pattern: string) {
    |pattern| > 1 && pattern[0] == '\\'
  }

  /** The code sends a wildcard query for a value with a star and a term query for any other. */
  ghost predicate Selected(glob: string, text: string) {
    if '*' in glob then EngineMatches(glob, text) else glob == text
  }

  /** The readings of one value agree on every text. */
  ghost predicate SameReading(glob: string) {
    forall text :: Selected(glob, text) <==> StarMatches(glob, text)
  }

  /** Nothing but stars is special to the search engine. */
  predicate OnlyStars(glob: string) {
    forall k :: 0 <= k < |glob| ==> glob[k] != '?' && (glob[k] == '\\' ==> k == |glob| - 1)
  }

  predicate OneWildcard(glob: string) {
    '*' in glob ==> OnlyStars(glob)
  }

  // ---------------------------------------------------------------- where the readings agree

  lemma {:induction false} WithoutStar(glob: string, text: string)
    requires '*' !in glob
    ensures StarMatches(glob, text) <==> glob == text
  {
    if glob != "" && text != "" {
      WithoutStar(glob[1..], text[1..]);
      assert glob == [glob[0]] + glob[1..] && text == [text[0]] + text[1..];
    }
  }

  lemma {:induction false} WithStarsOnly(glob: string, text: string)
    requires OnlyStars(glob)
    ensures StarMatches(glob, text) <==> EngineMatches(glob, text)
  {
    if glob == "" {
    } else if glob[0] == '*' {
      forall k | 0 <= k <= |text| ensures StarMatches(glob[1..], text[k..]) <==> EngineMatches(glob[1..], text[k..]) {
        WithStarsOnly(glob[1..], text[k..]);
      }
    } else if text != "" {
      WithStarsOnly(glob[1..], text[1..]);
    }
  }

  // ---------------------------------------------------------------- where they differ

  predicate Special(c: char) {
    c == '?' || c == '\\'
  }

  function Specials(s: string): nat {
    if s == "" then 0 else (if Special(s[0]) then 1 else 0) + Specials(s[1..])
  }

  lemma {:induction false} SpecialsOfRest(s: string, k: nat)
    requires k <= |s|
    ensures Specials(s[k..]) <= Specials(s)
  {
    if k == 0 {
      assert s[0..] == s;
    } else {
      SpecialsOfRest(s[1..], k - 1);
      assert s[1..][k - 1..] == s[k..];
    }
  }

  /** Read as promised, a value demands each of its special characters. */
  lemma {:induction false} SpecialsNeeded(glob: string, text: string)
    requires StarMatches(glob, text)
    ensures Specials(glob) <= Specials(text)
  {
    if glob == "" {
    } else if glob[0] == '*' {
      var k :| 0 <= k <= |text| && StarMatches(glob[1..], text[k..]);
      SpecialsNeeded(glob[1..], text[k..]);
      SpecialsOfRest(text, k);
    } else {
      SpecialsNeeded(glob[1..], text[1..]);
    }
  }

  /** A text that the search engine selects: stars empty, an x for each question mark, escapes taken off. */
  function Example(glob: string): string
    decreases |glob|
  {
    if glob == "" then ""
    else if glob[0] == '*' then Example(glob[1..])
    else if Escapes(glob) then [glob[1]] + Example(glob[2..])
    else [if glob[0] == '?' then 'x' else glob[0]] + Example(glob[1..])
  }

  lemma {:induction false} ExampleMatches(glob: string)
    ensures EngineMatches(glob, Example(glob))
    ensures Specials(Example(glob)) <= Specials(glob)
    ensures !OnlyStars(glob) ==> Specials(Example(glob)) < Specials(glob)
    decreases |glob|
  {
    if glob == "" {
    } else if glob[0] == '*' {
      ExampleMatches(glob[1..]);
      assert Example(glob)[0..] == Example(glob);
    } else if Escapes(glob) {
      ExampleMatches(glob[2..]);
      assert glob[1..][1..] == glob[2..];
    } else {
      ExampleMatches(glob[1..]);
    }
  }

  /** A value that mixes a star with something special: the search engine selects a text that the
      promised reading does not. */
  lemma Misread(glob: string)
    requires !OneWildcard(glob)
    ensures Selected(glob, Example(glob)) && !StarMatches(glob, Example(glob))
  {
    ExampleMatches(glob);
    if StarMatches(glob, Example(glob)) { SpecialsNeeded(glob, Example(glob)); }
  }

  /** The promised reading is kept for exactly the values in which a star comes with no question mark
      and with no backslash except at the very end. */
  lemma ReadingsAgreeExactlyWhen(glob: string)
    ensures SameReading(glob) <==> OneWildcard(glob)
  {
    if OneWildcard(glob) {
      forall text ensures Selected(glob, text) <==> StarMatches(glob, text) {
        if '*' in glob { WithStarsOnly(glob, text); } else { WithoutStar(glob, text); }
      }
    } else {
      Misread(glob);
    }
  }
}

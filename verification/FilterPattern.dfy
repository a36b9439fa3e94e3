/** From the filter rules of a notification configuration to one wildcard pattern. */
module FilterPattern {
  import opened Wildcard

  datatype FilterRule = FilterRule(name: string, value: string)

  /** The value of the last rule of this name, the empty string when there is none. */
  function LastValue(rules: seq<FilterRule>, name: string): string {
    if rules == [] then ""
    else if rules[|rules| - 1].name == name then rules[|rules| - 1].value
    else LastValue(rules[..|rules| - 1], name)
  }

  /** The value that a rule list sets under a name: that of a rule with no other of the name behind it,
      and the empty string without such a rule. */
  ghost predicate InForce(rules: seq<FilterRule>, name: string, value: string) {
    (exists i :: IsLast(rules, name, i) && rules[i].value == value)
    || (value == "" && forall i :: 0 <= i < |rules| ==> rules[i].name != name)
  }

  predicate IsLast(rules: seq<FilterRule>, name: string, i: int) {
    0 <= i < |rules| && rules[i].name == name && forall j :: i < j < |rules| ==> rules[j].name != name
  }

  lemma SameInFront(rules: seq<FilterRule>, name: string, value: string)
    requires rules != [] && rules[|rules| - 1].name != name
    ensures InForce(rules, name, value) <==> InForce(rules[..|rules| - 1], name, value)
  {
    var rest := rules[..|rules| - 1];
    forall i ensures IsLast(rules, name, i) <==> IsLast(rest, name, i) {
      assert forall j :: i < j < |rest| && 0 <= i ==> rest[j] == rules[j];
    }
    if i :| IsLast(rules, name, i) && rules[i].value == value { assert IsLast(rest, name, i) && rest[i] == rules[i]; }
    if i :| IsLast(rest, name, i) && rest[i].value == value { assert IsLast(rules, name, i) && rest[i] == rules[i]; }
    assert forall i :: 0 <= i < |rest| ==> rest[i] == rules[i];
  }

  /** There is exactly one such value. */
  lemma {:induction false} LastInForce(rules: seq<FilterRule>, name: string, value: string)
    ensures InForce(rules, name, value) <==> value == LastValue(rules, name)
  {
    if rules != [] {
      var last: nat := |rules| - 1;
      if rules[last].name == name {
        assert IsLast(rules, name, last);
      } else {
        LastInForce(rules[..last], name, value);
        SameInFront(rules, name, value);
      }
    }
  }

  lemma OnlyInForce(rules: seq<FilterRule>, name: string)
    ensures forall value :: InForce(rules, name, value) <==> value == LastValue(rules, name)
  {
    forall value ensures InForce(rules, name, value) <==> value == LastValue(rules, name) {
      LastInForce(rules, name, value);
    }
  }

  /** What a rule list answers to an object name. */
  ghost predicate FilterSays(rules: seq<FilterRule>, name: string, verdict: Verdict) {
    forall p, s :: InForce(rules, "prefix", p) && InForce(rules, "suffix", s) ==> FilterVerdict(p, s, name) == verdict
  }

  lemma FilterSaysOne(rules: seq<FilterRule>, name: string, verdict: Verdict)
    ensures FilterSays(rules, name, verdict)
            <==> FilterVerdict(LastValue(rules, "prefix"), LastValue(rules, "suffix"), name) == verdict
  {
    OnlyInForce(rules, "prefix");
    OnlyInForce(rules, "suffix");
  }

  function Head(prefix: string): string {
    if prefix == "" || prefix[|prefix| - 1] == '*' then prefix else prefix + "*"
  }

  function Tail(suffix: string): string {
    if suffix == "" || suffix[0] == '*' then suffix else "*" + suffix
  }

  function PatternOf(prefix: string, suffix: string): string {
    CollapseStars(Head(prefix) + Tail(suffix))
  }

  /** The pattern the rules index is keyed by: no filter at all matches everything. */
  function EffectivePattern(pattern: string): string {
    if pattern == "" then "*" else pattern
  }

  method NewPattern(prefix: string, suffix: string) returns (pattern: string)
    ensures pattern == PatternOf(prefix, suffix)
    ensures forall o :: MatchSimple(EffectivePattern(pattern), o) == FilterVerdict(prefix, suffix, o)
  {
    pattern := "";
    var p, s := prefix, suffix;
    if p != "" {
      if p[|p| - 1] != '*' {
        p := p + "*";
      }
      pattern := p;
    }
    if s != "" {
      if s[0] != '*' {
        s := "*" + s;
      }
      pattern := pattern + s;
    }
    assert pattern == Head(prefix) + Tail(suffix);
    pattern := CollapseStars(pattern);
    forall o ensures MatchSimple(EffectivePattern(pattern), o) == FilterVerdict(prefix, suffix, o) {
      PatternMeaning(prefix, suffix, o);
    }
  }

  /** FilterRuleList.Pattern: the last prefix and the last suffix count, for every name. */
  method Pattern(rules: seq<FilterRule>) returns (pattern: string)
    ensures pattern == PatternOf(LastValue(rules, "prefix"), LastValue(rules, "suffix"))
    ensures forall p, s, o :: InForce(rules, "prefix", p) && InForce(rules, "suffix", s) ==>
              MatchSimple(EffectivePattern(pattern), o) == FilterVerdict(p, s, o)
  {
    var prefix, suffix := "", "";
    for i := 0 to |rules|
      invariant prefix == LastValue(rules[..i], "prefix")
      invariant suffix == LastValue(rules[..i], "suffix")
    {
      assert rules[..i + 1][..i] == rules[..i];
      if rules[i].name == "prefix" {
        prefix := rules[i].value;
      } else if rules[i].name == "suffix" {
        suffix := rules[i].value;
      }
    }
    assert rules[..|rules|] == rules;
    pattern := NewPattern(prefix, suffix);
    OnlyInForce(rules, "prefix");
    OnlyInForce(rules, "suffix");
  }

  // ---------------------------------------------------------------- what the pattern means

  /** The name starts with a match of the prefix and, after it, ends with a match of the suffix. */
  ghost predicate StartsAndEnds(prefix: string, suffix: string, name: string) {
    exists i, j :: EndsAt(prefix, suffix, name, i, j)
  }

  ghost predicate EndsAt(prefix: string, suffix: string, name: string, i: int, j: int) {
    0 <= i <= j <= |name| && Matches(prefix, name[..i]) && Matches(suffix, name[j..])
  }

  /** The name is no match, but is matched by a part of head and tail that ends before a question mark. */
  ghost predicate CutShort(prefix: string, suffix: string, name: string) {
    var whole := Head(prefix) + Tail(suffix);
    exists k :: 0 <= k < |whole| && whole[k] == '?' && Matches(whole[..k], name)
  }

  ghost function FilterVerdict(prefix: string, suffix: string, name: string): Verdict {
    if StartsAndEnds(prefix, suffix, name) then Yes else if CutShort(prefix, suffix, name) then Panic else No
  }

  ghost predicate HeadAt(prefix: string, x: string, i: nat) {
    i <= |x| && DeepMatch(x[..i], prefix)
  }

  ghost predicate TailAt(suffix: string, x: string, j: nat) {
    j <= |x| && DeepMatch(x[j..], suffix)
  }

  /** A trailing star absorbs whatever follows. */
  lemma StarExtends(p: string, x: string, i: nat)
    requires i <= |x| && DeepMatch(x[..i], p + "*")
    ensures DeepMatch(x, p + "*")
  {
    var k := CutMatch(p, "*", x[..i]);
    assert x[..i][..k] == x[..k];
    StarMatchesAll(x[k..]);
    JoinMatch(p, "*", x, k);
  }

  lemma HeadMeaning(prefix: string, x: string)
    requires prefix != ""
    ensures DeepMatch(x, Head(prefix)) <==> exists i: nat :: HeadAt(prefix, x, i)
  {
    var last := |prefix| - 1;
    if DeepMatch(x, Head(prefix)) {
      if prefix[last] == '*' {
        assert x[..|x|] == x;
        assert HeadAt(prefix, x, |x|);
      } else {
        var i := CutMatch(prefix, "*", x);
        assert HeadAt(prefix, x, i);
      }
    }
    if i: nat :| HeadAt(prefix, x, i) {
      if prefix[last] == '*' {
        assert prefix == prefix[..last] + "*";
        StarExtends(prefix[..last], x, i);
      } else {
        StarMatchesAll(x[i..]);
        JoinMatch(prefix, "*", x, i);
      }
    }
  }

  lemma TailMeaning(suffix: string, x: string)
    requires suffix != ""
    ensures DeepMatch(x, Tail(suffix)) <==> exists j: nat :: TailAt(suffix, x, j)
  {
    if DeepMatch(x, Tail(suffix)) {
      if suffix[0] == '*' {
        assert x[0..] == x;
        assert TailAt(suffix, x, 0);
      } else {
        var j := CutMatch("*", suffix, x);
        assert TailAt(suffix, x, j);
      }
    }
    if j: nat :| TailAt(suffix, x, j) {
      if suffix[0] == '*' {
        assert suffix == "*" + suffix[1..];
        StarPrecedes(suffix[1..], x, j);
      } else {
        StarMatchesAll(x[..j]);
        JoinMatch("*", suffix, x, j);
      }
    }
  }

  lemma HeadGivesPrefix(prefix: string, name: string, k: nat) returns (i: nat)
    requires k <= |name| && DeepMatch(name[..k], Head(prefix))
    ensures i <= k && DeepMatch(name[..i], prefix)
  {
    i := 0;
    if prefix != "" {
      HeadMeaning(prefix, name[..k]);
      i :| HeadAt(prefix, name[..k], i);
      assert name[..k][..i] == name[..i];
    }
  }

  lemma TailGivesSuffix(suffix: string, name: string, k: nat) returns (j: nat)
    requires k <= |name| && DeepMatch(name[k..], Tail(suffix))
    ensures k <= j <= |name| && DeepMatch(name[j..], suffix)
  {
    j := |name|;
    if suffix != "" {
      TailMeaning(suffix, name[k..]);
      var m: nat :| TailAt(suffix, name[k..], m);
      j := k + m;
      assert name[k..][m..] == name[j..];
    }
  }

  /** A name that splits between head and tail has its prefix and its suffix in order. */
  lemma SplitGivesEnds(prefix: string, suffix: string, name: string, k: nat)
    requires SplitMatch(Head(prefix), Tail(suffix), name, k)
    ensures StartsAndEnds(prefix, suffix, name)
  {
    var i := HeadGivesPrefix(prefix, name, k);
    var j := TailGivesSuffix(suffix, name, k);
    DeepMatchIsMatches(prefix, name[..i]);
    DeepMatchIsMatches(suffix, name[j..]);
    assert EndsAt(prefix, suffix, name, i, j);
  }

  lemma EndsGiveSplit(prefix: string, suffix: string, name: string)
    requires StartsAndEnds(prefix, suffix, name) && (prefix != "" || suffix != "")
    ensures exists k: nat :: SplitMatch(Head(prefix), Tail(suffix), name, k)
  {
    var i, j :| EndsAt(prefix, suffix, name, i, j);
    DeepMatchIsMatches(prefix, name[..i]);
    DeepMatchIsMatches(suffix, name[j..]);
    var k := if suffix == "" then |name| else i;
    if prefix != "" {
      assert name[..k][..i] == name[..i];
      assert HeadAt(prefix, name[..k], i);
      HeadMeaning(prefix, name[..k]);
    }
    if suffix != "" {
      assert name[k..][j - k..] == name[j..];
      assert TailAt(suffix, name[k..], j - k);
      TailMeaning(suffix, name[k..]);
    }
    assert SplitMatch(Head(prefix), Tail(suffix), name, k);
  }

  lemma WholeMeaning(prefix: string, suffix: string, name: string)
    requires prefix != "" || suffix != ""
    ensures DeepMatch(name, Head(prefix) + Tail(suffix)) <==> StartsAndEnds(prefix, suffix, name)
  {
    if DeepMatch(name, Head(prefix) + Tail(suffix)) {
      var k := CutMatch(Head(prefix), Tail(suffix), name);
      SplitGivesEnds(prefix, suffix, name, k);
    }
    if StartsAndEnds(prefix, suffix, name) {
      EndsGiveSplit(prefix, suffix, name);
      var k: nat :| SplitMatch(Head(prefix), Tail(suffix), name, k);
      JoinMatch(Head(prefix), Tail(suffix), name, k);
    }
  }

  lemma NoFilterMatchesAll(name: string)
    ensures StartsAndEnds("", "", name)
  {
    DeepMatchIsMatches("", name[..0]);
    DeepMatchIsMatches("", name[|name|..]);
    assert EndsAt("", "", name, 0, |name|);
  }

  /** The answer to the pattern of any prefix and suffix, with wildcards of their own or without: yes
      for exactly the names that start with the one and, without overlap, end with the other; a panic
      for exactly the other names on which the pattern is cut short. */
  lemma PatternMeaning(prefix: string, suffix: string, name: string)
    ensures MatchSimple(EffectivePattern(PatternOf(prefix, suffix)), name) == FilterVerdict(prefix, suffix, name)
  {
    var whole := Head(prefix) + Tail(suffix);
    if prefix == "" && suffix == "" {
      NoFilterMatchesAll(name);
    } else {
      assert PatternOf(prefix, suffix) != "";
      CollapseKeepsMeaning(whole, name);
      MatchSimpleMeaning(whole, name);
      DeepMatchIsMatches(whole, name);
      WholeMeaning(prefix, suffix, name);
    }
  }

  /** A filter for a suffix that starts with a question mark makes the matcher panic on every name that
      it does not match. */
  lemma MarkedSuffixNeverSaysNo(suffix: string, name: string)
    requires suffix != "" && suffix[0] == '?'
    ensures MatchSimple(EffectivePattern(PatternOf("", suffix)), name)
            == if StartsAndEnds("", suffix, name) then Yes else Panic
  {
    PatternMeaning("", suffix, name);
    var whole := Head("") + Tail(suffix);
    assert whole[..1] == "*" && whole[1] == '?';
    StarMatchesAll(name);
    DeepMatchIsMatches(whole[..1], name);
  }

  /** The suffix ?x and the name ab. */
  lemma PanicExample()
    ensures MatchSimple(EffectivePattern(PatternOf("", "?x")), "ab") == Panic
  {
    assert "*?x"[1..] == "?x" && "?x"[1..] == "x" && "ab"[1..] == "b" && "b"[1..] == "" && "x"[1..] == "";
    assert PatternOf("", "?x") == "*?x" by {
      assert "" + "*?x" == "*?x" && "*" + "?x" == "*?x" && ['*'] + "?x" == "*?x" && ['?'] + "x" == "?x";
      assert CollapseStars("x") == "x" && CollapseStars("?x") == "?x";
    }
    assert Search("ab", "?x") == No && Search("b", "?x") == No;
    assert Search("", "?x") == Panic;
    assert Search("", "*?x") == Panic;
    assert Search("b", "*?x") == Panic;
  }

  predicate Literal(s: string) {
    forall k :: 0 <= k < |s| ==> !IsWild(s[k])
  }

  lemma {:induction false} LiteralMatchesItself(s: string, name: string)
    requires Literal(s)
    ensures Matches(s, name) <==> name == s
  {
    DeepMatchIsMatches(s, name);
    if s != "" {
      DeepMatchIsMatches(s[1..], if name == "" then "" else name[1..]);
      if name != "" {
        LiteralMatchesItself(s[1..], name[1..]);
        assert name == [name[0]] + name[1..] && s == [s[0]] + s[1..];
      }
    }
  }

  lemma LiteralEnds(prefix: string, suffix: string, name: string)
    requires Literal(prefix) && Literal(suffix)
    ensures StartsAndEnds(prefix, suffix, name) <==>
            |name| >= |prefix| + |suffix| && name[..|prefix|] == prefix && name[|name| - |suffix|..] == suffix
  {
    if |name| >= |prefix| + |suffix| && name[..|prefix|] == prefix && name[|name| - |suffix|..] == suffix {
      LiteralMatchesItself(prefix, prefix);
      LiteralMatchesItself(suffix, suffix);
      assert EndsAt(prefix, suffix, name, |prefix|, |name| - |suffix|);
    }
    if i, j :| EndsAt(prefix, suffix, name, i, j) {
      LiteralMatchesItself(prefix, name[..i]);
      LiteralMatchesItself(suffix, name[j..]);
    }
  }

  lemma LiteralNeverCut(prefix: string, suffix: string, name: string)
    requires Literal(prefix) && Literal(suffix)
    ensures !CutShort(prefix, suffix, name)
  {
  }

  /** Without wildcards in the filter values: starts with, ends with, and long enough for both; and the
      matcher never panics. */
  lemma FilterMeaning(rules: seq<FilterRule>, p: string, s: string, name: string)
    requires InForce(rules, "prefix", p) && InForce(rules, "suffix", s) && Literal(p) && Literal(s)
    ensures FilterSays(rules, name,
                       if |name| >= |p| + |s| && name[..|p|] == p && name[|name| - |s|..] == s then Yes else No)
    ensures MatchSimple(EffectivePattern(PatternOf(p, s)), name)
            == if |name| >= |p| + |s| && name[..|p|] == p && name[|name| - |s|..] == s then Yes else No
  {
    OnlyInForce(rules, "prefix");
    OnlyInForce(rules, "suffix");
    PatternMeaning(p, s, name);
    LiteralEnds(p, s, name);
    LiteralNeverCut(p, s, name);
  }
}

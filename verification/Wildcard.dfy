/**
  The matcher behind the notification rules: `*` stands for any string, `?` for any one character.

  `Matches` says what a pattern means: its wildcards can be filled in so that the name results;
  `DeepMatch` says the same by recursion.  `Search` is the search of the wildcard package, which looks
  past the end of the name when it meets a `?` there, and panics.  What it answers, and when it
  panics, is told in terms of the meaning.
 */
module Wildcard {

  predicate IsWild(c: char) {
    c == '*' || c == '?'
  }

  function Wilds(pattern: string): nat {
    if pattern == "" then 0 else (if IsWild(pattern[0]) then 1 else 0) + Wilds(pattern[1..])
  }

  /** The pattern with its wildcards replaced, from left to right, by the given strings. */
  function Fill(pattern: string, fills: seq<string>): string
    requires |fills| == Wilds(pattern)
  {
    if pattern == "" then ""
    else if IsWild(pattern[0]) then fills[0] + Fill(pattern[1..], fills[1..])
    else [pattern[0]] + Fill(pattern[1..], fills)
  }

  /** Every `?` is filled by exactly one character. */
  predicate Proper(pattern: string, fills: seq<string>)
    requires |fills| == Wilds(pattern)
  {
    if pattern == "" then true
    else if IsWild(pattern[0]) then (pattern[0] == '?' ==> |fills[0]| == 1) && Proper(pattern[1..], fills[1..])
    else Proper(pattern[1..], fills)
  }

  ghost predicate Filled(pattern: string, name: string, fills: seq<string>) {
    |fills| == Wilds(pattern) && Proper(pattern, fills) && Fill(pattern, fills) == name
  }

  ghost predicate Matches(pattern: string, name: string) {
    exists fills :: Filled(pattern, name, fills)
  }

  predicate DeepMatch(name: string, pattern: string)
    decreases |pattern|, |name|
  {
    if pattern == "" then name == ""
    else if pattern[0] == '*' then
      DeepMatch(name, pattern[1..]) || (name != "" && DeepMatch(name[1..], pattern))
    else
      name != "" && (pattern[0] == '?' || name[0] == pattern[0]) && DeepMatch(name[1..], pattern[1..])
  }

  datatype Verdict = Yes | No | Panic

  /** deepMatchRune: a star first tries to stand for nothing, and its alternatives end with the first
      one that does not say no. */
  function Search(name: string, pattern: string): Verdict
    decreases |pattern|, |name|
  {
    if pattern == "" then (if name == "" then Yes else No)
    else if pattern[0] == '*' then
      var first := Search(name, pattern[1..]);
      if first != No then first
      else if name == "" then No
      else Search(name[1..], pattern)
    else if pattern[0] == '?' then
      if name == "" then Panic else Search(name[1..], pattern[1..])
    else if name == "" || name[0] != pattern[0] then No
    else Search(name[1..], pattern[1..])
  }

  function MatchSimple(pattern: string, name: string): Verdict {
    if pattern == "" then (if name == pattern then Yes else No)
    else if pattern == "*" then Yes
    else Search(name, pattern)
  }

  // ---------------------------------------------------------------- the two meanings agree

  lemma {:induction false} RecursionIsSound(name: string, pattern: string) returns (fills: seq<string>)
    requires DeepMatch(name, pattern)
    ensures Filled(pattern, name, fills)
    decreases |pattern|, |name|
  {
    if pattern == "" {
      fills := [];
    } else if pattern[0] == '*' {
      if DeepMatch(name, pattern[1..]) {
        var rest := RecursionIsSound(name, pattern[1..]);
        fills := [""] + rest;
        assert fills[1..] == rest;
      } else {
        var more := RecursionIsSound(name[1..], pattern);
        fills := [[name[0]] + more[0]] + more[1..];
        assert fills[1..] == more[1..];
        assert fills[0] + Fill(pattern[1..], more[1..]) == [name[0]] + (more[0] + Fill(pattern[1..], more[1..]));
      }
    } else {
      var rest := RecursionIsSound(name[1..], pattern[1..]);
      if pattern[0] == '?' {
        fills := [[name[0]]] + rest;
        assert fills[1..] == rest;
      } else {
        fills := rest;
      }
    }
  }

  lemma {:induction false} RecursionIsComplete(name: string, pattern: string, fills: seq<string>)
    requires Filled(pattern, name, fills)
    ensures DeepMatch(name, pattern)
    decreases |pattern|, |name|
  {
    if pattern == "" {
    } else if pattern[0] == '*' {
      if fills[0] == "" {
        assert name == Fill(pattern[1..], fills[1..]);
        RecursionIsComplete(name, pattern[1..], fills[1..]);
      } else {
        var less := [fills[0][1..]] + fills[1..];
        assert less[1..] == fills[1..];
        assert name[1..] == fills[0][1..] + Fill(pattern[1..], fills[1..]);
        RecursionIsComplete(name[1..], pattern, less);
      }
    } else if pattern[0] == '?' {
      assert name[1..] == Fill(pattern[1..], fills[1..]);
      RecursionIsComplete(name[1..], pattern[1..], fills[1..]);
    } else {
      assert name[1..] == Fill(pattern[1..], fills);
      RecursionIsComplete(name[1..], pattern[1..], fills);
    }
  }

  lemma DeepMatchIsMatches(pattern: string, name: string)
    ensures DeepMatch(name, pattern) <==> Matches(pattern, name)
  {
    if DeepMatch(name, pattern) {
      var fills := RecursionIsSound(name, pattern);
    }
    if Matches(pattern, name) {
      var fills :| Filled(pattern, name, fills);
      RecursionIsComplete(name, pattern, fills);
    }
  }

  lemma StarMatchesAll(name: string)
    ensures DeepMatch(name, "*")
  {
  }

  /** A leading star absorbs whatever comes before. */
  lemma {:induction false} StarPrecedes(rest: string, x: string, j: nat)
    requires j <= |x| && DeepMatch(x[j..], "*" + rest)
    ensures DeepMatch(x, "*" + rest)
  {
    if j > 0 {
      assert x[1..][j - 1..] == x[j..];
      StarPrecedes(rest, x[1..], j - 1);
    }
  }

  // ---------------------------------------------------------------- what the search answers

  /** Some way of filling the stars meets a question mark at the end of the name. */
  predicate RunsOut(name: string, pattern: string)
    decreases |pattern|, |name|
  {
    if pattern == "" then false
    else if pattern[0] == '*' then RunsOut(name, pattern[1..]) || (name != "" && RunsOut(name[1..], pattern))
    else if name == "" then pattern[0] == '?'
    else (pattern[0] == '?' || name[0] == pattern[0]) && RunsOut(name[1..], pattern[1..])
  }

  /** The whole name is matched by a part of the pattern that ends before a question mark. */
  ghost predicate RunsOutAt(name: string, pattern: string, k: nat) {
    k < |pattern| && pattern[k] == '?' && DeepMatch(name, pattern[..k])
  }

  lemma {:induction false} RunsOutSomewhere(name: string, pattern: string) returns (k: nat)
    requires RunsOut(name, pattern)
    ensures RunsOutAt(name, pattern, k)
    decreases |pattern|, |name|
  {
    if pattern[0] == '*' && !RunsOut(name, pattern[1..]) {
      k := RunsOutSomewhere(name[1..], pattern);
    } else if pattern[0] != '*' && name == "" {
      k := 0;
    } else {
      var m := RunsOutSomewhere(if pattern[0] == '*' then name else name[1..], pattern[1..]);
      k := m + 1;
      assert pattern[..k][1..] == pattern[1..][..m];
    }
  }

  lemma {:induction false} RunsOutThere(name: string, pattern: string, k: nat)
    requires RunsOutAt(name, pattern, k)
    ensures RunsOut(name, pattern)
    decreases |pattern|, |name|
  {
    if k > 0 {
      assert pattern[..k][1..] == pattern[1..][..k - 1];
      if pattern[0] != '*' {
        RunsOutThere(name[1..], pattern[1..], k - 1);
      } else if DeepMatch(name, pattern[..k][1..]) {
        RunsOutThere(name, pattern[1..], k - 1);
      } else {
        RunsOutThere(name[1..], pattern, k);
      }
    }
  }

  /** A pattern that runs out on a name and matches a later part of it matches the name itself. */
  lemma {:induction false} LaterMatch(name: string, pattern: string, k: nat)
    requires RunsOut(name, pattern) && k <= |name| && DeepMatch(name[k..], pattern)
    ensures DeepMatch(name, pattern)
    decreases |pattern|
  {
    if pattern[0] == '*' {
      assert pattern == "*" + pattern[1..];
      StarPrecedes(pattern[1..], name, k);
    } else {
      assert name[k..][1..] == name[1..][k..];
      LaterMatch(name[1..], pattern[1..], k);
    }
  }

  lemma {:induction false} SearchVerdict(name: string, pattern: string)
    ensures Search(name, pattern) == Yes <==> DeepMatch(name, pattern)
    ensures Search(name, pattern) == Panic <==> !DeepMatch(name, pattern) && RunsOut(name, pattern)
    decreases |pattern|, |name|
  {
    if pattern == "" {
    } else if pattern[0] == '*' {
      SearchVerdict(name, pattern[1..]);
      if DeepMatch(name, pattern) && RunsOut(name, pattern[1..]) {
        assert pattern == "*" + pattern[1..];
        var k := CutMatch("*", pattern[1..], name);
        LaterMatch(name, pattern[1..], k);
      }
      if name != "" { SearchVerdict(name[1..], pattern); }
    } else if name != "" {
      SearchVerdict(name[1..], pattern[1..]);
    }
  }

  /** What the notification rules call: it says yes exactly when the wildcards can be filled in, and
      panics exactly when they cannot but a part of the pattern before a question mark matches the
      whole name. */
  lemma MatchSimpleMeaning(pattern: string, name: string)
    ensures MatchSimple(pattern, name) == Yes <==> Matches(pattern, name)
    ensures MatchSimple(pattern, name) == Panic <==>
            !Matches(pattern, name)
            && exists k :: 0 <= k < |pattern| && pattern[k] == '?' && Matches(pattern[..k], name)
    ensures MatchSimple(pattern, name) == Search(name, pattern)
  {
    DeepMatchIsMatches(pattern, name);
    StarMatchesAll(name);
    SearchVerdict(name, pattern);
    if RunsOut(name, pattern) {
      var k := RunsOutSomewhere(name, pattern);
      DeepMatchIsMatches(pattern[..k], name);
    }
    if k :| 0 <= k < |pattern| && pattern[k] == '?' && Matches(pattern[..k], name) {
      DeepMatchIsMatches(pattern[..k], name);
      RunsOutThere(name, pattern, k);
    }
  }

  // ---------------------------------------------------------------- which patterns can panic

  /** Some question mark is not the first character, and something besides it is no star. */
  ghost predicate CanPanic(pattern: string) {
    exists k, i :: PanicsAt(pattern, k, i)
  }

  predicate PanicsAt(pattern: string, k: int, i: int) {
    0 < k < |pattern| && pattern[k] == '?' && 0 <= i < |pattern| && i != k && pattern[i] != '*'
  }

  function Needed(pattern: string): nat {
    if pattern == "" then 0 else (if pattern[0] == '*' then 0 else 1) + Needed(pattern[1..])
  }

  /** Every character of the pattern but its stars takes one of the name. */
  lemma {:induction false} MatchNeeds(name: string, pattern: string)
    requires DeepMatch(name, pattern)
    ensures Needed(pattern) <= |name|
    decreases |pattern|, |name|
  {
    if pattern == "" {
    } else if pattern[0] == '*' && !DeepMatch(name, pattern[1..]) {
      MatchNeeds(name[1..], pattern);
    } else {
      MatchNeeds(if pattern[0] == '*' then name else name[1..], pattern[1..]);
    }
  }

  lemma {:induction false} NeededSplits(pattern: string, k: nat)
    requires k <= |pattern|
    ensures Needed(pattern) == Needed(pattern[..k]) + Needed(pattern[k..])
  {
    if k > 0 {
      NeededSplits(pattern[1..], k - 1);
      assert pattern[..k][1..] == pattern[1..][..k - 1] && pattern[1..][k - 1..] == pattern[k..];
    } else {
      assert pattern[0..] == pattern;
    }
  }

  lemma {:induction false} NeedsSome(pattern: string, i: nat)
    requires i < |pattern| && pattern[i] != '*'
    ensures Needed(pattern) >= 1
  {
    if i > 0 { NeedsSome(pattern[1..], i - 1); }
  }

  /** The shortest match of a pattern: its stars empty, its question marks filled with an x. */
  function Shortest(pattern: string): (name: string)
    ensures |name| == Needed(pattern)
  {
    if pattern == "" then ""
    else if pattern[0] == '*' then Shortest(pattern[1..])
    else [if pattern[0] == '?' then 'x' else pattern[0]] + Shortest(pattern[1..])
  }

  lemma {:induction false} ShortestMatches(pattern: string)
    ensures DeepMatch(Shortest(pattern), pattern)
  {
    if pattern != "" { ShortestMatches(pattern[1..]); }
  }

  predicate AllStars(pattern: string) {
    forall i :: 0 <= i < |pattern| ==> pattern[i] == '*'
  }

  lemma {:induction false} StarsMatchAny(name: string, stars: string)
    requires AllStars(stars) && (stars != "" || name == "")
    ensures DeepMatch(name, stars)
    decreases |name|, |stars|
  {
    if stars != "" {
      if name == "" { StarsMatchAny(name, stars[1..]); } else { StarsMatchAny(name[1..], stars); }
    }
  }

  // ---------------------------------------------------------------- patterns in sequence

  ghost predicate SplitMatch(p: string, q: string, name: string, k: nat) {
    k <= |name| && DeepMatch(name[..k], p) && DeepMatch(name[k..], q)
  }

  lemma {:induction false} JoinMatch(p: string, q: string, name: string, k: nat)
    requires SplitMatch(p, q, name, k)
    ensures DeepMatch(name, p + q)
    decreases |p|, k
  {
    if p == "" {
      assert p + q == q && name[k..] == name;
    } else {
      assert (p + q)[1..] == p[1..] + q;
      if p[0] == '*' && DeepMatch(name[..k], p[1..]) {
        JoinMatch(p[1..], q, name, k);
      } else {
        assert name[..k][1..] == name[1..][..k - 1] && name[k..] == name[1..][k - 1..];
        JoinMatch(if p[0] == '*' then p else p[1..], q, name[1..], k - 1);
      }
    }
  }

  lemma {:induction false} CutMatch(p: string, q: string, name: string) returns (k: nat)
    requires DeepMatch(name, p + q)
    ensures SplitMatch(p, q, name, k)
    decreases |p|, |name|
  {
    if p == "" {
      assert p + q == q && name[0..] == name;
      k := 0;
    } else {
      assert (p + q)[1..] == p[1..] + q;
      if p[0] == '*' && DeepMatch(name, p[1..] + q) {
        k := CutMatch(p[1..], q, name);
      } else {
        var m := CutMatch(if p[0] == '*' then p else p[1..], q, name[1..]);
        k := m + 1;
        assert name[..k][1..] == name[1..][..m] && name[k..] == name[1..][m..];
      }
    }
  }

  // ---------------------------------------------------------------- exactly these patterns panic on an object

  lemma MarkBetweenStars(name: string, pattern: string, k: nat)
    requires name != "" && 0 < k < |pattern| && pattern[k] == '?'
    requires forall i :: 0 <= i < |pattern| && i != k ==> pattern[i] == '*'
    ensures DeepMatch(name, pattern)
  {
    var cut: nat := |name| - 1;
    StarsMatchAny(name[..cut], pattern[..k]);
    StarsMatchEmpty(pattern[k + 1..]);
    assert name[cut..][1..] == "" && pattern[k..][1..] == pattern[k + 1..];
    assert DeepMatch(name[cut..], pattern[k..]);
    JoinMatch(pattern[..k], pattern[k..], name, cut);
    assert pattern[..k] + pattern[k..] == pattern;
  }

  lemma {:induction false} StarsMatchEmpty(stars: string)
    requires AllStars(stars)
    ensures DeepMatch("", stars)
  {
    if stars != "" { StarsMatchEmpty(stars[1..]); }
  }

  lemma PanicExample(pattern: string, k: nat, i: nat) returns (name: string)
    requires PanicsAt(pattern, k, i)
    ensures name != "" && MatchSimple(pattern, name) == Panic
  {
    var before, after := pattern[..k], pattern[k..];
    NeededSplits(pattern, k);
    if AllStars(before) {
      name := "x";
      StarsMatchAny(name, before);
      assert after[1..][i - k - 1] == pattern[i];
      NeedsSome(after[1..], i - k - 1);
    } else {
      var m: nat :| m < k && before[m] != '*';
      name := Shortest(before);
      ShortestMatches(before);
      NeedsSome(before, m);
    }
    assert Needed(pattern) > |name|;
    if DeepMatch(name, pattern) { MatchNeeds(name, pattern); }
    RunsOutThere(name, pattern, k);
    SearchVerdict(name, pattern);
  }

  /** The patterns that make the matcher panic on the name of some object, which is never empty. */
  lemma PanicsOnSomeObjectExactlyWhen(pattern: string)
    ensures (exists name :: name != "" && MatchSimple(pattern, name) == Panic) <==> CanPanic(pattern)
  {
    if name :| name != "" && MatchSimple(pattern, name) == Panic {
      SearchVerdict(name, pattern);
      var k := RunsOutSomewhere(name, pattern);
      assert k > 0;
      if i :| 0 <= i < |pattern| && i != k && pattern[i] != '*' {
        assert PanicsAt(pattern, k, i);
      } else {
        MarkBetweenStars(name, pattern, k);
      }
    }
    if CanPanic(pattern) {
      var k, i :| PanicsAt(pattern, k, i);
      var name := PanicExample(pattern, k, i);
    }
  }

  /** Without a question mark the matcher never panics. */
  lemma NoMarkNoPanic(pattern: string, name: string)
    requires '?' !in pattern
    ensures MatchSimple(pattern, name) != Panic
  {
    SearchVerdict(name, pattern);
    if RunsOut(name, pattern) {
      var k := RunsOutSomewhere(name, pattern);
    }
  }

  // ---------------------------------------------------------------- collapsing stars

  /** One pass replacing `**` by `*`, left to right, without looking at the result again. */
  function CollapseStars(p: string): string {
    if |p| < 2 then p
    else if p[0] == '*' && p[1] == '*' then "*" + CollapseStars(p[2..])
    else [p[0]] + CollapseStars(p[1..])
  }

  ghost predicate Alike(a: string, b: string, name: string) {
    (DeepMatch(name, a) <==> DeepMatch(name, b)) && (RunsOut(name, a) <==> RunsOut(name, b))
  }

  /** Two stars in a row mean what one star means. */
  lemma {:induction false} DoubleStar(rest: string, name: string)
    ensures Alike("**" + rest, "*" + rest, name)
    decreases |name|
  {
    assert ("**" + rest)[1..] == "*" + rest && ("*" + rest)[1..] == rest;
    if name != "" { DoubleStar(rest, name[1..]); }
  }

  /** Replacing the end of a pattern by one that does the same on all names. */
  lemma {:induction false} SameTail(c: char, a: string, b: string, name: string)
    requires forall s :: Alike(a, b, s)
    ensures Alike([c] + a, [c] + b, name)
    decreases |name|
  {
    assert ([c] + a)[1..] == a && ([c] + b)[1..] == b;
    assert Alike(a, b, name);
    if name != "" {
      assert Alike(a, b, name[1..]);
      SameTail(c, a, b, name[1..]);
    }
  }

  lemma {:induction false} CollapsedIsAlike(p: string, name: string)
    ensures Alike(CollapseStars(p), p, name)
    decreases |p|
  {
    if |p| >= 2 {
      var skip := if p[0] == '*' && p[1] == '*' then 2 else 1;
      var rest := p[skip..];
      forall s ensures Alike(CollapseStars(rest), rest, s) {
        CollapsedIsAlike(rest, s);
      }
      SameTail(p[0], CollapseStars(rest), rest, name);
      if skip == 2 {
        DoubleStar(rest, name);
        assert p == "**" + rest;
      } else {
        assert p == [p[0]] + rest;
      }
    }
  }

  /** The pass changes no answer of the matcher, also for longer runs of stars, which it does not
      collapse completely. */
  lemma CollapseKeepsMeaning(p: string, name: string)
    ensures MatchSimple(CollapseStars(p), name) == MatchSimple(p, name)
    ensures Matches(CollapseStars(p), name) <==> Matches(p, name)
  {
    CollapsedIsAlike(p, name);
    SearchVerdict(name, p);
    SearchVerdict(name, CollapseStars(p));
    MatchSimpleMeaning(p, name);
    MatchSimpleMeaning(CollapseStars(p), name);
  }
}

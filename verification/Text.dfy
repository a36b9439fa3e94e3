/** Splitting and searching strings. */
module Text {
  import opened Wrappers

  /** strings.Split with a one-character separator. */
  function Split(s: string, sep: char): (r: seq<string>)
    ensures |r| >= 1
  {
    if s == "" then [""]
    else
      var rest := Split(s[1..], sep);
      if s[0] == sep then [""] + rest else [[s[0]] + rest[0]] + rest[1..]
  }

  function Join(parts: seq<string>, sep: char): string {
    if parts == [] then ""
    else if |parts| == 1 then parts[0]
    else parts[0] + [sep] + Join(parts[1..], sep)
  }

  lemma {:induction false} SplitHead(a: string, b: string, sep: char)
    requires sep !in a
    ensures Split(a + [sep] + b, sep) == [a] + Split(b, sep)
  {
    var s := a + [sep] + b;
    if a == "" {
      assert s[1..] == b;
    } else {
      assert s[1..] == a[1..] + [sep] + b;
      SplitHead(a[1..], b, sep);
      assert [a[0]] + a[1..] == a;
    }
  }

  lemma {:induction false} SplitLast(a: string, sep: char)
    requires sep !in a
    ensures Split(a, sep) == [a]
  {
    if a != "" {
      SplitLast(a[1..], sep);
      assert [a[0]] + a[1..] == a;
    }
  }

  /** The parts of a split contain no separator, and joining them gives the string back. */
  lemma {:induction false} SplitParts(s: string, sep: char)
    ensures Join(Split(s, sep), sep) == s
    ensures forall k :: 0 <= k < |Split(s, sep)| ==> sep !in Split(s, sep)[k]
  {
    if s != "" {
      SplitParts(s[1..], sep);
      var rest, parts := Split(s[1..], sep), Split(s, sep);
      assert s == [s[0]] + s[1..];
      if s[0] == sep {
        assert parts[1..] == rest;
      } else {
        assert parts[1..] == rest[1..];
        if |rest| > 1 {
          assert Join(parts, sep) == ([s[0]] + rest[0]) + [sep] + Join(rest[1..], sep);
          assert Join(parts, sep) == [s[0]] + (rest[0] + [sep] + Join(rest[1..], sep));
        }
      }
    }
  }

  predicate OccursAt(s: string, t: string, k: nat) {
    k + |t| <= |s| && s[k..k + |t|] == t
  }

  /** strings.Index: where t first occurs in s. */
  function Find(s: string, t: string): Option<nat> {
    if OccursAt(s, t, 0) then Some(0)
    else if s == "" then None
    else
      match Find(s[1..], t)
      case None => None
      case Some(k) => Some(k + 1)
  }

  lemma OccursLater(s: string, t: string, k: nat)
    requires s != ""
    ensures OccursAt(s, t, k + 1) <==> OccursAt(s[1..], t, k)
  {
  }

  lemma {:induction false} FindMeaning(s: string, t: string)
    ensures Find(s, t).Some? ==> OccursAt(s, t, Find(s, t).value)
    ensures forall k: nat :: OccursAt(s, t, k) ==> Find(s, t).Some? && Find(s, t).value <= k
  {
    if s != "" {
      FindMeaning(s[1..], t);
      if Find(s[1..], t).Some? { OccursLater(s, t, Find(s[1..], t).value); }
    }
    forall k: nat | OccursAt(s, t, k) ensures Find(s, t).Some? && Find(s, t).value <= k {
      if k > 0 { OccursLater(s, t, k - 1); }
    }
  }

  /** The string without the n characters from k on. */
  function Without(s: string, k: nat, n: nat): string
    requires k + n <= |s|
  {
    s[..k] + s[k + n..]
  }

  /** strings.Replace(s, t, "", 1). */
  function RemoveFirst(s: string, t: string): string {
    FindMeaning(s, t);
    match Find(s, t)
    case None => s
    case Some(k) => Without(s, k, |t|)
  }
}

/**
  The text of a metadata query: trimming, and the regular expression that cuts it into field,
  operator and value.

  `Fits` and `Prefers` say what the expression means: which cuts of the text it allows, and in which
  order a leftmost-first matcher tries them.  `Match` computes the cut; it is proved to be the first.
 */
module QuerySyntax {
  import opened Wrappers

  // ---------------------------------------------------------------- white space

  /** unicode.IsSpace. */
  predicate IsUnicodeSpace(c: char) {
    var n := c as int;
    9 <= n <= 13 || n == 0x20 || n == 0x85 || n == 0xA0 || n == 0x1680 || 0x2000 <= n <= 0x200a
    || n == 0x2028 || n == 0x2029 || n == 0x202f || n == 0x205f || n == 0x3000
  }

  /** The class \s of the regular expressions: no vertical tab, and ASCII only. */
  predicate IsSpace(c: char) {
    c == '\t' || c == '\n' || c == '\U{000C}' || c == '\r' || c == ' '
  }

  predicate AllSpace(s: string) {
    forall k :: 0 <= k < |s| ==> IsSpace(s[k])
  }

  function TrimLeft(s: string): string {
    if s != "" && IsUnicodeSpace(s[0]) then TrimLeft(s[1..]) else s
  }

  function TrimRight(s: string): string {
    if s != "" && IsUnicodeSpace(s[|s| - 1]) then TrimRight(s[..|s| - 1]) else s
  }

  /** strings.TrimSpace. */
  function TrimSpace(s: string): string {
    TrimRight(TrimLeft(s))
  }

  predicate Trimmed(s: string) {
    s != "" ==> !IsUnicodeSpace(s[0]) && !IsUnicodeSpace(s[|s| - 1])
  }

  predicate Blank(s: string) {
    forall k :: 0 <= k < |s| ==> IsUnicodeSpace(s[k])
  }

  lemma {:induction false} TrimLeftCuts(s: string) returns (before: string)
    ensures s == before + TrimLeft(s) && Blank(before)
    ensures TrimLeft(s) != "" ==> !IsUnicodeSpace(TrimLeft(s)[0])
  {
    before := "";
    if s != "" && IsUnicodeSpace(s[0]) {
      var rest := TrimLeftCuts(s[1..]);
      before := [s[0]] + rest;
      assert s == [s[0]] + s[1..];
    }
  }

  lemma {:induction false} TrimRightCuts(s: string) returns (after: string)
    ensures s == TrimRight(s) + after && Blank(after)
    ensures TrimRight(s) != "" ==> !IsUnicodeSpace(TrimRight(s)[|TrimRight(s)| - 1])
  {
    after := "";
    if s != "" && IsUnicodeSpace(s[|s| - 1]) {
      var rest := TrimRightCuts(s[..|s| - 1]);
      after := rest + [s[|s| - 1]];
      assert s == s[..|s| - 1] + [s[|s| - 1]];
    }
  }

  /** Trimming removes white space from both ends, and all of it. */
  lemma TrimMeaning(s: string) returns (before: string, after: string)
    ensures s == before + TrimSpace(s) + after && Blank(before) && Blank(after)
    ensures Trimmed(TrimSpace(s))
  {
    before := TrimLeftCuts(s);
    after := TrimRightCuts(TrimLeft(s));
    var left, kept := TrimLeft(s), TrimSpace(s);
    assert left == kept + after;
    if kept != "" { assert kept[0] == left[0]; }
  }

  // ---------------------------------------------------------------- the parts of a query

  datatype Operator = AtMost | Below | Equal | AtLeast | Above

  /** The operators as written, in the order in which the expression lists them. */
  function Symbol(op: Operator): string {
    match op
    case AtMost => "<="
    case Below => "<"
    case Equal => "=="
    case AtLeast => ">="
    case Above => ">"
  }

  function Rank(op: Operator): nat {
    match op
    case AtMost => 0
    case Below => 1
    case Equal => 2
    case AtLeast => 3
    case Above => 4
  }

  const CUSTOM := "x-amz-meta-"

  predicate IsCustom(field: string) {
    |field| > |CUSTOM| && CUSTOM <= field
    && forall k :: |CUSTOM| <= k < |field| ==> !IsSpace(field[k])
  }

  predicate IsField(field: string) {
    field == "name" || field == "lastmodified" || field == "contenttype" || field == "size" || field == "etag"
    || IsCustom(field)
  }

  datatype Groups = Groups(field: string, op: Operator, value: string)

  /** A way to cut the text: gap and pad are the white space around the operator. */
  datatype Cut = Cut(field: string, gap: string, op: Operator, pad: string, value: string)

  function Parts(c: Cut): Groups {
    Groups(c.field, c.op, c.value)
  }

  predicate Fits(text: string, c: Cut) {
    IsField(c.field) && AllSpace(c.gap) && AllSpace(c.pad) && c.value != "" && '\n' !in c.value
    && text == c.field + c.gap + Symbol(c.op) + c.pad + c.value
  }

  /** A greedy part is tried longest first, the operators in the order listed. */
  predicate Prefers(a: Cut, b: Cut) {
    |a.field| > |b.field|
    || (|a.field| == |b.field|
        && (|a.gap| > |b.gap|
            || (|a.gap| == |b.gap|
                && (Rank(a.op) < Rank(b.op) || (a.op == b.op && |a.pad| >= |b.pad|)))))
  }

  /** At most one alternative of the field group can start a text, so that only the length of a
      custom field is left to choose. */
  lemma OneAlternative(a: string, b: string, text: string)
    requires IsField(a) && IsField(b) && a <= text && b <= text
    ensures a == b || (IsCustom(a) && IsCustom(b))
  {
    assert a[0] == text[0] == b[0];
    if IsCustom(a) { assert a[0] == CUSTOM[0] == 'x'; }
    if IsCustom(b) { assert b[0] == CUSTOM[0] == 'x'; }
  }

  // ---------------------------------------------------------------- matching

  function SkipSpace(s: string): string {
    if s != "" && IsSpace(s[0]) then SkipSpace(s[1..]) else s
  }

  /** The value, when the operator stands first. */
  function ValueAfter(s: string, op: Operator): Option<string> {
    if Symbol(op) <= s then
      var value := SkipSpace(s[|Symbol(op)|..]);
      if value != "" && '\n' !in value then Some(value) else None
    else None
  }

  function FirstOperator(s: string): Option<Operator> {
    if ValueAfter(s, AtMost).Some? then Some(AtMost)
    else if ValueAfter(s, Below).Some? then Some(Below)
    else if ValueAfter(s, Equal).Some? then Some(Equal)
    else if ValueAfter(s, AtLeast).Some? then Some(AtLeast)
    else if ValueAfter(s, Above).Some? then Some(Above)
    else None
  }

  /** What the expression finds behind the first `end` characters. */
  function MatchAt(text: string, end: nat): Option<Groups>
    requires end <= |text|
  {
    if !IsField(text[..end]) then None
    else
      var rest := SkipSpace(text[end..]);
      match FirstOperator(rest)
      case None => None
      case Some(op) => Some(Groups(text[..end], op, ValueAfter(rest, op).value))
  }

  function Attempts(text: string): seq<Option<Groups>> {
    seq(|text| + 1, end requires 0 <= end <= |text| => MatchAt(text, end))
  }

  function LastFound<T>(attempts: seq<Option<T>>): Option<T> {
    if attempts == [] then None
    else
      var last := attempts[|attempts| - 1];
      if last.Some? then last else LastFound(attempts[..|attempts| - 1])
  }

  /** FindStringSubmatch: the three groups for the longest field, or nothing. */
  function Match(text: string): Option<Groups> {
    LastFound(Attempts(text))
  }

  // ---------------------------------------------------------------- the match is the preferred cut

  lemma {:induction false} SkipCuts(s: string) returns (pad: string)
    ensures s == pad + SkipSpace(s) && AllSpace(pad)
    ensures SkipSpace(s) != "" ==> !IsSpace(SkipSpace(s)[0])
  {
    pad := "";
    if s != "" && IsSpace(s[0]) {
      var rest := SkipCuts(s[1..]);
      pad := [s[0]] + rest;
      assert s == [s[0]] + s[1..];
    }
  }

  /** Any white space in front is part of what skipping removes. */
  lemma {:induction false} SkipsAtLeast(pad: string, s: string)
    requires AllSpace(pad)
    ensures SkipSpace(pad + s) == SkipSpace(s)
  {
    if pad == "" {
      assert pad + s == s;
    } else {
      assert (pad + s)[1..] == pad[1..] + s;
      SkipsAtLeast(pad[1..], s);
    }
  }

  lemma SkipNothing(s: string)
    requires s != "" ==> !IsSpace(s[0])
    ensures SkipSpace(s) == s
  {
  }

  lemma {:induction false} SkipLeaves(s: string)
    requires s != "" && !IsSpace(s[|s| - 1])
    ensures SkipSpace(s) != ""
  {
    if IsSpace(s[0]) { SkipLeaves(s[1..]); }
  }

  lemma {:induction false} SkipShrinks(s: string)
    ensures |SkipSpace(s)| <= |s|
    ensures '\n' !in s ==> '\n' !in SkipSpace(s)
  {
    if s != "" && IsSpace(s[0]) { SkipShrinks(s[1..]); }
  }

  /** Does not end in white space, as after trimming. */
  predicate EndsSolid(s: string) {
    s != "" ==> !IsSpace(s[|s| - 1])
  }

  /** Behind an operator: a value is found exactly when the rest can be cut into white space and a
      value, and then the longest white space is taken. */
  lemma ValueMeaning(s: string, op: Operator, pad: string, value: string)
    requires s == Symbol(op) + pad + value && AllSpace(pad) && value != "" && '\n' !in value && EndsSolid(s)
    ensures ValueAfter(s, op).Some?
    ensures |ValueAfter(s, op).value| <= |value|
  {
    assert s[|Symbol(op)|..] == pad + value;
    SkipsAtLeast(pad, value);
    assert value[|value| - 1] == s[|s| - 1];
    SkipLeaves(value);
    SkipShrinks(value);
  }

  lemma ValueCut(s: string, op: Operator) returns (pad: string)
    requires ValueAfter(s, op).Some?
    ensures AllSpace(pad) && s == Symbol(op) + pad + ValueAfter(s, op).value
    ensures ValueAfter(s, op).value != "" && '\n' !in ValueAfter(s, op).value
  {
    pad := SkipCuts(s[|Symbol(op)|..]);
    PrefixSplits(s, Symbol(op));
  }

  lemma PrefixSplits(s: string, prefix: string)
    requires prefix <= s
    ensures s == prefix + s[|prefix|..]
  {
  }

  lemma FirstIsFirst(s: string)
    ensures FirstOperator(s).Some? ==> ValueAfter(s, FirstOperator(s).value).Some?
    ensures forall op :: ValueAfter(s, op).Some? ==>
              FirstOperator(s).Some? && Rank(FirstOperator(s).value) <= Rank(op)
  {
  }

  /** White space in front of an operator is skipped as a whole. */
  lemma GapIsAll(gap: string, op: Operator, tail: string)
    requires AllSpace(gap)
    ensures SkipSpace(gap + Symbol(op) + tail) == Symbol(op) + tail
  {
    var s := Symbol(op) + tail;
    assert gap + Symbol(op) + tail == gap + s;
    SkipsAtLeast(gap, s);
    assert s[0] == Symbol(op)[0];
    SkipNothing(s);
  }

  lemma SameOp(a: Operator, b: Operator)
    requires Rank(a) == Rank(b)
    ensures a == b
  {
  }

  /** A fitting cut is found at the end of its field, by itself or by one tried before it. */
  lemma FitIsFound(text: string, c: Cut)
    requires Fits(text, c) && EndsSolid(text)
    ensures MatchAt(text, |c.field|).Some?
    ensures var g := MatchAt(text, |c.field|).value;
            g.field == c.field && (Rank(g.op) < Rank(c.op) || (g.op == c.op && |g.value| <= |c.value|))
    ensures SkipSpace(text[|c.field|..]) == Symbol(c.op) + c.pad + c.value
  {
    var s := Symbol(c.op) + c.pad + c.value;
    CutRest(text, c);
    GapIsAll(c.gap, c.op, c.pad + c.value);
    assert Symbol(c.op) + (c.pad + c.value) == s;
    FirstMeaning(s, c.op, c.pad, c.value);
  }

  lemma CutRest(text: string, c: Cut)
    requires text == c.field + c.gap + Symbol(c.op) + c.pad + c.value && c.value != ""
    ensures |c.field| <= |text| && text[..|c.field|] == c.field
    ensures text[|c.field|..] == c.gap + Symbol(c.op) + (c.pad + c.value)
    ensures text[|text| - 1] == c.value[|c.value| - 1]
  {
  }

  lemma FirstMeaning(s: string, op: Operator, pad: string, value: string)
    requires s == Symbol(op) + pad + value && AllSpace(pad) && value != "" && '\n' !in value
    requires !IsSpace(value[|value| - 1])
    ensures FirstOperator(s).Some?
    ensures var first := FirstOperator(s).value;
            ValueAfter(s, first).Some?
            && (Rank(first) < Rank(op) || (first == op && |ValueAfter(s, first).value| <= |value|))
  {
    ValueMeaning(s, op, pad, value);
    FirstIsFirst(s);
    if Rank(FirstOperator(s).value) == Rank(op) { SameOp(FirstOperator(s).value, op); }
  }

  /** What is found is a fitting cut whose gap and padding are as long as they can be. */
  lemma {:induction false} FoundFits(text: string, end: nat) returns (c: Cut)
    requires end <= |text| && MatchAt(text, end).Some?
    ensures Fits(text, c) && Parts(c) == MatchAt(text, end).value && |c.field| == end
    ensures SkipSpace(text[end..]) == Symbol(c.op) + c.pad + c.value
  {
    var gap := SkipCuts(text[end..]);
    var s := SkipSpace(text[end..]);
    FirstIsFirst(s);
    var op := FirstOperator(s).value;
    var pad := ValueCut(s, op);
    c := Cut(text[..end], gap, op, pad, ValueAfter(s, op).value);
    assert text == text[..end] + text[end..];
    Regroup(text[..end], gap, Symbol(op), pad, c.value);
  }

  lemma Regroup(a: string, b: string, c: string, d: string, e: string)
    ensures a + (b + (c + d + e)) == a + b + c + d + e
  {
  }

  lemma FieldLength(text: string, end: nat)
    requires end <= |text| && MatchAt(text, end).Some?
    ensures |MatchAt(text, end).value.field| == end
  {
  }

  lemma {:induction false} LastFoundMeaning<T>(attempts: seq<Option<T>>, k: nat) returns (n: nat)
    requires k < |attempts|
    ensures attempts[k].Some? ==> LastFound(attempts).Some? && k <= n
    ensures LastFound(attempts).Some? ==> n < |attempts| && attempts[n] == LastFound(attempts)
  {
    n := |attempts| - 1;
    if attempts[n].None? && n > 0 {
      n := LastFoundMeaning(attempts[..n], if k < n then k else 0);
    }
  }

  /** The field of the match is at least as long as any at whose end something was found. */
  lemma MatchIsLongest(text: string, k: nat)
    requires k <= |text|
    ensures MatchAt(text, k).Some? ==> Match(text).Some? && k <= |Match(text).value.field|
    ensures Match(text).Some? ==>
              var g := Match(text).value; |g.field| <= |text| && MatchAt(text, |g.field|) == Some(g)
  {
    var n := LastFoundMeaning(Attempts(text), k);
    assert Attempts(text)[k] == MatchAt(text, k);
    if Match(text).Some? { FieldLength(text, n); }
  }

  /** Two cuts at the same field and operator: the shorter value has the longer padding. */
  lemma ComparesCuts(text: string, c: Cut, other: Cut)
    requires Fits(text, c) && Fits(text, other) && |c.field| == |other.field|
    requires SkipSpace(text[|c.field|..]) == Symbol(c.op) + c.pad + c.value
    requires SkipSpace(text[|c.field|..]) == Symbol(other.op) + other.pad + other.value
    requires Rank(c.op) < Rank(other.op) || (c.op == other.op && |c.value| <= |other.value|)
    ensures Prefers(c, other)
  {
  }

  /** The match, for a text that is trimmed: there is one exactly when some cut fits, and it is the
      cut preferred to all others that fit. */
  lemma MatchMeaning(text: string)
    requires EndsSolid(text)
    ensures Match(text).None? ==> forall c :: !Fits(text, c)
    ensures Match(text).Some? ==>
              exists c :: Fits(text, c) && Parts(c) == Match(text).value
                          && forall other :: Fits(text, other) ==> Prefers(c, other)
  {
    forall other | Fits(text, other)
      ensures Match(text).Some? && |other.field| <= |Match(text).value.field|
    {
      FitIsFound(text, other);
      MatchIsLongest(text, |other.field|);
    }
    if Match(text).Some? {
      MatchIsLongest(text, 0);
      var c := FoundFits(text, |Match(text).value.field|);
      forall other | Fits(text, other) ensures Prefers(c, other) {
        FitIsFound(text, other);
        if |other.field| == |c.field| { ComparesCuts(text, c, other); }
      }
    }
  }

  // ---------------------------------------------------------------- printing and matching again

  function Print(g: Groups): string {
    g.field + Symbol(g.op) + g.value
  }

  /** What FindStringSubmatch makes of the trimmed query. */
  function Parse(query: string): Option<Groups> {
    Match(TrimSpace(query))
  }

  lemma NothingInEmpty()
    ensures Parse("").None?
  {
  }

  predicate IsSymbol(c: char) {
    c == '<' || c == '=' || c == '>'
  }

  predicate SymbolFree(s: string) {
    forall k :: 0 <= k < |s| ==> !IsSymbol(s[k])
  }

  lemma PrintedIsTrimmed(g: Groups)
    requires IsField(g.field) && g.value != "" && !IsUnicodeSpace(g.value[|g.value| - 1])
    ensures TrimSpace(Print(g)) == Print(g) && EndsSolid(Print(g))
  {
  }

  /** A value that starts with an equals sign is taken for the end of a two-character operator, if
      anything is left of it then. */
  predicate Swallowed(op: Operator, value: string) {
    (op == Below || op == Above) && |value| > 1 && value[0] == '='
  }

  /** No newline, and something solid at both ends: what the value of any match looks like. */
  predicate Clean(value: string) {
    value != "" && '\n' !in value && !IsSpace(value[0]) && !IsUnicodeSpace(value[|value| - 1])
  }

  lemma AtField(field: string, rest: string)
    requires IsField(field) && rest != "" && !IsSpace(rest[0]) && FirstOperator(rest).Some?
    ensures ValueAfter(rest, FirstOperator(rest).value).Some?
    ensures MatchAt(field + rest, |field|)
            == Some(Groups(field, FirstOperator(rest).value, ValueAfter(rest, FirstOperator(rest).value).value))
  {
  }

  /** At the end of its field, a printed query is cut where it was joined, unless it is swallowed. */
  lemma {:induction false} PrintedHere(g: Groups)
    requires IsField(g.field) && Clean(g.value)
    ensures MatchAt(Print(g), |g.field|) == Some(g) <==> !Swallowed(g.op, g.value)
    ensures MatchAt(Print(g), |g.field|).Some?
  {
    PrintJoins(g);
    OperatorHere(g.op, g.value);
    AtField(g.field, Symbol(g.op) + g.value);
  }

  lemma PrintJoins(g: Groups)
    ensures Print(g) == g.field + (Symbol(g.op) + g.value)
    ensures !IsSpace((Symbol(g.op) + g.value)[0])
  {
  }

  lemma OperatorHere(op: Operator, value: string)
    requires value != "" && !IsSpace(value[0]) && '\n' !in value && !IsSpace(value[|value| - 1])
    ensures FirstOperator(Symbol(op) + value).Some?
    ensures FirstOperator(Symbol(op) + value) == Some(op) <==> !Swallowed(op, value)
    ensures ValueAfter(Symbol(op) + value, op) == Some(value)
  {
    var rest := Symbol(op) + value;
    SkipNothing(value);
    assert rest[|Symbol(op)|..] == value;
    assert rest[0] == Symbol(op)[0];
    if op == Below || op == Above {
      assert rest[1] == value[0];
      assert rest[2..] == value[1..];
      SkipShrinks(value[1..]);
      if |value| > 1 { SkipLeaves(value[1..]); }
      LongerOperator(op, rest);
    } else {
      assert rest[1] == Symbol(op)[1] == '=';
    }
  }

  /** Of the two-character operators only the one that continues a one-character operator can hide it. */
  lemma LongerOperator(op: Operator, rest: string)
    requires (op == Below || op == Above) && |rest| > 1 && rest[0] == Symbol(op)[0]
    requires ValueAfter(rest, op).Some?
    requires rest[1] == '=' ==> '\n' !in SkipSpace(rest[2..])
    ensures FirstOperator(rest) == Some(op) <==> (rest[1] != '=' || SkipSpace(rest[2..]) == "")
  {
  }

  /** Where a cut has its operator. */
  lemma OperatorPlace(text: string, c: Cut) returns (at: nat)
    requires Fits(text, c)
    ensures at == |c.field| + |c.gap| && at + |Symbol(c.op)| < |text|
    ensures forall k :: 0 <= k < |Symbol(c.op)| ==> text[at + k] == Symbol(c.op)[k]
  {
    at := |c.field| + |c.gap|;
  }

  /** A field that reaches into the operator or the value meets an operator there. */
  lemma LongerFieldNeedsSymbol(g: Groups, end: nat)
    requires g.value != "" && |g.field| < end <= |Print(g)| && MatchAt(Print(g), end).Some?
    ensures !SymbolFree(g.value)
  {
    var c := FoundFits(Print(g), end);
    var at := OperatorPlace(Print(g), c);
    SymbolsBehind(g, at, c.op);
  }

  lemma SymbolsBehind(g: Groups, at: nat, op: Operator)
    requires g.value != "" && |g.field| < at && at + |Symbol(op)| < |Print(g)|
    requires forall k :: 0 <= k < |Symbol(op)| ==> Print(g)[at + k] == Symbol(op)[k]
    ensures !SymbolFree(g.value)
  {
    var text := Print(g);
    assert text[at + 0] == Symbol(op)[0];
    PrintedChars(g, at);
    if text[at] == '=' {
      assert text[at + 1] == Symbol(op)[1];
      PrintedChars(g, at + 1);
    }
  }

  /** The characters behind the first one of the operator. */
  lemma PrintedChars(g: Groups, k: nat)
    requires |g.field| < k < |Print(g)|
    ensures k < |g.field| + |Symbol(g.op)| ==> k == |g.field| + 1 && Print(g)[k] == '='
    ensures k >= |g.field| + |Symbol(g.op)| ==> Print(g)[k] == g.value[k - |g.field| - |Symbol(g.op)|]
  {
  }

  /** A match is the one at the end of the field exactly when it has a field of that length. */
  lemma FoundThere(text: string, end: nat)
    requires end <= |text| && MatchAt(text, end).Some?
    ensures Match(text).Some? && end <= |Match(text).value.field| <= |text|
    ensures Match(text) == MatchAt(text, end) <==> |Match(text).value.field| == end
    ensures MatchAt(text, |Match(text).value.field|).Some?
  {
    MatchIsLongest(text, end);
    FieldLength(text, end);
  }

  lemma SymbolFreeIsFound(g: Groups)
    requires IsField(g.field) && Clean(g.value) && SymbolFree(g.value)
    ensures Match(Print(g)) == Some(g)
  {
    PrintedHere(g);
    FoundThere(Print(g), |g.field|);
    var end := |Match(Print(g)).value.field|;
    if end > |g.field| { LongerFieldNeedsSymbol(g, end); }
  }

  /** Printing a field, an operator and a value and parsing the result gives them back, for every
      field, also a custom one with operator characters in its name. */
  lemma PrintThenParse(g: Groups)
    requires IsField(g.field) && g.value != "" && Trimmed(g.value) && '\n' !in g.value && SymbolFree(g.value)
    ensures Parse(Print(g)) == Some(g)
  {
    PrintedIsTrimmed(g);
    SymbolFreeIsFound(g);
  }

  // ---------------------------------------------------------------- exactly when printing can be undone

  predicate Solid(s: string) {
    forall k :: 0 <= k < |s| ==> !IsSpace(s[k])
  }

  predicate StartsOperator(s: string) {
    exists op :: Symbol(op) < s
  }

  predicate LaterAt(tail: string, k: nat) {
    0 < k < |tail| && Solid(tail[..k]) && StartsOperator(SkipSpace(tail[k..]))
  }

  /** Behind the first character of the operator, and not behind a second word, there is an operator
      with something to follow.  A custom field would reach up to it. */
  ghost predicate LaterOperator(op: Operator, value: string) {
    !NothingLater(Symbol(op) + value)
  }

  ghost predicate NothingLater(tail: string) {
    forall k :: !LaterAt(tail, k)
  }

  lemma OperatorFound(s: string)
    requires '\n' !in s && EndsSolid(s)
    ensures FirstOperator(s).Some? <==> StartsOperator(s)
  {
    forall op ensures ValueAfter(s, op).Some? <==> Symbol(op) < s {
      if Symbol(op) < s {
        var rest := s[|Symbol(op)|..];
        assert rest[|rest| - 1] == s[|s| - 1];
        SkipLeaves(rest);
        SkipShrinks(rest);
      }
    }
    FirstIsFirst(s);
  }

  lemma {:induction false} SkipKeepsEnd(s: string)
    requires EndsSolid(s)
    ensures EndsSolid(SkipSpace(s))
  {
    if s != "" && IsSpace(s[0]) { SkipKeepsEnd(s[1..]); }
  }

  /** Where a custom field can end later than it was printed. */
  lemma LaterEnd(field: string, tail: string, k: nat)
    requires IsCustom(field) && 0 < k <= |tail| && '\n' !in tail && EndsSolid(tail)
    ensures MatchAt(field + tail, |field| + k).Some? <==> LaterAt(tail, k)
  {
    var text, rest := field + tail, tail[k..];
    assert text[..|field| + k] == field + tail[..k] && text[|field| + k..] == rest;
    LongerCustom(field, tail[..k]);
    SkipKeepsEnd(rest);
    SkipShrinks(rest);
    OperatorFound(SkipSpace(rest));
  }

  lemma LongerCustom(field: string, more: string)
    requires IsCustom(field)
    ensures IsField(field + more) <==> Solid(more)
  {
    var longer := field + more;
    assert longer[0] == field[0] == CUSTOM[0];
    assert forall k :: 0 <= k < |more| ==> longer[|field| + k] == more[k];
    assert IsCustom(longer) <==> Solid(more);
  }

  lemma TailEnds(g: Groups)
    requires g.value != "" && '\n' !in g.value && EndsSolid(g.value)
    ensures '\n' !in Symbol(g.op) + g.value && EndsSolid(Symbol(g.op) + g.value)
  {
  }

  /** The text of a custom field and what is printed behind it. */
  ghost predicate Joined(text: string, field: string, tail: string) {
    text == field + tail && IsCustom(field) && '\n' !in tail && EndsSolid(tail)
  }

  lemma LongerGives(text: string, field: string, tail: string, end: nat)
    requires Joined(text, field, tail) && |field| < end <= |text| && MatchAt(text, end).Some?
    ensures !NothingLater(tail)
  {
    LaterEnd(field, tail, end - |field|);
    assert LaterAt(tail, end - |field|);
  }

  lemma LaterGives(text: string, field: string, tail: string) returns (end: nat)
    requires Joined(text, field, tail) && !NothingLater(tail)
    ensures |field| < end <= |text| && MatchAt(text, end).Some?
  {
    var k :| LaterAt(tail, k);
    LaterEnd(field, tail, k);
    end := |field| + k;
  }

  lemma CustomFields(text: string, field: string, tail: string)
    requires Joined(text, field, tail) && MatchAt(text, |field|).Some?
    ensures Match(text) == MatchAt(text, |field|) <==> NothingLater(tail)
  {
    FoundThere(text, |field|);
    if |Match(text).value.field| > |field| {
      LongerGives(text, field, tail, |Match(text).value.field|);
    }
    if !NothingLater(tail) {
      var end := LaterGives(text, field, tail);
      FoundThere(text, end);
    }
  }

  lemma CleanRoundTrip(g: Groups)
    requires IsField(g.field) && Clean(g.value)
    ensures Match(Print(g)) == Some(g) <==>
            !Swallowed(g.op, g.value) && (IsCustom(g.field) ==> !LaterOperator(g.op, g.value))
  {
    PrintedHere(g);
    if IsCustom(g.field) {
      TailEnds(g);
      PrintJoins(g);
      CustomFields(Print(g), g.field, Symbol(g.op) + g.value);
      OnlyHereGives(g);
    } else {
      OnlyThere(g);
    }
  }

  /** The exact condition, for every field, operator and value. */
  lemma RoundTripExactlyWhen(g: Groups)
    requires IsField(g.field)
    ensures Parse(Print(g)) == Some(g) <==>
            Clean(g.value) && !Swallowed(g.op, g.value) && (IsCustom(g.field) ==> !LaterOperator(g.op, g.value))
  {
    if Clean(g.value) {
      PrintedIsTrimmed(g);
      CleanRoundTrip(g);
    } else if Parse(Print(g)) == Some(g) {
      ParsedValue(Print(g));
    }
  }

  /** The field tells where a match was found. */
  lemma OnlyHereGives(g: Groups)
    requires MatchAt(Print(g), |g.field|).Some?
    ensures Match(Print(g)) == Some(g) ==> Match(Print(g)) == MatchAt(Print(g), |g.field|)
  {
    MatchIsLongest(Print(g), |g.field|);
  }

  /** A fixed field is found nowhere else. */
  lemma OnlyThere(g: Groups)
    requires IsField(g.field) && !IsCustom(g.field) && MatchAt(Print(g), |g.field|).Some?
    ensures Match(Print(g)) == MatchAt(Print(g), |g.field|)
  {
    var text := Print(g);
    MatchIsLongest(text, |g.field|);
    var found := Match(text).value.field;
    assert text[..|g.field|] == g.field;
    OneAlternative(g.field, text[..|found|], text);
  }

  /** What any match gives: a value without newline that starts and ends with something solid. */
  lemma ParsedValue(query: string)
    requires Parse(query).Some?
    ensures var g := Parse(query).value;
            IsField(g.field) && Clean(g.value)
  {
    var text := TrimSpace(query);
    var before, after := TrimMeaning(query);
    MatchIsLongest(text, 0);
    var c := FoundFits(text, |Match(text).value.field|);
    assert c.value[|c.value| - 1] == text[|text| - 1];
    var rest := SkipSpace(text[|c.field|..]);
    var pad := SkipCuts(rest[|Symbol(c.op)|..]);
    FirstIsFirst(rest);
  }

  // ---------------------------------------------------------------- queries as they are written

  predicate Plain(value: string) {
    value != "" && Trimmed(value) && '\n' !in value && SymbolFree(value)
  }

  lemma WrittenParses(field: string, op: Operator, value: string, query: string)
    requires IsField(field) && Plain(value) && query == field + Symbol(op) + value
    ensures Parse(query) == Some(Groups(field, op, value))
  {
    var g := Groups(field, op, value);
    PrintThenParse(g);
    PrintJoins(g);
  }

  /** The four comparisons, on a size and on a time. */
  lemma ComparisonText(field: string, v: string)
    requires (field == "size" || field == "lastmodified") && Plain(v)
    ensures Parse(field + "<=" + v) == Some(Groups(field, AtMost, v))
    ensures Parse(field + "<" + v) == Some(Groups(field, Below, v))
    ensures Parse(field + ">=" + v) == Some(Groups(field, AtLeast, v))
    ensures Parse(field + ">" + v) == Some(Groups(field, Above, v))
  {
    WrittenParses(field, AtMost, v, field + "<=" + v);
    WrittenParses(field, Below, v, field + "<" + v);
    WrittenParses(field, AtLeast, v, field + ">=" + v);
    WrittenParses(field, Above, v, field + ">" + v);
  }

  /** The equations. */
  lemma EquationText(field: string, v: string)
    requires (field == "name" || field == "contenttype" || field == "etag") && Plain(v)
    ensures Parse(field + "==" + v) == Some(Groups(field, Equal, v))
  {
    WrittenParses(field, Equal, v, field + "==" + v);
  }

  lemma CustomEquationText(key: string, v: string)
    requires Plain(v) && key != "" && Solid(key)
    ensures Parse("x-amz-meta-" + key + "==" + v) == Some(Groups("x-amz-meta-" + key, Equal, v))
  {
    var field := "x-amz-meta-" + key;
    assert forall k :: |CUSTOM| <= k < |field| ==> field[k] == key[k - |CUSTOM|];
    WrittenParses(field, Equal, v, field + "==" + v);
  }

  /** No other field is ever parsed. */
  lemma ParsedField(query: string)
    requires Parse(query).Some?
    ensures var field := Parse(query).value.field;
            field == "name" || field == "lastmodified" || field == "contenttype" || field == "size" || field == "etag"
            || (|field| > 11 && field[..11] == "x-amz-meta-" && forall k :: 11 <= k < |field| ==> !IsSpace(field[k]))
  {
    ParsedValue(query);
  }
}

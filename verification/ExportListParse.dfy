/**
  Reading the exported users back from the list, as the migration tool does with a regular
  expression: a fixed text, one or more characters of a class, and a quote.
 */
module ExportListParse {
  import opened Wrappers
  import opened ExportList

  const LITERAL := "%url \"rados://nfs-ganesha/export_"

  predicate IdChar(c: char) {
    '0' <= c <= '9' || 'a' <= c <= 'z' || 'A' <= c <= 'Z' || c == '-'
  }

  predicate IsId(uid: string) {
    uid != "" && forall k :: 0 <= k < |uid| ==> IdChar(uid[k])
  }

  /** The regular expression matches the text at position k, with this group. */
  predicate MatchesAt(s: string, k: nat, group: string) {
    IsId(group) && k + |LITERAL| + |group| < |s|
    && s[k..k + |LITERAL|] == LITERAL
    && s[k + |LITERAL|..k + |LITERAL| + |group|] == group
    && s[k + |LITERAL| + |group|] == '"'
  }

  /** How many characters of the class follow; a quote ends the group, so trying fewer is useless. */
  function IdRun(s: string): (n: nat)
    ensures n <= |s|
    ensures forall k :: 0 <= k < n ==> IdChar(s[k])
    ensures n < |s| ==> !IdChar(s[n])
  {
    if s == "" || !IdChar(s[0]) then 0 else 1 + IdRun(s[1..])
  }

  /** The group of a match at the start of the text. */
  function MatchHere(s: string): Option<string> {
    if LITERAL <= s then
      var rest := s[|LITERAL|..];
      var n := IdRun(rest);
      if n > 0 && n < |rest| && rest[n] == '"' then Some(rest[..n]) else None
    else None
  }

  /** The groups of the leftmost matches, each search going on behind the last match. */
  function FindAll(s: string): seq<string>
    decreases |s|
  {
    if s == "" then []
    else
      match MatchHere(s)
      case None => FindAll(s[1..])
      case Some(group) =>
        MatchHereMeaning(s);
        [group] + FindAll(s[|LITERAL| + |group| + 1..])
  }

  lemma {:induction false} GroupIsRun(group: string, tail: string)
    requires forall k :: 0 <= k < |group| ==> IdChar(group[k])
    requires tail != "" && !IdChar(tail[0])
    ensures IdRun(group + tail) == |group|
  {
    if group == "" {
      assert group + tail == tail;
    } else {
      assert (group + tail)[1..] == group[1..] + tail;
      GroupIsRun(group[1..], tail);
    }
  }

  lemma MatchHereMeaning(s: string)
    ensures MatchHere(s).Some? ==> MatchesAt(s, 0, MatchHere(s).value)
    ensures forall group :: MatchesAt(s, 0, group) ==> MatchHere(s) == Some(group)
  {
    if LITERAL <= s {
      var rest := s[|LITERAL|..];
      assert s[0..0 + |LITERAL|] == s[..|LITERAL|] == LITERAL;
      forall n | 0 <= n <= |rest| ensures s[0 + |LITERAL|..0 + |LITERAL| + n] == rest[..n] {
      }
    }
    forall group | MatchesAt(s, 0, group) ensures MatchHere(s) == Some(group) {
      assert s[0..0 + |LITERAL|] == s[..|LITERAL|];
      var rest := s[|LITERAL|..];
      assert rest[..|group|] == group && rest[|group|] == '"';
      assert rest == group + rest[|group|..];
      GroupIsRun(group, rest[|group|..]);
    }
  }

  /** The loop of the migration tool over the matches. */
  method ExportedUsers(data: string) returns (uids: seq<string>)
    ensures uids == FindAll(data)
  {
    uids := [];
    var rest := data;
    while rest != ""
      invariant uids + FindAll(rest) == FindAll(data)
      decreases |rest|
    {
      var found := MatchHere(rest);
      if found.Some? {
        MatchHereMeaning(rest);
        uids := uids + [found.value];
        rest := rest[|LITERAL| + |found.value| + 1..];
      } else {
        rest := rest[1..];
      }
    }
  }

  // ---------------------------------------------------------------- exactly the listed users come back

  lemma {:induction false} PassesOver(a: string, b: string)
    requires forall k: nat :: k < |a| ==> MatchHere((a + b)[k..]).None?
    ensures FindAll(a + b) == FindAll(b)
    decreases |a|
  {
    if a == "" {
      assert a + b == b;
    } else {
      assert (a + b)[0..] == a + b && (a + b)[1..] == a[1..] + b;
      forall k: nat | k < |a[1..]| ensures MatchHere((a[1..] + b)[k..]).None? {
        assert (a[1..] + b)[k..] == (a + b)[k + 1..];
      }
      PassesOver(a[1..], b);
    }
  }

  lemma LiteralStarts(s: string)
    requires LITERAL <= s
    ensures s[5] == '"' && s[6] == 'r' && forall i :: 0 <= i < |LITERAL| ==> s[i] != '\n'
  {
  }

  lemma NewlinePassed(rest: string)
    ensures FindAll("\n" + rest) == FindAll(rest)
  {
    var s := "\n" + rest;
    assert s[0] == '\n' && s[1..] == rest;
    if LITERAL <= s { LiteralStarts(s); }
  }

  /** Behind its first character nothing in a line starts a match. */
  lemma NoMatchInside(line: string, rest: string, k: nat)
    requires LineShape(line) && 0 < k < |line|
    ensures MatchHere((line + rest)[k..]).None?
  {
    var s := (line + rest)[k..];
    var end := |line| - 1 - k;
    assert s[end] == '\n';
    assert end > 5 ==> s[5] == line[k + 5] && s[6] == line[k + 6];
    if LITERAL <= s { LiteralStarts(s); }
  }

  function Listed(users: seq<string>): seq<string> {
    if users == [] then []
    else (if IsId(users[0]) then [users[0]] else []) + Listed(users[1..])
  }

  /** A run stops at the first character outside the class, which is no quote in a plain name. */
  lemma {:induction false} RunInName(uid: string, tail: string)
    requires Plain(uid) && tail != "" && tail[0] == '"'
    ensures IdRun(uid + tail) <= |uid|
    ensures (uid + tail)[IdRun(uid + tail)] == '"' <==> forall k :: 0 <= k < |uid| ==> IdChar(uid[k])
    ensures (forall k :: 0 <= k < |uid| ==> IdChar(uid[k])) ==> IdRun(uid + tail) == |uid|
  {
    if uid == "" {
      assert uid + tail == tail;
    } else {
      assert (uid + tail)[1..] == uid[1..] + tail;
      RunInName(uid[1..], tail);
      assert forall k :: 0 < k < |uid| ==> uid[k] == uid[1..][k - 1];
    }
  }

  lemma LineIsLiteral(uid: string)
    ensures Line(POOL, uid) == LITERAL + (uid + "\"\n")
  {
  }

  lemma LineStarts(uid: string, rest: string)
    requires Plain(uid)
    ensures MatchHere(Line(POOL, uid) + rest) == if IsId(uid) then Some(uid) else None
  {
    var s, tail := Line(POOL, uid) + rest, "\"\n" + rest;
    LineIsLiteral(uid);
    assert s == LITERAL + (uid + tail);
    assert s[|LITERAL|..] == uid + tail;
    RunInName(uid, tail);
    assert (uid + tail)[..|uid|] == uid;
  }

  /** One line contributes its user, if the name is of the class, and nothing else. */
  lemma FindAllLine(uid: string, rest: string)
    requires Plain(uid)
    ensures FindAll(Line(POOL, uid) + rest) == (if IsId(uid) then [uid] else []) + FindAll(rest)
  {
    var line := Line(POOL, uid);
    var s := line + rest;
    LineHasShape(POOL, uid);
    LineStarts(uid, rest);
    if IsId(uid) {
      var behind := s[|LITERAL| + |uid| + 1..];
      assert behind == "\n" + rest;
      NewlinePassed(rest);
    } else {
      assert s[0..] == s;
      forall k: nat | k < |line| ensures MatchHere(s[k..]).None? {
        if k > 0 { NoMatchInside(line, rest, k); }
      }
      PassesOver(line, rest);
    }
  }

  lemma {:induction false} FindAllLines(users: seq<string>)
    requires AllPlain(users)
    ensures FindAll(Lines(POOL, users)) == Listed(users)
  {
    if users != [] {
      FindAllLines(users[1..]);
      FindAllLine(users[0], Lines(POOL, users[1..]));
    }
  }

  /** On any list text of the pool the matches are exactly the listed users whose names consist of
      the class's characters, in order. */
  lemma {:induction false} ParseFindsIds(text: string, users: seq<string>)
    requires AllPlain(users) && Shows(text, POOL, users)
    ensures FindAll(text) == Listed(users)
  {
    FindAllLines(users);
    if text != Lines(POOL, users) {
      NewlinePassed(Lines(POOL, users));
    }
  }

  lemma {:induction false} ListedAll(users: seq<string>)
    requires forall k :: 0 <= k < |users| ==> IsId(users[k])
    ensures Listed(users) == users && AllPlain(users)
  {
    if users != [] {
      ListedAll(users[1..]);
      assert users == [users[0]] + users[1..];
    }
  }

  /** The full round trip: after any run of additions and removals of such users, reading the text
      gives the sequence of users back. */
  lemma {:induction false} ReadBack(edits: seq<Edit>)
    requires forall k :: 0 <= k < |edits| ==> IsId(edits[k].uid)
    ensures FindAll(EditText("", POOL, edits)) == EditUsers([], edits)
  {
    var text, users := EditText("", POOL, edits), EditUsers([], edits);
    EditsRead(edits, text, users);
  }

  lemma {:induction false} EditsRead(edits: seq<Edit>, text: string, users: seq<string>)
    requires forall k :: 0 <= k < |edits| ==> IsId(edits[k].uid)
    requires text == EditText("", POOL, edits) && users == EditUsers([], edits)
    ensures FindAll(text) == users
  {
    assert Plain(POOL);
    RunsRefine("", POOL, [], edits);
    EditsKeepIds([], edits);
    ListedAll(users);
    ParseFindsIds(text, users);
  }

  ghost predicate AllIds(users: seq<string>) {
    forall k :: 0 <= k < |users| ==> IsId(users[k])
  }

  lemma {:induction false} RemoveKeepsIds(users: seq<string>, uid: string)
    requires AllIds(users)
    ensures AllIds(RemoveUser(users, uid))
  {
    if users != [] { RemoveKeepsIds(users[1..], uid); }
  }

  lemma {:induction false} EditsKeepIds(users: seq<string>, edits: seq<Edit>)
    requires AllIds(users) && forall k :: 0 <= k < |edits| ==> IsId(edits[k].uid)
    ensures AllIds(EditUsers(users, edits))
    decreases |edits|
  {
    if edits != [] {
      assert IsId(edits[0].uid);
      match edits[0]
      case AddUser(uid) => EditsKeepIds(users + [uid], edits[1..]);
      case DropUser(uid) =>
        RemoveKeepsIds(users, uid);
        EditsKeepIds(RemoveUser(users, uid), edits[1..]);
    }
  }
}

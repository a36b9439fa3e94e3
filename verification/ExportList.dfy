/**
  The export list: a text file to which a line is appended per exported user and from which a line
  is removed by replacing its first occurrence in the text.
 */
module ExportList {
  import opened Wrappers
  import opened Text

  /** The default name of the pool, which the migration tool expects. */
  const POOL := "nfs-ganesha"

  function ObjectName(uid: string): string {
    "export_" + uid
  }

  function Line(pool: string, uid: string): string {
    "%url \"rados://" + pool + "/" + ObjectName(uid) + "\"\n"
  }

  function Lines(pool: string, users: seq<string>): string {
    if users == [] then "" else Line(pool, users[0]) + Lines(pool, users[1..])
  }

  function AddLine(text: string, pool: string, uid: string): string {
    text + Line(pool, uid)
  }

  /** An empty list is written as one newline: the object store's client rejects empty data. */
  function RemoveLine(text: string, pool: string, uid: string): string {
    var s := RemoveFirst(text, Line(pool, uid));
    if |s| == 0 then "\n" else s
  }

  // ---------------------------------------------------------------- the list of users behind the text

  /** The text is the users' lines in order, possibly after one newline. */
  ghost predicate Shows(text: string, pool: string, users: seq<string>) {
    text == Lines(pool, users) || text == "\n" + Lines(pool, users)
  }

  predicate Plain(s: string) {
    forall k :: 0 <= k < |s| ==> s[k] != '"' && s[k] != '\n'
  }

  predicate AllPlain(users: seq<string>) {
    forall k :: 0 <= k < |users| ==> Plain(users[k])
  }

  function RemoveUser(users: seq<string>, uid: string): seq<string> {
    if users == [] then []
    else if users[0] == uid then users[1..]
    else [users[0]] + RemoveUser(users[1..], uid)
  }

  // ---------------------------------------------------------------- the shape of a line

  /** A line has its quotes at two places and its newline at the end. */
  ghost predicate LineShape(line: string) {
    && |line| >= 24
    && line[0] == '%' && line[5] == '"' && line[|line| - 2] == '"' && line[|line| - 1] == '\n'
    && (forall i :: 0 <= i < |line| && line[i] == '\n' ==> i == |line| - 1)
    && (forall i :: 0 <= i < |line| && line[i] == '"' ==> i == 5 || i == |line| - 2)
  }

  lemma LineHasShape(pool: string, uid: string)
    requires Plain(pool) && Plain(uid)
    ensures LineShape(Line(pool, uid))
  {
  }

  /** Inside a line, another line occurs only as that whole line. */
  lemma LinesAlign(line: string, rest: string, target: string, k: nat)
    requires LineShape(line) && LineShape(target) && k < |line| && OccursAt(line + rest, target, k)
    ensures k == 0 && target == line
  {
    var text := line + rest;
    var found := text[k..k + |target|];
    var end := |line| - 1 - k;
    if end < |target| {
      assert found[end] == line[|line| - 1] == '\n';
    }
    assert found[|target| - 1] == text[k + |target| - 1] == line[k + |target| - 1];
    assert k + |target| == |line|;
    assert found[5] == line[k + 5];
    assert target == line[k..];
  }

  lemma LineDeterminesUser(pool: string, a: string, b: string)
    requires Line(pool, a) == Line(pool, b)
    ensures a == b
  {
    var head := "%url \"rados://" + pool + "/" + "export_";
    assert Line(pool, a) == head + a + "\"\n" && Line(pool, b) == head + b + "\"\n";
    assert Line(pool, a)[|head|..|head| + |a|] == a;
    assert Line(pool, b)[|head|..|head| + |b|] == b;
  }

  // ---------------------------------------------------------------- removing a line removes the user

  /** Text in which nothing starts is passed over by the search. */
  lemma {:induction false} RemovePassesOver(a: string, b: string, t: string)
    requires t != "" && forall k: nat :: k < |a| ==> !OccursAt(a + b, t, k)
    ensures RemoveFirst(a + b, t) == a + RemoveFirst(b, t)
  {
    FindPassesOver(a, b, t);
    FindMeaning(b, t);
    FindMeaning(a + b, t);
    if Find(b, t).Some? { WithoutBeyond(a, b, Find(b, t).value, |t|); }
  }

  lemma WithoutBeyond(a: string, b: string, m: nat, n: nat)
    requires m + n <= |b|
    ensures Without(a + b, |a| + m, n) == a + Without(b, m, n)
  {
    assert (a + b)[..|a| + m] == a + b[..m] && (a + b)[|a| + m + n..] == b[m + n..];
  }

  lemma {:induction false} FindPassesOver(a: string, b: string, t: string)
    requires t != "" && forall k: nat :: k < |a| ==> !OccursAt(a + b, t, k)
    ensures Find(a + b, t) == match Find(b, t) case None => None case Some(m) => Some(|a| + m)
  {
    if a == "" {
      assert a + b == b;
    } else {
      assert (a + b)[1..] == a[1..] + b;
      forall k: nat | k < |a[1..]| ensures !OccursAt(a[1..] + b, t, k) {
        OccursLater(a + b, t, k);
      }
      FindPassesOver(a[1..], b, t);
      assert !OccursAt(a + b, t, 0);
    }
  }

  lemma OccursStarts(s: string, t: string, k: nat)
    requires OccursAt(s, t, k) && t != ""
    ensures s[k] == t[0]
  {
  }

  lemma {:induction false} RemoveFromLines(pool: string, users: seq<string>, uid: string)
    requires Plain(pool) && Plain(uid) && AllPlain(users)
    ensures RemoveFirst(Lines(pool, users), Line(pool, uid)) == Lines(pool, RemoveUser(users, uid))
  {
    var target := Line(pool, uid);
    LineHasShape(pool, uid);
    if users == [] {
      FindMeaning("", target);
    } else {
      var line, rest := Line(pool, users[0]), Lines(pool, users[1..]);
      LineHasShape(pool, users[0]);
      if users[0] == uid {
        assert (line + rest)[0..|line|] == line;
        assert OccursAt(line + rest, target, 0);
        assert (line + rest)[..0] + (line + rest)[|line|..] == rest;
      } else {
        forall k: nat | k < |line| ensures !OccursAt(line + rest, target, k) {
          if OccursAt(line + rest, target, k) {
            LinesAlign(line, rest, target, k);
            LineDeterminesUser(pool, users[0], uid);
          }
        }
        RemovePassesOver(line, rest, target);
        RemoveFromLines(pool, users[1..], uid);
      }
    }
  }

  lemma {:induction false} LinesAppend(pool: string, users: seq<string>, uid: string)
    ensures Lines(pool, users + [uid]) == Lines(pool, users) + Line(pool, uid)
  {
    if users == [] {
      assert [uid][1..] == [];
      assert Lines(pool, [uid]) == Line(pool, uid) + "";
    } else {
      assert (users + [uid])[1..] == users[1..] + [uid];
      LinesAppend(pool, users[1..], uid);
    }
  }

  /** Adding appends the user to the list, whatever the text looks like otherwise. */
  lemma AddRefines(text: string, pool: string, users: seq<string>, uid: string)
    requires Shows(text, pool, users)
    ensures Shows(AddLine(text, pool, uid), pool, users + [uid])
  {
    LinesAppend(pool, users, uid);
  }

  /** Removing takes out exactly the first entry of the user, leaves every other entry in place, and
      never leaves an empty text; removing a user who is not listed changes no entry. */
  lemma RemoveRefines(text: string, pool: string, users: seq<string>, uid: string)
    requires Plain(pool) && Plain(uid) && AllPlain(users) && Shows(text, pool, users)
    ensures Shows(RemoveLine(text, pool, uid), pool, RemoveUser(users, uid))
    ensures RemoveLine(text, pool, uid) != ""
    ensures uid !in users ==> RemoveUser(users, uid) == users
  {
    var target := Line(pool, uid);
    RemoveFromLines(pool, users, uid);
    LineHasShape(pool, uid);
    if text != Lines(pool, users) {
      var lines := Lines(pool, users);
      forall k: nat | k < |"\n"| ensures !OccursAt("\n" + lines, target, k) {
        if OccursAt("\n" + lines, target, k) { OccursStarts("\n" + lines, target, k); }
      }
      RemovePassesOver("\n", lines, target);
    }
    RemoveAbsent(users, uid);
    assert "\n" + Lines(pool, []) == "\n";
    if Lines(pool, RemoveUser(users, uid)) == "" {
      assert Shows("\n", pool, RemoveUser(users, uid));
    }
  }

  lemma {:induction false} RemoveAbsent(users: seq<string>, uid: string)
    ensures uid !in users ==> RemoveUser(users, uid) == users
    ensures forall u :: u != uid ==> (u in RemoveUser(users, uid) <==> u in users)
  {
    if users != [] {
      RemoveAbsent(users[1..], uid);
      assert users == [users[0]] + users[1..];
    }
  }

  /** Serial runs of additions and removals. */
  datatype Edit = AddUser(uid: string) | DropUser(uid: string)

  function EditText(text: string, pool: string, edits: seq<Edit>): string
    decreases |edits|
  {
    if edits == [] then text
    else
      match edits[0]
      case AddUser(uid) => EditText(AddLine(text, pool, uid), pool, edits[1..])
      case DropUser(uid) => EditText(RemoveLine(text, pool, uid), pool, edits[1..])
  }

  function EditUsers(users: seq<string>, edits: seq<Edit>): seq<string>
    decreases |edits|
  {
    if edits == [] then users
    else
      match edits[0]
      case AddUser(uid) => EditUsers(users + [uid], edits[1..])
      case DropUser(uid) => EditUsers(RemoveUser(users, uid), edits[1..])
  }

  /** Over every run, starting from no file or an empty one, the text shows exactly the users that
      list operations on the sequence of users would give. */
  lemma {:induction false} RunsRefine(text: string, pool: string, users: seq<string>, edits: seq<Edit>)
    requires Plain(pool) && AllPlain(users) && Shows(text, pool, users)
    requires forall k :: 0 <= k < |edits| ==> Plain(edits[k].uid)
    ensures Shows(EditText(text, pool, edits), pool, EditUsers(users, edits))
    decreases |edits|
  {
    if edits != [] {
      assert Plain(edits[0].uid);
      match edits[0]
      case AddUser(uid) =>
        AddRefines(text, pool, users, uid);
        RunsRefine(AddLine(text, pool, uid), pool, users + [uid], edits[1..]);
      case DropUser(uid) =>
        RemoveRefines(text, pool, users, uid);
        RemovePlain(users, uid);
        RunsRefine(RemoveLine(text, pool, uid), pool, RemoveUser(users, uid), edits[1..]);
    }
  }

  lemma {:induction false} RemovePlain(users: seq<string>, uid: string)
    requires AllPlain(users)
    ensures AllPlain(RemoveUser(users, uid))
  {
    if users != [] { RemovePlain(users[1..], uid); }
  }
}

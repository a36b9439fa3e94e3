/**
  The registry and a host together: completed handlers and daemon passes in any order.

  Every pass of such a run reconciles the host as long as no creation takes an id that is still enabled
  and no update renames an export.  Two short runs show that neither condition can be left out.
 */
module ExportSystem {
  import opened ExportList
  import opened ExportRegistry
  import opened ExportUpdater
  import ExportRuns

  /** The pool, the users it lists, and what the server has enabled. */
  datatype World = World(pool: Pool, users: seq<string>, enabled: set<Export>)

  datatype Act = Handle(handler: Handler) | Pass

  ghost predicate Possible(w: World, poolName: string, act: Act) {
    match act
    case Handle(h) => Callable(w.pool, w.users, h) && Tame(w.users, h)
    case Pass => true
  }

  function Next(w: World, poolName: string, act: Act): World
    requires act.Handle? && act.handler.Create? ==> act.handler.user.keys != []
  {
    match act
    case Handle(h) =>
      World(Finished(w.pool, poolName, h), UsersAfter(w.users, h, |States(w.pool, poolName, h)|), w.enabled)
    case Pass =>
      w.(enabled := PassResult(w.enabled, ListedExports(w.pool, w.users), ConfiguredPaths(w.pool)))
  }

  /** A creation finds an id, and one that no enabled export has; an update keeps the display name. */
  ghost predicate Prudent(w: World, act: Act) {
    match act
    case Handle(Create(u, id)) => u.maxBuckets == -1 || (id != -1 && id !in Ids(w.enabled))
    case Handle(Update(u)) => u.keys == [] || "/" + u.displayName == ExportOf(w.pool, u.userId).path
    case _ => true
  }

  /** An enabled export with the id of a listed one is that one. */
  predicate Matching(enabled: set<Export>, p: Pool, users: seq<string>) {
    forall e, k :: e in enabled && 0 <= k < |users| && e.id == ExportOf(p, users[k]).id ==> e == ExportOf(p, users[k])
  }

  ghost predicate Coherent(w: World, poolName: string) {
    Quiescent(w.pool, poolName, w.users) && IdsGood(w.pool) && Matching(w.enabled, w.pool, w.users)
  }

  /** The pool without exports and a host that has enabled nothing. */
  lemma StartIsCoherent()
    ensures Coherent(World(EMPTY, [], {}), POOL)
  {
    EmptyIsQuiescent();
  }

  lemma CoherentHasFreshIds(w: World, poolName: string)
    requires Coherent(w, poolName)
    ensures NoSharedId(w.pool, w.users, w.enabled)
  {
    ListedAreConfigured(w.pool, poolName, w.users);
    forall e, f | e in Stale(w.enabled, ConfiguredPaths(w.pool)) && f in BelowRoot(ListedExports(w.pool, w.users))
      ensures e.id != f.id
    {
      var k :| 0 <= k < |w.users| && f == ExportOf(w.pool, w.users[k]);
      assert e.id == f.id ==> e == f;
    }
  }

  // ---------------------------------------------------------------- prudent acts keep the world coherent

  ghost predicate OthersKept(p: Pool, q: Pool, uid: string) {
    forall o :: o in p.objects && o != ObjectName(uid) ==> o in q.objects && q.objects[o] == p.objects[o]
  }

  lemma SameExport(p: Pool, q: Pool, uid: string, other: string)
    requires OthersKept(p, q, uid) && other != uid && Complete(p, other)
    ensures ExportOf(q, other) == ExportOf(p, other)
  {
    NamesDiffer(other, uid);
  }

  lemma FinishedIdsGood(p: Pool, poolName: string, users: seq<string>, h: Handler)
    requires IdsGood(p) && Callable(p, users, h) && ExportRuns.SafeIds(p, h)
    ensures IdsGood(Finished(p, poolName, h))
  {
    ExportRuns.IdsExactly(p, poolName, users, h);
    if States(p, poolName, h) != [] {
      assert Finished(p, poolName, h) == States(p, poolName, h)[|States(p, poolName, h)| - 1];
    }
  }

  lemma {:induction false} CreateCoherent(w: World, poolName: string, u: User, id: int)
    requires Coherent(w, poolName) && Possible(w, poolName, Handle(Create(u, id))) && u.maxBuckets != -1
    requires id != -1 && id !in Ids(w.enabled)
    ensures Coherent(Next(w, poolName, Handle(Create(u, id))), poolName)
  {
    var p, h := w.pool, Create(u, id);
    var q := After(p, poolName, h, 4);
    var config := ExportConfig(id, u.displayName, u.userId, u.keys[0].accessKey, u.keys[0].secretKey);
    ExportRuns.CreateStates(p, poolName, u, id, config);
    ExportRuns.IdGiven(p, id);
    FinishedIdsGood(p, poolName, w.users, h);
    CreateQuiesces(p, poolName, w.users, u, id);
    assert OthersKept(p, q, u.userId);
    assert ExportOf(q, u.userId).id == id;
    forall e, k | e in w.enabled && 0 <= k < |w.users| + 1 && e.id == ExportOf(q, (w.users + [u.userId])[k]).id
      ensures e == ExportOf(q, (w.users + [u.userId])[k])
    {
      assert e.id in Ids(w.enabled);
      if k < |w.users| {
        assert Complete(p, w.users[k]);
        SameExport(p, q, u.userId, w.users[k]);
      }
    }
  }

  lemma UpdatedExport(p: Pool, poolName: string, users: seq<string>, u: User)
    requires Quiescent(p, poolName, users) && u.keys != [] && u.displayName != "" && u.userId in users
    ensures var q := After(p, poolName, Update(u), 3);
            OthersKept(p, q, u.userId)
            && ExportOf(q, u.userId) == Export(ExportOf(p, u.userId).id, "/" + u.displayName)
  {
    var k :| 0 <= k < |users| && users[k] == u.userId;
    assert Complete(p, users[k]);
    CompleteIdLoads(p, u.userId);
  }

  lemma UpdateMatches(enabled: set<Export>, p: Pool, poolName: string, users: seq<string>, u: User)
    requires Quiescent(p, poolName, users) && Matching(enabled, p, users)
    requires u.keys != [] && u.displayName != "" && u.userId in users
    requires "/" + u.displayName == ExportOf(p, u.userId).path
    ensures Matching(enabled, After(p, poolName, Update(u), 3), users)
  {
    var q := After(p, poolName, Update(u), 3);
    UpdatedExport(p, poolName, users, u);
    forall k | 0 <= k < |users| ensures Kept(p, q, users, users[k]) {
      if users[k] != u.userId { OtherKept(p, q, poolName, users, u.userId, users[k]); }
    }
    KeptMatch(enabled, p, q, users, users);
  }

  lemma ListedHasId(p: Pool, poolName: string, users: seq<string>, uid: string)
    requires ListedComplete(p, poolName, users) && uid in users
    ensures HasId(p, ObjectName(uid))
  {
    var m :| 0 <= m < |users| && users[m] == uid;
    assert Complete(p, users[m]) && PREFIX <= ObjectName(uid);
  }

  lemma {:induction false} UpdateCoherent(w: World, poolName: string, u: User)
    requires Coherent(w, poolName) && Possible(w, poolName, Handle(Update(u))) && u.keys != []
    requires "/" + u.displayName == ExportOf(w.pool, u.userId).path
    ensures Coherent(Next(w, poolName, Handle(Update(u))), poolName)
  {
    ListedHasId(w.pool, poolName, w.users, u.userId);
    FinishedIdsGood(w.pool, poolName, w.users, Update(u));
    UpdateQuiesces(w.pool, poolName, w.users, u);
    UpdateMatches(w.enabled, w.pool, poolName, w.users, u);
  }

  lemma {:induction false} RemoveCoherent(w: World, poolName: string, uid: string)
    requires Coherent(w, poolName) && Plain(uid)
    ensures Coherent(Next(w, poolName, Handle(Remove(uid))), poolName)
  {
    FinishedIdsGood(w.pool, poolName, w.users, Remove(uid));
    RemoveQuiesces(w.pool, poolName, w.users, uid);
    RemoveMatches(w.enabled, w.pool, poolName, w.users, uid);
  }

  lemma RemoveMatches(enabled: set<Export>, p: Pool, poolName: string, users: seq<string>, uid: string)
    requires Quiescent(p, poolName, users) && Matching(enabled, p, users)
    ensures Matching(enabled, After(p, poolName, Remove(uid), 2), RemoveUser(users, uid))
  {
    var q, left := After(p, poolName, Remove(uid), 2), RemoveUser(users, uid);
    RemovedObjects(p, poolName, uid);
    ExportRuns.RemovedUsers(users, uid);
    forall k | 0 <= k < |left| ensures Kept(p, q, users, left[k]) {
      assert left[k] in left;
      OtherKept(p, q, poolName, users, uid, left[k]);
    }
    KeptMatch(enabled, p, q, users, left);
  }

  ghost predicate Kept(p: Pool, q: Pool, users: seq<string>, uid: string) {
    uid in users && ExportOf(q, uid) == ExportOf(p, uid)
  }

  lemma KeptMatch(enabled: set<Export>, p: Pool, q: Pool, users: seq<string>, left: seq<string>)
    requires Matching(enabled, p, users) && forall k :: 0 <= k < |left| ==> Kept(p, q, users, left[k])
    ensures Matching(enabled, q, left)
  {
    forall e, k | e in enabled && 0 <= k < |left| && e.id == ExportOf(q, left[k]).id ensures e == ExportOf(q, left[k]) {
      assert Kept(p, q, users, left[k]);
      var m :| 0 <= m < |users| && users[m] == left[k];
    }
  }

  lemma OtherKept(p: Pool, q: Pool, poolName: string, users: seq<string>, uid: string, other: string)
    requires Quiescent(p, poolName, users) && OthersKept(p, q, uid) && other in users && other != uid
    ensures Kept(p, q, users, other)
  {
    var m :| 0 <= m < |users| && users[m] == other;
    assert Complete(p, users[m]);
    SameExport(p, q, uid, other);
  }

  predicate IdsApart(p: Pool, users: seq<string>) {
    forall i, j :: 0 <= i < |users| && 0 <= j < |users| && ExportOf(p, users[i]).id == ExportOf(p, users[j]).id ==>
      i == j
  }

  lemma ListedIdsApart(p: Pool, poolName: string, users: seq<string>)
    requires ListedComplete(p, poolName, users) && IdsGood(p)
    ensures IdsApart(p, users)
  {
    ListedIdsDiffer(p, poolName, users);
    forall k | 0 <= k < |users| ensures ExportOf(p, users[k]).id == ContentId(p, ObjectName(users[k])) {
      assert Complete(p, users[k]);
    }
  }

  lemma AddingMatches(enabled: set<Export>, p: Pool, users: seq<string>)
    requires Matching(enabled, p, users) && IdsApart(p, users)
    ensures Matching(enabled + ListedExports(p, users), p, users)
  {
    forall e, k | e in ListedExports(p, users) && 0 <= k < |users| && e.id == ExportOf(p, users[k]).id
      ensures e == ExportOf(p, users[k])
    {
      var m :| 0 <= m < |users| && e == ExportOf(p, users[m]);
      assert m == k;
    }
  }

  lemma PassCoherent(w: World, poolName: string)
    requires Coherent(w, poolName)
    ensures Coherent(w.(enabled := w.enabled + ListedExports(w.pool, w.users)), poolName)
    ensures Coherent(Next(w, poolName, Pass), poolName)
  {
    ListedIdsApart(w.pool, poolName, w.users);
    AddingMatches(w.enabled, w.pool, w.users);
    assert Next(w, poolName, Pass).enabled <= w.enabled + ListedExports(w.pool, w.users);
  }

  lemma {:induction false} ActCoherent(w: World, poolName: string, act: Act)
    requires Coherent(w, poolName) && Possible(w, poolName, act) && Prudent(w, act)
    ensures Coherent(Next(w, poolName, act), poolName)
  {
    match act
    case Handle(Create(u, id)) => if u.maxBuckets != -1 { CreateCoherent(w, poolName, u, id); }
    case Handle(Update(u)) => if u.keys != [] { UpdateCoherent(w, poolName, u); }
    case Handle(Remove(uid)) => RemoveCoherent(w, poolName, uid);
    case Pass => PassCoherent(w, poolName);
  }

  // ---------------------------------------------------------------- runs

  ghost predicate PrudentRun(w: World, poolName: string, acts: seq<Act>)
    decreases |acts|
  {
    acts == [] ||
    (Possible(w, poolName, acts[0]) && Prudent(w, acts[0])
     && PrudentRun(Next(w, poolName, acts[0]), poolName, acts[1..]))
  }

  ghost function Run(w: World, poolName: string, acts: seq<Act>): World
    requires PrudentRun(w, poolName, acts)
    decreases |acts|
  {
    if acts == [] then w else Run(Next(w, poolName, acts[0]), poolName, acts[1..])
  }

  /** At every point of every prudent run of handlers and passes, a pass leaves exactly the configured
      paths enabled below the root. */
  lemma {:induction false} EveryPassReconciles(w: World, poolName: string, acts: seq<Act>)
    requires Coherent(w, poolName) && PrudentRun(w, poolName, acts)
    ensures var now := Run(w, poolName, acts);
            Coherent(now, poolName)
            && Paths(Next(now, poolName, Pass).enabled) == ConfiguredPaths(now.pool) - {"/"}
    decreases |acts|
  {
    if acts == [] {
      CoherentHasFreshIds(w, poolName);
      FreshIdsReconcile(w.pool, poolName, w.users, w.enabled);
    } else {
      ActCoherent(w, poolName, acts[0]);
      EveryPassReconciles(Next(w, poolName, acts[0]), poolName, acts[1..]);
    }
  }
  // ---------------------------------------------------------------- passes that do not reconcile

  const EMPTY := Pool("\n", map[])

  function Someone(uid: string): User {
    User(uid, uid, 1000, [Key(uid, "access", "secret")])
  }

  lemma EmptyIsQuiescent()
    ensures Quiescent(EMPTY, POOL, [])
  {
  }

  lemma FirstIdIsFree(p: Pool)
    requires p.objects == map[]
    ensures Generated(p, 1)
  {
  }

  /** A user created in a pool without exports is its only export, under the id it was given. */
  lemma OnlyExport(p: Pool, uid: string)
    requires Quiescent(p, POOL, []) && p.objects == map[] && Plain(uid) && uid != "" && |uid| <= BUFFER
    ensures Callable(p, [], Create(Someone(uid), 1))
    ensures var q := After(p, POOL, Create(Someone(uid), 1), 4);
            Quiescent(q, POOL, [uid]) && q.objects.Keys == {ObjectName(uid)}
            && ListedExports(q, [uid]) == {Export(1, "/" + uid)} && ConfiguredPaths(q) == {"/" + uid}
  {
    var u := Someone(uid);
    FirstIdIsFree(p);
    CreateQuiesces(p, POOL, [], u, 1);
    var q := After(p, POOL, Create(u, 1), 4);
    assert [] + [uid] == [uid];
    ExportRuns.CreateStates(p, POOL, u, 1, ExportConfig(1, uid, uid, "access", "secret"));
    assert q.objects.Keys == {ObjectName(uid)};
    assert ExportOf(q, uid) == Export(1, "/" + uid);
    assert [uid][0] == uid;
    ConfiguredIsListed(q, POOL, [uid]);
  }

  /** The pool after the removal of its only export. */
  lemma OnlyExportRemoved(p: Pool, uid: string)
    requires Quiescent(p, POOL, [uid]) && p.objects.Keys == {ObjectName(uid)} && Plain(uid)
    ensures Quiescent(After(p, POOL, Remove(uid), 2), POOL, [])
    ensures After(p, POOL, Remove(uid), 2).objects == map[]
  {
    RemoveQuiesces(p, POOL, [uid], uid);
    RemovedObjects(p, POOL, uid);
    assert RemoveUser([uid], uid) == [];
  }

  /** The pass when the only listed export has the id of another that is still enabled. */
  lemma SharedIdGoes(p: Pool, uid: string, path: string, former: string)
    requires Quiescent(p, POOL, [uid]) && former != path && former != "/" && path != "/"
    requires ListedExports(p, [uid]) == {Export(1, path)} && ConfiguredPaths(p) == {path}
    ensures path !in PathsAfter(p, [uid], {Export(1, former)})
    ensures PathsAfter(p, [uid], {Export(1, former)}) != ConfiguredPaths(p) - {"/"}
  {
    var all := {Export(1, former)} + ListedExports(p, [uid]);
    assert Export(1, former) in Stale(all, ConfiguredPaths(p));
    assert 1 in Ids(Stale(all, ConfiguredPaths(p)));
  }

  lemma PathsDiffer(a: string, b: string)
    requires a != b && a != "" && b != ""
    ensures "/" + a != "/" + b && "/" + a != "/" && "/" + b != "/"
  {
    assert ("/" + a)[1..] == a && ("/" + b)[1..] == b;
    assert |"/" + a| > 1 && |"/" + b| > 1;
  }

  /** User a is exported and enabled, then removed, and user b gets the same id before the next pass:
      that pass finds b configured and leaves it disabled. */
  lemma {:induction false} ReuseExample()
    ensures var p := After(EMPTY, POOL, Create(Someone("a"), 1), 4);
            Quiescent(p, POOL, ["a"]) && ListedExports(p, ["a"]) == {Export(1, "/" + "a")}
    ensures var p := After(EMPTY, POOL, Create(Someone("a"), 1), 4);
            var q := After(After(p, POOL, Remove("a"), 2), POOL, Create(Someone("b"), 1), 4);
            Quiescent(q, POOL, ["b"]) && ConfiguredPaths(q) == {"/" + "b"}
            && "/" + "b" !in PathsAfter(q, ["b"], ListedExports(p, ["a"]))
  {
    EmptyIsQuiescent();
    OnlyExport(EMPTY, "a");
    var p := After(EMPTY, POOL, Create(Someone("a"), 1), 4);
    OnlyExportRemoved(p, "a");
    var gone := After(p, POOL, Remove("a"), 2);
    OnlyExport(gone, "b");
    PathsDiffer("a", "b");
    SharedIdGoes(After(gone, POOL, Create(Someone("b"), 1), 4), "b", "/" + "b", "/" + "a");
  }

  /** User a is exported and enabled as a, and is renamed b: the next pass disables the old path by its
      id, which is also that of the new one. */
  lemma RenameExample()
    ensures var p := After(EMPTY, POOL, Create(Someone("a"), 1), 4);
            var q := After(p, POOL, Update(Someone("a").(displayName := "b")), 3);
            Quiescent(q, POOL, ["a"]) && ConfiguredPaths(q) == {"/" + "b"}
            && "/" + "b" !in PathsAfter(q, ["a"], {Export(1, "/" + "a")})
  {
    var u := Someone("a").(displayName := "b");
    EmptyIsQuiescent();
    OnlyExport(EMPTY, "a");
    var p := After(EMPTY, POOL, Create(Someone("a"), 1), 4);
    assert ExportOf(p, "a") in ListedExports(p, ["a"]) by { assert ["a"][0] == "a"; }
    UpdatedExport(p, POOL, ["a"], u);
    UpdateQuiesces(p, POOL, ["a"], u);
    OnlyListed(After(p, POOL, Update(u), 3), "a", Export(1, "/" + "b"));
    PathsDiffer("a", "b");
    SharedIdGoes(After(p, POOL, Update(u), 3), "a", "/" + "b", "/" + "a");
  }

  lemma OnlyListed(p: Pool, uid: string, e: Export)
    requires Quiescent(p, POOL, [uid]) && ExportOf(p, uid) == e
    ensures ListedExports(p, [uid]) == {e} && ConfiguredPaths(p) == {e.path}
  {
    assert [uid][0] == uid;
    ConfiguredIsListed(p, POOL, [uid]);
  }
}

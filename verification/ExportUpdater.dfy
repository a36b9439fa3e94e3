/**
  The daemon that brings one host in line with the registry: it copies the export list, has the NFS
  server reload it, and disables the exports that are no longer configured.
 */
module ExportUpdater {
  import opened Wrappers
  import opened ExportList
  import opened ExportRegistry
  import ExportRuns

  /** An export the server has enabled. */
  datatype Export = Export(id: int, path: string)

  // ---------------------------------------------------------------- what a pass should do

  /** The paths loadConfiguredPaths finds: one per export object with a display name attribute. */
  function ConfiguredPaths(p: Pool): set<string> {
    set oid | oid in p.objects && PREFIX <= oid && GetXattr(p, oid, PSEUDO, BUFFER).Some?
      :: "/" + GetXattr(p, oid, PSEUDO, BUFFER).value
  }

  predicate IsRoot(e: Export) {
    e.path == "/"
  }

  /** Enabled exports below the root that are not configured. */
  function Stale(enabled: set<Export>, configured: set<string>): set<Export> {
    set e | e in enabled && !IsRoot(e) && e.path !in configured
  }

  function Ids(exports: set<Export>): set<int> {
    set e | e in exports :: e.id
  }

  function Paths(exports: set<Export>): set<string> {
    set e | e in exports && !IsRoot(e) :: e.path
  }

  /** Exports are disabled by their id. */
  function WithoutIds(enabled: set<Export>, ids: set<int>): set<Export> {
    set e | e in enabled && e.id !in ids
  }

  /** What a pass leaves enabled: the reload adds the listed exports, then the unconfigured ones go. */
  function PassResult(enabled: set<Export>, listed: set<Export>, configured: set<string>): set<Export> {
    var all := enabled + listed;
    WithoutIds(all, Ids(Stale(all, configured)))
  }

  // ---------------------------------------------------------------- the host

  class Host {
    var enabled: set<Export>
    var file: Option<string>
    var mtime: int

    /** A read of at most the buffer's size; what is read is put at the start of the buffer. */
    method Read(target: string, buffer: array<char>, offset: nat) returns (ret: nat)
      requires offset <= |target|
      modifies buffer
      ensures ret == if |target| - offset < buffer.Length then |target| - offset else buffer.Length
      ensures buffer[..ret] == target[offset..offset + ret]
    {
      ret := 0;
      while ret < buffer.Length && offset + ret < |target|
        invariant ret <= buffer.Length && offset + ret <= |target|
        invariant buffer[..ret] == target[offset..offset + ret]
      {
        buffer[ret] := target[offset + ret];
        ret := ret + 1;
      }
    }

    /** getExport: reads fifty bytes at a time until a read comes back short, which happens also
        when the object's size is a multiple of fifty. */
    method GetExport(target: string) returns (data: string)
      ensures data == target
    {
      var offset := 0;
      var buffer := new char[50];
      data := "";
      while true
        invariant offset <= |target| && data == target[..offset]
        decreases |target| - offset, 1
      {
        var ret := Read(target, buffer, offset);
        data := data + buffer[..ret];
        assert data == target[..offset + ret];
        if ret == buffer.Length {
          offset := offset + buffer.Length;
        } else {
          break;
        }
      }
    }

    /** loadConfiguredPaths, over the objects in any order. */
    method LoadConfiguredPaths(p: Pool) returns (configured: map<string, bool>)
      ensures configured.Keys == ConfiguredPaths(p)
      ensures forall path :: path in configured <==>
                exists oid :: oid in p.objects && "export_" <= oid && "pseudo" in p.objects[oid].xattrs
                  && |p.objects[oid].xattrs["pseudo"]| <= 100 && path == "/" + p.objects[oid].xattrs["pseudo"]
    {
      configured := map[];
      var remaining := p.objects.Keys;
      while remaining != {}
        invariant remaining <= p.objects.Keys
        invariant forall path :: path in configured <==> PathOf(p, p.objects.Keys - remaining, path)
        decreases |remaining|
      {
        var oid :| oid in remaining;
        ghost var seen, before := p.objects.Keys - remaining, configured;
        remaining := remaining - {oid};
        if PREFIX <= oid {
          var displayName := GetXattr(p, oid, PSEUDO, BUFFER);
          if displayName.Some? {
            configured := configured["/" + displayName.value := true];
          }
        }
        assert p.objects.Keys - remaining == seen + {oid};
        forall path ensures path in configured <==> PathOf(p, seen + {oid}, path) {
          assert path in before <==> PathOf(p, seen, path);
          assert PathOf(p, seen + {oid}, path) <==> PathOf(p, seen, path) || PathOf(p, {oid}, path);
        }
      }
      assert p.objects.Keys - {} == p.objects.Keys;
      forall path ensures path in configured <==> path in ConfiguredPaths(p) {
        assert path in configured <==> PathOf(p, p.objects.Keys, path);
      }
    }

    /** listEnabledExport: the root is always exported and left out. */
    method ListEnabledExport() returns (exports: set<Export>)
      ensures exports == set e | e in enabled && !IsRoot(e)
    {
      exports := set e | e in enabled && !IsRoot(e);
    }

    method NeedToUpdate(objectMtime: int) returns (r: bool)
      ensures r <==> file.None? || objectMtime > mtime
    {
      if file.None? {
        return true;
      }
      return objectMtime > mtime;
    }

    /** The last loop of execute, over the enabled exports in any order. */
    method DisableUnconfigured(exports: set<Export>, paths: map<string, bool>)
      requires exports == set e | e in enabled && !IsRoot(e)
      modifies `enabled
      ensures enabled == WithoutIds(old(enabled), Ids(Stale(old(enabled), paths.Keys)))
      ensures forall e :: e in enabled <==>
                e in old(enabled)
                && forall f :: f in old(enabled) && f.path != "/" && f.path !in paths ==> f.id != e.id
    {
      var remaining := exports;
      ghost var done: set<Export> := {};
      DisabledNone(enabled, paths.Keys);
      while remaining != {}
        invariant done + remaining == exports
        invariant Disabled(old(enabled), enabled, done, paths.Keys)
        decreases |remaining|
      {
        var item :| item in remaining;
        DisabledMore(old(enabled), enabled, done, item, paths.Keys);
        remaining, done := remaining - {item}, done + {item};
        if item.path !in paths {
          enabled := WithoutIds(enabled, {item.id});
        }
      }
      DisabledAll(old(enabled), enabled, done, paths.Keys);
    }

    /** One pass of the daemon.  `reload` is what the server enables when it is told to read the copied
        list; it only adds.  When that is what the registry lists, the pass reconciles the host exactly
        under the condition on ids of ReconcilesExactlyWhen. */
    method Execute(pid: int, stat: Option<int>, p: Pool, reload: string -> set<Export>, now: int, busUp: bool)
      modifies this
      ensures !(pid != -1 && stat.Some? && (old(file).None? || stat.value > old(mtime))) ==>
        enabled == old(enabled) && file == old(file) && mtime == old(mtime)
      ensures pid != -1 && stat.Some? && (old(file).None? || stat.value > old(mtime)) ==>
        && file == Some(p.list) && mtime == now
        && (!busUp ==> enabled == old(enabled) + reload(p.list))
        && (busUp ==> enabled == PassResult(old(enabled), reload(p.list), ConfiguredPaths(p)))
      ensures pid != -1 && stat.Some? && (old(file).None? || stat.value > old(mtime)) && busUp ==>
        var all := old(enabled) + reload(p.list);
        forall e :: e in enabled <==>
          e in all && forall f :: f in all && f.path != "/" && f.path !in ConfiguredPaths(p) ==> f.id != e.id
      ensures pid != -1 && stat.Some? && (old(file).None? || stat.value > old(mtime)) && busUp ==>
        forall poolName, users ::
          Quiescent(p, poolName, users) && reload(p.list) == ListedExports(p, users)
          && OnePerPath(old(enabled) + reload(p.list), ConfiguredPaths(p)) ==>
            (Paths(enabled) == ConfiguredPaths(p) - {"/"} <==> NoSharedId(p, users, old(enabled)))
    {
      if pid == -1 || stat.None? {
        return;
      }
      var needed := NeedToUpdate(stat.value);
      if !needed {
        return;
      }
      var data := GetExport(p.list);
      file, mtime := Some(data), now;
      enabled := enabled + reload(data);
      var paths := LoadConfiguredPaths(p);
      if !busUp {
        return;
      }
      var exports := ListEnabledExport();
      DisableUnconfigured(exports, paths);
      forall poolName, users | Quiescent(p, poolName, users) && reload(p.list) == ListedExports(p, users)
        && OnePerPath(old(enabled) + reload(p.list), ConfiguredPaths(p))
        ensures Paths(enabled) == ConfiguredPaths(p) - {"/"} <==> NoSharedId(p, users, old(enabled))
      {
        ReconcilesExactlyWhen(p, poolName, users, old(enabled));
      }
    }
  }

  ghost predicate PathOf(p: Pool, oids: set<string>, path: string) {
    exists oid :: oid in oids && oid in p.objects && PREFIX <= oid && GetXattr(p, oid, PSEUDO, BUFFER).Some?
      && path == "/" + GetXattr(p, oid, PSEUDO, BUFFER).value
  }

  function Unconfigured(exports: set<Export>, configured: set<string>): set<Export> {
    set e | e in exports && e.path !in configured
  }

  /** The unconfigured ones of the exports done so far have been disabled. */
  ghost predicate Disabled(before: set<Export>, now: set<Export>, done: set<Export>, configured: set<string>) {
    now == WithoutIds(before, Ids(Unconfigured(done, configured)))
  }

  lemma DisabledNone(enabled: set<Export>, configured: set<string>)
    ensures Disabled(enabled, enabled, {}, configured)
  {
  }

  lemma DisabledMore(before: set<Export>, now: set<Export>, done: set<Export>, item: Export, configured: set<string>)
    requires Disabled(before, now, done, configured)
    ensures Disabled(before, if item.path in configured then now else WithoutIds(now, {item.id}),
                     done + {item}, configured)
  {
  }

  lemma DisabledAll(before: set<Export>, now: set<Export>, done: set<Export>, configured: set<string>)
    requires Disabled(before, now, done, configured) && done == set e | e in before && !IsRoot(e)
    ensures now == WithoutIds(before, Ids(Stale(before, configured)))
  {
  }

  // ---------------------------------------------------------------- what a pass achieves

  /** The export a listed user has according to the registry. */
  function ExportOf(p: Pool, uid: string): Export {
    match ObjectAt(p, ObjectName(uid)).content
    case None => Export(-1, "/")
    case Some(c) => Export(c.id, "/" + c.displayName)
  }

  function ListedExports(p: Pool, users: seq<string>): set<Export> {
    set k | 0 <= k < |users| :: ExportOf(p, users[k])
  }

  /** No handler is under way: every export object is listed, and its attribute agrees with its content. */
  ghost predicate Quiescent(p: Pool, poolName: string, users: seq<string>) {
    && ListedComplete(p, poolName, users)
    && Owned(p, users)
    && (forall k :: 0 <= k < |users| ==> Agrees(p, users[k]))
  }

  ghost predicate Agrees(p: Pool, uid: string) {
    && Complete(p, uid)
    && GetXattr(p, ObjectName(uid), PSEUDO, BUFFER)
         == Some(p.objects[ObjectName(uid)].content.value.displayName)
  }

  /** In a quiescent registry the configured paths are the paths of the listed exports. */
  lemma ConfiguredIsListed(p: Pool, poolName: string, users: seq<string>)
    requires Quiescent(p, poolName, users)
    ensures ConfiguredPaths(p) == set e | e in ListedExports(p, users) :: e.path
  {
    var configured, listed := ConfiguredPaths(p), set e | e in ListedExports(p, users) :: e.path;
    forall path | path in configured ensures path in listed {
      var oid :| oid in p.objects && PREFIX <= oid && GetXattr(p, oid, PSEUDO, BUFFER).Some?
        && path == "/" + GetXattr(p, oid, PSEUDO, BUFFER).value;
      var k :| 0 <= k < |users| && oid == ObjectName(users[k]);
      assert Agrees(p, users[k]);
      assert ExportOf(p, users[k]) in ListedExports(p, users) && ExportOf(p, users[k]).path == path;
    }
    forall path | path in listed ensures path in configured {
      var e :| e in ListedExports(p, users) && e.path == path;
      var k :| 0 <= k < |users| && e == ExportOf(p, users[k]);
      assert Agrees(p, users[k]);
      assert PREFIX <= ObjectName(users[k]);
    }
  }

  function BelowRoot(exports: set<Export>): set<Export> {
    set e | e in exports && !IsRoot(e)
  }

  /** No configured path below the root is enabled twice. */
  predicate OnePerPath(all: set<Export>, configured: set<string>) {
    forall e, f :: e in all && f in all && e.path == f.path && !IsRoot(e) && e.path in configured ==> e == f
  }

  /** No enabled export that is no longer configured has the id of a listed one. */
  predicate NoSharedId(p: Pool, users: seq<string>, enabled: set<Export>) {
    Ids(Stale(enabled, ConfiguredPaths(p))) !! Ids(BelowRoot(ListedExports(p, users)))
  }

  /** The paths below the root that a pass leaves enabled. */
  function PathsAfter(p: Pool, users: seq<string>, enabled: set<Export>): set<string> {
    Paths(PassResult(enabled, ListedExports(p, users), ConfiguredPaths(p)))
  }

  lemma ListedAreConfigured(p: Pool, poolName: string, users: seq<string>)
    requires Quiescent(p, poolName, users)
    ensures AllConfigured(ListedExports(p, users), ConfiguredPaths(p))
    ensures forall path :: path in ConfiguredPaths(p) ==> path in AllPaths(ListedExports(p, users))
  {
    ConfiguredIsListed(p, poolName, users);
  }

  predicate AllConfigured(listed: set<Export>, configured: set<string>) {
    forall e :: e in listed ==> e.path in configured
  }

  function AllPaths(exports: set<Export>): set<string> {
    set e | e in exports :: e.path
  }

  lemma OnlyEnabledGoStale(enabled: set<Export>, listed: set<Export>, configured: set<string>)
    requires AllConfigured(listed, configured)
    ensures Stale(enabled + listed, configured) == Stale(enabled, configured)
  {
  }

  /** Exports that keep their path are those whose id is not stale; nothing unconfigured is kept. */
  lemma OnlyConfiguredStay(enabled: set<Export>, listed: set<Export>, configured: set<string>)
    ensures Paths(PassResult(enabled, listed, configured)) <= configured - {"/"}
  {
  }

  lemma FreshStay(enabled: set<Export>, listed: set<Export>, configured: set<string>, e: Export)
    requires AllConfigured(listed, configured) && Ids(Stale(enabled, configured)) !! Ids(BelowRoot(listed))
    requires e in listed && !IsRoot(e)
    ensures e.path in Paths(PassResult(enabled, listed, configured))
  {
    OnlyEnabledGoStale(enabled, listed, configured);
    assert e in BelowRoot(listed) && e.id in Ids(BelowRoot(listed));
    assert e in PassResult(enabled, listed, configured);
  }

  lemma SharedGo(enabled: set<Export>, listed: set<Export>, configured: set<string>, e: Export)
    requires AllConfigured(listed, configured) && OnePerPath(enabled + listed, configured)
    requires e in listed && !IsRoot(e) && e.id in Ids(Stale(enabled, configured))
    ensures e.path !in Paths(PassResult(enabled, listed, configured))
  {
    OnlyEnabledGoStale(enabled, listed, configured);
  }

  /** While no unconfigured export has the id of a listed one, a pass leaves exactly the configured
      paths enabled below the root. */
  lemma FreshIdsReconcile(p: Pool, poolName: string, users: seq<string>, enabled: set<Export>)
    requires Quiescent(p, poolName, users) && NoSharedId(p, users, enabled)
    ensures PathsAfter(p, users, enabled) == ConfiguredPaths(p) - {"/"}
  {
    var listed, configured := ListedExports(p, users), ConfiguredPaths(p);
    ListedAreConfigured(p, poolName, users);
    forall path | path in configured - {"/"} ensures path in PathsAfter(p, users, enabled) {
      var e :| e in listed && e.path == path;
      FreshStay(enabled, listed, configured, e);
    }
    OnlyConfiguredStay(enabled, listed, configured);
  }

  /** A pass that goes through, on a quiescent registry and with no configured path enabled twice,
      leaves exactly the configured paths enabled below the root if and only if no unconfigured export
      has the id of a listed one. */
  lemma ReconcilesExactlyWhen(p: Pool, poolName: string, users: seq<string>, enabled: set<Export>)
    requires Quiescent(p, poolName, users) && OnePerPath(enabled + ListedExports(p, users), ConfiguredPaths(p))
    ensures PathsAfter(p, users, enabled) == ConfiguredPaths(p) - {"/"} <==> NoSharedId(p, users, enabled)
  {
    if NoSharedId(p, users, enabled) {
      FreshIdsReconcile(p, poolName, users, enabled);
    } else {
      ListedAreConfigured(p, poolName, users);
      SharedIdFails(enabled, ListedExports(p, users), ConfiguredPaths(p));
    }
  }

  lemma SharedIdFails(enabled: set<Export>, listed: set<Export>, configured: set<string>)
    requires AllConfigured(listed, configured) && OnePerPath(enabled + listed, configured)
    requires !(Ids(Stale(enabled, configured)) !! Ids(BelowRoot(listed)))
    ensures Paths(PassResult(enabled, listed, configured)) != configured - {"/"}
  {
    var id :| id in Ids(Stale(enabled, configured)) && id in Ids(BelowRoot(listed));
    var e :| e in BelowRoot(listed) && e.id == id;
    SharedGo(enabled, listed, configured, e);
    assert e.path in configured - {"/"};
  }

  // ---------------------------------------------------------------- completed handlers leave the registry quiescent

  /** Names that fit the attribute buffer, updates of exported users only. */
  ghost predicate Tame(users: seq<string>, h: Handler) {
    match h
    case Create(u, _) => u.displayName != "" && |u.displayName| <= BUFFER
    case Update(u) => u.displayName != "" && |u.displayName| <= BUFFER && (u.keys == [] || u.userId in users)
    case Remove(_) => true
  }

  /** The object of this user has been rewritten and annotated; nothing else has changed. */
  ghost predicate Rewritten(p: Pool, q: Pool, uid: string) {
    OnlyTouches(p, q, ObjectName(uid)) && Agrees(q, uid)
  }

  lemma RewrittenAgree(p: Pool, q: Pool, users: seq<string>, uid: string)
    requires Rewritten(p, q, uid)
    requires forall k :: 0 <= k < |users| ==> Agrees(p, users[k])
    ensures forall k :: 0 <= k < |users| ==> Agrees(q, users[k])
  {
  }

  lemma CallsRewrite(p: Pool, uid: string, config: ExportConfig)
    requires config.displayName != "" && |config.displayName| <= BUFFER && SmallId(config.id)
    ensures var written := WriteFull(p, ObjectName(uid), config);
            Rewritten(p, Annotate(written, ObjectName(uid), config.displayName, config.id)[1], uid)
  {
  }

  lemma {:induction false} CreateQuiesces(p: Pool, poolName: string, users: seq<string>, u: User, id: int)
    requires Quiescent(p, poolName, users) && Callable(p, users, Create(u, id)) && Tame(users, Create(u, id))
    requires u.maxBuckets != -1
    ensures Quiescent(After(p, poolName, Create(u, id), 4), poolName, users + [u.userId])
  {
    var config := ExportConfig(id, u.displayName, u.userId, u.keys[0].accessKey, u.keys[0].secretKey);
    ExportRuns.CreateStates(p, poolName, u, id, config);
    ExportRuns.CreateKeepsListed(p, poolName, users, u, id, 4);
    CallsRewrite(p, u.userId, config);
    var mid, q := States(p, poolName, Create(u, id))[2], After(p, poolName, Create(u, id), 4);
    var users' := users + [u.userId];
    RewrittenAgree(p, mid, users, u.userId);
    forall k | 0 <= k < |users'| ensures Agrees(q, users'[k]) {
      assert Agrees(mid, users'[k]);
    }
    forall oid | oid in q.objects && PREFIX <= oid
      ensures exists k :: 0 <= k < |users'| && oid == ObjectName(users'[k])
    {
      if oid == ObjectName(u.userId) {
        assert oid == ObjectName(users'[|users|]);
      } else {
        var k :| 0 <= k < |users| && oid == ObjectName(users[k]);
        assert oid == ObjectName(users'[k]);
      }
    }
  }

  lemma UpdateQuiesces(p: Pool, poolName: string, users: seq<string>, u: User)
    requires Quiescent(p, poolName, users) && Tame(users, Update(u)) && u.keys != []
    ensures Quiescent(After(p, poolName, Update(u), 3), poolName, users)
  {
    var oid := ObjectName(u.userId);
    var k :| 0 <= k < |users| && users[k] == u.userId;
    assert Agrees(p, users[k]);
    CompleteIdLoads(p, u.userId);
    var config := ExportConfig(LoadId(p, oid), u.displayName, u.keys[0].user, u.keys[0].accessKey, u.keys[0].secretKey);
    ExportRuns.UpdateKeepsListed(p, poolName, users, u, 3);
    CallsRewrite(p, u.userId, config);
    var q := After(p, poolName, Update(u), 3);
    assert Rewritten(p, q, u.userId);
    RewrittenAgree(p, q, users, u.userId);
    assert oid == ObjectName(users[k]);
  }

  lemma {:induction false} RemoveQuiesces(p: Pool, poolName: string, users: seq<string>, uid: string)
    requires Quiescent(p, poolName, users) && Plain(uid)
    ensures Quiescent(After(p, poolName, Remove(uid), 2), poolName, RemoveUser(users, uid))
  {
    ExportRuns.RemoveKeepsListed(p, poolName, users, uid, 2);
    RemovedObjects(p, poolName, uid);
    OthersAgree(p, After(p, poolName, Remove(uid), 2), users, uid);
    OthersOwned(p, After(p, poolName, Remove(uid), 2), users, uid);
  }

  lemma RemovedObjects(p: Pool, poolName: string, uid: string)
    ensures After(p, poolName, Remove(uid), 2).objects == p.objects - {ObjectName(uid)}
  {
  }

  lemma OthersAgree(p: Pool, q: Pool, users: seq<string>, uid: string)
    requires ExportRegistry.NoRepeats(users) && q.objects == p.objects - {ObjectName(uid)}
    requires forall k :: 0 <= k < |users| ==> Agrees(p, users[k])
    ensures forall k :: 0 <= k < |RemoveUser(users, uid)| ==> Agrees(q, RemoveUser(users, uid)[k])
  {
    var left := RemoveUser(users, uid);
    ExportRuns.RemovedUsers(users, uid);
    forall k | 0 <= k < |left| ensures Agrees(q, left[k]) {
      var u := left[k];
      assert u in left;
      var m :| 0 <= m < |users| && users[m] == u;
      assert Agrees(p, users[m]);
      NamesDiffer(u, uid);
    }
  }

  ghost predicate Owned(p: Pool, users: seq<string>) {
    forall oid :: oid in p.objects && PREFIX <= oid ==> exists k :: 0 <= k < |users| && oid == ObjectName(users[k])
  }

  lemma OthersOwned(p: Pool, q: Pool, users: seq<string>, uid: string)
    requires Owned(p, users) && q.objects == p.objects - {ObjectName(uid)}
    ensures Owned(q, RemoveUser(users, uid))
  {
    var left := RemoveUser(users, uid);
    RemoveAbsent(users, uid);
    forall oid | oid in q.objects && PREFIX <= oid ensures exists k :: 0 <= k < |left| && oid == ObjectName(left[k]) {
      var m :| 0 <= m < |users| && oid == ObjectName(users[m]);
      var u := users[m];
      assert u in left;
      var k :| 0 <= k < |left| && left[k] == u;
    }
  }

  /** A serial run in which every handler runs to its end. */
  ghost predicate Completed(p: Pool, poolName: string, users: seq<string>, events: seq<ExportRuns.Event>)
    requires ExportRuns.Legal(p, poolName, users, events)
    decreases |events|
  {
    events == [] ||
    (var (h, cut) := (events[0].handler, events[0].cut);
     && Tame(users, h) && cut == |States(p, poolName, h)|
     && Completed(After(p, poolName, h, cut), poolName, UsersAfter(users, h, cut), events[1..]))
  }

  /** After any such run the registry is quiescent, so what is proved about a pass applies to it. */
  lemma {:induction false} CompletedRunsQuiesce(p: Pool, poolName: string, users: seq<string>,
                                                events: seq<ExportRuns.Event>)
    requires Quiescent(p, poolName, users) && ExportRuns.Legal(p, poolName, users, events)
    requires Completed(p, poolName, users, events)
    ensures Quiescent(ExportRuns.RunPool(p, poolName, users, events), poolName, ExportRuns.RunUsers(users, events))
    decreases |events|
  {
    if events != [] {
      var h, cut := events[0].handler, events[0].cut;
      match h {
        case Create(u, id) => if u.maxBuckets != -1 { CreateQuiesces(p, poolName, users, u, id); }
        case Update(u) => if u.keys != [] { UpdateQuiesces(p, poolName, users, u); }
        case Remove(uid) => RemoveQuiesces(p, poolName, users, uid);
      }
      CompletedRunsQuiesce(After(p, poolName, h, cut), poolName, UsersAfter(users, h, cut), events[1..]);
    }
  }
}

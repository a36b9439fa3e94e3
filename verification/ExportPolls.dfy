/**
  The daemon's polls between the handlers.

  A poll passes only when the list object has a later time than the local copy.  As long as every write
  of the list gets a later time than the copy there is, and the bus is up, every poll that finds the
  server leaves the configured paths enabled.  Without either, it is said exactly when a poll still does.
 */
module ExportPolls {
  import opened Wrappers
  import opened ExportList
  import opened ExportRegistry
  import opened ExportUpdater
  import opened ExportSystem

  /** The registry and the host, the time of the list object, and the local copy with its time. */
  datatype Site = Site(world: World, listTime: Option<int>, file: Option<string>, mtime: int)

  datatype Event =
    | Handled(handler: Handler, time: int)
    | Polled(pid: int, busUp: bool, now: int)

  /** Creations and removals write the list object. */
  predicate WritesList(h: Handler) {
    match h
    case Create(u, _) => u.maxBuckets != -1
    case Update(_) => false
    case Remove(_) => true
  }

  predicate Newer(s: Site) {
    s.listTime.Some? && (s.file.None? || s.listTime.value > s.mtime)
  }

  function Reloaded(w: World): set<Export> {
    w.enabled + ListedExports(w.pool, w.users)
  }

  function NextSite(s: Site, poolName: string, e: Event): Site
    requires e.Handled? && e.handler.Create? ==> e.handler.user.keys != []
  {
    match e
    case Handled(h, time) =>
      s.(world := Next(s.world, poolName, Handle(h)), listTime := if WritesList(h) then Some(time) else s.listTime)
    case Polled(pid, busUp, now) =>
      if pid == -1 || !Newer(s) then s
      else
        Site(if busUp then Next(s.world, poolName, Pass) else s.world.(enabled := Reloaded(s.world)),
             s.listTime, Some(s.world.pool.list), now)
  }

  /** Handlers are prudent. */
  ghost predicate Allowed(s: Site, poolName: string, e: Event) {
    e.Handled? ==> Possible(s.world, poolName, Handle(e.handler)) && Prudent(s.world, Handle(e.handler))
  }

  /** The list is written at a later time than the local copy, and polls that find the server reach the bus. */
  predicate Timely(s: Site, e: Event) {
    match e
    case Handled(h, time) => WritesList(h) && s.file.Some? ==> time > s.mtime
    case Polled(pid, busUp, _) => pid == -1 || busUp
  }

  ghost predicate Legal(s: Site, poolName: string, events: seq<Event>)
    decreases |events|
  {
    events == [] ||
    (Allowed(s, poolName, events[0]) && Legal(NextSite(s, poolName, events[0]), poolName, events[1..]))
  }

  ghost predicate AllTimely(s: Site, poolName: string, events: seq<Event>)
    requires Legal(s, poolName, events)
    decreases |events|
  {
    events == [] ||
    (Timely(s, events[0]) && AllTimely(NextSite(s, poolName, events[0]), poolName, events[1..]))
  }

  ghost function RunSite(s: Site, poolName: string, events: seq<Event>): Site
    requires Legal(s, poolName, events)
    decreases |events|
  {
    if events == [] then s else RunSite(NextSite(s, poolName, events[0]), poolName, events[1..])
  }

  // ---------------------------------------------------------------- the daemon's loop

  ghost predicate Follows(host: Host, s: Site)
    reads host
  {
    host.enabled == s.world.enabled && host.file == s.file && host.mtime == s.mtime
  }

  /** One turn of the daemon's loop. */
  method Poll(host: Host, s: Site, poolName: string, pid: int, busUp: bool, now: int)
    requires Follows(host, s)
    modifies host
    ensures Follows(host, NextSite(s, poolName, Polled(pid, busUp, now)))
  {
    var listed := ListedExports(s.world.pool, s.world.users);
    host.Execute(pid, s.listTime, s.world.pool, _ => listed, now, busUp);
  }

  // ---------------------------------------------------------------- what a poll leaves

  /** Exactly the configured paths are enabled below the root. */
  ghost predicate Reconciled(w: World) {
    (set e | e in w.enabled && e.path != "/" :: e.path) == ConfiguredPaths(w.pool) - {"/"}
  }

  /** When the next poll does nothing, nothing is left to do. */
  ghost predicate InStep(s: Site, poolName: string) {
    Coherent(s.world, poolName) && (!Newer(s) ==> Reconciled(s.world))
  }

  lemma PassReconciles(w: World, poolName: string)
    requires Coherent(w, poolName)
    ensures Reconciled(Next(w, poolName, Pass)) && Coherent(Next(w, poolName, Pass), poolName)
  {
    CoherentHasFreshIds(w, poolName);
    FreshIdsReconcile(w.pool, poolName, w.users, w.enabled);
    PassCoherent(w, poolName);
  }

  /** An update that keeps the display name keeps the configured paths. */
  lemma UpdateKeepsPaths(w: World, poolName: string, u: User)
    requires Coherent(w, poolName) && Possible(w, poolName, Handle(Update(u))) && Prudent(w, Handle(Update(u)))
    ensures ConfiguredPaths(Next(w, poolName, Handle(Update(u))).pool) == ConfiguredPaths(w.pool)
  {
    if u.keys != [] {
      var p, q := w.pool, After(w.pool, poolName, Update(u), 3);
      UpdateQuiesces(p, poolName, w.users, u);
      UpdatedExport(p, poolName, w.users, u);
      forall k | 0 <= k < |w.users| ensures Kept(p, q, w.users, w.users[k]) {
        if w.users[k] != u.userId { OtherKept(p, q, poolName, w.users, u.userId, w.users[k]); }
      }
      KeptListed(p, q, w.users);
      ConfiguredIsListed(p, poolName, w.users);
      ConfiguredIsListed(q, poolName, w.users);
    }
  }

  lemma KeptListed(p: Pool, q: Pool, users: seq<string>)
    requires forall k :: 0 <= k < |users| ==> Kept(p, q, users, users[k])
    ensures ListedExports(q, users) == ListedExports(p, users)
  {
  }

  lemma {:induction false} EventKeepsStep(s: Site, poolName: string, e: Event)
    requires InStep(s, poolName) && Allowed(s, poolName, e) && Timely(s, e)
    ensures InStep(NextSite(s, poolName, e), poolName)
  {
    match e
    case Handled(h, time) =>
      ActCoherent(s.world, poolName, Handle(h));
      if h.Update? { UpdateKeepsPaths(s.world, poolName, h.user); }
    case Polled(pid, busUp, now) =>
      PassReconciles(s.world, poolName);
  }

  /** In every timely run, a poll that finds the server leaves exactly the configured paths enabled
      below the root, whether it passes or does nothing. */
  lemma {:induction false} EveryPollReconciles(s: Site, poolName: string, events: seq<Event>, pid: int, now: int)
    requires InStep(s, poolName) && Legal(s, poolName, events) && AllTimely(s, poolName, events) && pid != -1
    ensures var t := NextSite(RunSite(s, poolName, events), poolName, Polled(pid, true, now));
            InStep(t, poolName)
            && (set e | e in t.world.enabled && e.path != "/" :: e.path) == ConfiguredPaths(t.world.pool) - {"/"}
    decreases |events|
  {
    if events == [] {
      EventKeepsStep(s, poolName, Polled(pid, true, now));
      PassReconciles(s.world, poolName);
    } else {
      EventKeepsStep(s, poolName, events[0]);
      EveryPollReconciles(NextSite(s, poolName, events[0]), poolName, events[1..], pid, now);
    }
  }

  // ---------------------------------------------------------------- any run: clocks and bus as they are

  lemma {:induction false} EventCoherent(s: Site, poolName: string, e: Event)
    requires Coherent(s.world, poolName) && Allowed(s, poolName, e)
    ensures Coherent(NextSite(s, poolName, e).world, poolName)
  {
    match e
    case Handled(h, time) => ActCoherent(s.world, poolName, Handle(h));
    case Polled(pid, busUp, now) => PassCoherent(s.world, poolName);
  }

  /** Whatever the times and the bus were before: a poll that finds the server, the bus and a list
      newer than the local copy leaves exactly the configured paths enabled below the root. */
  lemma {:induction false} DuePollReconciles(s: Site, poolName: string, events: seq<Event>, pid: int, now: int)
    requires Coherent(s.world, poolName) && Legal(s, poolName, events) && pid != -1
    requires var t := RunSite(s, poolName, events);
             t.listTime.Some? && (t.file.None? || t.listTime.value > t.mtime)
    ensures var t := NextSite(RunSite(s, poolName, events), poolName, Polled(pid, true, now));
            && t.file == Some(t.world.pool.list) && t.mtime == now
            && (set e | e in t.world.enabled && e.path != "/" :: e.path) == ConfiguredPaths(t.world.pool) - {"/"}
    decreases |events|
  {
    if events == [] {
      PassReconciles(s.world, poolName);
    } else {
      EventCoherent(s, poolName, events[0]);
      DuePollReconciles(NextSite(s, poolName, events[0]), poolName, events[1..], pid, now);
    }
  }

  /** A change of the list is met by the next poll exactly when it has a later time than the local copy,
      or left the configured paths as they were. */
  lemma ChangeMetExactlyWhen(s: Site, poolName: string, h: Handler, time: int, pid: int, now: int)
    requires InStep(s, poolName) && !Newer(s) && s.file.Some? && WritesList(h) && pid != -1
    requires Allowed(s, poolName, Handled(h, time))
    ensures var changed := NextSite(s, poolName, Handled(h, time));
            Reconciled(NextSite(changed, poolName, Polled(pid, true, now)).world)
            <==> time > s.mtime
                 || ConfiguredPaths(changed.world.pool) - {"/"} == ConfiguredPaths(s.world.pool) - {"/"}
  {
    ActCoherent(s.world, poolName, Handle(h));
    var changed := NextSite(s, poolName, Handled(h, time));
    HandlersLeaveTheHost(s, poolName, h, time);
    PassReconciles(changed.world, poolName);
  }

  lemma HandlersLeaveTheHost(s: Site, poolName: string, h: Handler, time: int)
    requires h.Create? ==> h.user.keys != []
    ensures var t := NextSite(s, poolName, Handled(h, time));
            t.world.enabled == s.world.enabled && t.file == s.file && t.mtime == s.mtime
            && t.listTime == (if WritesList(h) then Some(time) else s.listTime)
            && (!WritesList(h) ==> t.world.pool.list == s.world.pool.list)
  {
  }

  /** A poll that copies the list while the bus is down: the next poll finds the copy up to date, and the
      paths are the configured ones exactly when no unconfigured export was enabled. */
  lemma BusDownMetExactlyWhen(s: Site, poolName: string, pid: int, now: int, pid': int, now': int)
    requires Coherent(s.world, poolName) && Newer(s) && pid != -1 && now >= s.listTime.value
    ensures var down := NextSite(s, poolName, Polled(pid, false, now));
            Reconciled(NextSite(down, poolName, Polled(pid', true, now')).world)
            <==> forall e :: e in s.world.enabled && e.path != "/" ==> e.path in ConfiguredPaths(s.world.pool)
  {
    var w := s.world;
    ListedAreConfigured(w.pool, poolName, w.users);
    AddedPaths(w.enabled, ListedExports(w.pool, w.users), ConfiguredPaths(w.pool));
  }

  lemma AddedPaths(enabled: set<Export>, listed: set<Export>, configured: set<string>)
    requires AllConfigured(listed, configured) && configured <= AllPaths(listed)
    ensures (set e | e in enabled + listed && e.path != "/" :: e.path) == configured - {"/"}
            <==> forall e :: e in enabled && e.path != "/" ==> e.path in configured
  {
    var paths := set e | e in enabled + listed && e.path != "/" :: e.path;
    forall path | path in configured - {"/"} ensures path in paths {
      var e :| e in listed && e.path == path;
      assert e in enabled + listed;
    }
    assert forall e :: e in enabled && e.path != "/" ==> e in enabled + listed && e.path in paths;
  }
}

/** What every serial run of export handlers keeps, wherever the process stops. */
module ExportRuns {
  import opened Wrappers
  import opened Decimal
  import opened Counting
  import opened ExportList
  import opened ExportRegistry

  // ---------------------------------------------------------------- listed exports are complete

  lemma WriteThenAnnotate(p: Pool, uid: string, config: ExportConfig, displayName: string, id: int)
    requires displayName != "" && config.id == id
    ensures var oid := ObjectName(uid);
      var w := WriteFull(p, oid, config);
      var a := Annotate(w, oid, displayName, id);
      && OnlyTouches(p, w, oid) && OnlyTouches(p, a[0], oid) && OnlyTouches(p, a[1], oid)
      && (SmallId(id) ==> Complete(a[1], uid))
      && (Complete(p, uid) && ContentId(p, oid) == id ==> Complete(w, uid) && Complete(a[0], uid))
  {
  }

  lemma CreateStates(p: Pool, poolName: string, u: User, id: int, config: ExportConfig)
    requires u.keys != [] && u.maxBuckets != -1 && u.displayName != ""
    requires config == ExportConfig(id, u.displayName, u.userId, u.keys[0].accessKey, u.keys[0].secretKey)
    ensures var s := States(p, poolName, Create(u, id));
      var w := WriteFull(p, ObjectName(u.userId), config);
      var a := Annotate(w, ObjectName(u.userId), u.displayName, id);
      |s| == 4 && s[0] == w && s[1] == a[0] && s[2] == a[1]
      && s[3] == a[1].(list := AddLine(a[1].list, poolName, u.userId))
  {
  }

  lemma CreateKeepsListed(p: Pool, poolName: string, users: seq<string>, u: User, id: int, cut: nat)
    requires ListedComplete(p, poolName, users) && Callable(p, users, Create(u, id))
    requires cut <= |States(p, poolName, Create(u, id))|
    ensures ListedComplete(After(p, poolName, Create(u, id), cut), poolName, UsersAfter(users, Create(u, id), cut))
  {
    if u.maxBuckets != -1 && cut > 0 {
      var oid := ObjectName(u.userId);
      var config := ExportConfig(id, u.displayName, u.userId, u.keys[0].accessKey, u.keys[0].secretKey);
      if u.displayName == "" {
        TouchKeepsListed(p, WriteFull(p, oid, config), poolName, users, u.userId);
      } else {
        WriteThenAnnotate(p, u.userId, config, u.displayName, id);
        CreateStates(p, poolName, u, id, config);
        var q := States(p, poolName, Create(u, id))[if cut == 4 then 2 else cut - 1];
        TouchKeepsListed(p, q, poolName, users, u.userId);
        if cut == 4 { ListNew(q, poolName, users, u.userId); }
      }
    }
  }

  lemma ListNew(q: Pool, poolName: string, users: seq<string>, uid: string)
    requires ListedComplete(q, poolName, users) && Plain(uid) && uid !in users && Complete(q, uid)
    ensures ListedComplete(q.(list := AddLine(q.list, poolName, uid)), poolName, users + [uid])
  {
    AddRefines(q.list, poolName, users, uid);
  }

  lemma UpdateKeepsListed(p: Pool, poolName: string, users: seq<string>, u: User, cut: nat)
    requires ListedComplete(p, poolName, users) && cut <= |States(p, poolName, Update(u))|
    ensures ListedComplete(After(p, poolName, Update(u), cut), poolName, users)
  {
    if u.keys != [] && cut > 0 {
      var oid := ObjectName(u.userId);
      var id := LoadId(p, oid);
      var config := ExportConfig(id, u.displayName, u.keys[0].user, u.keys[0].accessKey, u.keys[0].secretKey);
      if u.displayName != "" { WriteThenAnnotate(p, u.userId, config, u.displayName, id); }
      var q := States(p, poolName, Update(u))[cut - 1];
      if u.userId in users {
        var k :| 0 <= k < |users| && users[k] == u.userId;
        assert Complete(p, users[k]);
        CompleteIdLoads(p, u.userId);
      }
      TouchKeepsListed(p, q, poolName, users, u.userId);
    }
  }

  lemma {:induction false} RemovedUsers(users: seq<string>, uid: string)
    requires NoRepeats(users)
    ensures NoRepeats(RemoveUser(users, uid)) && uid !in RemoveUser(users, uid)
    ensures forall u :: u in RemoveUser(users, uid) ==> u in users
  {
    if users != [] {
      var rest := users[1..];
      assert users == [users[0]] + rest;
      forall i, j | 0 <= i < j < |rest| ensures rest[i] != rest[j] {
        assert users[i + 1] != users[j + 1];
      }
      RemovedUsers(rest, uid);
      forall k | 0 <= k < |rest| ensures rest[k] != users[0] {
        assert users[0] != users[k + 1];
      }
      if users[0] != uid {
        var kept := RemoveUser(rest, uid);
        forall i, j | 0 <= i < j < |[users[0]] + kept| ensures ([users[0]] + kept)[i] != ([users[0]] + kept)[j] {
          assert kept[j - 1] in kept;
        }
      }
    }
  }

  lemma RemoveKeepsListed(p: Pool, poolName: string, users: seq<string>, uid: string, cut: nat)
    requires ListedComplete(p, poolName, users) && Plain(uid) && cut <= 2
    ensures ListedComplete(After(p, poolName, Remove(uid), cut), poolName, UsersAfter(users, Remove(uid), cut))
  {
    if cut > 0 {
      var left, q := RemoveUser(users, uid), After(p, poolName, Remove(uid), cut);
      RemoveStates(p, poolName, uid, cut);
      RemovedUsers(users, uid);
      RemovedText(p.list, poolName, users, uid);
      forall k | 0 <= k < |left| ensures Complete(q, left[k]) {
        assert left[k] in left;
        StillComplete(p, q, poolName, users, uid, left[k]);
      }
    }
  }

  lemma RemoveStates(p: Pool, poolName: string, uid: string, cut: nat)
    requires 1 <= cut <= 2
    ensures var q := After(p, poolName, Remove(uid), cut);
      q.list == RemoveLine(p.list, poolName, uid)
      && forall o :: o in p.objects && o != ObjectName(uid) ==> o in q.objects && q.objects[o] == p.objects[o]
  {
  }

  lemma {:induction false} RemovedText(text: string, poolName: string, users: seq<string>, uid: string)
    requires Plain(poolName) && Plain(uid) && AllPlain(users) && Shows(text, poolName, users)
    ensures Shows(RemoveLine(text, poolName, uid), poolName, RemoveUser(users, uid)) && AllPlain(RemoveUser(users, uid))
  {
    RemoveRefines(text, poolName, users, uid);
    RemovePlain(users, uid);
  }

  lemma StillComplete(p: Pool, q: Pool, poolName: string, users: seq<string>, uid: string, u: string)
    requires ListedComplete(p, poolName, users) && u in users && u != uid
    requires forall o :: o in p.objects && o != ObjectName(uid) ==> o in q.objects && q.objects[o] == p.objects[o]
    ensures Complete(q, u)
  {
    var m :| 0 <= m < |users| && users[m] == u;
    assert Complete(p, users[m]);
    NamesDiffer(u, uid);
  }

  // ---------------------------------------------------------------- ids stay distinct and in range

  /** Nothing this handler writes can spoil the ids. */
  ghost predicate SafeIds(p: Pool, h: Handler) {
    match h
    case Create(u, _) => u.maxBuckets == -1 || u.displayName == "" || |IdHolders(p)| < MAX_ID
    case Update(u) => u.keys == [] || u.displayName == "" || HasId(p, ObjectName(u.userId))
    case Remove(_) => true
  }

  ghost predicate IdsGoodThroughout(p: Pool, poolName: string, h: Handler)
    requires h.Create? ==> h.user.keys != []
  {
    forall k :: 0 <= k < |States(p, poolName, h)| ==> IdsGood(States(p, poolName, h)[k])
  }

  lemma WriteKeepsIds(p: Pool, oid: string, config: ExportConfig, displayName: string)
    requires IdsGood(p)
    ensures IdsGood(WriteFull(p, oid, config)) && UsedIds(WriteFull(p, oid, config)) == UsedIds(p)
    ensures IdsGood(SetXattr(WriteFull(p, oid, config), oid, PSEUDO, displayName))
    ensures UsedIds(SetXattr(WriteFull(p, oid, config), oid, PSEUDO, displayName)) == UsedIds(p)
  {
    var w := WriteFull(p, oid, config);
    var a := SetXattr(w, oid, PSEUDO, displayName);
    forall o ensures GetXattr(w, o, EXPORT_ID, BUFFER) == GetXattr(p, o, EXPORT_ID, BUFFER)
      && GetXattr(a, o, EXPORT_ID, BUFFER) == GetXattr(p, o, EXPORT_ID, BUFFER)
      && HasId(w, o) == HasId(p, o) && HasId(a, o) == HasId(p, o)
      && IdText(w, o) == IdText(p, o) && IdText(a, o) == IdText(p, o)
    {
    }
    SameIdsStayGood(p, w);
    SameIdsStayGood(p, a);
    SameUsed(p, w);
    SameUsed(p, a);
  }

  lemma SameUsed(p: Pool, q: Pool)
    requires forall o :: GetXattr(q, o, EXPORT_ID, BUFFER) == GetXattr(p, o, EXPORT_ID, BUFFER)
    ensures UsedIds(q) == UsedIds(p)
  {
  }

  /** The three object calls shared by create and update. */
  lemma StoringCalls(p: Pool, uid: string, config: ExportConfig, displayName: string, id: int)
    requires IdsGood(p) && displayName != ""
    requires Free(p, id) || id == -1 || (HasId(p, ObjectName(uid)) && IdText(p, ObjectName(uid)) == Itoa(id))
    ensures var w := WriteFull(p, ObjectName(uid), config);
      var a := Annotate(w, ObjectName(uid), displayName, id);
      IdsGood(w) && IdsGood(a[0]) && (IdsGood(a[1]) <==> id != -1)
  {
    var oid := ObjectName(uid);
    WriteKeepsIds(p, oid, config, displayName);
    var a := SetXattr(WriteFull(p, oid, config), oid, PSEUDO, displayName);
    assert PREFIX <= oid;
    StoreId(a, oid, id);
  }

  /** Over one handler, with every call counted, the stored ids stay in range and distinct exactly
      when the handler is no creation while exports hold all ids, and no update of a user who has no
      export. */
  lemma IdsExactly(p: Pool, poolName: string, users: seq<string>, h: Handler)
    requires IdsGood(p) && Callable(p, users, h)
    ensures IdsGoodThroughout(p, poolName, h) <==> SafeIds(p, h)
  {
    match h
    case Remove(uid) =>
      forall k | 0 <= k < |States(p, poolName, h)| ensures IdsGood(States(p, poolName, h)[k]) {
        SameIdsStayGood(p, States(p, poolName, h)[k]);
      }
    case Create(u, id) => CreateIds(p, poolName, users, u, id);
    case Update(u) => UpdateIds(p, poolName, u);
  }

  lemma CreateIds(p: Pool, poolName: string, users: seq<string>, u: User, id: int)
    requires IdsGood(p) && Callable(p, users, Create(u, id))
    ensures IdsGoodThroughout(p, poolName, Create(u, id)) <==> SafeIds(p, Create(u, id))
  {
    var states := States(p, poolName, Create(u, id));
    IdGiven(p, id);
    if u.maxBuckets != -1 {
      var oid := ObjectName(u.userId);
      var config := ExportConfig(id, u.displayName, u.userId, u.keys[0].accessKey, u.keys[0].secretKey);
      WriteKeepsIds(p, oid, config, u.displayName);
      if u.displayName == "" {
        assert states == [WriteFull(p, oid, config)];
      } else {
        StoringCalls(p, u.userId, config, u.displayName, id);
        CreateStates(p, poolName, u, id, config);
        if IdsGood(states[2]) { SameIdsStayGood(states[2], states[3]); }
        assert IdsGoodThroughout(p, poolName, Create(u, id)) ==> IdsGood(states[2]);
      }
    }
  }

  lemma UpdateIds(p: Pool, poolName: string, u: User)
    requires IdsGood(p)
    ensures IdsGoodThroughout(p, poolName, Update(u)) <==> SafeIds(p, Update(u))
  {
    var states := States(p, poolName, Update(u));
    if u.keys != [] {
      var oid := ObjectName(u.userId);
      var id := LoadId(p, oid);
      var config := ExportConfig(id, u.displayName, u.keys[0].user, u.keys[0].accessKey, u.keys[0].secretKey);
      var written := WriteFull(p, oid, config);
      WriteKeepsIds(p, oid, config, u.displayName);
      assert PREFIX <= oid;
      if u.displayName == "" {
        assert states == [written];
      } else {
        if HasId(p, oid) { StoredIdIsUsed(p, oid); }
        StoringCalls(p, u.userId, config, u.displayName, id);
        var annotated := Annotate(written, oid, u.displayName, id);
        assert states == [written, annotated[0], annotated[1]];
        assert IdsGoodThroughout(p, poolName, Update(u)) ==> IdsGood(states[2]);
      }
    }
  }

  /** An update keeps every id, and puts the export's own id into the rewritten content. */
  lemma UpdateKeepsIds(p: Pool, poolName: string, u: User, k: nat)
    requires IdsGood(p) && HasId(p, ObjectName(u.userId)) && k < |States(p, poolName, Update(u))|
    ensures var q := States(p, poolName, Update(u))[k];
      && (forall oid :: HasId(q, oid) == HasId(p, oid) && IdText(q, oid) == IdText(p, oid))
      && q.objects[ObjectName(u.userId)].content.Some?
      && Itoa(q.objects[ObjectName(u.userId)].content.value.id) == IdText(p, ObjectName(u.userId))
  {
    StoredIdIsUsed(p, ObjectName(u.userId));
  }

  // ---------------------------------------------------------------- exhaustion

  function Texts(n: nat): (r: set<string>)
    ensures forall i :: 1 <= i <= n ==> Itoa(i) in r
    ensures forall t :: t in r ==> exists i :: 1 <= i <= n && t == Itoa(i)
  {
    if n == 0 then {} else Texts(n - 1) + {Itoa(n)}
  }

  lemma {:induction false} TextsSize(n: nat)
    ensures |Texts(n)| == n
  {
    if n > 0 {
      TextsSize(n - 1);
      if Itoa(n) in Texts(n - 1) {
        var i :| 1 <= i <= n - 1 && Itoa(n) == Itoa(i);
        ItoaInjective(n, i);
      }
    }
  }

  function IdHolders(p: Pool): set<string> {
    set oid | oid in p.objects && PREFIX <= oid && EXPORT_ID in p.objects[oid].xattrs
  }

  function TextsOf(p: Pool, holders: set<string>): set<string> {
    set oid | oid in holders :: IdText(p, oid)
  }

  lemma {:induction false} DistinctTexts(p: Pool, holders: set<string>)
    requires IdsGood(p) && holders <= IdHolders(p)
    ensures |TextsOf(p, holders)| == |holders|
    decreases |holders|
  {
    if holders != {} {
      var oid :| oid in holders;
      var rest := holders - {oid};
      DistinctTexts(p, rest);
      assert HasId(p, oid);
      forall o | o in rest ensures IdText(p, o) != IdText(p, oid) {
        assert HasId(p, o);
      }
      assert TextsOf(p, holders) == TextsOf(p, rest) + {IdText(p, oid)};
    } else {
      assert TextsOf(p, holders) == {};
    }
  }

  /** With good ids, a creation finds no id exactly when all 65535 of them are held. */
  lemma ExhaustedExactly(p: Pool)
    requires IdsGood(p)
    ensures Generated(p, -1) <==> |IdHolders(p)| == MAX_ID
    ensures |IdHolders(p)| <= MAX_ID
  {
    ExhaustedUpTo(p, MAX_ID);
  }

  lemma ExhaustedUpTo(p: Pool, n: nat)
    requires IdsGood(p) && n == MAX_ID
    ensures Generated(p, -1) <==> |IdHolders(p)| == n
    ensures |IdHolders(p)| <= n
  {
    var held, all := TextsOf(p, IdHolders(p)), Texts(n);
    DistinctTexts(p, IdHolders(p));
    TextsSize(n);
    HeldTexts(p, n);
    SubsetSize(held, all);
    if Generated(p, -1) {
      AllHeld(p, n);
      SubsetSize(all, held);
    }
    if |held| == |all| {
      FullSubset(held, all);
      NoneFree(p, n);
    }
  }

  lemma {:induction false} HeldTexts(p: Pool, n: nat)
    requires IdsGood(p) && n == MAX_ID
    ensures TextsOf(p, IdHolders(p)) <= Texts(n) && TextsOf(p, IdHolders(p)) <= UsedIds(p)
  {
    forall t | t in TextsOf(p, IdHolders(p)) ensures t in Texts(n) && t in UsedIds(p) {
      var oid :| oid in IdHolders(p) && t == IdText(p, oid);
      assert HasId(p, oid);
      StoredIdIsUsed(p, oid);
    }
  }

  lemma {:induction false} AllHeld(p: Pool, n: nat)
    requires Generated(p, -1) && n == MAX_ID
    ensures Texts(n) <= TextsOf(p, IdHolders(p))
  {
    forall t | t in Texts(n) ensures t in TextsOf(p, IdHolders(p)) {
      var i :| 1 <= i <= n && t == Itoa(i);
      assert !Free(p, i);
      UsedIsHeld(p, t);
    }
  }

  lemma NoneFree(p: Pool, n: nat)
    requires n == MAX_ID && Texts(n) == TextsOf(p, IdHolders(p)) && TextsOf(p, IdHolders(p)) <= UsedIds(p)
    ensures Generated(p, -1)
  {
    forall i | 1 <= i <= MAX_ID ensures !Free(p, i) {
      assert Itoa(i) in Texts(n);
    }
  }

  lemma UsedIsHeld(p: Pool, t: string)
    requires t in UsedIds(p)
    ensures t in TextsOf(p, IdHolders(p))
  {
    var oid :| oid in p.objects && PREFIX <= oid && GetXattr(p, oid, EXPORT_ID, BUFFER) == Some(t);
    assert oid in IdHolders(p) && IdText(p, oid) == t;
  }

  lemma FullSubset(a: set<string>, b: set<string>)
    requires a <= b && |a| == |b|
    ensures a == b
  {
    assert b == a + (b - a);
    assert |b - a| == 0;
  }

  /** A creation gets a real id exactly when not all ids are held. */
  lemma IdGiven(p: Pool, id: int)
    requires IdsGood(p) && Generated(p, id)
    ensures id != -1 <==> |IdHolders(p)| < MAX_ID
  {
    ExhaustedExactly(p);
    assert Free(p, id) ==> !Generated(p, -1);
  }

  // ---------------------------------------------------------------- serial runs

  /** A handler and the number of its writing calls that happen before the process stops. */
  datatype Event = Event(handler: Handler, cut: nat)

  ghost predicate Legal(p: Pool, poolName: string, users: seq<string>, events: seq<Event>)
    decreases |events|
  {
    events == [] ||
    (var (h, cut) := (events[0].handler, events[0].cut);
     && Callable(p, users, h) && cut <= |States(p, poolName, h)|
     && Legal(After(p, poolName, h, cut), poolName, UsersAfter(users, h, cut), events[1..]))
  }

  ghost function RunPool(p: Pool, poolName: string, users: seq<string>, events: seq<Event>): Pool
    requires Legal(p, poolName, users, events)
    decreases |events|
  {
    if events == [] then p
    else
      var (h, cut) := (events[0].handler, events[0].cut);
      RunPool(After(p, poolName, h, cut), poolName, UsersAfter(users, h, cut), events[1..])
  }

  ghost function RunUsers(users: seq<string>, events: seq<Event>): seq<string>
    decreases |events|
  {
    if events == [] then users else RunUsers(UsersAfter(users, events[0].handler, events[0].cut), events[1..])
  }

  lemma HandlerKeepsListed(p: Pool, poolName: string, users: seq<string>, h: Handler, cut: nat)
    requires ListedComplete(p, poolName, users) && Callable(p, users, h) && cut <= |States(p, poolName, h)|
    ensures ListedComplete(After(p, poolName, h, cut), poolName, UsersAfter(users, h, cut))
  {
    match h
    case Create(u, id) => CreateKeepsListed(p, poolName, users, u, id, cut);
    case Update(u) => UpdateKeepsListed(p, poolName, users, u, cut);
    case Remove(uid) => RemoveKeepsListed(p, poolName, users, uid, cut);
  }

  /** After every single call of every serial run, with the process stopping anywhere: the list is
      the text of the exported users, and each of them has its complete object. */
  lemma {:induction false} StopAnywhere(p: Pool, poolName: string, users: seq<string>, events: seq<Event>)
    requires ListedComplete(p, poolName, users) && Legal(p, poolName, users, events)
    ensures ListedComplete(RunPool(p, poolName, users, events), poolName, RunUsers(users, events))
    decreases |events|
  {
    if events != [] {
      var h, cut := events[0].handler, events[0].cut;
      HandlerKeepsListed(p, poolName, users, h, cut);
      StopAnywhere(After(p, poolName, h, cut), poolName, UsersAfter(users, h, cut), events[1..]);
    }
  }

  ghost predicate NeverExhausts(p: Pool, poolName: string, users: seq<string>, events: seq<Event>)
    requires Legal(p, poolName, users, events)
    decreases |events|
  {
    events == [] ||
    (SafeIds(p, events[0].handler) &&
     NeverExhausts(After(p, poolName, events[0].handler, events[0].cut), poolName,
                   UsersAfter(users, events[0].handler, events[0].cut), events[1..]))
  }

  /** Over every serial run that never runs out of ids and updates only exported users, all stored
      ids are in range and pairwise distinct at every point. */
  lemma {:induction false} IdsStayGood(p: Pool, poolName: string, users: seq<string>, events: seq<Event>)
    requires IdsGood(p) && Legal(p, poolName, users, events) && NeverExhausts(p, poolName, users, events)
    ensures IdsGood(RunPool(p, poolName, users, events))
    decreases |events|
  {
    if events != [] {
      var h, cut := events[0].handler, events[0].cut;
      IdsExactly(p, poolName, users, h);
      var q := After(p, poolName, h, cut);
      assert IdsGood(q) by {
        if cut > 0 { assert q == States(p, poolName, h)[cut - 1]; }
      }
      IdsStayGood(q, poolName, UsersAfter(users, h, cut), events[1..]);
    }
  }

  /** At every point of such a run, the ids that the NFS server reads in the contents of the listed
      exports are in range and pairwise distinct. */
  lemma ServedIdsDiffer(p: Pool, poolName: string, users: seq<string>, events: seq<Event>)
    requires ListedComplete(p, poolName, users) && IdsGood(p)
    requires Legal(p, poolName, users, events) && NeverExhausts(p, poolName, users, events)
    ensures var q, listed := RunPool(p, poolName, users, events), RunUsers(users, events);
            && (forall k :: 0 <= k < |listed| ==> 1 <= ContentId(q, ObjectName(listed[k])) <= MAX_ID)
            && (forall i, j :: 0 <= i < j < |listed| ==>
                  ContentId(q, ObjectName(listed[i])) != ContentId(q, ObjectName(listed[j])))
  {
    StopAnywhere(p, poolName, users, events);
    IdsStayGood(p, poolName, users, events);
    ListedIdsDiffer(RunPool(p, poolName, users, events), poolName, RunUsers(users, events));
  }
}

/**
  The registry of NFS exports: one object per exported user and the export list, changed by handlers
  that create, update and remove exports.

  A handler is the sequence of states it leaves behind, one per call that writes.  The process may
  stop between any two calls; the next handler then starts from the state that was reached.
 */
module ExportRegistry {
  import opened Wrappers
  import opened Decimal
  import opened ExportList

  /** What the template is filled with. */
  datatype ExportConfig = ExportConfig(id: int, displayName: string, user: string, accessKey: string, secretKey: string)

  datatype RadosObject = RadosObject(content: Option<ExportConfig>, xattrs: map<string, string>)

  /** The list object and all other objects of the pool. */
  datatype Pool = Pool(list: string, objects: map<string, RadosObject>)

  datatype Key = Key(user: string, accessKey: string, secretKey: string)

  datatype User = User(userId: string, displayName: string, maxBuckets: int, keys: seq<Key>)

  const PREFIX := "export_"
  const EXPORT_ID := "export_id"
  const PSEUDO := "pseudo"
  const MAX_ID: nat := 65535
  const BUFFER := 100

  // ---------------------------------------------------------------- calls on the object store

  function ObjectAt(p: Pool, oid: string): RadosObject {
    if oid in p.objects then p.objects[oid] else RadosObject(None, map[])
  }

  /** Writes the content and keeps the attributes; creates the object if there is none. */
  function WriteFull(p: Pool, oid: string, config: ExportConfig): Pool {
    p.(objects := p.objects[oid := ObjectAt(p, oid).(content := Some(config))])
  }

  function SetXattr(p: Pool, oid: string, name: string, value: string): Pool {
    var o := ObjectAt(p, oid);
    p.(objects := p.objects[oid := o.(xattrs := o.xattrs[name := value])])
  }

  function Delete(p: Pool, oid: string): Pool {
    p.(objects := p.objects - {oid})
  }

  /** GetXattr into a buffer: an attribute that is missing or too long is an error. */
  function GetXattr(p: Pool, oid: string, name: string, buffer: nat): Option<string> {
    if oid in p.objects && name in p.objects[oid].xattrs && |p.objects[oid].xattrs[name]| <= buffer
    then Some(p.objects[oid].xattrs[name]) else None
  }

  // ---------------------------------------------------------------- export ids

  /** The ids generateExportId finds in use, as text. */
  function UsedIds(p: Pool): set<string> {
    set oid | oid in p.objects && PREFIX <= oid && GetXattr(p, oid, EXPORT_ID, BUFFER).Some?
      :: GetXattr(p, oid, EXPORT_ID, BUFFER).value
  }

  ghost predicate Free(p: Pool, id: int) {
    1 <= id <= MAX_ID && Itoa(id) !in UsedIds(p)
  }

  /** What generateExportId may return; the order in which a map is ranged over decides. */
  ghost predicate Generated(p: Pool, id: int) {
    Free(p, id) || (id == -1 && forall i :: 1 <= i <= MAX_ID ==> !Free(p, i))
  }

  /** loadExportId reads into a buffer of ten bytes. */
  function LoadId(p: Pool, oid: string): int {
    match GetXattr(p, oid, EXPORT_ID, 10)
    case None => -1
    case Some(text) => match Atoi(text) case None => -1 case Some(id) => id
  }

  // ---------------------------------------------------------------- handlers

  datatype Handler =
    | Create(user: User, id: int)
    | Update(user: User)
    | Remove(uid: string)

  /** The attribute calls shared by create and update.  An empty display name makes the first of
      them panic, which ends the handler there. */
  function Annotate(p: Pool, oid: string, displayName: string, id: int): seq<Pool> {
    if displayName == "" then []
    else
      var q := SetXattr(p, oid, PSEUDO, displayName);
      [q, SetXattr(q, oid, EXPORT_ID, Itoa(id))]
  }

  /** The states after each writing call of a handler. */
  function States(p: Pool, poolName: string, h: Handler): seq<Pool>
    requires h.Create? ==> h.user.keys != []
  {
    match h
    case Create(u, id) =>
      if u.maxBuckets == -1 then []
      else
        var oid := ObjectName(u.userId);
        var config := ExportConfig(id, u.displayName, u.userId, u.keys[0].accessKey, u.keys[0].secretKey);
        var written := WriteFull(p, oid, config);
        var annotated := Annotate(written, oid, u.displayName, id);
        [written] + annotated + if annotated == [] then [] else
          [annotated[1].(list := AddLine(annotated[1].list, poolName, u.userId))]
    case Update(u) =>
      if u.keys == [] then []
      else
        var oid := ObjectName(u.userId);
        var id := LoadId(p, oid);
        var config := ExportConfig(id, u.displayName, u.keys[0].user, u.keys[0].accessKey, u.keys[0].secretKey);
        var written := WriteFull(p, oid, config);
        [written] + Annotate(written, oid, u.displayName, id)
    case Remove(uid) =>
      var unlisted := p.(list := RemoveLine(p.list, poolName, uid));
      [unlisted, Delete(unlisted, ObjectName(uid))]
  }

  /** The state when the handler stops after its first `cut` writing calls. */
  function After(p: Pool, poolName: string, h: Handler, cut: nat): Pool
    requires h.Create? ==> h.user.keys != []
    requires cut <= |States(p, poolName, h)|
  {
    if cut == 0 then p else States(p, poolName, h)[cut - 1]
  }

  /** The state when the handler runs to its end. */
  function Finished(p: Pool, poolName: string, h: Handler): Pool
    requires h.Create? ==> h.user.keys != []
  {
    After(p, poolName, h, |States(p, poolName, h)|)
  }

  /** The listed users at that point. */
  function UsersAfter(users: seq<string>, h: Handler, cut: nat): seq<string> {
    match h
    case Create(u, _) => if cut == 4 then users + [u.userId] else users
    case Update(_) => users
    case Remove(uid) => if cut == 0 then users else RemoveUser(users, uid)
  }

  // ---------------------------------------------------------------- what finished handlers leave

  /** A creation writes the user's own data under the new id and appends one line to the list; without a
      display name it leaves the object alone, unlisted and not annotated. */
  lemma CreateFinishes(p: Pool, poolName: string, u: User, id: int)
    requires u.keys != []
    ensures u.maxBuckets == -1 ==> Finished(p, poolName, Create(u, id)) == p
    ensures u.maxBuckets != -1 ==>
      var oid, q := "export_" + u.userId, Finished(p, poolName, Create(u, id));
      var had := if oid in p.objects then p.objects[oid].xattrs else map[];
      var content := ExportConfig(id := id, displayName := u.displayName, user := u.userId,
                                  accessKey := u.keys[0].accessKey, secretKey := u.keys[0].secretKey);
      if u.displayName == "" then
        q == Pool(p.list, p.objects[oid := RadosObject(Some(content), had)])
      else
        q == Pool(p.list + "%url \"rados://" + poolName + "/" + oid + "\"\n",
                  p.objects[oid := RadosObject(Some(content),
                                               had["pseudo" := u.displayName]["export_id" := Itoa(id)])])
  {
  }

  /** An update writes the data of the first key under the id in the attribute, and leaves the list. */
  lemma UpdateFinishes(p: Pool, poolName: string, u: User)
    ensures u.keys == [] ==> Finished(p, poolName, Update(u)) == p
    ensures u.keys != [] ==>
      var oid, q := "export_" + u.userId, Finished(p, poolName, Update(u));
      var had := if oid in p.objects then p.objects[oid].xattrs else map[];
      var id := if "export_id" in had && |had["export_id"]| <= 10 && Atoi(had["export_id"]).Some?
                then Atoi(had["export_id"]).value else -1;
      var content := ExportConfig(id := id, displayName := u.displayName, user := u.keys[0].user,
                                  accessKey := u.keys[0].accessKey, secretKey := u.keys[0].secretKey);
      var attributes := if u.displayName == "" then had
                        else had["pseudo" := u.displayName]["export_id" := Itoa(id)];
      q == Pool(p.list, p.objects[oid := RadosObject(Some(content), attributes)])
  {
  }

  // ---------------------------------------------------------------- what every state satisfies

  /** The object of an export is complete, and the id the NFS server reads in its content is the one
      in its attribute. */
  ghost predicate Complete(p: Pool, uid: string) {
    var oid := ObjectName(uid);
    && oid in p.objects && p.objects[oid].content.Some?
    && PSEUDO in p.objects[oid].xattrs && EXPORT_ID in p.objects[oid].xattrs
    && SmallId(ContentId(p, oid)) && IdText(p, oid) == Itoa(ContentId(p, oid))
  }

  function ContentId(p: Pool, oid: string): int {
    if oid in p.objects && p.objects[oid].content.Some? then p.objects[oid].content.value.id else -1
  }

  predicate SmallId(id: int) {
    -1 <= id <= MAX_ID
  }

  ghost predicate NoRepeats(users: seq<string>) {
    forall i, j :: 0 <= i < j < |users| ==> users[i] != users[j]
  }

  /** The list shows these users, each once, and each listed export has its complete object. */
  ghost predicate ListedComplete(p: Pool, poolName: string, users: seq<string>) {
    && Plain(poolName) && AllPlain(users) && Shows(p.list, poolName, users) && NoRepeats(users)
    && forall k :: 0 <= k < |users| ==> Complete(p, users[k])
  }

  ghost predicate HasId(p: Pool, oid: string) {
    oid in p.objects && PREFIX <= oid && EXPORT_ID in p.objects[oid].xattrs
  }

  function IdText(p: Pool, oid: string): string {
    if oid in p.objects && EXPORT_ID in p.objects[oid].xattrs then p.objects[oid].xattrs[EXPORT_ID] else ""
  }

  ghost predicate IdInRange(text: string) {
    exists id :: 1 <= id <= MAX_ID && text == Itoa(id)
  }

  /** All stored ids are in range and pairwise different. */
  ghost predicate IdsGood(p: Pool) {
    && (forall oid :: HasId(p, oid) ==> IdInRange(IdText(p, oid)))
    && (forall a, b :: HasId(p, a) && HasId(p, b) && a != b ==> IdText(p, a) != IdText(p, b))
  }

  /** What a handler may be called with: a user is created only when not already exported. */
  ghost predicate Callable(p: Pool, users: seq<string>, h: Handler) {
    match h
    case Create(u, id) => u.keys != [] && Plain(u.userId) && u.userId !in users && Generated(p, id)
    case Update(u) => true
    case Remove(uid) => Plain(uid)
  }

  // ---------------------------------------------------------------- ids in use

  lemma DigitsShort(id: nat)
    requires id <= MAX_ID
    ensures |Itoa(id)| <= 5
  {
    assert Power10(5) == 10 * Power10(4) && Power10(4) == 10 * Power10(3) && Power10(3) == 10 * Power10(2);
    assert Power10(2) == 100;
    DigitsLength(id, 5);
  }

  /** With good ids, every stored id is seen as used, and is read back as the number it is. */
  lemma StoredIdIsUsed(p: Pool, oid: string)
    requires HasId(p, oid) && IdInRange(IdText(p, oid))
    ensures IdText(p, oid) in UsedIds(p)
    ensures Itoa(LoadId(p, oid)) == IdText(p, oid) && 1 <= LoadId(p, oid) <= MAX_ID
  {
    var id :| 1 <= id <= MAX_ID && IdText(p, oid) == Itoa(id);
    DigitsShort(id);
    AtoiItoa(id);
    assert GetXattr(p, oid, EXPORT_ID, BUFFER) == Some(IdText(p, oid));
  }

  /** The id of a complete export is read back from its attribute. */
  lemma CompleteIdLoads(p: Pool, uid: string)
    requires Complete(p, uid)
    ensures LoadId(p, ObjectName(uid)) == ContentId(p, ObjectName(uid))
  {
    var id := ContentId(p, ObjectName(uid));
    AtoiItoa(id);
    if id >= 0 { DigitsShort(id); } else { assert Itoa(-1) == "-1"; }
  }

  /** Listed exports whose ids are good have pairwise different ids in range in their contents. */
  lemma ListedIdsDiffer(p: Pool, poolName: string, users: seq<string>)
    requires ListedComplete(p, poolName, users) && IdsGood(p)
    ensures forall k :: 0 <= k < |users| ==> 1 <= ContentId(p, ObjectName(users[k])) <= MAX_ID
    ensures forall i, j :: 0 <= i < j < |users| ==>
              ContentId(p, ObjectName(users[i])) != ContentId(p, ObjectName(users[j]))
  {
    forall k | 0 <= k < |users| ensures 1 <= ContentId(p, ObjectName(users[k])) <= MAX_ID {
      ListedId(p, users[k]);
    }
    forall i, j | 0 <= i < j < |users|
      ensures ContentId(p, ObjectName(users[i])) != ContentId(p, ObjectName(users[j]))
    {
      ListedId(p, users[i]);
      ListedId(p, users[j]);
      NamesDiffer(users[i], users[j]);
    }
  }

  lemma ListedId(p: Pool, uid: string)
    requires Complete(p, uid) && IdsGood(p)
    ensures HasId(p, ObjectName(uid)) && IdText(p, ObjectName(uid)) == Itoa(ContentId(p, ObjectName(uid)))
    ensures 1 <= ContentId(p, ObjectName(uid)) <= MAX_ID
  {
    assert PREFIX <= ObjectName(uid);
    StoredIdIsUsed(p, ObjectName(uid));
    CompleteIdLoads(p, uid);
  }

  lemma MinusOneOutOfRange()
    ensures !IdInRange(Itoa(-1))
  {
    forall id | 1 <= id <= MAX_ID ensures Itoa(id) != Itoa(-1) {
      AtoiItoa(id);
      AtoiItoa(-1);
    }
  }

  // ---------------------------------------------------------------- single calls

  /** Writing an object's content or attributes leaves every other object and the list alone. */
  ghost predicate OnlyTouches(p: Pool, q: Pool, oid: string) {
    && q.list == p.list && q.objects.Keys == p.objects.Keys + {oid}
    && forall o :: o in p.objects && o != oid ==> q.objects[o] == p.objects[o]
  }

  lemma NamesDiffer(a: string, b: string)
    requires a != b
    ensures ObjectName(a) != ObjectName(b)
  {
    assert ObjectName(a)[7..] == a && ObjectName(b)[7..] == b;
  }

  /** Completing or rewriting an object keeps listed exports complete. */
  lemma TouchKeepsListed(p: Pool, q: Pool, poolName: string, users: seq<string>, uid: string)
    requires ListedComplete(p, poolName, users) && OnlyTouches(p, q, ObjectName(uid))
    requires uid in users ==> Complete(q, uid)
    ensures ListedComplete(q, poolName, users)
  {
    forall k | 0 <= k < |users| ensures Complete(q, users[k]) {
      assert Complete(p, users[k]);
      if users[k] != uid { NamesDiffer(users[k], uid); }
    }
  }

  /** As long as the id attributes stay the same, the ids stay good. */
  lemma SameIdsStayGood(p: Pool, q: Pool)
    requires IdsGood(p)
    requires forall oid :: HasId(q, oid) ==> HasId(p, oid) && IdText(q, oid) == IdText(p, oid)
    ensures IdsGood(q)
  {
  }

  /** Storing an id under an object: good exactly when the id is in range and new or unchanged. */
  lemma StoreId(p: Pool, oid: string, id: int)
    requires IdsGood(p) && PREFIX <= oid
    requires Free(p, id) || id == -1 || (HasId(p, oid) && IdText(p, oid) == Itoa(id))
    ensures IdsGood(SetXattr(p, oid, EXPORT_ID, Itoa(id))) <==> id != -1
  {
    var q := SetXattr(p, oid, EXPORT_ID, Itoa(id));
    assert HasId(q, oid) && IdText(q, oid) == Itoa(id);
    forall o | o != oid ensures HasId(q, o) == HasId(p, o) && IdText(q, o) == IdText(p, o) {
    }
    MinusOneOutOfRange();
    if id != -1 {
      if Free(p, id) {
        forall o | HasId(p, o) ensures IdText(p, o) != Itoa(id) {
          StoredIdIsUsed(p, o);
        }
        assert IdInRange(Itoa(id));
      }
    }
  }
}

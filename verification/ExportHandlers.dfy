/** The export handlers as they run against the object store. */
module ExportHandlers {
  import opened Wrappers
  import opened Decimal
  import opened ExportList
  import opened ExportRegistry

  /** A connection to the pool.  `history` records the state after every call that writes. */
  class Rados {
    var pool: Pool
    ghost var history: seq<Pool>

    method WriteFull(oid: string, config: ExportConfig)
      modifies this
      ensures pool == ExportRegistry.WriteFull(old(pool), oid, config) && history == old(history) + [pool]
    {
      var o := if oid in pool.objects then pool.objects[oid] else RadosObject(None, map[]);
      pool := pool.(objects := pool.objects[oid := o.(content := Some(config))]);
      history := history + [pool];
    }

    method SetXattr(oid: string, name: string, value: string)
      requires value != ""
      modifies this
      ensures pool == ExportRegistry.SetXattr(old(pool), oid, name, value) && history == old(history) + [pool]
    {
      var o := if oid in pool.objects then pool.objects[oid] else RadosObject(None, map[]);
      pool := pool.(objects := pool.objects[oid := o.(xattrs := o.xattrs[name := value])]);
      history := history + [pool];
    }

    method WriteList(text: string)
      requires text != ""
      modifies this
      ensures pool == old(pool).(list := text) && history == old(history) + [pool]
    {
      pool := pool.(list := text);
      history := history + [pool];
    }

    method Delete(oid: string)
      modifies this
      ensures pool == ExportRegistry.Delete(old(pool), oid) && history == old(history) + [pool]
    {
      pool := pool.(objects := pool.objects - {oid});
      history := history + [pool];
    }

    /** Fills a map with all ids, deletes those in use, and returns any that is left. */
    method GenerateExportId() returns (id: int)
      ensures Generated(pool, id)
      ensures id == -1 || (1 <= id <= 65535 && !Taken(pool, Itoa(id)))
      ensures id == -1 ==> forall i :: 1 <= i <= 65535 ==> Taken(pool, Itoa(i))
    {
      var avail := AllIds();
      avail := DropUsed(pool, avail);
      if avail == map[] {
        id := -1;
        forall i | 1 <= i <= MAX_ID ensures !Free(pool, i) {
          assert Itoa(i) !in avail;
        }
      } else {
        var text :| text in avail;
        ghost var i :| 1 <= i <= MAX_ID && text == Itoa(i);
        AtoiItoa(i);
        id := Atoi(text).value;
      }
      TakenIsUsed(pool);
    }

    /** addNfsExport: create the export's object, then list it. */
    method AddNfsExport(u: User, poolName: string) returns (ghost id: int)
      requires u.keys != []
      modifies this
      ensures u.maxBuckets != -1 ==> Generated(old(pool), id)
      ensures history == old(history) + States(old(pool), poolName, Create(u, id))
      ensures pool == Finished(old(pool), poolName, Create(u, id))
    {
      id := -1;
      if u.maxBuckets == -1 {
        return;
      }
      var exportId := GenerateExportId();
      id := exportId;
      var oid := ObjectName(u.userId);
      WriteFull(oid, ExportConfig(exportId, u.displayName, u.userId, u.keys[0].accessKey, u.keys[0].secretKey));
      if u.displayName == "" {
        return; // the client takes the address of the first byte of the value and panics
      }
      SetXattr(oid, PSEUDO, u.displayName);
      SetXattr(oid, EXPORT_ID, Itoa(exportId));
      WriteList(pool.list + Line(poolName, u.userId));
    }

    /** updateNfsExport: rewrite the export's object under the id it has. */
    method UpdateNfsExport(u: User, poolName: string)
      modifies this
      ensures history == old(history) + States(old(pool), poolName, Update(u))
      ensures pool == Finished(old(pool), poolName, Update(u))
    {
      if |u.keys| <= 0 {
        return;
      }
      var oid := ObjectName(u.userId);
      var exportId := -1;
      var data := GetXattr(pool, oid, EXPORT_ID, 10);
      if data.Some? {
        var parsed := Atoi(data.value);
        if parsed.Some? {
          exportId := parsed.value;
        }
      }
      WriteFull(oid, ExportConfig(exportId, u.displayName, u.keys[0].user, u.keys[0].accessKey, u.keys[0].secretKey));
      if u.displayName == "" {
        return;
      }
      SetXattr(oid, PSEUDO, u.displayName);
      SetXattr(oid, EXPORT_ID, Itoa(exportId));
    }

    /** removeNfsExport: take the user off the list, then delete the export's object. */
    method RemoveNfsExport(uid: string, poolName: string)
      modifies this
      ensures history == old(history) + States(old(pool), poolName, Remove(uid))
      ensures pool == Finished(old(pool), poolName, Remove(uid))
      ensures pool.objects == old(pool).objects - {"export_" + uid}
    {
      var s := Text.RemoveFirst(pool.list, Line(poolName, uid));
      if |s| == 0 {
        s := "\n";
      }
      WriteList(s);
      Delete(ObjectName(uid));
    }
  }

  /** Some export object has this id attribute. */
  ghost predicate Taken(p: Pool, text: string) {
    exists oid :: oid in p.objects && "export_" <= oid && "export_id" in p.objects[oid].xattrs
      && |text| <= 100 && p.objects[oid].xattrs["export_id"] == text
  }

  lemma TakenIsUsed(p: Pool)
    ensures forall text :: Taken(p, text) <==> text in UsedIds(p)
  {
  }

  /** The first loop of generateExportId. */
  method AllIds() returns (avail: map<string, bool>)
    ensures forall i :: 1 <= i <= MAX_ID ==> Itoa(i) in avail
    ensures forall t :: t in avail ==> exists i :: 1 <= i <= MAX_ID && t == Itoa(i)
  {
    avail := map[];
    var k := 1;
    while k <= MAX_ID
      invariant 1 <= k <= MAX_ID + 1
      invariant forall i :: 1 <= i < k ==> Itoa(i) in avail
      invariant forall t :: t in avail ==> exists i :: 1 <= i < k && t == Itoa(i)
    {
      avail := avail[Itoa(k) := true];
      k := k + 1;
    }
  }

  /** The callback of ListObjects, over all objects in any order. */
  method DropUsed(pool: Pool, all: map<string, bool>) returns (avail: map<string, bool>)
    ensures forall t :: t in avail <==> t in all && t !in UsedIds(pool)
  {
    avail := all;
    var remaining := pool.objects.Keys;
    while remaining != {}
      invariant remaining <= pool.objects.Keys
      invariant forall t :: t in avail <==> t in all && !SeenIn(pool, pool.objects.Keys - remaining, t)
      decreases |remaining|
    {
      var oid :| oid in remaining;
      ghost var seen := pool.objects.Keys - remaining;
      remaining := remaining - {oid};
      assert pool.objects.Keys - remaining == seen + {oid};
      ghost var before := avail;
      if PREFIX <= oid {
        var used := GetXattr(pool, oid, EXPORT_ID, BUFFER);
        if used.Some? {
          avail := avail - {used.value};
        }
      }
      forall t ensures t in avail <==> t in before && !SeenIn(pool, {oid}, t) {
      }
      forall t ensures SeenIn(pool, seen + {oid}, t) <==> SeenIn(pool, seen, t) || SeenIn(pool, {oid}, t) {
      }
    }
    assert pool.objects.Keys - {} == pool.objects.Keys;
    forall t ensures SeenIn(pool, pool.objects.Keys, t) <==> t in UsedIds(pool) {
      SeenIsUsed(pool, t);
    }
  }

  ghost predicate SeenIn(p: Pool, oids: set<string>, text: string) {
    exists oid :: oid in oids && PREFIX <= oid && GetXattr(p, oid, EXPORT_ID, BUFFER) == Some(text)
  }

  lemma SeenIsUsed(p: Pool, text: string)
    ensures SeenIn(p, p.objects.Keys, text) <==> text in UsedIds(p)
  {
  }
}

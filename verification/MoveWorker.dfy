/** The body of a goroutine's loop, run against a mutable object store. */
module MoveWorker {
  import opened Wrappers
  import opened MoveProtocol
  import opened MoveOutcome

  class ObjectStore {
    var objects: Store

    constructor (contents: Store)
      ensures objects == contents
    {
      objects := contents;
    }

    method CopyObject(job: CopyObject, fault: Option<S3Error>) returns (error: Option<S3Error>)
      modifies this
      ensures error == CopyError(old(objects), job, fault)
      ensures error.Some? ==> objects == old(objects)
      ensures error.None? ==>
        !SelfMove(job) && Source(job).Some? && Source(job).value in old(objects)
        && objects == old(objects)[Dest(job) := old(objects)[Source(job).value]]
    {
      if fault.Some? {
        return fault;
      }
      var source := Source(job);
      if source == Some(Dest(job)) {
        return Some(INVALID_REQUEST);
      }
      if source.None? || source.value !in objects {
        return Some(NO_SUCH_KEY);
      }
      objects := objects[Dest(job) := objects[source.value]];
      return None;
    }

    method DeleteObject(loc: Location, fault: Option<S3Error>) returns (error: Option<S3Error>)
      modifies this
      ensures error == fault
      ensures objects == if fault.Some? then old(objects) else old(objects) - {loc}
    {
      if fault.None? {
        objects := objects - {loc};
      }
      return fault;
    }

    /** One iteration: copy, delete the source, and roll the copy back when that delete fails. */
    method MoveOne(job: CopyObject, f: Faults) returns (result: MoveResult)
      modifies this
      ensures (objects, result) == RunJob(old(objects), job, f)
    {
      result := MoveResult(false, job.copySource, job.bucket + "/" + job.key, "", "");
      var error := CopyObject(job, f.copy);
      if error.Some? {
        result := result.(code := error.value.code, message := error.value.message);
        return;
      }
      var slash := SlashIndex(job.copySource).value;
      error := DeleteObject(Location(job.copySource[..slash], job.copySource[slash + 1..]), f.delete);
      if error.Some? {
        error := DeleteObject(Location(job.bucket, job.key), f.rollback);
        if error.Some? {
          result := result.(code := error.value.code, message := error.value.message);
        }
        return;
      }
      result := result.(success := true);
    }

    /** A single goroutine that works off the whole jobs channel. */
    method WorkOff(c: Setting) returns (results: seq<MoveResult>)
      requires c.Valid() && objects == c.original
      modifies this
      ensures objects == SequentialStore(c, |c.objects|)
      ensures results == SequentialResults(c)
    {
      results := [];
      for i := 0 to |c.objects|
        invariant objects == SequentialStore(c, i)
        invariant |results| == i && forall k :: 0 <= k < i ==> results[k] == SequentialResult(c, k)
      {
        var result := MoveOne(c.objects[i], c.faults[i]);
        results := results + [result];
      }
    }
  }
}

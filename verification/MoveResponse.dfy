/** The response MoveObjects builds from the results channel, over every run. */
module MoveResponse {
  import opened Wrappers
  import opened Counting
  import opened MoveProtocol
  import opened MoveOutcome

  datatype MoveObject = MoveObject(src: string, dest: string)

  datatype MoveError = MoveError(src: string, dest: string, code: string, message: string)

  datatype Response = Response(moved: seq<MoveObject>, error: seq<MoveError>)

  function Moved(results: seq<MoveResult>): seq<MoveObject> {
    if results == [] then []
    else
      var r := results[|results| - 1];
      Moved(results[..|results| - 1]) + if r.success then [MoveObject(r.src, r.dest)] else []
  }

  function Failed(results: seq<MoveResult>): seq<MoveError> {
    if results == [] then []
    else
      var r := results[|results| - 1];
      Failed(results[..|results| - 1]) + if r.success then [] else [MoveError(r.src, r.dest, r.code, r.message)]
  }

  /** The collecting loop of the handler: one entry per result, with the result's own texts. */
  method CollectResults(results: seq<MoveResult>) returns (response: Response)
    ensures response.moved == Moved(results) && response.error == Failed(results)
    ensures forall e ::
              multiset(response.moved)[e]
              == |set k | 0 <= k < |results| && results[k].success && results[k].src == e.src
                          && results[k].dest == e.dest|
    ensures forall e ::
              multiset(response.error)[e]
              == |set k | 0 <= k < |results| && !results[k].success && results[k].src == e.src
                          && results[k].dest == e.dest && results[k].code == e.code
                          && results[k].message == e.message|
    ensures multiset(MovedNames(response.moved)) + multiset(FailedNames(response.error)) == multiset(Names(results))
  {
    response := Response([], []);
    for i := 0 to |results|
      invariant response == Response(Moved(results[..i]), Failed(results[..i]))
    {
      var r := results[i];
      assert results[..i + 1][..i] == results[..i];
      if r.success {
        response := response.(moved := response.moved + [MoveObject(r.src, r.dest)]);
      } else {
        response := response.(error := response.error + [MoveError(r.src, r.dest, r.code, r.message)]);
      }
    }
    assert results[..|results|] == results;
    ResponsePartitions(results);
    forall e ensures multiset(response.moved)[e] == |MovedFor(results, e)| {
      MovedCounted(results, e);
    }
    forall e ensures multiset(response.error)[e] == |FailedFor(results, e)| {
      FailedCounted(results, e);
    }
  }

  // ---------------------------------------------------------------- each entry counted

  predicate IsMoved(r: MoveResult, e: MoveObject) {
    r.success && r.src == e.src && r.dest == e.dest
  }

  predicate IsFailed(r: MoveResult, e: MoveError) {
    !r.success && r.src == e.src && r.dest == e.dest && r.code == e.code && r.message == e.message
  }

  function MovedFor(results: seq<MoveResult>, e: MoveObject): set<int> {
    set k | 0 <= k < |results| && results[k].success && results[k].src == e.src && results[k].dest == e.dest
  }

  function FailedFor(results: seq<MoveResult>, e: MoveError): set<int> {
    set k | 0 <= k < |results| && !results[k].success && results[k].src == e.src && results[k].dest == e.dest
            && results[k].code == e.code && results[k].message == e.message
  }

  lemma MovedMore(rest: seq<MoveResult>, r: MoveResult, e: MoveObject)
    ensures |MovedFor(rest + [r], e)| == |MovedFor(rest, e)| + if IsMoved(r, e) then 1 else 0
  {
    var all, more := rest + [r], if IsMoved(r, e) then {|rest|} else {};
    assert forall k :: 0 <= k < |rest| ==> all[k] == rest[k];
    assert forall k :: k in MovedFor(all, e) <==> 0 <= k < |all| && IsMoved(all[k], e);
    assert MovedFor(all, e) == MovedFor(rest, e) + more;
  }

  lemma FailedMore(rest: seq<MoveResult>, r: MoveResult, e: MoveError)
    ensures |FailedFor(rest + [r], e)| == |FailedFor(rest, e)| + if IsFailed(r, e) then 1 else 0
  {
    var all, more := rest + [r], if IsFailed(r, e) then {|rest|} else {};
    assert forall k :: 0 <= k < |rest| ==> all[k] == rest[k];
    assert forall k :: k in FailedFor(all, e) <==> 0 <= k < |all| && IsFailed(all[k], e);
    assert FailedFor(all, e) == FailedFor(rest, e) + more;
  }

  lemma {:induction false} MovedCounted(results: seq<MoveResult>, e: MoveObject)
    ensures multiset(Moved(results))[e] == |MovedFor(results, e)|
  {
    if results != [] {
      var r, rest := results[|results| - 1], results[..|results| - 1];
      assert results == rest + [r];
      MovedCounted(rest, e);
      MovedMore(rest, r, e);
    }
  }

  lemma {:induction false} FailedCounted(results: seq<MoveResult>, e: MoveError)
    ensures multiset(Failed(results))[e] == |FailedFor(results, e)|
  {
    if results != [] {
      var r, rest := results[|results| - 1], results[..|results| - 1];
      assert results == rest + [r];
      FailedCounted(rest, e);
      FailedMore(rest, r, e);
    }
  }

  lemma EntryListed(results: seq<MoveResult>, r: MoveResult)
    requires r in results
    ensures r.success ==> MoveObject(r.src, r.dest) in Moved(results)
    ensures !r.success ==> MoveError(r.src, r.dest, r.code, r.message) in Failed(results)
  {
    var moved, failed := MoveObject(r.src, r.dest), MoveError(r.src, r.dest, r.code, r.message);
    MovedCounted(results, moved);
    FailedCounted(results, failed);
    var k: nat :| k < |results| && results[k] == r;
    assert r.success ==> k in MovedFor(results, moved);
    assert !r.success ==> k in FailedFor(results, failed);
  }

  /** What the response says of each job at the end of a run, by what S3 answered to it. */
  lemma ResponseTells(c: Setting, steps: seq<Step>, t: State, i: nat)
    requires c.Valid() && Distinct(c.objects) && i < |c.objects|
    requires Reaches(c, Init(c), steps, t) && Final(c, t)
    ensures var job, f := c.objects[i], c.faults[i];
      var src, dest, there := job.copySource, job.bucket + "/" + job.key, Source(job);
      var moved, error := Moved(Results(t.collected)), Failed(Results(t.collected));
      if f.copy.Some? then
        MoveError(src, dest, f.copy.value.code, f.copy.value.message) in error
      else if there == Some(Location(job.bucket, job.key)) then
        MoveError(src, dest, "InvalidRequest", "InvalidRequest") in error
      else if there.None? || there.value !in c.original then
        MoveError(src, dest, "NoSuchKey", "NoSuchKey") in error
      else if f.delete.None? then
        MoveObject(src, dest) in moved
      else if f.rollback.None? then
        MoveError(src, dest, "", "") in error
      else
        MoveError(src, dest, f.rollback.value.code, f.rollback.value.message) in error
  {
    RunsEqualSequential(c, steps, t);
    SequentialResultAlone(c, i);
    var r := SequentialResult(c, i);
    assert SequentialResults(c)[i] == r;
    assert r in multiset(SequentialResults(c));
    EntryListed(Results(t.collected), r);
  }

  // ---------------------------------------------------------------- each item exactly once

  function MovedNames(moved: seq<MoveObject>): seq<(string, string)> {
    seq(|moved|, k requires 0 <= k < |moved| => (moved[k].src, moved[k].dest))
  }

  function FailedNames(failed: seq<MoveError>): seq<(string, string)> {
    seq(|failed|, k requires 0 <= k < |failed| => (failed[k].src, failed[k].dest))
  }

  function Names(results: seq<MoveResult>): seq<(string, string)> {
    seq(|results|, k requires 0 <= k < |results| => (results[k].src, results[k].dest))
  }

  function Requested(c: Setting): seq<(string, string)> {
    seq(|c.objects|, i requires 0 <= i < |c.objects| =>
      (c.objects[i].copySource, c.objects[i].bucket + "/" + c.objects[i].key))
  }

  lemma {:induction false} ResponsePartitions(results: seq<MoveResult>)
    ensures multiset(MovedNames(Moved(results))) + multiset(FailedNames(Failed(results))) == multiset(Names(results))
  {
    if results != [] {
      var r, rest := results[|results| - 1], results[..|results| - 1];
      ResponsePartitions(rest);
      assert Names(results) == Names(rest) + [(r.src, r.dest)];
      NamesGrow(Moved(rest), MoveObject(r.src, r.dest), Failed(rest), MoveError(r.src, r.dest, r.code, r.message));
      assert Moved(rest) + [] == Moved(rest) && Failed(rest) + [] == Failed(rest);
    }
  }

  lemma NamesGrow(moved: seq<MoveObject>, m: MoveObject, failed: seq<MoveError>, f: MoveError)
    ensures MovedNames(moved + [m]) == MovedNames(moved) + [(m.src, m.dest)]
    ensures FailedNames(failed + [f]) == FailedNames(failed) + [(f.src, f.dest)]
  {
  }

  /** A result carries the names of the job that produced it. */
  ghost predicate Named(c: Setting, r: Report) {
    r.job < |c.objects| && (r.result.src, r.result.dest) == Requested(c)[r.job]
  }

  ghost predicate AllNamed(c: Setting, s: State) {
    && Conserved(c, s)
    && (forall k :: 0 <= k < |s.workers| && s.workers[k].Reporting? ==> Named(c, s.workers[k].report))
    && (forall k :: 0 <= k < |s.results| ==> Named(c, s.results[k]))
    && (forall k :: 0 <= k < |s.collected| ==> Named(c, s.collected[k]))
  }

  lemma {:induction false} StepKeepsNames(c: Setting, s: State, step: Step)
    requires AllNamed(c, s) && Enabled(c, s, step)
    ensures AllNamed(c, Next(c, s, step))
  {
    StepConserves(c, s, step);
    if step.Work? {
      assert Carries(s.workers[step.worker], |c.objects|);
    }
  }

  lemma {:induction false} RunsKeepNames(c: Setting, s: State, steps: seq<Step>, t: State)
    requires AllNamed(c, s) && Reaches(c, s, steps, t)
    ensures AllNamed(c, t)
    decreases |steps|
  {
    if steps != [] {
      StepKeepsNames(c, s, steps[0]);
      RunsKeepNames(c, Next(c, s, steps[0]), steps[1..], t);
    }
  }

  /** Whatever the schedule, the answers of S3 and the request, the response lists every requested
      item exactly once, under Moved or under Error. */
  lemma ResponseCoversRequest(c: Setting, steps: seq<Step>, t: State)
    requires c.Valid() && Reaches(c, Init(c), steps, t) && Final(c, t)
    ensures multiset(MovedNames(Moved(Results(t.collected)))) + multiset(FailedNames(Failed(Results(t.collected))))
      == multiset(Requested(c))
  {
    InitConserved(c);
    RunsKeepNames(c, Init(c), steps, t);
    var results := Results(t.collected);
    forall i: nat | i < |c.objects| ensures multiset(Ids(t.collected))[i] == 1 {
      CollectedAll(c, t, i);
    }
    PermutedValues(Ids(t.collected), Names(results), Requested(c));
    ResponsePartitions(results);
  }

  // ---------------------------------------------------------------- independence of the schedule

  lemma {:induction false} ConcatResponse(a: seq<MoveResult>, b: seq<MoveResult>)
    ensures Moved(a + b) == Moved(a) + Moved(b)
    ensures Failed(a + b) == Failed(a) + Failed(b)
  {
    if b == [] {
      assert a + b == a;
    } else {
      var last: nat := |b| - 1;
      ConcatResponse(a, b[..last]);
      assert (a + b)[..|a + b| - 1] == a + b[..last];
    }
  }

  lemma {:induction false} ConcatThree(x: seq<MoveResult>, y: seq<MoveResult>, z: seq<MoveResult>)
    ensures multiset(Moved(x + (y + z))) == multiset(Moved(x + z)) + multiset(Moved(y))
    ensures multiset(Failed(x + (y + z))) == multiset(Failed(x + z)) + multiset(Failed(y))
  {
    ConcatResponse(x, y + z);
    ConcatResponse(y, z);
    ConcatResponse(x, z);
    MultisetMiddle(Moved(x), Moved(y), Moved(z));
    MultisetMiddle(Failed(x), Failed(y), Failed(z));
  }

  /** A sequence with the same elements as [r] + rest has r somewhere. */
  lemma Locate(r: MoveResult, rest: seq<MoveResult>, b: seq<MoveResult>)
    returns (x: seq<MoveResult>, z: seq<MoveResult>)
    requires multiset([r] + rest) == multiset(b)
    ensures b == x + ([r] + z) && multiset(rest) == multiset(x + z)
  {
    assert r in multiset([r] + rest);
    var k: nat :| k < |b| && b[k] == r;
    x, z := b[..k], b[k + 1..];
    assert b == x + ([r] + z);
    MultisetMiddle(x, [r], z);
    MultisetCancel(multiset(rest), multiset(x + z), multiset([r]));
  }

  lemma {:induction false} ResponsePermuted(a: seq<MoveResult>, b: seq<MoveResult>)
    requires multiset(a) == multiset(b)
    ensures multiset(Moved(a)) == multiset(Moved(b))
    ensures multiset(Failed(a)) == multiset(Failed(b))
  {
    if a == [] {
      assert |multiset(b)| == 0;
      assert b == [];
    } else {
      var r, rest := a[0], a[1..];
      assert a == [r] + rest;
      var x, z := Locate(r, rest, b);
      ResponsePermuted(rest, x + z);
      ConcatThree(x, [r], z);
      ConcatResponse([r], rest);
    }
  }

  /** The finished state of a run agrees with running the jobs in request order. */
  ghost predicate LikeSequential(c: Setting, t: State)
    requires c.Valid()
  {
    var results := Results(t.collected);
    && t.store == SequentialStore(c, |c.objects|)
    && multiset(Moved(results)) == multiset(Moved(SequentialResults(c)))
    && multiset(Failed(results)) == multiset(Failed(SequentialResults(c)))
  }

  /** The final store and what is reported as moved and as failed are those of the sequential run:
      they depend on the calls' outcomes only, not on the schedule or the number of workers. */
  lemma {:induction false} ScheduleIndependence(c: Setting, steps: seq<Step>, t: State,
                                                d: Setting, steps': seq<Step>, t': State)
    requires c.Valid() && Distinct(c.objects) && d.Valid() && d == c.(workers := d.workers)
    requires Reaches(c, Init(c), steps, t) && Final(c, t)
    requires Reaches(d, Init(d), steps', t') && Final(d, t')
    ensures LikeSequential(c, t) && LikeSequential(d, t')
    ensures t.store == t'.store
    ensures multiset(Moved(Results(t.collected))) == multiset(Moved(Results(t'.collected)))
    ensures multiset(Failed(Results(t.collected))) == multiset(Failed(Results(t'.collected)))
  {
    RunsEqualSequential(c, steps, t);
    RunsEqualSequential(d, steps', t');
    ResponsePermuted(Results(t.collected), SequentialResults(c));
    ResponsePermuted(Results(t'.collected), SequentialResults(d));
    SameSequential(c, d, |c.objects|);
    SameSequentialResults(c, d);
  }

  lemma SameSequentialResults(c: Setting, d: Setting)
    requires c.Valid() && d == c.(workers := d.workers)
    ensures SequentialResults(c) == SequentialResults(d)
  {
    forall i: nat | i < |c.objects| ensures SequentialResult(c, i) == SequentialResult(d, i) {
      SameSequential(c, d, i);
    }
  }

  lemma {:induction false} SameSequential(c: Setting, d: Setting, k: nat)
    requires c.Valid() && d == c.(workers := d.workers) && k <= |c.objects|
    ensures SequentialStore(c, k) == SequentialStore(d, k)
  {
    if k > 0 { SameSequential(c, d, k - 1); }
  }
}

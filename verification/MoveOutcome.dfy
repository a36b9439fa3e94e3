/**
  What a run of the worker pool does to the data.

  When no two jobs touch the same object, the store a run leaves behind and the results it reports
  are those of running the jobs one after the other in request order, whatever the schedule and the
  number of workers.
 */
module MoveOutcome {
  import opened Wrappers
  import opened MoveProtocol
  import opened Counting

  // ---------------------------------------------------------------- one job on its own

  /** The whole body of the worker loop for one job, run without interruption. */
  function RunJob(store: Store, job: CopyObject, f: Faults): (Store, MoveResult) {
    var error := CopyError(store, job, f.copy);
    var copied := CopyCall(store, job, f.copy);
    if error.Some? then (store, Outcome(job, false, error))
    else if f.delete.None? then (DeleteCall(copied, DeletedSource(job), None), Outcome(job, true, None))
    else (DeleteCall(copied, Dest(job), f.rollback), Outcome(job, false, f.rollback))
  }

  function SequentialStore(c: Setting, k: nat): Store
    requires k <= |c.objects| == |c.faults|
  {
    if k == 0 then c.original else RunJob(SequentialStore(c, k - 1), c.objects[k - 1], c.faults[k - 1]).0
  }

  function SequentialResult(c: Setting, i: nat): MoveResult
    requires i < |c.objects| == |c.faults|
  {
    RunJob(SequentialStore(c, i), c.objects[i], c.faults[i]).1
  }

  function SequentialResults(c: Setting): seq<MoveResult>
    requires |c.objects| == |c.faults|
  {
    seq(|c.objects|, i requires 0 <= i < |c.objects| => SequentialResult(c, i))
  }

  // ---------------------------------------------------------------- independence of jobs

  ghost predicate Touches(job: CopyObject, loc: Location) {
    loc == Dest(job) || Source(job) == Some(loc)
  }

  /** The sources and destinations of different jobs are distinct; moves of one object onto itself,
      which are refused, may be repeated. */
  ghost predicate Distinct(objects: seq<CopyObject>) {
    forall i, j, loc :: 0 <= i < |objects| && 0 <= j < |objects| && i != j && Touches(objects[i], loc)
      ==> !Touches(objects[j], loc) || (SelfMove(objects[i]) && SelfMove(objects[j]))
  }

  /** No job of the request reads or writes this location. */
  ghost predicate Outside(c: Setting, loc: Location) {
    forall i :: 0 <= i < |c.objects| ==> !Touches(c.objects[i], loc)
  }

  function At(store: Store, loc: Location): Option<Content> {
    if loc in store then Some(store[loc]) else None
  }

  /** The two stores hold the same at the source and at the destination of `job`. */
  ghost predicate SameFor(a: Store, b: Store, job: CopyObject) {
    forall loc :: Touches(job, loc) ==> At(a, loc) == At(b, loc)
  }

  ghost predicate Untouched(c: Setting, store: Store, i: nat)
    requires c.Valid() && i < |c.objects|
  {
    SameFor(store, c.original, c.objects[i])
  }

  ghost predicate Copied(c: Setting, store: Store, i: nat)
    requires c.Valid() && i < |c.objects|
  {
    && CopyError(c.original, c.objects[i], c.faults[i].copy).None?
    && SameFor(store, CopyCall(c.original, c.objects[i], c.faults[i].copy), c.objects[i])
  }

  /** Job `i` has run to its end: its two locations are as if it had run alone. */
  ghost predicate Ran(c: Setting, store: Store, i: nat)
    requires c.Valid() && i < |c.objects|
  {
    SameFor(store, RunJob(c.original, c.objects[i], c.faults[i]).0, c.objects[i])
  }

  ghost predicate Reported(c: Setting, store: Store, r: Report)
    requires c.Valid() && r.job < |c.objects|
  {
    Ran(c, store, r.job) && r.result == RunJob(c.original, c.objects[r.job], c.faults[r.job]).1
  }

  ghost predicate WorkerData(c: Setting, store: Store, w: Worker)
    requires c.Valid() && Carries(w, |c.objects|)
  {
    match w
    case Idle => true
    case Copying(i) => Untouched(c, store, i)
    case Deleting(i) => Copied(c, store, i)
    case RollingBack(i) => Copied(c, store, i) && c.faults[i].delete.Some?
    case Reporting(r) => Reported(c, store, r)
    case Exited => true
  }

  ghost predicate DataInvariant(c: Setting, s: State) {
    && Conserved(c, s)
    && (forall i :: s.sent <= i < |c.objects| ==> Untouched(c, s.store, i))
    && (forall k :: 0 <= k < |s.jobs| ==> Untouched(c, s.store, s.jobs[k]))
    && (forall k :: 0 <= k < |s.workers| ==> WorkerData(c, s.store, s.workers[k]))
    && (forall k :: 0 <= k < |s.results| ==> Reported(c, s.store, s.results[k]))
    && (forall k :: 0 <= k < |s.collected| ==> Reported(c, s.store, s.collected[k]))
    && (forall loc :: Outside(c, loc) ==> At(s.store, loc) == At(c.original, loc))
  }

  // ---------------------------------------------------------------- a job has one holder

  lemma {:induction false} HeldOne(workers: seq<Worker>, k: nat, i: nat)
    requires k < |workers| && HeldBy(workers[k], i) == 1
    ensures Held(workers, i) >= 1
    ensures Held(workers, i) == 1 ==> forall m :: 0 <= m < |workers| && m != k ==> HeldBy(workers[m], i) == 0
  {
    if k > 0 { HeldOne(workers[1..], k - 1, i); }
    if Held(workers, i) == 1 {
      forall m | 0 <= m < |workers| && m != k ensures HeldBy(workers[m], i) == 0 {
        if HeldBy(workers[m], i) == 1 {
          HeldTwice(workers, k, m, i);
        }
      }
    }
  }

  lemma {:induction false} HeldTwice(workers: seq<Worker>, k: nat, m: nat, i: nat)
    requires k < |workers| && m < |workers| && k != m
    requires HeldBy(workers[k], i) == 1 && HeldBy(workers[m], i) == 1
    ensures Held(workers, i) >= 2
  {
    if k > 0 && m > 0 {
      HeldTwice(workers[1..], k - 1, m - 1, i);
    } else {
      HeldSome(workers[1..], k + m - 1, i);
    }
  }

  lemma {:induction false} HeldSome(workers: seq<Worker>, k: nat, i: nat)
    requires k < |workers| && HeldBy(workers[k], i) == 1
    ensures Held(workers, i) >= 1
  {
    if k > 0 { HeldSome(workers[1..], k - 1, i); }
  }

  /** A job in a worker's hands is nowhere else. */
  lemma OneHolder(c: Setting, s: State, k: nat)
    requires Conserved(c, s) && k < |s.workers| && !s.workers[k].Idle? && !s.workers[k].Exited?
    ensures var i := JobOf(s.workers[k]);
      && i < s.sent
      && (forall m :: 0 <= m < |s.jobs| ==> s.jobs[m] != i)
      && (forall m :: 0 <= m < |s.workers| && m != k ==> HeldBy(s.workers[m], i) == 0)
      && (forall m :: 0 <= m < |s.results| ==> s.results[m].job != i)
      && (forall m :: 0 <= m < |s.collected| ==> s.collected[m].job != i)
  {
    var i := JobOf(s.workers[k]);
    assert Carries(s.workers[k], |c.objects|);
    assert Places(c, s, i) == 1;
    HeldOne(s.workers, k, i);
    forall m | 0 <= m < |s.results| ensures s.results[m].job != i {
      assert Ids(s.results)[m] == s.results[m].job;
    }
    forall m | 0 <= m < |s.collected| ensures s.collected[m].job != i {
      assert Ids(s.collected)[m] == s.collected[m].job;
    }
  }

  // ---------------------------------------------------------------- steps keep the invariant

  /** A worker that deletes has made a copy. */
  ghost predicate HasCopied(c: Setting, w: Worker)
    requires Carries(w, |c.objects|)
  {
    w.Deleting? || w.RollingBack? ==> Source(c.objects[w.job]).Some? && !SelfMove(c.objects[w.job])
  }

  /** A worker changes nothing outside the two locations of its job, and there only if they differ. */
  lemma WorkTouchesOwn(c: Setting, s: State, k: nat, loc: Location)
    requires WellTyped(c, s) && k < |s.workers| && Carries(s.workers[k], |c.objects|) && HasCopied(c, s.workers[k])
    requires s.workers[k].Idle? || s.workers[k].Exited? || SelfMove(c.objects[JobOf(s.workers[k])])
             || !Touches(c.objects[JobOf(s.workers[k])], loc)
    ensures At(WorkerStep(c, s, k).1, loc) == At(s.store, loc)
  {
  }

  lemma OthersUnaffected(c: Setting, s: State, k: nat, j: nat, reference: Store)
    requires WellTyped(c, s) && k < |s.workers| && Distinct(c.objects) && j < |c.objects|
    requires HeldBy(s.workers[k], j) == 0 && Carries(s.workers[k], |c.objects|) && HasCopied(c, s.workers[k])
    requires SameFor(s.store, reference, c.objects[j])
    ensures SameFor(WorkerStep(c, s, k).1, reference, c.objects[j])
  {
    assert Carries(s.workers[k], |c.objects|);
    forall loc | Touches(c.objects[j], loc) ensures At(WorkerStep(c, s, k).1, loc) == At(reference, loc) {
      WorkTouchesOwn(c, s, k, loc);
    }
  }

  /** The call a worker makes has, on its own two locations, the effect it would have had alone. */
  lemma OwnStep(c: Setting, s: State, k: nat)
    requires WellTyped(c, s) && k < |s.workers| && Distinct(c.objects)
    requires WorkerData(c, s.store, s.workers[k])
    ensures var (w, store) := WorkerStep(c, s, k); Carries(w, |c.objects|)
    ensures var (w, store) := WorkerStep(c, s, k);
      if s.workers[k].Idle? && s.jobs != [] then w == Copying(s.jobs[0]) && store == s.store
      else WorkerData(c, store, w)
  {
    assert Carries(s.workers[k], |c.objects|);
    match s.workers[k]
    case Copying(i) =>
      var job := c.objects[i];
      if Source(job).Some? { assert Touches(job, Source(job).value); }
    case Deleting(i) =>
      var job := c.objects[i];
      assert Source(job).Some?;
    case RollingBack(i) =>
    case _ =>
  }

  lemma {:induction false} WorkKeepsData(c: Setting, s: State, k: nat)
    requires DataInvariant(c, s) && Distinct(c.objects) && Enabled(c, s, Work(k))
    ensures DataInvariant(c, Next(c, s, Work(k)))
  {
    StepConserves(c, s, Work(k));
    assert WorkerData(c, s.store, s.workers[k]);
    OwnStep(c, s, k);
    var t := Next(c, s, Work(k));
    if s.workers[k].Idle? || s.workers[k].Exited? {
      assert t.store == s.store;
    } else {
      OneHolder(c, s, k);
      forall i | t.sent <= i < |c.objects| ensures Untouched(c, t.store, i) {
        assert Untouched(c, s.store, i);
        OthersUnaffected(c, s, k, i, c.original);
      }
      forall m | 0 <= m < |t.jobs| ensures Untouched(c, t.store, t.jobs[m]) {
        OthersUnaffected(c, s, k, s.jobs[m], c.original);
      }
      forall m | 0 <= m < |t.workers| ensures WorkerData(c, t.store, t.workers[m]) {
        if m != k { OtherWorker(c, s, k, m); }
      }
      ReportsUnaffected(c, s, k, s.results);
      ReportsUnaffected(c, s, k, s.collected);
      forall loc | Outside(c, loc)
        ensures At(t.store, loc) == At(c.original, loc)
      {
        assert Carries(s.workers[k], |c.objects|);
        WorkTouchesOwn(c, s, k, loc);
      }
    }
  }

  lemma ReportsUnaffected(c: Setting, s: State, k: nat, reports: seq<Report>)
    requires WellTyped(c, s) && k < |s.workers| && Distinct(c.objects)
    requires Carries(s.workers[k], |c.objects|) && HasCopied(c, s.workers[k])
    requires forall m :: 0 <= m < |reports| ==>
               reports[m].job < |c.objects| && HeldBy(s.workers[k], reports[m].job) == 0
    requires forall m :: 0 <= m < |reports| ==> Reported(c, s.store, reports[m])
    ensures forall m :: 0 <= m < |reports| ==> Reported(c, WorkerStep(c, s, k).1, reports[m])
  {
    forall m | 0 <= m < |reports| ensures Reported(c, WorkerStep(c, s, k).1, reports[m]) {
      var i := reports[m].job;
      OthersUnaffected(c, s, k, i, RunJob(c.original, c.objects[i], c.faults[i]).0);
    }
  }

  lemma OtherWorker(c: Setting, s: State, k: nat, m: nat)
    requires DataInvariant(c, s) && Distinct(c.objects)
    requires k < |s.workers| && m < |s.workers| && k != m && !s.workers[k].Idle? && !s.workers[k].Exited?
    ensures WorkerData(c, WorkerStep(c, s, k).1, s.workers[m])
  {
    OneHolder(c, s, k);
    var w := s.workers[m];
    assert WorkerData(c, s.store, w) && WorkerData(c, s.store, s.workers[k]);
    if !w.Idle? && !w.Exited? {
      var i := JobOf(w);
      var job, f := c.objects[i], c.faults[i];
      assert HeldBy(w, i) == 1;
      if w.Copying? {
        OthersUnaffected(c, s, k, i, c.original);
      } else if w.Reporting? {
        OthersUnaffected(c, s, k, i, RunJob(c.original, job, f).0);
      } else {
        OthersUnaffected(c, s, k, i, CopyCall(c.original, job, f.copy));
      }
    }
  }

  lemma {:induction false} StepKeepsData(c: Setting, s: State, step: Step)
    requires DataInvariant(c, s) && Distinct(c.objects) && Enabled(c, s, step)
    ensures DataInvariant(c, Next(c, s, step))
  {
    if step.Work? {
      WorkKeepsData(c, s, step.worker);
    } else {
      StepConserves(c, s, step);
    }
  }

  lemma {:induction false} RunsKeepData(c: Setting, s: State, steps: seq<Step>, t: State)
    requires DataInvariant(c, s) && Distinct(c.objects) && Reaches(c, s, steps, t)
    ensures DataInvariant(c, t)
    decreases |steps|
  {
    if steps != [] {
      StepKeepsData(c, s, steps[0]);
      RunsKeepData(c, Next(c, s, steps[0]), steps[1..], t);
    }
  }

  lemma InitData(c: Setting)
    requires c.Valid()
    ensures DataInvariant(c, Init(c))
  {
    InitConserved(c);
  }

  // ---------------------------------------------------------------- where a job is

  lemma {:induction false} HolderExists(workers: seq<Worker>, i: nat) returns (k: nat)
    requires Held(workers, i) > 0
    ensures k < |workers| && HeldBy(workers[k], i) == 1
  {
    if HeldBy(workers[0], i) == 1 {
      k := 0;
    } else {
      k := HolderExists(workers[1..], i);
      k := k + 1;
    }
  }

  /** At every moment a job has not run, has copied its object, or has run to its end. */
  lemma JobProgress(c: Setting, s: State, i: nat)
    requires DataInvariant(c, s) && i < |c.objects|
    ensures Untouched(c, s.store, i) || Copied(c, s.store, i) || Ran(c, s.store, i)
  {
    assert Places(c, s, i) == 1;
    if s.sent <= i {
    } else if i in s.jobs {
      var k :| 0 <= k < |s.jobs| && s.jobs[k] == i;
    } else if i in Ids(s.results) {
      var k :| 0 <= k < |s.results| && s.results[k].job == i;
      assert Reported(c, s.store, s.results[k]);
    } else if i in Ids(s.collected) {
      var k :| 0 <= k < |s.collected| && s.collected[k].job == i;
      assert Reported(c, s.store, s.collected[k]);
    } else {
      var k := HolderExists(s.workers, i);
      assert WorkerData(c, s.store, s.workers[k]);
    }
  }

  // ---------------------------------------------------------------- data safety

  /** The content job `i` found at its source is at its source or at its destination. */
  ghost predicate SafeFor(c: Setting, store: Store, i: nat)
    requires i < |c.objects|
  {
    var job := c.objects[i];
    Source(job).Some? && Source(job).value in c.original ==>
      At(store, Source(job).value) == At(c.original, Source(job).value)
      || At(store, Dest(job)) == At(c.original, Source(job).value)
  }

  ghost predicate DataSafe(c: Setting, store: Store) {
    forall i :: 0 <= i < |c.objects| ==> SafeFor(c, store, i)
  }

  /** In every reachable state no object that is being moved is lost. */
  lemma MovesAreSafe(c: Setting, steps: seq<Step>, t: State)
    requires c.Valid() && Distinct(c.objects) && Reaches(c, Init(c), steps, t)
    ensures DataSafe(c, t.store)
  {
    InitData(c);
    RunsKeepData(c, Init(c), steps, t);
    forall i | 0 <= i < |c.objects| ensures SafeFor(c, t.store, i) {
      JobProgress(c, t, i);
      var job := c.objects[i];
      if Source(job).Some? {
        assert Touches(job, Source(job).value) && Touches(job, Dest(job));
      }
    }
  }

  // ---------------------------------------------------------------- the end of a run

  lemma {:induction false} FinalRan(c: Setting, t: State)
    requires DataInvariant(c, t) && Final(c, t)
    ensures forall i :: 0 <= i < |c.objects| ==> i in Ids(t.collected) && Ran(c, t.store, i)
  {
    forall i: nat | i < |c.objects| ensures i in Ids(t.collected) && Ran(c, t.store, i) {
      CollectedAll(c, t, i);
      var k :| 0 <= k < |t.collected| && Ids(t.collected)[k] == i;
      assert Reported(c, t.store, t.collected[k]);
    }
  }

  /** Once as many results as jobs are collected, every job is among them. */
  lemma CollectedAll(c: Setting, t: State, i: nat)
    requires Conserved(c, t) && |t.collected| == |c.objects| && i < |c.objects|
    ensures multiset(Ids(t.collected))[i] == 1
  {
    var ids: seq<nat> := Ids(t.collected);
    forall j: nat ensures multiset(ids)[j] <= if j < |c.objects| then 1 else 0 {
      assert Places(c, t, j) == if j < |c.objects| then 1 else 0;
    }
    FullWithoutRepeats(ids, |c.objects|, i);
  }

  /** On the request's own locations, and only there, the store is as if each job had run alone. */
  ghost predicate EachRanAlone(c: Setting, store: Store) {
    && c.Valid()
    && (forall i :: 0 <= i < |c.objects| ==> Ran(c, store, i))
    && (forall loc :: Outside(c, loc) ==> At(store, loc) == At(c.original, loc))
  }

  lemma EachRanAloneIsUnique(c: Setting, a: Store, b: Store)
    requires EachRanAlone(c, a) && EachRanAlone(c, b)
    ensures a == b
  {
    forall loc ensures At(a, loc) == At(b, loc) {
      if i :| 0 <= i < |c.objects| && Touches(c.objects[i], loc) {
        assert Ran(c, a, i) && Ran(c, b, i);
      }
    }
    forall loc ensures loc in a <==> loc in b {
      assert At(a, loc) == At(b, loc);
    }
    assert a.Keys == b.Keys;
    forall loc | loc in a ensures a[loc] == b[loc] {
      assert At(a, loc) == At(b, loc);
    }
  }

  lemma {:induction false} JobRunsTheSame(a: Store, b: Store, job: CopyObject, f: Faults)
    requires SameFor(a, b, job)
    ensures SameFor(RunJob(a, job, f).0, RunJob(b, job, f).0, job)
    ensures RunJob(a, job, f).1 == RunJob(b, job, f).1
    ensures forall loc :: !Touches(job, loc) ==> At(RunJob(a, job, f).0, loc) == At(a, loc)
  {
    if Source(job).Some? { assert Touches(job, Source(job).value); }
    assert Touches(job, Dest(job));
  }

  /** Running one job leaves the locations of the others as they are. */
  lemma RunKeepsOthers(c: Setting, before: Store, m: nat, i: nat, reference: Store)
    requires c.Valid() && Distinct(c.objects) && m < |c.objects| && i < |c.objects| && i != m
    requires SameFor(before, reference, c.objects[i])
    ensures SameFor(RunJob(before, c.objects[m], c.faults[m]).0, reference, c.objects[i])
  {
  }

  /** After the first k jobs: those have run, the others are untouched, the rest is unchanged. */
  ghost predicate PrefixRan(c: Setting, store: Store, k: nat)
    requires c.Valid() && k <= |c.objects|
  {
    && (forall i :: 0 <= i < k ==> Ran(c, store, i))
    && (forall i :: k <= i < |c.objects| ==> Untouched(c, store, i))
    && (forall loc :: Outside(c, loc) ==> At(store, loc) == At(c.original, loc))
  }

  lemma ExtendPrefix(c: Setting, before: Store, k: nat, after: Store)
    requires c.Valid() && Distinct(c.objects) && k < |c.objects| && PrefixRan(c, before, k)
    requires after == RunJob(before, c.objects[k], c.faults[k]).0
    ensures PrefixRan(c, after, k + 1)
  {
    assert Untouched(c, before, k);
    JobRunsTheSame(before, c.original, c.objects[k], c.faults[k]);
    forall i | 0 <= i < k ensures Ran(c, after, i) {
      assert Ran(c, before, i);
      RunKeepsOthers(c, before, k, i, RunJob(c.original, c.objects[i], c.faults[i]).0);
    }
    forall i | k < i < |c.objects| ensures Untouched(c, after, i) {
      assert Untouched(c, before, i);
      RunKeepsOthers(c, before, k, i, c.original);
    }
    forall loc | Outside(c, loc) ensures At(after, loc) == At(c.original, loc) {
      assert At(before, loc) == At(c.original, loc);
    }
  }

  lemma EmptyPrefix(c: Setting)
    requires c.Valid()
    ensures PrefixRan(c, c.original, 0)
  {
  }

  lemma {:induction false} SequentialPrefix(c: Setting, k: nat)
    requires c.Valid() && Distinct(c.objects) && k <= |c.objects|
    ensures PrefixRan(c, SequentialStore(c, k), k)
  {
    if k == 0 {
      EmptyPrefix(c);
    } else {
      var before := SequentialStore(c, k - 1);
      SequentialPrefix(c, k - 1);
      ExtendPrefix(c, before, k - 1, SequentialStore(c, k));
    }
  }

  lemma SequentialResultAlone(c: Setting, i: nat)
    requires c.Valid() && Distinct(c.objects) && i < |c.objects|
    ensures SequentialResult(c, i) == RunJob(c.original, c.objects[i], c.faults[i]).1
  {
    SequentialPrefix(c, i);
    assert Untouched(c, SequentialStore(c, i), i);
    JobRunsTheSame(SequentialStore(c, i), c.original, c.objects[i], c.faults[i]);
  }

  // ---------------------------------------------------------------- the reported results

  function Results(reports: seq<Report>): seq<MoveResult> {
    seq(|reports|, k requires 0 <= k < |reports| => reports[k].result)
  }

  /** The end of every run: the store and the multiset of results of the sequential run. */
  lemma RunsEqualSequential(c: Setting, steps: seq<Step>, t: State)
    requires c.Valid() && Distinct(c.objects)
    requires Reaches(c, Init(c), steps, t) && Final(c, t)
    ensures t.store == SequentialStore(c, |c.objects|)
    ensures multiset(Results(t.collected)) == multiset(SequentialResults(c))
  {
    InitData(c);
    RunsKeepData(c, Init(c), steps, t);
    FinalRan(c, t);
    SequentialPrefix(c, |c.objects|);
    EachRanAloneIsUnique(c, t.store, SequentialStore(c, |c.objects|));
    forall i: nat | i < |c.objects| ensures multiset(Ids(t.collected))[i] == 1 {
      CollectedAll(c, t, i);
    }
    forall k | 0 <= k < |t.collected|
      ensures t.collected[k].result == SequentialResults(c)[t.collected[k].job]
    {
      assert Reported(c, t.store, t.collected[k]);
      SequentialResultAlone(c, t.collected[k].job);
    }
    PermutedValues(Ids(t.collected), Results(t.collected), SequentialResults(c));
  }

  /** Where the content ends up, by what S3 answered, and what the response says about it. */
  lemma EndOfMove(c: Setting, steps: seq<Step>, t: State, i: nat)
    requires c.Valid() && Distinct(c.objects) && i < |c.objects|
    requires Reaches(c, Init(c), steps, t) && Final(c, t)
    requires Source(c.objects[i]).Some? && Source(c.objects[i]).value in c.original
    ensures var job, f := c.objects[i], c.faults[i];
      var src, dst, content := Source(job).value, Dest(job), Some(c.original[Source(job).value]);
      var result := SequentialResult(c, i);
      if f.copy.Some? || SelfMove(job) then
        !result.success && At(t.store, src) == content && At(t.store, dst) == At(c.original, dst)
      else if f.delete.None? then
        result.success && At(t.store, src) == None && At(t.store, dst) == content
      else if f.rollback.None? then
        !result.success && result.code == "" && At(t.store, src) == content && At(t.store, dst) == None
      else
        !result.success && At(t.store, src) == content && At(t.store, dst) == content
  {
    RunsEqualSequential(c, steps, t);
    SequentialPrefix(c, |c.objects|);
    SequentialResultAlone(c, i);
    assert Ran(c, t.store, i);
    var job := c.objects[i];
    assert Touches(job, Source(job).value) && Touches(job, Dest(job));
  }
}

/**
  Which requests keep every object's content somewhere in the store.

  The content a job finds at its source can only go when the job deletes the source, and then it is at
  the destination.  It stays there as long as no other job writes or deletes that place.  A single
  worker may repeat a move, because it never rolls back a copy whose source has been deleted.
 */
module MoveKeeps {
  import opened Wrappers
  import opened MoveProtocol
  import opened MoveOutcome

  /** A move that S3 may grant. */
  predicate Effective(job: CopyObject) {
    Source(job).Some? && !SelfMove(job)
  }

  /** The destination of job a is the source of b, or also the destination of b; one worker may make the
      same move twice. */
  predicate Clash(a: CopyObject, b: CopyObject, workers: nat) {
    Effective(a)
    && (Source(b) == Some(Dest(a))
        || (Effective(b) && Dest(b) == Dest(a) && !(workers == 1 && Source(a) == Source(b))))
  }

  ghost predicate NoClash(objects: seq<CopyObject>, workers: nat) {
    forall i, j :: 0 <= i < |objects| && 0 <= j < |objects| && i != j ==> !Clash(objects[i], objects[j], workers)
  }

  // ---------------------------------------------------------------- the invariant

  ghost predicate Intact(c: Setting, store: Store, loc: Location) {
    At(store, loc) == At(c.original, loc)
  }

  /** The job has not reported yet. */
  ghost predicate Underway(s: State, i: nat) {
    s.sent <= i || i in s.jobs
    || exists m :: 0 <= m < |s.workers| && Works(s.workers[m], i)
  }

  predicate Works(w: Worker, i: nat) {
    (w.Copying? || w.Deleting? || w.RollingBack?) && w.job == i
  }

  /** The content of the location is at the destination of job k, which several workers leave alone only
      when the job has reported. */
  ghost predicate Arrived(c: Setting, s: State, k: nat, loc: Location) {
    k < |c.objects| && Effective(c.objects[k]) && Source(c.objects[k]) == Some(loc)
    && At(s.store, Dest(c.objects[k])) == At(c.original, loc)
    && (c.workers >= 2 ==> !Underway(s, k))
  }

  /** A source is never overwritten, and when it is deleted, its content has arrived somewhere. */
  ghost predicate SourceKept(c: Setting, s: State, loc: Location) {
    Intact(c, s.store, loc) || (At(s.store, loc) == None && exists k: nat :: Arrived(c, s, k, loc))
  }

  /** A worker that may delete has a copy at the destination; a single worker has not deleted the source. */
  ghost predicate WorkerKeeps(c: Setting, store: Store, w: Worker) {
    w.Deleting? || w.RollingBack? ==>
      w.job < |c.objects| && Effective(c.objects[w.job])
      && At(store, Dest(c.objects[w.job])) == At(c.original, Source(c.objects[w.job]).value)
      && (c.workers == 1 ==> Intact(c, store, Source(c.objects[w.job]).value))
  }

  ghost predicate IsSource(c: Setting, j: nat, loc: Location) {
    j < |c.objects| && Source(c.objects[j]) == Some(loc)
  }

  ghost predicate KeepInvariant(c: Setting, s: State) {
    && Conserved(c, s)
    && (forall j, loc :: IsSource(c, j, loc) ==> SourceKept(c, s, loc))
    && (forall m :: 0 <= m < |s.workers| ==> WorkerKeeps(c, s.store, s.workers[m]))
  }

  lemma InitKeeps(c: Setting)
    requires c.Valid()
    ensures KeepInvariant(c, Init(c))
  {
    InitConserved(c);
  }

  // ---------------------------------------------------------------- steps

  /** Steps never take a job back from the reports. */
  lemma StaysReported(c: Setting, s: State, step: Step, i: nat)
    requires WellTyped(c, s) && Enabled(c, s, step) && !Underway(s, i)
    ensures !Underway(Next(c, s, step), i)
  {
    if step.Work? {
      var k, t := step.worker, Next(c, s, step);
      forall m | 0 <= m < |t.workers| ensures !Works(t.workers[m], i) {
        if m != k { assert !Works(s.workers[m], i); } else { WorkerMovesOn(c, s, k, i); }
      }
    }
  }

  lemma WorkerMovesOn(c: Setting, s: State, k: nat, i: nat)
    requires WellTyped(c, s) && k < |s.workers| && !Works(s.workers[k], i) && i !in s.jobs
    ensures !Works(WorkerStep(c, s, k).0, i)
  {
  }

  /** No write or delete of a job at its destination touches a source. */
  lemma DestIsNoSource(c: Setting, m: nat, j: nat, loc: Location)
    requires NoClash(c.objects, c.workers) && m < |c.objects| && Effective(c.objects[m]) && IsSource(c, j, loc)
    ensures loc != Dest(c.objects[m])
  {
    if j != m { assert !Clash(c.objects[m], c.objects[j], c.workers); }
  }

  lemma ArrivedStays(c: Setting, s: State, step: Step, k: nat, loc: Location)
    requires WellTyped(c, s) && Enabled(c, s, step) && Arrived(c, s, k, loc)
    requires At(Next(c, s, step).store, Dest(c.objects[k])) == At(s.store, Dest(c.objects[k]))
    ensures Arrived(c, Next(c, s, step), k, loc)
  {
    if c.workers >= 2 { StaysReported(c, s, step, k); }
  }

  /** As long as the store stays the same, everything does. */
  lemma SameStoreKeeps(c: Setting, s: State, step: Step, j: nat, loc: Location)
    requires KeepInvariant(c, s) && Enabled(c, s, step) && IsSource(c, j, loc)
    requires Next(c, s, step).store == s.store
    ensures SourceKept(c, Next(c, s, step), loc)
  {
    assert SourceKept(c, s, loc);
    if !Intact(c, s.store, loc) {
      var k: nat :| Arrived(c, s, k, loc);
      ArrivedStays(c, s, step, k, loc);
    }
  }

  /** Another job with the destination of m, or m itself when it is underway: only a single worker gets
      there, and then the sources agree. */
  lemma SharedDest(c: Setting, s: State, m: nat, k: nat, loc: Location)
    requires NoClash(c.objects, c.workers) && c.workers >= 1 && Arrived(c, s, k, loc)
    requires m < |c.objects| && Effective(c.objects[m]) && Underway(s, m) && Dest(c.objects[k]) == Dest(c.objects[m])
    ensures c.workers == 1 && Source(c.objects[m]) == Some(loc)
  {
    if k != m { assert !Clash(c.objects[k], c.objects[m], c.workers); }
  }

  lemma CopyKeeps(c: Setting, s: State, w: nat, j: nat, loc: Location)
    requires KeepInvariant(c, s) && NoClash(c.objects, c.workers) && Enabled(c, s, Work(w)) && IsSource(c, j, loc)
    requires s.workers[w].Copying?
    ensures SourceKept(c, Next(c, s, Work(w)), loc)
  {
    var m := s.workers[w].job;
    var job, t := c.objects[m], Next(c, s, Work(w));
    if CopyError(s.store, job, c.faults[m].copy).Some? {
      SameStoreKeeps(c, s, Work(w), j, loc);
    } else {
      assert IsSource(c, m, Source(job).value) && SourceKept(c, s, Source(job).value) && SourceKept(c, s, loc);
      DestIsNoSource(c, m, j, loc);
      if !Intact(c, s.store, loc) {
        var k: nat :| Arrived(c, s, k, loc);
        assert Works(s.workers[w], m);
        if Dest(c.objects[k]) == Dest(job) { SharedDest(c, s, m, k, loc); }
        ArrivedStays(c, s, Work(w), k, loc);
      }
    }
  }

  lemma RollbackKeeps(c: Setting, s: State, w: nat, j: nat, loc: Location)
    requires KeepInvariant(c, s) && NoClash(c.objects, c.workers) && Enabled(c, s, Work(w)) && IsSource(c, j, loc)
    requires s.workers[w].RollingBack?
    ensures SourceKept(c, Next(c, s, Work(w)), loc)
  {
    var m := s.workers[w].job;
    assert WorkerKeeps(c, s.store, s.workers[w]);
    if c.faults[m].rollback.Some? {
      SameStoreKeeps(c, s, Work(w), j, loc);
    } else {
      assert SourceKept(c, s, loc);
      DestIsNoSource(c, m, j, loc);
      if !Intact(c, s.store, loc) {
        var k: nat :| Arrived(c, s, k, loc);
        assert Works(s.workers[w], m);
        if Dest(c.objects[k]) == Dest(c.objects[m]) { SharedDest(c, s, m, k, loc); }
        ArrivedStays(c, s, Work(w), k, loc);
      }
    }
  }

  /** Deleting a source: its content has arrived, and the job reports. */
  lemma DeleteArrives(c: Setting, s: State, w: nat)
    requires KeepInvariant(c, s) && Enabled(c, s, Work(w)) && s.workers[w].Deleting?
    requires c.faults[s.workers[w].job].delete.None?
    ensures var m := s.workers[w].job; Arrived(c, Next(c, s, Work(w)), m, Source(c.objects[m]).value)
  {
    var m, t := s.workers[w].job, Next(c, s, Work(w));
    assert WorkerKeeps(c, s.store, s.workers[w]);
    OneHolder(c, s, w);
    forall k | 0 <= k < |t.workers| ensures !Works(t.workers[k], m) {
      assert k != w ==> HeldBy(s.workers[k], m) == 0;
    }
  }

  lemma DeleteKeeps(c: Setting, s: State, w: nat, j: nat, loc: Location)
    requires KeepInvariant(c, s) && NoClash(c.objects, c.workers) && Enabled(c, s, Work(w)) && IsSource(c, j, loc)
    requires s.workers[w].Deleting?
    ensures SourceKept(c, Next(c, s, Work(w)), loc)
  {
    var m, t := s.workers[w].job, Next(c, s, Work(w));
    assert WorkerKeeps(c, s.store, s.workers[w]);
    if c.faults[m].delete.Some? {
      SameStoreKeeps(c, s, Work(w), j, loc);
    } else if Source(c.objects[m]) == Some(loc) {
      DeleteArrives(c, s, w);
    } else {
      assert SourceKept(c, s, loc);
      if !Intact(c, s.store, loc) {
        var k: nat :| Arrived(c, s, k, loc);
        assert !Clash(c.objects[k], c.objects[m], c.workers);
        ArrivedStays(c, s, Work(w), k, loc);
      }
    }
  }

  lemma SourceStepKeeps(c: Setting, s: State, step: Step, j: nat, loc: Location)
    requires KeepInvariant(c, s) && NoClash(c.objects, c.workers) && Enabled(c, s, step) && IsSource(c, j, loc)
    ensures SourceKept(c, Next(c, s, step), loc)
  {
    if step.Work? && s.workers[step.worker].Copying? {
      CopyKeeps(c, s, step.worker, j, loc);
    } else if step.Work? && s.workers[step.worker].Deleting? {
      DeleteKeeps(c, s, step.worker, j, loc);
    } else if step.Work? && s.workers[step.worker].RollingBack? {
      RollbackKeeps(c, s, step.worker, j, loc);
    } else {
      SameStoreKeeps(c, s, step, j, loc);
    }
  }

  lemma OwnStepKeeps(c: Setting, s: State, w: nat)
    requires KeepInvariant(c, s) && Enabled(c, s, Work(w))
    ensures WorkerKeeps(c, Next(c, s, Work(w)).store, WorkerStep(c, s, w).0)
  {
    assert WorkerKeeps(c, s.store, s.workers[w]) && Carries(s.workers[w], |c.objects|);
    if s.workers[w].Copying? {
      var m := s.workers[w].job;
      if Source(c.objects[m]).Some? {
        assert IsSource(c, m, Source(c.objects[m]).value) && SourceKept(c, s, Source(c.objects[m]).value);
      }
    }
  }

  /** Two jobs in the hands of two workers have different places to write. */
  lemma OtherKeeps(c: Setting, s: State, w: nat, m: nat)
    requires KeepInvariant(c, s) && NoClash(c.objects, c.workers) && Enabled(c, s, Work(w))
    requires m < |s.workers| && m != w
    ensures WorkerKeeps(c, Next(c, s, Work(w)).store, s.workers[m])
  {
    var v, x := s.workers[w], s.workers[m];
    assert WorkerKeeps(c, s.store, x) && WorkerKeeps(c, s.store, v) && Carries(v, |c.objects|);
    if (x.Deleting? || x.RollingBack?) && (v.Copying? || v.Deleting? || v.RollingBack?) {
      OneHolder(c, s, w);
      assert HeldBy(x, v.job) == 0;
      assert !Clash(c.objects[x.job], c.objects[v.job], c.workers);
    }
  }

  lemma {:induction false} StepKeeps(c: Setting, s: State, step: Step)
    requires KeepInvariant(c, s) && NoClash(c.objects, c.workers) && Enabled(c, s, step)
    ensures KeepInvariant(c, Next(c, s, step))
  {
    var t := Next(c, s, step);
    StepConserves(c, s, step);
    forall j, loc | IsSource(c, j, loc) ensures SourceKept(c, t, loc) {
      SourceStepKeeps(c, s, step, j, loc);
    }
    forall m | 0 <= m < |t.workers| ensures WorkerKeeps(c, t.store, t.workers[m]) {
      if !step.Work? {
        assert WorkerKeeps(c, s.store, s.workers[m]);
      } else if m == step.worker {
        OwnStepKeeps(c, s, m);
      } else {
        OtherKeeps(c, s, step.worker, m);
      }
    }
  }

  lemma {:induction false} RunsKeep(c: Setting, s: State, steps: seq<Step>, t: State)
    requires KeepInvariant(c, s) && NoClash(c.objects, c.workers) && Reaches(c, s, steps, t)
    ensures KeepInvariant(c, t)
    decreases |steps|
  {
    if steps != [] {
      StepKeeps(c, s, steps[0]);
      RunsKeep(c, Next(c, s, steps[0]), steps[1..], t);
    }
  }

  // ---------------------------------------------------------------- what the invariant gives

  /** The content job i found at its source is nowhere in the store. */
  ghost predicate Vanished(c: Setting, store: Store, i: nat)
    requires i < |c.objects|
  {
    Source(c.objects[i]).Some? && Source(c.objects[i]).value in c.original
    && forall loc :: At(store, loc) != At(c.original, Source(c.objects[i]).value)
  }

  /** Without a clash, no reachable state has lost the content of a requested source. */
  lemma NothingVanishes(c: Setting, steps: seq<Step>, t: State, i: nat)
    requires c.Valid() && NoClash(c.objects, c.workers) && Reaches(c, Init(c), steps, t) && i < |c.objects|
    ensures !Vanished(c, t.store, i)
  {
    InitKeeps(c);
    RunsKeep(c, Init(c), steps, t);
    if Source(c.objects[i]).Some? {
      assert IsSource(c, i, Source(c.objects[i]).value) && SourceKept(c, t, Source(c.objects[i]).value);
    }
  }

  /** Two jobs that share a place, other than refused moves of one object onto itself; one worker may
      make the same move twice. */
  ghost predicate Conflict(a: CopyObject, b: CopyObject, workers: nat) {
    Source(a).Some? && Source(b).Some? && (exists loc :: Touches(a, loc) && Touches(b, loc))
    && !(SameMove(a, b) && (workers == 1 || SelfMove(a)))
  }

  predicate SameMove(a: CopyObject, b: CopyObject) {
    Source(a) == Source(b) && Dest(a) == Dest(b)
  }

  ghost predicate NoConflict(objects: seq<CopyObject>, workers: nat) {
    forall i, j :: 0 <= i < |objects| && 0 <= j < |objects| && i != j ==> !Conflict(objects[i], objects[j], workers)
  }

  lemma ClashIsConflict(a: CopyObject, b: CopyObject, workers: nat)
    requires Clash(a, b, workers)
    ensures Conflict(a, b, workers)
  {
    assert Touches(a, Dest(a)) && Touches(b, Dest(a));
  }

  /** Without a conflict, each job's content is at its own source or its own destination. */
  lemma OwnPlacesKept(c: Setting, steps: seq<Step>, t: State)
    requires c.Valid() && NoConflict(c.objects, c.workers) && Reaches(c, Init(c), steps, t)
    ensures DataSafe(c, t.store)
  {
    forall i, j | 0 <= i < |c.objects| && 0 <= j < |c.objects| && i != j
      ensures !Clash(c.objects[i], c.objects[j], c.workers)
    {
      if Clash(c.objects[i], c.objects[j], c.workers) { ClashIsConflict(c.objects[i], c.objects[j], c.workers); }
    }
    InitKeeps(c);
    RunsKeep(c, Init(c), steps, t);
    forall i | 0 <= i < |c.objects| ensures SafeFor(c, t.store, i) {
      var job := c.objects[i];
      if Source(job).Some? {
        var src := Source(job).value;
        assert IsSource(c, i, src) && SourceKept(c, t, src);
        if !Intact(c, t.store, src) {
          var k: nat :| Arrived(c, t, k, src);
          assert Touches(job, src) && Touches(c.objects[k], src);
          assert k != i ==> !Conflict(c.objects[i], c.objects[k], c.workers);
        }
      }
    }
  }
}

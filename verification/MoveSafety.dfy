/**
  Exactly which requests MoveObjects handles without losing anything, for any number of workers.

  MoveKeeps proves that requests without a clash keep every content in the store, and requests without
  a conflict keep it at the job's own places.  Here every other request is shown to fail: for some
  store, some answers of S3 and some schedule.
 */
module MoveSafety {
  import opened Wrappers
  import opened MoveProtocol
  import opened MoveProgress
  import opened MoveOutcome
  import opened MoveKeeps

  // ---------------------------------------------------------------- building schedules

  /** The schedule runs the request's jobs in order, starting from job k. */
  ghost predicate Ready(c: Setting, s: State, k: nat) {
    && Sized(c, s) && s.sent == |c.objects| && s.closed && k <= |c.objects|
    && s.jobs == Tail(k, |c.objects|)
  }

  function Tail(k: nat, n: nat): (r: seq<nat>)
    requires k <= n
    ensures |r| == n - k
    decreases n - k
  {
    if k == n then [] else [k] + Tail(k + 1, n)
  }

  lemma {:induction false} TailGrows(n: nat, hi: nat)
    requires n <= hi
    ensures Tail(n, hi + 1) == Tail(n, hi) + [hi]
    decreases hi - n
  {
    if n < hi { TailGrows(n + 1, hi); }
  }

  lemma Extend(c: Setting, s: State, steps: seq<Step>, t: State, step: Step)
    requires Sized(c, s) && Reaches(c, s, steps, t) && Sized(c, t) && Enabled(c, t, step)
    ensures Reaches(c, s, steps + [step], Next(c, t, step))
    ensures Sized(c, Next(c, t, step))
  {
    StepTotals(c, t, step);
    var u := Next(c, t, step);
    assert [step][1..] == [];
    assert Reaches(c, t, [step], u);
    RunsCompose(c, s, steps, t, [step], u);
  }

  function Unsent(c: Setting, k: nat): State {
    State(k, false, Tail(0, k), seq(c.workers, _ => Idle), [], [], c.original)
  }

  lemma {:induction false} SendAll(c: Setting, k: nat) returns (steps: seq<Step>)
    requires c.Valid() && k <= |c.objects|
    ensures Sized(c, Unsent(c, k)) && Reaches(c, Init(c), steps, Unsent(c, k))
  {
    InitSized(c);
    if k == 0 {
      steps := [];
    } else {
      var before := SendAll(c, k - 1);
      SendsNeverBlock(c, Unsent(c, k - 1));
      Extend(c, Init(c), before, Unsent(c, k - 1), Send);
      TailGrows(0, k - 1);
      steps := before + [Send];
    }
  }

  lemma One(c: Setting, s: State, step: Step) returns (t: State)
    requires Sized(c, s) && Enabled(c, s, step)
    ensures t == Next(c, s, step) && Sized(c, t) && Reaches(c, s, [step], t)
  {
    t := Next(c, s, step);
    StepTotals(c, s, step);
    assert [step][1..] == [];
  }

  /** `t` is `s` with worker v at w, another store and possibly one more result. */
  ghost predicate Advanced(s: State, t: State, v: nat, w: Worker, store: Store) {
    && v < |s.workers| && t.workers == s.workers[v := w] && t.store == store
    && t.sent == s.sent && t.closed == s.closed && t.jobs == s.jobs
  }

  lemma {:induction false} FromReporting(c: Setting, s: State, v: nat) returns (steps: seq<Step>, t: State)
    requires Sized(c, s) && v < |s.workers| && s.workers[v].Reporting?
    ensures Reaches(c, s, steps, t) && Sized(c, t) && Advanced(s, t, v, Idle, s.store)
  {
    SendsNeverBlock(c, s);
    steps := [Work(v)];
    t := One(c, s, Work(v));
  }

  lemma {:induction false} FromRollingBack(c: Setting, s: State, k: nat, v: nat) returns (steps: seq<Step>, t: State)
    requires Sized(c, s) && k < |c.objects| && v < |s.workers| && s.workers[v] == RollingBack(k)
    ensures Reaches(c, s, steps, t) && Sized(c, t)
    ensures Advanced(s, t, v, Idle, DeleteCall(s.store, Dest(c.objects[k]), c.faults[k].rollback))
  {
    var u := One(c, s, Work(v));
    var rest;
    rest, t := FromReporting(c, u, v);
    RunsCompose(c, s, [Work(v)], u, rest, t);
    steps := [Work(v)] + rest;
  }

  lemma {:induction false} FromDeleting(c: Setting, s: State, k: nat, v: nat) returns (steps: seq<Step>, t: State)
    requires Sized(c, s) && k < |c.objects| && v < |s.workers| && s.workers[v] == Deleting(k)
    ensures Reaches(c, s, steps, t) && Sized(c, t)
    ensures Advanced(s, t, v, Idle,
      if c.faults[k].delete.None? then DeleteCall(s.store, DeletedSource(c.objects[k]), None)
      else DeleteCall(s.store, Dest(c.objects[k]), c.faults[k].rollback))
  {
    var u := One(c, s, Work(v));
    var rest;
    if c.faults[k].delete.None? {
      rest, t := FromReporting(c, u, v);
    } else {
      rest, t := FromRollingBack(c, u, k, v);
    }
    RunsCompose(c, s, [Work(v)], u, rest, t);
    steps := [Work(v)] + rest;
  }

  lemma {:induction false} FromCopying(c: Setting, s: State, k: nat, v: nat) returns (steps: seq<Step>, t: State)
    requires Sized(c, s) && k < |c.objects| && v < |s.workers| && s.workers[v] == Copying(k)
    ensures Reaches(c, s, steps, t) && Sized(c, t)
    ensures Advanced(s, t, v, Idle, RunJob(s.store, c.objects[k], c.faults[k]).0)
  {
    var u := One(c, s, Work(v));
    var rest;
    if CopyError(s.store, c.objects[k], c.faults[k].copy).Some? {
      rest, t := FromReporting(c, u, v);
    } else {
      rest, t := FromDeleting(c, u, k, v);
    }
    RunsCompose(c, s, [Work(v)], u, rest, t);
    steps := [Work(v)] + rest;
  }

  /** Worker v takes the next job and runs it to its end while nobody else moves. */
  lemma {:induction false} RunNext(c: Setting, s: State, k: nat, v: nat) returns (steps: seq<Step>, t: State)
    requires Ready(c, s, k) && k < |c.objects| && v < |s.workers| && s.workers[v].Idle?
    ensures Reaches(c, s, steps, t) && Ready(c, t, k + 1)
    ensures t.workers == s.workers
    ensures t.store == RunJob(s.store, c.objects[k], c.faults[k]).0
  {
    var u := One(c, s, Work(v));
    var rest;
    rest, t := FromCopying(c, u, k, v);
    RunsCompose(c, s, [Work(v)], u, rest, t);
    steps := [Work(v)] + rest;
    assert t.workers == s.workers;
  }

  /** Running the jobs k..m in order on worker v is a run of the protocol. */
  lemma {:induction false} RunThrough(c: Setting, s: State, k: nat, m: nat, v: nat)
    returns (steps: seq<Step>, t: State)
    requires Ready(c, s, k) && k <= m <= |c.objects| && v < |s.workers| && s.workers[v].Idle?
    ensures Reaches(c, s, steps, t) && Ready(c, t, m)
    ensures t.workers == s.workers
    ensures t.store == StoreAfter(c, s.store, k, m)
    decreases m - k
  {
    if k == m {
      steps, t := [], s;
    } else {
      var first, mid := RunNext(c, s, k, v);
      var rest;
      rest, t := RunThrough(c, mid, k + 1, m, v);
      assert StoreAfter(c, mid.store, k + 1, m) == StoreAfter(c, s.store, k, m);
      RunsCompose(c, s, first, mid, rest, t);
      steps := first + rest;
    }
  }

  function StoreAfter(c: Setting, store: Store, k: nat, m: nat): Store
    requires k <= m <= |c.objects| == |c.faults|
    decreases m - k
  {
    if k == m then store else StoreAfter(c, RunJob(store, c.objects[k], c.faults[k]).0, k + 1, m)
  }

  lemma {:induction false} SequentialIsARun(c: Setting, m: nat) returns (steps: seq<Step>, t: State)
    requires c.Valid() && m <= |c.objects|
    ensures Reaches(c, Init(c), steps, t) && Ready(c, t, m)
    ensures t.workers == seq(c.workers, _ => Idle)
    ensures t.store == StoreAfter(c, c.original, 0, m)
  {
    var n := |c.objects|;
    var sent := SendAll(c, n);
    Extend(c, Init(c), sent, Unsent(c, n), Close);
    var start := Next(c, Unsent(c, n), Close);
    var rest;
    rest, t := RunThrough(c, start, 0, m, 0);
    RunsCompose(c, Init(c), sent + [Close], start, rest, t);
    steps := sent + [Close] + rest;
  }

  // ---------------------------------------------------------------- plans in which at most two jobs act

  const REFUSED := Faults(Some(S3Error("InternalError", "InternalError")), None, None)
  const GRANTED := Faults(None, None, None)

  function Plan(n: nat, i: nat, fi: Faults, j: nat, fj: Faults): seq<Faults> {
    seq(n, k => if k == i then fi else if k == j then fj else REFUSED)
  }

  lemma {:induction false} RefusedChangeNothing(c: Setting, store: Store, k: nat, m: nat)
    requires c.Valid() && k <= m <= |c.objects|
    requires forall x :: k <= x < m ==> c.faults[x] == REFUSED
    ensures StoreAfter(c, store, k, m) == store
    decreases m - k
  {
    if k < m { RefusedChangeNothing(c, store, k + 1, m); }
  }

  lemma {:induction false} StoreAfterSplits(c: Setting, store: Store, k: nat, x: nat, m: nat)
    requires c.Valid() && k <= x <= m <= |c.objects|
    ensures StoreAfter(c, store, k, m) == StoreAfter(c, StoreAfter(c, store, k, x), x, m)
    decreases x - k
  {
    if k < x { StoreAfterSplits(c, RunJob(store, c.objects[k], c.faults[k]).0, k + 1, x, m); }
  }

  /** The end of the sequential run when all jobs but i and j are refused. */
  lemma TwoJobs(c: Setting, i: nat, fi: Faults, j: nat, fj: Faults)
    requires c.Valid() && i < j < |c.objects| && c.faults == Plan(|c.objects|, i, fi, j, fj)
    ensures StoreAfter(c, c.original, 0, |c.objects|)
      == RunJob(RunJob(c.original, c.objects[i], fi).0, c.objects[j], fj).0
  {
    var n := |c.objects|;
    var first := RunJob(c.original, c.objects[i], fi).0;
    StoreAfterSplits(c, c.original, 0, i, n);
    RefusedChangeNothing(c, c.original, 0, i);
    StoreAfterSplits(c, first, i + 1, j, n);
    RefusedChangeNothing(c, first, i + 1, j);
    RefusedChangeNothing(c, RunJob(first, c.objects[j], fj).0, j + 1, n);
  }

  lemma OneJob(c: Setting, i: nat, fi: Faults)
    requires c.Valid() && i < |c.objects| && c.faults == Plan(|c.objects|, i, fi, i, fi)
    ensures StoreAfter(c, c.original, 0, |c.objects|) == RunJob(c.original, c.objects[i], fi).0
  {
    var n := |c.objects|;
    StoreAfterSplits(c, c.original, 0, i, n);
    RefusedChangeNothing(c, c.original, 0, i);
    RefusedChangeNothing(c, RunJob(c.original, c.objects[i], fi).0, i + 1, n);
  }

  // ---------------------------------------------------------------- stores for the failing runs

  function SourceOf(objects: seq<CopyObject>, i: nat): Location
    requires i < |objects|
  {
    DeletedSource(objects[i])
  }

  /** All sources exist; the victim's is the only one with this content. */
  function Stocked(objects: seq<CopyObject>, victim: Location): Store {
    map i | 0 <= i < |objects| :: SourceOf(objects, i) := if SourceOf(objects, i) == victim then "A" else "B"
  }

  lemma StockedAt(objects: seq<CopyObject>, victim: Location, loc: Location)
    ensures At(Stocked(objects, victim), loc) == None
            || At(Stocked(objects, victim), loc) == Some(if loc == victim then "A" else "B")
    ensures (exists i :: 0 <= i < |objects| && SourceOf(objects, i) == loc) ==> loc in Stocked(objects, victim)
  {
  }

  /** A move that S3 grants. */
  lemma GrantedMove(store: Store, job: CopyObject, loc: Location)
    requires Effective(job) && Source(job).value in store
    ensures At(RunJob(store, job, GRANTED).0, loc) ==
      if loc == Source(job).value then None
      else if loc == Dest(job) then At(store, Source(job).value)
      else At(store, loc)
  {
  }

  /** A run from the start that ends in a state in which job i's content is at neither of its places. */
  ghost predicate Loses(c: Setting, steps: seq<Step>, t: State, i: nat) {
    c.Valid() && i < |c.objects| && Reaches(c, Init(c), steps, t) && !SafeFor(c, t.store, i)
  }

  /** A run that ends in a state in which it is nowhere. */
  ghost predicate Destroys(c: Setting, steps: seq<Step>, t: State, i: nat) {
    c.Valid() && i < |c.objects| && Reaches(c, Init(c), steps, t) && Vanished(c, t.store, i)
  }

  // ---------------------------------------------------------------- clashing requests destroy an object

  /** The destination of job i is the source of job j: i overwrites what j is to move, and j is refused. */
  lemma ChainDestroys(objects: seq<CopyObject>, workers: nat, i: nat, j: nat)
    returns (c: Setting, steps: seq<Step>, t: State)
    requires workers >= 1 && i < |objects| && j < |objects|
    requires Effective(objects[i]) && Source(objects[j]) == Some(Dest(objects[i]))
    ensures c.objects == objects && c.workers == workers && Destroys(c, steps, t, j)
  {
    var victim := Dest(objects[i]);
    c := Setting(objects, Plan(|objects|, i, GRANTED, i, GRANTED), workers, Stocked(objects, victim));
    StockedAt(objects, victim, SourceOf(objects, i));
    StockedAt(objects, victim, victim);
    assert SourceOf(objects, j) == victim;
    OneJob(c, i, GRANTED);
    steps, t := SequentialIsARun(c, |objects|);
    forall loc ensures At(t.store, loc) != Some("A") {
      StockedAt(objects, victim, loc);
      GrantedMove(c.original, objects[i], loc);
    }
  }

  /** Two sources, one destination: the second move overwrites what the first has moved. */
  lemma OverwriteDestroys(objects: seq<CopyObject>, workers: nat, i: nat, j: nat)
    returns (c: Setting, steps: seq<Step>, t: State)
    requires workers >= 1 && i < j < |objects| && Effective(objects[i]) && Effective(objects[j])
    requires Source(objects[i]) != Source(objects[j]) && Dest(objects[i]) == Dest(objects[j])
    ensures c.objects == objects && c.workers == workers && Destroys(c, steps, t, i)
  {
    var victim, other := SourceOf(objects, i), SourceOf(objects, j);
    c := Setting(objects, Plan(|objects|, i, GRANTED, j, GRANTED), workers, Stocked(objects, victim));
    StockedAt(objects, victim, victim);
    StockedAt(objects, victim, other);
    TwoJobs(c, i, GRANTED, j, GRANTED);
    steps, t := SequentialIsARun(c, |objects|);
    var first := RunJob(c.original, objects[i], GRANTED).0;
    GrantedMove(c.original, objects[i], other);
    assert At(first, other) == Some("B");
    forall loc ensures At(t.store, loc) != Some("A") {
      StockedAt(objects, victim, loc);
      GrantedMove(c.original, objects[i], loc);
      GrantedMove(first, objects[j], loc);
    }
  }

  /** The same move requested twice: one worker deletes the source while the other rolls its copy
      back.  This takes two workers. */
  lemma {:induction false} DuplicateDestroys(objects: seq<CopyObject>, workers: nat, i: nat, j: nat)
    returns (c: Setting, steps: seq<Step>, t: State)
    requires workers >= 2 && i < j < |objects| && Effective(objects[i]) && SameMove(objects[i], objects[j])
    ensures c.objects == objects && c.workers == workers && Destroys(c, steps, t, i)
  {
    var victim := SourceOf(objects, i);
    c := Setting(objects, Plan(|objects|, i, GRANTED, j, UNDONE), workers, Stocked(objects, victim));
    StockedAt(objects, victim, victim);
    steps, t := DuplicateRun(c, i, j);
    forall loc ensures At(t.store, loc) != Some("A") {
      StockedAt(objects, victim, loc);
    }
  }

  lemma {:induction false} DuplicateRun(c: Setting, i: nat, j: nat) returns (steps: seq<Step>, t: State)
    requires c.Valid() && i < j < |c.objects| && c.workers >= 2
    requires c.faults == Plan(|c.objects|, i, GRANTED, j, UNDONE)
    requires Effective(c.objects[i]) && SameMove(c.objects[i], c.objects[j])
    requires Source(c.objects[i]).value in c.original
    ensures Reaches(c, Init(c), steps, t)
    ensures t.store == c.original - {DeletedSource(c.objects[i])} - {Dest(c.objects[i])}
  {
    var first, s := SequentialIsARun(c, i);
    RefusedChangeNothing(c, c.original, 0, i);
    var rest;
    rest, t := DuplicateEnd(c, s, i, j);
    RunsCompose(c, Init(c), first, s, rest, t);
    steps := first + rest;
  }

  lemma {:induction false} DuplicateEnd(c: Setting, s: State, i: nat, j: nat) returns (steps: seq<Step>, t: State)
    requires Ready(c, s, i) && i < j < |c.objects| && |s.workers| >= 2 && s.workers[0].Idle? && s.workers[1].Idle?
    requires c.faults == Plan(|c.objects|, i, GRANTED, j, UNDONE)
    requires Effective(c.objects[i]) && SameMove(c.objects[i], c.objects[j])
    requires Source(c.objects[i]).value in s.store
    ensures Reaches(c, s, steps, t)
    ensures t.store == s.store - {DeletedSource(c.objects[i])} - {Dest(c.objects[i])}
  {
    var second, u := BothCopied(c, s, i, j);
    var third;
    third, t := BothDeleted(c, u, i, j);
    RunsCompose(c, s, second, u, third, t);
    steps := second + third;
  }

  const UNDONE := Faults(None, Some(S3Error("InternalError", "InternalError")), None)

  /** Worker v takes job k, copies its object and pauses. */
  lemma {:induction false} CopyAndPause(c: Setting, s: State, k: nat, v: nat) returns (steps: seq<Step>, t: State)
    requires Ready(c, s, k) && k < |c.objects| && v < |s.workers| && s.workers[v].Idle?
    requires c.faults[k].copy.None? && Effective(c.objects[k]) && Source(c.objects[k]).value in s.store
    ensures Reaches(c, s, steps, t) && Ready(c, t, k + 1)
    ensures t.workers == s.workers[v := Deleting(k)]
    ensures t.store == s.store[Dest(c.objects[k]) := s.store[Source(c.objects[k]).value]]
  {
    var u := One(c, s, Work(v));
    assert u.workers == s.workers[v := Copying(k)] && u.jobs == Tail(k + 1, |c.objects|);
    t := One(c, u, Work(v));
    assert t.workers == s.workers[v := Deleting(k)];
    RunsCompose(c, s, [Work(v)], u, [Work(v)], t);
    steps := [Work(v)] + [Work(v)];
  }

  /** Worker v works off jobs that S3 refuses, which changes nothing. */
  lemma {:induction false} PassRefused(c: Setting, s: State, k: nat, m: nat, v: nat)
    returns (steps: seq<Step>, t: State)
    requires Ready(c, s, k) && k <= m <= |c.objects| && v < |s.workers| && s.workers[v].Idle?
    requires forall x :: k <= x < m ==> c.faults[x] == REFUSED
    ensures Reaches(c, s, steps, t) && Ready(c, t, m)
    ensures t.workers == s.workers && t.store == s.store
  {
    steps, t := RunThrough(c, s, k, m, v);
    RefusedChangeNothing(c, s.store, k, m);
  }

  /** The store with the copy that both jobs make. */
  function WithCopy(store: Store, job: CopyObject): Store
    requires Source(job).Some? && Source(job).value in store
  {
    store[Dest(job) := store[Source(job).value]]
  }

  /** Worker 0 copies job i and pauses; worker 1 works off the jobs in between. */
  lemma {:induction false} FirstCopied(c: Setting, s: State, i: nat, j: nat) returns (steps: seq<Step>, t: State)
    requires Ready(c, s, i) && i < j < |c.objects| && |s.workers| >= 2 && s.workers[0].Idle? && s.workers[1].Idle?
    requires c.faults[i] == GRANTED && forall x :: i < x < j ==> c.faults[x] == REFUSED
    requires Effective(c.objects[i]) && Source(c.objects[i]).value in s.store
    ensures Reaches(c, s, steps, t) && Ready(c, t, j)
    ensures t.workers == s.workers[0 := Deleting(i)] && t.store == WithCopy(s.store, c.objects[i])
  {
    var first, a := CopyAndPause(c, s, i, 0);
    var second;
    second, t := PassRefused(c, a, i + 1, j, 1);
    RunsCompose(c, s, first, a, second, t);
    steps := first + second;
  }

  /** Then worker 1 copies job j, which asks for the same move. */
  lemma {:induction false} BothCopied(c: Setting, s: State, i: nat, j: nat) returns (steps: seq<Step>, t: State)
    requires Ready(c, s, i) && i < j < |c.objects| && |s.workers| >= 2 && s.workers[0].Idle? && s.workers[1].Idle?
    requires c.faults == Plan(|c.objects|, i, GRANTED, j, UNDONE)
    requires Effective(c.objects[i]) && SameMove(c.objects[i], c.objects[j])
    requires Source(c.objects[i]).value in s.store
    ensures Reaches(c, s, steps, t) && Sized(c, t)
    ensures |t.workers| >= 2 && t.workers[0] == Deleting(i) && t.workers[1] == Deleting(j)
    ensures t.store == WithCopy(s.store, c.objects[i])
  {
    var begin, b := FirstCopied(c, s, i, j);
    var third;
    third, t := CopyAndPause(c, b, j, 1);
    RunsCompose(c, s, begin, b, third, t);
    steps := begin + third;
  }

  /** Job j fails to delete the source, job i deletes it, and job j deletes the destination. */
  lemma {:induction false} BothDeleted(c: Setting, s: State, i: nat, j: nat) returns (steps: seq<Step>, t: State)
    requires Sized(c, s) && i < j < |c.objects|
    requires c.faults == Plan(|c.objects|, i, GRANTED, j, UNDONE)
    requires |s.workers| >= 2 && s.workers[0] == Deleting(i) && s.workers[1] == Deleting(j)
    ensures Reaches(c, s, steps, t)
    ensures t.store == s.store - {DeletedSource(c.objects[i])} - {Dest(c.objects[j])}
  {
    var a := One(c, s, Work(1));
    assert a.workers[0] == Deleting(i) && a.workers[1] == RollingBack(j);
    var b := One(c, a, Work(0));
    assert b.workers[1] == RollingBack(j) && b.store == s.store - {DeletedSource(c.objects[i])};
    t := One(c, b, Work(1));
    RunsCompose(c, s, [Work(1)], a, [Work(0)], b);
    RunsCompose(c, s, [Work(1)] + [Work(0)], b, [Work(1)], t);
    steps := [Work(1)] + [Work(0)] + [Work(1)];
  }

  lemma ClashDestroys(objects: seq<CopyObject>, workers: nat, i: nat, j: nat)
    returns (c: Setting, steps: seq<Step>, t: State, victim: nat)
    requires workers >= 1 && i < |objects| && j < |objects| && i != j && Clash(objects[i], objects[j], workers)
    ensures c.objects == objects && c.workers == workers && Destroys(c, steps, t, victim)
  {
    var lo, hi := if i < j then i else j, if i < j then j else i;
    if Source(objects[j]) == Some(Dest(objects[i])) {
      c, steps, t := ChainDestroys(objects, workers, i, j);
      victim := j;
    } else if Source(objects[i]) == Source(objects[j]) {
      c, steps, t := DuplicateDestroys(objects, workers, lo, hi);
      victim := lo;
    } else {
      c, steps, t := OverwriteDestroys(objects, workers, lo, hi);
      victim := lo;
    }
  }

  /** No store, no answers of S3 and no schedule make a reachable state lose the content of a source. */
  ghost predicate NeverDestroys(objects: seq<CopyObject>, workers: nat) {
    forall c: Setting, steps, t, i ::
      c.objects == objects && c.workers == workers && 0 <= i < |objects| ==> !Destroys(c, steps, t, i)
  }

  /** For any request and any number of workers: the content of every requested source stays in the store,
      whatever the store holds, S3 answers and the scheduler does, if and only if no two jobs clash. */
  lemma KeptExactlyWhenNoClash(objects: seq<CopyObject>, workers: nat)
    requires workers >= 1
    ensures NeverDestroys(objects, workers) <==> NoClash(objects, workers)
  {
    if NoClash(objects, workers) {
      forall c: Setting, steps, t, i | c.objects == objects && c.workers == workers && 0 <= i < |objects|
        ensures !Destroys(c, steps, t, i)
      {
        if Destroys(c, steps, t, i) { NothingVanishes(c, steps, t, i); }
      }
    } else {
      var i: nat, j: nat :| i < |objects| && j < |objects| && i != j && Clash(objects[i], objects[j], workers);
      var c, steps, t, victim := ClashDestroys(objects, workers, i, j);
    }
  }

  // ---------------------------------------------------------------- conflicting requests misplace an object

  /** One source, two destinations: job i moves the object, and job j, which is refused, has it at neither
      of its places. */
  lemma SplitMisplaces(objects: seq<CopyObject>, workers: nat, i: nat, j: nat)
    returns (c: Setting, steps: seq<Step>, t: State)
    requires workers >= 1 && i < |objects| && j < |objects| && Effective(objects[i])
    requires Source(objects[i]) == Source(objects[j]) && Dest(objects[i]) != Dest(objects[j])
    ensures c.objects == objects && c.workers == workers && Loses(c, steps, t, j)
    ensures At(t.store, Dest(objects[i])) == At(c.original, SourceOf(objects, i))
  {
    var victim := SourceOf(objects, i);
    c := Setting(objects, Plan(|objects|, i, GRANTED, i, GRANTED), workers, Stocked(objects, victim));
    StockedAt(objects, victim, victim);
    StockedAt(objects, victim, Dest(objects[j]));
    OneJob(c, i, GRANTED);
    steps, t := SequentialIsARun(c, |objects|);
    GrantedMove(c.original, objects[i], victim);
    GrantedMove(c.original, objects[i], Dest(objects[j]));
    GrantedMove(c.original, objects[i], Dest(objects[i]));
  }

  /** A conflict is a clash, one way or the other, or one source with two destinations. */
  lemma ConflictKinds(a: CopyObject, b: CopyObject, workers: nat)
    requires workers >= 1 && Conflict(a, b, workers)
    ensures Clash(a, b, workers) || Clash(b, a, workers)
            || (Source(a) == Source(b) && Dest(a) != Dest(b) && (Effective(a) || Effective(b)))
  {
  }

  lemma ConflictLoses(objects: seq<CopyObject>, workers: nat, i: nat, j: nat)
    returns (c: Setting, steps: seq<Step>, t: State, victim: nat)
    requires workers >= 1 && i < |objects| && j < |objects| && i != j && Conflict(objects[i], objects[j], workers)
    ensures c.objects == objects && c.workers == workers && Loses(c, steps, t, victim)
  {
    ConflictKinds(objects[i], objects[j], workers);
    if Clash(objects[i], objects[j], workers) {
      c, steps, t, victim := ClashDestroys(objects, workers, i, j);
    } else if Clash(objects[j], objects[i], workers) {
      c, steps, t, victim := ClashDestroys(objects, workers, j, i);
    } else if Effective(objects[i]) {
      c, steps, t := SplitMisplaces(objects, workers, i, j);
      victim := j;
    } else {
      c, steps, t := SplitMisplaces(objects, workers, j, i);
      victim := i;
    }
  }

  ghost predicate NeverLoses(objects: seq<CopyObject>, workers: nat) {
    forall c: Setting, steps, t, i ::
      c.objects == objects && c.workers == workers && 0 <= i < |objects| ==> !Loses(c, steps, t, i)
  }

  /** For any request and any number of workers: every job's content is at its own source or its own
      destination in every reachable state if and only if no two jobs are in conflict. */
  lemma SafeExactlyWhenNoConflict(objects: seq<CopyObject>, workers: nat)
    requires workers >= 1
    ensures NeverLoses(objects, workers) <==> NoConflict(objects, workers)
  {
    if NoConflict(objects, workers) {
      forall c: Setting, steps, t, i | c.objects == objects && c.workers == workers && 0 <= i < |objects|
        ensures !Loses(c, steps, t, i)
      {
        if Loses(c, steps, t, i) { OwnPlacesKept(c, steps, t); }
      }
    } else {
      var i: nat, j: nat :| i < |objects| && j < |objects| && i != j && Conflict(objects[i], objects[j], workers);
      var c, steps, t, victim := ConflictLoses(objects, workers, i, j);
      assert !SafeFor(c, t.store, victim);
    }
  }
}

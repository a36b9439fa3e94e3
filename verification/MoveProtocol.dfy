/**
  The worker pool of MoveObjects as a step relation.

  A run is a sequence of steps chosen by the scheduler.  The outcome of every S3 call that is not
  forced by the store is chosen beforehand, per job and per call, in `Faults`: a job makes each of
  its three calls at most once, so quantifying over all fault plans covers every way S3 can answer.
 */
module MoveProtocol {
  import opened Wrappers

  type Content = string

  datatype Location = Location(bucket: string, key: string)

  type Store = map<Location, Content>

  datatype CopyObject = CopyObject(bucket: string, copySource: string, key: string)

  datatype S3Error = S3Error(code: string, message: string)

  /** What S3 answers to the copy, to the delete of the source and to the rollback delete. */
  datatype Faults = Faults(copy: Option<S3Error>, delete: Option<S3Error>, rollback: Option<S3Error>)

  datatype MoveResult = MoveResult(success: bool, src: string, dest: string, code: string, message: string)

  const NO_SUCH_KEY := S3Error("NoSuchKey", "NoSuchKey")
  const INVALID_REQUEST := S3Error("InvalidRequest", "InvalidRequest")

  // ---------------------------------------------------------------- one job, seen from S3

  /** The index of the first slash, if there is one. */
  function SlashIndex(s: string): (r: Option<nat>)
    ensures r.Some? ==> r.value < |s| && s[r.value] == '/' && '/' !in s[..r.value]
    ensures r.None? ==> '/' !in s
  {
    if s == "" then None
    else if s[0] == '/' then Some(0)
    else
      match SlashIndex(s[1..])
      case None => None
      case Some(k) =>
        assert s[..k + 1] == [s[0]] + s[1..][..k];
        Some(k + 1)
  }

  /** bucket/key of a copy source; a source without a slash names no object. */
  function Source(job: CopyObject): Option<Location> {
    match SlashIndex(job.copySource)
    case None => None
    case Some(k) => Some(Location(job.copySource[..k], job.copySource[k + 1..]))
  }

  /** Bucket names hold no slash: the bucket is what stands before the first one, the key all after it. */
  lemma {:induction false} SourceMeaning(job: CopyObject, bucket: string, key: string)
    requires '/' !in bucket
    ensures Source(job) == Some(Location(bucket, key)) <==> job.copySource == bucket + "/" + key
    ensures Source(job) == None <==> '/' !in job.copySource
  {
    var s := job.copySource;
    if Source(job).Some? {
      var k := SlashIndex(s).value;
      assert s == s[..k] + "/" + s[k + 1..];
    }
    if s == bucket + "/" + key {
      assert s[|bucket|] == '/';
      var k := SlashIndex(s).value;
      assert s[..k] == bucket && s[k + 1..] == key;
    }
  }

  function Dest(job: CopyObject): Location {
    Location(job.bucket, job.key)
  }

  predicate SelfMove(job: CopyObject) {
    Source(job) == Some(Dest(job))
  }

  /** CopyObject: fails as planned, because source and destination are the same object, whose metadata
      is not replaced, or because the source is missing; it then changes nothing. */
  function CopyError(store: Store, job: CopyObject, fault: Option<S3Error>): Option<S3Error> {
    if fault.Some? then fault
    else if SelfMove(job) then Some(INVALID_REQUEST)
    else if Source(job).None? || Source(job).value !in store then Some(NO_SUCH_KEY)
    else None
  }

  function CopyCall(store: Store, job: CopyObject, fault: Option<S3Error>): Store {
    if CopyError(store, job, fault).Some? then store
    else store[Dest(job) := store[Source(job).value]]
  }

  /** DeleteObject: succeeds on a missing object, as S3 does. */
  function DeleteCall(store: Store, loc: Location, fault: Option<S3Error>): Store {
    if fault.Some? then store else store - {loc}
  }

  /** The source location the worker deletes; only reached after a copy that found a source. */
  function DeletedSource(job: CopyObject): Location {
    match Source(job)
    case None => Dest(job)
    case Some(loc) => loc
  }

  function Outcome(job: CopyObject, success: bool, error: Option<S3Error>): MoveResult {
    var e := if error.Some? then error.value else S3Error("", "");
    MoveResult(success, job.copySource, job.bucket + "/" + job.key, e.code, e.message)
  }

  // ---------------------------------------------------------------- the protocol

  /** One request: its objects, S3's answers, the number of goroutines and the store it finds. */
  datatype Setting = Setting(objects: seq<CopyObject>, faults: seq<Faults>, workers: nat, original: Store) {
    ghost predicate Valid() {
      |faults| == |objects| && workers >= 1
    }
  }

  /** A result in a channel or in the response, tagged with the job that produced it. */
  datatype Report = Report(job: nat, result: MoveResult)

  /** Where a goroutine stands in the body of its loop over the jobs channel. */
  datatype Worker =
    | Idle
    | Copying(job: nat)
    | Deleting(job: nat)
    | RollingBack(job: nat)
    | Reporting(report: Report)
    | Exited

  /** `sent`, `closed` and `collected` are the position of the main goroutine. */
  datatype State = State(
    sent: nat,
    closed: bool,
    jobs: seq<nat>,
    workers: seq<Worker>,
    results: seq<Report>,
    collected: seq<Report>,
    store: Store)

  datatype Step = Send | Close | Collect | Work(worker: nat)

  function Init(c: Setting): State {
    State(0, false, [], seq(c.workers, _ => Idle), [], [], c.original)
  }

  /** Every index a state carries names a job of the request. */
  ghost predicate WellTyped(c: Setting, s: State) {
    && c.Valid()
    && |s.workers| == c.workers
    && s.sent <= |c.objects|
    && (s.closed ==> s.sent == |c.objects|)
    && (s.collected != [] ==> s.closed)
    && (forall k :: 0 <= k < |s.jobs| ==> s.jobs[k] < |c.objects|)
    && (forall k :: 0 <= k < |s.workers| ==> Carries(s.workers[k], |c.objects|))
    && (forall k :: 0 <= k < |s.results| ==> s.results[k].job < |c.objects|)
    && (forall k :: 0 <= k < |s.collected| ==> s.collected[k].job < |c.objects|)
    && (forall k :: 0 <= k < |s.workers| && s.workers[k].Exited? ==> s.closed && s.jobs == [])
  }

  predicate Carries(w: Worker, n: nat) {
    w.Idle? || w.Exited? || JobOf(w) < n
  }

  function JobOf(w: Worker): nat
    requires !w.Idle? && !w.Exited?
  {
    if w.Reporting? then w.report.job else w.job
  }

  /** Both channels are made with room for as many items as there are objects. */
  ghost predicate Enabled(c: Setting, s: State, step: Step) {
    match step
    case Send => s.sent < |c.objects| && |s.jobs| < |c.objects|
    case Close => s.sent == |c.objects| && !s.closed
    case Collect => s.closed && |s.collected| < |c.objects| && s.results != []
    case Work(k) =>
      k < |s.workers| &&
      match s.workers[k]
      case Idle => s.jobs != [] || s.closed
      case Reporting(_) => |s.results| < |c.objects|
      case Exited => false
      case _ => true
  }

  function WorkerStep(c: Setting, s: State, k: nat): (Worker, Store)
    requires WellTyped(c, s) && k < |s.workers|
  {
    match s.workers[k]
    case Idle =>
      (if s.jobs != [] then Copying(s.jobs[0]) else Exited, s.store)
    case Copying(i) =>
      var error := CopyError(s.store, c.objects[i], c.faults[i].copy);
      (if error.Some? then Reporting(Report(i, Outcome(c.objects[i], false, error))) else Deleting(i),
       CopyCall(s.store, c.objects[i], c.faults[i].copy))
    case Deleting(i) =>
      (if c.faults[i].delete.Some? then RollingBack(i)
       else Reporting(Report(i, Outcome(c.objects[i], true, None))),
       DeleteCall(s.store, DeletedSource(c.objects[i]), c.faults[i].delete))
    case RollingBack(i) =>
      // the error of the failed source delete is overwritten here, so a successful
      // rollback reports a failure with neither code nor message
      (Reporting(Report(i, Outcome(c.objects[i], false, c.faults[i].rollback))),
       DeleteCall(s.store, Dest(c.objects[i]), c.faults[i].rollback))
    case Reporting(_) => (Idle, s.store)
    case Exited => (Exited, s.store)
  }

  function Next(c: Setting, s: State, step: Step): State
    requires WellTyped(c, s) && Enabled(c, s, step)
  {
    match step
    case Send => s.(sent := s.sent + 1, jobs := s.jobs + [s.sent])
    case Close => s.(closed := true)
    case Collect => s.(results := s.results[1..], collected := s.collected + [s.results[0]])
    case Work(k) =>
      var (w, store) := WorkerStep(c, s, k);
      s.(workers := s.workers[k := w],
         store := store,
         jobs := if s.workers[k].Idle? && s.jobs != [] then s.jobs[1..] else s.jobs,
         results := if s.workers[k].Reporting? then s.results + [s.workers[k].report] else s.results)
  }

  /** `t` is reached from `s` by exactly these steps, each enabled when it is taken. */
  ghost predicate Reaches(c: Setting, s: State, steps: seq<Step>, t: State)
    decreases |steps|
  {
    WellTyped(c, s) &&
    if steps == [] then s == t
    else Enabled(c, s, steps[0]) && Reaches(c, Next(c, s, steps[0]), steps[1..], t)
  }

  /** The handler has received every result, and every goroutine has left its loop. */
  ghost predicate Final(c: Setting, s: State) {
    && s.closed && |s.collected| == |c.objects|
    && forall k :: 0 <= k < |s.workers| ==> s.workers[k].Exited?
  }

  // ---------------------------------------------------------------- conservation

  /** How often worker `w` holds job `i`. */
  function HeldBy(w: Worker, i: nat): nat {
    if !w.Idle? && !w.Exited? && JobOf(w) == i then 1 else 0
  }

  function Held(workers: seq<Worker>, i: nat): nat {
    if workers == [] then 0 else HeldBy(workers[0], i) + Held(workers[1..], i)
  }

  function Ids(reports: seq<Report>): seq<nat> {
    seq(|reports|, k requires 0 <= k < |reports| => reports[k].job)
  }

  /** How often job `i` occurs: unsent, in the jobs channel, in a worker's hands, in the
      results channel and collected. */
  ghost function Places(c: Setting, s: State, i: nat): nat {
    (if s.sent <= i < |c.objects| then 1 else 0)
      + multiset(s.jobs)[i] + Held(s.workers, i) + multiset(Ids(s.results))[i] + multiset(Ids(s.collected))[i]
  }

  /** Every job is in exactly one place, and nothing else is anywhere. */
  ghost predicate Conserved(c: Setting, s: State) {
    && WellTyped(c, s)
    && forall i: nat :: Places(c, s, i) == if i < |c.objects| then 1 else 0
  }

  lemma {:induction false} HeldUpdate(workers: seq<Worker>, k: nat, w: Worker, i: nat)
    requires k < |workers|
    ensures Held(workers[k := w], i) + HeldBy(workers[k], i) == Held(workers, i) + HeldBy(w, i)
  {
    var updated := workers[k := w];
    if k > 0 {
      HeldUpdate(workers[1..], k - 1, w, i);
      assert updated[1..] == workers[1..][k - 1 := w];
    } else {
      assert updated[1..] == workers[1..];
    }
  }

  lemma {:induction false} HeldNone(n: nat, i: nat)
    ensures Held(seq(n, _ => Idle), i) == 0
  {
    if n > 0 {
      assert seq(n, _ => Idle)[1..] == seq(n - 1, _ => Idle);
      HeldNone(n - 1, i);
    }
  }

  lemma IdsConcat(a: seq<Report>, b: seq<Report>)
    ensures Ids(a + b) == Ids(a) + Ids(b)
  {
  }

  lemma InitConserved(c: Setting)
    requires c.Valid()
    ensures Conserved(c, Init(c))
  {
    var s := Init(c);
    assert Ids(s.results) == [] && Ids(s.collected) == [];
    forall i: nat ensures Places(c, s, i) == if i < |c.objects| then 1 else 0 {
      HeldNone(c.workers, i);
    }
  }

  lemma StepWellTyped(c: Setting, s: State, step: Step)
    requires WellTyped(c, s) && Enabled(c, s, step)
    ensures WellTyped(c, Next(c, s, step))
  {
    if step.Work? {
      var k := step.worker;
      assert Carries(s.workers[k], |c.objects|);
      assert Carries(WorkerStep(c, s, k).0, |c.objects|);
    }
  }

  lemma {:induction false} StepConserves(c: Setting, s: State, step: Step)
    requires Conserved(c, s) && Enabled(c, s, step)
    ensures Conserved(c, Next(c, s, step))
  {
    StepWellTyped(c, s, step);
    var t := Next(c, s, step);
    forall i: nat ensures Places(c, t, i) == Places(c, s, i) {
      match step
      case Send =>
      case Close =>
      case Collect =>
        var r := s.results[0];
        assert s.results == [r] + s.results[1..];
        IdsConcat([r], s.results[1..]);
        IdsConcat(s.collected, [r]);
        assert Ids([r]) == [r.job];
      case Work(k) => WorkKeepsPlaces(c, s, k, i);
    }
  }

  lemma {:induction false} WorkKeepsPlaces(c: Setting, s: State, k: nat, i: nat)
    requires WellTyped(c, s) && Enabled(c, s, Work(k))
    ensures Places(c, Next(c, s, Work(k)), i) == Places(c, s, i)
  {
    var t := Next(c, s, Work(k));
    var before, after := s.workers[k], WorkerStep(c, s, k).0;
    HeldUpdate(s.workers, k, after, i);
    assert t.workers == s.workers[k := after];
    if before.Idle? && s.jobs != [] {
      assert s.jobs == [s.jobs[0]] + t.jobs;
    } else if before.Reporting? {
      IdsConcat(s.results, [before.report]);
      assert Ids([before.report]) == [JobOf(before)];
    } else {
      assert HeldBy(after, i) == HeldBy(before, i);
    }
  }

  /** Over every run, no job is ever lost, duplicated or invented. */
  lemma {:induction false} RunsConserve(c: Setting, s: State, steps: seq<Step>, t: State)
    requires Conserved(c, s) && Reaches(c, s, steps, t)
    ensures Conserved(c, t)
    decreases |steps|
  {
    if steps != [] {
      StepConserves(c, s, steps[0]);
      RunsConserve(c, Next(c, s, steps[0]), steps[1..], t);
    }
  }
}

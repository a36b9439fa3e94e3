/**
  Progress of the worker pool: no channel send ever waits, every state that is not final has an
  enabled step, and a measure falls on every step, so every schedule ends with the response
  complete and every goroutine gone.
 */
module MoveProgress {
  import opened MoveProtocol

  function Busy(workers: seq<Worker>): nat {
    if workers == [] then 0
    else (if workers[0].Idle? || workers[0].Exited? then 0 else 1) + Busy(workers[1..])
  }

  /** The channels, the workers' hands and the response together hold the whole request. */
  ghost predicate Sized(c: Setting, s: State) {
    WellTyped(c, s) &&
    |c.objects| - s.sent + |s.jobs| + Busy(s.workers) + |s.results| + |s.collected| == |c.objects|
  }

  /** How many steps are still ahead of a job in this position. */
  function Weight(w: Worker): nat {
    match w
    case Idle => 1
    case Copying(_) => 6
    case Deleting(_) => 5
    case RollingBack(_) => 4
    case Reporting(_) => 3
    case Exited => 0
  }

  function Weights(workers: seq<Worker>): nat {
    if workers == [] then 0 else Weight(workers[0]) + Weights(workers[1..])
  }

  function Measure(c: Setting, s: State): int {
    7 * (|c.objects| - s.sent) + 6 * |s.jobs| + Weights(s.workers) + |s.results| + if s.closed then 0 else 1
  }

  lemma {:induction false} UpdateTotals(workers: seq<Worker>, k: nat, w: Worker)
    requires k < |workers|
    ensures Weights(workers[k := w]) == Weights(workers) - Weight(workers[k]) + Weight(w)
    ensures Busy(workers[k := w]) + Busy([workers[k]]) == Busy(workers) + Busy([w])
  {
    var updated := workers[k := w];
    if k > 0 {
      UpdateTotals(workers[1..], k - 1, w);
      assert updated[1..] == workers[1..][k - 1 := w];
    } else {
      assert updated[1..] == workers[1..];
    }
  }

  lemma {:induction false} IdleTotals(n: nat)
    ensures Weights(seq(n, _ => Idle)) == n && Busy(seq(n, _ => Idle)) == 0
  {
    if n > 0 {
      assert seq(n, _ => Idle)[1..] == seq(n - 1, _ => Idle);
      IdleTotals(n - 1);
    }
  }

  lemma {:induction false} BusyPositive(workers: seq<Worker>, k: nat)
    requires k < |workers| && !workers[k].Idle? && !workers[k].Exited?
    ensures Busy(workers) > 0
  {
    if k > 0 { BusyPositive(workers[1..], k - 1); }
  }

  lemma {:induction false} AllExited(workers: seq<Worker>)
    requires forall k :: 0 <= k < |workers| ==> workers[k].Exited?
    ensures Busy(workers) == 0
  {
    if workers != [] { AllExited(workers[1..]); }
  }

  lemma {:induction false} StepTotals(c: Setting, s: State, step: Step)
    requires Sized(c, s) && Enabled(c, s, step)
    ensures Sized(c, Next(c, s, step))
    ensures 0 <= Measure(c, Next(c, s, step)) < Measure(c, s)
  {
    StepWellTyped(c, s, step);
    if step.Work? { WorkTotals(c, s, step.worker); }
  }

  lemma {:induction false} WorkTotals(c: Setting, s: State, k: nat)
    requires Sized(c, s) && Enabled(c, s, Work(k)) && WellTyped(c, Next(c, s, Work(k)))
    ensures Sized(c, Next(c, s, Work(k)))
    ensures 0 <= Measure(c, Next(c, s, Work(k))) < Measure(c, s)
  {
    var t, before, after := Next(c, s, Work(k)), s.workers[k], WorkerStep(c, s, k).0;
    UpdateTotals(s.workers, k, after);
    assert t.workers == s.workers[k := after] && t.sent == s.sent && t.closed == s.closed;
    WorkMoves(c, s, k);
  }

  /** What a goroutine's step takes from the jobs channel and adds to the results channel. */
  lemma WorkMoves(c: Setting, s: State, k: nat)
    requires WellTyped(c, s) && Enabled(c, s, Work(k))
    ensures var t, before, after := Next(c, s, Work(k)), s.workers[k], WorkerStep(c, s, k).0;
            |t.jobs| + Busy([after]) + |t.results| == |s.jobs| + Busy([before]) + |s.results|
            && 6 * |t.jobs| + Weight(after) + |t.results| < 6 * |s.jobs| + Weight(before) + |s.results|
            && t.collected == s.collected
  {
  }

  /** No send ever waits: a channel that is about to be written to has room. */
  lemma SendsNeverBlock(c: Setting, s: State)
    requires Sized(c, s)
    ensures s.sent < |c.objects| ==> Enabled(c, s, Send)
    ensures forall k | 0 <= k < |s.workers| && s.workers[k].Reporting? :: Enabled(c, s, Work(k))
  {
    forall k | 0 <= k < |s.workers| && s.workers[k].Reporting? ensures Enabled(c, s, Work(k)) {
      BusyPositive(s.workers, k);
    }
  }

  /** There is no deadlock: a state in which nothing can happen is final, and conversely. */
  lemma StuckExactlyWhenFinal(c: Setting, s: State)
    requires Sized(c, s)
    ensures Final(c, s) <==> forall step :: !Enabled(c, s, step)
  {
    SendsNeverBlock(c, s);
    if Final(c, s) {
      forall step ensures !Enabled(c, s, step) {
        if step.Work? && step.worker < |s.workers| { assert s.workers[step.worker].Exited?; }
      }
    } else if s.sent < |c.objects| {
      assert Enabled(c, s, Send);
    } else if !s.closed {
      assert Enabled(c, s, Close);
    } else if k :| 0 <= k < |s.workers| && !s.workers[k].Exited? {
      assert Enabled(c, s, Work(k));
    } else {
      AllExited(s.workers);
      assert s.workers[0].Exited? && s.jobs == [];
      assert Enabled(c, s, Collect);
    }
  }

  lemma {:induction false} RunsAreBounded(c: Setting, s: State, steps: seq<Step>, t: State)
    requires Sized(c, s) && Reaches(c, s, steps, t)
    ensures Sized(c, t)
    ensures |steps| + Measure(c, t) <= Measure(c, s)
    ensures 0 <= Measure(c, t)
    decreases |steps|
  {
    if steps != [] {
      StepTotals(c, s, steps[0]);
      RunsAreBounded(c, Next(c, s, steps[0]), steps[1..], t);
    }
  }

  lemma InitSized(c: Setting)
    requires c.Valid()
    ensures Sized(c, Init(c))
    ensures Measure(c, Init(c)) == 7 * |c.objects| + c.workers + 1
  {
    IdleTotals(c.workers);
  }

  /** Every schedule ends: no run from the start is longer than this, for the empty request too. */
  lemma EveryRunEnds(c: Setting, steps: seq<Step>, t: State)
    requires c.Valid() && Reaches(c, Init(c), steps, t)
    ensures |steps| <= 7 * |c.objects| + c.workers + 1
    ensures Final(c, t) <==> forall step :: !Enabled(c, t, step)
  {
    InitSized(c);
    RunsAreBounded(c, Init(c), steps, t);
    StuckExactlyWhenFinal(c, t);
  }

  lemma {:induction false} RunsCompose(c: Setting, s: State, a: seq<Step>, t: State, b: seq<Step>, u: State)
    requires Reaches(c, s, a, t) && Reaches(c, t, b, u)
    ensures Reaches(c, s, a + b, u)
    decreases |a|
  {
    var ab := a + b;
    if a == [] {
      assert ab == b;
    } else {
      assert ab[0] == a[0] && ab[1..] == a[1..] + b;
      var s' := Next(c, s, a[0]);
      RunsCompose(c, s', a[1..], t, b, u);
      assert Reaches(c, s', ab[1..], u) && Enabled(c, s, ab[0]) && ab != [];
    }
  }

  /** From every reachable state the handler can still finish. */
  lemma {:induction false} CanFinish(c: Setting, s: State) returns (steps: seq<Step>, t: State)
    requires Sized(c, s)
    ensures Reaches(c, s, steps, t) && Final(c, t)
    decreases Measure(c, s)
  {
    if Final(c, s) {
      steps, t := [], s;
    } else {
      StuckExactlyWhenFinal(c, s);
      var step :| Enabled(c, s, step);
      StepTotals(c, s, step);
      var rest;
      rest, t := CanFinish(c, Next(c, s, step));
      steps := [step] + rest;
      assert steps[1..] == rest;
    }
  }
}

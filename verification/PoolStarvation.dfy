/** Exactly when the worker pool can starve a task: the per-worker cap against the length of the queue. */
module PoolStarvation {
  import opened Wrappers
  import opened WorkerPool
  import opened PoolRuns

  lemma {:induction false} RunAppend(s: Pool, a: seq<Step>, b: seq<Step>)
    requires Run(s, a).Some?
    ensures Run(s, a + b) == Run(Run(s, a).value, b)
    decreases |a|
  {
    if a == [] {
      assert a + b == b;
    } else {
      assert (a + b)[1..] == a[1..] + b;
      RunAppend(Next(s, a[0]), a[1..], b);
    }
  }

  lemma {:induction false} RunInv(s: Pool, steps: seq<Step>)
    requires Inv(s) && Run(s, steps).Some?
    ensures Inv(Run(s, steps).value)
    decreases |steps|
  {
    if steps != [] {
      StepKeepsInv(s, steps[0]);
      RunInv(Next(s, steps[0]), steps[1..]);
    }
  }

  /** A diagnostic once raised is never taken back. */
  lemma {:induction false} DiagnosticsStay(s: Pool, steps: seq<Step>)
    requires Run(s, steps).Some?
    ensures s.diagnostics <= Run(s, steps).value.diagnostics
    decreases |steps|
  {
    if steps != [] {
      DiagnosticsStay(Next(s, steps[0]), steps[1..]);
    }
  }

  /** One worker alone can pop past its cap while the others have not started. */
  ghost predicate CanOverrun(s: Pool) {
    && s.phase.Spawned? && s.workers != [] && s.workers[0].pc.Ready?
    && s.workers[0].steps <= s.cap < U64_MAX && s.workers[0].steps + |s.queue| > s.cap
  }

  lemma {:induction false} OneWorkerOverruns(s: Pool) returns (steps: seq<Step>)
    requires CanOverrun(s)
    ensures Run(s, steps).Some? && forall step | step in steps :: !step.Join?
    ensures var t := Run(s, steps).value; t.phase.Spawned? && "A0011" in t.diagnostics
    decreases |s.queue|
  {
    var popped := Next(s, Pop(0));
    if popped.workers[0].pc.OverCap? {
      steps := [Pop(0), RecordCap(0)];
      RunTwo(s, Pop(0), RecordCap(0));
    } else {
      var finished := Next(popped, Finish(0));
      var rest := OneWorkerOverruns(finished);
      RunTwo(s, Pop(0), Finish(0));
      RunAppend(s, [Pop(0), Finish(0)], rest);
      steps := [Pop(0), Finish(0)] + rest;
    }
  }

  lemma RunTwo(s: Pool, a: Step, b: Step)
    requires Enabled(s, a) && Enabled(Next(s, a), b)
    ensures Run(s, [a, b]) == Some(Next(Next(s, a), b))
  {
    assert [a, b][1..] == [b] && [b][1..] == [];
    assert Run(Next(s, a), [b]) == Run(Next(Next(s, a), b), []);
  }

  ghost predicate Joins(s0: Pool, steps: seq<Step>) {
    && (forall step | step in steps :: !step.Join?)
    && Run(s0, steps).Some? && Enabled(Run(s0, steps).value, Join)
  }

  /** The diagnostics of the report an interleaving ends with. */
  ghost function Reported(s0: Pool, steps: seq<Step>): set<string>
    requires Joins(s0, steps)
  {
    Next(Run(s0, steps).value, Join).report.value.diagnostics
  }

  /** A pool just started, with nothing starved before. */
  ghost predicate JustStarted(s: Pool) {
    && Inv(s) && s.phase.Spawned? && (forall w | w in s.workers :: w == Worker(Ready, 0))
    && s.cap <= U64_MAX && |s.tally.submitted| < U64_MAX && "A0011" !in s.diagnostics
  }

  /** The queue is never longer than what was handed in. */
  lemma QueueBound(s: Pool)
    requires Conserved(s)
    ensures |s.queue| <= |s.tally.submitted|
  {
    var all := multiset(s.queue) + Held(s.workers) + multiset(s.tally.done) + multiset(s.tally.dropped);
    assert |all| == |s.tally.submitted|;
  }

  /** With more tasks than one worker may pop, some interleaving starves. */
  lemma OverrunJoins(s0: Pool) returns (steps: seq<Step>)
    requires JustStarted(s0) && |s0.queue| > s0.cap
    ensures Joins(s0, steps) && "A0011" in Reported(s0, steps)
  {
    QueueBound(s0);
    assert s0.workers[0] in s0.workers;
    var first := OneWorkerOverruns(s0);
    var s1 := Run(s0, first).value;
    RunInv(s0, first);
    StepKeepsInv(s1, FlagShutdown);
    var s2 := Next(s1, FlagShutdown);
    var last := EveryRunJoins(s2);
    DiagnosticsStay(s2, last);
    assert ([FlagShutdown] + last)[1..] == last;
    RunAppend(s0, first, [FlagShutdown] + last);
    steps := first + ([FlagShutdown] + last);
  }

  /** For any number of workers: every interleaving is free of A0011 if and only if the queue fits under
      one worker's cap. */
  lemma StarvesExactlyOverCap(s0: Pool)
    requires JustStarted(s0)
    ensures (forall steps | Joins(s0, steps) :: "A0011" !in Reported(s0, steps)) <==> |s0.queue| <= s0.cap
  {
    if |s0.queue| <= s0.cap {
      forall steps | Joins(s0, steps) ensures "A0011" !in Reported(s0, steps) {
        ScheduleIndependence(s0, steps);
      }
    } else {
      var steps := OverrunJoins(s0);
    }
  }

  /** A run that was just asked for is free of A0011 under every interleaving if and only if there are at
      most 1024 tasks for each step allowed. */
  lemma StartedStarvesExactly(s: Pool, workers: nat, m: nat)
    requires s.phase.Idle? && workers >= 1 && m <= U64_MAX && JustStarted(Next(s, StartRun(workers, m)))
    ensures var s0 := Next(s, StartRun(workers, m));
            (forall steps | Joins(s0, steps) :: "A0011" !in Reported(s0, steps)) <==> |s.queue| <= 1024 * m
  {
    var s0 := Next(s, StartRun(workers, m));
    StarvesExactlyOverCap(s0);
    QueueBound(s0);
    CapIs(m);
  }

  /** With a single worker it does not depend on the interleaving. */
  lemma OneWorkerStarvesExactlyOverCap(s0: Pool, steps: seq<Step>)
    requires JustStarted(s0) && |s0.workers| == 1 && Joins(s0, steps)
    ensures "A0011" in Reported(s0, steps) <==> |s0.queue| > s0.cap
  {
    QueueBound(s0);
    if |s0.queue| > s0.cap {
      OverloadStarves(s0, steps);
    } else {
      StarvesExactlyOverCap(s0);
    }
  }
}

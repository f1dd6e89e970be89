/** The parallel mode of the cooperative scheduler: its ready queue is shipped to the worker pool, and
    the pool's report is the same for every interleaving. */
module ParallelMode {
  import opened Wrappers
  import opened CoopScheduler
  import WP = WorkerPool
  import PR = PoolRuns
  import PS = PoolStarvation

  /** A pool that was handed `n` tasks, none of which panics. */
  ghost function Shipped(n: nat): (s: WP.Pool)
    ensures s.phase.Idle?
  {
    if n == 0 then WP.Empty() else WP.Next(Shipped(n - 1), WP.Submit(false))
  }

  lemma {:induction false} ShippedInv(n: nat)
    ensures WP.Inv(Shipped(n))
  {
    if n == 0 {
      WP.EmptyInv();
    } else {
      ShippedInv(n - 1);
      WP.StepKeepsInv(Shipped(n - 1), WP.Submit(false));
    }
  }

  /** The tasks are queued as they were handed in; nothing has run and nothing was refused. */
  predicate Fresh(s: WP.Pool, n: nat) {
    && !s.shutdown && s.queue == s.tally.submitted && |s.queue| == n && WP.Panics(s.queue) == 0
    && s.tally.done == [] && s.tally.cancelled == 0 && s.diagnostics == {}
  }

  lemma {:induction false} ShippedFresh(n: nat)
    ensures Fresh(Shipped(n), n)
  {
    if n > 0 {
      ShippedFresh(n - 1);
      SubmitFresh(Shipped(n - 1), n - 1);
    }
  }

  lemma SubmitFresh(s: WP.Pool, n: nat)
    requires s.phase.Idle? && Fresh(s, n)
    ensures Fresh(WP.Next(s, WP.Submit(false)), n + 1)
  {
    WP.PanicsAppend(s.queue, WP.Task(s.tally.accepted, false));
  }

  /** Every ready value becomes one task; parked futures stay where they are. */
  method ShipReady<V>(s: Scheduler<V>) returns (pool: WP.Pool)
    requires Healthy(s.View())
    modifies s
    ensures Healthy(s.View()) && s.queue == [] && s.waiting == old(s.waiting) && s.spawned == old(s.spawned)
    ensures s.completed == old(s.completed) + Elems(old(s.queue))
    ensures pool == Shipped(|old(s.queue)|)
  {
    pool := WP.Empty();
    ghost var s0, n: nat := s.View(), 0;
    DrainedNothing(s0);
    while s.queue != []
      invariant n <= |s0.queue| && s.View() == Drained(s0, n) && pool == Shipped(n)
      decreases |s.queue|
    {
      pool := ShipOne(s, s0, n, pool);
      ShipsOne(n, pool);
      n := n + 1;
    }
    DrainedHealthy(s0, n, s.unit);
    DrainedAll(s0, n);
  }

  lemma DrainedAll<V>(s: State<V>, n: nat)
    requires n <= |s.queue| && Drained(s, n).queue == []
    ensures n == |s.queue| && Drained(s, n).completed == s.completed + Elems(s.queue)
  {
    assert s.queue[..|s.queue|] == s.queue;
  }

  /** One more task in the pool. */
  ghost predicate Ships(before: WP.Pool, after: WP.Pool) {
    before.phase.Idle? && after == WP.Next(before, WP.Submit(false))
  }

  lemma ShipsOne(n: nat, after: WP.Pool)
    requires Ships(Shipped(n), after)
    ensures after == Shipped(n + 1)
  {
  }

  method ShipOne<V>(s: Scheduler<V>, ghost s0: State<V>, ghost n: nat, before: WP.Pool) returns (pool: WP.Pool)
    requires Healthy(s0) && n < |s0.queue| && s.View() == Drained(s0, n) && before.phase.Idle?
    modifies s
    ensures s.View() == Drained(s0, n + 1) && Ships(before, pool)
    ensures |s.queue| == |old(s.queue)| - 1
  {
    DrainedStep(s0, n, s.unit);
    pool := before;
    var id := s.queue[0];
    s.queue := s.queue[1..];
    if id in s.resumed {
      s.resumed := s.resumed - {id};
      s.completed := s.completed + {id};
      pool := WP.Next(pool, WP.Submit(false));
    }
  }

  /** What the pool reports for `n` shipped tasks. */
  function ModeReport(n: nat, workers: nat): WP.Report {
    WP.Report(if workers > 256 then 256 else workers, n, n, 0, 0, n, if workers > 256 then {"A0013"} else {})
  }

  ghost function StartedPool(n: nat, workers: nat, m: nat): WP.Pool
    requires m <= U64_MAX
  {
    WP.Next(Shipped(n), WP.StartRun(workers, m))
  }

  /** Parallel mode runs every ready task once and reports so, whatever the interleaving, when one worker
      could run them all: 1024 tasks for each step a task may take. */
  lemma ParallelReport(n: nat, workers: nat, m: nat, steps: seq<WP.Step>)
    requires workers >= 1 && m <= U64_MAX && n < U64_MAX && n <= 1024 * m
    requires PS.Joins(StartedPool(n, workers, m), steps)
    ensures WP.Next(WP.Run(StartedPool(n, workers, m), steps).value, WP.Join).report == Some(ModeReport(n, workers))
  {
    var s := Shipped(n);
    ShippedInv(n);
    ShippedFresh(n);
    PR.CapIs(m);
    PR.StartRunIsStartable(s, workers, m);
    Started(s, n, workers, m);
    PR.ScheduleIndependence(StartedPool(n, workers, m), steps);
  }

  /** The bound is needed: every interleaving gives that report if and only if there are at most 1024
      tasks for each step allowed, whatever the number of workers. */
  lemma ParallelReportExactly(n: nat, workers: nat, m: nat)
    requires workers >= 1 && m <= U64_MAX && n < U64_MAX
    ensures (forall steps | PS.Joins(StartedPool(n, workers, m), steps) ::
               WP.Next(WP.Run(StartedPool(n, workers, m), steps).value, WP.Join).report == Some(ModeReport(n, workers)))
            <==> n <= 1024 * m
  {
    PR.CapIs(m);
    if n <= 1024 * m {
      forall steps | PS.Joins(StartedPool(n, workers, m), steps)
        ensures WP.Next(WP.Run(StartedPool(n, workers, m), steps).value, WP.Join).report == Some(ModeReport(n, workers))
      {
        ParallelReport(n, workers, m, steps);
      }
    } else {
      StartedFresh(n, workers, m);
      var steps := PS.OverrunJoins(StartedPool(n, workers, m));
      assert "A0011" in PS.Reported(StartedPool(n, workers, m), steps);
    }
  }

  lemma StartedFresh(n: nat, workers: nat, m: nat)
    requires workers >= 1 && m <= U64_MAX && n < U64_MAX
    ensures var s0 := StartedPool(n, workers, m);
            PS.JustStarted(s0) && |s0.queue| == n && s0.cap == WP.StepCap(m)
  {
    ShippedInv(n);
    ShippedFresh(n);
    WP.StepKeepsInv(Shipped(n), WP.StartRun(workers, m));
    StartedAs(Shipped(n), workers, m);
    PR.CapIs(m);
  }

  lemma StartedAs(s: WP.Pool, workers: nat, m: nat)
    requires s.phase.Idle? && workers >= 1 && m <= U64_MAX && s.diagnostics == {}
    ensures var t := WP.Next(s, WP.StartRun(workers, m));
            && t.phase.Spawned? && (forall w | w in t.workers :: w == WP.Worker(WP.Ready, 0))
            && t.queue == s.queue && t.tally == s.tally && t.cap == WP.StepCap(m) && "A0011" !in t.diagnostics
  {
  }

  /** Without workers nothing runs: the report comes at once, and A0011 stands for any task at all. */
  lemma NoWorkersNothingRuns(n: nat, m: nat)
    requires m <= U64_MAX && n < U64_MAX
    ensures StartedPool(n, 0, m) == Shipped(n).(report := Some(IdleReport(n)))
  {
    ShippedInv(n);
    ShippedFresh(n);
    IdleTally(Shipped(n).tally, n);
    IdleStart(Shipped(n), n, m);
  }

  function IdleReport(n: nat): WP.Report {
    WP.Report(0, n, 0, 0, 0, 0, if n > 0 then {"A0011"} else {})
  }

  predicate Untouched(t: WP.Tally, n: nat) {
    t.accepted == n && t.completed == 0 && t.panicked == 0 && t.cancelled == 0 && t.totalSteps == 0
  }

  lemma IdleTally(t: WP.Tally, n: nat)
    requires WP.Counted(t) && |t.submitted| == n < U64_MAX && t.done == [] && t.cancelled == 0
    ensures Untouched(t, n)
  {
  }

  lemma IdleStart(s: WP.Pool, n: nat, m: nat)
    requires s.phase.Idle? && m <= U64_MAX && Untouched(s.tally, n) && s.diagnostics == {}
    ensures WP.Next(s, WP.StartRun(0, m)) == s.(report := Some(IdleReport(n)))
  {
    assert s.diagnostics + IdleReport(n).diagnostics == IdleReport(n).diagnostics;
  }

  lemma Started(s: WP.Pool, n: nat, workers: nat, m: nat)
    requires s.phase.Idle? && Fresh(s, n) && workers >= 1 && m <= U64_MAX && n < U64_MAX
    ensures var s0 := WP.Next(s, WP.StartRun(workers, m));
            s0.tally == s.tally && PR.Predicted(s0) == ModeReport(n, workers)
  {
    var s0 := WP.Next(s, WP.StartRun(workers, m));
    assert s0.tally.done + s0.queue == s0.queue;
  }
}

/** What every run of the worker pool guarantees: accounting, termination, the meaning of A0011,
    and independence of the schedule. */
module PoolRuns {
  import opened Wrappers
  import opened WorkerPool

  // ---------------------------------------------------------------------
  // Accounting
  // ---------------------------------------------------------------------

  /** Below saturation the books balance in every reachable state. */
  lemma Accounting(s: Pool)
    requires Inv(s) && |s.tally.submitted| < U64_MAX
    ensures s.tally.accepted == s.tally.completed + s.tally.panicked + s.tally.cancelled + |s.queue| + |Held(s.workers)|
    ensures s.tally.totalSteps == s.tally.completed + s.tally.panicked
  {
    assert |multiset(s.queue) + Held(s.workers) + multiset(s.tally.done) + multiset(s.tally.dropped)|
        == |s.queue| + |Held(s.workers)| + |s.tally.done| + |s.tally.dropped|;
  }

  lemma {:induction false} DistinctIds(ts: seq<Task>, t: Task)
    requires |ts| <= U64_MAX + 1 && forall k | 0 <= k < |ts| :: ts[k].id == Sat(k)
    ensures multiset(ts)[t] <= 1
  {
    if ts != [] {
      var n := |ts| - 1;
      assert ts == ts[..n] + [ts[n]];
      DistinctIds(ts[..n], t);
      if t == ts[n] {
        forall k | 0 <= k < n ensures ts[..n][k] != t {
        }
      }
    }
  }

  /** No task is executed twice, nor executed and also queued, in flight or dropped. */
  lemma NeverTwice(s: Pool, t: Task)
    requires Inv(s) && |s.tally.submitted| <= U64_MAX + 1
    ensures multiset(s.queue)[t] + Held(s.workers)[t] + multiset(s.tally.done)[t] + multiset(s.tally.dropped)[t] <= 1
  {
    DistinctIds(s.tally.submitted, t);
    assert (multiset(s.queue) + Held(s.workers) + multiset(s.tally.done) + multiset(s.tally.dropped))[t]
        == multiset(s.tally.submitted)[t];
  }

  // ---------------------------------------------------------------------
  // Termination
  // ---------------------------------------------------------------------

  /** A run in which shutdown has been requested. */
  ghost predicate Closing(s: Pool) {
    !s.phase.Idle? && s.shutdown
  }

  function PhaseRank(p: Phase): nat {
    match p
    case Idle => 0
    case Joining => 1
    case Flagged => 2
    case Spawned => 3
  }

  function Measure(s: Pool): nat {
    10 * |s.queue| + RankSum(s.workers) + PhaseRank(s.phase)
  }

  lemma GoMeasure(s: Pool, i: nat, pc: Pc)
    requires i < |s.workers|
    ensures Measure(Go(s, i, pc)) + PcRank(s.workers[i].pc) == Measure(s) + PcRank(pc)
  {
    ReplaceNumbers(s.workers, i, s.workers[i].(pc := pc));
  }

  /** Once shutdown is requested every step, whoever takes it, uses up some of the measure. A cap
      exit puts a task back, but its worker is gone for good. */
  lemma StepShrinks(s: Pool, step: Step)
    requires Closing(s) && Enabled(s, step)
    ensures Closing(Next(s, step)) || Next(s, step).phase.Idle?
    ensures step.Join? <==> Next(s, step).phase.Idle?
    ensures !step.Join? ==> Measure(Next(s, step)) < Measure(s)
  {
    var s' := Next(s, step);
    match step
    case NotifyAll => WakeAllSums(s.workers);
    case Pop(i) => ReplaceNumbers(s.workers, i, s'.workers[i]);
    case SeeEmpty(i) => GoMeasure(s, i, SawEmpty);
    case Wait(i) => assert false;
    case Wake(i) => GoMeasure(s, i, Ready);
    case Finish(i) => GoMeasure(s, i, Ready);
    case RecordCap(i) => GoMeasure(s, i, Requeueing(s.workers[i].pc.task));
    case Requeue(i) => GoMeasure(s, i, Notifying);
    case NotifyOne(i, woken) =>
      if woken.Some? {
        GoMeasure(s, woken.value, Ready);
        GoMeasure(Go(s, woken.value, Ready), i, Exited);
      } else {
        GoMeasure(s, i, Exited);
      }
    case Drain(i) => GoMeasure(s, i, Exited);
    case FlagShutdown =>
    case Join =>
  }

  /** Never stuck: a run that is closing can always take a step. */
  lemma NeverStuck(s: Pool) returns (step: Step)
    requires Phased(s) && Closing(s)
    ensures Enabled(s, step)
  {
    if s.phase.Spawned? {
      return FlagShutdown;
    } else if s.phase.Flagged? {
      return NotifyAll;
    } else if forall w | w in s.workers :: w.pc.Exited? {
      return Join;
    }
    var i :| 0 <= i < |s.workers| && !s.workers[i].pc.Exited?;
    assert s.workers[i] in s.workers;
    match s.workers[i].pc
    case Ready => return if s.queue == [] then SeeEmpty(i) else Pop(i);
    case SawEmpty => return Drain(i);
    case Running(_) => return Finish(i);
    case OverCap(_) => return RecordCap(i);
    case Requeueing(_) => return Requeue(i);
    case Notifying => return NotifyOne(i, None);
  }

  /** A run that has not joined yet has taken at most `Measure` steps since it began closing. */
  lemma {:induction false} RunsAreFinite(s: Pool, steps: seq<Step>)
    requires Closing(s) && Run(s, steps).Some?
    requires forall step | step in steps :: !step.Join?
    ensures Closing(Run(s, steps).value)
    ensures |steps| + Measure(Run(s, steps).value) <= Measure(s)
    decreases |steps|
  {
    if steps != [] {
      assert steps[0] in steps;
      StepShrinks(s, steps[0]);
      RunsAreFinite(Next(s, steps[0]), steps[1..]);
    }
  }

  /** Every closing run can be brought to its join, in at most `Measure` further steps. */
  lemma {:induction false} EveryRunJoins(s: Pool) returns (steps: seq<Step>)
    requires Inv(s) && Closing(s)
    ensures |steps| <= Measure(s) && forall step | step in steps :: !step.Join?
    ensures Run(s, steps).Some? && Enabled(Run(s, steps).value, Join)
    decreases Measure(s)
  {
    var step := NeverStuck(s);
    StepShrinks(s, step);
    if step.Join? {
      return [];
    }
    StepKeepsInv(s, step);
    var rest := EveryRunJoins(Next(s, step));
    steps := [step] + rest;
    assert steps[1..] == rest;
  }

  /** After the broadcast nobody is parked, however the run goes on until its join. */
  lemma {:induction false} NobodyParked(s: Pool, steps: seq<Step>)
    requires Inv(s) && s.phase.Joining? && Run(s, steps).Some?
    requires forall step | step in steps :: !step.Join?
    ensures forall w | w in Run(s, steps).value.workers :: !w.pc.Waiting?
    decreases |steps|
  {
    if steps != [] {
      assert steps[0] in steps;
      StepKeepsInv(s, steps[0]);
      NobodyParked(Next(s, steps[0]), steps[1..]);
    }
  }

  // ---------------------------------------------------------------------
  // What A0011 means
  // ---------------------------------------------------------------------

  /** At the join: leftovers imply that A0011 had already been recorded, and a report without A0011
      means that every task handed in was run or cancelled. */
  lemma StarvationDiagnostic(s: Pool)
    requires Inv(s) && Enabled(s, Join)
    ensures s.queue != [] ==> "A0011" in s.diagnostics
    ensures "A0011" !in Finalise(s, |s.workers|).diagnostics ==>
              && s.queue == []
              && multiset(s.tally.done) + multiset(s.tally.dropped) == multiset(s.tally.submitted)
              && (|s.tally.submitted| < U64_MAX ==> s.tally.Executed() == s.tally.accepted)
  {
    assert s.workers[0] in s.workers;
    ExitedSums(s.workers);
    if |s.tally.submitted| < U64_MAX {
      Accounting(s);
    }
    if "A0011" !in s.diagnostics {
      assert multiset(s.queue) + Held(s.workers) + multiset(s.tally.done) + multiset(s.tally.dropped)
          == multiset(s.tally.done) + multiset(s.tally.dropped);
    }
  }

  // ---------------------------------------------------------------------
  // Schedule independence
  // ---------------------------------------------------------------------

  /** The state right after `StartRun`, with no more queued tasks than one worker may pop. */
  ghost predicate Startable(s: Pool) {
    && Inv(s) && s.phase.Spawned?
    && (forall w | w in s.workers :: w == Worker(Ready, 0))
    && Roomy(s)
  }

  ghost predicate Roomy(s: Pool) {
    |s.queue| <= s.cap <= U64_MAX && "A0011" !in s.diagnostics
  }

  /** What stays fixed, or is tied together, all through a run from `s0`. */
  ghost predicate Within(s0: Pool, s: Pool) {
    && !s.phase.Idle? && s.cap == s0.cap && |s.workers| == |s0.workers|
    && (forall w | w in s.workers :: !w.pc.OverCap?)
    && PopsMade(s.workers) + |s.queue| == |s0.queue|
    && s.tally.submitted == s0.tally.submitted && s.tally.dropped == s0.tally.dropped
    && s0.tally.done <= s.tally.done
    && s.diagnostics == s0.diagnostics + PanicCode(s0.tally, s.tally)
  }

  ghost function PanicCode(t0: Tally, t: Tally): set<string> {
    if Panics(t.done) > Panics(t0.done) then {"A0010"} else {}
  }

  lemma StartWithin(s: Pool)
    requires Startable(s)
    ensures Within(s, s)
  {
    FreshSums(s.workers);
  }

  lemma {:induction false} PopsBound(ws: seq<Worker>, i: nat)
    requires i < |ws|
    ensures ws[i].steps <= PopsMade(ws)
  {
    if i > 0 {
      PopsBound(ws[1..], i - 1);
    }
  }

  lemma {:induction false} PanicsGrow(a: seq<Task>, b: seq<Task>)
    requires a <= b
    ensures Panics(a) <= Panics(b)
  {
    if |a| < |b| {
      PanicsGrow(a, b[..|b| - 1]);
    } else {
      assert a == b;
    }
  }

  lemma GoWithin(s0: Pool, s: Pool, i: nat, pc: Pc)
    requires Within(s0, s) && i < |s.workers| && !pc.OverCap?
    ensures Within(s0, Go(s, i, pc))
  {
    ReplaceNumbers(s.workers, i, s.workers[i].(pc := pc));
  }

  lemma PopWithin(s0: Pool, s: Pool, i: nat)
    requires Roomy(s0) && Within(s0, s) && Enabled(s, Pop(i))
    ensures Within(s0, Next(s, Pop(i)))
  {
    var s' := Next(s, Pop(i));
    PopsBound(s.workers, i);
    ReplaceNumbers(s.workers, i, s'.workers[i]);
  }

  lemma RecordPanics(t0: Tally, t: Tally, task: Task)
    requires t0.done <= t.done
    ensures PanicCode(t0, t.Record(task)) == PanicCode(t0, t) + if task.panics then {"A0010"} else {}
  {
    PanicsAppend(t.done, task);
    PanicsGrow(t0.done, t.done);
  }

  lemma FinishWithin(s0: Pool, s: Pool, i: nat)
    requires Within(s0, s) && Enabled(s, Finish(i))
    ensures Within(s0, Next(s, Finish(i)))
  {
    GoWithin(s0, s, i, Ready);
    RecordPanics(s0.tally, s.tally, s.workers[i].pc.task);
  }

  lemma DrainWithin(s0: Pool, s: Pool, i: nat)
    requires Roomy(s0) && Within(s0, s) && NothingLeftBehind(s) && Enabled(s, Drain(i))
    ensures Within(s0, Next(s, Drain(i)))
  {
    assert s.workers[i] in s.workers;
    assert s.queue == [];
    assert s.tally.dropped + [] == s.tally.dropped;
    GoWithin(s0, s, i, Exited);
  }

  lemma StepWithin(s0: Pool, s: Pool, step: Step)
    requires Roomy(s0) && Within(s0, s) && NothingLeftBehind(s) && Enabled(s, step) && !step.Join?
    ensures Within(s0, Next(s, step))
  {
    match step
    case Pop(i) => PopWithin(s0, s, i);
    case Finish(i) => FinishWithin(s0, s, i);
    case Drain(i) => DrainWithin(s0, s, i);
    case SeeEmpty(i) => GoWithin(s0, s, i, SawEmpty);
    case Wait(i) => GoWithin(s0, s, i, Waiting);
    case Wake(i) => GoWithin(s0, s, i, Ready);
    case NotifyAll => WakeAllSums(s.workers);
    case FlagShutdown =>
    case _ => NoCapExit(s0, s, step);
  }

  lemma NoCapExit(s0: Pool, s: Pool, step: Step)
    requires Roomy(s0) && Within(s0, s) && NothingLeftBehind(s)
    requires step.RecordCap? || step.Requeue? || step.NotifyOne?
    ensures !Enabled(s, step)
  {
    if step.i < |s.workers| {
      assert s.workers[step.i] in s.workers;
    }
  }

  lemma {:induction false} RunWithin(s0: Pool, s: Pool, steps: seq<Step>)
    requires Roomy(s0) && Within(s0, s) && Inv(s) && Run(s, steps).Some?
    requires forall step | step in steps :: !step.Join?
    ensures Within(s0, Run(s, steps).value) && Inv(Run(s, steps).value)
    decreases |steps|
  {
    if steps != [] {
      assert steps[0] in steps;
      StepWithin(s0, s, steps[0]);
      StepKeepsInv(s, steps[0]);
      RunWithin(s0, Next(s, steps[0]), steps[1..]);
    }
  }

  lemma {:induction false} PanicsOfMultiset(a: seq<Task>, b: seq<Task>)
    requires multiset(a) == multiset(b)
    ensures Panics(a) == Panics(b) && |a| == |b|
    decreases |a|
  {
    assert |multiset(a)| == |multiset(b)|;
    if a != [] {
      var n := |a| - 1;
      var t := a[n];
      assert t in multiset(a);
      assert t in multiset(b);
      var k :| 0 <= k < |b| && b[k] == t;
      assert a == a[..n] + [t];
      assert b == b[..k] + [t] + b[k + 1..];
      assert multiset(a[..n]) == multiset(a) - multiset{t};
      assert multiset(b[..k] + b[k + 1..]) == multiset(b) - multiset{t};
      PanicsOfMultiset(a[..n], b[..k] + b[k + 1..]);
      PanicsMiddle(b[..k], t, b[k + 1..]);
    }
  }

  lemma {:induction false} PanicsMiddle(a: seq<Task>, t: Task, b: seq<Task>)
    ensures Panics(a + [t] + b) == Panics(a + b) + if t.panics then 1 else 0
    decreases |b|
  {
    if b == [] {
      PanicsAppend(a, t);
      assert a + [t] + b == a + [t] && a + b == a;
    } else {
      var n := |b| - 1;
      PanicsMiddle(a, t, b[..n]);
      PanicsAppend(a + [t] + b[..n], b[n]);
      PanicsAppend(a + b[..n], b[n]);
      assert b == b[..n] + [b[n]];
      assert a + [t] + b == (a + [t] + b[..n]) + [b[n]] && a + b == (a + b[..n]) + [b[n]];
    }
  }

  /** The report a run started in `s0` must end with, worked out without running anything. */
  function Predicted(s0: Pool): Report {
    var all := s0.tally.done + s0.queue;
    Report(|s0.workers|, Sat(|s0.tally.submitted|),
           Sat(if |all| >= Panics(all) then |all| - Panics(all) else 0), Sat(Panics(all)), s0.tally.cancelled,
           Sat(|all|),
           s0.diagnostics + if Panics(all) > Panics(s0.tally.done) then {"A0010"} else {})
  }

  /** Schedule independence. Whatever the interleaving, a run from `s0` that reaches its join has
      executed every queued task exactly once, cancelled nothing, left the queue empty, raised no
      A0011, and reports exactly what `Predicted` says. */
  lemma ScheduleIndependence(s0: Pool, steps: seq<Step>)
    requires Startable(s0) && |s0.tally.submitted| < U64_MAX
    requires forall step | step in steps :: !step.Join?
    requires Run(s0, steps).Some? && Enabled(Run(s0, steps).value, Join)
    ensures var s := Run(s0, steps).value;
            && s.queue == []
            && multiset(s.tally.done) == multiset(s0.tally.done) + multiset(s0.queue)
            && s.tally.cancelled == s0.tally.cancelled
            && s.tally.totalSteps == s.tally.completed + s.tally.panicked
            && Next(s, Join).report == Some(Predicted(s0))
            && "A0011" !in Predicted(s0).diagnostics
  {
    var s := Run(s0, steps).value;
    StartWithin(s0);
    RunWithin(s0, s0, steps);
    StarvationDiagnostic(s);
    FinalTally(s0, s);
  }

  lemma FinalTally(s0: Pool, s: Pool)
    requires Startable(s0) && Within(s0, s) && Inv(s) && s.queue == []
    requires |s0.tally.submitted| < U64_MAX && forall w | w in s.workers :: w.pc.Exited?
    ensures multiset(s.tally.done) == multiset(s0.tally.done) + multiset(s0.queue)
    ensures s.tally.cancelled == s0.tally.cancelled
    ensures s.tally.totalSteps == s.tally.completed + s.tally.panicked
    ensures Finalise(s, |s.workers|) == Predicted(s0)
  {
    var all := s0.tally.done + s0.queue;
    FreshSums(s0.workers);
    ExitedSums(s.workers);
    SamePlaces(s0, s);
    assert multiset(all) == multiset(s0.tally.done) + multiset(s0.queue);
    PanicsOfMultiset(s.tally.done, all);
    Accounting(s);
  }

  lemma SamePlaces(s0: Pool, s: Pool)
    requires Conserved(s0) && Conserved(s) && Held(s0.workers) == Held(s.workers) == multiset{} && s.queue == []
    requires s.tally.submitted == s0.tally.submitted && s.tally.dropped == s0.tally.dropped
    ensures multiset(s.tally.done) == multiset(s0.tally.done) + multiset(s0.queue)
  {
    forall t: Task ensures multiset(s.tally.done)[t] == (multiset(s0.tally.done) + multiset(s0.queue))[t] {
      assert (multiset(s0.queue) + Held(s0.workers) + multiset(s0.tally.done) + multiset(s0.tally.dropped))[t]
          == (multiset(s.queue) + Held(s.workers) + multiset(s.tally.done) + multiset(s.tally.dropped))[t];
    }
  }

  // ---------------------------------------------------------------------
  // When the cap bites
  // ---------------------------------------------------------------------

  /** As long as A0011 is absent, nobody who went over the cap has moved on, and every task that
      left the queue was popped for good. */
  ghost predicate Budgeted(s0: Pool, s: Pool) {
    && s.cap == s0.cap && |s.workers| == |s0.workers| && !s.phase.Idle?
    && ("A0011" !in s.diagnostics ==>
          && (forall w | w in s.workers :: w.steps <= s.cap || w.pc.OverCap?)
          && PopsMade(s.workers) + |s.queue| == |s0.queue|)
  }

  lemma GoBudgeted(s0: Pool, s: Pool, i: nat, pc: Pc)
    requires Budgeted(s0, s) && i < |s.workers| && (s.workers[i].pc.OverCap? ==> "A0011" in s.diagnostics)
    ensures Budgeted(s0, Go(s, i, pc))
  {
    ReplaceNumbers(s.workers, i, s.workers[i].(pc := pc));
  }

  lemma PopBudgeted(s0: Pool, s: Pool, i: nat)
    requires |s0.queue| <= U64_MAX && Budgeted(s0, s) && Enabled(s, Pop(i))
    ensures Budgeted(s0, Next(s, Pop(i)))
  {
    var s' := Next(s, Pop(i));
    PopsBound(s.workers, i);
    ReplaceNumbers(s.workers, i, s'.workers[i]);
  }

  lemma NotifyBudgeted(s0: Pool, s: Pool, i: nat, woken: Option<nat>)
    requires Budgeted(s0, s) && Enabled(s, NotifyOne(i, woken))
    ensures Budgeted(s0, Next(s, NotifyOne(i, woken)))
  {
    if woken.Some? {
      GoBudgeted(s0, s, woken.value, Ready);
      GoBudgeted(s0, Go(s, woken.value, Ready), i, Exited);
    } else {
      GoBudgeted(s0, s, i, Exited);
    }
  }

  lemma DrainBudgeted(s0: Pool, s: Pool, i: nat)
    requires Budgeted(s0, s) && NothingLeftBehind(s) && Enabled(s, Drain(i))
    ensures Budgeted(s0, Next(s, Drain(i)))
  {
    assert s.workers[i] in s.workers;
    GoBudgeted(s0, s, i, Exited);
  }

  lemma RequeueBudgeted(s0: Pool, s: Pool, i: nat)
    requires Budgeted(s0, s) && NothingLeftBehind(s) && Enabled(s, Requeue(i))
    ensures Budgeted(s0, Next(s, Requeue(i)))
  {
    assert s.workers[i] in s.workers;
    GoBudgeted(s0, s, i, Notifying);
  }

  lemma StepBudgeted(s0: Pool, s: Pool, step: Step)
    requires |s0.queue| <= U64_MAX && Budgeted(s0, s) && NothingLeftBehind(s)
    requires Enabled(s, step) && !step.Join?
    ensures Budgeted(s0, Next(s, step))
  {
    match step
    case Pop(i) => PopBudgeted(s0, s, i);
    case Finish(i) => GoBudgeted(s0, s, i, Ready);
    case Drain(i) => DrainBudgeted(s0, s, i);
    case SeeEmpty(i) => GoBudgeted(s0, s, i, SawEmpty);
    case Wait(i) => GoBudgeted(s0, s, i, Waiting);
    case Wake(i) => GoBudgeted(s0, s, i, Ready);
    case Requeue(i) => RequeueBudgeted(s0, s, i);
    case NotifyOne(i, woken) => NotifyBudgeted(s0, s, i, woken);
    case NotifyAll => WakeAllSums(s.workers);
    case RecordCap(_) =>
    case FlagShutdown =>
  }

  lemma {:induction false} RunBudgeted(s0: Pool, s: Pool, steps: seq<Step>)
    requires |s0.queue| <= U64_MAX && Budgeted(s0, s) && Inv(s) && Run(s, steps).Some?
    requires forall step | step in steps :: !step.Join?
    ensures Budgeted(s0, Run(s, steps).value) && Inv(Run(s, steps).value)
    decreases |steps|
  {
    if steps != [] {
      assert steps[0] in steps;
      StepBudgeted(s0, s, steps[0]);
      StepKeepsInv(s, steps[0]);
      RunBudgeted(s0, Next(s, steps[0]), steps[1..]);
    }
  }

  lemma {:induction false} PopsWithinCap(ws: seq<Worker>, cap: nat)
    requires forall w | w in ws :: w.steps <= cap
    ensures PopsMade(ws) <= |ws| * cap
  {
    if ws != [] {
      assert ws[0] in ws && forall w | w in ws[1..] :: w in ws;
      PopsWithinCap(ws[1..], cap);
      assert |ws| * cap == cap + (|ws| - 1) * cap;
    }
  }

  /** The converse bound: a run over more tasks than all its workers together may pop always ends
      with A0011, whatever the interleaving. */
  lemma OverloadStarves(s0: Pool, steps: seq<Step>)
    requires Inv(s0) && s0.phase.Spawned? && forall w | w in s0.workers :: w == Worker(Ready, 0)
    requires |s0.workers| * s0.cap < |s0.queue| <= U64_MAX
    requires forall step | step in steps :: !step.Join?
    requires Run(s0, steps).Some? && Enabled(Run(s0, steps).value, Join)
    ensures "A0011" in Next(Run(s0, steps).value, Join).report.value.diagnostics
  {
    var s := Run(s0, steps).value;
    FreshSums(s0.workers);
    RunBudgeted(s0, s0, steps);
    StarvationDiagnostic(s);
    if "A0011" !in s.diagnostics {
      PopsWithinCap(s.workers, s.cap);
    }
  }

  // ---------------------------------------------------------------------
  // Order
  // ---------------------------------------------------------------------

  /** Workers take tasks from the front: unless one is put back or a new one comes in, the queue is a
      suffix of what it was, whatever the interleaving, so tasks are begun in the order they were handed in. */
  lemma {:induction false} TasksLeaveInOrder(s: Pool, steps: seq<Step>) returns (taken: nat)
    requires Run(s, steps).Some? && forall step | step in steps :: !step.Submit? && !step.Requeue?
    ensures taken <= |s.queue| && Run(s, steps).value.queue == s.queue[taken..]
    decreases |steps|
  {
    if steps == [] {
      return 0;
    }
    var next := Next(s, steps[0]);
    assert steps[0] in steps && forall step | step in steps[1..] :: step in steps;
    var first := FrontLeaves(s, steps[0]);
    var later := TasksLeaveInOrder(next, steps[1..]);
    taken := first + later;
  }

  lemma FrontLeaves(s: Pool, step: Step) returns (taken: nat)
    requires Enabled(s, step) && !step.Submit? && !step.Requeue?
    ensures taken <= |s.queue| && Next(s, step).queue == s.queue[taken..]
    ensures step.Pop? ==> taken == 1 && Next(s, step).workers[step.i].pc in {Running(s.queue[0]), OverCap(s.queue[0])}
  {
    taken := if step.Pop? then 1 else if step.Drain? then |s.queue| else 0;
  }

  /** The cap is 1024 pops for each step a task may take, as far as 64 bits reach. */
  lemma CapIs(m: nat)
    requires m <= U64_MAX
    ensures StepCap(m) == if 1024 * m <= U64_MAX then 1024 * m else U64_MAX
  {
  }

  /** `StartRun` gives a startable state whenever the queue fits under the per-worker cap. */
  lemma StartRunIsStartable(s: Pool, workers: nat, m: nat)
    requires Inv(s) && Enabled(s, StartRun(workers, m)) && workers >= 1
    requires |s.queue| <= 1024 * m && |s.queue| <= U64_MAX && "A0011" !in s.diagnostics
    ensures Startable(Next(s, StartRun(workers, m)))
    ensures Next(s, StartRun(workers, m)).queue == s.queue
  {
    StepKeepsInv(s, StartRun(workers, m));
    CapIs(m);
  }
}

/** The M:N worker pool as a transition system. One step is one critical section of the shared
    mutex (or one condition-variable signal); steps of different workers interleave freely. The
    counters are 64-bit and saturate. `submitted`, `done` and `dropped` are history: they record
    which tasks were handed in, ran, or were discarded. */
module WorkerPool {
  import opened Wrappers

  const MAX_WORKERS: nat := 256

  /** A task body has a fixed outcome: a value, or a panic caught by the worker. */
  datatype Task = Task(id: nat, panics: bool)

  datatype Pc =
    | Ready                    // about to take the lock at the top of the loop
    | Waiting                  // parked on the condition variable
    | SawEmpty                 // left the lock with nothing to do, drain still to come
    | Running(task: Task)      // body in progress
    | OverCap(task: Task)      // popped past the step cap, A0011 not yet recorded
    | Requeueing(task: Task)   // A0011 recorded, task not yet back on the queue
    | Notifying                // task is back, wake-up still to be sent
    | Exited

  datatype Worker = Worker(pc: Pc, steps: nat)

  datatype Phase = Idle | Spawned | Flagged | Joining

  datatype Report = Report(
    workerCount: nat, totalTasks: nat, completed: nat, panicked: nat, cancelled: nat,
    totalSteps: nat, diagnostics: set<string>)

  /** The report counters, and beside them the history they summarise. */
  datatype Tally = Tally(
    accepted: nat, completed: nat, panicked: nat, cancelled: nat, totalSteps: nat,
    submitted: seq<Task>, done: seq<Task>, dropped: seq<Task>)
  {
    function Accept(task: Task): Tally {
      this.(accepted := SatInc(accepted), submitted := submitted + [task])
    }

    function Record(task: Task): Tally {
      if task.panics
      then this.(totalSteps := SatInc(totalSteps), done := done + [task], panicked := SatInc(panicked))
      else this.(totalSteps := SatInc(totalSteps), done := done + [task], completed := SatInc(completed))
    }

    function Discard(tasks: seq<Task>): Tally {
      this.(cancelled := Sat(cancelled + |tasks|), dropped := dropped + tasks)
    }

    function Executed(): nat {
      completed + panicked + cancelled
    }
  }

  datatype Pool = Pool(
    queue: seq<Task>,
    shutdown: bool,
    tally: Tally,
    diagnostics: set<string>,
    phase: Phase,
    workers: seq<Worker>,
    cap: nat,
    report: Option<Report>)

  datatype Step =
    | Submit(panics: bool)
    | RequestShutdown
    | StartRun(workers: nat, maxStepsPerTask: nat)
    | FlagShutdown
    | NotifyAll
    | Join
    | Pop(i: nat)
    | SeeEmpty(i: nat)
    | Wait(i: nat)
    | Wake(i: nat)
    | Finish(i: nat)
    | RecordCap(i: nat)
    | Requeue(i: nat)
    | NotifyOne(i: nat, woken: Option<nat>)
    | Drain(i: nat)

  function Empty(): Pool {
    Pool([], false, Tally(0, 0, 0, 0, 0, [], [], []), {}, Idle, [], 0, None)
  }

  function Sat(n: nat): nat {
    if n <= U64_MAX then n else U64_MAX
  }

  function SatMul(a: nat, b: nat): nat {
    Sat(a * b)
  }

  /** The number of pops one worker may make before it gives up. */
  function StepCap(m: nat): nat {
    if SatMul(m, 1024) >= m then SatMul(m, 1024) else m
  }

  // ---------------------------------------------------------------------
  // Steps
  // ---------------------------------------------------------------------

  predicate Enabled(s: Pool, step: Step) {
    match step
    case Submit(_) => s.phase.Idle?
    case RequestShutdown => s.phase.Idle?
    case StartRun(_, m) => s.phase.Idle? && m <= U64_MAX
    case FlagShutdown => s.phase.Spawned?
    case NotifyAll => s.phase.Flagged?
    case Join => s.phase.Joining? && forall w | w in s.workers :: w.pc.Exited?
    case Pop(i) => i < |s.workers| && s.workers[i].pc.Ready? && s.queue != []
    case SeeEmpty(i) => i < |s.workers| && s.workers[i].pc.Ready? && s.queue == [] && s.shutdown
    case Wait(i) => i < |s.workers| && s.workers[i].pc.Ready? && s.queue == [] && !s.shutdown
    case Wake(i) => i < |s.workers| && s.workers[i].pc.Waiting?
    case Finish(i) => i < |s.workers| && s.workers[i].pc.Running?
    case RecordCap(i) => i < |s.workers| && s.workers[i].pc.OverCap?
    case Requeue(i) => i < |s.workers| && s.workers[i].pc.Requeueing?
    case NotifyOne(i, woken) =>
      && i < |s.workers| && s.workers[i].pc.Notifying?
      && (match woken
          case Some(j) => j < |s.workers| && s.workers[j].pc.Waiting?
          case None => forall w | w in s.workers :: !w.pc.Waiting?)
    case Drain(i) => i < |s.workers| && s.workers[i].pc.SawEmpty?
  }

  function Go(s: Pool, i: nat, pc: Pc): Pool
    requires i < |s.workers|
  {
    s.(workers := s.workers[i := s.workers[i].(pc := pc)])
  }

  function Next(s: Pool, step: Step): Pool
    requires Enabled(s, step)
  {
    match step
    case Submit(panics) =>
      // The queue is closed once shutdown is requested; the task still counts.
      var task := Task(s.tally.accepted, panics);
      if s.shutdown then s.(tally := s.tally.Accept(task).Discard([task]))
      else s.(tally := s.tally.Accept(task), queue := s.queue + [task])
    case RequestShutdown => s.(shutdown := true)
    case StartRun(workers, m) =>
      if workers == 0 then s.(report := Some(Finalise(s, 0)))
      else
        var clamped := if workers > MAX_WORKERS then MAX_WORKERS else workers;
        s.(phase := Spawned, cap := StepCap(m),
           workers := seq(clamped, _ => Worker(Ready, 0)),
           diagnostics := s.diagnostics + (if workers > MAX_WORKERS then {"A0013"} else {}))
    case FlagShutdown => s.(shutdown := true, phase := Flagged)
    case NotifyAll => s.(phase := Joining, workers := WakeAll(s.workers))
    case Join => s.(phase := Idle, workers := [], report := Some(Finalise(s, |s.workers|)))
    case Pop(i) =>
      var steps := SatInc(s.workers[i].steps);
      var pc := if steps > s.cap then OverCap(s.queue[0]) else Running(s.queue[0]);
      s.(queue := s.queue[1..], workers := s.workers[i := Worker(pc, steps)])
    case SeeEmpty(i) => Go(s, i, SawEmpty)
    case Wait(i) => Go(s, i, Waiting)
    case Wake(i) => Go(s, i, Ready)
    case Finish(i) =>
      var task := s.workers[i].pc.task;
      Go(s, i, Ready).(tally := s.tally.Record(task),
                       diagnostics := s.diagnostics + if task.panics then {"A0010"} else {})
    case RecordCap(i) =>
      Go(s, i, Requeueing(s.workers[i].pc.task)).(diagnostics := s.diagnostics + {"A0011"})
    case Requeue(i) => Go(s, i, Notifying).(queue := [s.workers[i].pc.task] + s.queue)
    case NotifyOne(i, woken) =>
      if woken.Some? then Go(Go(s, woken.value, Ready), i, Exited) else Go(s, i, Exited)
    case Drain(i) =>
      Go(s, i, Exited).(queue := [], tally := s.tally.Discard(s.queue))
  }

  function WakeAll(ws: seq<Worker>): (r: seq<Worker>)
    ensures |r| == |ws|
    ensures forall k | 0 <= k < |ws| :: r[k] == if ws[k].pc.Waiting? then ws[k].(pc := Ready) else ws[k]
  {
    if ws == [] then []
    else [if ws[0].pc.Waiting? then ws[0].(pc := Ready) else ws[0]] + WakeAll(ws[1..])
  }

  /** `finalise_report`: A0011 is added when some accepted task was neither run nor cancelled. */
  function Finalise(s: Pool, workerCount: nat): Report {
    var t := s.tally;
    Report(workerCount, t.accepted, t.completed, t.panicked, t.cancelled, t.totalSteps,
           s.diagnostics + if t.Executed() < t.accepted then {"A0011"} else {})
  }

  /** The state after `steps`, or None if one of them was not enabled. */
  function Run(s: Pool, steps: seq<Step>): Option<Pool>
    decreases |steps|
  {
    if steps == [] then Some(s)
    else if Enabled(s, steps[0]) then Run(Next(s, steps[0]), steps[1..])
    else None
  }

  // ---------------------------------------------------------------------
  // Sums over the workers
  // ---------------------------------------------------------------------

  function HeldBy(w: Worker): multiset<Task> {
    match w.pc
    case Running(t) => multiset{t}
    case OverCap(t) => multiset{t}
    case Requeueing(t) => multiset{t}
    case _ => multiset{}
  }

  /** The tasks in flight. */
  function Held(ws: seq<Worker>): multiset<Task> {
    if ws == [] then multiset{} else HeldBy(ws[0]) + Held(ws[1..])
  }

  function PopsMade(ws: seq<Worker>): nat {
    if ws == [] then 0 else ws[0].steps + PopsMade(ws[1..])
  }

  function PcRank(pc: Pc): nat {
    match pc
    case Exited => 0
    case Notifying => 1
    case SawEmpty => 1
    case Ready => 5
    case Waiting => 6
    case Running(_) => 6
    case Requeueing(_) => 12
    case OverCap(_) => 13
  }

  function RankSum(ws: seq<Worker>): nat {
    if ws == [] then 0 else PcRank(ws[0].pc) + RankSum(ws[1..])
  }

  lemma {:induction false} ReplaceHeld(ws: seq<Worker>, i: nat, w: Worker)
    requires i < |ws|
    ensures Held(ws[i := w]) + HeldBy(ws[i]) == Held(ws) + HeldBy(w)
  {
    var ws' := ws[i := w];
    if i == 0 {
      assert ws'[1..] == ws[1..];
    } else {
      ReplaceHeld(ws[1..], i - 1, w);
      assert ws'[1..] == ws[1..][i - 1 := w];
      var head, rest, rest' := HeldBy(ws[0]), Held(ws[1..]), Held(ws'[1..]);
      assert (head + rest') + HeldBy(ws[i]) == head + (rest' + HeldBy(ws[i]));
      assert (head + rest) + HeldBy(w) == head + (rest + HeldBy(w));
    }
  }

  lemma {:induction false} ReplaceNumbers(ws: seq<Worker>, i: nat, w: Worker)
    requires i < |ws|
    ensures PopsMade(ws[i := w]) + ws[i].steps == PopsMade(ws) + w.steps
    ensures RankSum(ws[i := w]) + PcRank(ws[i].pc) == RankSum(ws) + PcRank(w.pc)
  {
    if i == 0 {
      assert ws[i := w][1..] == ws[1..];
    } else {
      ReplaceNumbers(ws[1..], i - 1, w);
      assert ws[i := w][1..] == ws[1..][i - 1 := w];
    }
  }

  lemma {:induction false} WakeAllSums(ws: seq<Worker>)
    ensures Held(WakeAll(ws)) == Held(ws) && PopsMade(WakeAll(ws)) == PopsMade(ws)
    ensures RankSum(WakeAll(ws)) <= RankSum(ws)
  {
    if ws != [] {
      WakeAllSums(ws[1..]);
      assert WakeAll(ws)[1..] == WakeAll(ws[1..]);
    }
  }

  lemma {:induction false} FreshSums(ws: seq<Worker>)
    requires forall w | w in ws :: w == Worker(Ready, 0)
    ensures Held(ws) == multiset{} && PopsMade(ws) == 0
  {
    if ws != [] {
      assert ws[0] in ws && forall w | w in ws[1..] :: w in ws;
      FreshSums(ws[1..]);
    }
  }

  lemma {:induction false} ExitedSums(ws: seq<Worker>)
    requires forall w | w in ws :: w.pc.Exited?
    ensures Held(ws) == multiset{}
  {
    if ws != [] {
      assert ws[0] in ws && forall w | w in ws[1..] :: w in ws;
      ExitedSums(ws[1..]);
    }
  }

  function Panics(ts: seq<Task>): nat {
    if ts == [] then 0 else Panics(ts[..|ts| - 1]) + if ts[|ts| - 1].panics then 1 else 0
  }

  lemma PanicsAppend(ts: seq<Task>, t: Task)
    ensures Panics(ts + [t]) == Panics(ts) + if t.panics then 1 else 0
  {
    assert (ts + [t])[..|ts|] == ts;
  }

  // ---------------------------------------------------------------------
  // The step invariant
  // ---------------------------------------------------------------------

  /** Every task handed in is in exactly one place: queued, in flight, run, or dropped. */
  ghost predicate Conserved(s: Pool) {
    multiset(s.queue) + Held(s.workers) + multiset(s.tally.done) + multiset(s.tally.dropped)
    == multiset(s.tally.submitted)
  }

  /** The counters count what the history says, up to saturation; ids are handed out in order. */
  ghost predicate Counted(t: Tally) {
    && t.accepted == Sat(|t.submitted|)
    && t.totalSteps == Sat(|t.done|)
    && Panics(t.done) <= |t.done|
    && t.panicked == Sat(Panics(t.done))
    && t.completed == Sat(|t.done| - Panics(t.done))
    && t.cancelled == Sat(|t.dropped|)
    && forall k | 0 <= k < |t.submitted| :: t.submitted[k].id == Sat(k)
  }

  /** Which phase allows what: workers exist only during a run, only a flagged pool lets a worker
      leave by draining, and after the broadcast nobody is parked. */
  ghost predicate Phased(s: Pool) {
    && (s.phase.Idle? ==> s.workers == [])
    && (!s.phase.Idle? ==> s.workers != [])
    && (s.phase.Flagged? || s.phase.Joining? ==> s.shutdown)
    && (s.phase.Joining? ==> forall w | w in s.workers :: !w.pc.Waiting?)
  }

  /** Unless A0011 was recorded, nobody is putting a task back, and once one worker has decided to
      leave the queue stays empty. This is what closes the gap between seeing an empty queue and
      draining it. */
  ghost predicate NothingLeftBehind(s: Pool) {
    "A0011" !in s.diagnostics ==>
      forall w | w in s.workers ::
        && !w.pc.Requeueing? && !w.pc.Notifying?
        && (w.pc.SawEmpty? || w.pc.Exited? ==> s.shutdown && s.queue == [])
  }

  ghost predicate Inv(s: Pool) {
    Conserved(s) && Counted(s.tally) && Phased(s) && NothingLeftBehind(s)
  }

  lemma EmptyInv()
    ensures Inv(Empty())
  {
  }

  lemma Balance(x: multiset<Task>, x': multiset<Task>, h: multiset<Task>, h': multiset<Task>,
                w: multiset<Task>, w': multiset<Task>)
    requires x' + h' == x + h && w' + h == w + h'
    ensures x' + w' == x + w
  {
    forall t: Task ensures (x' + w')[t] == (x + w)[t] {
      assert (x' + h')[t] == (x + h)[t] && (w' + h)[t] == (w + h')[t];
    }
  }

  /** Where a task may be besides a worker's hands. */
  ghost function Elsewhere(s: Pool): multiset<Task> {
    multiset(s.queue) + multiset(s.tally.done) + multiset(s.tally.dropped)
  }

  lemma ConservedAlt(s: Pool)
    ensures Conserved(s) <==> Elsewhere(s) + Held(s.workers) == multiset(s.tally.submitted)
  {
    assert Elsewhere(s) + Held(s.workers)
        == multiset(s.queue) + Held(s.workers) + multiset(s.tally.done) + multiset(s.tally.dropped);
  }

  /** A worker's move conserves tasks when what it gains is what the other places lose. */
  lemma MoveConserves(s: Pool, i: nat, s': Pool)
    requires Conserved(s) && i < |s.workers| == |s'.workers|
    requires s'.workers == s.workers[i := s'.workers[i]] && s'.tally.submitted == s.tally.submitted
    requires Elsewhere(s') + HeldBy(s'.workers[i]) == Elsewhere(s) + HeldBy(s.workers[i])
    ensures Conserved(s')
  {
    ReplaceHeld(s.workers, i, s'.workers[i]);
    Balance(Elsewhere(s), Elsewhere(s'), HeldBy(s.workers[i]), HeldBy(s'.workers[i]),
            Held(s.workers), Held(s'.workers));
    ConservedAlt(s);
    ConservedAlt(s');
  }

  lemma PopConserves(s: Pool, i: nat)
    requires Conserved(s) && Enabled(s, Pop(i))
    ensures Conserved(Next(s, Pop(i)))
  {
    PopBalances(s, Next(s, Pop(i)), i);
    MoveConserves(s, i, Next(s, Pop(i)));
  }

  /** The task at the front goes from the queue to the worker. */
  lemma PopBalances(s: Pool, t: Pool, i: nat)
    requires s.queue != [] && i < |s.workers| == |t.workers| && s.workers[i].pc.Ready?
    requires t.queue == s.queue[1..] && t.tally == s.tally && HeldBy(t.workers[i]) == multiset{s.queue[0]}
    ensures Elsewhere(t) + HeldBy(t.workers[i]) == Elsewhere(s) + HeldBy(s.workers[i])
  {
    assert s.queue == [s.queue[0]] + s.queue[1..];
  }

  lemma NotifyConserves(s: Pool, i: nat, woken: Option<nat>)
    requires Conserved(s) && i < |s.workers| && s.workers[i].pc.Notifying?
    requires woken.Some? ==> woken.value < |s.workers| && s.workers[woken.value].pc.Waiting?
    ensures Conserved(if woken.Some? then Go(Go(s, woken.value, Ready), i, Exited) else Go(s, i, Exited))
  {
    if woken.Some? {
      WakeOneConserves(s, i, woken.value);
    } else {
      IdleMoveConserves(s, i, Exited);
    }
  }

  lemma WakeOneConserves(s: Pool, i: nat, j: nat)
    requires Conserved(s) && i < |s.workers| && j < |s.workers|
    requires s.workers[i].pc.Notifying? && s.workers[j].pc.Waiting?
    ensures Conserved(Go(Go(s, j, Ready), i, Exited))
  {
    IdleMoveConserves(s, j, Ready);
    IdleMoveConserves(Go(s, j, Ready), i, Exited);
  }

  lemma SameHeld(ws: seq<Worker>, i: nat, pc: Pc)
    requires i < |ws| && HeldBy(ws[i].(pc := pc)) == HeldBy(ws[i])
    ensures Held(ws[i := ws[i].(pc := pc)]) == Held(ws)
  {
    var w := ws[i].(pc := pc);
    ReplaceHeld(ws, i, w);
    forall t: Task ensures Held(ws[i := w])[t] == Held(ws)[t] {
      assert (Held(ws[i := w]) + HeldBy(w))[t] == (Held(ws) + HeldBy(w))[t];
    }
  }

  lemma SubmitConserves(s: Pool, panics: bool)
    requires Conserved(s) && s.phase.Idle?
    ensures Conserved(Next(s, Submit(panics)))
  {
  }

  lemma FinishConserves(s: Pool, i: nat)
    requires Conserved(s) && Enabled(s, Finish(i))
    ensures Conserved(Next(s, Finish(i)))
  {
    var s' := Next(s, Finish(i));
    assert multiset(s'.tally.done) == multiset(s.tally.done) + HeldBy(s.workers[i]);
    MoveConserves(s, i, s');
  }

  lemma DrainConserves(s: Pool, i: nat)
    requires Conserved(s) && Enabled(s, Drain(i))
    ensures Conserved(Next(s, Drain(i)))
  {
    MoveConserves(s, i, Next(s, Drain(i)));
  }

  lemma RequeueConserves(s: Pool, i: nat)
    requires Conserved(s) && Enabled(s, Requeue(i))
    ensures Conserved(Next(s, Requeue(i)))
  {
    var s' := Next(s, Requeue(i));
    assert multiset(s'.queue) == HeldBy(s.workers[i]) + multiset(s.queue);
    MoveConserves(s, i, s');
  }

  lemma MainConserves(s: Pool, step: Step)
    requires Conserved(s) && Phased(s) && Enabled(s, step)
    requires step.StartRun? || step.NotifyAll? || step.Join? || step.FlagShutdown? || step.RequestShutdown?
    ensures Conserved(Next(s, step))
  {
    var s' := Next(s, step);
    assert s'.queue == s.queue && s'.tally == s.tally;
    match step
    case NotifyAll => WakeAllSums(s.workers);
    case StartRun(_, _) =>
      if s'.phase.Spawned? {
        FreshSums(s'.workers);
      }
    case Join => ExitedSums(s.workers);
    case _ =>
  }

  lemma ConservedStep(s: Pool, step: Step)
    requires Conserved(s) && Phased(s) && Enabled(s, step)
    ensures Conserved(Next(s, step))
  {
    match step
    case Pop(i) => PopConserves(s, i);
    case NotifyOne(i, woken) => NotifyConserves(s, i, woken);
    case Submit(panics) => SubmitConserves(s, panics);
    case Finish(i) => FinishConserves(s, i);
    case Drain(i) => DrainConserves(s, i);
    case Requeue(i) => RequeueConserves(s, i);
    case SeeEmpty(i) => IdleMoveConserves(s, i, SawEmpty);
    case Wait(i) => IdleMoveConserves(s, i, Waiting);
    case Wake(i) => IdleMoveConserves(s, i, Ready);
    case RecordCap(i) => RecordCapConserves(s, i);
    case _ => MainConserves(s, step);
  }

  /** One worker only moves on: the program counter of worker `i` becomes `pc`. */
  ghost predicate MovesOn(s: Pool, t: Pool, i: nat, pc: Pc) {
    i < |s.workers| && t.workers == s.workers[i := s.workers[i].(pc := pc)] && t.queue == s.queue && t.tally == s.tally
  }

  lemma MovedConserves(s: Pool, t: Pool, i: nat, pc: Pc)
    requires Conserved(s) && MovesOn(s, t, i, pc) && HeldBy(s.workers[i].(pc := pc)) == HeldBy(s.workers[i])
    ensures Conserved(t)
  {
    SameHeld(s.workers, i, pc);
  }

  lemma IdleMoveConserves(s: Pool, i: nat, pc: Pc)
    requires Conserved(s) && i < |s.workers| && HeldBy(s.workers[i]) == multiset{} && HeldBy(Worker(pc, 0)) == multiset{}
    ensures Conserved(Go(s, i, pc))
  {
    MovedConserves(s, Go(s, i, pc), i, pc);
  }

  lemma RecordCapConserves(s: Pool, i: nat)
    requires Conserved(s) && Enabled(s, RecordCap(i))
    ensures Conserved(Next(s, RecordCap(i)))
  {
    MovedConserves(s, Next(s, RecordCap(i)), i, Requeueing(s.workers[i].pc.task));
  }

  lemma RecordCounted(t: Tally, task: Task)
    requires Counted(t)
    ensures Counted(t.Record(task))
  {
    PanicsAppend(t.done, task);
  }

  lemma CountedStep(s: Pool, step: Step)
    requires Counted(s.tally) && Enabled(s, step)
    ensures Counted(Next(s, step).tally)
  {
    match step
    case Finish(i) => RecordCounted(s.tally, s.workers[i].pc.task);
    case Submit(_) =>
    case Drain(_) =>
    case _ => assert Next(s, step).tally == s.tally;
  }

  lemma PhasedStep(s: Pool, step: Step)
    requires Phased(s) && Enabled(s, step)
    ensures Phased(Next(s, step))
  {
    var s' := Next(s, step);
    if s'.phase.Joining? && s.phase.Joining? {
      forall k | 0 <= k < |s'.workers| ensures !s'.workers[k].pc.Waiting? {
        assert s.workers[k] in s.workers;
      }
    }
  }

  lemma NothingLeftBehindStep(s: Pool, step: Step)
    requires NothingLeftBehind(s) && Phased(s) && Enabled(s, step)
    ensures NothingLeftBehind(Next(s, step))
  {
    var s' := Next(s, step);
    if "A0011" !in s'.diagnostics {
      forall k | 0 <= k < |s'.workers|
        ensures var pc := s'.workers[k].pc;
                && !pc.Requeueing? && !pc.Notifying?
                && (pc.SawEmpty? || pc.Exited? ==> s'.shutdown && s'.queue == [])
      {
        if k < |s.workers| {
          assert s.workers[k] in s.workers;
        }
      }
    }
  }

  lemma StepKeepsInv(s: Pool, step: Step)
    requires Inv(s) && Enabled(s, step)
    ensures Inv(Next(s, step))
  {
    ConservedStep(s, step);
    CountedStep(s, step);
    PhasedStep(s, step);
    NothingLeftBehindStep(s, step);
  }

  lemma {:induction false} RunKeepsInv(s: Pool, steps: seq<Step>)
    requires Inv(s) && Run(s, steps).Some?
    ensures Inv(Run(s, steps).value)
    decreases |steps|
  {
    if steps != [] {
      StepKeepsInv(s, steps[0]);
      RunKeepsInv(Next(s, steps[0]), steps[1..]);
    }
  }
}

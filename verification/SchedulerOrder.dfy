/** First in, first out: over every run of the cooperative scheduler, futures stand in its queue, and
    leave it, in the order in which they were last made ready. Everything here is read off the history
    of operations. */
module SchedulerOrder {
  import opened Wrappers
  import opened CoopScheduler

  // ---------------------------------------------------------------------
  // What a history says
  // ---------------------------------------------------------------------

  /** The future that operation `k` speaks of: a spawn's is numbered by the spawns before it. */
  function Subject<V>(ops: seq<Op<V>>, k: nat): Option<nat>
    requires k < |ops|
  {
    match ops[k]
    case Spawn(_) => Some(Spawns(ops[..k]))
    case Park(id, _) => Some(id)
    case Resume(id, _) => Some(id)
    case Advance => None
  }

  /** Some park of a spawned future was not followed by a resume of it. */
  ghost predicate Parked<V>(ops: seq<Op<V>>, id: nat) {
    exists k :: ParkedSince(ops, id, k)
  }

  ghost predicate ParkedSince<V>(ops: seq<Op<V>>, id: nat, k: nat) {
    && k < |ops| && ops[k].Park? && ops[k].id == id && id < Spawns(ops[..k])
    && forall j | k < j < |ops| :: !(ops[j].Resume? && ops[j].id == id)
  }

  /** Operation `k` makes its future ready: a spawn, or the resume of a parked future. */
  ghost predicate MakesReady<V>(ops: seq<Op<V>>, k: nat) {
    k < |ops| && (ops[k].Spawn? || (ops[k].Resume? && Parked(ops[..k], ops[k].id)))
  }

  /** Its future was not parked since. */
  ghost predicate NotParkedSince<V>(ops: seq<Op<V>>, k: nat)
    requires k < |ops|
  {
    forall j | k < j < |ops| :: !(ops[j].Park? && Some(ops[j].id) == Subject(ops, k))
  }

  /** The values that the steps of a run returned, in order. */
  function Observed<V>(ops: seq<Op<V>>, unit: V): seq<V> {
    if ops == [] then []
    else
      var n := |ops| - 1;
      var tick := AfterStep(ApplyAll(Start(), ops[..n], unit), unit).1;
      Observed(ops[..n], unit) + if ops[n].Advance? && tick.Some? && tick.value.Ready? then [tick.value.value] else []
  }

  predicate Increasing(times: seq<nat>) {
    forall i, j | 0 <= i < j < |times| :: times[i] < times[j]
  }

  /** `seen` are the operations whose value was observed, `ready` those behind the futures still queued. */
  ghost predicate InOrder<V>(ops: seq<Op<V>>, s: State<V>, out: seq<V>, seen: seq<nat>, ready: seq<nat>) {
    Readied(ops, seen + ready) && Gave(ops, seen, out) && Queued(ops, s, ready) && Waits(ops, s)
  }

  /** These operations, in the order they happened, made futures ready; no other did but those whose
      future was parked later. */
  ghost predicate Readied<V>(ops: seq<Op<V>>, times: seq<nat>) {
    && Increasing(times)
    && (forall k | k in times :: MakesReady(ops, k))
    && forall k: nat | MakesReady(ops, k) && NotParkedSince(ops, k) :: k in times
  }

  ghost predicate Gave<V>(ops: seq<Op<V>>, seen: seq<nat>, out: seq<V>) {
    |out| == |seen| && forall i | 0 <= i < |seen| :: MakesReady(ops, seen[i]) && ops[seen[i]].value == out[i]
  }

  ghost predicate Waits<V>(ops: seq<Op<V>>, s: State<V>) {
    forall id :: id in s.waiting <==> Parked(ops, id)
  }

  ghost predicate Queued<V>(ops: seq<Op<V>>, s: State<V>, ready: seq<nat>) {
    |s.queue| == |ready| && forall i | 0 <= i < |ready| :: Behind(ops, s, ready[i], s.queue[i])
  }

  /** Operation `k` was the last to make the queued future ready, and gave it its value. */
  ghost predicate Behind<V>(ops: seq<Op<V>>, s: State<V>, k: nat, id: nat) {
    && MakesReady(ops, k) && NotParkedSince(ops, k) && Subject(ops, k) == Some(id)
    && id in s.resumed && s.resumed[id] == ops[k].value
  }

  // ---------------------------------------------------------------------
  // One more operation
  // ---------------------------------------------------------------------

  lemma SubjectStays<V>(ops: seq<Op<V>>, op: Op<V>, k: nat)
    requires k < |ops|
    ensures Subject(ops + [op], k) == Subject(ops, k)
    ensures MakesReady(ops + [op], k) <==> MakesReady(ops, k)
    ensures NotParkedSince(ops + [op], k) <==> NotParkedSince(ops, k) && !(op.Park? && Some(op.id) == Subject(ops, k))
  {
    var all := ops + [op];
    assert all[..k] == ops[..k];
    assert all[|ops|] == op;
    if NotParkedSince(all, k) {
      assert forall j | k < j < |ops| :: all[j] == ops[j];
    }
  }

  lemma ParkedStays<V>(ops: seq<Op<V>>, op: Op<V>, id: nat)
    ensures Parked(ops + [op], id)
       <==> (op.Park? && op.id == id && id < Spawns(ops)) || (Parked(ops, id) && !(op.Resume? && op.id == id))
  {
    var all, n := ops + [op], |ops|;
    assert all[..n] == ops;
    forall k | 0 <= k < n ensures ParkedSince(all, id, k) <==> ParkedSince(ops, id, k) && !(op.Resume? && op.id == id) {
      assert all[..k] == ops[..k];
      assert all[n] == op;
      assert forall j | 0 <= j < n :: all[j] == ops[j];
    }
    if op.Park? && op.id == id && id < Spawns(ops) {
      assert ParkedSince(all, id, n);
    }
    if Parked(all, id) {
      var k :| ParkedSince(all, id, k);
      assert k == n || ParkedSince(ops, id, k);
    }
    if Parked(ops, id) && !(op.Resume? && op.id == id) {
      var k :| ParkedSince(ops, id, k);
      assert ParkedSince(all, id, k);
    }
  }

  /** What a run is known to keep. */
  ghost predicate Running<V>(ops: seq<Op<V>>, s: State<V>) {
    Healthy(s) && s.nextId == Spawns(ops) && forall id: nat :: id in s.spawned <==> id < Spawns(ops)
  }

  lemma OpStays<V>(ops: seq<Op<V>>, op: Op<V>)
    ensures forall k | 0 <= k < |ops| ::
              && (ops + [op])[k] == ops[k] && Subject(ops + [op], k) == Subject(ops, k)
              && (MakesReady(ops + [op], k) <==> MakesReady(ops, k))
              && (NotParkedSince(ops + [op], k) <==>
                    NotParkedSince(ops, k) && !(op.Park? && Some(op.id) == Subject(ops, k)))
    ensures forall id: nat :: Parked(ops + [op], id)
              <==> (op.Park? && op.id == id && id < Spawns(ops)) || (Parked(ops, id) && !(op.Resume? && op.id == id))
  {
    forall k: nat | k < |ops|
      ensures Subject(ops + [op], k) == Subject(ops, k)
      ensures MakesReady(ops + [op], k) <==> MakesReady(ops, k)
      ensures NotParkedSince(ops + [op], k) <==> NotParkedSince(ops, k) && !(op.Park? && Some(op.id) == Subject(ops, k))
    {
      SubjectStays(ops, op, k);
    }
    forall id: nat ensures Parked(ops + [op], id)
                 <==> (op.Park? && op.id == id && id < Spawns(ops)) || (Parked(ops, id) && !(op.Resume? && op.id == id))
    {
      ParkedStays(ops, op, id);
    }
  }

  lemma ReadiedMore<V>(ops: seq<Op<V>>, op: Op<V>, times: seq<nat>)
    requires Readied(ops, times) && !op.Park? && MakesReady(ops + [op], |ops|)
    ensures Readied(ops + [op], times + [|ops|])
  {
    var all, n, more := ops + [op], |ops|, times + [|ops|];
    OpStays(ops, op);
    forall i | 0 <= i < |times| ensures times[i] < n {
      assert times[i] in times;
    }
    forall k: nat | MakesReady(all, k) && NotParkedSince(all, k) ensures k in more {
      if k < n {
        assert k in times;
      } else {
        assert more[|times|] == k;
      }
    }
  }

  lemma ReadiedStays<V>(ops: seq<Op<V>>, op: Op<V>, times: seq<nat>)
    requires Readied(ops, times) && !MakesReady(ops + [op], |ops|)
    ensures Readied(ops + [op], times)
  {
    OpStays(ops, op);
  }

  lemma GaveStays<V>(ops: seq<Op<V>>, op: Op<V>, seen: seq<nat>, out: seq<V>)
    requires Gave(ops, seen, out)
    ensures Gave(ops + [op], seen, out)
  {
    OpStays(ops, op);
  }

  /** A future was made ready by the new operation, and goes to the back of the queue. */
  lemma Joins<V>(ops: seq<Op<V>>, op: Op<V>, s: State<V>, t: State<V>, id: nat, out: seq<V>, seen: seq<nat>, ready: seq<nat>)
    requires InOrder(ops, s, out, seen, ready) && (op.Spawn? || op.Resume?)
    requires MakesReady(ops + [op], |ops|) && Subject(ops + [op], |ops|) == Some(id) && id !in s.queue
    requires t.queue == s.queue + [id] && t.resumed == s.resumed[id := op.value]
    requires Waits(ops + [op], t)
    ensures InOrder(ops + [op], t, out, seen, ready + [|ops|])
  {
    var n := |ops|;
    ReadiedMore(ops, op, seen + ready);
    GaveStays(ops, op, seen, out);
    assert seen + (ready + [n]) == seen + ready + [n];
    LastQueued(ops, op, s, t, id, ready);
  }

  lemma LastQueued<V>(ops: seq<Op<V>>, op: Op<V>, s: State<V>, t: State<V>, id: nat, ready: seq<nat>)
    requires Queued(ops, s, ready) && (op.Spawn? || op.Resume?)
    requires MakesReady(ops + [op], |ops|) && Subject(ops + [op], |ops|) == Some(id) && id !in s.queue
    requires t.queue == s.queue + [id] && t.resumed == s.resumed[id := op.value]
    ensures Queued(ops + [op], t, ready + [|ops|])
  {
    var ready' := ready + [|ops|];
    forall i | 0 <= i < |ready'| ensures Behind(ops + [op], t, ready'[i], t.queue[i]) {
      if i < |ready| {
        assert Behind(ops, s, ready[i], s.queue[i]) && s.queue[i] in s.queue;
        SubjectStays(ops, op, ready[i]);
      } else {
        assert (ops + [op])[|ops|] == op;
      }
    }
  }

  /** The operation made nothing ready and parked nothing that is queued. */
  lemma Passes<V>(ops: seq<Op<V>>, op: Op<V>, s: State<V>, t: State<V>, out: seq<V>, seen: seq<nat>, ready: seq<nat>)
    requires InOrder(ops, s, out, seen, ready) && !MakesReady(ops + [op], |ops|)
    requires op.Park? ==> op.id !in s.queue
    requires t.queue == s.queue && forall id | id in s.queue && id in s.resumed :: id in t.resumed && t.resumed[id] == s.resumed[id]
    requires Waits(ops + [op], t)
    ensures InOrder(ops + [op], t, out, seen, ready)
  {
    ReadiedStays(ops, op, seen + ready);
    GaveStays(ops, op, seen, out);
    forall i | 0 <= i < |ready| ensures Behind(ops + [op], t, ready[i], t.queue[i]) {
      assert Behind(ops, s, ready[i], s.queue[i]) && s.queue[i] in s.queue;
      SubjectStays(ops, op, ready[i]);
    }
  }

  lemma WaitsAfter<V>(ops: seq<Op<V>>, op: Op<V>, s: State<V>, t: State<V>)
    requires Waits(ops, s)
    requires forall id: nat :: id in t.waiting
               <==> (op.Park? && op.id == id && id < Spawns(ops)) || (id in s.waiting && !(op.Resume? && op.id == id))
    ensures Waits(ops + [op], t)
  {
    OpStays(ops, op);
  }

  lemma SpawnInOrder<V>(ops: seq<Op<V>>, value: V, s: State<V>, out: seq<V>, seen: seq<nat>, ready: seq<nat>)
    requires Running(ops, s) && InOrder(ops, s, out, seen, ready)
    ensures InOrder(ops + [Spawn(value)], AfterSpawn(s, value), out, seen, ready + [|ops|])
  {
    var op := Spawn(value);
    assert (ops + [op])[..|ops|] == ops;
    assert s.nextId !in s.spawned;
    WaitsAfter(ops, op, s, AfterSpawn(s, value));
    Joins(ops, op, s, AfterSpawn(s, value), s.nextId, out, seen, ready);
  }

  lemma ResumeInOrder<V>(ops: seq<Op<V>>, id: nat, value: V, s: State<V>, out: seq<V>, seen: seq<nat>, ready: seq<nat>)
    returns (ready': seq<nat>)
    requires Running(ops, s) && InOrder(ops, s, out, seen, ready)
    ensures InOrder(ops + [Resume(id, value)], AfterResume(s, id, value), out, seen, ready')
  {
    var op := Resume(id, value);
    assert (ops + [op])[..|ops|] == ops;
    WaitsAfter(ops, op, s, AfterResume(s, id, value));
    if id in s.waiting {
      assert id in s.waiting.Keys;
      ready' := ready + [|ops|];
      Joins(ops, op, s, AfterResume(s, id, value), id, out, seen, ready);
    } else {
      ready' := ready;
      Passes(ops, op, s, s, out, seen, ready);
    }
  }

  lemma {:induction false} WithoutAt(queue: seq<nat>, i: nat)
    requires NoDup(queue) && i < |queue|
    ensures Without(queue, queue[i]) == queue[..i] + queue[i + 1..]
    decreases |queue|
  {
    if i == 0 {
      WithoutNone(queue[1..], queue[0]);
    } else {
      WithoutAt(queue[1..], i - 1);
      CutLater(queue, i);
    }
  }

  lemma CutLater(queue: seq<nat>, i: nat)
    requires 0 < i < |queue|
    ensures queue[..i] + queue[i + 1..] == [queue[0]] + (queue[1..][..i - 1] + queue[1..][i..])
  {
  }

  lemma {:induction false} WithoutNone(queue: seq<nat>, id: nat)
    requires id !in queue
    ensures Without(queue, id) == queue
    decreases |queue|
  {
    if queue != [] {
      WithoutNone(queue[1..], id);
    }
  }

  lemma CutIncreasing(a: seq<nat>, b: seq<nat>, i: nat)
    requires Increasing(a + b) && i < |b|
    ensures Increasing(a + (b[..i] + b[i + 1..]))
    ensures forall k :: k in a + (b[..i] + b[i + 1..]) <==> k in a + b && k != b[i]
  {
    var all, cut := a + b, a + (b[..i] + b[i + 1..]);
    assert all[|a| + i] == b[i];
    forall j | 0 <= j < |cut| ensures cut[j] == all[if j < |a| + i then j else j + 1] {
    }
    forall k | k in all && k != b[i] ensures k in cut {
      var j :| 0 <= j < |all| && all[j] == k;
      assert cut[if j < |a| + i then j else j - 1] == k;
    }
  }

  lemma CutQueued<V>(ops: seq<Op<V>>, op: Op<V>, s: State<V>, t: State<V>, i: nat, ready: seq<nat>)
    requires Queued(ops, s, ready) && NoDup(s.queue)
    requires op.Park? && i < |s.queue| && s.queue[i] == op.id
    requires t.queue == s.queue[..i] + s.queue[i + 1..] && t.resumed == s.resumed - {op.id}
    ensures Queued(ops + [op], t, ready[..i] + ready[i + 1..])
  {
    var ready' := ready[..i] + ready[i + 1..];
    forall j | 0 <= j < |ready'| ensures Behind(ops + [op], t, ready'[j], t.queue[j]) {
      var m := if j < i then j else j + 1;
      assert Behind(ops, s, ready[m], s.queue[m]) && s.queue[m] != s.queue[i];
      SubjectStays(ops, op, ready[m]);
    }
  }

  lemma CutReadied<V>(ops: seq<Op<V>>, op: Op<V>, gone: nat, times: seq<nat>, cut: seq<nat>)
    requires Readied(ops, times) && Increasing(cut) && forall k :: k in cut <==> k in times && k != gone
    requires op.Park? && gone < |ops| && Subject(ops, gone) == Some(op.id)
    ensures Readied(ops + [op], cut)
  {
    var all := ops + [op];
    OpStays(ops, op);
    assert all[|ops|] == op;
    forall k | k in cut ensures MakesReady(all, k) {
      assert MakesReady(ops, k);
    }
    forall k: nat | MakesReady(all, k) && NotParkedSince(all, k) ensures k in cut {
      assert k < |ops| && MakesReady(ops, k) && NotParkedSince(ops, k);
      assert k in times;
    }
  }

  lemma ParkInOrder<V>(ops: seq<Op<V>>, id: nat, sentinel: V, s: State<V>, out: seq<V>, seen: seq<nat>, ready: seq<nat>)
    returns (ready': seq<nat>)
    requires Running(ops, s) && InOrder(ops, s, out, seen, ready)
    ensures InOrder(ops + [Park(id, sentinel)], AfterPark(s, id, sentinel), out, seen, ready')
  {
    var op, t := Park(id, sentinel), AfterPark(s, id, sentinel);
    WaitsAfter(ops, op, s, t);
    if id in s.queue {
      var i :| 0 <= i < |s.queue| && s.queue[i] == id;
      assert Behind(ops, s, ready[i], id) && id in s.spawned;
      ready' := ready[..i] + ready[i + 1..];
      WithoutAt(s.queue, i);
      CutIncreasing(seen, ready, i);
      CutReadied(ops, op, ready[i], seen + ready, seen + ready');
      CutQueued(ops, op, s, t, i, ready);
      GaveStays(ops, op, seen, out);
    } else {
      ready' := ready;
      WithoutNone(s.queue, id);
      Passes(ops, op, s, t, out, seen, ready);
    }
  }

  lemma FirstLeaves<V>(ops: seq<Op<V>>, s: State<V>, t: State<V>, ready: seq<nat>)
    requires Queued(ops, s, ready) && NoDup(s.queue) && s.queue != []
    requires t.queue == s.queue[1..] && t.resumed == s.resumed - {s.queue[0]}
    ensures Queued(ops + [Advance], t, ready[1..])
  {
    forall i | 0 <= i < |ready| - 1 ensures Behind(ops + [Advance], t, ready[1..][i], t.queue[i]) {
      assert Behind(ops, s, ready[i + 1], s.queue[i + 1]) && s.queue[i + 1] != s.queue[0];
      SubjectStays(ops, Advance, ready[i + 1]);
    }
  }

  lemma FirstSeen<V>(ops: seq<Op<V>>, s: State<V>, out: seq<V>, seen: seq<nat>, ready: seq<nat>)
    requires Gave(ops, seen, out) && Queued(ops, s, ready) && s.queue != []
    ensures s.queue[0] in s.resumed
    ensures Gave(ops + [Advance], seen + [ready[0]], out + [s.resumed[s.queue[0]]])
  {
    assert Behind(ops, s, ready[0], s.queue[0]);
    OpStays(ops, Advance);
  }

  lemma StepTakes<V>(ops: seq<Op<V>>, s: State<V>, t: State<V>, out: seq<V>, seen: seq<nat>, ready: seq<nat>)
    requires NoDup(s.queue) && s.queue != [] && InOrder(ops, s, out, seen, ready) && s.queue[0] in s.resumed
    requires t.queue == s.queue[1..] && t.resumed == s.resumed - {s.queue[0]} && t.waiting == s.waiting
    ensures InOrder(ops + [Advance], t, out + [s.resumed[s.queue[0]]], seen + [ready[0]], ready[1..])
  {
    ReadiedStays(ops, Advance, seen + ready);
    assert seen + [ready[0]] + ready[1..] == seen + ready;
    FirstSeen(ops, s, out, seen, ready);
    FirstLeaves(ops, s, t, ready);
    WaitsAfter(ops, Advance, s, t);
  }

  lemma StepInOrder<V>(ops: seq<Op<V>>, s: State<V>, unit: V, out: seq<V>, seen: seq<nat>, ready: seq<nat>)
    returns (seen': seq<nat>, ready': seq<nat>)
    requires Running(ops, s) && InOrder(ops, s, out, seen, ready)
    ensures var (t, tick) := AfterStep(s, unit);
            InOrder(ops + [Advance], t, if tick.Some? && tick.value.Ready? then out + [tick.value.value] else out, seen', ready')
  {
    StepHealthy(s, unit);
    if s.queue == [] {
      seen', ready' := seen, ready;
      WaitsAfter(ops, Advance, s, s);
      Passes(ops, Advance, s, s, out, seen, ready);
    } else {
      seen', ready' := seen + [ready[0]], ready[1..];
      StepTakes(ops, s, AfterStep(s, unit).0, out, seen, ready);
    }
  }

  // ---------------------------------------------------------------------
  // Every run
  // ---------------------------------------------------------------------

  lemma StartInOrder<V>()
    ensures InOrder<V>([], Start(), [], [], [])
  {
  }

  lemma RunRunning<V>(ops: seq<Op<V>>, unit: V)
    requires Spawns(ops) <= U64_MAX
    ensures Running(ops, ApplyAll(Start(), ops, unit))
  {
    RunsStayHealthy(ops, unit);
    SpawnedAre(ops, unit);
  }

  /** Every number below the count of spawns was handed out. */
  lemma {:induction false} SpawnedAre<V>(ops: seq<Op<V>>, unit: V)
    requires Spawns(ops) <= U64_MAX
    ensures forall id: nat | id < Spawns(ops) :: id in ApplyAll(Start(), ops, unit).spawned
    decreases |ops|
  {
    if ops != [] {
      var init := ops[..|ops| - 1];
      SpawnedAre(init, unit);
      RunsStayHealthy(init, unit);
      var s, t := ApplyAll(Start(), init, unit), ApplyAll(Start(), ops, unit);
      match ops[|ops| - 1] {
        case Spawn(_) => assert t.spawned == s.spawned + {Spawns(init)};
        case _ => assert t.spawned == s.spawned;
      }
    }
  }

  /** Over every run, the operations whose values were observed, followed by those behind the futures
      still queued, are in the order in which they happened: ids stand in the queue, and leave it, in the
      order in which they were last made ready, each with the value it was given then. */
  lemma {:induction false} RunsAreInOrder<V>(ops: seq<Op<V>>, unit: V) returns (seen: seq<nat>, ready: seq<nat>)
    requires Spawns(ops) <= U64_MAX
    ensures InOrder(ops, ApplyAll(Start(), ops, unit), Observed(ops, unit), seen, ready)
    decreases |ops|
  {
    if ops == [] {
      StartInOrder<V>();
      return [], [];
    }
    var init, op := ops[..|ops| - 1], ops[|ops| - 1];
    assert ops == init + [op];
    var s := ApplyAll(Start(), init, unit);
    RunRunning(init, unit);
    seen, ready := RunsAreInOrder(init, unit);
    var out := Observed(init, unit);
    match op {
      case Spawn(value) =>
        SpawnInOrder(init, value, s, out, seen, ready);
        ready := ready + [|init|];
      case Park(id, sentinel) => ready := ParkInOrder(init, id, sentinel, s, out, seen, ready);
      case Resume(id, value) => ready := ResumeInOrder(init, id, value, s, out, seen, ready);
      case Advance => seen, ready := StepInOrder(init, s, unit, out, seen, ready);
    }
  }

  // ---------------------------------------------------------------------
  // Runs that only spawn and step
  // ---------------------------------------------------------------------

  /** The values spawned, in order. */
  function Spawned<V>(ops: seq<Op<V>>): seq<V> {
    if ops == [] then []
    else Spawned(ops[..|ops| - 1]) + if ops[|ops| - 1].Spawn? then [ops[|ops| - 1].value] else []
  }

  function SpawnTimes<V>(ops: seq<Op<V>>): seq<nat> {
    if ops == [] then []
    else SpawnTimes(ops[..|ops| - 1]) + if ops[|ops| - 1].Spawn? then [|ops| - 1] else []
  }

  lemma {:induction false} SpawnTimesAre<V>(ops: seq<Op<V>>)
    ensures TimesOfSpawns(ops, SpawnTimes(ops), Spawned(ops)) && |Spawned(ops)| == Spawns(ops)
    decreases |ops|
  {
    if ops != [] {
      var n := |ops| - 1;
      SpawnTimesAre(ops[..n]);
      assert ops == ops[..n] + [ops[n]];
      OneMoreSpawn(ops[..n], ops[n], SpawnTimes(ops[..n]), Spawned(ops[..n]));
    }
  }

  ghost predicate TimesOfSpawns<V>(ops: seq<Op<V>>, times: seq<nat>, values: seq<V>) {
    && Increasing(times) && (forall k: nat :: k in times <==> k < |ops| && ops[k].Spawn?)
    && |times| == |values|
    && forall i | 0 <= i < |times| :: times[i] < |ops| && ops[times[i]].Spawn? && ops[times[i]].value == values[i]
  }

  lemma OneMoreSpawn<V>(ops: seq<Op<V>>, op: Op<V>, times: seq<nat>, values: seq<V>)
    requires TimesOfSpawns(ops, times, values)
    ensures op.Spawn? ==> TimesOfSpawns(ops + [op], times + [|ops|], values + [op.value])
    ensures !op.Spawn? ==> TimesOfSpawns(ops + [op], times, values)
  {
    assert forall k | 0 <= k < |ops| :: (ops + [op])[k] == ops[k];
  }

  lemma FirstIsIn(q: seq<nat>)
    requires q != []
    ensures exists k: nat :: k in q
  {
    assert q[0] in q;
  }

  lemma {:induction false} IncreasingUnique(p: seq<nat>, q: seq<nat>)
    requires Increasing(p) && Increasing(q) && forall k: nat :: k in p <==> k in q
    ensures p == q
    decreases |p|
  {
    if p == [] {
      if q != [] {
        FirstIsIn(q);
        assert false;
      }
    } else {
      assert p[0] in p;
      var j :| 0 <= j < |q| && q[j] == p[0];
      assert q[0] in q;
      var i :| 0 <= i < |p| && p[i] == q[0];
      assert i == 0 && p[0] == q[0];
      forall k: nat ensures k in p[1..] <==> k in q[1..] {
        assert k in p[1..] <==> k in p && k != p[0];
        assert k in q[1..] <==> k in q && k != q[0];
      }
      IncreasingUnique(p[1..], q[1..]);
      assert p == [p[0]] + p[1..] && q == [q[0]] + q[1..];
    }
  }

  /** The first of these values were observed, the rest are queued, both in order. */
  ghost predicate FirstOut<V>(s: State<V>, out: seq<V>, values: seq<V>) {
    && |out| + |s.queue| == |values| && out == values[..|out|]
    && forall i | 0 <= i < |s.queue| :: s.queue[i] in s.resumed && s.resumed[s.queue[i]] == values[|out| + i]
  }

  lemma OnlySpawnsReady<V>(ops: seq<Op<V>>, times: seq<nat>)
    requires Readied(ops, times) && forall k | 0 <= k < |ops| :: ops[k].Spawn? || ops[k].Advance?
    ensures times == SpawnTimes(ops)
  {
    SpawnTimesAre(ops);
    forall k: nat ensures k in times <==> k in SpawnTimes(ops) {
      if k in SpawnTimes(ops) {
        assert MakesReady(ops, k) && NotParkedSince(ops, k);
      }
      if k in times {
        assert MakesReady(ops, k);
      }
    }
    IncreasingUnique(times, SpawnTimes(ops));
  }

  lemma SeenValues<V>(ops: seq<Op<V>>, out: seq<V>, seen: seq<nat>, times: seq<nat>, values: seq<V>)
    requires Gave(ops, seen, out) && TimesOfSpawns(ops, times, values) && seen <= times
    ensures |out| <= |values| && out == values[..|out|]
  {
    forall i | 0 <= i < |seen| ensures out[i] == values[i] {
      assert times[i] == seen[i];
    }
  }

  lemma QueuedValues<V>(ops: seq<Op<V>>, s: State<V>, n: nat, ready: seq<nat>, times: seq<nat>, values: seq<V>)
    requires Queued(ops, s, ready) && TimesOfSpawns(ops, times, values) && n <= |times| && times[n..] == ready
    ensures n + |s.queue| == |values|
    ensures forall i | 0 <= i < |s.queue| :: s.queue[i] in s.resumed && s.resumed[s.queue[i]] == values[n + i]
  {
    forall i | 0 <= i < |s.queue| ensures s.queue[i] in s.resumed && s.resumed[s.queue[i]] == values[n + i] {
      assert Behind(ops, s, ready[i], s.queue[i]) && times[n + i] == ready[i];
    }
  }

  lemma ValuesInOrder<V>(ops: seq<Op<V>>, s: State<V>, out: seq<V>, seen: seq<nat>, ready: seq<nat>)
    requires InOrder(ops, s, out, seen, ready) && forall k | 0 <= k < |ops| :: ops[k].Spawn? || ops[k].Advance?
    ensures FirstOut(s, out, Spawned(ops))
  {
    var times, values := seen + ready, Spawned(ops);
    OnlySpawnsReady(ops, times);
    SpawnTimesAre(ops);
    SeenValues(ops, out, seen, times, values);
    QueuedValues(ops, s, |seen|, ready, times, values);
  }

  /** Where nothing is parked, the values are observed in the order of their spawns, and those not yet
      observed are queued in that order. */
  lemma SpawnsAreObservedInOrder<V>(ops: seq<Op<V>>, unit: V)
    requires Spawns(ops) <= U64_MAX && forall k | 0 <= k < |ops| :: ops[k].Spawn? || ops[k].Advance?
    ensures FirstOut(ApplyAll(Start(), ops, unit), Observed(ops, unit), Spawned(ops))
  {
    var seen, ready := RunsAreInOrder(ops, unit);
    ValuesInOrder(ops, ApplyAll(Start(), ops, unit), Observed(ops, unit), seen, ready);
  }

  /** The length of the queue after the first `k` operations. */
  function Depth<V>(ops: seq<Op<V>>, unit: V, k: nat): nat
    requires k <= |ops|
  {
    |ApplyAll(Start(), ops[..k], unit).queue|
  }

  ghost predicate IsPeak<V>(ops: seq<Op<V>>, unit: V, depth: nat) {
    && (forall k: nat | k <= |ops| :: Depth(ops, unit, k) <= depth)
    && exists k: nat :: k <= |ops| && Depth(ops, unit, k) == depth
  }

  lemma DepthEarlier<V>(ops: seq<Op<V>>, unit: V, k: nat)
    requires ops != [] && k < |ops|
    ensures Depth(ops[..|ops| - 1], unit, k) == Depth(ops, unit, k)
  {
    assert ops[..|ops| - 1][..k] == ops[..k];
  }

  lemma DepthNow<V>(ops: seq<Op<V>>, unit: V)
    ensures Depth(ops, unit, |ops|) == |ApplyAll(Start(), ops, unit).queue|
  {
    assert ops[..|ops|] == ops;
  }

  lemma PeakStep<V>(ops: seq<Op<V>>, unit: V, before: nat, after: nat)
    requires ops != [] && IsPeak(ops[..|ops| - 1], unit, before)
    requires before <= after && Depth(ops, unit, |ops|) <= after && (after != before ==> after == Depth(ops, unit, |ops|))
    ensures IsPeak(ops, unit, after)
  {
    forall k: nat | k < |ops| ensures Depth(ops[..|ops| - 1], unit, k) == Depth(ops, unit, k) {
      DepthEarlier(ops, unit, k);
    }
    if after == before {
      var k: nat :| k < |ops| && Depth(ops[..|ops| - 1], unit, k) == before;
      assert Depth(ops, unit, k) == after;
    }
  }

  /** The depth reported is the longest the queue ever was. */
  lemma {:induction false} DepthIsPeak<V>(ops: seq<Op<V>>, unit: V)
    ensures IsPeak(ops, unit, ApplyAll(Start(), ops, unit).maxDepth)
    decreases |ops|
  {
    DepthNow(ops, unit);
    if ops != [] {
      var init := ops[..|ops| - 1];
      var s, t := ApplyAll(Start(), init, unit), ApplyAll(Start(), ops, unit);
      DepthIsPeak(init, unit);
      DepthNow(init, unit);
      assert |s.queue| <= s.maxDepth;
      DepthStep(s, ops[|ops| - 1], unit);
      PeakStep(ops, unit, s.maxDepth, t.maxDepth);
    }
  }

  lemma DepthStep<V>(s: State<V>, op: Op<V>, unit: V)
    requires |s.queue| <= s.maxDepth
    ensures var t := Apply(s, op, unit);
            s.maxDepth <= t.maxDepth && |t.queue| <= t.maxDepth && (t.maxDepth != s.maxDepth ==> t.maxDepth == |t.queue|)
  {
    match op
    case Park(id, _) => WithoutShorter(s.queue, id);
    case _ =>
  }

  lemma {:induction false} WithoutShorter(queue: seq<nat>, id: nat)
    ensures |Without(queue, id)| <= |queue|
    decreases |queue|
  {
    if queue != [] {
      WithoutShorter(queue[1..], id);
    }
  }
}

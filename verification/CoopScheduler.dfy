/** The cooperative single-thread scheduler: a FIFO of ready futures, a waiting room, and ids that
    are handed out by a saturating 64-bit counter. */
module CoopScheduler {
  import opened Wrappers

  datatype Tick<+V> = Ready(value: V) | Pending(id: nat)

  /** The scheduler's fields as one value. */
  datatype State<V> = State(
    queue: seq<nat>, waiting: map<nat, V>, nextId: nat,
    spawned: set<nat>, completed: set<nat>, resumed: map<nat, V>, maxDepth: nat)

  function Max(a: nat, b: nat): nat {
    if a > b then a else b
  }

  function Without(queue: seq<nat>, id: nat): (r: seq<nat>)
    ensures forall q :: q in r <==> q in queue && q != id
    ensures NoDup(queue) ==> NoDup(r)
  {
    if queue == [] then []
    else if queue[0] == id then Without(queue[1..], id)
    else
      assert NoDup(queue) ==> NoDup(queue[1..]) && queue[0] !in queue[1..];
      var rest := Without(queue[1..], id);
      assert NoDup(queue) ==> queue[0] !in rest;
      [queue[0]] + rest
  }

  function Elems(queue: seq<nat>): set<nat> {
    set q | q in queue
  }

  predicate NoDup(queue: seq<nat>) {
    forall i, j | 0 <= i < j < |queue| :: queue[i] != queue[j]
  }

  // ---------------------------------------------------------------------
  // What each operation does to the state
  // ---------------------------------------------------------------------

  function AfterSpawn<V>(s: State<V>, value: V): State<V> {
    var queue := s.queue + [s.nextId];
    s.(nextId := SatInc(s.nextId), spawned := s.spawned + {s.nextId},
       resumed := s.resumed[s.nextId := value], queue := queue, maxDepth := Max(s.maxDepth, |queue|))
  }

  function AfterPark<V>(s: State<V>, id: nat, sentinel: V): State<V> {
    if id !in s.spawned then s
    else s.(queue := Without(s.queue, id), resumed := s.resumed - {id}, waiting := s.waiting[id := sentinel])
  }

  function AfterResume<V>(s: State<V>, id: nat, value: V): State<V> {
    if id !in s.waiting then s
    else
      var queue := s.queue + [id];
      s.(waiting := s.waiting - {id}, resumed := s.resumed[id := value], queue := queue,
         maxDepth := Max(s.maxDepth, |queue|))
  }

  function AfterStep<V>(s: State<V>, unit: V): (State<V>, Option<Tick<V>>) {
    if s.queue == [] then (s, None)
    else
      var id := s.queue[0];
      var s1 := s.(queue := s.queue[1..]);
      if id in s.resumed
      then (s1.(resumed := s.resumed - {id}, completed := s.completed + {id}), Some(Ready(s.resumed[id])))
      else (s1.(waiting := s.waiting[id := unit]), Some(Pending(id)))
  }

  function Leaked<V>(s: State<V>): set<nat> {
    set id | id in s.spawned && id !in s.completed && id !in s.waiting && id !in s.queue
  }

  // ---------------------------------------------------------------------
  // The invariant
  // ---------------------------------------------------------------------

  /** Each id is queued at most once, exactly the queued ids have a value ready, no id is both queued
      and parked, and every spawned id is queued, parked or completed. */
  ghost predicate Healthy<V>(s: State<V>) {
    && NoDup(s.queue)
    && (forall id :: id in s.queue <==> id in s.resumed)
    && s.resumed.Keys !! s.waiting.Keys
    && (forall id :: id in s.spawned <==> id in s.queue || id in s.waiting || id in s.completed)
  }

  /** Spawning keeps the invariant exactly when the id it hands out is not still in use. Below
      saturation it never is; a saturated counter hands the same id out again. */
  lemma SpawnHealthy<V>(s: State<V>, value: V)
    requires Healthy(s)
    ensures Healthy(AfterSpawn(s, value)) <==> s.nextId !in s.queue && s.nextId !in s.waiting
  {
    var s' := AfterSpawn(s, value);
    var n := |s.queue|;
    if s.nextId in s.queue {
      var k :| 0 <= k < n && s.queue[k] == s.nextId;
      assert s'.queue[k] == s'.queue[n];
    } else if s.nextId in s.waiting {
      assert s.nextId in s'.resumed.Keys && s.nextId in s'.waiting.Keys;
    } else {
      assert forall id :: id in s'.queue <==> id in s.queue || id == s.nextId;
    }
  }

  lemma ParkHealthy<V>(s: State<V>, id: nat, sentinel: V)
    requires Healthy(s)
    ensures Healthy(AfterPark(s, id, sentinel))
  {
  }

  lemma ResumeHealthy<V>(s: State<V>, id: nat, value: V)
    requires Healthy(s)
    ensures Healthy(AfterResume(s, id, value))
  {
    var s' := AfterResume(s, id, value);
    if id in s.waiting {
      assert id in s.waiting.Keys;
      assert forall q :: q in s'.queue <==> q in s.queue || q == id;
    }
  }

  /** In a healthy scheduler a step never reports a pending future, and keeps it healthy. */
  lemma StepHealthy<V>(s: State<V>, unit: V)
    requires Healthy(s)
    ensures Healthy(AfterStep(s, unit).0)
    ensures s.queue != [] ==> s.queue[0] in s.resumed && AfterStep(s, unit).1 == Some(Ready(s.resumed[s.queue[0]]))
  {
    if s.queue != [] {
      var s' := AfterStep(s, unit).0;
      assert s.queue[0] in s.queue;
      assert s.queue == [s.queue[0]] + s'.queue;
      forall id ensures id in s'.queue <==> id in s.queue && id != s.queue[0] {
        if id in s'.queue {
          var k :| 0 <= k < |s'.queue| && s'.queue[k] == id;
          assert s.queue[k + 1] == id;
        }
      }
    }
  }

  lemma NothingLeaks<V>(s: State<V>)
    requires Healthy(s)
    ensures Leaked(s) == {}
  {
  }

  /** The state after the first `n` queued futures have been observed. */
  ghost function Drained<V>(s: State<V>, n: nat): State<V>
    requires n <= |s.queue|
  {
    var seen := Elems(s.queue[..n]);
    s.(queue := s.queue[n..], completed := s.completed + seen, resumed := s.resumed - seen)
  }

  lemma DrainedStep<V>(s: State<V>, n: nat, unit: V)
    requires Healthy(s) && n < |s.queue|
    ensures s.queue[n] in s.resumed
    ensures AfterStep(Drained(s, n), unit) == (Drained(s, n + 1), Some(Ready(s.resumed[s.queue[n]])))
  {
    assert s.queue[n] in s.queue;
    assert s.queue[..n + 1] == s.queue[..n] + [s.queue[n]];
    var id := s.queue[n];
    var seen, seen' := Elems(s.queue[..n]), Elems(s.queue[..n + 1]);
    assert seen' == seen + {id} && id !in seen;
    assert s.resumed - seen' == (s.resumed - seen) - {id};
    assert s.completed + seen' == (s.completed + seen) + {id};
  }

  lemma {:induction false} DrainedHealthy<V>(s: State<V>, n: nat, unit: V)
    requires Healthy(s) && n <= |s.queue|
    ensures Healthy(Drained(s, n))
  {
    if n == 0 {
      DrainedNothing(s);
    } else {
      DrainedHealthy(s, n - 1, unit);
      DrainedStep(s, n - 1, unit);
      StepKeepsHealthy(Drained(s, n - 1), Drained(s, n), unit);
    }
  }

  lemma StepKeepsHealthy<V>(s: State<V>, t: State<V>, unit: V)
    requires Healthy(s) && t == AfterStep(s, unit).0
    ensures Healthy(t)
  {
    StepHealthy(s, unit);
  }

  lemma DrainedNothing<V>(s: State<V>)
    ensures Drained(s, 0) == s
  {
    assert s.queue[0..] == s.queue && s.completed + {} == s.completed && s.resumed - {} == s.resumed;
  }

  // ---------------------------------------------------------------------
  // Runs
  // ---------------------------------------------------------------------

  datatype Op<V> = Spawn(value: V) | Park(id: nat, sentinel: V) | Resume(id: nat, value: V) | Advance

  function Apply<V>(s: State<V>, op: Op<V>, unit: V): State<V> {
    match op
    case Spawn(v) => AfterSpawn(s, v)
    case Park(id, v) => AfterPark(s, id, v)
    case Resume(id, v) => AfterResume(s, id, v)
    case Advance => AfterStep(s, unit).0
  }

  function ApplyAll<V>(s: State<V>, ops: seq<Op<V>>, unit: V): State<V> {
    if ops == [] then s else Apply(ApplyAll(s, ops[..|ops| - 1], unit), ops[|ops| - 1], unit)
  }

  function Spawns<V>(ops: seq<Op<V>>): nat {
    if ops == [] then 0 else Spawns(ops[..|ops| - 1]) + if ops[|ops| - 1].Spawn? then 1 else 0
  }

  function Start<V>(): State<V> {
    State([], map[], 0, {}, {}, map[], 0)
  }

  /** Every run of up to 2^64 spawns, and any number of parks, resumes and steps between them, stays
      healthy: ids are never reused, nothing leaks. */
  lemma {:induction false} RunsStayHealthy<V>(ops: seq<Op<V>>, unit: V)
    requires Spawns(ops) <= U64_MAX + 1
    ensures var s := ApplyAll(Start(), ops, unit);
            && Healthy(s) && Leaked(s) == {}
            && (Spawns(ops) <= U64_MAX ==> s.nextId == Spawns(ops))
            && forall id | id in s.spawned :: id < Spawns(ops)
  {
    if ops != [] {
      var n := |ops| - 1;
      RunsStayHealthy(ops[..n], unit);
      var s := ApplyAll(Start(), ops[..n], unit);
      match ops[n] {
        case Spawn(v) => SpawnHealthy(s, v);
        case Park(id, v) => ParkHealthy(s, id, v);
        case Resume(id, v) => ResumeHealthy(s, id, v);
        case Advance => StepHealthy(s, unit);
      }
    }
    NothingLeaks(ApplyAll(Start(), ops, unit));
  }

  // ---------------------------------------------------------------------
  // The scheduler object
  // ---------------------------------------------------------------------

  class Scheduler<V> {
    var queue: seq<nat>
    var waiting: map<nat, V>
    var nextId: nat
    var spawned: set<nat>
    var completed: set<nat>
    var resumed: map<nat, V>
    var maxDepth: nat
    const unit: V

    ghost function View(): State<V>
      reads this
    {
      State(queue, waiting, nextId, spawned, completed, resumed, maxDepth)
    }

    constructor (unit: V)
      ensures View() == Start() && Healthy(View()) && this.unit == unit
    {
      queue, waiting, nextId, spawned, completed, resumed, maxDepth := [], map[], 0, {}, {}, map[], 0;
      this.unit := unit;
    }

    method Spawn(value: V) returns (id: nat)
      modifies this
      ensures id == old(nextId) && View() == AfterSpawn(old(View()), value)
      ensures old(Healthy(View())) ==> (Healthy(View()) <==> id !in old(queue) && id !in old(waiting))
    {
      SpawnHealthyIf(View(), value);
      id := nextId;
      nextId := SatInc(nextId);
      spawned := spawned + {id};
      resumed := resumed[id := value];
      queue := queue + [id];
      if |queue| > maxDepth {
        maxDepth := |queue|;
      }
    }

    lemma SpawnHealthyIf(s: State<V>, value: V)
      ensures Healthy(s) ==> (Healthy(AfterSpawn(s, value)) <==> s.nextId !in s.queue && s.nextId !in s.waiting)
    {
      if Healthy(s) {
        SpawnHealthy(s, value);
      }
    }

    method Park(id: nat, sentinel: V)
      modifies this
      ensures View() == AfterPark(old(View()), id, sentinel)
      ensures old(Healthy(View())) ==> Healthy(View())
    {
      if id !in spawned {
        return;
      }
      queue := Without(queue, id);
      resumed := resumed - {id};
      waiting := waiting[id := sentinel];
    }

    method Resume(id: nat, value: V)
      modifies this
      ensures View() == AfterResume(old(View()), id, value)
      ensures old(Healthy(View())) ==> Healthy(View())
    {
      ghost var s := View();
      if id !in waiting {
        return;
      }
      waiting := waiting - {id};
      resumed := resumed[id := value];
      queue := queue + [id];
      if |queue| > maxDepth {
        maxDepth := |queue|;
      }
      if Healthy(s) {
        ResumeHealthy(s, id, value);
      }
    }

    method Step() returns (r: Option<Tick<V>>)
      modifies this
      ensures (View(), r) == AfterStep(old(View()), unit)
      ensures old(Healthy(View())) ==> Healthy(View()) && (r.None? || r.value.Ready?)
    {
      ghost var s := View();
      if Healthy(s) {
        StepHealthy(s, unit);
      }
      if queue == [] {
        return None;
      }
      var id := queue[0];
      queue := queue[1..];
      if id in resumed {
        r := Some(Ready(resumed[id]));
        resumed := resumed - {id};
        completed := completed + {id};
      } else {
        waiting := waiting[id := unit];
        r := Some(Pending(id));
      }
    }

    /** `run_to_completion`: on a healthy scheduler, exactly the values of the first `maxSteps` queued
        futures, in queue order; the rest of the queue, and the waiting room, are untouched. */
    method RunToCompletion(maxSteps: nat) returns (out: seq<V>)
      requires Healthy(View())
      modifies this
      ensures Healthy(View())
      ensures |out| == if maxSteps < |old(queue)| then maxSteps else |old(queue)|
      ensures forall k | 0 <= k < |out| :: old(queue)[k] in old(resumed) && out[k] == old(resumed)[old(queue)[k]]
      ensures queue == old(queue)[|out|..] && waiting == old(waiting) && spawned == old(spawned)
      ensures completed == old(completed) + Elems(old(queue)[..|out|])
    {
      out := [];
      ghost var s0 := View();
      var steps := 0;
      DrainedNothing(s0);
      while steps < maxSteps
        invariant 0 <= steps <= maxSteps && steps == |out| <= |s0.queue|
        invariant View() == Drained(s0, steps)
        invariant forall k | 0 <= k < steps :: s0.queue[k] in s0.resumed && out[k] == s0.resumed[s0.queue[k]]
      {
        var tick := StepDrained(s0, steps);
        if tick.None? {
          break;
        }
        out := out + [tick.value.value];
        steps := steps + 1;
      }
      DrainedHealthy(s0, steps, unit);
    }

    /** One more step of a drain that started in `s0`. */
    method StepDrained(ghost s0: State<V>, ghost n: nat) returns (tick: Option<Tick<V>>)
      requires Healthy(s0) && n <= |s0.queue| && View() == Drained(s0, n)
      modifies this
      ensures n < |s0.queue| ==> s0.queue[n] in s0.resumed && tick == Some(Ready(s0.resumed[s0.queue[n]]))
      ensures n < |s0.queue| ==> View() == Drained(s0, n + 1)
      ensures n == |s0.queue| ==> tick.None? && View() == Drained(s0, n)
    {
      if n < |s0.queue| {
        DrainedStep(s0, n, unit);
      }
      tick := Step();
    }

    /** `leaked_ids`, as a set. */
    method LeakedIds() returns (leaked: set<nat>)
      ensures leaked == Leaked(View())
      ensures Healthy(View()) ==> leaked == {}
    {
      leaked := set id | id in spawned && id !in completed && id !in waiting && id !in queue;
    }

    /** The diagnostic codes of `diagnostics_for`. */
    method DiagnosticsFor(stepsTaken: nat, maxSteps: nat) returns (codes: set<string>)
      ensures "A0001" in codes <==> stepsTaken >= maxSteps && queue != []
      ensures "A0002" in codes <==> waiting.Keys != {} && queue == []
      ensures "A0003" in codes <==> Leaked(View()) != {}
      ensures Healthy(View()) ==> "A0003" !in codes
      ensures !("A0001" in codes && "A0002" in codes)
      ensures codes <= {"A0001", "A0002", "A0003"}
    {
      codes := {};
      if stepsTaken >= maxSteps && queue != [] {
        codes := codes + {"A0001"};
      }
      if waiting.Keys != {} && queue == [] {
        codes := codes + {"A0002"};
      }
      var leaked := LeakedIds();
      if leaked != {} {
        codes := codes + {"A0003"};
      }
    }

    /** Draining and then asking: overflow is reported exactly when more futures were ready than
        steps were allowed, a deadlock exactly when everything ready ran and something is parked. */
    method DrainAndDiagnose(maxSteps: nat) returns (out: seq<V>, codes: set<string>)
      requires Healthy(View())
      modifies this
      ensures "A0001" in codes <==> |old(queue)| > maxSteps
      ensures "A0002" in codes <==> |old(queue)| <= maxSteps && old(waiting).Keys != {}
      ensures "A0003" !in codes
    {
      out := RunToCompletion(maxSteps);
      codes := DiagnosticsFor(|out|, maxSteps);
    }
  }
}

/** The region tracker of the body borrow checker, and what its operations mean for the stack of live
    regions. */
module Regions {
  import opened Wrappers

  datatype Mode = Shared | Mut

  datatype LiveBorrow = LiveBorrow(target: string, mode: Mode, region: nat)

  // ---------------------------------------------------------------------
  // The stack of regions
  // ---------------------------------------------------------------------

  datatype Frame = Frame(id: nat, locals: set<string>, borrows: seq<LiveBorrow>)

  /** Live regions, outermost first, and the next index to hand out. */
  datatype Stack = Stack(nextId: nat, frames: seq<Frame>)

  function Entered(s: Stack): Stack {
    Stack(s.nextId + 1, s.frames + [Frame(s.nextId, {}, [])])
  }

  function Exited(s: Stack): Stack {
    if s.frames == [] then s else s.(frames := s.frames[..|s.frames| - 1])
  }

  function WithDeepest(s: Stack, f: Frame): Stack
    requires s.frames != []
  {
    s.(frames := s.frames[..|s.frames| - 1] + [f])
  }

  function Declared(s: Stack, name: string): Stack {
    if s.frames == [] then s
    else
      var f := s.frames[|s.frames| - 1];
      WithDeepest(s, f.(locals := f.locals + {name}))
  }

  function Borrowed(s: Stack, target: string, mode: Mode): Stack {
    if s.frames == [] then s
    else
      var f := s.frames[|s.frames| - 1];
      WithDeepest(s, f.(borrows := f.borrows + [LiveBorrow(target, mode, f.id)]))
  }

  predicate IsLocal(frames: seq<Frame>, name: string) {
    exists i | 0 <= i < |frames| :: name in frames[i].locals
  }

  /** Every live borrow, outermost region first. */
  function Live(frames: seq<Frame>): seq<LiveBorrow> {
    if frames == [] then [] else Live(frames[..|frames| - 1]) + frames[|frames| - 1].borrows
  }

  function BorrowsOf(live: seq<LiveBorrow>, name: string): seq<LiveBorrow> {
    if live == [] then []
    else
      var last := live[|live| - 1];
      BorrowsOf(live[..|live| - 1], name) + if last.target == name then [last] else []
  }

  // ---------------------------------------------------------------------
  // The tracker
  // ---------------------------------------------------------------------

  predicate Distinct(ids: seq<nat>) {
    forall i, j | 0 <= i < j < |ids| :: ids[i] != ids[j]
  }

  type Locals = map<nat, set<string>>
  type Borrows = map<nat, seq<LiveBorrow>>

  function FrameOf(id: nat, locals: Locals, borrows: Borrows): Frame {
    Frame(id, if id in locals then locals[id] else {}, if id in borrows then borrows[id] else [])
  }

  function FramesOf(stack: seq<nat>, locals: Locals, borrows: Borrows): (r: seq<Frame>)
    ensures |r| == |stack| && forall i | 0 <= i < |r| :: r[i] == FrameOf(stack[i], locals, borrows)
  {
    seq(|stack|, i requires 0 <= i < |stack| => FrameOf(stack[i], locals, borrows))
  }

  /** Distinct regions with their own tables, all handed out before. */
  ghost predicate Tracks(nextId: nat, stack: seq<nat>, locals: Locals, borrows: Borrows) {
    && Distinct(stack)
    && (forall i | 0 <= i < |stack| :: stack[i] < nextId)
    && locals.Keys == borrows.Keys == Ids(stack)
  }

  ghost function Ids(stack: seq<nat>): set<nat> {
    set id | id in stack
  }

  lemma TracksEnter(n: nat, stack: seq<nat>, locals: Locals, borrows: Borrows)
    requires Tracks(n, stack, locals, borrows)
    ensures Tracks(n + 1, stack + [n], locals[n := {}], borrows[n := []])
  {
    assert Ids(stack + [n]) == Ids(stack) + {n};
  }

  lemma FramesEnter(n: nat, stack: seq<nat>, locals: Locals, borrows: Borrows)
    requires Tracks(n, stack, locals, borrows)
    ensures FramesOf(stack + [n], locals[n := {}], borrows[n := []])
         == FramesOf(stack, locals, borrows) + [Frame(n, {}, [])]
  {
  }

  lemma TracksExit(n: nat, stack: seq<nat>, locals: Locals, borrows: Borrows)
    requires Tracks(n, stack, locals, borrows) && stack != []
    ensures var (rest, id) := (stack[..|stack| - 1], stack[|stack| - 1]);
            Tracks(n, rest, locals - {id}, borrows - {id})
  {
    IdsSplit(stack);
  }

  lemma IdsSplit(stack: seq<nat>)
    requires Distinct(stack) && stack != []
    ensures var (rest, id) := (stack[..|stack| - 1], stack[|stack| - 1]);
            Ids(rest) == Ids(stack) - {id} && Distinct(rest)
  {
    assert stack == stack[..|stack| - 1] + [stack[|stack| - 1]];
  }

  lemma FramesExit(n: nat, stack: seq<nat>, locals: Locals, borrows: Borrows)
    requires Tracks(n, stack, locals, borrows) && stack != []
    ensures var (rest, id) := (stack[..|stack| - 1], stack[|stack| - 1]);
            FramesOf(rest, locals - {id}, borrows - {id}) == FramesOf(stack, locals, borrows)[..|stack| - 1]
  {
  }

  lemma TracksUpdate(n: nat, stack: seq<nat>, locals: Locals, borrows: Borrows, names: set<string>, loans: seq<LiveBorrow>)
    requires Tracks(n, stack, locals, borrows) && stack != []
    ensures var id := stack[|stack| - 1];
            id in locals && id in borrows && Tracks(n, stack, locals[id := names], borrows[id := loans])
  {
    var id := stack[|stack| - 1];
    assert id in Ids(stack);
    assert locals[id := names].Keys == locals.Keys && borrows[id := loans].Keys == borrows.Keys;
  }

  lemma FramesUpdate(n: nat, stack: seq<nat>, locals: Locals, borrows: Borrows, names: set<string>, loans: seq<LiveBorrow>)
    requires Tracks(n, stack, locals, borrows) && stack != []
    ensures var (last, id) := (|stack| - 1, stack[|stack| - 1]);
            FramesOf(stack, locals[id := names], borrows[id := loans])
            == FramesOf(stack, locals, borrows)[..last] + [Frame(id, names, loans)]
  {
  }

  class RegionMap {
    var nextId: nat
    var stack: seq<nat>
    var locals: Locals
    var borrows: Borrows

    ghost predicate Valid()
      reads this
    {
      Tracks(nextId, stack, locals, borrows)
    }

    ghost function View(): Stack
      reads this
    {
      Stack(nextId, FramesOf(stack, locals, borrows))
    }

    constructor ()
      ensures Valid() && View() == Stack(0, [])
    {
      nextId, stack, locals, borrows := 0, [], map[], map[];
    }

    method Enter() returns (id: nat)
      requires Valid()
      modifies this
      ensures Valid() && View() == Entered(old(View())) && id == old(nextId)
    {
      TracksEnter(nextId, stack, locals, borrows);
      FramesEnter(nextId, stack, locals, borrows);
      id := nextId;
      nextId := nextId + 1;
      stack := stack + [id];
      locals := locals[id := {}];
      borrows := borrows[id := []];
    }

    method Exit()
      requires Valid()
      modifies this
      ensures Valid() && View() == Exited(old(View()))
    {
      if stack == [] {
        return;
      }
      var rest, id := stack[..|stack| - 1], stack[|stack| - 1];
      TracksExit(nextId, stack, locals, borrows);
      FramesExit(nextId, stack, locals, borrows);
      assert Exited(View()) == Stack(nextId, FramesOf(rest, locals - {id}, borrows - {id}));
      stack, locals, borrows := rest, locals - {id}, borrows - {id};
    }

    method DeclareLocal(name: string)
      requires Valid()
      modifies this`locals
      ensures Valid() && View() == Declared(old(View()), name)
    {
      if stack == [] {
        return;
      }
      var region := stack[|stack| - 1];
      ghost var f := FrameOf(region, locals, borrows);
      TracksUpdate(nextId, stack, locals, borrows, f.locals + {name}, f.borrows);
      FramesUpdate(nextId, stack, locals, borrows, f.locals + {name}, f.borrows);
      locals := locals[region := locals[region] + {name}];
      assert borrows[region := borrows[region]] == borrows;
    }

    method AddBorrow(target: string, mode: Mode) returns (at: Option<nat>)
      requires Valid()
      modifies this`borrows
      ensures Valid() && View() == Borrowed(old(View()), target, mode)
      ensures at == if stack == [] then None else Some(stack[|stack| - 1])
    {
      if stack == [] {
        return None;
      }
      var region := stack[|stack| - 1];
      ghost var f := FrameOf(region, locals, borrows);
      TracksUpdate(nextId, stack, locals, borrows, f.locals, f.borrows + [LiveBorrow(target, mode, region)]);
      FramesUpdate(nextId, stack, locals, borrows, f.locals, f.borrows + [LiveBorrow(target, mode, region)]);
      assert locals[region := locals[region]] == locals;
      borrows := borrows[region := borrows[region] + [LiveBorrow(target, mode, region)]];
      return Some(region);
    }

    method Holds(name: string) returns (found: bool)
      requires Valid()
      ensures found <==> IsLocal(View().frames, name)
    {
      for i := 0 to |stack|
        invariant forall j | 0 <= j < i :: name !in View().frames[j].locals
      {
        assert stack[i] in Ids(stack);
        if name in locals[stack[i]] {
          assert name in View().frames[i].locals;
          return true;
        }
      }
      return false;
    }

    method LiveBorrows() returns (out: seq<LiveBorrow>)
      requires Valid()
      ensures out == Live(View().frames)
    {
      out := [];
      for i := 0 to |stack|
        invariant out == Live(View().frames[..i])
      {
        assert stack[i] in Ids(stack);
        assert View().frames[..i + 1][..i] == View().frames[..i];
        out := out + borrows[stack[i]];
      }
      assert View().frames[..|stack|] == View().frames;
    }

    method LoansOf(name: string) returns (out: seq<LiveBorrow>)
      requires Valid()
      ensures out == BorrowsOf(Live(View().frames), name)
    {
      var live := LiveBorrows();
      out := [];
      for i := 0 to |live|
        invariant out == BorrowsOf(live[..i], name)
      {
        assert live[..i + 1][..i] == live[..i];
        if live[i].target == name {
          out := out + [live[i]];
        }
      }
      assert live[..|live|] == live;
    }
  }
}

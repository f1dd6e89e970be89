/** The events of the walk, child by child: the same form for every kind of expression. */
module BorrowSteps {
  import opened Wrappers
  import opened Ast
  import opened Regions
  import opened BorrowWalk
  import opened BorrowLaws
  import opened BorrowPlaces

  /** The borrow an expression itself takes. */
  function Own(e: Expr, tail: bool): seq<Event> {
    if e.Call? && DetectBorrow(e.callee, e.args).Some?
    then var (mode, target) := DetectBorrow(e.callee, e.args).value; [Take(target, mode, tail)]
    else []
  }

  function ChildEvents(e: Expr, i: nat, tail: bool): seq<Event> {
    if Child(e, i).Some? then Events(Child(e, i).value, Hands(e, i, tail)) else []
  }

  function Declaration(e: Expr, i: nat): seq<Event> {
    if e.Block? && i < |e.stmts| && e.stmts[i].Let? then [Declare(e.stmts[i].name)] else []
  }

  /** The events of the first `n` children. */
  function Steps(e: Expr, tail: bool, n: nat): seq<Event> {
    if n == 0 then [] else Steps(e, tail, n - 1) + (ChildEvents(e, n - 1, tail) + Declaration(e, n - 1))
  }

  lemma {:induction false} ListSteps(e: Expr, tail: bool, n: nat)
    requires e.Construct? || e.Tuple?
    requires n <= |if e.Construct? then e.args else e.items|
    ensures var es := if e.Construct? then e.args else e.items; Steps(e, tail, n) == ListEvents(es[..n], false)
    decreases n
  {
    if n > 0 {
      var es := if e.Construct? then e.args else e.items;
      ListSteps(e, tail, n - 1);
      assert es[..n][..n - 1] == es[..n - 1];
    }
  }

  lemma {:induction false} CallSteps(e: Expr, tail: bool, n: nat)
    requires e.Call? && n <= |e.args|
    ensures Steps(e, tail, n + 1) == Events(e.callee, false) + ListEvents(e.args[..n], false)
    decreases n
  {
    if n > 0 {
      CallSteps(e, tail, n - 1);
      assert e.args[..n][..n - 1] == e.args[..n - 1];
      Associative(Events(e.callee, false), ListEvents(e.args[..n - 1], false), Events(e.args[n - 1], false));
    } else {
      assert Steps(e, tail, 0) == [];
    }
  }

  lemma {:induction false} ListFirst(es: seq<Expr>)
    requires es != []
    ensures ListEvents(es, false) == Events(es[0], false) + ListEvents(es[1..], false)
    decreases |es|
  {
    if |es| == 1 {
      assert es[..0] == [] && es[1..] == [];
    } else {
      var n := |es| - 1;
      ListFirst(es[..n]);
      assert es[..n][1..] == es[1..][..n - 1];
      Associative(Events(es[0], false), ListEvents(es[1..][..n - 1], false), Events(es[n], false));
    }
  }

  lemma {:induction false} ArmSteps(e: Expr, tail: bool, n: nat)
    requires e.Match? && n <= |e.arms|
    ensures Steps(e, tail, n + 1) == Events(e.scrutinee, false) + ArmEvents(e.arms[..n], tail)
    decreases n
  {
    if n > 0 {
      ArmSteps(e, tail, n - 1);
      assert e.arms[..n][..n - 1] == e.arms[..n - 1];
      assert ArmEvent(e.arms[n - 1], tail) == Events(e.arms[n - 1].body, tail);
      Associative(Events(e.scrutinee, false), ArmEvents(e.arms[..n - 1], tail), Events(e.arms[n - 1].body, tail));
    } else {
      assert Steps(e, tail, 0) == [];
    }
  }

  lemma {:induction false} StmtSteps(e: Expr, tail: bool, n: nat)
    requires e.Block? && n <= |e.stmts|
    ensures Steps(e, tail, n) == StmtEvents(e.stmts[..n])
    decreases n
  {
    if n > 0 {
      StmtSteps(e, tail, n - 1);
      OneStmt(e, tail, n - 1);
      NextStep(e, tail, n - 1);
      StmtsSnoc(e.stmts, n - 1);
    }
  }

  lemma StmtsSnoc(stmts: seq<Stmt>, n: nat)
    requires n < |stmts|
    ensures StmtEvents(stmts[..n + 1]) == StmtEvents(stmts[..n]) + StmtEvent(stmts[n])
  {
    assert stmts[..n + 1][..n] == stmts[..n];
  }

  lemma OneStmt(e: Expr, tail: bool, i: nat)
    requires e.Block? && i < |e.stmts|
    ensures ChildEvents(e, i, tail) + Declaration(e, i) == StmtEvent(e.stmts[i])
  {
    match e.stmts[i]
    case Let(_, _, _) =>
    case Do(_) =>
    case ReturnStmt(value) =>
  }

  lemma {:induction false} FieldSteps(e: Expr, tail: bool, n: nat)
    requires e.Record? && n <= |e.fields|
    ensures Steps(e, tail, n) == FieldEvents(e.fields[..n])
    decreases n
  {
    if n > 0 {
      FieldSteps(e, tail, n - 1);
      assert e.fields[..n][..n - 1] == e.fields[..n - 1];
    }
  }

  lemma {:induction false} PartSteps(e: Expr, tail: bool, n: nat)
    requires e.InterpString? && n <= |e.parts|
    ensures Steps(e, tail, n) == PartEvents(e.parts[..n])
    decreases n
  {
    if n > 0 {
      PartSteps(e, tail, n - 1);
      assert e.parts[..n][..n - 1] == e.parts[..n - 1];
      assert PartEvent(e.parts[n - 1]) == ChildEvents(e, n - 1, tail);
    }
  }

  function TailEvents(e: Expr): seq<Event>
    requires e.Block?
  {
    if e.tail.Some? then Events(e.tail.value, true) else []
  }

  lemma BlockInPieces(e: Expr, tail: bool)
    requires e.Block?
    ensures Events(e, tail) == [Enter] + StmtEvents(e.stmts) + TailEvents(e) + [Exit]
  {
  }

  lemma LastStep(e: Expr, tail: bool)
    requires e.Block?
    ensures ChildEvents(e, |e.stmts|, tail) + Declaration(e, |e.stmts|) == TailEvents(e)
  {
  }

  lemma BlockSteps(e: Expr, tail: bool)
    requires e.Block?
    ensures Steps(e, tail, Arity(e)) == StmtEvents(e.stmts) + TailEvents(e)
  {
    var n := |e.stmts|;
    StmtSteps(e, tail, n);
    assert e.stmts[..n] == e.stmts;
    LastStep(e, tail);
    NextStep(e, tail, n);
  }

  lemma NextStep(e: Expr, tail: bool, n: nat)
    ensures Steps(e, tail, n + 1) == Steps(e, tail, n) + (ChildEvents(e, n, tail) + Declaration(e, n))
  {
  }

  lemma BlockEvents(e: Expr, tail: bool)
    requires e.Block?
    ensures Events(e, tail) == [Enter] + Steps(e, tail, Arity(e)) + [Exit]
  {
    BlockSteps(e, tail);
    BlockInPieces(e, tail);
    Regroup(StmtEvents(e.stmts), TailEvents(e));
  }

  lemma LambdaEvents(e: Expr, tail: bool)
    requires e.Lambda?
    ensures Events(e, tail) == [Enter] + Steps(e, tail, Arity(e)) + [Exit]
  {
    assert Steps(e, tail, 0) == [];
    NextStep(e, tail, 0);
    assert ChildEvents(e, 0, tail) == Events(e.body, false);
  }

  /** A borrow's callee and target are plain names, which do nothing. */
  lemma LoanSteps(e: Expr)
    requires e.Call? && DetectBorrow(e.callee, e.args).Some?
    ensures Events(e.callee, false) + ListEvents(e.args, false) == ListEvents(e.args[1..], false)
  {
    ListFirst(e.args);
    assert Events(e.callee, false) == [] && Events(e.args[0], false) == [];
  }

  lemma CallEvents(e: Expr, tail: bool)
    requires e.Call?
    ensures Events(e, tail) == Own(e, tail) + Steps(e, tail, Arity(e))
  {
    var n := |e.args|;
    CallSteps(e, tail, n);
    assert e.args[..n] == e.args;
    if DetectBorrow(e.callee, e.args).Some? {
      LoanSteps(e);
    }
  }

  lemma IfEvents(e: Expr, tail: bool)
    requires e.If?
    ensures Events(e, tail) == Steps(e, tail, 3)
  {
    assert Steps(e, tail, 0) == [];
    assert Steps(e, tail, 1) == Events(e.cond, false);
    assert Steps(e, tail, 2) == Events(e.cond, false) + Events(e.thenBranch, tail);
  }

  lemma BinaryEvents(e: Expr, tail: bool)
    requires e.Binary?
    ensures Events(e, tail) == Steps(e, tail, 2)
  {
    assert Steps(e, tail, 0) == [];
    assert Steps(e, tail, 1) == Events(e.lhs, false);
  }

  /** At most one child. */
  lemma OneChildEvents(e: Expr, tail: bool)
    requires e.Field? || e.Return? || e.Try? || e.Unary?
    ensures Events(e, tail) == Steps(e, tail, Arity(e))
  {
    assert Steps(e, tail, 0) == [];
    if Child(e, 0).Some? {
      NextStep(e, tail, 0);
      assert ChildEvents(e, 0, tail) == Events(Child(e, 0).value, Hands(e, 0, tail));
    }
  }

  lemma ListEventsBySteps(e: Expr, tail: bool)
    requires e.Construct? || e.Tuple?
    ensures Events(e, tail) == Steps(e, tail, Arity(e))
  {
    var es := if e.Construct? then e.args else e.items;
    ListSteps(e, tail, |es|);
    assert es[..|es|] == es;
  }

  lemma RecordEvents(e: Expr, tail: bool)
    requires e.Record?
    ensures Events(e, tail) == Steps(e, tail, Arity(e))
  {
    FieldSteps(e, tail, |e.fields|);
    assert e.fields[..|e.fields|] == e.fields;
  }

  lemma InterpEvents(e: Expr, tail: bool)
    requires e.InterpString?
    ensures Events(e, tail) == Steps(e, tail, Arity(e))
  {
    PartSteps(e, tail, |e.parts|);
    assert e.parts[..|e.parts|] == e.parts;
  }

  lemma MatchEvents(e: Expr, tail: bool)
    requires e.Match?
    ensures Events(e, tail) == Steps(e, tail, Arity(e))
  {
    ArmSteps(e, tail, |e.arms|);
    assert e.arms[..|e.arms|] == e.arms;
  }

  lemma LeafEvents(e: Expr, tail: bool)
    requires e.Lit? || e.Var? || e.RawStr? || e.Error?
    ensures Events(e, tail) == [] && Arity(e) == 0
  {
  }

  lemma PlainEvents(e: Expr, tail: bool)
    requires !Scoped(e) && !e.Call?
    ensures Events(e, tail) == Steps(e, tail, Arity(e))
  {
    if e.If? {
      IfEvents(e, tail);
    } else if e.Binary? {
      BinaryEvents(e, tail);
    } else if e.Field? || e.Return? || e.Try? || e.Unary? {
      OneChildEvents(e, tail);
    } else if e.Construct? || e.Tuple? {
      ListEventsBySteps(e, tail);
    } else if e.Record? {
      RecordEvents(e, tail);
    } else if e.InterpString? {
      InterpEvents(e, tail);
    } else if e.Match? {
      MatchEvents(e, tail);
    } else {
      LeafEvents(e, tail);
      assert Steps(e, tail, 0) == [];
    }
  }

  /** A block or lambda: a region around the events of its children in order. */
  lemma ScopedEvents(e: Expr, tail: bool)
    requires Scoped(e)
    ensures Events(e, tail) == [Enter] + Steps(e, tail, Arity(e)) + [Exit]
  {
    if e.Block? {
      BlockEvents(e, tail);
    } else {
      LambdaEvents(e, tail);
    }
  }

  /** Anything else: its own borrow, if it is one, then the events of its children in order. */
  lemma UnscopedEvents(e: Expr, tail: bool)
    requires !Scoped(e)
    ensures Events(e, tail) == Own(e, tail) + Steps(e, tail, Arity(e))
  {
    if e.Call? {
      CallEvents(e, tail);
    } else {
      PlainEvents(e, tail);
      NoOwn(e, tail, Steps(e, tail, Arity(e)));
    }
  }

  lemma NoOwn(e: Expr, tail: bool, steps: seq<Event>)
    requires !e.Call?
    ensures Own(e, tail) + steps == steps
  {
  }
}

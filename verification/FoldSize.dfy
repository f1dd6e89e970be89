/** Folding never makes an expression larger, and makes it smaller whenever it changes it. */
module FoldSize {
  import opened Wrappers
  import opened Ast
  import opened ConstFold

  /** Nodes; the braces of a block count as well. */
  function Size(e: Expr): (n: nat)
    ensures n > 0
    decreases e
  {
    match e
    case Call(callee, args) => 1 + Size(callee) + SizeAll(args)
    case Field(base, _) => 1 + Size(base)
    case Block(stmts, tail) => 2 + SizeStmts(stmts) + SizeOption(tail)
    case If(cond, thenBranch, elseBranch) => 1 + Size(cond) + Size(thenBranch) + SizeOption(elseBranch)
    case Match(scrutinee, arms) => 1 + Size(scrutinee) + SizeArms(arms)
    case Return(value) => 1 + SizeOption(value)
    case Construct(_, args) => 1 + SizeAll(args)
    case Try(inner) => 1 + Size(inner)
    case Tuple(items) => 1 + SizeAll(items)
    case Record(fields) => 1 + SizeFields(fields)
    case Lambda(_, body) => 1 + Size(body)
    case Binary(_, lhs, rhs) => 1 + Size(lhs) + Size(rhs)
    case Unary(_, operand) => 1 + Size(operand)
    case _ => 1
  }

  function SizeOption(e: Option<Expr>): nat
    decreases e
  {
    if e.None? then 0 else Size(e.value)
  }

  function SizeAll(es: seq<Expr>): nat
    decreases es
  {
    if es == [] then 0 else Size(es[0]) + SizeAll(es[1..])
  }

  function SizeStmt(s: Stmt): nat
    decreases s
  {
    match s
    case Let(_, _, init) => 1 + Size(init)
    case Do(e) => 1 + Size(e)
    case ReturnStmt(value) => 1 + SizeOption(value)
  }

  function SizeStmts(stmts: seq<Stmt>): nat
    decreases stmts
  {
    if stmts == [] then 0 else SizeStmt(stmts[0]) + SizeStmts(stmts[1..])
  }

  function SizeArm(arm: Arm): nat
    decreases arm
  {
    1 + Size(arm.body)
  }

  function SizeArms(arms: seq<Arm>): nat
    decreases arms
  {
    if arms == [] then 0 else SizeArm(arms[0]) + SizeArms(arms[1..])
  }

  function SizeField(f: FieldInit): nat
    decreases f
  {
    Size(f.value)
  }

  function SizeFields(fields: seq<FieldInit>): nat
    decreases fields
  {
    if fields == [] then 0 else SizeField(fields[0]) + SizeFields(fields[1..])
  }

  lemma {:induction false} ChosenSmaller(arms: seq<Arm>, lit: Literal)
    requires Chosen(arms, lit).Some?
    ensures Size(Chosen(arms, lit).value) < SizeArms(arms)
    decreases |arms|
  {
    if !Takes(arms[0].pattern, lit) {
      ChosenSmaller(arms[1..], lit);
    }
  }

  lemma RewriteShrinks(e: Expr)
    ensures Rewrite(e) == e || Size(Rewrite(e)) < Size(e)
  {
    match e
    case Match(scrutinee, arms) =>
      if scrutinee.Lit? && Chosen(arms, scrutinee.lit).Some? {
        ChosenSmaller(arms, scrutinee.lit);
      }
    case Try(inner) =>
      if IsUnary(inner, "Ok") || IsUnary(inner, "Err") {
        var x := inner.args[0];
        assert inner.args == [x] && [x][1..] == [];
        assert SizeAll([x]) == Size(x) + SizeAll([]);
      }
    case _ =>
  }

  /** Folding shrinks what it changes. */
  lemma {:induction false} FoldShrinks(e: Expr)
    ensures Fold(e) == e || Size(Fold(e)) < Size(e)
    decreases e, 2
  {
    WalkShrinks(e);
    RewriteShrinks(Walk(e));
  }

  lemma {:induction false} WalkShrinks(e: Expr)
    ensures Walk(e) == e || Size(Walk(e)) < Size(e)
    decreases e, 1
  {
    if e.Block? || e.If? || e.Match? {
      WalkControlShrinks(e);
    } else if e.Call? || e.Construct? || e.Tuple? || e.Record? {
      WalkPartsShrinks(e);
    } else {
      WalkSimpleShrinks(e);
    }
  }

  lemma {:induction false} WalkControlShrinks(e: Expr)
    requires e.Block? || e.If? || e.Match?
    ensures Walk(e) == e || Size(Walk(e)) < Size(e)
    decreases e, 0
  {
    match e
    case Block(stmts, tail) => FoldStmtsShrinks(stmts); FoldOptionShrinks(tail);
    case If(cond, thenBranch, elseBranch) =>
      FoldShrinks(cond);
      FoldShrinks(thenBranch);
      FoldOptionShrinks(elseBranch);
    case Match(scrutinee, arms) => FoldShrinks(scrutinee); FoldArmsShrinks(arms);
  }

  lemma {:induction false} WalkPartsShrinks(e: Expr)
    requires e.Call? || e.Construct? || e.Tuple? || e.Record?
    ensures Walk(e) == e || Size(Walk(e)) < Size(e)
    decreases e, 0
  {
    match e
    case Call(callee, args) => FoldShrinks(callee); FoldAllShrinks(args);
    case Construct(_, args) => FoldAllShrinks(args);
    case Tuple(items) => FoldAllShrinks(items);
    case Record(fields) => FoldFieldsShrinks(fields);
  }

  lemma {:induction false} WalkSimpleShrinks(e: Expr)
    requires !e.Block? && !e.If? && !e.Match? && !e.Call? && !e.Construct? && !e.Tuple? && !e.Record?
    ensures Walk(e) == e || Size(Walk(e)) < Size(e)
    decreases e, 0
  {
    match e
    case Field(base, _) => FoldShrinks(base);
    case Return(value) => FoldOptionShrinks(value);
    case Try(inner) => FoldShrinks(inner);
    case Lambda(_, body) => FoldShrinks(body);
    case Binary(_, lhs, rhs) => FoldShrinks(lhs); FoldShrinks(rhs);
    case Unary(_, operand) => FoldShrinks(operand);
    case _ =>
  }

  lemma {:induction false} FoldOptionShrinks(e: Option<Expr>)
    ensures FoldOption(e) == e || SizeOption(FoldOption(e)) < SizeOption(e)
    decreases e
  {
    if e.Some? {
      FoldShrinks(e.value);
    }
  }

  lemma {:induction false} FoldAllShrinks(es: seq<Expr>)
    ensures FoldAll(es) == es || SizeAll(FoldAll(es)) < SizeAll(es)
    decreases es
  {
    if es != [] {
      FoldShrinks(es[0]);
      FoldAllShrinks(es[1..]);
      assert FoldAll(es)[1..] == FoldAll(es[1..]);
    }
  }

  lemma {:induction false} FoldStmtShrinks(s: Stmt)
    ensures FoldStmt(s) == s || SizeStmt(FoldStmt(s)) < SizeStmt(s)
    decreases s
  {
    match s
    case Let(_, _, init) => FoldShrinks(init);
    case Do(e) => FoldShrinks(e);
    case ReturnStmt(value) => FoldOptionShrinks(value);
  }

  lemma {:induction false} FoldStmtsShrinks(stmts: seq<Stmt>)
    ensures FoldStmts(stmts) == stmts || SizeStmts(FoldStmts(stmts)) < SizeStmts(stmts)
    decreases stmts
  {
    if stmts != [] {
      FoldStmtShrinks(stmts[0]);
      FoldStmtsShrinks(stmts[1..]);
      assert FoldStmts(stmts)[1..] == FoldStmts(stmts[1..]);
    }
  }

  lemma {:induction false} FoldArmShrinks(arm: Arm)
    ensures FoldArm(arm) == arm || SizeArm(FoldArm(arm)) < SizeArm(arm)
    decreases arm
  {
    FoldShrinks(arm.body);
  }

  lemma {:induction false} FoldArmsShrinks(arms: seq<Arm>)
    ensures FoldArms(arms) == arms || SizeArms(FoldArms(arms)) < SizeArms(arms)
    decreases arms
  {
    if arms != [] {
      FoldArmShrinks(arms[0]);
      FoldArmsShrinks(arms[1..]);
      assert FoldArms(arms)[1..] == FoldArms(arms[1..]);
    }
  }

  lemma {:induction false} FoldFieldShrinks(f: FieldInit)
    ensures FoldField(f) == f || SizeField(FoldField(f)) < SizeField(f)
    decreases f
  {
    FoldShrinks(f.value);
  }

  lemma {:induction false} FoldFieldsShrinks(fields: seq<FieldInit>)
    ensures FoldFields(fields) == fields || SizeFields(FoldFields(fields)) < SizeFields(fields)
    decreases fields
  {
    if fields != [] {
      FoldFieldShrinks(fields[0]);
      FoldFieldsShrinks(fields[1..]);
      assert FoldFields(fields)[1..] == FoldFields(fields[1..]);
    }
  }

  /** An expression that keeps its size is already in normal form, and only then. */
  lemma SameSizeIffNormal(e: Expr)
    ensures Size(Fold(e)) <= Size(e)
    ensures Size(Fold(e)) == Size(e) <==> Normal(e)
  {
    FoldShrinks(e);
    FoldNormal(e);
    if Normal(e) {
      NormalFixed(e);
    }
  }
}

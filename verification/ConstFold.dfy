/** The constant folder: a bottom-up rewriter, its normal forms, and why it is idempotent. */
module ConstFold {
  import opened Wrappers
  import opened Ast

  // ---------------------------------------------------------------------
  // The folder
  // ---------------------------------------------------------------------

  function Fold(e: Expr): Expr
    decreases e, 1
  {
    Rewrite(Walk(e))
  }

  /** Fold every child. */
  function Walk(e: Expr): Expr
    decreases e, 0
  {
    match e
    case Call(callee, args) => Call(Fold(callee), FoldAll(args))
    case Field(base, name) => Field(Fold(base), name)
    case Block(stmts, tail) => Block(FoldStmts(stmts), FoldOption(tail))
    case If(cond, thenBranch, elseBranch) => If(Fold(cond), Fold(thenBranch), FoldOption(elseBranch))
    case Match(scrutinee, arms) => Match(Fold(scrutinee), FoldArms(arms))
    case Return(value) => Return(FoldOption(value))
    case Construct(variant, args) => Construct(variant, FoldAll(args))
    case Try(inner) => Try(Fold(inner))
    case Tuple(items) => Tuple(FoldAll(items))
    case Record(fields) => Record(FoldFields(fields))
    case Lambda(params, body) => Lambda(params, Fold(body))
    case Binary(op, lhs, rhs) => Binary(op, Fold(lhs), Fold(rhs))
    case Unary(op, operand) => Unary(op, Fold(operand))
    case _ => e
  }

  function FoldOption(e: Option<Expr>): Option<Expr>
    decreases e
  {
    if e.None? then None else Some(Fold(e.value))
  }

  function FoldAll(es: seq<Expr>): (r: seq<Expr>)
    ensures |r| == |es|
    decreases es
  {
    if es == [] then [] else [Fold(es[0])] + FoldAll(es[1..])
  }

  function FoldStmt(s: Stmt): Stmt
    decreases s
  {
    match s
    case Let(name, ty, init) => Let(name, ty, Fold(init))
    case Do(e) => Do(Fold(e))
    case ReturnStmt(value) => ReturnStmt(FoldOption(value))
  }

  function FoldStmts(stmts: seq<Stmt>): (r: seq<Stmt>)
    ensures |r| == |stmts|
    decreases stmts
  {
    if stmts == [] then [] else [FoldStmt(stmts[0])] + FoldStmts(stmts[1..])
  }

  function FoldArm(arm: Arm): Arm
    decreases arm
  {
    Arm(arm.pattern, Fold(arm.body))
  }

  function FoldArms(arms: seq<Arm>): (r: seq<Arm>)
    ensures |r| == |arms|
    decreases arms
  {
    if arms == [] then [] else [FoldArm(arms[0])] + FoldArms(arms[1..])
  }

  function FoldField(f: FieldInit): FieldInit
    decreases f
  {
    FieldInit(f.name, Fold(f.value))
  }

  function FoldFields(fields: seq<FieldInit>): (r: seq<FieldInit>)
    ensures |r| == |fields|
    decreases fields
  {
    if fields == [] then [] else [FoldField(fields[0])] + FoldFields(fields[1..])
  }

  /** The rules, applied once to a node whose children are folded. */
  function Rewrite(e: Expr): Expr {
    match e
    case If(cond, thenBranch, elseBranch) =>
      if cond == Lit(Bool(true)) then thenBranch
      else if cond == Lit(Bool(false)) then (if elseBranch.Some? then elseBranch.value else Lit(Unit))
      else e
    case Block(stmts, tail) =>
      if stmts != [] then e
      else if tail.None? then Lit(Unit)
      else if tail.value.Lit? then tail.value
      else e
    case Try(inner) =>
      if IsUnary(inner, "Ok") then inner.args[0]
      else if IsUnary(inner, "Err") then Construct("Err", [inner.args[0]])
      else e
    case Match(scrutinee, arms) =>
      if !scrutinee.Lit? then e
      else
        var chosen := Chosen(arms, scrutinee.lit);
        if chosen.Some? then chosen.value else e
    case _ => e
  }

  predicate IsUnary(e: Expr, variant: string) {
    e.Construct? && e.variant == variant && |e.args| == 1
  }

  /** Literals are compared by type and value; floats by their bits. A wildcard and a binding take
      anything. */
  predicate Takes(p: Pattern, lit: Literal) {
    match p
    case LitPattern(other) => other == lit
    case Constructor(_, _) => false
    case _ => true
  }

  /** The body of the first arm that takes the literal. */
  function Chosen(arms: seq<Arm>, lit: Literal): Option<Expr> {
    if arms == [] then None
    else if Takes(arms[0].pattern, lit) then Some(arms[0].body)
    else Chosen(arms[1..], lit)
  }

  // ---------------------------------------------------------------------
  // Normal forms
  // ---------------------------------------------------------------------

  /** No rule applies at this node. */
  predicate Stuck(e: Expr) {
    match e
    case If(cond, _, _) => !(cond.Lit? && cond.lit.Bool?)
    case Block(stmts, tail) => stmts != [] || (tail.Some? && !tail.value.Lit?)
    case Try(inner) => !IsUnary(inner, "Ok") && !IsUnary(inner, "Err")
    case Match(scrutinee, arms) => scrutinee.Lit? ==> forall i | 0 <= i < |arms| :: !Takes(arms[i].pattern, scrutinee.lit)
    case _ => true
  }

  /** No rule applies anywhere the folder looks. */
  predicate Normal(e: Expr)
    decreases e
  {
    && Stuck(e)
    && match e
       case Call(callee, args) => Normal(callee) && NormalAll(args)
       case Field(base, _) => Normal(base)
       case Block(stmts, tail) => NormalStmts(stmts) && NormalOption(tail)
       case If(cond, thenBranch, elseBranch) => Normal(cond) && Normal(thenBranch) && NormalOption(elseBranch)
       case Match(scrutinee, arms) => Normal(scrutinee) && NormalArms(arms)
       case Return(value) => NormalOption(value)
       case Construct(_, args) => NormalAll(args)
       case Try(inner) => Normal(inner)
       case Tuple(items) => NormalAll(items)
       case Record(fields) => NormalFields(fields)
       case Lambda(_, body) => Normal(body)
       case Binary(_, lhs, rhs) => Normal(lhs) && Normal(rhs)
       case Unary(_, operand) => Normal(operand)
       case _ => true
  }

  predicate NormalOption(e: Option<Expr>)
    decreases e
  {
    e.Some? ==> Normal(e.value)
  }

  predicate NormalAll(es: seq<Expr>)
    decreases es
  {
    es == [] || (Normal(es[0]) && NormalAll(es[1..]))
  }

  predicate NormalStmt(s: Stmt)
    decreases s
  {
    match s
    case Let(_, _, init) => Normal(init)
    case Do(e) => Normal(e)
    case ReturnStmt(value) => NormalOption(value)
  }

  predicate NormalStmts(stmts: seq<Stmt>)
    decreases stmts
  {
    stmts == [] || (NormalStmt(stmts[0]) && NormalStmts(stmts[1..]))
  }

  predicate NormalArm(arm: Arm)
    decreases arm
  {
    Normal(arm.body)
  }

  predicate NormalArms(arms: seq<Arm>)
    decreases arms
  {
    arms == [] || (NormalArm(arms[0]) && NormalArms(arms[1..]))
  }

  predicate NormalField(f: FieldInit)
    decreases f
  {
    Normal(f.value)
  }

  predicate NormalFields(fields: seq<FieldInit>)
    decreases fields
  {
    fields == [] || (NormalField(fields[0]) && NormalFields(fields[1..]))
  }

  lemma {:induction false} ChosenNone(arms: seq<Arm>, lit: Literal)
    ensures Chosen(arms, lit).None? <==> forall i | 0 <= i < |arms| :: !Takes(arms[i].pattern, lit)
    decreases |arms|
  {
    if arms != [] {
      ChosenNone(arms[1..], lit);
      assert forall i | 0 < i < |arms| :: arms[i] == arms[1..][i - 1];
    }
  }

  lemma {:induction false} ChosenNormal(arms: seq<Arm>, lit: Literal)
    requires NormalArms(arms) && Chosen(arms, lit).Some?
    ensures Normal(Chosen(arms, lit).value)
    decreases |arms|
  {
    if Takes(arms[0].pattern, lit) {
      assert NormalArm(arms[0]);
    } else {
      ChosenNormal(arms[1..], lit);
    }
  }

  /** One rewrite of a node with normal children gives a normal form. */
  lemma RewriteNormal(e: Expr)
    requires Stuck(e) ==> Normal(e)
    requires e.If? ==> Normal(e.cond) && Normal(e.thenBranch) && NormalOption(e.elseBranch)
    requires e.Try? ==> Normal(e.inner)
    requires e.Match? ==> NormalArms(e.arms)
    ensures Normal(Rewrite(e))
  {
    match e
    case Match(scrutinee, arms) =>
      if scrutinee.Lit? {
        ChosenNone(arms, scrutinee.lit);
        if Chosen(arms, scrutinee.lit).Some? {
          ChosenNormal(arms, scrutinee.lit);
        }
      }
    case Try(inner) =>
      if IsUnary(inner, "Ok") || IsUnary(inner, "Err") {
        assert inner.args == [inner.args[0]];
        assert NormalAll(inner.args);
      }
    case _ =>
  }

  /** A normal form is left as it is by the rules. */
  lemma StuckUnchanged(e: Expr)
    requires Stuck(e)
    ensures Rewrite(e) == e
  {
    if e.Match? && e.scrutinee.Lit? {
      ChosenNone(e.arms, e.scrutinee.lit);
    }
  }

  /** Folding establishes a normal form. */
  lemma {:induction false} FoldNormal(e: Expr)
    ensures Normal(Fold(e))
    decreases e, 2
  {
    WalkNormal(e);
    RewriteNormal(Walk(e));
  }

  /** After the walk, everything below the node is normal. */
  lemma {:induction false} WalkNormal(e: Expr)
    ensures var w := Walk(e);
            && (Stuck(w) ==> Normal(w))
            && (w.If? ==> Normal(w.cond) && Normal(w.thenBranch) && NormalOption(w.elseBranch))
            && (w.Try? ==> Normal(w.inner)) && (w.Match? ==> NormalArms(w.arms))
    decreases e, 1
  {
    match e
    case Block(stmts, tail) => FoldStmtsNormal(stmts); FoldOptionNormal(tail);
    case If(cond, thenBranch, elseBranch) =>
      FoldNormal(cond);
      FoldNormal(thenBranch);
      FoldOptionNormal(elseBranch);
    case Match(scrutinee, arms) => FoldNormal(scrutinee); FoldArmsNormal(arms);
    case Try(inner) => FoldNormal(inner);
    case _ => WalkSimpleNormal(e);
  }

  /** The forms that no rule rewrites. */
  predicate Simple(e: Expr) {
    !e.Block? && !e.If? && !e.Match? && !e.Try?
  }

  lemma {:induction false} WalkSimpleNormal(e: Expr)
    requires Simple(e)
    ensures Normal(Walk(e))
    decreases e, 0
  {
    match e
    case Call(callee, args) => FoldNormal(callee); FoldAllNormal(args);
    case Field(base, _) => FoldNormal(base);
    case Return(value) => FoldOptionNormal(value);
    case Construct(_, args) => FoldAllNormal(args);
    case Tuple(items) => FoldAllNormal(items);
    case Record(fields) => FoldFieldsNormal(fields);
    case Lambda(_, body) => FoldNormal(body);
    case Binary(_, lhs, rhs) => FoldNormal(lhs); FoldNormal(rhs);
    case Unary(_, operand) => FoldNormal(operand);
    case _ =>
  }

  lemma {:induction false} FoldOptionNormal(e: Option<Expr>)
    ensures NormalOption(FoldOption(e))
    decreases e
  {
    if e.Some? {
      FoldNormal(e.value);
    }
  }

  lemma {:induction false} FoldAllNormal(es: seq<Expr>)
    ensures NormalAll(FoldAll(es))
    decreases es
  {
    if es != [] {
      FoldNormal(es[0]);
      FoldAllNormal(es[1..]);
      assert FoldAll(es)[1..] == FoldAll(es[1..]);
    }
  }

  lemma {:induction false} FoldStmtNormal(s: Stmt)
    ensures NormalStmt(FoldStmt(s))
    decreases s
  {
    match s
    case Let(_, _, init) => FoldNormal(init);
    case Do(e) => FoldNormal(e);
    case ReturnStmt(value) => FoldOptionNormal(value);
  }

  lemma {:induction false} FoldStmtsNormal(stmts: seq<Stmt>)
    ensures NormalStmts(FoldStmts(stmts))
    decreases stmts
  {
    if stmts != [] {
      FoldStmtNormal(stmts[0]);
      FoldStmtsNormal(stmts[1..]);
      assert FoldStmts(stmts)[1..] == FoldStmts(stmts[1..]);
    }
  }

  lemma {:induction false} FoldArmNormal(arm: Arm)
    ensures NormalArm(FoldArm(arm))
    decreases arm
  {
    FoldNormal(arm.body);
  }

  lemma {:induction false} FoldArmsNormal(arms: seq<Arm>)
    ensures NormalArms(FoldArms(arms))
    decreases arms
  {
    if arms != [] {
      FoldArmNormal(arms[0]);
      FoldArmsNormal(arms[1..]);
      assert FoldArms(arms)[1..] == FoldArms(arms[1..]);
    }
  }

  lemma {:induction false} FoldFieldNormal(f: FieldInit)
    ensures NormalField(FoldField(f))
    decreases f
  {
    FoldNormal(f.value);
  }

  lemma {:induction false} FoldFieldsNormal(fields: seq<FieldInit>)
    ensures NormalFields(FoldFields(fields))
    decreases fields
  {
    if fields != [] {
      FoldFieldNormal(fields[0]);
      FoldFieldsNormal(fields[1..]);
      assert FoldFields(fields)[1..] == FoldFields(fields[1..]);
    }
  }

  /** Folding leaves a normal form alone. */
  lemma {:induction false} NormalFixed(e: Expr)
    requires Normal(e)
    ensures Fold(e) == e
    decreases e, 1
  {
    NormalWalk(e);
    StuckUnchanged(e);
  }

  lemma {:induction false} NormalWalk(e: Expr)
    requires Normal(e)
    ensures Walk(e) == e
    decreases e, 0
  {
    match e
    case Call(callee, args) => NormalFixed(callee); NormalAllFixed(args);
    case Field(base, _) => NormalFixed(base);
    case Block(stmts, tail) => NormalStmtsFixed(stmts); NormalOptionFixed(tail);
    case If(cond, thenBranch, elseBranch) =>
      NormalFixed(cond);
      NormalFixed(thenBranch);
      NormalOptionFixed(elseBranch);
    case Match(scrutinee, arms) => NormalFixed(scrutinee); NormalArmsFixed(arms);
    case Return(value) => NormalOptionFixed(value);
    case Construct(_, args) => NormalAllFixed(args);
    case Try(inner) => NormalFixed(inner);
    case Tuple(items) => NormalAllFixed(items);
    case Record(fields) => NormalFieldsFixed(fields);
    case Lambda(_, body) => NormalFixed(body);
    case Binary(_, lhs, rhs) => NormalFixed(lhs); NormalFixed(rhs);
    case Unary(_, operand) => NormalFixed(operand);
    case _ =>
  }

  lemma {:induction false} NormalOptionFixed(e: Option<Expr>)
    requires NormalOption(e)
    ensures FoldOption(e) == e
    decreases e
  {
    if e.Some? {
      NormalFixed(e.value);
    }
  }

  lemma {:induction false} NormalAllFixed(es: seq<Expr>)
    requires NormalAll(es)
    ensures FoldAll(es) == es
    decreases es
  {
    if es != [] {
      NormalFixed(es[0]);
      NormalAllFixed(es[1..]);
    }
  }

  lemma {:induction false} NormalStmtFixed(s: Stmt)
    requires NormalStmt(s)
    ensures FoldStmt(s) == s
    decreases s
  {
    match s
    case Let(_, _, init) => NormalFixed(init);
    case Do(e) => NormalFixed(e);
    case ReturnStmt(value) => NormalOptionFixed(value);
  }

  lemma {:induction false} NormalStmtsFixed(stmts: seq<Stmt>)
    requires NormalStmts(stmts)
    ensures FoldStmts(stmts) == stmts
    decreases stmts
  {
    if stmts != [] {
      NormalStmtFixed(stmts[0]);
      NormalStmtsFixed(stmts[1..]);
    }
  }

  lemma {:induction false} NormalArmFixed(arm: Arm)
    requires NormalArm(arm)
    ensures FoldArm(arm) == arm
    decreases arm
  {
    NormalFixed(arm.body);
  }

  lemma {:induction false} NormalArmsFixed(arms: seq<Arm>)
    requires NormalArms(arms)
    ensures FoldArms(arms) == arms
    decreases arms
  {
    if arms != [] {
      NormalArmFixed(arms[0]);
      NormalArmsFixed(arms[1..]);
    }
  }

  lemma {:induction false} NormalFieldFixed(f: FieldInit)
    requires NormalField(f)
    ensures FoldField(f) == f
    decreases f
  {
    NormalFixed(f.value);
  }

  lemma {:induction false} NormalFieldsFixed(fields: seq<FieldInit>)
    requires NormalFields(fields)
    ensures FoldFields(fields) == fields
    decreases fields
  {
    if fields != [] {
      NormalFieldFixed(fields[0]);
      NormalFieldsFixed(fields[1..]);
    }
  }

  /** Folding twice is folding once. */
  lemma Idempotent(e: Expr)
    ensures Fold(Fold(e)) == Fold(e)
  {
    FoldNormal(e);
    NormalFixed(Fold(e));
  }

  /** The normal forms are exactly the results of folding. */
  lemma NormalIffFolded(e: Expr)
    ensures Normal(e) <==> exists x :: Fold(x) == e
  {
    if Normal(e) {
      NormalFixed(e);
    } else if x :| Fold(x) == e {
      FoldNormal(x);
    }
  }
}

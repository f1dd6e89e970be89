/** Folding a whole program preserves what it computes, on every program whose bodies are `Safe`; and
    each condition of `Safe` is needed. */
module FoldMeaning {
  import opened Wrappers
  import opened Ast
  import opened ConstFold
  import opened Interp
  import opened EvalEnv

  // ---------------------------------------------------------------------
  // When folding is safe
  // ---------------------------------------------------------------------

  /** A callee the interpreter accepts. */
  predicate Callable(e: Expr) {
    e.Var? || IsBuiltin(e)
  }

  /** The folder's choice of arm is the interpreter's, binds no name that its body looks up, and keeps its
      own names to itself unless nothing is evaluated after it. */
  predicate SafeChoice(arms: seq<Arm>, lit: Literal, tail: bool)
    decreases |arms|
  {
    arms != [] &&
    if Takes(arms[0].pattern, lit)
    then
      && PatternMatch(arms[0].pattern, LiteralValue(lit)).Some?
      && (arms[0].pattern.Binding? ==> !Mentions(arms[0].body, arms[0].pattern.name))
      && (tail || !Leaks(arms[0].body))
    else PatternMatch(arms[0].pattern, LiteralValue(lit)).None? && SafeChoice(arms[1..], lit, tail)
  }

  predicate SafeMatch(scrutinee: Expr, arms: seq<Arm>, tail: bool) {
    scrutinee.Lit? && Chosen(arms, scrutinee.lit).Some? ==> SafeChoice(arms, scrutinee.lit, tail)
  }

  /** Folding `e` keeps its meaning; `tail` says that its value is the function's result. Nothing is
      asked of parts that are never evaluated. */
  predicate Safe(e: Expr, tail: bool)
    decreases e
  {
    match e
    case Call(callee, args) => if Callable(callee) then SafeAll(args) else !Callable(Fold(callee))
    case Field(base, _) => Safe(base, false)
    case Block(stmts, last) => SafeStmts(stmts) && SafeOption(last, tail)
    case If(cond, thenBranch, elseBranch) =>
      Safe(cond, false) && Safe(thenBranch, tail) && SafeOption(elseBranch, tail)
    case Match(scrutinee, arms) =>
      Safe(scrutinee, false) && SafeArms(arms, tail) && SafeMatch(Fold(scrutinee), FoldArms(arms), tail)
    case Return(value) => SafeOption(value, true)
    case Construct(_, args) => SafeAll(args)
    case Try(inner) => Safe(inner, false) && (IsUnary(Fold(inner), "Err") ==> tail)
    case Record(fields) => SafeFields(fields)
    case Lambda(_, body) => Fold(body) == body
    case _ => true
  }

  predicate SafeOption(e: Option<Expr>, tail: bool)
    decreases e
  {
    e.Some? ==> Safe(e.value, tail)
  }

  predicate SafeAll(es: seq<Expr>)
    decreases es
  {
    es != [] ==> Safe(es[0], false) && SafeAll(es[1..])
  }

  predicate SafeStmt(s: Stmt)
    decreases s
  {
    match s
    case Let(_, _, init) => Safe(init, false)
    case Do(e) => Safe(e, false)
    case ReturnStmt(value) => SafeOption(value, true)
  }

  predicate SafeStmts(stmts: seq<Stmt>)
    decreases stmts
  {
    stmts != [] ==> SafeStmt(stmts[0]) && SafeStmts(stmts[1..])
  }

  predicate SafeArm(arm: Arm, tail: bool)
    decreases arm
  {
    Safe(arm.body, tail)
  }

  predicate SafeArms(arms: seq<Arm>, tail: bool)
    decreases arms
  {
    arms != [] ==> SafeArm(arms[0], tail) && SafeArms(arms[1..], tail)
  }

  predicate SafeField(f: FieldInit)
    decreases f
  {
    Safe(f.value, false)
  }

  predicate SafeFields(fields: seq<FieldInit>)
    decreases fields
  {
    fields != [] ==> SafeField(fields[0]) && SafeFields(fields[1..])
  }

  // ---------------------------------------------------------------------
  // Programs and equivalence of results
  // ---------------------------------------------------------------------

  function FoldDef(def: FunctionDef): FunctionDef {
    def.(body := Fold(def.body))
  }

  function FoldProgram(p: Program): Program {
    p.(functions := map name | name in p.functions :: FoldDef(p.functions[name]))
  }

  predicate SafeProgram(p: Program) {
    forall name | name in p.functions :: Safe(p.functions[name].body, true)
  }

  /** Both give the calling function the same outcome and leave the same output. */
  predicate SameOutcome(r: Res, t: Res) {
    Outcome(r.flow) == Outcome(t.flow) && r.world == t.world
  }

  /** The same value, environment and output; or both leave the function, with the same outcome. */
  predicate Same(r: Res, t: Res) {
    r == t || (!r.flow.Val? && !t.flow.Val? && SameOutcome(r, t))
  }

  predicate Rel(tail: bool, r: Res, t: Res) {
    if tail then SameOutcome(r, t) else Same(r, t)
  }

  predicate SameArgs(r: Args, t: Args) {
    r == t || (r.exit.Some? && t.exit.Some? && !r.exit.value.Val? && !t.exit.value.Val?
               && Outcome(r.exit.value) == Outcome(t.exit.value) && r.world == t.world)
  }

  // ---------------------------------------------------------------------
  // Each rule, at one node
  // ---------------------------------------------------------------------

  /** What a rule asks of the node it rewrites. */
  predicate SafeNode(e: Expr, tail: bool) {
    match e
    case Match(scrutinee, arms) => SafeMatch(scrutinee, arms, tail)
    case Try(inner) => IsUnary(inner, "Err") ==> tail
    case _ => true
  }

  lemma {:induction false} MatchRule(p: Program, arms: seq<Arm>, lit: Literal, tail: bool, env: Env, w: World, frames: seq<string>)
    requires Chosen(arms, lit).Some? && SafeChoice(arms, lit, tail)
    ensures Rel(tail, EvalArms(p, arms, LiteralValue(lit), env, w, frames),
                Eval(p, Chosen(arms, lit).value, env, w, frames))
    decreases |arms|
  {
    if Takes(arms[0].pattern, lit) {
      ChosenArm(p, arms[0], LiteralValue(lit), env, w, frames);
      if !tail {
        NoLeak(p, arms[0].body, env, w, frames);
      }
    } else {
      MatchRule(p, arms[1..], lit, tail, env, w, frames);
    }
  }

  /** An arm whose binding is not looked up runs as its body does without it. */
  lemma ChosenArm(p: Program, arm: Arm, v: Value, env: Env, w: World, frames: seq<string>)
    requires PatternMatch(arm.pattern, v).Some? && (arm.pattern.Binding? ==> !Mentions(arm.body, arm.pattern.name))
    ensures var r, t := EvalArm(p, arm, PatternMatch(arm.pattern, v).value, env, w, frames), Eval(p, arm.body, env, w, frames);
            r.flow == t.flow && r.world == t.world
  {
    var bound := PatternMatch(arm.pattern, v).value;
    if arm.pattern.Binding? {
      Weaken(p, arm.body, arm.pattern.name, env + bound, env, w, frames);
    } else {
      assert env + bound == env;
    }
  }

  /** The first arm the folder takes is the first the interpreter takes, and binds nothing. */
  predicate FirstAgrees(arms: seq<Arm>, lit: Literal)
    decreases |arms|
  {
    arms != [] &&
    if Takes(arms[0].pattern, lit) then PatternMatch(arms[0].pattern, LiteralValue(lit)) == Some(map[])
    else PatternMatch(arms[0].pattern, LiteralValue(lit)).None? && FirstAgrees(arms[1..], lit)
  }

  /** Where it is not the function's result, such an arm may replace its match exactly when its body
      gives the environment back, or leaves the function. */
  lemma {:induction false} ChosenArmExactly(p: Program, arms: seq<Arm>, lit: Literal, env: Env, w: World, frames: seq<string>)
    requires Chosen(arms, lit).Some? && FirstAgrees(arms, lit)
    ensures var r := Eval(p, Chosen(arms, lit).value, env, w, frames);
            Same(EvalArms(p, arms, LiteralValue(lit), env, w, frames), r) <==> r.env == env || !r.flow.Val?
    decreases |arms|
  {
    if Takes(arms[0].pattern, lit) {
      assert env + map[] == env;
    } else {
      ChosenArmExactly(p, arms[1..], lit, env, w, frames);
    }
  }

  /** A folded lambda is the same value exactly when folding left its body alone. */
  lemma LambdaExactly(p: Program, params: seq<(string, Option<string>)>, body: Expr, env: Env, w: World, frames: seq<string>)
    ensures Same(Eval(p, Lambda(params, body), env, w, frames), Eval(p, Lambda(params, Fold(body)), env, w, frames))
       <==> Fold(body) == body
  {
  }

  /** `?` on a one-argument `Ok` gives its argument, on a one-argument `Err` leaves the function. */
  lemma TryRule(p: Program, inner: Expr, tail: bool, env: Env, w: World, frames: seq<string>)
    requires IsUnary(inner, "Ok") || (IsUnary(inner, "Err") && tail)
    ensures Rel(tail, Eval(p, Try(inner), env, w, frames), Eval(p, Rewrite(Try(inner)), env, w, frames))
  {
    var x := inner.args[0];
    assert inner.args == [x];
    var r := Eval(p, x, env, w, frames);
    OneArg(p, x, env, w, frames);
  }

  /** Where it is not the function's result, `?` on `Err(x)` may be dropped exactly when `x` never
      yields a value. */
  lemma TryErrExactly(p: Program, x: Expr, env: Env, w: World, frames: seq<string>)
    ensures Same(Eval(p, Try(Construct("Err", [x])), env, w, frames), Eval(p, Rewrite(Try(Construct("Err", [x]))), env, w, frames))
       <==> !Eval(p, x, env, w, frames).flow.Val?
  {
    var err := Construct("Err", [x]);
    ErrTryIsDropped(x);
    ErrArg(p, x, env, w, frames);
    TryOf(p, err, env, w, frames);
    PropagationIsSeen(Eval(p, x, env, w, frames), Eval(p, err, env, w, frames), Eval(p, Try(err), env, w, frames));
  }

  lemma ErrTryIsDropped(x: Expr)
    ensures Rewrite(Try(Construct("Err", [x]))) == Construct("Err", [x])
  {
  }

  /** `r` the argument's result, `t` that of the construction, `u` that of `?` on it. */
  lemma PropagationIsSeen(r: Res, t: Res, u: Res)
    requires t == if r.flow.Val? then r.(flow := Val(ErrV(r.flow.v))) else r
    requires u == if t.flow.Val? && t.flow.v.ErrV? then t.(flow := Prop(t.flow.v.v)) else t
    ensures Same(u, t) <==> !r.flow.Val?
  {
  }

  /** `Err(x)` wraps the value of `x`, or ends as `x` does. */
  lemma ErrArg(p: Program, x: Expr, env: Env, w: World, frames: seq<string>)
    ensures var r, t := Eval(p, x, env, w, frames), Eval(p, Construct("Err", [x]), env, w, frames);
            t == if r.flow.Val? then r.(flow := Val(ErrV(r.flow.v))) else r
  {
    OneArg(p, x, env, w, frames);
  }

  lemma TryOf(p: Program, inner: Expr, env: Env, w: World, frames: seq<string>)
    ensures var r, t := Eval(p, inner, env, w, frames), Eval(p, Try(inner), env, w, frames);
            && (!r.flow.Val? ==> t == r)
            && (r.flow.Val? && r.flow.v.ErrV? ==> t == r.(flow := Prop(r.flow.v.v)))
  {
  }

  /** The folder and the interpreter agree on whether a literal pattern takes a literal, except for a
      NaN against itself and for the two zeros against each other. */
  lemma LiteralsAgreeExactly(pattern: Literal, lit: Literal)
    ensures (Takes(LitPattern(pattern), lit) <==> PatternMatch(LitPattern(pattern), LiteralValue(lit)).Some?)
            <==> !(pattern.Float? && lit.Float?
                   && (if pattern.bits == lit.bits then pattern.bits % SIGN > INFINITY
                       else pattern.bits % SIGN == 0 && lit.bits % SIGN == 0))
  {
  }

  lemma OneArg(p: Program, x: Expr, env: Env, w: World, frames: seq<string>)
    ensures var (r, a) := (Eval(p, x, env, w, frames), EvalArgs(p, [x], env, w, frames));
            a == if r.flow.Val? then Args([r.flow.v], None, r.env, r.world) else Args([], Some(r.flow), r.env, r.world)
  {
    assert [x][1..] == [];
    var r := Eval(p, x, env, w, frames);
    assert EvalArgs(p, [], r.env, r.world, frames) == Args([], None, r.env, r.world);
  }

  lemma RewriteSound(p: Program, e: Expr, tail: bool, env: Env, w: World, frames: seq<string>)
    requires SafeNode(e, tail)
    ensures Rel(tail, Eval(p, e, env, w, frames), Eval(p, Rewrite(e), env, w, frames))
  {
    match e
    case If(cond, thenBranch, elseBranch) =>
      if cond.Lit? && cond.lit.Bool? {
        assert Eval(p, cond, env, w, frames) == Res(Val(BoolV(cond.lit.b)), env, w);
      }
    case Block(stmts, last) =>
      if stmts == [] {
        assert EvalStmts(p, stmts, env, w, frames) == Res(Val(UnitV), env, w);
      }
    case Match(scrutinee, arms) =>
      if scrutinee.Lit? && Chosen(arms, scrutinee.lit).Some? {
        assert Eval(p, scrutinee, env, w, frames) == Res(Val(LiteralValue(scrutinee.lit)), env, w);
        MatchRule(p, arms, scrutinee.lit, tail, env, w, frames);
      }
    case Try(inner) =>
      if IsUnary(inner, "Ok") || IsUnary(inner, "Err") {
        TryRule(p, inner, tail, env, w, frames);
      }
    case _ =>
  }

  // ---------------------------------------------------------------------
  // The walk, by congruence
  // ---------------------------------------------------------------------

  lemma {:induction false} FoldPreserves(p: Program, e: Expr, tail: bool, env: Env, w: World, frames: seq<string>)
    requires SafeProgram(p) && Safe(e, tail)
    ensures Rel(tail, Eval(p, e, env, w, frames), Eval(FoldProgram(p), Fold(e), env, w, frames))
    decreases Left(frames), 1, e, 2
  {
    WalkPreserves(p, e, tail, env, w, frames);
    WalkedSafe(e, tail);
    RewriteSound(FoldProgram(p), Walk(e), tail, env, w, frames);
  }

  lemma WalkedSafe(e: Expr, tail: bool)
    requires Safe(e, tail)
    ensures SafeNode(Walk(e), tail)
  {
  }

  lemma {:induction false} WalkPreserves(p: Program, e: Expr, tail: bool, env: Env, w: World, frames: seq<string>)
    requires SafeProgram(p) && Safe(e, tail)
    ensures Rel(tail, Eval(p, e, env, w, frames), Eval(FoldProgram(p), Walk(e), env, w, frames))
    decreases Left(frames), 1, e, 1
  {
    if e.Block? {
      BlockPreserves(p, e, tail, env, w, frames);
    } else if e.If? {
      IfPreserves(p, e, tail, env, w, frames);
    } else if e.Match? {
      MatchPreserves(p, e, tail, env, w, frames);
    } else if e.Call? {
      CallPreserves(p, e.callee, e.args, env, w, frames);
    } else if e.Construct? || e.Record? {
      PartsPreserve(p, e, tail, env, w, frames);
    } else if e.Field? || e.Return? || e.Try? {
      OperandPreserves(p, e, tail, env, w, frames);
    } else {
      LeafPreserves(p, e, tail, env, w, frames);
    }
  }

  lemma {:induction false} OperandPreserves(p: Program, e: Expr, tail: bool, env: Env, w: World, frames: seq<string>)
    requires (e.Field? || e.Return? || e.Try?) && SafeProgram(p) && Safe(e, tail)
    ensures Rel(tail, Eval(p, e, env, w, frames), Eval(FoldProgram(p), Walk(e), env, w, frames))
    decreases Left(frames), 1, e, 0
  {
    match e
    case Field(base, _) => FoldPreserves(p, base, false, env, w, frames);
    case Return(value) => OptionPreserves(p, value, true, env, w, frames);
    case Try(inner) => FoldPreserves(p, inner, false, env, w, frames);
  }

  /** Literals, names, lambdas, and the forms the interpreter does not run. */
  lemma LeafPreserves(p: Program, e: Expr, tail: bool, env: Env, w: World, frames: seq<string>)
    requires !e.Block? && !e.If? && !e.Match? && !e.Call? && !e.Construct? && !e.Record?
    requires !e.Field? && !e.Return? && !e.Try? && SafeProgram(p) && Safe(e, tail)
    ensures Rel(tail, Eval(p, e, env, w, frames), Eval(FoldProgram(p), Walk(e), env, w, frames))
  {
  }

  /** The forms that evaluate their parts in order and then act on the values. */
  lemma {:induction false} PartsPreserve(p: Program, e: Expr, tail: bool, env: Env, w: World, frames: seq<string>)
    requires (e.Construct? || e.Record?) && SafeProgram(p) && Safe(e, tail)
    ensures Rel(tail, Eval(p, e, env, w, frames), Eval(FoldProgram(p), Walk(e), env, w, frames))
    decreases Left(frames), 1, e, 0
  {
    match e
    case Construct(_, args) => ArgsPreserve(p, args, env, w, frames);
    case Record(fields) => FieldsPreserve(p, fields, map[], env, w, frames);
  }

  lemma {:induction false} BlockPreserves(p: Program, e: Expr, tail: bool, env: Env, w: World, frames: seq<string>)
    requires e.Block? && SafeProgram(p) && Safe(e, tail)
    ensures Rel(tail, Eval(p, e, env, w, frames), Eval(FoldProgram(p), Walk(e), env, w, frames))
    decreases Left(frames), 1, e, 0
  {
    StmtsPreserve(p, e.stmts, env, w, frames);
    var r := EvalStmts(p, e.stmts, env, w, frames);
    if r.flow.Val? {
      OptionPreserves(p, e.tail, tail, r.env, r.world, frames);
    }
  }

  lemma {:induction false} IfPreserves(p: Program, e: Expr, tail: bool, env: Env, w: World, frames: seq<string>)
    requires e.If? && SafeProgram(p) && Safe(e, tail)
    ensures Rel(tail, Eval(p, e, env, w, frames), Eval(FoldProgram(p), Walk(e), env, w, frames))
    decreases Left(frames), 1, e, 0
  {
    FoldPreserves(p, e.cond, false, env, w, frames);
    var c := Eval(p, e.cond, env, w, frames);
    if c.flow == Val(BoolV(true)) {
      FoldPreserves(p, e.thenBranch, tail, c.env, c.world, frames);
    } else if c.flow == Val(BoolV(false)) {
      OptionPreserves(p, e.elseBranch, tail, c.env, c.world, frames);
    }
  }

  lemma {:induction false} MatchPreserves(p: Program, e: Expr, tail: bool, env: Env, w: World, frames: seq<string>)
    requires e.Match? && SafeProgram(p) && Safe(e, tail)
    ensures Rel(tail, Eval(p, e, env, w, frames), Eval(FoldProgram(p), Walk(e), env, w, frames))
    decreases Left(frames), 1, e, 0
  {
    FoldPreserves(p, e.scrutinee, false, env, w, frames);
    var s := Eval(p, e.scrutinee, env, w, frames);
    if s.flow.Val? {
      ArmsPreserve(p, e.arms, tail, s.flow.v, s.env, s.world, frames);
    }
  }

  lemma {:induction false} OptionPreserves(p: Program, e: Option<Expr>, tail: bool, env: Env, w: World, frames: seq<string>)
    requires SafeProgram(p) && SafeOption(e, tail)
    ensures Rel(tail, EvalOption(p, e, env, w, frames), EvalOption(FoldProgram(p), FoldOption(e), env, w, frames))
    decreases Left(frames), 1, e
  {
    if e.Some? {
      FoldPreserves(p, e.value, tail, env, w, frames);
    }
  }

  lemma {:induction false} StmtPreserves(p: Program, s: Stmt, env: Env, w: World, frames: seq<string>)
    requires SafeProgram(p) && SafeStmt(s)
    ensures Same(EvalStmt(p, s, env, w, frames), EvalStmt(FoldProgram(p), FoldStmt(s), env, w, frames))
    decreases Left(frames), 1, s
  {
    match s
    case Let(_, _, init) => FoldPreserves(p, init, false, env, w, frames);
    case Do(e) => FoldPreserves(p, e, false, env, w, frames);
    case ReturnStmt(value) => OptionPreserves(p, value, true, env, w, frames);
  }

  lemma {:induction false} StmtsPreserve(p: Program, stmts: seq<Stmt>, env: Env, w: World, frames: seq<string>)
    requires SafeProgram(p) && SafeStmts(stmts)
    ensures Same(EvalStmts(p, stmts, env, w, frames), EvalStmts(FoldProgram(p), FoldStmts(stmts), env, w, frames))
    decreases Left(frames), 1, stmts
  {
    if stmts != [] {
      StmtPreserves(p, stmts[0], env, w, frames);
      var r := EvalStmt(p, stmts[0], env, w, frames);
      if r.flow.Val? {
        StmtsPreserve(p, stmts[1..], r.env, r.world, frames);
      }
      assert FoldStmts(stmts)[1..] == FoldStmts(stmts[1..]);
    }
  }

  lemma {:induction false} ArmPreserves(p: Program, arm: Arm, tail: bool, bound: Env, env: Env, w: World, frames: seq<string>)
    requires SafeProgram(p) && SafeArm(arm, tail)
    ensures Rel(tail, EvalArm(p, arm, bound, env, w, frames), EvalArm(FoldProgram(p), FoldArm(arm), bound, env, w, frames))
    decreases Left(frames), 1, arm
  {
    FoldPreserves(p, arm.body, tail, env + bound, w, frames);
  }

  lemma {:induction false} ArmsPreserve(p: Program, arms: seq<Arm>, tail: bool, v: Value, env: Env, w: World, frames: seq<string>)
    requires SafeProgram(p) && SafeArms(arms, tail)
    ensures Rel(tail, EvalArms(p, arms, v, env, w, frames), EvalArms(FoldProgram(p), FoldArms(arms), v, env, w, frames))
    decreases Left(frames), 1, arms
  {
    if arms != [] {
      var bound := PatternMatch(arms[0].pattern, v);
      assert FoldArms(arms)[0] == FoldArm(arms[0]) && FoldArms(arms)[1..] == FoldArms(arms[1..]);
      if bound.None? {
        ArmsPreserve(p, arms[1..], tail, v, env, w, frames);
      } else {
        ArmPreserves(p, arms[0], tail, bound.value, env, w, frames);
      }
    }
  }

  lemma {:induction false} ArgsPreserve(p: Program, args: seq<Expr>, env: Env, w: World, frames: seq<string>)
    requires SafeProgram(p) && SafeAll(args)
    ensures SameArgs(EvalArgs(p, args, env, w, frames), EvalArgs(FoldProgram(p), FoldAll(args), env, w, frames))
    decreases Left(frames), 1, args, 0
  {
    if args != [] {
      FoldPreserves(p, args[0], false, env, w, frames);
      var r := Eval(p, args[0], env, w, frames);
      if r.flow.Val? {
        ArgsPreserve(p, args[1..], r.env, r.world, frames);
      }
      assert FoldAll(args)[1..] == FoldAll(args[1..]);
    }
  }

  lemma {:induction false} FieldPreserves(p: Program, f: FieldInit, env: Env, w: World, frames: seq<string>)
    requires SafeProgram(p) && SafeField(f)
    ensures Same(EvalField(p, f, env, w, frames), EvalField(FoldProgram(p), FoldField(f), env, w, frames))
    decreases Left(frames), 1, f
  {
    FoldPreserves(p, f.value, false, env, w, frames);
  }

  lemma {:induction false} FieldsPreserve(p: Program, fields: seq<FieldInit>, done: map<string, Value>, env: Env, w: World, frames: seq<string>)
    requires SafeProgram(p) && SafeFields(fields)
    ensures Same(EvalFields(p, fields, done, env, w, frames),
                 EvalFields(FoldProgram(p), FoldFields(fields), done, env, w, frames))
    decreases Left(frames), 1, fields
  {
    if fields != [] {
      FieldPreserves(p, fields[0], env, w, frames);
      var r := EvalField(p, fields[0], env, w, frames);
      if r.flow.Val? {
        FieldsPreserve(p, fields[1..], done[fields[0].name := r.flow.v], r.env, r.world, frames);
      }
      assert FoldFields(fields)[1..] == FoldFields(fields[1..]);
    }
  }

  lemma CallableFixed(callee: Expr)
    requires Callable(callee)
    ensures Fold(callee) == callee
  {
    if callee.Field? {
      assert Fold(callee.base) == callee.base;
    }
  }

  lemma {:induction false} CallPreserves(p: Program, callee: Expr, args: seq<Expr>, env: Env, w: World, frames: seq<string>)
    requires SafeProgram(p) && (if Callable(callee) then SafeAll(args) else !Callable(Fold(callee)))
    ensures Same(EvalCall(p, callee, args, env, w, frames),
                 EvalCall(FoldProgram(p), Fold(callee), FoldAll(args), env, w, frames))
    decreases Left(frames), 1, args, 1
  {
    if Callable(callee) {
      CallableFixed(callee);
      ArgsPreserve(p, args, env, w, frames);
      var r := EvalArgs(p, args, env, w, frames);
      if callee.Var? && callee.name in p.functions && r.exit.None? {
        BodyPreserves(p, p.functions[callee.name], r.values, r.world, frames);
      }
    }
  }

  lemma {:induction false} BodyPreserves(p: Program, def: FunctionDef, args: seq<Value>, w: World, frames: seq<string>)
    requires SafeProgram(p) && Safe(def.body, true)
    ensures CallFunction(p, def, args, w, frames) == CallFunction(FoldProgram(p), FoldDef(def), args, w, frames)
    decreases Left(frames), 0
  {
    if |frames| < MAX_DEPTH && |def.params| == |args| {
      FoldPreserves(p, def.body, true, BindParams(def.params, args), w, frames + [def.name]);
    }
  }

  /** Folding every body of a safe program changes neither its result nor its output, whatever the
      entry and the arguments. */
  lemma ProgramPreserved(p: Program, entry: string, args: seq<Value>)
    requires SafeProgram(p)
    ensures Exec(FoldProgram(p), entry, args) == Exec(p, entry, args)
  {
    if entry in p.functions {
      BodyPreserves(p, p.functions[entry], args, [], []);
    }
  }

  // ---------------------------------------------------------------------
  // Folding stays in the safe fragment
  // ---------------------------------------------------------------------

  lemma {:induction false} NormalIsSafe(e: Expr, tail: bool)
    requires Normal(e)
    ensures Safe(e, tail)
    decreases e
  {
    match e
    case Call(callee, args) =>
      NormalFixed(callee);
      NormalAllSafe(args);
    case Field(base, _) => NormalIsSafe(base, false);
    case Block(stmts, last) =>
      NormalStmtsSafe(stmts);
      NormalOptionSafe(last, tail);
    case If(cond, thenBranch, elseBranch) =>
      NormalIsSafe(cond, false);
      NormalIsSafe(thenBranch, tail);
      NormalOptionSafe(elseBranch, tail);
    case Match(scrutinee, arms) =>
      NormalIsSafe(scrutinee, false);
      NormalArmsSafe(arms, tail);
      NormalMatchSafe(scrutinee, arms, tail);
    case Return(value) => NormalOptionSafe(value, true);
    case Construct(_, args) => NormalAllSafe(args);
    case Try(inner) =>
      NormalFixed(inner);
      NormalIsSafe(inner, false);
    case Record(fields) => NormalFieldsSafe(fields);
    case Lambda(_, body) => NormalFixed(body);
    case _ =>
  }

  lemma NormalMatchSafe(scrutinee: Expr, arms: seq<Arm>, tail: bool)
    requires Normal(Match(scrutinee, arms))
    ensures SafeMatch(Fold(scrutinee), FoldArms(arms), tail)
  {
    NormalFixed(scrutinee);
    NormalArmsFixed(arms);
    if scrutinee.Lit? {
      ChosenNone(arms, scrutinee.lit);
    }
  }

  lemma {:induction false} NormalOptionSafe(e: Option<Expr>, tail: bool)
    requires NormalOption(e)
    ensures SafeOption(e, tail)
    decreases e
  {
    if e.Some? {
      NormalIsSafe(e.value, tail);
    }
  }

  lemma {:induction false} NormalAllSafe(es: seq<Expr>)
    requires NormalAll(es)
    ensures SafeAll(es)
    decreases es
  {
    if es != [] {
      NormalIsSafe(es[0], false);
      NormalAllSafe(es[1..]);
    }
  }

  lemma {:induction false} NormalStmtSafe(s: Stmt)
    requires NormalStmt(s)
    ensures SafeStmt(s)
    decreases s
  {
    match s
    case Let(_, _, init) => NormalIsSafe(init, false);
    case Do(e) => NormalIsSafe(e, false);
    case ReturnStmt(value) => NormalOptionSafe(value, true);
  }

  lemma {:induction false} NormalStmtsSafe(stmts: seq<Stmt>)
    requires NormalStmts(stmts)
    ensures SafeStmts(stmts)
    decreases stmts
  {
    if stmts != [] {
      NormalStmtSafe(stmts[0]);
      NormalStmtsSafe(stmts[1..]);
    }
  }

  lemma {:induction false} NormalArmSafe(arm: Arm, tail: bool)
    requires NormalArm(arm)
    ensures SafeArm(arm, tail)
    decreases arm
  {
    NormalIsSafe(arm.body, tail);
  }

  lemma {:induction false} NormalArmsSafe(arms: seq<Arm>, tail: bool)
    requires NormalArms(arms)
    ensures SafeArms(arms, tail)
    decreases arms
  {
    if arms != [] {
      NormalArmSafe(arms[0], tail);
      NormalArmsSafe(arms[1..], tail);
    }
  }

  lemma {:induction false} NormalFieldSafe(f: FieldInit)
    requires NormalField(f)
    ensures SafeField(f)
    decreases f
  {
    NormalIsSafe(f.value, false);
  }

  lemma {:induction false} NormalFieldsSafe(fields: seq<FieldInit>)
    requires NormalFields(fields)
    ensures SafeFields(fields)
    decreases fields
  {
    if fields != [] {
      NormalFieldSafe(fields[0]);
      NormalFieldsSafe(fields[1..]);
    }
  }

  /** Whatever folding yields is safe, in any position: folding never leaves the fragment. */
  lemma FoldedIsSafe(e: Expr, tail: bool)
    ensures Safe(Fold(e), tail)
  {
    FoldNormal(e);
    NormalIsSafe(Fold(e), tail);
  }

  lemma FoldedProgramIsSafe(p: Program)
    ensures SafeProgram(FoldProgram(p))
  {
    forall name | name in p.functions ensures Safe(Fold(p.functions[name].body), true) {
      FoldedIsSafe(p.functions[name].body, true);
    }
  }
}

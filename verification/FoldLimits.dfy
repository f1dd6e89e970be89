/** Bodies on which folding does change the result of the interpreter: one for each condition that
    `Safe` imposes. */
module FoldLimits {
  import opened Wrappers
  import opened Ast
  import opened ConstFold
  import opened Interp
  import opened EvalEnv
  import opened FoldMeaning

  /** A program with one function and no capabilities. */
  function Single(body: Expr): Program {
    Program(map["main" := FunctionDef("main", [], body, [])], (_, _) => None, (_, _, _, _, w) => (Val(UnitV), w))
  }

  function Result(body: Expr): Result<Value, RuntimeError> {
    Exec(Single(body), "main", []).0
  }

  function Run(body: Expr): Res {
    Eval(Single(body), body, map[], [], ["main"])
  }

  lemma ResultIs(body: Expr)
    ensures Result(body) == Outcome(Run(body).flow)
    ensures Exec(FoldProgram(Single(body)), "main", []).0 == Result(Fold(body))
  {
    assert [] + ["main"] == ["main"];
    var p := Single(body);
    assert FoldProgram(p).functions == Single(Fold(body)).functions;
    assert FoldProgram(p) == p.(functions := Single(Fold(body)).functions);
    SameGivens(body, Fold(body));
  }

  /** Programs that differ in one function's body share guard and builtins. */
  lemma SameGivens(a: Expr, b: Expr)
    ensures Single(a).(functions := Single(b).functions) == Single(b)
  {
  }

  /** Running a body, and running what it folds to. */
  lemma Both(body: Expr, folded: Expr, before: Flow, after: Flow)
    requires Fold(body) == folded && Run(body).flow == before && Run(folded).flow == after
    ensures Result(body) == Outcome(before) && Result(Fold(body)) == Outcome(after)
  {
    ResultIs(body);
    ResultIs(folded);
  }

  function One(i: int): Expr {
    Lit(Int(i))
  }

  // ---------------------------------------------------------------------
  // `?` on an `Err` that is not the function's result
  // ---------------------------------------------------------------------

  function StatementTry(): Expr {
    Block([Do(Try(Construct("Err", [One(1)])))], Some(One(2)))
  }

  /** As a statement, `Err(1)?` leaves the function; folded, it is a value that is thrown away. */
  lemma TryErrMustBeTail()
    ensures Result(StatementTry()) == Ok(ErrV(IntV(1))) && Result(Fold(StatementTry())) == Ok(IntV(2))
  {
    StatementFolds();
    StatementLeaves();
    StatementGoesOn();
    Both(StatementTry(), StatementFolded(), Prop(IntV(1)), Val(IntV(2)));
  }

  lemma StatementLeaves()
    ensures Run(StatementTry()).flow == Prop(IntV(1))
  {
    ErrOfOne(StatementTry());
  }

  lemma StatementGoesOn()
    ensures Run(StatementFolded()).flow == Val(IntV(2))
  {
    ErrOfOne(StatementFolded());
  }

  function StatementFolded(): Expr {
    Block([Do(Construct("Err", [One(1)]))], Some(One(2)))
  }

  lemma StatementFolds()
    ensures Fold(StatementTry()) == StatementFolded()
  {
    var err := Construct("Err", [One(1)]);
    assert [One(1)][1..] == [] && FoldAll([One(1)]) == [One(1)];
    assert Fold(err) == err;
    assert Fold(Try(err)) == err;
    assert FoldStmts(StatementTry().stmts) == [Do(err)];
  }

  lemma ErrOfOne(body: Expr)
    ensures Eval(Single(body), Construct("Err", [One(1)]), map[], [], ["main"]) == Res(Val(ErrV(IntV(1))), map[], [])
  {
    OneArg(Single(body), One(1), map[], [], ["main"]);
  }

  // ---------------------------------------------------------------------
  // A binding arm
  // ---------------------------------------------------------------------

  function BindingMatch(): Expr {
    Match(One(1), [Arm(Binding("x"), Var("x"))])
  }

  /** The folder drops the binding and keeps the body that needs it. */
  lemma BindingArmsMustNotBeChosen()
    ensures Result(BindingMatch()) == Ok(IntV(1))
    ensures Result(Fold(BindingMatch())) == Err(RuntimeError("R0002", "x", ["main"]))
  {
    BindingFolds();
    BindingRuns();
    assert Run(Var("x")).flow == Raise("R0002", "x", ["main"]);
    Both(BindingMatch(), Var("x"), Val(IntV(1)), Raise("R0002", "x", ["main"]));
  }

  lemma BindingFolds()
    ensures Fold(BindingMatch()) == Var("x")
  {
  }

  lemma BindingRuns()
    ensures Run(BindingMatch()).flow == Val(IntV(1))
  {
    assert PatternMatch(Binding("x"), IntV(1)) == Some(map["x" := IntV(1)]);
  }

  // ---------------------------------------------------------------------
  // A `let` in a chosen arm
  // ---------------------------------------------------------------------

  function LetArm(): Expr {
    Block([Let("x", None, One(1))], None)
  }

  function LeakyMatch(): Expr {
    Block([Do(Match(One(0), [Arm(Wildcard, LetArm())]))], Some(Var("x")))
  }

  function LeakyFolded(): Expr {
    Block([Do(LetArm())], Some(Var("x")))
  }

  /** An arm has its own environment; its folded body does not, and its names leak into what follows. */
  lemma ArmsMustNotLeak()
    ensures Result(LeakyMatch()) == Err(RuntimeError("R0002", "x", ["main"]))
    ensures Result(Fold(LeakyMatch())) == Ok(IntV(1))
  {
    LeakyStays();
    LeakyFolds();
    LeakyBinds();
    Both(LeakyMatch(), LeakyFolded(), Raise("R0002", "x", ["main"]), Val(IntV(1)));
  }

  lemma LeakyFolds()
    ensures Fold(LeakyMatch()) == LeakyFolded()
  {
    assert FoldStmts([Let("x", None, One(1))]) == [Let("x", None, One(1))];
    assert Fold(LetArm()) == LetArm();
    assert FoldArms([Arm(Wildcard, LetArm())]) == [Arm(Wildcard, LetArm())];
    assert FoldStmts(LeakyMatch().stmts) == [Do(LetArm())];
  }

  lemma LeakyStays()
    ensures Run(LeakyMatch()).flow == Raise("R0002", "x", ["main"])
  {
    var p, m := Single(LeakyMatch()), LeakyMatch().stmts[0].e;
    ArmsKeepEnv(p, m.arms, IntV(0), map[], [], ["main"]);
    LetBinds(LeakyMatch());
    var none: Env := map[];
    assert none + map[] == none;
    assert Eval(p, m, map[], [], ["main"]) == Res(Val(UnitV), map[], []);
  }

  lemma LeakyBinds()
    ensures Run(LeakyFolded()).flow == Val(IntV(1))
  {
    LetBinds(LeakyFolded());
  }

  lemma LetBinds(body: Expr)
    ensures Eval(Single(body), LetArm(), map[], [], ["main"]) == Res(Val(UnitV), map["x" := IntV(1)], [])
  {
    assert map["x" := IntV(1)] == (map[])["x" := IntV(1)];
  }

  // ---------------------------------------------------------------------
  // Floats
  // ---------------------------------------------------------------------

  const NAN: nat := 0x7FF8_0000_0000_0000

  function NanMatch(): Expr {
    Match(Lit(Float(NAN)), [Arm(LitPattern(Float(NAN)), One(1)), Arm(Wildcard, One(2))])
  }

  function ZeroMatch(): Expr {
    Match(Lit(Float(0)), [Arm(LitPattern(Float(SIGN)), One(1)), Arm(Wildcard, One(2))])
  }

  /** The folder compares floats by bits, the interpreter by value: NaN differs. */
  lemma NanMustNotBeMatched()
    ensures Result(NanMatch()) == Ok(IntV(2)) && Result(Fold(NanMatch())) == Ok(IntV(1))
  {
    NanRuns();
    FloatsFold();
    Both(NanMatch(), One(1), Val(IntV(2)), Val(IntV(1)));
  }

  lemma FloatsFold()
    ensures Fold(NanMatch()) == One(1) && Fold(ZeroMatch()) == One(2)
  {
  }

  lemma NanRuns()
    ensures Run(NanMatch()).flow == Val(IntV(2))
  {
    assert !FloatEq(NAN, NAN);
  }

  lemma ZeroRuns()
    ensures Run(ZeroMatch()).flow == Val(IntV(1))
  {
    assert FloatEq(SIGN, 0);
  }

  /** And so do the two zeros. */
  lemma ZerosMustAgree()
    ensures Result(ZeroMatch()) == Ok(IntV(1)) && Result(Fold(ZeroMatch())) == Ok(IntV(2))
  {
    ZeroRuns();
    FloatsFold();
    Both(ZeroMatch(), One(2), Val(IntV(1)), Val(IntV(2)));
  }

  // ---------------------------------------------------------------------
  // Callees and lambdas
  // ---------------------------------------------------------------------

  function HiddenCallee(): Expr {
    Call(Field(If(Lit(Bool(true)), Var("str"), None), "len"), [])
  }

  function DirectCallee(): Expr {
    Call(Field(Var("str"), "len"), [])
  }

  /** A callee that only folding makes direct is called, where the interpreter refuses it. */
  lemma CalleesMustBeDirect()
    ensures Result(HiddenCallee()) == Err(RuntimeError("R0004", "call", ["main"]))
    ensures Result(Fold(HiddenCallee())) == Ok(UnitV)
  {
    HiddenFolds();
    HiddenRefused();
    DirectCalls();
    Both(HiddenCallee(), DirectCallee(), Raise("R0004", "call", ["main"]), Val(UnitV));
  }

  lemma HiddenFolds()
    ensures Fold(HiddenCallee()) == DirectCallee()
  {
    assert Fold(If(Lit(Bool(true)), Var("str"), None)) == Var("str");
  }

  lemma HiddenRefused()
    ensures Run(HiddenCallee()).flow == Raise("R0004", "call", ["main"])
  {
  }

  lemma DirectCalls()
    ensures Run(DirectCallee()).flow == Val(UnitV)
  {
    assert IsBuiltin(DirectCallee().callee);
    assert EvalArgs(Single(DirectCallee()), [], map[], [], ["main"]) == Args([], None, map[], []);
  }

  function LambdaBody(): Expr {
    Lambda([], If(Lit(Bool(true)), One(1), None))
  }

  /** A lambda value holds its body, so folding that body is visible in the value. */
  lemma LambdaBodiesAreVisible()
    ensures Result(Fold(LambdaBody())) != Result(LambdaBody())
  {
    var hidden := If(Lit(Bool(true)), One(1), None);
    LambdaFolds();
    LambdaRuns(hidden);
    LambdaRuns(One(1));
    Both(LambdaBody(), Lambda([], One(1)), Val(LambdaV([], hidden)), Val(LambdaV([], One(1))));
  }

  lemma LambdaFolds()
    ensures Fold(LambdaBody()) == Lambda([], One(1))
  {
    assert Fold(If(Lit(Bool(true)), One(1), None)) == One(1);
  }

  lemma LambdaRuns(body: Expr)
    ensures Run(Lambda([], body)).flow == Val(LambdaV([], body))
  {
  }
}

/** What evaluation does to an environment and needs of it: expressions that bind nothing lasting give it
    back, and names that are never looked up do not matter. */
module EvalEnv {
  import opened Wrappers
  import opened Ast
  import opened Interp

  // ---------------------------------------------------------------------
  // Binding and looking up
  // ---------------------------------------------------------------------

  /** Evaluation may bind a name that outlives the expression: a `let` outside match arms. */
  predicate Leaks(e: Expr)
    decreases e
  {
    match e
    case Call(_, args) => LeaksAll(args)
    case Field(base, _) => Leaks(base)
    case Block(stmts, tail) => LeaksStmts(stmts) || LeaksOption(tail)
    case If(cond, thenBranch, elseBranch) => Leaks(cond) || Leaks(thenBranch) || LeaksOption(elseBranch)
    case Match(scrutinee, _) => Leaks(scrutinee)
    case Return(value) => LeaksOption(value)
    case Construct(_, args) => LeaksAll(args)
    case Try(inner) => Leaks(inner)
    case Record(fields) => LeaksFields(fields)
    case _ => false
  }

  predicate LeaksOption(e: Option<Expr>)
    decreases e
  {
    e.Some? && Leaks(e.value)
  }

  predicate LeaksAll(es: seq<Expr>)
    decreases es
  {
    es != [] && (Leaks(es[0]) || LeaksAll(es[1..]))
  }

  predicate LeaksStmt(s: Stmt)
    decreases s
  {
    match s
    case Let(_, _, _) => true
    case Do(e) => Leaks(e)
    case ReturnStmt(value) => LeaksOption(value)
  }

  predicate LeaksStmts(stmts: seq<Stmt>)
    decreases stmts
  {
    stmts != [] && (LeaksStmt(stmts[0]) || LeaksStmts(stmts[1..]))
  }

  predicate LeaksField(f: FieldInit)
    decreases f
  {
    Leaks(f.value)
  }

  predicate LeaksFields(fields: seq<FieldInit>)
    decreases fields
  {
    fields != [] && (LeaksField(fields[0]) || LeaksFields(fields[1..]))
  }

  /** Evaluation may look the name up. */
  predicate Mentions(e: Expr, x: string)
    decreases e
  {
    match e
    case Var(name) => name == x
    case Call(_, args) => MentionsAll(args, x)
    case Field(base, _) => Mentions(base, x)
    case Block(stmts, tail) => MentionsStmts(stmts, x) || MentionsOption(tail, x)
    case If(cond, thenBranch, elseBranch) => Mentions(cond, x) || Mentions(thenBranch, x) || MentionsOption(elseBranch, x)
    case Match(scrutinee, arms) => Mentions(scrutinee, x) || MentionsArms(arms, x)
    case Return(value) => MentionsOption(value, x)
    case Construct(_, args) => MentionsAll(args, x)
    case Try(inner) => Mentions(inner, x)
    case Record(fields) => MentionsFields(fields, x)
    case _ => false
  }

  predicate MentionsOption(e: Option<Expr>, x: string)
    decreases e
  {
    e.Some? && Mentions(e.value, x)
  }

  predicate MentionsAll(es: seq<Expr>, x: string)
    decreases es
  {
    es != [] && (Mentions(es[0], x) || MentionsAll(es[1..], x))
  }

  predicate MentionsStmt(s: Stmt, x: string)
    decreases s
  {
    match s
    case Let(_, _, init) => Mentions(init, x)
    case Do(e) => Mentions(e, x)
    case ReturnStmt(value) => MentionsOption(value, x)
  }

  predicate MentionsStmts(stmts: seq<Stmt>, x: string)
    decreases stmts
  {
    stmts != [] && (MentionsStmt(stmts[0], x) || MentionsStmts(stmts[1..], x))
  }

  predicate MentionsArm(arm: Arm, x: string)
    decreases arm
  {
    Mentions(arm.body, x)
  }

  predicate MentionsArms(arms: seq<Arm>, x: string)
    decreases arms
  {
    arms != [] && (MentionsArm(arms[0], x) || MentionsArms(arms[1..], x))
  }

  predicate MentionsField(f: FieldInit, x: string)
    decreases f
  {
    Mentions(f.value, x)
  }

  predicate MentionsFields(fields: seq<FieldInit>, x: string)
    decreases fields
  {
    fields != [] && (MentionsField(fields[0], x) || MentionsFields(fields[1..], x))
  }

  // ---------------------------------------------------------------------
  // Evaluation without leaks keeps the environment
  // ---------------------------------------------------------------------

  lemma {:induction false} NoLeak(p: Program, e: Expr, env: Env, w: World, frames: seq<string>)
    requires !Leaks(e)
    ensures Eval(p, e, env, w, frames).env == env
    decreases e, 1
  {
    match e
    case Call(_, args) => NoLeakArgs(p, args, env, w, frames);
    case Field(base, _) => NoLeak(p, base, env, w, frames);
    case Block(_, _) => NoLeakControl(p, e, env, w, frames);
    case If(_, _, _) => NoLeakControl(p, e, env, w, frames);
    case Match(_, _) => NoLeakControl(p, e, env, w, frames);
    case Return(value) => NoLeakOption(p, value, env, w, frames);
    case Construct(_, args) => NoLeakArgs(p, args, env, w, frames);
    case Try(inner) => NoLeak(p, inner, env, w, frames);
    case Record(fields) => NoLeakFields(p, fields, map[], env, w, frames);
    case _ =>
  }

  lemma {:induction false} NoLeakControl(p: Program, e: Expr, env: Env, w: World, frames: seq<string>)
    requires (e.Block? || e.If? || e.Match?) && !Leaks(e)
    ensures Eval(p, e, env, w, frames).env == env
    decreases e, 0
  {
    match e
    case Block(stmts, tail) =>
      NoLeakStmts(p, stmts, env, w, frames);
      NoLeakOption(p, tail, env, EvalStmts(p, stmts, env, w, frames).world, frames);
    case If(cond, thenBranch, elseBranch) =>
      NoLeak(p, cond, env, w, frames);
      var c := Eval(p, cond, env, w, frames);
      NoLeak(p, thenBranch, env, c.world, frames);
      NoLeakOption(p, elseBranch, env, c.world, frames);
    case Match(scrutinee, arms) =>
      NoLeak(p, scrutinee, env, w, frames);
      var s := Eval(p, scrutinee, env, w, frames);
      if s.flow.Val? {
        ArmsKeepEnv(p, arms, s.flow.v, env, s.world, frames);
      }
  }

  lemma {:induction false} NoLeakOption(p: Program, e: Option<Expr>, env: Env, w: World, frames: seq<string>)
    requires !LeaksOption(e)
    ensures EvalOption(p, e, env, w, frames).env == env
    decreases e
  {
    if e.Some? {
      NoLeak(p, e.value, env, w, frames);
    }
  }

  lemma {:induction false} NoLeakArgs(p: Program, args: seq<Expr>, env: Env, w: World, frames: seq<string>)
    requires !LeaksAll(args)
    ensures EvalArgs(p, args, env, w, frames).env == env
    decreases args
  {
    if args != [] {
      NoLeak(p, args[0], env, w, frames);
      NoLeakArgs(p, args[1..], env, Eval(p, args[0], env, w, frames).world, frames);
    }
  }

  lemma {:induction false} NoLeakStmts(p: Program, stmts: seq<Stmt>, env: Env, w: World, frames: seq<string>)
    requires !LeaksStmts(stmts)
    ensures EvalStmts(p, stmts, env, w, frames).env == env
    decreases stmts
  {
    if stmts != [] {
      NoLeakStmt(p, stmts[0], env, w, frames);
      NoLeakStmts(p, stmts[1..], env, EvalStmt(p, stmts[0], env, w, frames).world, frames);
    }
  }

  lemma {:induction false} NoLeakStmt(p: Program, s: Stmt, env: Env, w: World, frames: seq<string>)
    requires !LeaksStmt(s)
    ensures EvalStmt(p, s, env, w, frames).env == env
    decreases s
  {
    match s
    case Do(e) => NoLeak(p, e, env, w, frames);
    case ReturnStmt(value) => NoLeakOption(p, value, env, w, frames);
  }

  lemma {:induction false} NoLeakFields(p: Program, fields: seq<FieldInit>, done: map<string, Value>, env: Env, w: World, frames: seq<string>)
    requires !LeaksFields(fields)
    ensures EvalFields(p, fields, done, env, w, frames).env == env
    decreases fields
  {
    if fields != [] {
      NoLeakField(p, fields[0], env, w, frames);
      var r := EvalField(p, fields[0], env, w, frames);
      if r.flow.Val? {
        NoLeakFields(p, fields[1..], done[fields[0].name := r.flow.v], env, r.world, frames);
      }
    }
  }

  lemma {:induction false} NoLeakField(p: Program, f: FieldInit, env: Env, w: World, frames: seq<string>)
    requires !LeaksField(f)
    ensures EvalField(p, f, env, w, frames).env == env
    decreases f
  {
    NoLeak(p, f.value, env, w, frames);
  }

  lemma {:induction false} ArmsKeepEnv(p: Program, arms: seq<Arm>, v: Value, env: Env, w: World, frames: seq<string>)
    ensures EvalArms(p, arms, v, env, w, frames).env == env
    decreases |arms|
  {
    if arms != [] && PatternMatch(arms[0].pattern, v).None? {
      ArmsKeepEnv(p, arms[1..], v, env, w, frames);
    }
  }

  // ---------------------------------------------------------------------
  // Names that are not looked up do not matter
  // ---------------------------------------------------------------------

  /** The environments agree on every other name. */
  ghost predicate Off(x: string, a: Env, b: Env) {
    forall y | y != x :: (y in a <==> y in b) && (y in a ==> a[y] == b[y])
  }

  ghost predicate SameOff(x: string, r: Res, t: Res) {
    r.flow == t.flow && r.world == t.world && Off(x, r.env, t.env)
  }

  ghost predicate ArgsOff(x: string, r: Args, t: Args) {
    r.values == t.values && r.exit == t.exit && r.world == t.world && Off(x, r.env, t.env)
  }

  lemma {:induction false} Weaken(p: Program, e: Expr, x: string, a: Env, b: Env, w: World, frames: seq<string>)
    requires !Mentions(e, x) && Off(x, a, b)
    ensures SameOff(x, Eval(p, e, a, w, frames), Eval(p, e, b, w, frames))
    decreases e, 1
  {
    match e
    case Call(_, _) => WeakenCall(p, e, x, a, b, w, frames);
    case Block(_, _) => WeakenBlock(p, e, x, a, b, w, frames);
    case If(_, _, _) => WeakenIf(p, e, x, a, b, w, frames);
    case Match(_, _) => WeakenMatch(p, e, x, a, b, w, frames);
    case Field(_, _) => WeakenOperand(p, e, x, a, b, w, frames);
    case Return(_) => WeakenOperand(p, e, x, a, b, w, frames);
    case Construct(_, args) => WeakenArgs(p, args, x, a, b, w, frames);
    case Try(_) => WeakenOperand(p, e, x, a, b, w, frames);
    case Record(fields) => WeakenFields(p, fields, map[], x, a, b, w, frames);
    case _ =>
  }

  lemma {:induction false} WeakenOperand(p: Program, e: Expr, x: string, a: Env, b: Env, w: World, frames: seq<string>)
    requires (e.Field? || e.Return? || e.Try?) && !Mentions(e, x) && Off(x, a, b)
    ensures SameOff(x, Eval(p, e, a, w, frames), Eval(p, e, b, w, frames))
    decreases e, 0
  {
    match e
    case Field(base, _) => Weaken(p, base, x, a, b, w, frames);
    case Return(value) => WeakenOption(p, value, x, a, b, w, frames);
    case Try(inner) => Weaken(p, inner, x, a, b, w, frames);
  }

  lemma {:induction false} WeakenBlock(p: Program, e: Expr, x: string, a: Env, b: Env, w: World, frames: seq<string>)
    requires e.Block? && !Mentions(e, x) && Off(x, a, b)
    ensures SameOff(x, Eval(p, e, a, w, frames), Eval(p, e, b, w, frames))
    decreases e, 0
  {
    WeakenStmts(p, e.stmts, x, a, b, w, frames);
    var r, t := EvalStmts(p, e.stmts, a, w, frames), EvalStmts(p, e.stmts, b, w, frames);
    WeakenOption(p, e.tail, x, r.env, t.env, r.world, frames);
  }

  lemma {:induction false} WeakenIf(p: Program, e: Expr, x: string, a: Env, b: Env, w: World, frames: seq<string>)
    requires e.If? && !Mentions(e, x) && Off(x, a, b)
    ensures SameOff(x, Eval(p, e, a, w, frames), Eval(p, e, b, w, frames))
    decreases e, 0
  {
    Weaken(p, e.cond, x, a, b, w, frames);
    var r, t := Eval(p, e.cond, a, w, frames), Eval(p, e.cond, b, w, frames);
    Weaken(p, e.thenBranch, x, r.env, t.env, r.world, frames);
    WeakenOption(p, e.elseBranch, x, r.env, t.env, r.world, frames);
  }

  lemma {:induction false} WeakenMatch(p: Program, e: Expr, x: string, a: Env, b: Env, w: World, frames: seq<string>)
    requires e.Match? && !Mentions(e, x) && Off(x, a, b)
    ensures SameOff(x, Eval(p, e, a, w, frames), Eval(p, e, b, w, frames))
    decreases e, 0
  {
    Weaken(p, e.scrutinee, x, a, b, w, frames);
    var r, t := Eval(p, e.scrutinee, a, w, frames), Eval(p, e.scrutinee, b, w, frames);
    if r.flow.Val? {
      WeakenArms(p, e.arms, r.flow.v, x, r.env, t.env, r.world, frames);
    }
  }

  lemma {:induction false} WeakenCall(p: Program, e: Expr, x: string, a: Env, b: Env, w: World, frames: seq<string>)
    requires e.Call? && !Mentions(e, x) && Off(x, a, b)
    ensures SameOff(x, Eval(p, e, a, w, frames), Eval(p, e, b, w, frames))
    decreases e, 0
  {
    WeakenArgs(p, e.args, x, a, b, w, frames);
  }

  lemma {:induction false} WeakenOption(p: Program, e: Option<Expr>, x: string, a: Env, b: Env, w: World, frames: seq<string>)
    requires !MentionsOption(e, x) && Off(x, a, b)
    ensures SameOff(x, EvalOption(p, e, a, w, frames), EvalOption(p, e, b, w, frames))
    decreases e
  {
    if e.Some? {
      Weaken(p, e.value, x, a, b, w, frames);
    }
  }

  lemma {:induction false} WeakenArgs(p: Program, args: seq<Expr>, x: string, a: Env, b: Env, w: World, frames: seq<string>)
    requires !MentionsAll(args, x) && Off(x, a, b)
    ensures ArgsOff(x, EvalArgs(p, args, a, w, frames), EvalArgs(p, args, b, w, frames))
    decreases args
  {
    if args != [] {
      Weaken(p, args[0], x, a, b, w, frames);
      var r, t := Eval(p, args[0], a, w, frames), Eval(p, args[0], b, w, frames);
      WeakenArgs(p, args[1..], x, r.env, t.env, r.world, frames);
    }
  }

  lemma {:induction false} WeakenStmt(p: Program, s: Stmt, x: string, a: Env, b: Env, w: World, frames: seq<string>)
    requires !MentionsStmt(s, x) && Off(x, a, b)
    ensures SameOff(x, EvalStmt(p, s, a, w, frames), EvalStmt(p, s, b, w, frames))
    decreases s
  {
    match s
    case Let(_, _, init) => Weaken(p, init, x, a, b, w, frames);
    case Do(e) => Weaken(p, e, x, a, b, w, frames);
    case ReturnStmt(value) => WeakenOption(p, value, x, a, b, w, frames);
  }

  lemma {:induction false} WeakenStmts(p: Program, stmts: seq<Stmt>, x: string, a: Env, b: Env, w: World, frames: seq<string>)
    requires !MentionsStmts(stmts, x) && Off(x, a, b)
    ensures SameOff(x, EvalStmts(p, stmts, a, w, frames), EvalStmts(p, stmts, b, w, frames))
    decreases stmts
  {
    if stmts != [] {
      WeakenStmt(p, stmts[0], x, a, b, w, frames);
      var r, t := EvalStmt(p, stmts[0], a, w, frames), EvalStmt(p, stmts[0], b, w, frames);
      WeakenStmts(p, stmts[1..], x, r.env, t.env, r.world, frames);
    }
  }

  lemma {:induction false} WeakenArm(p: Program, arm: Arm, bound: Env, x: string, a: Env, b: Env, w: World, frames: seq<string>)
    requires !MentionsArm(arm, x) && Off(x, a, b)
    ensures SameOff(x, EvalArm(p, arm, bound, a, w, frames), EvalArm(p, arm, bound, b, w, frames))
    decreases arm
  {
    Weaken(p, arm.body, x, a + bound, b + bound, w, frames);
  }

  lemma {:induction false} WeakenArms(p: Program, arms: seq<Arm>, v: Value, x: string, a: Env, b: Env, w: World, frames: seq<string>)
    requires !MentionsArms(arms, x) && Off(x, a, b)
    ensures SameOff(x, EvalArms(p, arms, v, a, w, frames), EvalArms(p, arms, v, b, w, frames))
    decreases arms
  {
    if arms != [] {
      var bound := PatternMatch(arms[0].pattern, v);
      if bound.None? {
        WeakenArms(p, arms[1..], v, x, a, b, w, frames);
      } else {
        WeakenArm(p, arms[0], bound.value, x, a, b, w, frames);
      }
    }
  }

  lemma {:induction false} WeakenField(p: Program, f: FieldInit, x: string, a: Env, b: Env, w: World, frames: seq<string>)
    requires !MentionsField(f, x) && Off(x, a, b)
    ensures SameOff(x, EvalField(p, f, a, w, frames), EvalField(p, f, b, w, frames))
    decreases f
  {
    Weaken(p, f.value, x, a, b, w, frames);
  }

  lemma {:induction false} WeakenFields(p: Program, fields: seq<FieldInit>, done: map<string, Value>, x: string, a: Env, b: Env,
                                        w: World, frames: seq<string>)
    requires !MentionsFields(fields, x) && Off(x, a, b)
    ensures SameOff(x, EvalFields(p, fields, done, a, w, frames), EvalFields(p, fields, done, b, w, frames))
    decreases fields
  {
    if fields != [] {
      WeakenField(p, fields[0], x, a, b, w, frames);
      var r, t := EvalField(p, fields[0], a, w, frames), EvalField(p, fields[0], b, w, frames);
      if r.flow.Val? {
        WeakenFields(p, fields[1..], done[fields[0].name := r.flow.v], x, r.env, t.env, r.world, frames);
      }
    }
  }
}

/** The bootstrap interpreter, as far as constant folding can see it: evaluation of bodies with early
    return and `?`, calls up to a fixed depth, and builtins as given functions. */
module Interp {
  import opened Wrappers
  import opened Ast

  const MAX_DEPTH: nat := 64

  datatype Value =
    | IntV(i: int)
    | FloatV(bits: nat)
    | BoolV(b: bool)
    | StrV(s: string)
    | UnitV
    | NoneV
    | SomeV(v: Value)
    | OkV(v: Value)
    | ErrV(v: Value)
    | ListV(items: seq<Value>)
    | RecordV(fields: map<string, Value>)
    | LambdaV(params: seq<string>, body: Expr)
    | CacheV(capacity: nat, entries: seq<(Value, Value)>)

  /** An error code, the name or type it is about, and the functions active when it was raised. */
  datatype RuntimeError = RuntimeError(code: string, subject: string, frames: seq<string>)

  datatype Flow = Val(v: Value) | Ret(v: Value) | Prop(v: Value) | Fail(error: RuntimeError)

  datatype FunctionDef = FunctionDef(name: string, params: seq<string>, body: Expr, effects: seq<string>)

  type Env = map<string, Value>
  type World = seq<string>  // what builtins have written

  /** The functions of a module, the capability guard (a denial code, or none) and the builtins. */
  datatype Program = Program(
    functions: map<string, FunctionDef>,
    guard: (string, seq<string>) -> Option<string>,
    builtin: (string, string, seq<Value>, nat, World) -> (Flow, World)
  )

  datatype Res = Res(flow: Flow, env: Env, world: World)

  function Tag(v: Value): string {
    match v
    case IntV(_) => "Int"
    case FloatV(_) => "Float"
    case BoolV(_) => "Bool"
    case StrV(_) => "Str"
    case UnitV => "Unit"
    case NoneV => "None"
    case SomeV(_) => "Some"
    case OkV(_) => "Ok"
    case ErrV(_) => "Err"
    case ListV(_) => "List"
    case RecordV(_) => "Record"
    case LambdaV(_, _) => "Lambda"
    case CacheV(_, _) => "Cache"
  }

  function LiteralValue(lit: Literal): Value {
    match lit
    case Int(i) => IntV(i)
    case Float(bits) => FloatV(bits)
    case Str(s) => StrV(s)
    case Bool(b) => BoolV(b)
    case Unit => UnitV
  }

  // ---------------------------------------------------------------------
  // Patterns
  // ---------------------------------------------------------------------

  const SIGN: nat := 0x8000_0000_0000_0000
  const INFINITY: nat := 0x7FF0_0000_0000_0000

  /** Equality of 64-bit floats: NaN equals nothing, and the two zeros are equal. */
  predicate FloatEq(a: nat, b: nat) {
    a % SIGN <= INFINITY && b % SIGN <= INFINITY && (a == b || (a % SIGN == 0 && b % SIGN == 0))
  }

  predicate LiteralEq(lit: Literal, v: Value) {
    match (lit, v)
    case (Int(a), IntV(b)) => a == b
    case (Float(a), FloatV(b)) => FloatEq(a, b)
    case (Bool(a), BoolV(b)) => a == b
    case (Str(a), StrV(b)) => a == b
    case (Unit, UnitV) => true
    case _ => false
  }

  /** The bindings of a matching pattern. */
  function PatternMatch(p: Pattern, v: Value): Option<Env> {
    match p
    case Wildcard => Some(map[])
    case Binding(name) => Some(map[name := v])
    case LitPattern(lit) => if LiteralEq(lit, v) then Some(map[]) else None
    case Constructor(_, _) => None
  }

  // ---------------------------------------------------------------------
  // Evaluation
  // ---------------------------------------------------------------------

  predicate IsNamespace(name: string) {
    name in {"str", "string", "list", "cache", "url", "io", "time", "env", "iter"}
  }

  predicate IsBuiltin(callee: Expr) {
    callee.Field? && callee.base.Var? && IsNamespace(callee.base.name)
  }

  function Raise(code: string, subject: string, frames: seq<string>): Flow {
    Fail(RuntimeError(code, subject, frames))
  }

  /** A builtin's error is given the current frames. */
  function WithFrames(f: Flow, frames: seq<string>): Flow {
    if f.Fail? then Fail(f.error.(frames := frames)) else f
  }

  /** Calls left before the depth limit. */
  function Left(frames: seq<string>): nat {
    if |frames| <= MAX_DEPTH then MAX_DEPTH + 1 - |frames| else 0
  }

  function Eval(p: Program, e: Expr, env: Env, w: World, frames: seq<string>): Res
    decreases Left(frames), 1, e
  {
    match e
    case Lit(lit) => Res(Val(LiteralValue(lit)), env, w)
    case Var(name) =>
      if name == "true" then Res(Val(BoolV(true)), env, w)
      else if name == "false" then Res(Val(BoolV(false)), env, w)
      else if name in env then Res(Val(env[name]), env, w)
      else Res(Raise("R0002", name, frames), env, w)
    case Block(stmts, tail) =>
      var r := EvalStmts(p, stmts, env, w, frames);
      if !r.flow.Val? then r else EvalOption(p, tail, r.env, r.world, frames)
    case If(cond, thenBranch, elseBranch) =>
      var c := Eval(p, cond, env, w, frames);
      if !c.flow.Val? then c
      else if c.flow.v == BoolV(true) then Eval(p, thenBranch, c.env, c.world, frames)
      else if c.flow.v == BoolV(false) then EvalOption(p, elseBranch, c.env, c.world, frames)
      else c.(flow := Raise("R0004", Tag(c.flow.v), frames))
    case Match(scrutinee, arms) =>
      var s := Eval(p, scrutinee, env, w, frames);
      if !s.flow.Val? then s else EvalArms(p, arms, s.flow.v, s.env, s.world, frames)
    case Return(value) =>
      var r := EvalOption(p, value, env, w, frames);
      if r.flow.Val? then r.(flow := Ret(r.flow.v)) else r
    case Call(callee, args) => EvalCall(p, callee, args, env, w, frames)
    case Construct(variant, args) =>
      var r := EvalArgs(p, args, env, w, frames);
      if r.exit.Some? then Res(r.exit.value, r.env, r.world)
      else Res(Constructed(variant, r.values, frames), r.env, r.world)
    case Try(inner) =>
      var r := Eval(p, inner, env, w, frames);
      if !r.flow.Val? then r
      else r.(flow := if r.flow.v.OkV? then Val(r.flow.v.v)
                      else if r.flow.v.ErrV? then Prop(r.flow.v.v)
                      else Raise("R0004", Tag(r.flow.v), frames))
    case Field(base, name) =>
      var r := Eval(p, base, env, w, frames);
      if !r.flow.Val? then r else r.(flow := Selected(r.flow.v, name, frames))
    case Record(fields) => EvalFields(p, fields, map[], env, w, frames)
    case Lambda(params, body) => Res(Val(LambdaV(Names(params), body)), env, w)
    case RawStr(text, _) => Res(Val(StrV(text)), env, w)
    case Tuple(_) => Res(Raise("R0004", "tuple", frames), env, w)
    case InterpString(_) => Res(Raise("R0004", "interpolation", frames), env, w)
    case Binary(_, _, _) => Res(Raise("R0004", "binary", frames), env, w)
    case Unary(_, _) => Res(Raise("R0004", "unary", frames), env, w)
    case Error => Res(Raise("R0004", "error", frames), env, w)
  }

  function Names(params: seq<(string, Option<string>)>): seq<string> {
    if params == [] then [] else [params[0].0] + Names(params[1..])
  }

  function Selected(v: Value, name: string, frames: seq<string>): Flow {
    if !v.RecordV? then Raise("R0004", Tag(v), frames)
    else if name in v.fields then Val(v.fields[name])
    else Raise("R0004", name, frames)
  }

  /** An absent expression is the unit value. */
  function EvalOption(p: Program, e: Option<Expr>, env: Env, w: World, frames: seq<string>): Res
    decreases Left(frames), 1, e
  {
    if e.None? then Res(Val(UnitV), env, w) else Eval(p, e.value, env, w, frames)
  }

  /** Statements bind in the enclosing environment: a block opens no scope of its own. */
  function EvalStmts(p: Program, stmts: seq<Stmt>, env: Env, w: World, frames: seq<string>): Res
    decreases Left(frames), 1, stmts
  {
    if stmts == [] then Res(Val(UnitV), env, w)
    else
      var r := EvalStmt(p, stmts[0], env, w, frames);
      if !r.flow.Val? then r else EvalStmts(p, stmts[1..], r.env, r.world, frames)
  }

  function EvalStmt(p: Program, s: Stmt, env: Env, w: World, frames: seq<string>): Res
    decreases Left(frames), 1, s
  {
    match s
    case Let(name, _, init) =>
      var r := Eval(p, init, env, w, frames);
      if r.flow.Val? then r.(env := r.env[name := r.flow.v]) else r
    case Do(e) => Eval(p, e, env, w, frames)
    case ReturnStmt(value) =>
      var r := EvalOption(p, value, env, w, frames);
      if r.flow.Val? then r.(flow := Ret(r.flow.v)) else r
  }

  /** The first matching arm runs in an environment of its own. */
  function EvalArms(p: Program, arms: seq<Arm>, v: Value, env: Env, w: World, frames: seq<string>): Res
    decreases Left(frames), 1, arms
  {
    if arms == [] then Res(Raise("R0004", Tag(v), frames), env, w)
    else
      var bound := PatternMatch(arms[0].pattern, v);
      if bound.None? then EvalArms(p, arms[1..], v, env, w, frames)
      else EvalArm(p, arms[0], bound.value, env, w, frames).(env := env)
  }

  function EvalArm(p: Program, arm: Arm, bound: Env, env: Env, w: World, frames: seq<string>): Res
    decreases Left(frames), 1, arm
  {
    Eval(p, arm.body, env + bound, w, frames)
  }

  datatype Args = Args(values: seq<Value>, exit: Option<Flow>, env: Env, world: World)

  /** Left to right, up to the first argument that is not a value. */
  function EvalArgs(p: Program, args: seq<Expr>, env: Env, w: World, frames: seq<string>): Args
    decreases Left(frames), 1, args, 0
  {
    if args == [] then Args([], None, env, w)
    else
      var r := Eval(p, args[0], env, w, frames);
      if !r.flow.Val? then Args([], Some(r.flow), r.env, r.world)
      else
        var rest := EvalArgs(p, args[1..], r.env, r.world, frames);
        rest.(values := [r.flow.v] + rest.values)
  }

  function EvalFields(p: Program, fields: seq<FieldInit>, done: map<string, Value>, env: Env, w: World, frames: seq<string>): Res
    decreases Left(frames), 1, fields
  {
    if fields == [] then Res(Val(RecordV(done)), env, w)
    else
      var r := EvalField(p, fields[0], env, w, frames);
      if !r.flow.Val? then r
      else EvalFields(p, fields[1..], done[fields[0].name := r.flow.v], r.env, r.world, frames)
  }

  function EvalField(p: Program, f: FieldInit, env: Env, w: World, frames: seq<string>): Res
    decreases Left(frames), 1, f
  {
    Eval(p, f.value, env, w, frames)
  }

  function Positional(values: seq<Value>): map<string, Value> {
    if values == [] then map[]
    else Positional(values[..|values| - 1])["_" + Decimal(|values| - 1) := values[|values| - 1]]
  }

  function Constructed(variant: string, values: seq<Value>, frames: seq<string>): Flow {
    if variant == "Ok" then (if values == [] then Raise("R0003", "Ok", frames) else Val(OkV(values[0])))
    else if variant == "Err" then (if values == [] then Raise("R0003", "Err", frames) else Val(ErrV(values[0])))
    else if variant == "Some" then (if values == [] then Raise("R0003", "Some", frames) else Val(SomeV(values[0])))
    else if variant == "None" then (if values == [] then Val(NoneV) else Raise("R0003", "None", frames))
    else if variant == "Unit" then (if values == [] then Val(UnitV) else Raise("R0003", "Unit", frames))
    else if variant == "List" then Val(ListV(values))
    else if |values| == 1 && values[0].RecordV? then Val(values[0])
    else Val(RecordV(Positional(values)))
  }

  function EvalCall(p: Program, callee: Expr, args: seq<Expr>, env: Env, w: World, frames: seq<string>): Res
    decreases Left(frames), 1, args, 1
  {
    if IsBuiltin(callee) then
      var r := EvalArgs(p, args, env, w, frames);
      if r.exit.Some? then Res(r.exit.value, r.env, r.world)
      else
        var (flow, world) := p.builtin(callee.base.name, callee.field, r.values, |frames|, r.world);
        Res(WithFrames(flow, frames), r.env, world)
    else if !callee.Var? then Res(Raise("R0004", "call", frames), env, w)
    else if callee.name !in p.functions then Res(Raise("R0002", callee.name, frames), env, w)
    else
      var def := p.functions[callee.name];
      if |def.params| != |args| then Res(Raise("R0003", def.name, frames), env, w)
      else
        var r := EvalArgs(p, args, env, w, frames);
        if r.exit.Some? then Res(r.exit.value, r.env, r.world)
        else if def.effects != [] && p.guard(def.name, def.effects).Some? then
          Res(Raise(p.guard(def.name, def.effects).value, def.name, frames), r.env, r.world)
        else
          var c := CallFunction(p, def, r.values, r.world, frames);
          Res(if c.0.Ok? then Val(c.0.value) else Fail(c.0.error), r.env, c.1)
  }

  function BindParams(params: seq<string>, args: seq<Value>): Env
    requires |params| == |args|
  {
    if params == [] then map[]
    else BindParams(params[..|params| - 1], args[..|args| - 1])[params[|params| - 1] := args[|args| - 1]]
  }

  /** A function body's outcome: an early return is its value, and a propagated `?` is an `Err` value. */
  function Outcome(f: Flow): Result<Value, RuntimeError> {
    match f
    case Val(v) => Ok(v)
    case Ret(v) => Ok(v)
    case Prop(v) => Ok(ErrV(v))
    case Fail(error) => Err(error)
  }

  function CallFunction(p: Program, def: FunctionDef, args: seq<Value>, w: World, frames: seq<string>)
    : (Result<Value, RuntimeError>, World)
    decreases Left(frames), 0
  {
    if |frames| >= MAX_DEPTH then (Err(RuntimeError("R0005", def.name, frames + [def.name])), w)
    else if |def.params| != |args| then (Err(RuntimeError("R0003", def.name, frames)), w)
    else
      var r := Eval(p, def.body, BindParams(def.params, args), w, frames + [def.name]);
      (Outcome(r.flow), r.world)
  }

  /** Running a program from its entry function. */
  function Exec(p: Program, entry: string, args: seq<Value>): (Result<Value, RuntimeError>, World) {
    if entry !in p.functions then (Err(RuntimeError("R0001", entry, [])), [])
    else if |p.functions[entry].params| != |args| then (Err(RuntimeError("R0003", p.functions[entry].name, [])), [])
    else CallFunction(p, p.functions[entry], args, [], [])
  }
}

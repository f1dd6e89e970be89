/** Expression bodies. */
module Ast {
  import opened Wrappers

  /** A float literal is its 64-bit pattern. */
  datatype Literal = Int(i: int) | Float(bits: nat) | Str(s: string) | Bool(b: bool) | Unit

  datatype Pattern = Wildcard | Binding(name: string) | LitPattern(lit: Literal) | Constructor(tag: string, args: seq<Pattern>)

  datatype Arm = Arm(pattern: Pattern, body: Expr)

  datatype Stmt = Let(name: string, ty: Option<string>, init: Expr) | Do(e: Expr) | ReturnStmt(value: Option<Expr>)

  datatype FieldInit = FieldInit(name: string, value: Expr)

  datatype Part = Text(s: string) | Hole(e: Expr)

  datatype Expr =
    | Lit(lit: Literal)
    | Var(name: string)
    | Call(callee: Expr, args: seq<Expr>)
    | Field(base: Expr, field: string)
    | Block(stmts: seq<Stmt>, tail: Option<Expr>)
    | If(cond: Expr, thenBranch: Expr, elseBranch: Option<Expr>)
    | Match(scrutinee: Expr, arms: seq<Arm>)
    | Return(value: Option<Expr>)
    | Construct(variant: string, args: seq<Expr>)
    | Try(inner: Expr)
    | Tuple(items: seq<Expr>)
    | Record(fields: seq<FieldInit>)
    | Lambda(params: seq<(string, Option<string>)>, body: Expr)
    | Binary(op: string, lhs: Expr, rhs: Expr)
    | Unary(op: string, operand: Expr)
    | InterpString(parts: seq<Part>)
    | RawStr(text: string, hashes: nat)
    | Error
}

/** Where borrows stand in a function body. Every subexpression has a place, the list of child numbers
    that leads to it; nothing here speaks of the walk. */
module BorrowPlaces {
  import opened Wrappers
  import opened Ast
  import opened Regions

  type Place = seq<nat>

  // ---------------------------------------------------------------------
  // Children
  // ---------------------------------------------------------------------

  function StmtExpr(s: Stmt): (r: Option<Expr>)
    ensures r.Some? ==> r.value < s
  {
    match s
    case Let(_, _, init) => Some(init)
    case Do(e) => Some(e)
    case ReturnStmt(value) => value
  }

  /** The immediate subexpressions, numbered in the order in which they are evaluated. A statement's
      expression bears the statement's number; after a block's statements comes its tail. */
  function Child(e: Expr, i: nat): (r: Option<Expr>)
    ensures r.Some? ==> r.value < e
  {
    match e
    case Call(callee, args) => if i == 0 then Some(callee) else if i <= |args| then Some(args[i - 1]) else None
    case Field(base, _) => if i == 0 then Some(base) else None
    case Block(stmts, tail) => if i < |stmts| then StmtExpr(stmts[i]) else if i == |stmts| then tail else None
    case If(cond, thenBranch, elseBranch) =>
      if i == 0 then Some(cond) else if i == 1 then Some(thenBranch) else if i == 2 then elseBranch else None
    case Match(scrutinee, arms) => if i == 0 then Some(scrutinee) else if i <= |arms| then Some(arms[i - 1].body) else None
    case Return(value) => if i == 0 then value else None
    case Construct(_, args) => if i < |args| then Some(args[i]) else None
    case Try(inner) => if i == 0 then Some(inner) else None
    case Tuple(items) => if i < |items| then Some(items[i]) else None
    case Record(fields) => if i < |fields| then Some(fields[i].value) else None
    case Lambda(_, body) => if i == 0 then Some(body) else None
    case Binary(_, lhs, rhs) => if i == 0 then Some(lhs) else if i == 1 then Some(rhs) else None
    case Unary(_, operand) => if i == 0 then Some(operand) else None
    case InterpString(parts) => if i < |parts| && parts[i].Hole? then Some(parts[i].e) else None
    case _ => None
  }

  /** How many child numbers are in use. */
  function Arity(e: Expr): nat {
    match e
    case Call(_, args) => |args| + 1
    case Block(stmts, _) => |stmts| + 1
    case If(_, _, _) => 3
    case Match(_, arms) => |arms| + 1
    case Construct(_, args) => |args|
    case Tuple(items) => |items|
    case Record(fields) => |fields|
    case InterpString(parts) => |parts|
    case Binary(_, _, _) => 2
    case _ => if Child(e, 0).Some? then 1 else 0
  }

  /** Whether a child stands in tail position: the tail of a block and what is returned always do, a
      branch or an arm does when its parent does, nothing else does. */
  predicate Hands(e: Expr, i: nat, tail: bool) {
    match e
    case Block(stmts, _) => i < |stmts| ==> stmts[i].ReturnStmt?
    case Return(_) => true
    case If(_, _, _) => i > 0 && tail
    case Match(_, _) => i > 0 && tail
    case _ => false
  }

  lemma ChildrenNumbered(e: Expr, i: nat)
    ensures i >= Arity(e) ==> Child(e, i).None?
  {
  }

  // ---------------------------------------------------------------------
  // Places
  // ---------------------------------------------------------------------

  /** The subexpression at a place. */
  function At(e: Expr, p: Place): Option<Expr>
    decreases |p|
  {
    if p == [] then Some(e)
    else if Child(e, p[0]).None? then None
    else At(Child(e, p[0]).value, p[1..])
  }

  const SHARING: set<string> := {"borrow", "borrow_shared", "ref"}
  const MUTATING: set<string> := {"borrow_mut", "mut_ref", "mut_borrow"}

  /** A call of a borrowing name on the plain variable `x`. */
  predicate IsLoan(e: Expr, x: string, m: Mode) {
    && e.Call? && e.callee.Var? && e.args != [] && e.args[0] == Var(x)
    && (if m.Shared? then e.callee.name in SHARING else e.callee.name in MUTATING)
  }

  predicate Loan(e: Expr, p: Place, x: string, m: Mode) {
    At(e, p).Some? && IsLoan(At(e, p).value, x, m)
  }

  predicate TailAt(e: Expr, tail: bool, p: Place)
    decreases |p|
  {
    if p == [] then tail
    else Child(e, p[0]).Some? && TailAt(Child(e, p[0]).value, Hands(e, p[0], tail), p[1..])
  }

  /** Blocks and lambdas are regions of their own. */
  predicate Scoped(e: Expr) {
    e.Block? || e.Lambda?
  }

  /** No region is opened on the way to `p`. */
  predicate Open(e: Expr, p: Place)
    decreases |p|
  {
    p == [] || (!Scoped(e) && OpenBelow(e, p))
  }

  predicate OpenBelow(e: Expr, p: Place)
    decreases |p|, 0
  {
    p != [] && Child(e, p[0]).Some? && Open(Child(e, p[0]).value, p[1..])
  }

  /** A borrow taken at `p` is still live when one is taken at `q`: where the two places part, `p` comes
      first, and no region closes behind it. */
  predicate InForce(e: Expr, p: Place, q: Place)
    decreases |p|
  {
    if q == [] then false
    else if p == [] then true
    else if p[0] == q[0] then Child(e, p[0]).Some? && InForce(Child(e, p[0]).value, p[1..], q[1..])
    else p[0] < q[0] && OpenBelow(e, p)
  }

  /** One of a block's first `i` statements declares `x`. */
  predicate Declares(e: Expr, i: nat, x: string) {
    e.Block? && exists j: nat :: j < i && j < |e.stmts| && e.stmts[j].Let? && e.stmts[j].name == x
  }

  /** `x` was declared, in a block around `q`, by a statement before the one that holds `q`. */
  predicate LocalAt(e: Expr, q: Place, x: string)
    decreases |q|
  {
    q != [] && (Declares(e, q[0], x) || (Child(e, q[0]).Some? && LocalAt(Child(e, q[0]).value, q[1..], x)))
  }

  /** Two borrows of one name of which one is mutable, the first still live when the second is taken. */
  ghost predicate Collide(e: Expr, p: Place, q: Place) {
    exists x, m, n :: Loan(e, p, x, m) && Loan(e, q, x, n) && InForce(e, p, q) && (m.Mut? || n.Mut?)
  }

  // ---------------------------------------------------------------------
  // The same, in terms of prefixes
  // ---------------------------------------------------------------------

  /** `p` comes before `q`: it is a proper part of the way to `q`, or branches off to the left. */
  predicate Before(p: Place, q: Place)
    decreases |p|
  {
    q != [] && (p == [] || p[0] < q[0] || (p[0] == q[0] && Before(p[1..], q[1..])))
  }

  /** Every region around `p` is also around `q`. */
  ghost predicate RegionsShared(e: Expr, p: Place, q: Place) {
    forall k: nat | k < |p| && At(e, p[..k]).Some? && Scoped(At(e, p[..k]).value) :: p[..k] <= q
  }

  lemma {:induction false} OpenMeans(e: Expr, p: Place)
    requires At(e, p).Some?
    ensures Open(e, p) <==> forall k: nat | k < |p| :: At(e, p[..k]).Some? ==> !Scoped(At(e, p[..k]).value)
    decreases |p|
  {
    if p != [] {
      OpenMeans(Child(e, p[0]).value, p[1..]);
      assert p[..0] == [];
      forall k: nat | 0 < k < |p| ensures At(e, p[..k]) == At(Child(e, p[0]).value, p[1..][..k - 1]) {
        assert p[..k][0] == p[0] && p[..k][1..] == p[1..][..k - 1];
      }
      if forall k: nat | k < |p| :: At(e, p[..k]).Some? ==> !Scoped(At(e, p[..k]).value) {
        forall k: nat | k < |p[1..]|
          ensures At(Child(e, p[0]).value, p[1..][..k]).Some? ==> !Scoped(At(Child(e, p[0]).value, p[1..][..k]).value)
        {
          assert At(e, p[..k + 1]) == At(Child(e, p[0]).value, p[1..][..k]);
        }
      }
    }
  }

  /** Being local means that some block around the place declared the name by an earlier statement. */
  lemma {:induction false} LocalMeans(e: Expr, q: Place, x: string)
    requires At(e, q).Some?
    ensures LocalAt(e, q, x) <==> exists k: nat :: k < |q| && At(e, q[..k]).Some? && Declares(At(e, q[..k]).value, q[k], x)
    decreases |q|
  {
    if q != [] {
      var child, r := Child(e, q[0]).value, q[1..];
      LocalMeans(child, r, x);
      assert q[..0] == [] && At(e, q[..0]) == Some(e);
      forall k: nat | k < |r| ensures At(e, q[..k + 1]) == At(child, r[..k]) && q[k + 1] == r[k] {
        assert q[..k + 1] == [q[0]] + r[..k] && q[..k + 1][1..] == r[..k];
      }
      if k: nat :| k < |q| && At(e, q[..k]).Some? && Declares(At(e, q[..k]).value, q[k], x) {
        assert k > 0 ==> At(child, r[..k - 1]).Some? && r[k - 1] == q[k];
      }
      if k: nat :| k < |r| && At(child, r[..k]).Some? && Declares(At(child, r[..k]).value, r[k], x) {
        assert At(e, q[..k + 1]).Some? && Declares(At(e, q[..k + 1]).value, q[k + 1], x);
      }
    }
  }

  /** Being in force means coming first, with every region around the one also around the other. */
  lemma {:induction false} InForceMeans(e: Expr, p: Place, q: Place)
    requires At(e, p).Some? && At(e, q).Some? && !Scoped(At(e, p).value)
    ensures InForce(e, p, q) <==> Before(p, q) && RegionsShared(e, p, q)
    decreases |p|
  {
    if p != [] && q != [] {
      var child := Child(e, p[0]).value;
      assert p[..0] == [];
      forall k: nat | 0 < k < |p|
        ensures At(e, p[..k]) == At(child, p[1..][..k - 1])
        ensures p[..k] <= q <==> p[0] == q[0] && p[1..][..k - 1] <= q[1..]
      {
        assert p[..k][0] == p[0] && p[..k][1..] == p[1..][..k - 1];
        assert p[..k] == [p[0]] + p[1..][..k - 1] && q == [q[0]] + q[1..];
      }
      if p[0] == q[0] {
        InForceMeans(child, p[1..], q[1..]);
        SharedDeeper(e, p, q);
      } else {
        OpenMeans(child, p[1..]);
        SharedNowhere(e, p, q);
      }
    }
  }

  lemma SharedDeeper(e: Expr, p: Place, q: Place)
    requires p != [] && q != [] && p[0] == q[0] && Child(e, p[0]).Some?
    ensures RegionsShared(e, p, q) <==> RegionsShared(Child(e, p[0]).value, p[1..], q[1..])
  {
    var child, r := Child(e, p[0]).value, p[1..];
    forall k: nat | k < |r|
      ensures At(e, p[..k + 1]) == At(child, r[..k]) && (p[..k + 1] <= q <==> r[..k] <= q[1..])
    {
      assert p[..k + 1] == [p[0]] + r[..k] && p[..k + 1][1..] == r[..k] && q == [q[0]] + q[1..];
    }
    if RegionsShared(e, p, q) {
      forall k: nat | k < |r| && At(child, r[..k]).Some? && Scoped(At(child, r[..k]).value) ensures r[..k] <= q[1..] {
        assert At(e, p[..k + 1]).Some?;
      }
    }
    if RegionsShared(child, r, q[1..]) {
      forall k: nat | k < |p| && At(e, p[..k]).Some? && Scoped(At(e, p[..k]).value) ensures p[..k] <= q {
        if k > 0 {
          assert At(child, r[..k - 1]).Some?;
        }
      }
    }
  }

  lemma SharedNowhere(e: Expr, p: Place, q: Place)
    requires p != [] && q != [] && p[0] != q[0] && Child(e, p[0]).Some?
    ensures var child, r := Child(e, p[0]).value, p[1..];
            RegionsShared(e, p, q) <==> forall k: nat | k < |r| :: At(child, r[..k]).Some? ==> !Scoped(At(child, r[..k]).value)
  {
    var child, r := Child(e, p[0]).value, p[1..];
    forall k: nat | k < |r| ensures At(e, p[..k + 1]) == At(child, r[..k]) && !(p[..k + 1] <= q) {
      assert p[..k + 1] == [p[0]] + r[..k] && p[..k + 1][1..] == r[..k];
    }
    if RegionsShared(e, p, q) {
      forall k: nat | k < |r| ensures At(child, r[..k]).Some? ==> !Scoped(At(child, r[..k]).value) {
        assert At(e, p[..k + 1]) == At(child, r[..k]);
      }
    } else {
      var k: nat :| k < |p| && At(e, p[..k]).Some? && Scoped(At(e, p[..k]).value) && !(p[..k] <= q);
      assert k > 0 && At(child, r[..k - 1]) == At(e, p[..k]);
    }
  }
}

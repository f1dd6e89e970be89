/** The body borrow checker: a walk that drives the region tracker and reports conflicting borrows
    (B0070) and borrows that escape their block (B0080). */
module BorrowWalk {
  import opened Wrappers
  import opened Ast
  import opened Regions

  datatype Diag = Conflict(target: string, mode: Mode, existing: Mode) | Escape(target: string, mode: Mode)

  // ---------------------------------------------------------------------
  // What a body does to the regions, in order
  // ---------------------------------------------------------------------

  datatype Event = Enter | Exit | Declare(name: string) | Take(target: string, mode: Mode, tail: bool)

  function Moded(name: string): Option<Mode> {
    if name in {"borrow", "borrow_shared", "ref"} then Some(Shared)
    else if name in {"borrow_mut", "mut_ref", "mut_borrow"} then Some(Mut)
    else None
  }

  /** A call `f(x, ...)` of a borrowing name on a plain variable. */
  function DetectBorrow(callee: Expr, args: seq<Expr>): Option<(Mode, string)> {
    if callee.Var? && Moded(callee.name).Some? && args != [] && args[0].Var?
    then Some((Moded(callee.name).value, args[0].name))
    else None
  }

  function Events(e: Expr, tail: bool): seq<Event>
    decreases e
  {
    match e
    case Block(stmts, last) =>
      [Enter] + StmtEvents(stmts) + (if last.Some? then Events(last.value, true) else []) + [Exit]
    case Call(callee, args) =>
      var loan := DetectBorrow(callee, args);
      if loan.Some? then [Take(loan.value.1, loan.value.0, tail)] + ListEvents(args[1..], false)
      else Events(callee, false) + ListEvents(args, false)
    case Return(value) => if value.Some? then Events(value.value, true) else []
    case If(cond, thenBranch, elseBranch) =>
      Events(cond, false) + Events(thenBranch, tail) + (if elseBranch.Some? then Events(elseBranch.value, tail) else [])
    case Match(scrutinee, arms) => Events(scrutinee, false) + ArmEvents(arms, tail)
    case Construct(_, args) => ListEvents(args, false)
    case Tuple(items) => ListEvents(items, false)
    case Record(fields) => FieldEvents(fields)
    case Try(inner) => Events(inner, false)
    case Field(base, _) => Events(base, false)
    case Binary(_, lhs, rhs) => Events(lhs, false) + Events(rhs, false)
    case Unary(_, operand) => Events(operand, false)
    case Lambda(_, body) => [Enter] + Events(body, false) + [Exit]
    case InterpString(parts) => PartEvents(parts)
    case _ => []
  }

  function StmtEvent(s: Stmt): seq<Event>
    decreases s
  {
    match s
    case Let(name, _, init) => Events(init, false) + [Declare(name)]
    case Do(e) => Events(e, false)
    case ReturnStmt(value) => if value.Some? then Events(value.value, true) else []
  }

  function StmtEvents(stmts: seq<Stmt>): seq<Event>
    decreases stmts
  {
    if stmts == [] then [] else StmtEvents(stmts[..|stmts| - 1]) + StmtEvent(stmts[|stmts| - 1])
  }

  function ListEvents(es: seq<Expr>, tail: bool): seq<Event>
    decreases es
  {
    if es == [] then [] else ListEvents(es[..|es| - 1], tail) + Events(es[|es| - 1], tail)
  }

  function ArmEvents(arms: seq<Arm>, tail: bool): seq<Event>
    decreases arms
  {
    if arms == [] then [] else ArmEvents(arms[..|arms| - 1], tail) + ArmEvent(arms[|arms| - 1], tail)
  }

  function ArmEvent(arm: Arm, tail: bool): seq<Event>
    decreases arm
  {
    Events(arm.body, tail)
  }

  function FieldEvents(fields: seq<FieldInit>): seq<Event>
    decreases fields
  {
    if fields == [] then [] else FieldEvents(fields[..|fields| - 1]) + Events(fields[|fields| - 1].value, false)
  }

  function PartEvents(parts: seq<Part>): seq<Event>
    decreases parts
  {
    if parts == [] then [] else PartEvents(parts[..|parts| - 1]) + PartEvent(parts[|parts| - 1])
  }

  function PartEvent(part: Part): seq<Event>
    decreases part
  {
    if part.Hole? then Events(part.e, false) else []
  }

  // ---------------------------------------------------------------------
  // What the events report
  // ---------------------------------------------------------------------

  /** Two borrows of one name that may not both be live. */
  predicate Clashes(a: Mode, b: Mode) {
    !(a.Shared? && b.Shared?)
  }

  /** The mode of the first live borrow that clashes with a new one. */
  function FirstClash(loans: seq<LiveBorrow>, mode: Mode): Option<Mode> {
    if loans == [] then None
    else
      var before := FirstClash(loans[..|loans| - 1], mode);
      if before.Some? then before
      else if Clashes(loans[|loans| - 1].mode, mode) then Some(loans[|loans| - 1].mode)
      else None
  }

  function Apply(s: Stack, ev: Event): Stack {
    match ev
    case Enter => Entered(s)
    case Exit => Exited(s)
    case Declare(name) => Declared(s, name)
    case Take(target, mode, _) => Borrowed(s, target, mode)
  }

  function Reports(s: Stack, ev: Event): seq<Diag> {
    if !ev.Take? then []
    else
      var clash := FirstClash(BorrowsOf(Live(s.frames), ev.target), ev.mode);
      (if ev.tail && IsLocal(s.frames, ev.target) then [Escape(ev.target, ev.mode)] else [])
      + (if clash.Some? then [Conflict(ev.target, ev.mode, clash.value)] else [])
  }

  datatype Ran = Ran(stack: Stack, diags: seq<Diag>)

  function Run(s: Stack, evs: seq<Event>): Ran {
    if evs == [] then Ran(s, [])
    else
      var before := Run(s, evs[..|evs| - 1]);
      var last := evs[|evs| - 1];
      Ran(Apply(before.stack, last), before.diags + Reports(before.stack, last))
  }

  lemma RunSnoc(s: Stack, evs: seq<Event>, ev: Event)
    ensures Run(s, evs + [ev]).stack == Apply(Run(s, evs).stack, ev)
    ensures Run(s, evs + [ev]).diags == Run(s, evs).diags + Reports(Run(s, evs).stack, ev)
  {
    assert (evs + [ev])[..|evs|] == evs;
  }

  lemma {:induction false} RunAppend(s: Stack, a: seq<Event>, b: seq<Event>)
    ensures Run(s, a + b).stack == Run(Run(s, a).stack, b).stack
    ensures Run(s, a + b).diags == Run(s, a).diags + Run(Run(s, a).stack, b).diags
    decreases |b|
  {
    if b == [] {
      assert a + b == a;
    } else {
      var init, last := b[..|b| - 1], b[|b| - 1];
      assert b == init + [last];
      assert a + b == a + init + [last];
      RunAppend(s, a, init);
      RunSnoc(s, a + init, last);
      RunSnoc(Run(s, a).stack, init, last);
      Associative(Run(s, a).diags, Run(Run(s, a).stack, init).diags, Reports(Run(s, a + init).stack, last));
    }
  }

  /** From one region stack and diagnostic list to another by the events. */
  ghost predicate Did(s: Stack, before: seq<Diag>, evs: seq<Event>, t: Stack, after: seq<Diag>) {
    t == Run(s, evs).stack && after == before + Run(s, evs).diags
  }

  lemma DidThen(s: Stack, d: seq<Diag>, a: seq<Event>, t: Stack, e: seq<Diag>, b: seq<Event>, u: Stack, f: seq<Diag>)
    requires Did(s, d, a, t, e) && Did(t, e, b, u, f)
    ensures Did(s, d, a + b, u, f)
  {
    RunAppend(s, a, b);
    Associative(d, Run(s, a).diags, Run(t, b).diags);
  }

  lemma DidOne(s: Stack, d: seq<Diag>, ev: Event)
    ensures Did(s, d, [ev], Apply(s, ev), d + Reports(s, ev))
  {
    assert [ev][..0] == [];
    assert Run(s, []) == Ran(s, []);
  }

  lemma DidNothing(s: Stack, d: seq<Diag>)
    ensures Did(s, d, [], s, d)
  {
  }

  // ---------------------------------------------------------------------
  // The walker
  // ---------------------------------------------------------------------

  method FindConflict(regions: RegionMap, name: string, mode: Mode) returns (r: Option<Mode>)
    requires regions.Valid()
    ensures r == FirstClash(BorrowsOf(Live(regions.View().frames), name), mode)
  {
    var loans := regions.LoansOf(name);
    for i := 0 to |loans|
      invariant FirstClash(loans[..i], mode) == None
    {
      assert loans[..i + 1][..i] == loans[..i];
      if !(loans[i].mode.Shared? && mode.Shared?) {
        FirstClashStays(loans, i + 1, mode);
        return Some(loans[i].mode);
      }
    }
    assert loans[..|loans|] == loans;
    return None;
  }

  lemma {:induction false} FirstClashStays(loans: seq<LiveBorrow>, k: nat, mode: Mode)
    requires k <= |loans| && FirstClash(loans[..k], mode).Some?
    ensures FirstClash(loans, mode) == FirstClash(loans[..k], mode)
    decreases |loans| - k
  {
    if k == |loans| {
      assert loans[..k] == loans;
    } else {
      assert loans[..k + 1][..k] == loans[..k];
      FirstClashStays(loans, k + 1, mode);
    }
  }

  method ReportBorrow(target: string, mode: Mode, tail: bool, regions: RegionMap, out: seq<Diag>) returns (r: seq<Diag>)
    requires regions.Valid()
    ensures r == out + Reports(regions.View(), Take(target, mode, tail))
  {
    var found: seq<Diag> := [];
    if tail {
      var isLocal := regions.Holds(target);
      if isLocal {
        found := [Escape(target, mode)];
      }
    }
    var conflict := FindConflict(regions, target, mode);
    if conflict.Some? {
      found := found + [Conflict(target, mode, conflict.value)];
    }
    r := out + found;
  }

  /** One borrow: check escape and conflict against the live regions, then record it. */
  method TakeBorrow(target: string, mode: Mode, tail: bool, regions: RegionMap, out: seq<Diag>) returns (r: seq<Diag>)
    requires regions.Valid()
    modifies regions
    ensures regions.Valid() && Did(old(regions.View()), out, [Take(target, mode, tail)], regions.View(), r)
  {
    DidOne(regions.View(), out, Take(target, mode, tail));
    r := ReportBorrow(target, mode, tail, regions, out);
    var _ := regions.AddBorrow(target, mode);
  }

  method WalkEnter(regions: RegionMap, ghost out: seq<Diag>)
    requires regions.Valid()
    modifies regions
    ensures regions.Valid() && Did(old(regions.View()), out, [Enter], regions.View(), out)
  {
    DidOne(regions.View(), out, Enter);
    var _ := regions.Enter();
  }

  method WalkExit(regions: RegionMap, ghost out: seq<Diag>)
    requires regions.Valid()
    modifies regions
    ensures regions.Valid() && Did(old(regions.View()), out, [Exit], regions.View(), out)
  {
    DidOne(regions.View(), out, Exit);
    regions.Exit();
  }

  method Walk(e: Expr, tail: bool, regions: RegionMap, out: seq<Diag>) returns (r: seq<Diag>)
    requires regions.Valid()
    modifies regions
    ensures regions.Valid() && Did(old(regions.View()), out, Events(e, tail), regions.View(), r)
    decreases e
  {
    match e {
      case Block(_, _) => r := WalkBlock(e, regions, out);
      case Call(_, _) => r := WalkCall(e, tail, regions, out);
      case Return(Some(value)) => r := Walk(value, true, regions, out);
      case If(_, _, _) => r := WalkIf(e, tail, regions, out);
      case Match(_, _) => r := WalkMatch(e, tail, regions, out);
      case Lambda(_, _) => r := WalkLambda(e, regions, out);
      case _ => r := WalkData(e, tail, regions, out);
    }
  }

  predicate IsData(e: Expr) {
    !e.Block? && !e.Call? && !e.If? && !e.Match? && !e.Lambda? && (e.Return? ==> e.value.None?)
  }

  /** Expressions that only walk their operands, left to right. */
  method WalkData(e: Expr, ghost tail: bool, regions: RegionMap, out: seq<Diag>) returns (r: seq<Diag>)
    requires IsData(e) && regions.Valid()
    modifies regions
    ensures regions.Valid() && Did(old(regions.View()), out, Events(e, tail), regions.View(), r)
    decreases e, 1
  {
    DidNothing(regions.View(), out);
    match e {
      case Construct(_, args) => r := WalkAll(args, regions, out);
      case Tuple(items) => r := WalkAll(items, regions, out);
      case Record(fields) => r := WalkFields(fields, regions, out);
      case Try(inner) => r := WalkOperand(e, inner, regions, out);
      case Field(base, _) => r := WalkOperand(e, base, regions, out);
      case Binary(_, _, _) => r := WalkBinary(e, regions, out);
      case Unary(_, operand) => r := WalkOperand(e, operand, regions, out);
      case InterpString(parts) => r := WalkParts(parts, regions, out);
      case _ => r := out;
    }
  }

  method WalkOperand(ghost e: Expr, operand: Expr, regions: RegionMap, out: seq<Diag>) returns (r: seq<Diag>)
    requires e == Try(operand) || (e.Field? && e.base == operand) || (e.Unary? && e.operand == operand)
    requires regions.Valid()
    modifies regions
    ensures regions.Valid() && forall tail :: Did(old(regions.View()), out, Events(e, tail), regions.View(), r)
    decreases e, 0
  {
    assert forall tail :: Events(e, tail) == Events(operand, false);
    r := Walk(operand, false, regions, out);
  }

  method WalkBinary(e: Expr, regions: RegionMap, out: seq<Diag>) returns (r: seq<Diag>)
    requires e.Binary? && regions.Valid()
    modifies regions
    ensures regions.Valid() && forall tail :: Did(old(regions.View()), out, Events(e, tail), regions.View(), r)
    decreases e, 0
  {
    ghost var s0 := regions.View();
    r := Walk(e.lhs, false, regions, out);
    ghost var s1, r1 := regions.View(), r;
    r := Walk(e.rhs, false, regions, r);
    DidThen(s0, out, Events(e.lhs, false), s1, r1, Events(e.rhs, false), regions.View(), r);
  }

  method WalkBlock(e: Expr, regions: RegionMap, out: seq<Diag>) returns (r: seq<Diag>)
    requires e.Block? && regions.Valid()
    modifies regions
    ensures regions.Valid() && forall tail :: Did(old(regions.View()), out, Events(e, tail), regions.View(), r)
    decreases e, 0
  {
    ghost var s0 := regions.View();
    WalkEnter(regions, out);
    ghost var s1 := regions.View();
    r := WalkStmts(e.stmts, regions, out);
    ghost var s2, done := regions.View(), [Enter] + StmtEvents(e.stmts);
    DidThen(s0, out, [Enter], s1, out, StmtEvents(e.stmts), s2, r);
    if e.tail.Some? {
      ghost var before := r;
      r := Walk(e.tail.value, true, regions, r);
      DidThen(s0, out, done, s2, before, Events(e.tail.value, true), regions.View(), r);
      done := done + Events(e.tail.value, true);
    }
    ghost var s3 := regions.View();
    WalkExit(regions, r);
    DidThen(s0, out, done, s3, r, [Exit], regions.View(), r);
    assert [Enter] + StmtEvents(e.stmts) + [] == [Enter] + StmtEvents(e.stmts);
  }

  method WalkLambda(e: Expr, regions: RegionMap, out: seq<Diag>) returns (r: seq<Diag>)
    requires e.Lambda? && regions.Valid()
    modifies regions
    ensures regions.Valid() && forall tail :: Did(old(regions.View()), out, Events(e, tail), regions.View(), r)
    decreases e, 0
  {
    ghost var s0 := regions.View();
    WalkEnter(regions, out);
    ghost var s1 := regions.View();
    r := Walk(e.body, false, regions, out);
    ghost var s2 := regions.View();
    DidThen(s0, out, [Enter], s1, out, Events(e.body, false), s2, r);
    WalkExit(regions, r);
    DidThen(s0, out, [Enter] + Events(e.body, false), s2, r, [Exit], regions.View(), r);
  }

  method WalkCall(e: Expr, tail: bool, regions: RegionMap, out: seq<Diag>) returns (r: seq<Diag>)
    requires e.Call? && regions.Valid()
    modifies regions
    ensures regions.Valid() && Did(old(regions.View()), out, Events(e, tail), regions.View(), r)
    decreases e, 0
  {
    ghost var s0 := regions.View();
    var loan := DetectBorrow(e.callee, e.args);
    if loan.Some? {
      var (mode, target) := loan.value;
      r := TakeBorrow(target, mode, tail, regions, out);
      ghost var s1, r1 := regions.View(), r;
      r := WalkAll(e.args[1..], regions, r);
      DidThen(s0, out, [Take(target, mode, tail)], s1, r1, ListEvents(e.args[1..], false), regions.View(), r);
      return;
    }
    r := Walk(e.callee, false, regions, out);
    ghost var s1, r1 := regions.View(), r;
    r := WalkAll(e.args, regions, r);
    DidThen(s0, out, Events(e.callee, false), s1, r1, ListEvents(e.args, false), regions.View(), r);
  }

  method WalkIf(e: Expr, tail: bool, regions: RegionMap, out: seq<Diag>) returns (r: seq<Diag>)
    requires e.If? && regions.Valid()
    modifies regions
    ensures regions.Valid() && Did(old(regions.View()), out, Events(e, tail), regions.View(), r)
    decreases e, 0
  {
    ghost var s0, c, t := regions.View(), Events(e.cond, false), Events(e.thenBranch, tail);
    r := Walk(e.cond, false, regions, out);
    ghost var s1, r1 := regions.View(), r;
    r := Walk(e.thenBranch, tail, regions, r);
    ghost var s2, r2 := regions.View(), r;
    DidThen(s0, out, c, s1, r1, t, s2, r2);
    if e.elseBranch.Some? {
      r := Walk(e.elseBranch.value, tail, regions, r);
      DidThen(s0, out, c + t, s2, r2, Events(e.elseBranch.value, tail), regions.View(), r);
    } else {
      assert c + t + [] == c + t;
    }
  }

  method WalkMatch(e: Expr, tail: bool, regions: RegionMap, out: seq<Diag>) returns (r: seq<Diag>)
    requires e.Match? && regions.Valid()
    modifies regions
    ensures regions.Valid() && Did(old(regions.View()), out, Events(e, tail), regions.View(), r)
    decreases e, 0
  {
    ghost var s0 := regions.View();
    r := Walk(e.scrutinee, false, regions, out);
    ghost var s1, r1 := regions.View(), r;
    r := WalkArms(e.arms, tail, regions, r);
    DidThen(s0, out, Events(e.scrutinee, false), s1, r1, ArmEvents(e.arms, tail), regions.View(), r);
  }

  method WalkStmt(stmt: Stmt, regions: RegionMap, out: seq<Diag>) returns (r: seq<Diag>)
    requires regions.Valid()
    modifies regions
    ensures regions.Valid() && Did(old(regions.View()), out, StmtEvent(stmt), regions.View(), r)
    decreases stmt
  {
    match stmt {
      case Let(name, _, init) =>
        ghost var s0 := regions.View();
        r := Walk(init, false, regions, out);
        ghost var s1 := regions.View();
        DidOne(s1, r, Declare(name));
        regions.DeclareLocal(name);
        DidThen(s0, out, Events(init, false), s1, r, [Declare(name)], regions.View(), r);
      case Do(e) => r := Walk(e, false, regions, out);
      case ReturnStmt(Some(e)) => r := Walk(e, true, regions, out);
      case ReturnStmt(None) =>
        DidNothing(regions.View(), out);
        r := out;
    }
  }

  method WalkStmts(stmts: seq<Stmt>, regions: RegionMap, out: seq<Diag>) returns (r: seq<Diag>)
    requires regions.Valid()
    modifies regions
    ensures regions.Valid() && Did(old(regions.View()), out, StmtEvents(stmts), regions.View(), r)
    decreases stmts
  {
    ghost var s0 := regions.View();
    DidNothing(s0, out);
    r := out;
    for i := 0 to |stmts|
      invariant regions.Valid() && Did(s0, out, StmtEvents(stmts[..i]), regions.View(), r)
    {
      ghost var s1, r1 := regions.View(), r;
      r := WalkStmt(stmts[i], regions, r);
      assert stmts[..i + 1][..i] == stmts[..i];
      DidThen(s0, out, StmtEvents(stmts[..i]), s1, r1, StmtEvent(stmts[i]), regions.View(), r);
    }
    assert stmts[..|stmts|] == stmts;
  }

  method WalkAll(es: seq<Expr>, regions: RegionMap, out: seq<Diag>) returns (r: seq<Diag>)
    requires regions.Valid()
    modifies regions
    ensures regions.Valid() && Did(old(regions.View()), out, ListEvents(es, false), regions.View(), r)
    decreases es
  {
    ghost var s0 := regions.View();
    DidNothing(s0, out);
    r := out;
    for i := 0 to |es|
      invariant regions.Valid() && Did(s0, out, ListEvents(es[..i], false), regions.View(), r)
    {
      ghost var s1, r1 := regions.View(), r;
      r := Walk(es[i], false, regions, r);
      assert es[..i + 1][..i] == es[..i];
      DidThen(s0, out, ListEvents(es[..i], false), s1, r1, Events(es[i], false), regions.View(), r);
    }
    assert es[..|es|] == es;
  }

  method WalkArms(arms: seq<Arm>, tail: bool, regions: RegionMap, out: seq<Diag>) returns (r: seq<Diag>)
    requires regions.Valid()
    modifies regions
    ensures regions.Valid() && Did(old(regions.View()), out, ArmEvents(arms, tail), regions.View(), r)
    decreases arms
  {
    ghost var s0 := regions.View();
    DidNothing(s0, out);
    r := out;
    for i := 0 to |arms|
      invariant regions.Valid() && Did(s0, out, ArmEvents(arms[..i], tail), regions.View(), r)
    {
      ghost var s1, r1 := regions.View(), r;
      r := WalkArm(arms[i], tail, regions, r);
      assert arms[..i + 1][..i] == arms[..i];
      DidThen(s0, out, ArmEvents(arms[..i], tail), s1, r1, ArmEvent(arms[i], tail), regions.View(), r);
    }
    assert arms[..|arms|] == arms;
  }

  method WalkArm(arm: Arm, tail: bool, regions: RegionMap, out: seq<Diag>) returns (r: seq<Diag>)
    requires regions.Valid()
    modifies regions
    ensures regions.Valid() && Did(old(regions.View()), out, ArmEvent(arm, tail), regions.View(), r)
    decreases arm
  {
    r := Walk(arm.body, tail, regions, out);
  }

  method WalkPart(part: Part, regions: RegionMap, out: seq<Diag>) returns (r: seq<Diag>)
    requires regions.Valid()
    modifies regions
    ensures regions.Valid() && Did(old(regions.View()), out, PartEvent(part), regions.View(), r)
    decreases part
  {
    DidNothing(regions.View(), out);
    r := out;
    if part.Hole? {
      r := Walk(part.e, false, regions, r);
    }
  }

  method WalkFields(fields: seq<FieldInit>, regions: RegionMap, out: seq<Diag>) returns (r: seq<Diag>)
    requires regions.Valid()
    modifies regions
    ensures regions.Valid() && Did(old(regions.View()), out, FieldEvents(fields), regions.View(), r)
    decreases fields
  {
    ghost var s0 := regions.View();
    DidNothing(s0, out);
    r := out;
    for i := 0 to |fields|
      invariant regions.Valid() && Did(s0, out, FieldEvents(fields[..i]), regions.View(), r)
    {
      ghost var s1, r1 := regions.View(), r;
      r := Walk(fields[i].value, false, regions, r);
      assert fields[..i + 1][..i] == fields[..i];
      DidThen(s0, out, FieldEvents(fields[..i]), s1, r1, Events(fields[i].value, false), regions.View(), r);
    }
    assert fields[..|fields|] == fields;
  }

  method WalkParts(parts: seq<Part>, regions: RegionMap, out: seq<Diag>) returns (r: seq<Diag>)
    requires regions.Valid()
    modifies regions
    ensures regions.Valid() && Did(old(regions.View()), out, PartEvents(parts), regions.View(), r)
    decreases parts
  {
    ghost var s0 := regions.View();
    DidNothing(s0, out);
    r := out;
    for i := 0 to |parts|
      invariant regions.Valid() && Did(s0, out, PartEvents(parts[..i]), regions.View(), r)
    {
      ghost var s1, r1 := regions.View(), r;
      assert parts[..i + 1][..i] == parts[..i];
      r := WalkPart(parts[i], regions, r);
      DidThen(s0, out, PartEvents(parts[..i]), s1, r1, PartEvent(parts[i]), regions.View(), r);
    }
    assert parts[..|parts|] == parts;
  }
}

/** What the borrow walk guarantees over a whole body. */
module BorrowLaws {
  import opened Wrappers
  import opened Ast
  import opened Regions
  import opened BorrowWalk

  // ---------------------------------------------------------------------
  // Aliasing
  // ---------------------------------------------------------------------

  /** Any two live borrows of one name are both shared. */
  predicate WellAliased(live: seq<LiveBorrow>) {
    forall i, j | 0 <= i < j < |live| && live[i].target == live[j].target :: !Clashes(live[i].mode, live[j].mode)
  }

  predicate ConflictFree(diags: seq<Diag>) {
    forall i | 0 <= i < |diags| :: !diags[i].Conflict?
  }

  predicate Compatible(live: seq<LiveBorrow>, target: string, mode: Mode) {
    forall i | 0 <= i < |live| && live[i].target == target :: !Clashes(live[i].mode, mode)
  }

  lemma {:induction false} FirstClashNone(loans: seq<LiveBorrow>, mode: Mode)
    ensures FirstClash(loans, mode).None? <==> forall i | 0 <= i < |loans| :: !Clashes(loans[i].mode, mode)
    decreases |loans|
  {
    if loans != [] {
      FirstClashNone(loans[..|loans| - 1], mode);
    }
  }

  lemma {:induction false} BorrowsOfMembers(live: seq<LiveBorrow>, target: string, b: LiveBorrow)
    ensures b in BorrowsOf(live, target) <==> b in live && b.target == target
    decreases |live|
  {
    if live != [] {
      BorrowsOfMembers(live[..|live| - 1], target, b);
      assert live == live[..|live| - 1] + [live[|live| - 1]];
    }
  }

  /** The `i`-th live borrow is the first of the name that clashes. */
  ghost predicate ClashesFirst(live: seq<LiveBorrow>, name: string, mode: Mode, i: nat) {
    && i < |live| && live[i].target == name && Clashes(live[i].mode, mode)
    && Compatible(live[..i], name, mode)
  }

  /** The mode found is that of the first live borrow of the name that clashes. */
  lemma {:induction false} FirstClashIsFirst(live: seq<LiveBorrow>, name: string, mode: Mode, found: Mode)
    ensures FirstClash(BorrowsOf(live, name), mode) == Some(found)
       <==> exists i: nat :: ClashesFirst(live, name, mode, i) && live[i].mode == found
    decreases |live|
  {
    if live != [] {
      var init, n := live[..|live| - 1], |live| - 1;
      FirstClashIsFirst(init, name, mode, found);
      forall i: nat | i < n ensures ClashesFirst(init, name, mode, i) <==> ClashesFirst(live, name, mode, i) {
        assert init[..i] == live[..i];
      }
      ClashIffIncompatible(init, name, mode);
      LastClash(live, name, mode);
      if i: nat :| ClashesFirst(init, name, mode, i) && init[i].mode == found {
        assert ClashesFirst(live, name, mode, i) && live[i].mode == found;
      }
      EarlierClash(live, name, mode);
      if i: nat :| ClashesFirst(live, name, mode, i) && live[i].mode == found {
        assert i < n ==> ClashesFirst(init, name, mode, i);
      }
    }
  }

  /** A clash among the earlier borrows leaves none to be first at the end. */
  lemma EarlierClash(live: seq<LiveBorrow>, name: string, mode: Mode)
    requires live != []
    ensures ClashesFirst(live, name, mode, |live| - 1)
       <==> Compatible(live[..|live| - 1], name, mode) && live[|live| - 1].target == name && Clashes(live[|live| - 1].mode, mode)
  {
  }

  lemma LastClash(live: seq<LiveBorrow>, name: string, mode: Mode)
    requires live != []
    ensures var before, last := FirstClash(BorrowsOf(live[..|live| - 1], name), mode), live[|live| - 1];
            FirstClash(BorrowsOf(live, name), mode)
            == if before.Some? || last.target != name || !Clashes(last.mode, mode) then before else Some(last.mode)
  {
    var loans, earlier, last := BorrowsOf(live, name), BorrowsOf(live[..|live| - 1], name), live[|live| - 1];
    if last.target == name {
      assert loans == earlier + [last] && loans[..|loans| - 1] == earlier && loans[|loans| - 1] == last;
    } else {
      assert loans == earlier;
    }
  }

  /** The conflict search finds a clash exactly when some live borrow of the name clashes. */
  lemma ClashIffIncompatible(live: seq<LiveBorrow>, target: string, mode: Mode)
    ensures FirstClash(BorrowsOf(live, target), mode).None? <==> Compatible(live, target, mode)
  {
    var loans := BorrowsOf(live, target);
    FirstClashNone(loans, mode);
    forall b: LiveBorrow ensures b in loans <==> b in live && b.target == target {
      BorrowsOfMembers(live, target, b);
    }
    if Compatible(live, target, mode) {
      forall i | 0 <= i < |loans| ensures !Clashes(loans[i].mode, mode) {
        assert loans[i] in live;
      }
    } else {
      var i :| 0 <= i < |live| && live[i].target == target && Clashes(live[i].mode, mode);
      assert live[i] in loans;
    }
  }

  lemma AliasedSnoc(live: seq<LiveBorrow>, b: LiveBorrow)
    requires WellAliased(live)
    ensures WellAliased(live + [b]) <==> Compatible(live, b.target, b.mode)
  {
    if !Compatible(live, b.target, b.mode) {
      var i :| 0 <= i < |live| && live[i].target == b.target && Clashes(live[i].mode, b.mode);
      assert (live + [b])[i] == live[i] && (live + [b])[|live|] == b;
    }
  }

  /** How one event changes what is live. */
  lemma LiveAfter(s: Stack, ev: Event)
    ensures ev.Enter? || ev.Declare? ==> Live(Apply(s, ev).frames) == Live(s.frames)
    ensures ev.Exit? ==> Live(Apply(s, ev).frames) <= Live(s.frames)
    ensures ev.Take? && s.frames == [] ==> Apply(s, ev) == s
    ensures ev.Take? && s.frames != [] ==>
              Live(Apply(s, ev).frames) == Live(s.frames) + [LiveBorrow(ev.target, ev.mode, s.frames[|s.frames| - 1].id)]
  {
    var t := Apply(s, ev);
    if ev.Enter? {
      assert t.frames[..|t.frames| - 1] == s.frames;
    } else if s.frames != [] && !ev.Exit? {
      assert t.frames[..|t.frames| - 1] == s.frames[..|s.frames| - 1];
    }
  }

  lemma AliasedAfter(s: Stack, ev: Event)
    requires WellAliased(Live(s.frames))
    ensures WellAliased(Live(Apply(s, ev).frames)) <==> ConflictFree(Reports(s, ev))
  {
    LiveAfter(s, ev);
    if ev.Take? {
      ClashIffIncompatible(Live(s.frames), ev.target, ev.mode);
      if s.frames != [] {
        AliasedSnoc(Live(s.frames), LiveBorrow(ev.target, ev.mode, s.frames[|s.frames| - 1].id));
      }
      var clash := FirstClash(BorrowsOf(Live(s.frames), ev.target), ev.mode);
      if clash.Some? {
        assert Reports(s, ev)[|Reports(s, ev)| - 1].Conflict?;
      }
    }
  }

  ghost predicate AliasedAt(s: Stack, evs: seq<Event>, k: nat) {
    k <= |evs| ==> WellAliased(Live(Run(s, evs[..k]).stack.frames))
  }

  /** Before the walk and after each of its events, live borrows of one name are shared. */
  ghost predicate AlwaysAliased(s: Stack, evs: seq<Event>) {
    forall k: nat | k <= |evs| :: AliasedAt(s, evs, k)
  }

  lemma ConflictFreeJoin(a: seq<Diag>, b: seq<Diag>)
    ensures ConflictFree(a + b) <==> ConflictFree(a) && ConflictFree(b)
  {
    if ConflictFree(a + b) {
      assert forall i | 0 <= i < |a| :: (a + b)[i] == a[i];
      assert forall i | 0 <= i < |b| :: (a + b)[|a| + i] == b[i];
    }
  }

  lemma AliasedAtPrefix(s: Stack, evs: seq<Event>, n: nat, k: nat)
    requires k <= n <= |evs|
    ensures AliasedAt(s, evs[..n], k) <==> AliasedAt(s, evs, k)
  {
    assert evs[..n][..k] == evs[..k];
  }

  lemma AlwaysSnoc(s: Stack, evs: seq<Event>)
    requires evs != []
    ensures AlwaysAliased(s, evs) <==> AlwaysAliased(s, evs[..|evs| - 1]) && AliasedAt(s, evs, |evs|)
  {
    var n := |evs| - 1;
    forall k: nat | k <= n ensures AliasedAt(s, evs[..n], k) <==> AliasedAt(s, evs, k) {
      AliasedAtPrefix(s, evs, n, k);
    }
  }

  lemma AtEnd(s: Stack, evs: seq<Event>)
    ensures AliasedAt(s, evs, |evs|) <==> WellAliased(Live(Run(s, evs).stack.frames))
  {
    assert evs[..|evs|] == evs;
  }

  /** No B0070 is reported exactly when, at every moment of the walk, any two live borrows of one name
      are both shared. */
  lemma {:induction false} NoConflictIffWellAliased(s: Stack, evs: seq<Event>)
    requires WellAliased(Live(s.frames))
    ensures ConflictFree(Run(s, evs).diags) <==> AlwaysAliased(s, evs)
    decreases |evs|
  {
    AtEnd(s, evs);
    if evs == [] {
      assert evs[..0] == [];
    } else {
      var init, last := evs[..|evs| - 1], evs[|evs| - 1];
      var before := Run(s, init);
      NoConflictIffWellAliased(s, init);
      ConflictFreeJoin(before.diags, Reports(before.stack, last));
      AlwaysSnoc(s, evs);
      if AlwaysAliased(s, init) {
        assert AliasedAt(s, init, |init|);
        AtEnd(s, init);
        AliasedAfter(before.stack, last);
      }
    }
  }

  /** The region stack a body check starts from. */
  function Start(): Stack {
    Entered(Stack(0, []))
  }

  /** Aliasing soundness and completeness of the body check. */
  lemma BodyAliasing(body: Expr)
    ensures ConflictFree(Run(Start(), Events(body, false)).diags) <==> AlwaysAliased(Start(), Events(body, false))
  {
    assert Start().frames[..0] == [];
    assert Live(Start().frames) == [];
    NoConflictIffWellAliased(Start(), Events(body, false));
  }

  /** The `k`-th event borrows, in tail position, a name that some live region declared. */
  ghost predicate EscapesAt(s: Stack, evs: seq<Event>, k: nat, target: string, mode: Mode) {
    k < |evs| && evs[k] == Take(target, mode, true) && IsLocal(Run(s, evs[..k]).stack.frames, target)
  }

  lemma EscapesPrefix(s: Stack, evs: seq<Event>, n: nat, k: nat, target: string, mode: Mode)
    requires k < n <= |evs|
    ensures EscapesAt(s, evs[..n], k, target, mode) <==> EscapesAt(s, evs, k, target, mode)
  {
    assert evs[..n][..k] == evs[..k];
  }

  ghost predicate Escapes(s: Stack, evs: seq<Event>, target: string, mode: Mode) {
    exists k: nat :: EscapesAt(s, evs, k, target, mode)
  }

  lemma EscapesSnoc(s: Stack, evs: seq<Event>, target: string, mode: Mode)
    requires evs != []
    ensures var n := |evs| - 1;
            Escapes(s, evs, target, mode) <==> Escapes(s, evs[..n], target, mode) || EscapesAt(s, evs, n, target, mode)
  {
    var n := |evs| - 1;
    forall k: nat | k < n ensures EscapesAt(s, evs[..n], k, target, mode) <==> EscapesAt(s, evs, k, target, mode) {
      EscapesPrefix(s, evs, n, k, target, mode);
    }
  }

  lemma ReportsEscape(s: Stack, evs: seq<Event>, target: string, mode: Mode)
    requires evs != []
    ensures var n := |evs| - 1;
            Escape(target, mode) in Reports(Run(s, evs[..n]).stack, evs[n]) <==> EscapesAt(s, evs, n, target, mode)
  {
  }

  /** An escape is reported exactly for a tail borrow of a name that is then local. */
  lemma {:induction false} EscapeIffLocal(s: Stack, evs: seq<Event>, target: string, mode: Mode)
    ensures Escape(target, mode) in Run(s, evs).diags <==> Escapes(s, evs, target, mode)
    decreases |evs|
  {
    if evs != [] {
      EscapeIffLocal(s, evs[..|evs| - 1], target, mode);
      EscapesSnoc(s, evs, target, mode);
      ReportsEscape(s, evs, target, mode);
    }
  }

  // ---------------------------------------------------------------------
  // Region discipline
  // ---------------------------------------------------------------------

  /** Only the deepest region changes, and it only gains locals and borrows. */
  ghost predicate Grows(f: seq<Frame>, g: seq<Frame>) {
    && f != [] && |f| == |g| && f[..|f| - 1] == g[..|g| - 1]
    && GrowsFrame(f[|f| - 1], g[|g| - 1])
  }

  predicate GrowsFrame(a: Frame, b: Frame) {
    a.id == b.id && a.locals <= b.locals && a.borrows <= b.borrows
  }

  ghost predicate Good(s: Stack, evs: seq<Event>) {
    s.frames != [] ==> Grows(s.frames, Run(s, evs).stack.frames)
  }

  lemma GoodJoin(s: Stack, a: seq<Event>, b: seq<Event>)
    requires Good(s, a) && Good(Run(s, a).stack, b)
    ensures Good(s, a + b)
  {
    RunAppend(s, a, b);
  }

  lemma RunOne(s: Stack, ev: Event)
    ensures Run(s, [ev]) == Ran(Apply(s, ev), Reports(s, ev))
  {
    assert [ev][..0] == [];
    assert Run(s, []) == Ran(s, []) && [] + Reports(s, ev) == Reports(s, ev);
  }

  lemma GoodOne(s: Stack, ev: Event)
    requires ev.Declare? || ev.Take?
    ensures Good(s, [ev])
  {
    RunOne(s, ev);
  }

  /** Entering, doing well-behaved events and leaving restores every region exactly. */
  lemma ScopeRestores(s: Stack, inner: seq<Event>)
    requires Good(Entered(s), inner)
    ensures Run(s, [Enter] + inner + [Exit]).stack.frames == s.frames
  {
    RunOne(s, Enter);
    RunAppend(s, [Enter], inner);
    var mid := Run(s, [Enter] + inner).stack;
    RunOne(mid, Exit);
    RunAppend(s, [Enter] + inner, [Exit]);
    assert Entered(s).frames[..|s.frames|] == s.frames;
  }

  lemma RestoredIsGood(s: Stack, evs: seq<Event>)
    requires Run(s, evs).stack.frames == s.frames
    ensures Good(s, evs)
  {
  }

  lemma GoodNothing(s: Stack)
    ensures Good(s, [])
  {
  }

  /** Walking any expression leaves all enclosing regions alone and only adds to the deepest one. */
  lemma {:induction false} WalkOnlyAppends(e: Expr, tail: bool, s: Stack)
    ensures Good(s, Events(e, tail))
    decreases e
  {
    match e
    case Block(_, _) =>
      BlockRestores(e, tail, s);
      RestoredIsGood(s, Events(e, tail));
    case Lambda(_, body) =>
      LambdaRestores(e, tail, s);
      RestoredIsGood(s, Events(e, tail));
    case Call(_, _) => CallAppends(e, tail, s);
    case Return(Some(value)) => WalkOnlyAppends(value, true, s);
    case If(_, _, _) => IfAppends(e, tail, s);
    case Match(_, _) => MatchAppends(e, tail, s);
    case _ => DataAppends(e, tail, s);
  }

  lemma {:induction false} DataAppends(e: Expr, tail: bool, s: Stack)
    requires IsData(e)
    ensures Good(s, Events(e, tail))
    decreases e, 1
  {
    match e
    case Construct(_, args) => ListAppends(args, false, s);
    case Tuple(items) => ListAppends(items, false, s);
    case Record(fields) => FieldsAppend(fields, s);
    case Try(_) => OperandAppends(e, tail, s);
    case Field(_, _) => OperandAppends(e, tail, s);
    case Binary(_, _, _) => BinaryAppends(e, tail, s);
    case Unary(_, _) => OperandAppends(e, tail, s);
    case InterpString(parts) => PartsAppend(parts, s);
    case _ => GoodNothing(s);
  }

  lemma {:induction false} OperandAppends(e: Expr, tail: bool, s: Stack)
    requires e.Try? || e.Field? || e.Unary?
    ensures Good(s, Events(e, tail))
    decreases e, 0
  {
    var operand := if e.Try? then e.inner else if e.Field? then e.base else e.operand;
    assert Events(e, tail) == Events(operand, false);
    WalkOnlyAppends(operand, false, s);
  }

  lemma {:induction false} BinaryAppends(e: Expr, tail: bool, s: Stack)
    requires e.Binary?
    ensures Good(s, Events(e, tail))
    decreases e, 0
  {
    WalkOnlyAppends(e.lhs, false, s);
    WalkOnlyAppends(e.rhs, false, Run(s, Events(e.lhs, false)).stack);
    GoodJoin(s, Events(e.lhs, false), Events(e.rhs, false));
  }

  lemma {:induction false} MatchAppends(e: Expr, tail: bool, s: Stack)
    requires e.Match?
    ensures Good(s, Events(e, tail))
    decreases e, 0
  {
    WalkOnlyAppends(e.scrutinee, false, s);
    ArmsAppend(e.arms, tail, Run(s, Events(e.scrutinee, false)).stack);
    GoodJoin(s, Events(e.scrutinee, false), ArmEvents(e.arms, tail));
  }

  lemma {:induction false} CallAppends(e: Expr, tail: bool, s: Stack)
    requires e.Call?
    ensures Good(s, Events(e, tail))
    decreases e, 0
  {
    var loan := DetectBorrow(e.callee, e.args);
    if loan.Some? {
      var take := Take(loan.value.1, loan.value.0, tail);
      GoodOne(s, take);
      ListAppends(e.args[1..], false, Run(s, [take]).stack);
      GoodJoin(s, [take], ListEvents(e.args[1..], false));
    } else {
      WalkOnlyAppends(e.callee, false, s);
      ListAppends(e.args, false, Run(s, Events(e.callee, false)).stack);
      GoodJoin(s, Events(e.callee, false), ListEvents(e.args, false));
    }
  }

  lemma {:induction false} IfAppends(e: Expr, tail: bool, s: Stack)
    requires e.If?
    ensures Good(s, Events(e, tail))
    decreases e, 0
  {
    var c, t := Events(e.cond, false), Events(e.thenBranch, tail);
    WalkOnlyAppends(e.cond, false, s);
    WalkOnlyAppends(e.thenBranch, tail, Run(s, c).stack);
    GoodJoin(s, c, t);
    if e.elseBranch.Some? {
      WalkOnlyAppends(e.elseBranch.value, tail, Run(s, c + t).stack);
      GoodJoin(s, c + t, Events(e.elseBranch.value, tail));
    } else {
      assert c + t + [] == c + t;
    }
  }

  /** A block leaves every region, its locals and its borrows exactly as they were. */
  lemma {:induction false} BlockRestores(e: Expr, tail: bool, s: Stack)
    requires e.Block?
    ensures Run(s, Events(e, tail)).stack.frames == s.frames
    decreases e, 1
  {
    var stmts := StmtEvents(e.stmts);
    var last := if e.tail.Some? then Events(e.tail.value, true) else [];
    BlockInside(e, Entered(s), stmts, last);
    ScopeRestores(s, stmts + last);
    Regroup(stmts, last);
  }

  lemma Regroup(a: seq<Event>, b: seq<Event>)
    ensures [Enter] + a + b + [Exit] == [Enter] + (a + b) + [Exit]
  {
  }

  lemma {:induction false} BlockInside(e: Expr, s: Stack, stmts: seq<Event>, last: seq<Event>)
    requires e.Block? && stmts == StmtEvents(e.stmts)
    requires last == if e.tail.Some? then Events(e.tail.value, true) else []
    ensures Good(s, stmts + last)
    decreases e, 0
  {
    StmtsAppend(e.stmts, s);
    if e.tail.Some? {
      WalkOnlyAppends(e.tail.value, true, Run(s, stmts).stack);
    } else {
      GoodNothing(Run(s, stmts).stack);
    }
    GoodJoin(s, stmts, last);
  }

  /** So does a lambda. */
  lemma {:induction false} LambdaRestores(e: Expr, tail: bool, s: Stack)
    requires e.Lambda?
    ensures Run(s, Events(e, tail)).stack.frames == s.frames
    decreases e, 0
  {
    WalkOnlyAppends(e.body, false, Entered(s));
    ScopeRestores(s, Events(e.body, false));
  }

  lemma {:induction false} StmtAppends(stmt: Stmt, s: Stack)
    ensures Good(s, StmtEvent(stmt))
    decreases stmt
  {
    match stmt
    case Let(name, _, init) =>
      WalkOnlyAppends(init, false, s);
      GoodOne(Run(s, Events(init, false)).stack, Declare(name));
      GoodJoin(s, Events(init, false), [Declare(name)]);
    case Do(e) => WalkOnlyAppends(e, false, s);
    case ReturnStmt(value) =>
      if value.Some? {
        WalkOnlyAppends(value.value, true, s);
      }
  }

  lemma {:induction false} StmtsAppend(stmts: seq<Stmt>, s: Stack)
    ensures Good(s, StmtEvents(stmts))
    decreases stmts
  {
    if stmts != [] {
      var n := |stmts| - 1;
      StmtsAppend(stmts[..n], s);
      StmtAppends(stmts[n], Run(s, StmtEvents(stmts[..n])).stack);
      GoodJoin(s, StmtEvents(stmts[..n]), StmtEvent(stmts[n]));
    }
  }

  lemma {:induction false} ListAppends(es: seq<Expr>, tail: bool, s: Stack)
    ensures Good(s, ListEvents(es, tail))
    decreases es
  {
    if es != [] {
      var n := |es| - 1;
      ListAppends(es[..n], tail, s);
      WalkOnlyAppends(es[n], tail, Run(s, ListEvents(es[..n], tail)).stack);
      GoodJoin(s, ListEvents(es[..n], tail), Events(es[n], tail));
    }
  }

  lemma {:induction false} ArmAppends(arm: Arm, tail: bool, s: Stack)
    ensures Good(s, ArmEvent(arm, tail))
    decreases arm
  {
    WalkOnlyAppends(arm.body, tail, s);
  }

  lemma {:induction false} ArmsAppend(arms: seq<Arm>, tail: bool, s: Stack)
    ensures Good(s, ArmEvents(arms, tail))
    decreases arms
  {
    if arms != [] {
      var n := |arms| - 1;
      ArmsAppend(arms[..n], tail, s);
      ArmAppends(arms[n], tail, Run(s, ArmEvents(arms[..n], tail)).stack);
      GoodJoin(s, ArmEvents(arms[..n], tail), ArmEvent(arms[n], tail));
    }
  }

  lemma {:induction false} FieldsAppend(fields: seq<FieldInit>, s: Stack)
    ensures Good(s, FieldEvents(fields))
    decreases fields
  {
    if fields != [] {
      var n := |fields| - 1;
      FieldsAppend(fields[..n], s);
      WalkOnlyAppends(fields[n].value, false, Run(s, FieldEvents(fields[..n])).stack);
      GoodJoin(s, FieldEvents(fields[..n]), Events(fields[n].value, false));
    }
  }

  lemma {:induction false} PartAppends(part: Part, s: Stack)
    ensures Good(s, PartEvent(part))
    decreases part
  {
    if part.Hole? {
      WalkOnlyAppends(part.e, false, s);
    }
  }

  lemma {:induction false} PartsAppend(parts: seq<Part>, s: Stack)
    ensures Good(s, PartEvents(parts))
    decreases parts
  {
    if parts != [] {
      var n := |parts| - 1;
      PartsAppend(parts[..n], s);
      PartAppends(parts[n], Run(s, PartEvents(parts[..n])).stack);
      GoodJoin(s, PartEvents(parts[..n]), PartEvent(parts[n]));
    }
  }
}

/** What a body check reports, stated on the body itself: B0070 and B0080 in terms of the places of its
    borrows, without the walk and without its region tracker. */
module BorrowMeaning {
  import opened Wrappers
  import opened Ast
  import opened Regions
  import opened BorrowWalk
  import opened BorrowLaws
  import opened BorrowPlaces
  import opened BorrowSteps

  lemma DetectMeans(e: Expr, x: string, m: Mode)
    ensures e.Call? ==> (DetectBorrow(e.callee, e.args) == Some((m, x)) <==> IsLoan(e, x, m))
  {
  }

  // ---------------------------------------------------------------------
  // What is live and local in a region stack
  // ---------------------------------------------------------------------

  ghost predicate Lives(s: Stack, x: string, m: Mode) {
    exists b :: b in Live(s.frames) && b.target == x && b.mode == m
  }

  ghost predicate AtOdds(m: Mode, n: Mode) {
    m.Mut? || n.Mut?
  }

  /** The regions and what is in them, as far as reports go. */
  ghost predicate Alike(s: Stack, t: Stack) {
    && (forall x, m :: Lives(s, x, m) <==> Lives(t, x, m))
    && (forall x :: IsLocal(s.frames, x) <==> IsLocal(t.frames, x))
  }

  lemma EnterAlike(s: Stack)
    ensures Alike(s, Apply(s, Enter)) && Apply(s, Enter).frames != []
  {
    LiveAfter(s, Enter);
    var t := Apply(s, Enter);
    forall x ensures IsLocal(s.frames, x) <==> IsLocal(t.frames, x) {
      forall i | 0 <= i < |s.frames| ensures t.frames[i] == s.frames[i] {
      }
    }
  }

  lemma TakeAdds(s: Stack, x: string, m: Mode, tail: bool)
    requires s.frames != []
    ensures var t := Apply(s, Take(x, m, tail));
            && t.frames != []
            && (forall y, n :: Lives(t, y, n) <==> Lives(s, y, n) || (y == x && n == m))
            && (forall y :: IsLocal(t.frames, y) <==> IsLocal(s.frames, y))
  {
    var t := Apply(s, Take(x, m, tail));
    LiveAfter(s, Take(x, m, tail));
    var added := Live(t.frames)[|Live(t.frames)| - 1];
    assert added in Live(t.frames) && added.target == x && added.mode == m;
    forall i | 0 <= i < |s.frames| ensures t.frames[i].locals == s.frames[i].locals {
    }
  }

  lemma DeclareAdds(s: Stack, x: string)
    requires s.frames != []
    ensures var t := Apply(s, Declare(x));
            && t.frames != []
            && (forall y, n :: Lives(t, y, n) <==> Lives(s, y, n))
            && (forall y :: IsLocal(t.frames, y) <==> IsLocal(s.frames, y) || y == x)
  {
    var t, last := Apply(s, Declare(x)), |s.frames| - 1;
    LiveAfter(s, Declare(x));
    forall i | 0 <= i < last ensures t.frames[i] == s.frames[i] {
    }
    assert t.frames[last].locals == s.frames[last].locals + {x};
  }

  /** A borrow is reported to clash exactly when one at odds with it is live. */
  lemma TakeReports(s: Stack, x: string, m: Mode, tail: bool)
    ensures ConflictFree(Reports(s, Take(x, m, tail))) <==> forall n | Lives(s, x, n) :: !AtOdds(n, m)
    ensures forall y, n :: Escape(y, n) in Reports(s, Take(x, m, tail)) <==> tail && y == x && n == m && IsLocal(s.frames, x)
  {
    ClashIffIncompatible(Live(s.frames), x, m);
    var clash := FirstClash(BorrowsOf(Live(s.frames), x), m);
    var reports := Reports(s, Take(x, m, tail));
    if clash.Some? {
      assert reports[|reports| - 1].Conflict?;
      var i :| 0 <= i < |Live(s.frames)| && Live(s.frames)[i].target == x && Clashes(Live(s.frames)[i].mode, m);
      assert Lives(s, x, Live(s.frames)[i].mode);
    }
  }

  // ---------------------------------------------------------------------
  // What an expression is to report
  // ---------------------------------------------------------------------

  ghost predicate Harmless(e: Expr) {
    forall p, q :: !Collide(e, p, q)
  }

  /** No borrow in `e` is at odds with one that is live before it. */
  ghost predicate Admits(s: Stack, e: Expr) {
    forall q, x, m, n | Lives(s, x, m) && Loan(e, q, x, n) :: !AtOdds(m, n)
  }

  ghost predicate Leaves(e: Expr, x: string, m: Mode) {
    exists p :: Loan(e, p, x, m) && Open(e, p)
  }

  /** A tail borrow of `x`, which is local there. */
  ghost predicate EscapesIn(s: Stack, e: Expr, tail: bool, x: string, m: Mode) {
    exists q :: Loan(e, q, x, m) && TailAt(e, tail, q) && (IsLocal(s.frames, x) || LocalAt(e, q, x))
  }

  /** The events of `e`, run from `s`, report and leave what the places of `e` say. */
  ghost predicate Meant(e: Expr, tail: bool, s: Stack) {
    var r := Run(s, Events(e, tail));
    && r.stack.frames != []
    && (ConflictFree(r.diags) <==> Harmless(e) && Admits(s, e))
    && (forall x, m :: Lives(r.stack, x, m) <==> Lives(s, x, m) || Leaves(e, x, m))
    && (forall x, m :: Escape(x, m) in r.diags <==> EscapesIn(s, e, tail, x, m))
    && (forall x :: IsLocal(r.stack.frames, x) <==> IsLocal(s.frames, x))
  }

  // The same for the first `n` children.

  predicate Under(p: Place, n: nat) {
    p != [] && p[0] < n
  }

  ghost predicate HarmlessUnder(e: Expr, n: nat) {
    forall p, q | Under(p, n) && Under(q, n) :: !Collide(e, p, q)
  }

  ghost predicate AdmitsUnder(s: Stack, e: Expr, n: nat) {
    forall q, x, m, k | Under(q, n) && Lives(s, x, m) && Loan(e, q, x, k) :: !AtOdds(m, k)
  }

  ghost predicate LeavesUnder(e: Expr, n: nat, x: string, m: Mode) {
    exists p :: Under(p, n) && Loan(e, p, x, m) && OpenBelow(e, p)
  }

  ghost predicate EscapesUnder(s: Stack, e: Expr, n: nat, tail: bool, x: string, m: Mode) {
    exists q :: Under(q, n) && Loan(e, q, x, m) && TailAt(e, tail, q) && (IsLocal(s.frames, x) || LocalAt(e, q, x))
  }

  ghost predicate ConflictsUnder(e: Expr, n: nat, s: Stack, diags: seq<Diag>) {
    ConflictFree(diags) <==> HarmlessUnder(e, n) && AdmitsUnder(s, e, n)
  }

  ghost predicate LivesUnder(e: Expr, n: nat, s: Stack, t: Stack) {
    forall x, m :: Lives(t, x, m) <==> Lives(s, x, m) || LeavesUnder(e, n, x, m)
  }

  ghost predicate ReportsUnder(e: Expr, tail: bool, n: nat, s: Stack, diags: seq<Diag>) {
    forall x, m :: Escape(x, m) in diags <==> EscapesUnder(s, e, n, tail, x, m)
  }

  ghost predicate LocalUnder(e: Expr, n: nat, s: Stack, t: Stack) {
    forall x :: IsLocal(t.frames, x) <==> IsLocal(s.frames, x) || Declares(e, n, x)
  }

  ghost predicate MeantUnder(e: Expr, tail: bool, n: nat, s: Stack, r: Ran) {
    && r.stack.frames != [] && ConflictsUnder(e, n, s, r.diags) && LivesUnder(e, n, s, r.stack)
    && ReportsUnder(e, tail, n, s, r.diags) && LocalUnder(e, n, s, r.stack)
  }

  // ---------------------------------------------------------------------
  // One more child
  // ---------------------------------------------------------------------

  lemma LoanDeeper(e: Expr, i: nat, r: Place, x: string, m: Mode)
    requires Child(e, i).Some?
    ensures Loan(e, [i] + r, x, m) <==> Loan(Child(e, i).value, r, x, m)
  {
    assert ([i] + r)[1..] == r;
  }

  lemma LoanThrough(e: Expr, p: Place, x: string, m: Mode)
    requires p != [] && Loan(e, p, x, m)
    ensures Child(e, p[0]).Some? && Loan(Child(e, p[0]).value, p[1..], x, m)
  {
  }

  /** A borrow left open by the first `n` children, at odds with one in child `n`. */
  ghost predicate Across(e: Expr, n: nat)
  {
    exists q, x, m, k :: LeavesUnder(e, n, x, m) && Child(e, n).Some? && Loan(Child(e, n).value, q, x, k) && AtOdds(m, k)
  }

  lemma CollideDown(e: Expr, p: Place, q: Place)
    requires p != [] && q != [] && p[0] == q[0] && Collide(e, p, q)
    ensures Child(e, p[0]).Some? && Collide(Child(e, p[0]).value, p[1..], q[1..])
  {
    var x, m, k :| Loan(e, p, x, m) && Loan(e, q, x, k) && InForce(e, p, q) && (m.Mut? || k.Mut?);
    LoanThrough(e, p, x, m);
    LoanThrough(e, q, x, k);
  }

  lemma ForceDeeper(e: Expr, n: nat, p: Place, q: Place)
    requires Child(e, n).Some?
    ensures InForce(e, [n] + p, [n] + q) <==> InForce(Child(e, n).value, p, q)
  {
    assert ([n] + p)[1..] == p && ([n] + q)[1..] == q;
  }

  lemma CollideBy(e: Expr, n: nat, p: Place, q: Place, x: string, m: Mode, k: Mode)
    requires Loan(e, p, x, m) && Loan(e, q, x, k) && InForce(e, p, q) && AtOdds(m, k) && Under(p, n) && Under(q, n)
    ensures !HarmlessUnder(e, n)
  {
    assert Collide(e, p, q);
  }

  lemma CollideUp(e: Expr, n: nat, p: Place, q: Place)
    requires Child(e, n).Some? && Collide(Child(e, n).value, p, q)
    ensures !HarmlessUnder(e, n + 1)
  {
    var child := Child(e, n).value;
    var x, m, k :| Loan(child, p, x, m) && Loan(child, q, x, k) && InForce(child, p, q) && (m.Mut? || k.Mut?);
    LoanDeeper(e, n, p, x, m);
    LoanDeeper(e, n, q, x, k);
    ForceDeeper(e, n, p, q);
    CollideBy(e, n + 1, [n] + p, [n] + q, x, m, k);
  }

  lemma CollideAcross(e: Expr, n: nat, p: Place, q: Place, x: string, m: Mode, k: Mode)
    requires Under(p, n) && q != [] && q[0] == n && InForce(e, p, q)
    requires Loan(e, p, x, m) && Loan(e, q, x, k) && AtOdds(m, k)
    ensures Across(e, n)
  {
    LoanThrough(e, q, x, k);
    assert OpenBelow(e, p);
    assert LeavesUnder(e, n, x, m);
  }

  lemma AcrossCollide(e: Expr, n: nat)
    requires Across(e, n)
    ensures !HarmlessUnder(e, n + 1)
  {
    var r, x, m, k :| LeavesUnder(e, n, x, m) && Loan(Child(e, n).value, r, x, k) && AtOdds(m, k);
    var p :| Under(p, n) && Loan(e, p, x, m) && OpenBelow(e, p);
    LoanDeeper(e, n, r, x, k);
    CollideBy(e, n + 1, p, [n] + r, x, m, k);
  }

  /** Collisions among one more child: earlier ones, its own, and those across. */
  lemma HarmlessStep(e: Expr, n: nat)
    ensures HarmlessUnder(e, n + 1)
       <==> HarmlessUnder(e, n) && (Child(e, n).Some? ==> Harmless(Child(e, n).value)) && !Across(e, n)
  {
    if Across(e, n) {
      AcrossCollide(e, n);
    }
    if HarmlessUnder(e, n + 1) && Child(e, n).Some? {
      forall p, q ensures !Collide(Child(e, n).value, p, q) {
        if Collide(Child(e, n).value, p, q) {
          CollideUp(e, n, p, q);
        }
      }
    }
    if HarmlessUnder(e, n) && (Child(e, n).Some? ==> Harmless(Child(e, n).value)) && !Across(e, n) {
      forall p, q | Under(p, n + 1) && Under(q, n + 1) ensures !Collide(e, p, q) {
        HarmlessPair(e, n, p, q);
      }
    }
  }

  lemma HarmlessPair(e: Expr, n: nat, p: Place, q: Place)
    requires HarmlessUnder(e, n) && (Child(e, n).Some? ==> Harmless(Child(e, n).value)) && !Across(e, n)
    requires Under(p, n + 1) && Under(q, n + 1)
    ensures !Collide(e, p, q)
  {
    if Collide(e, p, q) {
      var x, m, k :| Loan(e, p, x, m) && Loan(e, q, x, k) && InForce(e, p, q) && (m.Mut? || k.Mut?);
      LoanThrough(e, p, x, m);
      LoanThrough(e, q, x, k);
      if p[0] == n && q[0] == n {
        CollideDown(e, p, q);
      } else if q[0] == n {
        CollideAcross(e, n, p, q, x, m, k);
      }
    }
  }

  lemma AdmitsDown(s: Stack, e: Expr, n: nat)
    requires AdmitsUnder(s, e, n + 1) && Child(e, n).Some?
    ensures Admits(s, Child(e, n).value)
  {
    forall r, x, m, k | Lives(s, x, m) && Loan(Child(e, n).value, r, x, k) ensures !AtOdds(m, k) {
      LoanDeeper(e, n, r, x, k);
      assert Under([n] + r, n + 1);
    }
  }

  lemma AdmitsUp(s: Stack, e: Expr, n: nat)
    requires AdmitsUnder(s, e, n) && (Child(e, n).Some? ==> Admits(s, Child(e, n).value))
    ensures AdmitsUnder(s, e, n + 1)
  {
    forall q, x, m, k | Under(q, n + 1) && Lives(s, x, m) && Loan(e, q, x, k) ensures !AtOdds(m, k) {
      LoanThrough(e, q, x, k);
      if q[0] < n {
        assert Under(q, n);
      }
    }
  }

  lemma AdmitsStep(s: Stack, e: Expr, n: nat)
    ensures AdmitsUnder(s, e, n + 1) <==> AdmitsUnder(s, e, n) && (Child(e, n).Some? ==> Admits(s, Child(e, n).value))
  {
    if AdmitsUnder(s, e, n + 1) {
      if Child(e, n).Some? {
        AdmitsDown(s, e, n);
      }
      assert forall q | Under(q, n) :: Under(q, n + 1);
    }
    if AdmitsUnder(s, e, n) && (Child(e, n).Some? ==> Admits(s, Child(e, n).value)) {
      AdmitsUp(s, e, n);
    }
  }

  /** What child `n` admits after the first `n`: nothing at odds with what was live, or left open. */
  lemma AdmitsAfter(s: Stack, t: Stack, e: Expr, n: nat)
    requires Child(e, n).Some? && forall x, m :: Lives(t, x, m) <==> Lives(s, x, m) || LeavesUnder(e, n, x, m)
    ensures Admits(t, Child(e, n).value) <==> Admits(s, Child(e, n).value) && !Across(e, n)
  {
  }

  lemma LeavesDown(e: Expr, n: nat, x: string, m: Mode)
    requires LeavesUnder(e, n + 1, x, m)
    ensures LeavesUnder(e, n, x, m) || (Child(e, n).Some? && Leaves(Child(e, n).value, x, m))
  {
    var p :| Under(p, n + 1) && Loan(e, p, x, m) && OpenBelow(e, p);
    LoanThrough(e, p, x, m);
    if p[0] < n {
      assert Under(p, n);
    }
  }

  lemma LeavesUp(e: Expr, n: nat, x: string, m: Mode)
    requires Child(e, n).Some? && Leaves(Child(e, n).value, x, m)
    ensures LeavesUnder(e, n + 1, x, m)
  {
    var r :| Loan(Child(e, n).value, r, x, m) && Open(Child(e, n).value, r);
    LoanDeeper(e, n, r, x, m);
    assert ([n] + r)[1..] == r;
    assert Under([n] + r, n + 1) && OpenBelow(e, [n] + r);
  }

  lemma LeavesMore(e: Expr, n: nat, x: string, m: Mode)
    requires LeavesUnder(e, n, x, m)
    ensures LeavesUnder(e, n + 1, x, m)
  {
    var p :| Under(p, n) && Loan(e, p, x, m) && OpenBelow(e, p);
    assert Under(p, n + 1);
  }

  lemma LeavesStep(e: Expr, n: nat, x: string, m: Mode)
    ensures LeavesUnder(e, n + 1, x, m) <==> LeavesUnder(e, n, x, m) || (Child(e, n).Some? && Leaves(Child(e, n).value, x, m))
  {
    if LeavesUnder(e, n + 1, x, m) {
      LeavesDown(e, n, x, m);
    }
    if LeavesUnder(e, n, x, m) {
      LeavesMore(e, n, x, m);
    }
    if Child(e, n).Some? && Leaves(Child(e, n).value, x, m) {
      LeavesUp(e, n, x, m);
    }
  }

  lemma EscapesDown(s: Stack, t: Stack, e: Expr, n: nat, tail: bool, x: string, m: Mode)
    requires IsLocal(t.frames, x) <==> IsLocal(s.frames, x) || Declares(e, n, x)
    requires EscapesUnder(s, e, n + 1, tail, x, m)
    ensures EscapesUnder(s, e, n, tail, x, m) || (Child(e, n).Some? && EscapesIn(t, Child(e, n).value, Hands(e, n, tail), x, m))
  {
    var q :| Under(q, n + 1) && Loan(e, q, x, m) && TailAt(e, tail, q) && (IsLocal(s.frames, x) || LocalAt(e, q, x));
    LoanThrough(e, q, x, m);
    if q[0] < n {
      assert Under(q, n);
    } else {
      assert TailAt(Child(e, n).value, Hands(e, n, tail), q[1..]);
    }
  }

  lemma EscapesUp(s: Stack, t: Stack, e: Expr, n: nat, tail: bool, x: string, m: Mode)
    requires IsLocal(t.frames, x) <==> IsLocal(s.frames, x) || Declares(e, n, x)
    requires Child(e, n).Some? && EscapesIn(t, Child(e, n).value, Hands(e, n, tail), x, m)
    ensures EscapesUnder(s, e, n + 1, tail, x, m)
  {
    var child := Child(e, n).value;
    var r :| Loan(child, r, x, m) && TailAt(child, Hands(e, n, tail), r) && (IsLocal(t.frames, x) || LocalAt(child, r, x));
    var q := [n] + r;
    LoanDeeper(e, n, r, x, m);
    assert q[1..] == r && Under(q, n + 1);
    assert TailAt(e, tail, q) && (IsLocal(s.frames, x) || LocalAt(e, q, x));
  }

  lemma EscapesMore(s: Stack, e: Expr, n: nat, tail: bool, x: string, m: Mode)
    requires EscapesUnder(s, e, n, tail, x, m)
    ensures EscapesUnder(s, e, n + 1, tail, x, m)
  {
    var q :| Under(q, n) && Loan(e, q, x, m) && TailAt(e, tail, q) && (IsLocal(s.frames, x) || LocalAt(e, q, x));
    assert Under(q, n + 1);
  }

  lemma EscapesStep(s: Stack, t: Stack, e: Expr, n: nat, tail: bool, x: string, m: Mode)
    requires IsLocal(t.frames, x) <==> IsLocal(s.frames, x) || Declares(e, n, x)
    ensures EscapesUnder(s, e, n + 1, tail, x, m)
       <==> EscapesUnder(s, e, n, tail, x, m) || (Child(e, n).Some? && EscapesIn(t, Child(e, n).value, Hands(e, n, tail), x, m))
  {
    if EscapesUnder(s, e, n + 1, tail, x, m) {
      EscapesDown(s, t, e, n, tail, x, m);
    }
    if EscapesUnder(s, e, n, tail, x, m) {
      EscapesMore(s, e, n, tail, x, m);
    }
    if Child(e, n).Some? && EscapesIn(t, Child(e, n).value, Hands(e, n, tail), x, m) {
      EscapesUp(s, t, e, n, tail, x, m);
    }
  }

  lemma DeclaresStep(e: Expr, n: nat, x: string)
    ensures Declares(e, n + 1, x)
       <==> Declares(e, n, x) || (e.Block? && n < |e.stmts| && e.stmts[n].Let? && e.stmts[n].name == x)
  {
  }

  /** What the events of child `i`, run from `t`, came to. */
  ghost predicate ChildMeant(e: Expr, i: nat, tail: bool, t: Stack, r: Ran) {
    && r.stack.frames != []
    && (ConflictFree(r.diags) <==> Child(e, i).Some? ==> Harmless(Child(e, i).value) && Admits(t, Child(e, i).value))
    && (forall x, m :: Lives(r.stack, x, m) <==> Lives(t, x, m) || (Child(e, i).Some? && Leaves(Child(e, i).value, x, m)))
    && (forall x, m :: Escape(x, m) in r.diags <==> Child(e, i).Some? && EscapesIn(t, Child(e, i).value, Hands(e, i, tail), x, m))
    && (forall x :: IsLocal(r.stack.frames, x) <==> IsLocal(t.frames, x))
  }

  predicate DeclaredBy(e: Expr, i: nat, x: string) {
    e.Block? && i < |e.stmts| && e.stmts[i].Let? && e.stmts[i].name == x
  }

  lemma DeclarationRuns(e: Expr, i: nat, t: Stack)
    requires t.frames != []
    ensures var r := Run(t, Declaration(e, i));
            && r.stack.frames != [] && r.diags == []
            && (forall x, m :: Lives(r.stack, x, m) <==> Lives(t, x, m))
            && (forall x :: IsLocal(r.stack.frames, x) <==> IsLocal(t.frames, x) || DeclaredBy(e, i, x))
  {
    assert Run(t, []) == Ran(t, []);
    if Declaration(e, i) != [] {
      var name := e.stmts[i].name;
      assert Declaration(e, i) == [Declare(name)];
      DidOne(t, [], Declare(name));
      assert Run(t, [Declare(name)]).diags == [] + Run(t, [Declare(name)]).diags;
      DeclareAdds(t, name);
    }
  }

  lemma ConflictsJoin(e: Expr, tail: bool, n: nat, s: Stack, r1: Ran, r2: Ran)
    requires MeantUnder(e, tail, n, s, r1) && ChildMeant(e, n, tail, r1.stack, r2)
    ensures ConflictsUnder(e, n + 1, s, r1.diags + r2.diags)
  {
    ConflictFreeJoin(r1.diags, r2.diags);
    HarmlessStep(e, n);
    AdmitsStep(s, e, n);
    if Child(e, n).Some? {
      AdmitsAfter(s, r1.stack, e, n);
    }
  }

  lemma LeavesJoin(e: Expr, tail: bool, n: nat, s: Stack, r1: Ran, r2: Ran, t: Stack)
    requires MeantUnder(e, tail, n, s, r1) && ChildMeant(e, n, tail, r1.stack, r2)
    requires forall x, m :: Lives(t, x, m) <==> Lives(r2.stack, x, m)
    ensures LivesUnder(e, n + 1, s, t)
  {
    forall x, m ensures Lives(t, x, m) <==> Lives(s, x, m) || LeavesUnder(e, n + 1, x, m) {
      LeavesStep(e, n, x, m);
    }
  }

  lemma EscapesJoin(e: Expr, tail: bool, n: nat, s: Stack, r1: Ran, r2: Ran)
    requires MeantUnder(e, tail, n, s, r1) && ChildMeant(e, n, tail, r1.stack, r2)
    ensures ReportsUnder(e, tail, n + 1, s, r1.diags + r2.diags)
  {
    forall x, m ensures Escape(x, m) in r1.diags + r2.diags <==> EscapesUnder(s, e, n + 1, tail, x, m) {
      EscapesStep(s, r1.stack, e, n, tail, x, m);
    }
  }

  lemma LocalsJoin(e: Expr, tail: bool, n: nat, s: Stack, r1: Ran, r2: Ran, t: Stack)
    requires MeantUnder(e, tail, n, s, r1) && ChildMeant(e, n, tail, r1.stack, r2)
    requires forall x :: IsLocal(t.frames, x) <==> IsLocal(r2.stack.frames, x) || DeclaredBy(e, n, x)
    ensures LocalUnder(e, n + 1, s, t)
  {
    forall x ensures IsLocal(t.frames, x) <==> IsLocal(s.frames, x) || Declares(e, n + 1, x) {
      DeclaresStep(e, n, x);
    }
  }

  lemma Joined(e: Expr, tail: bool, n: nat, s: Stack, r1: Ran, r2: Ran, t: Stack)
    requires MeantUnder(e, tail, n, s, r1) && ChildMeant(e, n, tail, r1.stack, r2)
    requires t.frames != [] && forall x, m :: Lives(t, x, m) <==> Lives(r2.stack, x, m)
    requires forall x :: IsLocal(t.frames, x) <==> IsLocal(r2.stack.frames, x) || DeclaredBy(e, n, x)
    ensures MeantUnder(e, tail, n + 1, s, Ran(t, r1.diags + r2.diags))
  {
    ConflictsJoin(e, tail, n, s, r1, r2);
    LeavesJoin(e, tail, n, s, r1, r2, t);
    EscapesJoin(e, tail, n, s, r1, r2);
    LocalsJoin(e, tail, n, s, r1, r2, t);
  }

  lemma NothingMeant(e: Expr, tail: bool, s: Stack)
    requires s.frames != []
    ensures MeantUnder(e, tail, 0, s, Ran(s, []))
  {
    assert forall p :: !Under(p, 0);
    assert ConflictsUnder(e, 0, s, []);
    assert LivesUnder(e, 0, s, s);
    assert ReportsUnder(e, tail, 0, s, []);
  }

  // ---------------------------------------------------------------------
  // Closing an expression
  // ---------------------------------------------------------------------

  ghost predicate NotLoan(e: Expr) {
    forall x, m :: !IsLoan(e, x, m)
  }

  lemma LoanUnder(e: Expr, p: Place, x: string, m: Mode)
    requires Loan(e, p, x, m)
    ensures if p == [] then IsLoan(e, x, m) else Under(p, Arity(e))
  {
    if p != [] {
      LoanThrough(e, p, x, m);
      ChildrenNumbered(e, p[0]);
    }
  }

  lemma AllHarmless(e: Expr)
    requires NotLoan(e)
    ensures Harmless(e) <==> HarmlessUnder(e, Arity(e))
  {
    if HarmlessUnder(e, Arity(e)) {
      forall p, q ensures !Collide(e, p, q) {
        if Collide(e, p, q) {
          var x, m, k :| Loan(e, p, x, m) && Loan(e, q, x, k) && InForce(e, p, q) && (m.Mut? || k.Mut?);
          LoanUnder(e, p, x, m);
          LoanUnder(e, q, x, k);
        }
      }
    }
  }

  lemma AllAdmitted(s: Stack, e: Expr)
    requires NotLoan(e)
    ensures Admits(s, e) <==> AdmitsUnder(s, e, Arity(e))
  {
    if AdmitsUnder(s, e, Arity(e)) {
      forall q, x, m, k | Lives(s, x, m) && Loan(e, q, x, k) ensures !AtOdds(m, k) {
        LoanUnder(e, q, x, k);
      }
    }
  }

  lemma AllLeft(e: Expr, x: string, m: Mode)
    requires NotLoan(e)
    ensures Leaves(e, x, m) <==> !Scoped(e) && LeavesUnder(e, Arity(e), x, m)
  {
    if Leaves(e, x, m) {
      var p :| Loan(e, p, x, m) && Open(e, p);
      LoanUnder(e, p, x, m);
    }
    if !Scoped(e) && LeavesUnder(e, Arity(e), x, m) {
      var p :| Under(p, Arity(e)) && Loan(e, p, x, m) && OpenBelow(e, p);
      assert Open(e, p);
    }
  }

  lemma AllEscapes(s: Stack, e: Expr, tail: bool, x: string, m: Mode)
    requires NotLoan(e)
    ensures EscapesIn(s, e, tail, x, m) <==> EscapesUnder(s, e, Arity(e), tail, x, m)
  {
    if EscapesIn(s, e, tail, x, m) {
      var q :| Loan(e, q, x, m) && TailAt(e, tail, q) && (IsLocal(s.frames, x) || LocalAt(e, q, x));
      LoanUnder(e, q, x, m);
    }
  }

  lemma AllMeant(s: Stack, e: Expr, tail: bool)
    requires NotLoan(e)
    ensures Harmless(e) && Admits(s, e) <==> HarmlessUnder(e, Arity(e)) && AdmitsUnder(s, e, Arity(e))
    ensures forall x, m :: Leaves(e, x, m) <==> !Scoped(e) && LeavesUnder(e, Arity(e), x, m)
    ensures forall x, m :: EscapesIn(s, e, tail, x, m) <==> EscapesUnder(s, e, Arity(e), tail, x, m)
  {
    AllHarmless(e);
    AllAdmitted(s, e);
    forall x, m ensures Leaves(e, x, m) <==> !Scoped(e) && LeavesUnder(e, Arity(e), x, m) {
      AllLeft(e, x, m);
    }
    forall x, m ensures EscapesIn(s, e, tail, x, m) <==> EscapesUnder(s, e, Arity(e), tail, x, m) {
      AllEscapes(s, e, tail, x, m);
    }
  }

  /** An expression that is neither a borrow nor a region: nothing but its children. */
  lemma PlainMeant(e: Expr, tail: bool, s: Stack)
    requires !Scoped(e) && NotLoan(e) && Events(e, tail) == Steps(e, tail, Arity(e))
    requires MeantUnder(e, tail, Arity(e), s, Run(s, Steps(e, tail, Arity(e))))
    ensures Meant(e, tail, s)
  {
    AllMeant(s, e, tail);
  }

  lemma AlikeMeant(e: Expr, n: nat, tail: bool, s: Stack, t: Stack)
    requires Alike(s, t)
    ensures AdmitsUnder(s, e, n) <==> AdmitsUnder(t, e, n)
    ensures forall x, m :: EscapesUnder(s, e, n, tail, x, m) <==> EscapesUnder(t, e, n, tail, x, m)
  {
    forall x, m ensures EscapesUnder(s, e, n, tail, x, m) <==> EscapesUnder(t, e, n, tail, x, m) {
    }
  }

  /** A region: its children report as they do, and leave nothing behind. */
  lemma ScopedMeant(e: Expr, tail: bool, s: Stack, inner: Ran)
    requires Scoped(e) && s.frames != [] && inner == Run(Apply(s, Enter), Steps(e, tail, Arity(e)))
    requires MeantUnder(e, tail, Arity(e), Apply(s, Enter), inner)
    ensures Meant(e, tail, s)
  {
    ScopedRuns(e, tail, s);
    EnterAlike(s);
    AlikeMeant(e, Arity(e), tail, s, Apply(s, Enter));
    AllMeant(s, e, tail);
  }

  lemma ScopedRuns(e: Expr, tail: bool, s: Stack)
    requires Scoped(e)
    ensures var r := Run(s, Events(e, tail));
            r.diags == Run(Apply(s, Enter), Steps(e, tail, Arity(e))).diags && r.stack.frames == s.frames
  {
    ScopedEvents(e, tail);
    RegionRuns(s, Steps(e, tail, Arity(e)));
    if e.Block? {
      BlockRestores(e, tail, s);
    } else {
      LambdaRestores(e, tail, s);
    }
  }

  lemma RegionRuns(s: Stack, steps: seq<Event>)
    ensures Run(s, [Enter] + steps + [Exit]).diags == Run(Apply(s, Enter), steps).diags
  {
    RunAppend(s, [Enter] + steps, [Exit]);
    RunAppend(s, [Enter], steps);
    RunOne(s, Enter);
    RunOne(Run(s, [Enter] + steps).stack, Exit);
  }

  // ---------------------------------------------------------------------
  // A borrow
  // ---------------------------------------------------------------------

  /** A borrow itself, and what its further arguments do after it is live. */
  lemma LoanHarmless(e: Expr, s: Stack, t: Stack, x: string, m: Mode)
    requires IsLoan(e, x, m) && forall y, n :: Lives(t, y, n) <==> Lives(s, y, n) || (y == x && n == m)
    ensures Harmless(e) && Admits(s, e)
       <==> (forall n | Lives(s, x, n) :: !AtOdds(n, m)) && HarmlessUnder(e, Arity(e)) && AdmitsUnder(t, e, Arity(e))
  {
    if Harmless(e) && Admits(s, e) {
      HarmlessLoan(e, s, t, x, m);
    }
    if (forall k | Lives(s, x, k) :: !AtOdds(k, m)) && HarmlessUnder(e, Arity(e)) && AdmitsUnder(t, e, Arity(e)) {
      forall p, q ensures !Collide(e, p, q) {
        LoanPair(e, t, x, m, p, q);
      }
      forall q, y, k, l | Lives(s, y, k) && Loan(e, q, y, l) ensures !AtOdds(k, l) {
        LoanUnder(e, q, y, l);
      }
    }
  }

  lemma HarmlessLoan(e: Expr, s: Stack, t: Stack, x: string, m: Mode)
    requires IsLoan(e, x, m) && forall y, n :: Lives(t, y, n) <==> Lives(s, y, n) || (y == x && n == m)
    requires Harmless(e) && Admits(s, e)
    ensures (forall n | Lives(s, x, n) :: !AtOdds(n, m)) && HarmlessUnder(e, Arity(e)) && AdmitsUnder(t, e, Arity(e))
  {
    assert Loan(e, [], x, m);
    forall q, y, k, l | Under(q, Arity(e)) && Lives(t, y, k) && Loan(e, q, y, l) ensures !AtOdds(k, l) {
      if y == x && k == m {
        LoanFirst(e, x, m, q, l);
      }
    }
  }

  /** No further argument of a harmless borrow is at odds with it. */
  lemma LoanFirst(e: Expr, x: string, m: Mode, q: Place, l: Mode)
    requires Harmless(e) && IsLoan(e, x, m) && q != [] && Loan(e, q, x, l)
    ensures !AtOdds(m, l)
  {
    assert Loan(e, [], x, m) && InForce(e, [], q);
    assert !Collide(e, [], q);
  }

  lemma LoanPair(e: Expr, t: Stack, x: string, m: Mode, p: Place, q: Place)
    requires IsLoan(e, x, m) && Lives(t, x, m) && HarmlessUnder(e, Arity(e)) && AdmitsUnder(t, e, Arity(e))
    ensures !Collide(e, p, q)
  {
    if Collide(e, p, q) {
      var y, k, l :| Loan(e, p, y, k) && Loan(e, q, y, l) && InForce(e, p, q) && (k.Mut? || l.Mut?);
      LoanUnder(e, p, y, k);
      LoanUnder(e, q, y, l);
    }
  }

  lemma LoanLeaves(e: Expr, x: string, m: Mode, y: string, k: Mode)
    requires IsLoan(e, x, m)
    ensures Leaves(e, y, k) <==> (y == x && k == m) || LeavesUnder(e, Arity(e), y, k)
  {
    if Leaves(e, y, k) {
      var p :| Loan(e, p, y, k) && Open(e, p);
      LoanUnder(e, p, y, k);
    }
    if LeavesUnder(e, Arity(e), y, k) {
      var p :| Under(p, Arity(e)) && Loan(e, p, y, k) && OpenBelow(e, p);
      assert Open(e, p);
    }
    assert Loan(e, [], x, m) && Open(e, []);
  }

  lemma LoanEscapes(e: Expr, tail: bool, s: Stack, x: string, m: Mode, y: string, k: Mode)
    requires IsLoan(e, x, m)
    ensures EscapesIn(s, e, tail, y, k)
       <==> (tail && y == x && k == m && IsLocal(s.frames, x)) || EscapesUnder(s, e, Arity(e), tail, y, k)
  {
    if EscapesIn(s, e, tail, y, k) {
      var q :| Loan(e, q, y, k) && TailAt(e, tail, q) && (IsLocal(s.frames, y) || LocalAt(e, q, y));
      LoanUnder(e, q, y, k);
    }
    assert Loan(e, [], x, m) && TailAt(e, tail, []) == tail;
  }

  lemma LoanMeant(e: Expr, tail: bool, s: Stack, x: string, m: Mode, inner: Ran)
    requires IsLoan(e, x, m) && s.frames != []
    requires var t := Apply(s, Take(x, m, tail));
             inner == Run(t, Steps(e, tail, Arity(e))) && MeantUnder(e, tail, Arity(e), t, inner)
    ensures Meant(e, tail, s)
  {
    var take := Take(x, m, tail);
    var t := Apply(s, take);
    LoanRuns(e, tail, s, x, m);
    TakeAdds(s, x, m, tail);
    TakeReports(s, x, m, tail);
    ConflictFreeJoin(Reports(s, take), inner.diags);
    LoanHarmless(e, s, t, x, m);
    forall y, k ensures Leaves(e, y, k) <==> (y == x && k == m) || LeavesUnder(e, Arity(e), y, k) {
      LoanLeaves(e, x, m, y, k);
    }
    forall y, k ensures Escape(y, k) in Run(s, Events(e, tail)).diags <==> EscapesIn(s, e, tail, y, k) {
      LoanEscapes(e, tail, s, x, m, y, k);
      LocalsAlike(s, t, e, Arity(e), tail, y, k);
    }
  }

  lemma LocalsAlike(s: Stack, t: Stack, e: Expr, n: nat, tail: bool, x: string, m: Mode)
    requires IsLocal(s.frames, x) <==> IsLocal(t.frames, x)
    ensures EscapesUnder(s, e, n, tail, x, m) <==> EscapesUnder(t, e, n, tail, x, m)
  {
  }

  lemma LoanRuns(e: Expr, tail: bool, s: Stack, x: string, m: Mode)
    requires IsLoan(e, x, m)
    ensures var take := Take(x, m, tail);
            var r, inner := Run(s, Events(e, tail)), Run(Apply(s, take), Steps(e, tail, Arity(e)));
            r.stack == inner.stack && r.diags == Reports(s, take) + inner.diags
  {
    var take := Take(x, m, tail);
    DetectMeans(e, x, m);
    UnscopedEvents(e, tail);
    assert Own(e, tail) == [take];
    RunAppend(s, [take], Steps(e, tail, Arity(e)));
    RunOne(s, take);
  }

  // ---------------------------------------------------------------------
  // The induction
  // ---------------------------------------------------------------------

  lemma {:induction false} StepsMeant(e: Expr, tail: bool, n: nat, s: Stack)
    requires s.frames != []
    ensures MeantUnder(e, tail, n, s, Run(s, Steps(e, tail, n)))
    decreases e, 0, n
  {
    if n == 0 {
      assert Run(s, []) == Ran(s, []);
      NothingMeant(e, tail, s);
    } else {
      var i := n - 1;
      var done, child, declared := Steps(e, tail, i), ChildEvents(e, i, tail), Declaration(e, i);
      var r1 := Run(s, done);
      StepsMeant(e, tail, i, s);
      var r2 := Run(r1.stack, child);
      ChildRuns(e, i, tail, r1.stack);
      DeclarationRuns(e, i, r2.stack);
      StepRuns(s, done, child, declared);
      Joined(e, tail, i, s, r1, r2, Run(r2.stack, declared).stack);
      NextStep(e, tail, i);
    }
  }

  lemma StepRuns(s: Stack, done: seq<Event>, child: seq<Event>, declared: seq<Event>)
    ensures var r1 := Run(s, done);
            var r2 := Run(r1.stack, child);
            var r3 := Run(r2.stack, declared);
            r3.diags == [] ==> Run(s, done + (child + declared)) == Ran(r3.stack, r1.diags + r2.diags)
  {
    RunAppend(s, done, child + declared);
    RunAppend(Run(s, done).stack, child, declared);
  }

  lemma {:induction false} ChildRuns(e: Expr, i: nat, tail: bool, t: Stack)
    requires t.frames != []
    ensures ChildMeant(e, i, tail, t, Run(t, ChildEvents(e, i, tail)))
    decreases e, 0, i, 0
  {
    if Child(e, i).Some? {
      BodyMeant(Child(e, i).value, Hands(e, i, tail), t);
    } else {
      assert Run(t, []) == Ran(t, []);
    }
  }

  /** The walk of an expression reports and leaves exactly what the places of its borrows say. */
  lemma {:induction false} BodyMeant(e: Expr, tail: bool, s: Stack)
    requires s.frames != []
    ensures Meant(e, tail, s)
    decreases e, 1
  {
    if Scoped(e) {
      EnterAlike(s);
      StepsMeant(e, tail, Arity(e), Apply(s, Enter));
      ScopedMeant(e, tail, s, Run(Apply(s, Enter), Steps(e, tail, Arity(e))));
    } else if e.Call? && DetectBorrow(e.callee, e.args).Some? {
      var (m, x) := DetectBorrow(e.callee, e.args).value;
      var t := Apply(s, Take(x, m, tail));
      DetectMeans(e, x, m);
      TakeAdds(s, x, m, tail);
      StepsMeant(e, tail, Arity(e), t);
      LoanMeant(e, tail, s, x, m, Run(t, Steps(e, tail, Arity(e))));
    } else {
      UnscopedEvents(e, tail);
      NoLoan(e, tail);
      StepsMeant(e, tail, Arity(e), s);
      PlainMeant(e, tail, s);
    }
  }

  lemma NoLoan(e: Expr, tail: bool)
    requires e.Call? ==> DetectBorrow(e.callee, e.args).None?
    ensures NotLoan(e) && Own(e, tail) + Steps(e, tail, Arity(e)) == Steps(e, tail, Arity(e))
  {
    forall x, m ensures !IsLoan(e, x, m) {
      DetectMeans(e, x, m);
    }
  }

  // ---------------------------------------------------------------------
  // A whole body
  // ---------------------------------------------------------------------

  lemma NothingAtStart()
    ensures Start().frames != [] && forall x :: !IsLocal(Start().frames, x)
    ensures forall x, m :: !Lives(Start(), x, m)
  {
    assert Start().frames[..0] == [];
    assert Live(Start().frames) == [];
  }

  /** Two borrows of one name, not both shared: the first comes first, and every block or lambda around
      it is also around the second. */
  ghost predicate Clash(body: Expr, p: Place, q: Place) {
    exists x, m, n :: Loan(body, p, x, m) && Loan(body, q, x, n) && (m.Mut? || n.Mut?)
      && Before(p, q) && RegionsShared(body, p, q)
  }

  lemma ForceMeans(body: Expr, p: Place, q: Place, x: string, m: Mode, n: Mode)
    requires Loan(body, p, x, m) && Loan(body, q, x, n)
    ensures InForce(body, p, q) <==> Before(p, q) && RegionsShared(body, p, q)
  {
    InForceMeans(body, p, q);
  }

  lemma ClashCollides(body: Expr, p: Place, q: Place)
    requires Clash(body, p, q)
    ensures Collide(body, p, q)
  {
    var x, m, n :| Loan(body, p, x, m) && Loan(body, q, x, n) && (m.Mut? || n.Mut?) && Before(p, q) && RegionsShared(body, p, q);
    ForceMeans(body, p, q, x, m, n);
  }

  lemma ClashMeans(body: Expr, p: Place, q: Place)
    ensures Clash(body, p, q) <==> Collide(body, p, q)
  {
    if Collide(body, p, q) {
      var x, m, n :| Loan(body, p, x, m) && Loan(body, q, x, n) && InForce(body, p, q) && (m.Mut? || n.Mut?);
      ForceMeans(body, p, q, x, m, n);
    }
    if Clash(body, p, q) {
      ClashCollides(body, p, q);
    }
  }

  /** A body check reports B0070 if and only if the body holds two borrows that clash. */
  lemma ConflictsExactly(body: Expr)
    ensures !ConflictFree(Run(Start(), Events(body, false)).diags) <==> exists p, q :: Clash(body, p, q)
  {
    NothingAtStart();
    BodyMeant(body, false, Start());
    forall p, q ensures Clash(body, p, q) <==> Collide(body, p, q) {
      ClashMeans(body, p, q);
    }
  }

  /** It reports B0080 for a borrow if and only if one stands in tail position, in a block that declared
      the name by an earlier statement. */
  lemma EscapesExactly(body: Expr, x: string, m: Mode)
    ensures Escape(x, m) in Run(Start(), Events(body, false)).diags
       <==> exists q :: Loan(body, q, x, m) && TailAt(body, false, q) && LocalAt(body, q, x)
  {
    NothingAtStart();
    BodyMeant(body, false, Start());
  }

  /** The two borrow rules over one function body. */
  method CheckBody(body: Expr) returns (out: seq<Diag>)
    ensures out == Run(Start(), Events(body, false)).diags
    ensures (exists d :: d in out && d.Conflict?) <==> exists p, q :: Clash(body, p, q)
    ensures forall x, m :: Escape(x, m) in out
              <==> exists q :: Loan(body, q, x, m) && TailAt(body, false, q) && LocalAt(body, q, x)
  {
    ConflictsExactly(body);
    forall x, m ensures Escape(x, m) in Run(Start(), Events(body, false)).diags
                   <==> exists q :: Loan(body, q, x, m) && TailAt(body, false, q) && LocalAt(body, q, x)
    {
      EscapesExactly(body, x, m);
    }
    var regions := new RegionMap();
    var _ := regions.Enter();
    out := Walk(body, false, regions, []);
    while regions.stack != []
      invariant regions.Valid()
      decreases |regions.stack|
    {
      ghost var before := regions.View();
      regions.Exit();
      assert |regions.View().frames| == |before.frames| - 1;
    }
  }
}

/** The borrows of a body are exactly those the walk takes, in order, each once. */
module BorrowListing {
  import opened Wrappers
  import opened Ast
  import opened Regions
  import opened BorrowWalk
  import opened BorrowPlaces
  import opened BorrowSteps

  function Takes(evs: seq<Event>): seq<Event> {
    if evs == [] then [] else Takes(evs[..|evs| - 1]) + if evs[|evs| - 1].Take? then [evs[|evs| - 1]] else []
  }

  lemma {:induction false} TakesAppend(a: seq<Event>, b: seq<Event>)
    ensures Takes(a + b) == Takes(a) + Takes(b)
    decreases |b|
  {
    if b == [] {
      assert a + b == a;
    } else {
      assert (a + b)[..|a + b| - 1] == a + b[..|b| - 1];
      TakesAppend(a, b[..|b| - 1]);
    }
  }

  lemma TakesOne(ev: Event)
    ensures Takes([ev]) == if ev.Take? then [ev] else []
  {
    assert [ev][..0] == [];
  }

  ghost predicate Ordered(places: seq<Place>) {
    forall i, j | 0 <= i < j < |places| :: Before(places[i], places[j])
  }

  /** The event takes the borrow that stands at this place, with the tail flag of the place. */
  ghost predicate Takes1(e: Expr, tail: bool, ev: Event, p: Place) {
    ev.Take? && Loan(e, p, ev.target, ev.mode) && ev.tail == TailAt(e, tail, p)
  }

  ghost predicate Paired(e: Expr, tail: bool, takes: seq<Event>, places: seq<Place>) {
    |takes| == |places| && forall i | 0 <= i < |takes| :: Takes1(e, tail, takes[i], places[i])
  }

  lemma PairedJoin(e: Expr, tail: bool, a: seq<Event>, p: seq<Place>, b: seq<Event>, q: seq<Place>)
    requires Paired(e, tail, a, p) && Paired(e, tail, b, q)
    ensures Paired(e, tail, a + b, p + q)
  {
  }

  /** These places are all the borrows of `e`, in order, and the takes are theirs. */
  ghost predicate Listed(e: Expr, tail: bool, takes: seq<Event>, places: seq<Place>) {
    && Ordered(places) && (forall p, x, m | Loan(e, p, x, m) :: p in places)
    && Paired(e, tail, takes, places)
  }

  ghost predicate ListedUnder(e: Expr, tail: bool, n: nat, takes: seq<Event>, places: seq<Place>) {
    && Ordered(places) && (forall p, x, m | p != [] && p[0] < n && Loan(e, p, x, m) :: p in places)
    && (forall p | p in places :: p != [] && p[0] < n)
    && Paired(e, tail, takes, places)
  }

  function Deeper(n: nat, places: seq<Place>): (r: seq<Place>)
    ensures |r| == |places| && forall i | 0 <= i < |r| :: r[i] == [n] + places[i]
  {
    seq(|places|, i requires 0 <= i < |places| => [n] + places[i])
  }

  lemma DeeperIn(n: nat, places: seq<Place>, p: Place)
    requires p != [] && p[0] == n && p[1..] in places
    ensures p in Deeper(n, places)
  {
    var i :| 0 <= i < |places| && places[i] == p[1..];
    assert Deeper(n, places)[i] == p;
  }

  lemma DeeperOrdered(n: nat, places: seq<Place>)
    requires Ordered(places)
    ensures Ordered(Deeper(n, places))
  {
    forall i, j | 0 <= i < j < |places| ensures Before([n] + places[i], [n] + places[j]) {
      assert ([n] + places[i])[1..] == places[i] && ([n] + places[j])[1..] == places[j];
    }
  }

  lemma TakesDeeper(e: Expr, tail: bool, n: nat, ev: Event, p: Place)
    requires Child(e, n).Some? && Takes1(Child(e, n).value, Hands(e, n, tail), ev, p)
    ensures Takes1(e, tail, ev, [n] + p)
  {
    assert ([n] + p)[1..] == p;
  }

  lemma ChildCovered(e: Expr, n: nat, places: seq<Place>, below: seq<Place>, p: Place, x: string, m: Mode)
    requires forall p, x, m | p != [] && p[0] < n && Loan(e, p, x, m) :: p in places
    requires Child(e, n).Some? && forall p, x, m | Loan(Child(e, n).value, p, x, m) :: p in below
    requires p != [] && p[0] < n + 1 && Loan(e, p, x, m)
    ensures p in places + Deeper(n, below)
  {
    if p[0] == n {
      assert Loan(Child(e, n).value, p[1..], x, m);
      DeeperIn(n, below, p);
    }
  }

  lemma ChildListed(e: Expr, tail: bool, n: nat, takes: seq<Event>, places: seq<Place>, inner: seq<Event>, below: seq<Place>)
    requires ListedUnder(e, tail, n, takes, places)
    requires Child(e, n).Some? && Listed(Child(e, n).value, Hands(e, n, tail), inner, below)
    ensures ListedUnder(e, tail, n + 1, takes + inner, places + Deeper(n, below))
  {
    var more := Deeper(n, below);
    DeeperOrdered(n, below);
    OrderedJoin(n, places, more);
    forall p, x, m | p != [] && p[0] < n + 1 && Loan(e, p, x, m) ensures p in places + more {
      ChildCovered(e, n, places, below, p, x, m);
    }
    forall i | 0 <= i < |inner| ensures Takes1(e, tail, inner[i], more[i]) {
      TakesDeeper(e, tail, n, inner[i], below[i]);
    }
    PairedJoin(e, tail, takes, places, inner, more);
  }

  lemma OrderedJoin(n: nat, places: seq<Place>, more: seq<Place>)
    requires Ordered(places) && Ordered(more)
    requires forall p | p in places :: p != [] && p[0] < n
    requires forall p | p in more :: p != [] && p[0] == n
    ensures Ordered(places + more)
  {
    var all := places + more;
    forall i, j | 0 <= i < j < |all| ensures Before(all[i], all[j]) {
      if i < |places| && j >= |places| {
        assert all[i] in places && all[j] in more;
      }
    }
  }

  lemma NoChildListed(e: Expr, tail: bool, n: nat, takes: seq<Event>, places: seq<Place>)
    requires ListedUnder(e, tail, n, takes, places) && Child(e, n).None?
    ensures ListedUnder(e, tail, n + 1, takes, places)
  {
    forall p, x, m | p != [] && p[0] < n + 1 && Loan(e, p, x, m) ensures p in places {
    }
  }

  lemma NothingListed(e: Expr, tail: bool)
    ensures ListedUnder(e, tail, 0, [], [])
  {
  }

  lemma {:induction false} StepsListed(e: Expr, tail: bool, n: nat) returns (places: seq<Place>)
    ensures ListedUnder(e, tail, n, Takes(Steps(e, tail, n)), places)
    decreases e, 0, n
  {
    if n == 0 {
      NothingListed(e, tail);
      places := [];
    } else {
      var i: nat := n - 1;
      var before := StepsListed(e, tail, i);
      places := NextListed(e, tail, i, Takes(Steps(e, tail, i)), before);
      StepAdds(e, tail, i, n);
    }
  }

  lemma {:induction false} NextListed(e: Expr, tail: bool, i: nat, takes: seq<Event>, before: seq<Place>) returns (places: seq<Place>)
    requires ListedUnder(e, tail, i, takes, before)
    ensures forall all, n: nat | n == i + 1 && all == takes + Takes(ChildEvents(e, i, tail)) :: ListedUnder(e, tail, n, all, places)
    decreases e, 0, i
  {
    var inner := Takes(ChildEvents(e, i, tail));
    if Child(e, i).Some? {
      var below := TakesListed(Child(e, i).value, Hands(e, i, tail));
      ChildListed(e, tail, i, takes, before, inner, below);
      places := before + Deeper(i, below);
    } else {
      NoChildListed(e, tail, i, takes, before);
      assert inner == [] && takes + inner == takes;
      places := before;
    }
  }

  lemma StepAdds(e: Expr, tail: bool, i: nat, n: nat)
    requires n == i + 1
    ensures Takes(Steps(e, tail, n)) == Takes(Steps(e, tail, i)) + Takes(ChildEvents(e, i, tail))
  {
    NextStep(e, tail, i);
    StepTakes(Steps(e, tail, i), ChildEvents(e, i, tail), Declaration(e, i));
  }

  lemma StepTakes(before: seq<Event>, child: seq<Event>, declared: seq<Event>)
    requires declared == [] || (|declared| == 1 && declared[0].Declare?)
    ensures Takes(before + (child + declared)) == Takes(before) + Takes(child)
  {
    TakesAppend(before, child + declared);
    TakesAppend(child, declared);
    if declared != [] {
      assert declared == [declared[0]];
      TakesOne(declared[0]);
    }
    assert Takes(child) + [] == Takes(child);
  }

  lemma LoanNumbered(e: Expr, p: Place, x: string, m: Mode)
    requires Loan(e, p, x, m) && p != []
    ensures p[0] < Arity(e)
  {
    ChildrenNumbered(e, p[0]);
  }

  /** Every borrow of an expression is taken once, in order, with the tail flag of its place, and nothing
      else is taken. */
  lemma {:induction false} TakesListed(e: Expr, tail: bool) returns (places: seq<Place>)
    ensures Listed(e, tail, Takes(Events(e, tail)), places)
    decreases e, 1
  {
    var steps := Steps(e, tail, Arity(e));
    places := StepsListed(e, tail, Arity(e));
    forall p, x, m | Loan(e, p, x, m) && p != [] ensures p[0] < Arity(e) {
      LoanNumbered(e, p, x, m);
    }
    if Scoped(e) {
      ScopedEvents(e, tail);
      RegionTakes(steps);
    } else {
      UnscopedEvents(e, tail);
      TakesAppend(Own(e, tail), steps);
      if Own(e, tail) == [] {
        NoOwnLoan(e, tail);
        assert [] + Takes(steps) == Takes(steps);
      } else {
        TakesOne(Own(e, tail)[0]);
        OwnListed(e, tail, Takes(steps), places);
        places := [[]] + places;
      }
    }
  }

  lemma RegionTakes(steps: seq<Event>)
    ensures Takes([Enter] + steps + [Exit]) == Takes(steps)
  {
    TakesAppend([Enter] + steps, [Exit]);
    TakesAppend([Enter], steps);
    TakesOne(Enter);
    TakesOne(Exit);
    assert [] + Takes(steps) + [] == Takes(steps);
  }

  lemma NoOwnLoan(e: Expr, tail: bool)
    requires Own(e, tail) == []
    ensures forall x, m :: !Loan(e, [], x, m)
  {
    forall x, m ensures !IsLoan(e, x, m) {
    }
  }

  lemma OwnTakes(e: Expr, tail: bool)
    requires Own(e, tail) != []
    ensures |Own(e, tail)| == 1 && Takes1(e, tail, Own(e, tail)[0], [])
  {
  }

  lemma OwnListed(e: Expr, tail: bool, takes: seq<Event>, places: seq<Place>)
    requires !Scoped(e) && Own(e, tail) != [] && ListedUnder(e, tail, Arity(e), takes, places)
    requires forall p, x, m | Loan(e, p, x, m) && p != [] :: p[0] < Arity(e)
    ensures Listed(e, tail, Own(e, tail) + takes, [[]] + places)
  {
    var all := [[]] + places;
    OwnTakes(e, tail);
    PairedJoin(e, tail, Own(e, tail), [[]], takes, places);
    forall i, j | 0 <= i < j < |all| ensures Before(all[i], all[j]) {
      assert all[j] in places;
    }
    forall p, x, m | Loan(e, p, x, m) ensures p in all {
      if p == [] {
        assert all[0] == [];
      } else {
        assert p in places;
      }
    }
  }
}

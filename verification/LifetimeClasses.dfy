/** Equality classes of lifetimes: the relation the `Equal` constraints generate, and the union-find
    whose roots are the least members of its classes. */
module LifetimeClasses {
  import opened Wrappers
  import opened Order

  type Lifetime = string
  type Pairs = set<(Lifetime, Lifetime)>

  function PairSet(pairs: seq<(Lifetime, Lifetime)>): Pairs {
    set pair | pair in pairs
  }

  // ---------------------------------------------------------------------
  // The equivalence a set of pairs generates
  // ---------------------------------------------------------------------

  predicate Link(e: Pairs, x: Lifetime, y: Lifetime) {
    x == y || (x, y) in e || (y, x) in e
  }

  ghost predicate Chain(e: Pairs, p: seq<Lifetime>) {
    p != [] && forall i | 0 <= i < |p| - 1 :: Link(e, p[i], p[i + 1])
  }

  ghost predicate Joins(e: Pairs, p: seq<Lifetime>, x: Lifetime, y: Lifetime) {
    Chain(e, p) && p[0] == x && p[|p| - 1] == y
  }

  /** `x` and `y` are forced equal by `e`. */
  ghost predicate Same(e: Pairs, x: Lifetime, y: Lifetime) {
    exists p :: Joins(e, p, x, y)
  }

  lemma SameLink(e: Pairs, x: Lifetime, y: Lifetime)
    requires Link(e, x, y)
    ensures Same(e, x, y)
  {
    assert Joins(e, [x, y], x, y);
  }

  lemma SameTransitive(e: Pairs, x: Lifetime, y: Lifetime, z: Lifetime)
    requires Same(e, x, y) && Same(e, y, z)
    ensures Same(e, x, z)
  {
    var p :| Joins(e, p, x, y);
    var q :| Joins(e, q, y, z);
    assert Joins(e, p + q, x, z);
  }

  lemma {:induction false} ChainReversed(e: Pairs, p: seq<Lifetime>, x: Lifetime, y: Lifetime)
    requires Joins(e, p, x, y)
    ensures Same(e, y, x)
    decreases |p|
  {
    if |p| == 1 {
      SameLink(e, y, x);
    } else {
      var n := |p| - 1;
      assert Link(e, p[n - 1], p[n]);
      ChainReversed(e, p[..n], x, p[n - 1]);
      SameLink(e, y, p[n - 1]);
      SameTransitive(e, y, p[n - 1], x);
    }
  }

  lemma SameSymmetric(e: Pairs, x: Lifetime, y: Lifetime)
    requires Same(e, x, y)
    ensures Same(e, y, x)
  {
    var p :| Joins(e, p, x, y);
    ChainReversed(e, p, x, y);
  }

  lemma SameMonotone(e: Pairs, f: Pairs, x: Lifetime, y: Lifetime)
    requires Same(e, x, y) && e <= f
    ensures Same(f, x, y)
  {
    var p :| Joins(e, p, x, y);
    assert Joins(f, p, x, y);
  }

  /** A set that no link enters or leaves contains whole classes. */
  ghost predicate Saturated(e: Pairs, s: set<Lifetime>) {
    forall pair | pair in e :: pair.0 in s <==> pair.1 in s
  }

  lemma {:induction false} ChainStays(e: Pairs, s: set<Lifetime>, p: seq<Lifetime>)
    requires Saturated(e, s) && Chain(e, p) && p[0] in s
    ensures p[|p| - 1] in s
    decreases |p|
  {
    if |p| > 1 {
      assert Link(e, p[0], p[1]);
      ChainStays(e, s, p[1..]);
    }
  }

  /** The class representative: the least member. */
  ghost predicate IsRep(e: Pairs, x: Lifetime, r: Lifetime) {
    Same(e, x, r) && forall y | Same(e, x, y) :: Leq(r, y)
  }

  lemma RepUnique(e: Pairs, x: Lifetime, y: Lifetime, r: Lifetime, t: Lifetime)
    requires IsRep(e, x, r) && IsRep(e, y, t)
    ensures Same(e, x, y) <==> r == t
  {
    if Same(e, x, y) {
      SameTransitive(e, x, y, t);
      SameSymmetric(e, x, y);
      SameTransitive(e, y, x, r);
      if r != t {
        Asymmetric(r, t);
      }
    } else if r == t {
      SameSymmetric(e, y, t);
      SameTransitive(e, x, r, y);
    }
  }

  // ---------------------------------------------------------------------
  // Parent maps
  // ---------------------------------------------------------------------

  type Parents = map<Lifetime, Lifetime>

  /** Every parent is present, and is smaller unless it is the node itself. */
  ghost predicate Forest(p: Parents) {
    forall x {:trigger Descends(p, x)} | x in p :: Descends(p, x)
  }

  ghost predicate Descends(p: Parents, x: Lifetime)
    requires x in p
  {
    p[x] in p && Leq(p[x], x)
  }

  /** What makes following parents terminate. */
  ghost function Below(p: Parents, x: Lifetime): set<Lifetime> {
    set k | k in p && Less(k, x)
  }

  lemma BelowShrinks(p: Parents, x: Lifetime)
    requires Forest(p) && x in p && p[x] != x
    ensures p[x] in p && Less(p[x], x) && Below(p, p[x]) < Below(p, x)
  {
    assert Descends(p, x);
    forall k | k in Below(p, p[x]) ensures k in Below(p, x) {
      Transitive(k, p[x], x);
    }
    Irreflexive(p[x]);
    assert p[x] in Below(p, x) && p[x] !in Below(p, p[x]);
  }

  ghost function Root(p: Parents, x: Lifetime): (r: Lifetime)
    requires Forest(p) && x in p
    ensures r in p && p[r] == r && Leq(r, x)
    decreases Below(p, x)
  {
    if p[x] == x then x
    else
      BelowShrinks(p, x);
      var r := Root(p, p[x]);
      assert Leq(r, x) by {
        if r != p[x] {
          Transitive(r, p[x], x);
        }
      }
      r
  }

  function Inserted(p: Parents, x: Lifetime): Parents {
    if x in p then p else p[x := x]
  }

  lemma InsertedForest(p: Parents, z: Lifetime)
    requires Forest(p)
    ensures Forest(Inserted(p, z)) && (z !in p ==> Root(Inserted(p, z), z) == z)
  {
    var q := Inserted(p, z);
    forall x | x in q ensures Descends(q, x) {
      assert x in p ==> Descends(p, x);
    }
  }

  lemma {:induction false} InsertedRoot(p: Parents, z: Lifetime, x: Lifetime)
    requires Forest(p) && x in p
    ensures Forest(Inserted(p, z)) && Root(Inserted(p, z), x) == Root(p, x)
    decreases Below(p, x)
  {
    InsertedForest(p, z);
    if p[x] != x {
      BelowShrinks(p, x);
      InsertedRoot(p, z, p[x]);
    }
  }


  /** `union`: the larger root goes under the smaller one. */
  ghost function Joined(p: Parents, a: Lifetime, b: Lifetime): Parents
    requires Forest(p) && a in p && b in p
  {
    var ra, rb := Root(p, a), Root(p, b);
    if ra == rb then p
    else if Leq(ra, rb) then p[rb := ra]
    else p[ra := rb]
  }

  lemma LinkedForest(p: Parents, root: Lifetime, child: Lifetime)
    requires Forest(p) && root in p && child in p && Less(root, child)
    ensures Forest(p[child := root])
  {
    var q := p[child := root];
    forall x | x in q ensures Descends(q, x) {
      assert Descends(p, x);
    }
  }

  lemma {:induction false} LinkedRoot(p: Parents, root: Lifetime, child: Lifetime, x: Lifetime)
    requires Forest(p) && x in p && root in p && child in p
    requires p[root] == root && p[child] == child && Less(root, child)
    ensures var p' := p[child := root];
            Forest(p') && Root(p', x) == if Root(p, x) == child then root else Root(p, x)
    decreases Below(p, x)
  {
    var p' := p[child := root];
    LinkedForest(p, root, child);
    Asymmetric(root, child);
    if x == child {
      BelowShrinks(p', child);
      assert Root(p', child) == Root(p', root) == root;
    } else if p[x] != x {
      BelowShrinks(p, x);
      BelowShrinks(p', x);
      LinkedRoot(p, root, child, p[x]);
    }
  }

  /** The parent map stores exactly the classes that `e` generates. */
  ghost predicate Represents(p: Parents, e: Pairs) {
    && Forest(p)
    && (forall pair | pair in e :: Agree(p, pair.0, pair.1))
    && (forall x {:trigger Grounded(p, e, x)} | x in p :: Grounded(p, e, x))
  }

  ghost predicate Grounded(p: Parents, e: Pairs, x: Lifetime)
    requires Forest(p) && x in p
  {
    Same(e, x, Root(p, x))
  }

  ghost predicate Agree(p: Parents, x: Lifetime, y: Lifetime)
    requires Forest(p)
  {
    x in p && y in p && Root(p, x) == Root(p, y)
  }

  lemma InsertedRepresents(p: Parents, e: Pairs, z: Lifetime)
    requires Represents(p, e)
    ensures Represents(Inserted(p, z), e)
  {
    var q := Inserted(p, z);
    InsertedForest(p, z);
    forall pair | pair in e ensures Agree(q, pair.0, pair.1) {
      assert Agree(p, pair.0, pair.1);
      InsertedRoot(p, z, pair.0);
      InsertedRoot(p, z, pair.1);
    }
    forall x | x in q ensures Grounded(q, e, x) {
      if x in p {
        assert Grounded(p, e, x);
        InsertedRoot(p, z, x);
      } else {
        SameLink(e, z, z);
      }
    }
  }

  ghost function JoinRoot(p: Parents, a: Lifetime, b: Lifetime): Lifetime
    requires Forest(p) && a in p && b in p
  {
    if Leq(Root(p, a), Root(p, b)) then Root(p, a) else Root(p, b)
  }

  /** The link a union makes: nothing, or the larger root below the smaller. */
  lemma JoinedAs(p: Parents, a: Lifetime, b: Lifetime) returns (root: Lifetime, child: Lifetime)
    requires Forest(p) && a in p && b in p && Root(p, a) != Root(p, b)
    ensures Less(root, child) && root == JoinRoot(p, a, b) && Joined(p, a, b) == p[child := root]
    ensures (root, child) == (Root(p, a), Root(p, b)) || (root, child) == (Root(p, b), Root(p, a))
  {
    Total(Root(p, a), Root(p, b));
    root := JoinRoot(p, a, b);
    child := if root == Root(p, a) then Root(p, b) else Root(p, a);
  }

  lemma JoinedForest(p: Parents, a: Lifetime, b: Lifetime)
    requires Forest(p) && a in p && b in p
    ensures Forest(Joined(p, a, b))
  {
    if Root(p, a) != Root(p, b) {
      var root, child := JoinedAs(p, a, b);
      LinkedForest(p, root, child);
    }
  }

  lemma JoinedKeys(p: Parents, a: Lifetime, b: Lifetime)
    requires Forest(p) && a in p && b in p
    ensures Joined(p, a, b).Keys == p.Keys
  {
  }

  lemma JoinedRoot(p: Parents, a: Lifetime, b: Lifetime, x: Lifetime)
    requires Forest(p) && a in p && b in p && x in p
    ensures Forest(Joined(p, a, b)) && x in Joined(p, a, b)
    ensures Root(Joined(p, a, b), x)
         == if Root(p, x) == Root(p, a) || Root(p, x) == Root(p, b) then JoinRoot(p, a, b) else Root(p, x)
  {
    if Root(p, a) != Root(p, b) {
      var root, child := JoinedAs(p, a, b);
      LinkedRoot(p, root, child, x);
    }
  }

  lemma JoinedAgree(p: Parents, a: Lifetime, b: Lifetime, x: Lifetime, y: Lifetime)
    requires Forest(p) && a in p && b in p && (Agree(p, x, y) || (x, y) == (a, b))
    ensures Forest(Joined(p, a, b)) && Agree(Joined(p, a, b), x, y)
  {
    JoinedRoot(p, a, b, x);
    JoinedRoot(p, a, b, y);
  }

  lemma JoinedRepresents(p: Parents, e: Pairs, a: Lifetime, b: Lifetime)
    requires Represents(p, e) && a in p && b in p
    ensures Represents(Joined(p, a, b), e + {(a, b)})
  {
    var q, f := Joined(p, a, b), e + {(a, b)};
    JoinedForest(p, a, b);
    forall pair | pair in f ensures Agree(q, pair.0, pair.1) {
      JoinedAgree(p, a, b, pair.0, pair.1);
    }
    forall x | x in q ensures Grounded(q, f, x) {
      JoinedKeys(p, a, b);
      assert x in p.Keys;
      JoinedStaysInClass(p, e, a, b, x);
    }
  }

  lemma JoinedStaysInClass(p: Parents, e: Pairs, a: Lifetime, b: Lifetime, x: Lifetime)
    requires Represents(p, e) && a in p && b in p && x in p
    ensures Forest(Joined(p, a, b)) && x in Joined(p, a, b)
    ensures Same(e + {(a, b)}, x, Root(Joined(p, a, b), x))
  {
    var f, r := e + {(a, b)}, Root(p, x);
    JoinedRoot(p, a, b, x);
    assert Grounded(p, e, x);
    SameMonotone(e, f, x, r);
    if Root(Joined(p, a, b), x) != r {
      RootsJoined(p, e, a, b);
      SameTransitive(f, x, r, Root(Joined(p, a, b), x));
    }
  }

  lemma UniteRoots(p: Parents, e: Pairs, a: Lifetime, b: Lifetime)
    requires Represents(p, e) && a in p && b in p
    ensures var (ra, rb) := (Root(p, a), Root(p, b));
            var q := if ra == rb then p else if Leq(ra, rb) then p[rb := ra] else p[ra := rb];
            Represents(q, e + {(a, b)}) && q.Keys == p.Keys
  {
    JoinedRepresents(p, e, a, b);
    JoinedKeys(p, a, b);
  }

  lemma RootsJoined(p: Parents, e: Pairs, a: Lifetime, b: Lifetime)
    requires Represents(p, e) && a in p && b in p
    ensures Same(e + {(a, b)}, Root(p, a), Root(p, b)) && Same(e + {(a, b)}, Root(p, b), Root(p, a))
  {
    var f, ra, rb := e + {(a, b)}, Root(p, a), Root(p, b);
    assert Same(f, ra, a) by {
      assert Grounded(p, e, a);
      SameMonotone(e, f, a, ra);
      SameSymmetric(f, a, ra);
    }
    assert Same(f, b, rb) by {
      assert Grounded(p, e, b);
      SameMonotone(e, f, b, rb);
    }
    assert Same(f, ra, rb) by {
      SameLink(f, a, b);
      SameTransitive(f, ra, a, b);
      SameTransitive(f, ra, b, rb);
    }
    SameSymmetric(f, ra, rb);
  }

  /** The root of `x` is the least lifetime that the pairs force equal to `x`. */
  lemma RootIsLeast(p: Parents, e: Pairs, x: Lifetime)
    requires Represents(p, e) && x in p
    ensures IsRep(e, x, Root(p, x))
  {
    var mine := set z | z in p && Root(p, z) == Root(p, x);
    assert Grounded(p, e, x);
    assert Saturated(e, mine) by {
      forall pair | pair in e ensures pair.0 in mine <==> pair.1 in mine {
        assert Agree(p, pair.0, pair.1);
      }
    }
    forall y | Same(e, x, y) ensures Leq(Root(p, x), y) {
      var c :| Joins(e, c, x, y);
      ChainStays(e, mine, c);
      assert y in mine;
    }
  }

  // ---------------------------------------------------------------------
  // The structure itself
  // ---------------------------------------------------------------------

  class UnionFind {
    var parent: Parents
    ghost var united: Pairs  // every pair ever united

    ghost predicate Valid()
      reads this
    {
      Represents(parent, united)
    }

    constructor ()
      ensures Valid() && parent == map[] && united == {}
    {
      parent := map[];
      united := {};
    }

    method Insert(x: Lifetime)
      requires Valid()
      modifies this`parent
      ensures Valid() && parent == Inserted(old(parent), x)
    {
      InsertedRepresents(parent, united, x);
      if x !in parent {
        parent := parent[x := x];
      }
    }

    /** Walks parents until one is its own parent: the least member of `x`'s class. */
    method FindOrInsert(x: Lifetime) returns (current: Lifetime)
      requires Valid()
      modifies this`parent
      ensures Valid() && parent == Inserted(old(parent), x)
      ensures current == Root(parent, x) && IsRep(united, x, current)
    {
      Insert(x);
      RootIsLeast(parent, united, x);
      current := x;
      while true
        invariant Valid() && parent == Inserted(old(parent), x)
        invariant current in parent && Root(parent, current) == Root(parent, x)
        decreases Below(parent, current)
      {
        var up := parent[current];
        if up == current {
          return;
        }
        BelowShrinks(parent, current);
        current := up;
      }
    }

    method Union(a: Lifetime, b: Lifetime)
      requires Valid()
      modifies this
      ensures Valid() && united == old(united) + {(a, b)}
      ensures parent.Keys == old(parent).Keys + {a, b}
    {
      var ra := FindOrInsert(a);
      ghost var p1 := parent;
      var rb := FindOrInsert(b);
      InsertedRoot(p1, b, a);
      LinkRoots(a, b, ra, rb);
    }

    method LinkRoots(ghost a: Lifetime, ghost b: Lifetime, ra: Lifetime, rb: Lifetime)
      requires Valid() && a in parent && b in parent && ra == Root(parent, a) && rb == Root(parent, b)
      modifies this
      ensures Valid() && united == old(united) + {(a, b)} && parent.Keys == old(parent).Keys
    {
      UniteRoots(parent, united, a, b);
      united := united + {(a, b)};
      if ra == rb {
        return;
      }
      var (root, child) := if Leq(ra, rb) then (ra, rb) else (rb, ra);
      parent := parent[child := root];
    }

    method Members() returns (all: set<Lifetime>)
      ensures all == parent.Keys
    {
      all := parent.Keys;
    }
  }

  /** Whatever sequence of unions was made, in whatever order, following parents from `x` ends at the
      least member of the class the united pairs generate. */
  method Unite(pairs: seq<(Lifetime, Lifetime)>, x: Lifetime) returns (r: Lifetime)
    ensures IsRep(PairSet(pairs), x, r)
  {
    var uf := new UnionFind();
    for k := 0 to |pairs|
      invariant uf.Valid() && uf.united == PairSet(pairs[..k])
    {
      uf.Union(pairs[k].0, pairs[k].1);
      assert pairs[..k + 1] == pairs[..k] + [pairs[k]];
    }
    assert pairs[..|pairs|] == pairs;
    r := uf.FindOrInsert(x);
  }
}

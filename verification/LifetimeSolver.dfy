/** Outlives reasoning: reachability over declared bounds, and the constraint solver built on it and on
    the equality classes. */
module LifetimeSolver {
  import opened Wrappers
  import opened Order
  import opened LifetimeClasses

  datatype Env = Env(params: seq<Lifetime>, bounds: seq<(Lifetime, Lifetime)>)  // bounds are (outer, inner)

  datatype Constraint = Outlives(outer: Lifetime, inner: Lifetime) | Equal(a: Lifetime, b: Lifetime)

  datatype LifetimeError =
    | Mismatch(name: Lifetime)
    | TooShort(outer: Lifetime, inner: Lifetime)
    | Cycle(a: Lifetime, b: Lifetime)

  // ---------------------------------------------------------------------
  // The reflexive-transitive closure of the bounds
  // ---------------------------------------------------------------------

  ghost predicate Path(b: Pairs, p: seq<Lifetime>, x: Lifetime, y: Lifetime) {
    p != [] && p[0] == x && p[|p| - 1] == y && forall i | 0 <= i < |p| - 1 :: (p[i], p[i + 1]) in b
  }

  ghost predicate Reaches(b: Pairs, x: Lifetime, y: Lifetime) {
    exists p :: Path(b, p, x, y)
  }

  ghost predicate Closed(b: Pairs, s: set<Lifetime>) {
    forall pair | pair in b && pair.0 in s :: pair.1 in s
  }

  lemma {:induction false} PathStays(b: Pairs, s: set<Lifetime>, p: seq<Lifetime>, x: Lifetime, y: Lifetime)
    requires Closed(b, s) && x in s && Path(b, p, x, y)
    ensures y in s
    decreases |p|
  {
    if |p| > 1 {
      assert (p[0], p[1]) in b;
      PathStays(b, s, p[1..], p[1], y);
    }
  }

  lemma ReachesExtends(b: Pairs, x: Lifetime, y: Lifetime, z: Lifetime)
    requires Reaches(b, x, y) && (y, z) in b
    ensures Reaches(b, x, z)
  {
    var p :| Path(b, p, x, y);
    assert Path(b, p + [z], x, z);
  }

  lemma ReachesSelf(b: Pairs, x: Lifetime)
    ensures Reaches(b, x, x)
  {
    assert Path(b, [x], x, x);
  }

  type Graph = map<Lifetime, set<Lifetime>>

  ghost predicate GraphOf(g: Graph, b: Pairs) {
    forall x, y :: (x in g && y in g[x]) <==> (x, y) in b
  }

  method BuildGraph(bounds: seq<(Lifetime, Lifetime)>) returns (g: Graph)
    ensures GraphOf(g, PairSet(bounds))
  {
    g := map[];
    for k := 0 to |bounds|
      invariant GraphOf(g, PairSet(bounds[..k]))
    {
      var (outer, inner) := bounds[k];
      var before := if outer in g then g[outer] else {};
      g := g[outer := before + {inner}];
      assert bounds[..k + 1] == bounds[..k] + [bounds[k]];
    }
    assert bounds[..|bounds|] == bounds;
  }

  /** Every lifetime the search can meet. */
  ghost function Nodes(b: Pairs, from: Lifetime): set<Lifetime> {
    {from} + (set pair | pair in b :: pair.1)
  }

  /** What the search knows: everything seen is reachable, and every node that is neither waiting nor
      being expanded has had all its successors seen, none of them the target. */
  ghost predicate Searching(b: Pairs, from: Lifetime, to: Lifetime, seen: set<Lifetime>, open: set<Lifetime>) {
    && from in seen && to !in seen && open <= seen <= Nodes(b, from)
    && (forall x | x in seen :: Reaches(b, from, x))
    && (forall pair | pair in b && pair.0 in seen - open :: pair.1 in seen)
  }

  function Elements(s: seq<Lifetime>): set<Lifetime> {
    set x | x in s
  }

  /** `reachable`: depth-first search with an explicit stack. */
  method Reachable(g: Graph, ghost b: Pairs, from: Lifetime, to: Lifetime) returns (found: bool)
    requires GraphOf(g, b)
    ensures found <==> Reaches(b, from, to)
  {
    ReachesSelf(b, from);
    if from == to {
      return true;
    }
    var stack := [from];
    var seen := {from};
    while stack != []
      invariant Searching(b, from, to, seen, Elements(stack))
      decreases Nodes(b, from) - seen, |stack|
    {
      var node := stack[|stack| - 1];
      ghost var before, seen0 := stack, seen;
      stack := stack[..|stack| - 1];
      assert before == stack + [node];
      var successors := if node in g then g[node] else {};
      assert forall y :: y in successors <==> (node, y) in b;
      var hit: bool;
      hit, stack, seen := Expand(b, from, to, node, successors, stack, seen);
      if hit {
        return true;
      }
      Expanded(b, from, to, seen, Elements(stack), node);
    }
    NotReached(b, seen, from, to);
    return false;
  }

  /** Look at every successor of a node just taken off the stack. */
  method Expand(ghost b: Pairs, ghost from: Lifetime, to: Lifetime, ghost node: Lifetime, successors: set<Lifetime>,
                stack0: seq<Lifetime>, seen0: set<Lifetime>)
    returns (hit: bool, stack: seq<Lifetime>, seen: set<Lifetime>)
    requires node in seen0 && (forall y :: y in successors <==> (node, y) in b)
    requires Searching(b, from, to, seen0, Elements(stack0) + {node})
    ensures hit ==> Reaches(b, from, to)
    ensures !hit ==> successors <= seen && Searching(b, from, to, seen, Elements(stack) + {node})
    ensures seen0 <= seen && (seen == seen0 ==> stack == stack0)
  {
    hit, stack, seen := false, stack0, seen0;
    var pending := successors;
    while pending != {}
      invariant pending <= successors && successors - pending <= seen
      invariant Searching(b, from, to, seen, Elements(stack) + {node})
      invariant seen0 <= seen && (seen == seen0 ==> stack == stack0)
      decreases pending
    {
      var n :| n in pending;
      assert (node, n) in b;
      ReachesExtends(b, from, node, n);
      if n == to {
        hit := true;
        return;
      }
      if n !in seen {
        seen := seen + {n};
        assert Elements(stack + [n]) == Elements(stack) + {n};
        stack := stack + [n];
      }
      pending := pending - {n};
    }
  }

  /** An expanded node need not stay open. */
  lemma Expanded(b: Pairs, from: Lifetime, to: Lifetime, seen: set<Lifetime>, open: set<Lifetime>, node: Lifetime)
    requires Searching(b, from, to, seen, open + {node})
    requires forall y | (node, y) in b :: y in seen
    ensures Searching(b, from, to, seen, open)
  {
    forall pair | pair in b && pair.0 in seen - open ensures pair.1 in seen {
      if pair.0 == node {
        assert pair == (node, pair.1);
      }
    }
  }

  /** `check_outlives` decides exactly the reflexive-transitive closure of the bounds. */
  method CheckOutlives(outer: Lifetime, inner: Lifetime, env: Env) returns (ok: bool)
    ensures ok <==> Reaches(PairSet(env.bounds), outer, inner)
  {
    ReachesSelf(PairSet(env.bounds), outer);
    if outer == inner {
      return true;
    }
    var g := BuildGraph(env.bounds);
    ok := Reachable(g, PairSet(env.bounds), outer, inner);
  }

  // ---------------------------------------------------------------------
  // What the solver decides
  // ---------------------------------------------------------------------

  ghost predicate Mentions(c: Constraint, x: Lifetime) {
    x == First(c) || x == Second(c)
  }

  ghost predicate AllDeclared(env: Env, cs: seq<Constraint>) {
    forall c, x | c in cs && Mentions(c, x) :: x in env.params
  }

  function Equalities(cs: seq<Constraint>): Pairs {
    set c | c in cs && c.Equal? :: (c.a, c.b)
  }

  function Demands(cs: seq<Constraint>): Pairs {
    set c | c in cs && c.Outlives? :: (c.outer, c.inner)
  }

  /** A required outlives relation holds: both sides are one class, or the bounds imply it. */
  ghost predicate Provable(env: Env, e: Pairs, outer: Lifetime, inner: Lifetime) {
    Same(e, outer, inner) || Reaches(PairSet(env.bounds), outer, inner)
  }

  ghost predicate AllProvable(env: Env, cs: seq<Constraint>) {
    forall d | d in Demands(cs) :: Provable(env, Equalities(cs), d.0, d.1)
  }

  ghost predicate Opposite(e: Pairs, p: (Lifetime, Lifetime), q: (Lifetime, Lifetime)) {
    Same(e, p.0, q.1) && Same(e, p.1, q.0) && !Same(e, p.0, p.1)
  }

  /** Two bounds or requirements run in opposite directions between two different classes. */
  ghost predicate HasTwoCycle(env: Env, cs: seq<Constraint>) {
    exists p, q | p in Edges(env, cs) && q in Edges(env, cs) :: Opposite(Equalities(cs), p, q)
  }

  function Edges(env: Env, cs: seq<Constraint>): Pairs {
    PairSet(env.bounds) + Demands(cs)
  }

  function Known(env: Env): set<Lifetime> {
    Elements(env.params) + Ends(PairSet(env.bounds))
  }

  function Ends(b: Pairs): set<Lifetime> {
    (set pair | pair in b :: pair.0) + (set pair | pair in b :: pair.1)
  }

  /** The class of each known lifetime, named by its least member. */
  ghost predicate ClassMap(env: Env, e: Pairs, m: map<Lifetime, Lifetime>) {
    m.Keys == Known(env) && forall x | x in m :: IsRep(e, x, m[x])
  }

  /** The first undeclared lifetime, reading the constraints left to right. */
  ghost predicate FirstUndeclared(env: Env, cs: seq<Constraint>, x: Lifetime) {
    exists k | 0 <= k < |cs| ::
      AllDeclared(env, cs[..k]) && x !in env.params && (x == First(cs[k]) || (x == Second(cs[k]) && First(cs[k]) in env.params))
  }

  function First(c: Constraint): Lifetime {
    if c.Outlives? then c.outer else c.a
  }

  function Second(c: Constraint): Lifetime {
    if c.Outlives? then c.inner else c.b
  }

  /** The first requirement that does not hold. */
  ghost predicate FirstUnprovable(env: Env, e: Pairs, cs: seq<Constraint>, d: (Lifetime, Lifetime)) {
    exists k | 0 <= k < |cs| ::
      cs[k] == Outlives(d.0, d.1) && !Provable(env, e, d.0, d.1) && forall x | x in Demands(cs[..k]) :: Provable(env, e, x.0, x.1)
  }

  /** A pair of representatives, in order, whose classes are related both ways. */
  ghost predicate CyclePair(env: Env, cs: seq<Constraint>, c: (Lifetime, Lifetime)) {
    Less(c.0, c.1) && exists p, q | p in Edges(env, cs) && q in Edges(env, cs) ::
      Canonical(Equalities(cs), p, c) && Canonical(Equalities(cs), q, (c.1, c.0))
  }

  /** The least such pair. */
  ghost predicate LeastCycle(env: Env, cs: seq<Constraint>, c: (Lifetime, Lifetime)) {
    CyclePair(env, cs, c) && forall d | CyclePair(env, cs, d) :: PairLeq(c, d)
  }

  predicate PairLeq(c: (Lifetime, Lifetime), d: (Lifetime, Lifetime)) {
    Less(c.0, d.0) || (c.0 == d.0 && Leq(c.1, d.1))
  }

  /** The full meaning of an answer. */
  ghost predicate Answers(env: Env, cs: seq<Constraint>, r: Result<map<Lifetime, Lifetime>, LifetimeError>) {
    var e := Equalities(cs);
    match r
    case Ok(m) =>
      AllDeclared(env, cs) && !HasTwoCycle(env, cs) && AllProvable(env, cs) && ClassMap(env, e, m)
    case Err(Mismatch(x)) =>
      FirstUndeclared(env, cs, x)
    case Err(Cycle(a, b)) =>
      AllDeclared(env, cs) && LeastCycle(env, cs, (a, b))
    case Err(TooShort(o, i)) =>
      AllDeclared(env, cs) && !HasTwoCycle(env, cs) && FirstUnprovable(env, e, cs, (o, i))
  }

  // ---------------------------------------------------------------------
  // The solver's passes
  // ---------------------------------------------------------------------

  method FindUndeclared(env: Env, cs: seq<Constraint>) returns (r: Option<Lifetime>)
    ensures r.None? ==> AllDeclared(env, cs)
    ensures r.Some? ==> FirstUndeclared(env, cs, r.value)
  {
    for k := 0 to |cs|
      invariant AllDeclared(env, cs[..k])
    {
      if First(cs[k]) !in env.params {
        return Some(First(cs[k]));
      }
      if Second(cs[k]) !in env.params {
        return Some(Second(cs[k]));
      }
      assert cs[..k + 1] == cs[..k] + [cs[k]];
    }
    assert cs[..|cs|] == cs;
    return None;
  }

  method BuildClasses(env: Env, cs: seq<Constraint>) returns (uf: UnionFind)
    requires AllDeclared(env, cs)
    ensures fresh(uf) && uf.Valid() && uf.united == Equalities(cs) && uf.parent.Keys == Elements(env.params)
  {
    uf := new UnionFind();
    for k := 0 to |env.params|
      invariant fresh(uf) && uf.Valid() && uf.united == {} && uf.parent.Keys == Elements(env.params[..k])
    {
      uf.Insert(env.params[k]);
      assert env.params[..k + 1] == env.params[..k] + [env.params[k]];
    }
    assert env.params[..|env.params|] == env.params;
    for k := 0 to |cs|
      invariant fresh(uf) && uf.Valid() && uf.united == Equalities(cs[..k])
      invariant uf.parent.Keys == Elements(env.params)
    {
      var c := cs[k];
      if c.Equal? {
        assert c in cs && Mentions(c, c.a) && Mentions(c, c.b);
        uf.Insert(c.a);
        uf.Insert(c.b);
        uf.Union(c.a, c.b);
      }
      EqualitiesSnoc(cs, k);
    }
    assert cs[..|cs|] == cs;
  }

  lemma EqualitiesSnoc(cs: seq<Constraint>, k: nat)
    requires k < |cs|
    ensures Equalities(cs[..k + 1]) == Equalities(cs[..k]) + if cs[k].Equal? then {(cs[k].a, cs[k].b)} else {}
    ensures Demands(cs[..k + 1]) == Demands(cs[..k]) + if cs[k].Outlives? then {(cs[k].outer, cs[k].inner)} else {}
  {
    assert cs[..k + 1] == cs[..k] + [cs[k]];
  }

  ghost predicate Canonical(e: Pairs, p: (Lifetime, Lifetime), c: (Lifetime, Lifetime)) {
    IsRep(e, p.0, c.0) && IsRep(e, p.1, c.1)
  }

  /** `edges` are the class-level images of `from`, self-loops left out. */
  ghost predicate Collapsed(e: Pairs, from: Pairs, edges: Pairs) {
    && (forall c | c in edges :: c.0 != c.1 && exists p | p in from :: Canonical(e, p, c))
    && (forall p | p in from :: exists c :: Canonical(e, p, c) && (c.0 != c.1 ==> c in edges))
  }

  method Collapse(uf: UnionFind, pairs: seq<(Lifetime, Lifetime)>) returns (edges: Pairs)
    requires uf.Valid()
    modifies uf`parent
    ensures uf.Valid() && uf.parent.Keys == old(uf.parent).Keys + Ends(PairSet(pairs))
    ensures Collapsed(uf.united, PairSet(pairs), edges)
  {
    edges := {};
    for k := 0 to |pairs|
      invariant uf.Valid() && uf.parent.Keys == old(uf.parent).Keys + Ends(PairSet(pairs[..k]))
      invariant Collapsed(uf.united, PairSet(pairs[..k]), edges)
    {
      edges := CollapsePair(uf, PairSet(pairs[..k]), edges, pairs[k]);
      PairSetSnoc(pairs, k);
    }
    assert pairs[..|pairs|] == pairs;
  }

  method CollapsePair(uf: UnionFind, ghost from: Pairs, before: Pairs, p: (Lifetime, Lifetime)) returns (edges: Pairs)
    requires uf.Valid() && Collapsed(uf.united, from, before)
    modifies uf`parent
    ensures uf.Valid() && uf.parent.Keys == old(uf.parent).Keys + {p.0, p.1}
    ensures Collapsed(uf.united, from + {p}, edges)
  {
    var outer := uf.FindOrInsert(p.0);
    var inner := uf.FindOrInsert(p.1);
    CollapsedGrows(uf.united, from, before, p, (outer, inner));
    edges := if outer != inner then before + {(outer, inner)} else before;
  }

  lemma PairSetSnoc(pairs: seq<(Lifetime, Lifetime)>, k: nat)
    requires k < |pairs|
    ensures PairSet(pairs[..k + 1]) == PairSet(pairs[..k]) + {pairs[k]}
    ensures Ends(PairSet(pairs[..k + 1])) == Ends(PairSet(pairs[..k])) + {pairs[k].0, pairs[k].1}
  {
    assert pairs[..k + 1] == pairs[..k] + [pairs[k]];
    EndsSplit(PairSet(pairs[..k]), pairs[k]);
  }

  lemma EndsSplit(b: Pairs, p: (Lifetime, Lifetime))
    ensures Ends(b + {p}) == Ends(b) + {p.0, p.1}
  {
  }

  lemma CollapsedGrows(e: Pairs, from: Pairs, edges: Pairs, p: (Lifetime, Lifetime), c: (Lifetime, Lifetime))
    requires Collapsed(e, from, edges) && Canonical(e, p, c)
    ensures Collapsed(e, from + {p}, if c.0 != c.1 then edges + {c} else edges)
  {
    var edges' := if c.0 != c.1 then edges + {c} else edges;
    forall d | d in edges' ensures d.0 != d.1 && exists q | q in from + {p} :: Canonical(e, q, d) {
      if d in edges {
        var q :| q in from && Canonical(e, q, d);
        assert q in from + {p};
      }
    }
    forall q | q in from + {p} ensures exists d :: Canonical(e, q, d) && (d.0 != d.1 ==> d in edges') {
      if q in from {
        var d :| Canonical(e, q, d) && (d.0 != d.1 ==> d in edges);
      }
    }
  }

  lemma CollapsedUnion(e: Pairs, from1: Pairs, edges1: Pairs, from2: Pairs, edges2: Pairs)
    requires Collapsed(e, from1, edges1) && Collapsed(e, from2, edges2)
    ensures Collapsed(e, from1 + from2, edges1 + edges2)
  {
    forall d | d in edges1 + edges2 ensures d.0 != d.1 && exists q | q in from1 + from2 :: Canonical(e, q, d) {
      if d in edges1 {
        var q :| q in from1 && Canonical(e, q, d);
        assert q in from1 + from2;
      } else {
        var q :| q in from2 && Canonical(e, q, d);
        assert q in from1 + from2;
      }
    }
    forall q | q in from1 + from2
      ensures exists d :: Canonical(e, q, d) && (d.0 != d.1 ==> d in edges1 + edges2)
    {
      if q in from1 {
        var d :| Canonical(e, q, d) && (d.0 != d.1 ==> d in edges1);
      } else {
        var d :| Canonical(e, q, d) && (d.0 != d.1 ==> d in edges2);
      }
    }
  }

  predicate TwoWay(edges: Pairs, c: (Lifetime, Lifetime)) {
    c.0 != c.1 && c in edges && (c.1, c.0) in edges
  }

  /** `find_two_cycle`: the first two-way edge in the order of the pairs. */
  method FindTwoCycle(edges: Pairs) returns (r: Option<(Lifetime, Lifetime)>)
    ensures r.None? ==> forall c :: !TwoWay(edges, c)
    ensures r.Some? ==> TwoWay(edges, r.value) && forall c | TwoWay(edges, c) :: PairLeq(r.value, c)
  {
    r := None;
    var rest := edges;
    while rest != {}
      invariant rest <= edges
      invariant r.None? ==> forall c | TwoWay(edges, c) :: c in rest
      invariant r.Some? ==> TwoWay(edges, r.value) && forall c | TwoWay(edges, c) && c !in rest :: PairLeq(r.value, c)
      decreases rest
    {
      var c :| c in rest;
      if c.0 != c.1 && (c.1, c.0) in edges {
        if r.None? {
          r := Some(c);
        } else {
          PairOrder(c, r.value);
          if PairLeq(c, r.value) {
            r := Some(c);
          }
        }
      }
      rest := rest - {c};
    }
  }

  lemma PairOrder(c: (Lifetime, Lifetime), d: (Lifetime, Lifetime))
    ensures PairLeq(c, d) || PairLeq(d, c)
    ensures PairLeq(c, d) ==> forall x | PairLeq(d, x) :: PairLeq(c, x)
    ensures PairLeq(c, d) && PairLeq(d, c) ==> c == d
  {
    Total(c.0, d.0);
    Total(c.1, d.1);
    Irreflexive(c.0);
    if Less(c.0, d.0) {
      Asymmetric(c.0, d.0);
    } else if Less(c.1, d.1) {
      Asymmetric(c.1, d.1);
    }
    if PairLeq(c, d) {
      forall x | PairLeq(d, x) ensures PairLeq(c, x) {
        PairTransitive(c, d, x);
      }
    }
  }

  lemma PairTransitive(c: (Lifetime, Lifetime), d: (Lifetime, Lifetime), x: (Lifetime, Lifetime))
    requires PairLeq(c, d) && PairLeq(d, x)
    ensures PairLeq(c, x)
  {
    if Less(c.0, d.0) && Less(d.0, x.0) {
      Transitive(c.0, d.0, x.0);
    }
    if Less(c.1, d.1) && Less(d.1, x.1) {
      Transitive(c.1, d.1, x.1);
    }
  }

  /** The least two-way class edge is the least cycle pair. */
  lemma CycleShows(env: Env, cs: seq<Constraint>, edges: Pairs, c: (Lifetime, Lifetime))
    requires Collapsed(Equalities(cs), Edges(env, cs), edges)
    requires TwoWay(edges, c) && forall d | TwoWay(edges, d) :: PairLeq(c, d)
    ensures LeastCycle(env, cs, c)
  {
    var e, from := Equalities(cs), Edges(env, cs);
    assert PairLeq(c, (c.1, c.0));
    var p :| p in from && Canonical(e, p, c);
    var q :| q in from && Canonical(e, q, (c.1, c.0));
    assert CyclePair(env, cs, c);
    forall d | CyclePair(env, cs, d) ensures PairLeq(c, d) {
      var p, q :| p in from && q in from && Canonical(e, p, d) && Canonical(e, q, (d.1, d.0));
      Asymmetric(d.0, d.1);
      EdgeShows(e, from, edges, p, d);
      EdgeShows(e, from, edges, q, (d.1, d.0));
    }
  }

  lemma EdgeShows(e: Pairs, from: Pairs, edges: Pairs, p: (Lifetime, Lifetime), c: (Lifetime, Lifetime))
    requires Collapsed(e, from, edges) && p in from && Canonical(e, p, c) && c.0 != c.1
    ensures c in edges
  {
    var d :| Canonical(e, p, d) && (d.0 != d.1 ==> d in edges);
    SameLink(e, p.0, p.0);
    SameLink(e, p.1, p.1);
    RepUnique(e, p.0, p.0, c.0, d.0);
    RepUnique(e, p.1, p.1, c.1, d.1);
    assert c == d;
  }

  /** A cycle pair is a two-cycle between the lifetimes as written. */
  lemma CyclePairHolds(env: Env, cs: seq<Constraint>, c: (Lifetime, Lifetime))
    requires CyclePair(env, cs, c)
    ensures HasTwoCycle(env, cs)
  {
    var e, from := Equalities(cs), Edges(env, cs);
    var p, q :| p in from && q in from && Canonical(e, p, c) && Canonical(e, q, (c.1, c.0));
    Asymmetric(c.0, c.1);
    RepUnique(e, p.0, q.1, c.0, c.0);
    RepUnique(e, p.1, q.0, c.1, c.1);
    RepUnique(e, p.0, p.1, c.0, c.1);
    assert Opposite(e, p, q);
  }

  lemma NoCycleShows(e: Pairs, from: Pairs, edges: Pairs)
    requires Collapsed(e, from, edges)
    requires forall c :: !TwoWay(edges, c)
    ensures forall p, q | p in from && q in from :: !Opposite(e, p, q)
  {
    forall p, q | p in from && q in from ensures !Opposite(e, p, q) {
      var c :| Canonical(e, p, c) && (c.0 != c.1 ==> c in edges);
      var d :| Canonical(e, q, d) && (d.0 != d.1 ==> d in edges);
      RepUnique(e, p.0, q.1, c.0, d.1);
      RepUnique(e, p.1, q.0, c.1, d.0);
      RepUnique(e, p.0, p.1, c.0, c.1);
      assert !TwoWay(edges, c);
    }
  }

  method FindUnprovable(uf: UnionFind, env: Env, cs: seq<Constraint>) returns (r: Option<(Lifetime, Lifetime)>)
    requires uf.Valid() && AllDeclared(env, cs) && Elements(env.params) <= uf.parent.Keys
    modifies uf`parent
    ensures uf.Valid() && uf.parent.Keys == old(uf.parent).Keys
    ensures r.None? ==> forall d | d in Demands(cs) :: Provable(env, uf.united, d.0, d.1)
    ensures r.Some? ==> FirstUnprovable(env, uf.united, cs, r.value)
  {
    for k := 0 to |cs|
      invariant uf.Valid() && uf.parent.Keys == old(uf.parent).Keys
      invariant forall d | d in Demands(cs[..k]) :: Provable(env, uf.united, d.0, d.1)
    {
      var c := cs[k];
      if c.Outlives? {
        assert c in cs && Mentions(c, c.outer) && Mentions(c, c.inner);
        var ok := CheckRequirement(uf, env, c.outer, c.inner);
        if !ok {
          return Some((c.outer, c.inner));
        }
      }
      EqualitiesSnoc(cs, k);
    }
    assert cs[..|cs|] == cs;
    return None;
  }

  method CheckRequirement(uf: UnionFind, env: Env, outer: Lifetime, inner: Lifetime) returns (ok: bool)
    requires uf.Valid() && outer in uf.parent && inner in uf.parent
    modifies uf`parent
    ensures uf.Valid() && uf.parent == old(uf.parent)
    ensures ok <==> Provable(env, uf.united, outer, inner)
  {
    var outerRoot := uf.FindOrInsert(outer);
    var innerRoot := uf.FindOrInsert(inner);
    RepUnique(uf.united, outer, inner, outerRoot, innerRoot);
    if outerRoot == innerRoot {
      return true;
    }
    ok := CheckOutlives(outer, inner, env);
  }

  method Representatives(uf: UnionFind, env: Env) returns (m: map<Lifetime, Lifetime>)
    requires uf.Valid() && uf.parent.Keys == Known(env)
    modifies uf`parent
    ensures ClassMap(env, uf.united, m)
  {
    m := map[];
    var rest := uf.Members();
    while rest != {}
      invariant uf.Valid() && uf.parent.Keys == Known(env)
      invariant rest <= Known(env) && m.Keys == Known(env) - rest
      invariant forall x | x in m :: IsRep(uf.united, x, m[x])
      decreases rest
    {
      var x :| x in rest;
      var rep := uf.FindOrInsert(x);
      m := m[x := rep];
      rest := rest - {x};
    }
  }

  function DemandList(cs: seq<Constraint>): (r: seq<(Lifetime, Lifetime)>) {
    if cs == [] then []
    else (if cs[0].Outlives? then [(cs[0].outer, cs[0].inner)] else []) + DemandList(cs[1..])
  }

  lemma {:induction false} DemandListed(cs: seq<Constraint>)
    ensures PairSet(DemandList(cs)) == Demands(cs)
  {
    if cs != [] {
      DemandListed(cs[1..]);
      var head := if cs[0].Outlives? then [(cs[0].outer, cs[0].inner)] else [];
      assert PairSet(head + DemandList(cs[1..])) == PairSet(head) + PairSet(DemandList(cs[1..]));
      assert cs == [cs[0]] + cs[1..];
      assert Demands([cs[0]] + cs[1..]) == PairSet(head) + Demands(cs[1..]);
    }
  }

  /** The class-level edges of the bounds and the requirements together. */
  method CollapseAll(uf: UnionFind, env: Env, cs: seq<Constraint>) returns (edges: Pairs)
    requires uf.Valid() && AllDeclared(env, cs) && uf.parent.Keys == Elements(env.params)
    modifies uf`parent
    ensures uf.Valid() && uf.parent.Keys == Known(env)
    ensures Collapsed(uf.united, Edges(env, cs), edges)
  {
    var edges1 := Collapse(uf, env.bounds);
    var edges2 := Collapse(uf, DemandList(cs));
    DemandListed(cs);
    DemandsDeclared(env, cs);
    CollapsedUnion(uf.united, PairSet(env.bounds), edges1, Demands(cs), edges2);
    edges := edges1 + edges2;
  }

  /** `solve_constraints`. */
  method Solve(env: Env, cs: seq<Constraint>) returns (r: Result<map<Lifetime, Lifetime>, LifetimeError>)
    ensures Answers(env, cs, r)
  {
    var undeclared := FindUndeclared(env, cs);
    if undeclared.Some? {
      return Err(Mismatch(undeclared.value));
    }
    var uf := BuildClasses(env, cs);
    var edges := CollapseAll(uf, env, cs);
    var cycle := FindTwoCycle(edges);
    if cycle.Some? {
      var (a, b) := cycle.value;
      CycleShows(env, cs, edges, (a, b));
      return Err(if Leq(a, b) then Cycle(a, b) else Cycle(b, a));
    }
    NoCycleShows(Equalities(cs), Edges(env, cs), edges);
    var short := FindUnprovable(uf, env, cs);
    if short.Some? {
      return Err(TooShort(short.value.0, short.value.1));
    }
    var m := Representatives(uf, env);
    return Ok(m);
  }

  lemma DemandsDeclared(env: Env, cs: seq<Constraint>)
    requires AllDeclared(env, cs)
    ensures Ends(Demands(cs)) <= Elements(env.params)
  {
    forall x | x in Ends(Demands(cs)) ensures x in env.params {
      var c :| c in cs && c.Outlives? && (x == c.outer || x == c.inner);
      assert Mentions(c, x);
    }
  }

  // ---------------------------------------------------------------------
  // What follows for every answer
  // ---------------------------------------------------------------------

  /** Success is sound: requirements hold in the closure or inside one class, equal lifetimes share a
      representative, and a representative is the least member of its class. */
  lemma SuccessIsSound(env: Env, cs: seq<Constraint>, m: map<Lifetime, Lifetime>)
    requires Answers(env, cs, Ok(m))
    ensures forall c | c in cs && c.Equal? :: c.a in m && c.b in m && m[c.a] == m[c.b]
    ensures forall c | c in cs && c.Outlives? ::
              && c.outer in m && c.inner in m
              && (m[c.outer] == m[c.inner] || Reaches(PairSet(env.bounds), c.outer, c.inner))
    ensures forall x, y | x in m && y in m && m[x] == m[y] :: Leq(m[x], y)
  {
    var e := Equalities(cs);
    forall c | c in cs && c.Equal? ensures c.a in m && c.b in m && m[c.a] == m[c.b] {
      assert Mentions(c, c.a) && Mentions(c, c.b);
      assert c.a in m.Keys && c.b in m.Keys;
      SameLink(e, c.a, c.b);
      RepUnique(e, c.a, c.b, m[c.a], m[c.b]);
    }
    forall c | c in cs && c.Outlives?
      ensures c.outer in m && c.inner in m
      ensures m[c.outer] == m[c.inner] || Reaches(PairSet(env.bounds), c.outer, c.inner)
    {
      assert Mentions(c, c.outer) && Mentions(c, c.inner);
      assert c.outer in m.Keys && c.inner in m.Keys;
      assert (c.outer, c.inner) in Demands(cs);
      assert Provable(env, e, c.outer, c.inner);
      RepUnique(e, c.outer, c.inner, m[c.outer], m[c.inner]);
    }
    forall x, y | x in m && y in m && m[x] == m[y] ensures Leq(m[x], y) {
      RepUnique(e, x, y, m[x], m[y]);
    }
  }

  /** Order and repetition of the constraints do not matter: two answers for the same set of
      constraints succeed together, and then with the same map; and they report the same cycle. */
  lemma AnswersIgnoreOrder(env: Env, cs: seq<Constraint>, ds: seq<Constraint>,
                           r: Result<map<Lifetime, Lifetime>, LifetimeError>,
                           t: Result<map<Lifetime, Lifetime>, LifetimeError>)
    requires Answers(env, cs, r) && Answers(env, ds, t)
    requires forall c :: c in cs <==> c in ds
    ensures r.Ok? <==> t.Ok?
    ensures r.Ok? ==> r == t
    ensures r.Err? && r.error.Cycle? ==> r == t
  {
    FailureMeansUnsolvable(env, cs, r);
    FailureMeansUnsolvable(env, ds, t);
    SolvableIgnoresOrder(env, cs, ds);
    if r.Ok? {
      ClassMapUnique(env, Equalities(cs), r.value, t.value);
    } else if r.error.Cycle? {
      SameCycle(env, cs, ds, (r.error.a, r.error.b), t);
    }
  }

  lemma ClassMapUnique(env: Env, e: Pairs, m: map<Lifetime, Lifetime>, n: map<Lifetime, Lifetime>)
    requires ClassMap(env, e, m) && ClassMap(env, e, n)
    ensures m == n
  {
    assert m.Keys == n.Keys;
    forall x | x in m ensures m[x] == n[x] {
      assert x in n.Keys;
      SameLink(e, x, x);
      RepUnique(e, x, x, m[x], n[x]);
    }
  }

  lemma SameCycle(env: Env, cs: seq<Constraint>, ds: seq<Constraint>, c: (Lifetime, Lifetime),
                  t: Result<map<Lifetime, Lifetime>, LifetimeError>)
    requires AllDeclared(env, cs) && LeastCycle(env, cs, c) && Answers(env, ds, t)
    requires forall c :: c in cs <==> c in ds
    ensures t == Err(Cycle(c.0, c.1))
  {
    SolvableIgnoresOrder(env, cs, ds);
    assert LeastCycle(env, ds, c) by {
      forall d ensures CyclePair(env, cs, d) <==> CyclePair(env, ds, d) {
      }
    }
    CyclePairHolds(env, ds, c);
    if t.Err? && t.error.Mismatch? {
      UndeclaredShows(env, ds, t.error.name);
    } else if t.Err? && t.error.Cycle? {
      PairOrder(c, (t.error.a, t.error.b));
    }
  }

  lemma UndeclaredShows(env: Env, cs: seq<Constraint>, x: Lifetime)
    requires FirstUndeclared(env, cs, x)
    ensures !AllDeclared(env, cs)
  {
    var k :| 0 <= k < |cs| && x !in env.params && (x == First(cs[k]) || x == Second(cs[k]));
    var c := cs[k];
    assert c in cs && (c.Outlives? || c.Equal?);
    assert Mentions(c, x);
  }

  /** The exact condition for success. */
  ghost predicate Solvable(env: Env, cs: seq<Constraint>) {
    AllDeclared(env, cs) && !HasTwoCycle(env, cs) && AllProvable(env, cs)
  }

  lemma FailureMeansUnsolvable(env: Env, cs: seq<Constraint>, r: Result<map<Lifetime, Lifetime>, LifetimeError>)
    requires Answers(env, cs, r)
    ensures r.Ok? <==> Solvable(env, cs)
  {
    if r.Err? {
      match r.error
      case Mismatch(x) => UndeclaredShows(env, cs, x);
      case Cycle(a, b) => CyclePairHolds(env, cs, (a, b));
      case TooShort(o, i) =>
        var k :| 0 <= k < |cs| && cs[k] == Outlives(o, i) && !Provable(env, Equalities(cs), o, i);
        assert cs[k] in cs && (o, i) in Demands(cs);
    }
  }

  lemma SolvableIgnoresOrder(env: Env, cs: seq<Constraint>, ds: seq<Constraint>)
    requires forall c :: c in cs <==> c in ds
    ensures Solvable(env, cs) <==> Solvable(env, ds)
    ensures AllDeclared(env, cs) <==> AllDeclared(env, ds)
    ensures Equalities(cs) == Equalities(ds) && Edges(env, cs) == Edges(env, ds)
  {
    assert Equalities(cs) == Equalities(ds) && Demands(cs) == Demands(ds);
    assert AllDeclared(env, cs) <==> AllDeclared(env, ds);
  }

  /** Requirements are checked against the bounds as written, not against their collapsed form: with
      the bound `'a: 'b` and the equality `'b = 'c`, requiring `'a: 'c` is rejected. */
  lemma EqualitiesDoNotExtendBounds(r: Result<map<Lifetime, Lifetime>, LifetimeError>)
    requires Answers(Env(["'a", "'b", "'c"], [("'a", "'b")]), [Equal("'b", "'c"), Outlives("'a", "'c")], r)
    ensures r.Err?
  {
    var env := Env(["'a", "'b", "'c"], [("'a", "'b")]);
    var cs := [Equal("'b", "'c"), Outlives("'a", "'c")];
    FailureMeansUnsolvable(env, cs, r);
    assert cs[1] in cs;
    assert ("'a", "'c") in Demands(cs);
    var e := Equalities(cs);
    assert forall pair | pair in e :: pair == ("'b", "'c");
    NotSame(e, {"'a"}, "'a", "'c");
    OneBoundReaches();
    assert !Provable(env, e, "'a", "'c");
  }

  lemma OneBoundReaches()
    ensures !Reaches(PairSet([("'a", "'b")]), "'a", "'c")
  {
    var b := PairSet([("'a", "'b")]);
    assert forall pair | pair in b :: pair == ("'a", "'b");
    NotReached(b, {"'a", "'b"}, "'a", "'c");
  }

  lemma NotSame(e: Pairs, s: set<Lifetime>, x: Lifetime, y: Lifetime)
    requires Saturated(e, s) && x in s && y !in s
    ensures !Same(e, x, y)
  {
    if Same(e, x, y) {
      var c :| Joins(e, c, x, y);
      ChainStays(e, s, c);
    }
  }

  lemma NotReached(b: Pairs, s: set<Lifetime>, x: Lifetime, y: Lifetime)
    requires Closed(b, s) && x in s && y !in s
    ensures !Reaches(b, x, y)
  {
    if Reaches(b, x, y) {
      var p :| Path(b, p, x, y);
      PathStays(b, s, p, x, y);
    }
  }
}

/** The dispatch table: what it holds, and route insertion, selection and redirects. */
module RouteDispatch {
  import opened Wrappers
  import opened Order
  import opened RoutePatterns

  datatype Route = Route(symbolId: string, verb: string, path: string, effects: seq<string>, principalRequired: bool)

  datatype Principal = Principal(id: string, capabilities: set<string>)

  datatype Request = Request(
    verb: string,
    path: string,
    principal: Option<Principal>,
    body: string,
    headers: map<string, string>,
    pathParams: map<string, string>
  )

  datatype Response = Response(status: nat, body: string, headers: map<string, string>)

  datatype Outcome = Continue | Short(response: Response)

  datatype Kind = Before | After

  datatype Middleware = Middleware(kind: Kind, handler: (Request, Option<Response>) -> Outcome)

  datatype SlashPolicy = Strict | Lenient

  datatype DispatchError =
    | NotFound
    | MethodNotAllowed(allowed: seq<string>)
    | MissingPrincipal
    | MissingCapability(needed: string)
    | ConflictingRoute(existing: string, requested: string)

  type Routes = map<(string, string), Route>  // by verb and path

  // ---------------------------------------------------------------------
  // What the table means
  // ---------------------------------------------------------------------

  /** A stored path of this method whose pattern matches the request. */
  predicate Candidate(routes: Routes, verb: string, path: string, stored: string) {
    (verb, stored) in routes && Matches(Parse(stored), path)
  }

  function Count(stored: string): nat {
    ParamCount(Parse(stored).segments)
  }

  predicate Precedes(a: string, b: string) {
    Count(a) < Count(b) || (Count(a) == Count(b) && Leq(a, b))
  }

  /** The route a request gets: its own path if stored, else the first with the fewest parameters. */
  ghost predicate Selected(routes: Routes, verb: string, path: string, stored: string) {
    && Candidate(routes, verb, path, stored)
    && ((verb, path) in routes ==> stored == path)
    && ((verb, path) !in routes ==> forall q | Candidate(routes, verb, path, q) :: Precedes(stored, q))
  }

  ghost predicate Answerable(routes: Routes, verb: string, path: string) {
    exists stored :: Candidate(routes, verb, path, stored)
  }

  ghost predicate Known(routes: Routes, path: string) {
    exists verb :: Answerable(routes, verb, path)
  }

  /** Another path of the same method that the conflict test refuses. */
  predicate Clash(routes: Routes, verb: string, path: string, other: string) {
    (verb, other) in routes && other != path && Shape(Parse(other)) == Shape(Parse(path))
  }

  /** No two paths of one method have the same shape. */
  ghost predicate Unambiguous(routes: Routes) {
    forall verb, path, other | (verb, path) in routes :: !Clash(routes, verb, path, other)
  }

  function PathsOf(routes: Routes, verb: string): set<string> {
    set key | key in routes && key.0 == verb :: key.1
  }

  function TrimSlashes(path: string): (r: string)
    ensures r == [] || r[|r| - 1] != '/'
  {
    if path != [] && path[|path| - 1] == '/' then TrimSlashes(path[..|path| - 1]) else path
  }

  ghost predicate Redirects(routes: Routes, policy: SlashPolicy, path: string) {
    policy == Lenient && Trailing(path) && Known(routes, TrimSlashes(path))
  }

  /** Every route is stored under its own key, and the patterns are those of the stored paths. */
  ghost predicate Consistent(routes: Routes, patterns: map<string, Pattern>) {
    && (forall key | key in routes :: routes[key].verb == key.0 && routes[key].path == key.1 && key.1 in patterns)
    && (forall path | path in patterns :: patterns[path] == Parse(path) && exists verb :: (verb, path) in routes)
  }

  lemma ConsistentInsert(routes: Routes, patterns: map<string, Pattern>, route: Route)
    requires Consistent(routes, patterns)
    ensures Consistent(routes[(route.verb, route.path) := route], patterns[route.path := Parse(route.path)])
  {
    var routes', patterns' := routes[(route.verb, route.path) := route], patterns[route.path := Parse(route.path)];
    forall path | path in patterns' ensures patterns'[path] == Parse(path) && exists verb :: (verb, path) in routes' {
      if path == route.path {
        assert (route.verb, path) in routes';
      } else {
        var verb :| (verb, path) in routes;
        assert (verb, path) in routes';
      }
    }
  }

  class DispatchTable {
    var routes: Routes
    var patterns: map<string, Pattern>
    var middleware: seq<Middleware>
    var slashPolicy: SlashPolicy

    ghost predicate Valid()
      reads this
    {
      Consistent(routes, patterns)
    }

    constructor ()
      ensures Valid() && routes == map[] && middleware == [] && slashPolicy == Strict
    {
      routes, patterns, middleware, slashPolicy := map[], map[], [], Strict;
    }

    /** Last write wins; the replaced route is returned. */
    method Insert(route: Route) returns (prior: Option<Route>)
      requires Valid()
      modifies this`routes, this`patterns
      ensures Valid() && routes == old(routes)[(route.verb, route.path) := route]
      ensures var key := (route.verb, route.path);
              prior == if key in old(routes) then Some(old(routes)[key]) else None
    {
      ConsistentInsert(routes, patterns, route);
      var pattern := ParsePattern(route.path);
      patterns := patterns[route.path := pattern];
      var key := (route.verb, route.path);
      prior := if key in routes then Some(routes[key]) else None;
      routes := routes[key := route];
    }

    /** Refused exactly when another path of the method has the same shape; the first such path is
        named and the table is left as it was. */
    method InsertRoute(route: Route) returns (r: Result<(), DispatchError>)
      requires Valid()
      modifies this`routes, this`patterns
      ensures Valid()
      ensures r.Ok? <==> forall q :: !Clash(old(routes), route.verb, route.path, q)
      ensures r.Ok? ==> routes == old(routes)[(route.verb, route.path) := route]
      ensures r.Err? ==> routes == old(routes) && patterns == old(patterns)
      ensures r.Err? ==> exists q :: r.error == ConflictingRoute(q, route.path) && FirstClash(routes, route, q)
    {
      var newPattern := ParsePattern(route.path);
      var clash := FindClash(route, newPattern);
      if clash.Some? {
        return Err(ConflictingRoute(clash.value, route.path));
      }
      ConsistentInsert(routes, patterns, route);
      patterns := patterns[route.path := newPattern];
      routes := routes[(route.verb, route.path) := route];
      return Ok(());
    }

    /** The first other path of the method, in order, that has the new route's shape. */
    method FindClash(route: Route, newPattern: Pattern) returns (r: Option<string>)
      requires Valid() && newPattern == Parse(route.path)
      ensures r.None? ==> forall q :: !Clash(routes, route.verb, route.path, q)
      ensures r.Some? ==> FirstClash(routes, route, r.value)
    {
      var newShape := ComputeShape(newPattern);
      var paths := ListPaths(route.verb);
      ghost var table := routes;
      for k := 0 to |paths|
        invariant NoneBefore(table, route, paths, k)
      {
        Listed(table, route.verb, paths, k);
        var clashes := IsClash(route, newShape, paths[k]);
        if clashes {
          ClashIsFirst(table, route, paths, k);
          return Some(paths[k]);
        }
      }
      NoClash(table, route, paths);
      return None;
    }

    method IsClash(route: Route, newShape: string, path: string) returns (clashes: bool)
      requires Valid() && newShape == Shape(Parse(route.path)) && (route.verb, path) in routes
      ensures clashes <==> Clash(routes, route.verb, route.path, path)
    {
      if path == route.path {
        return false;
      }
      var shape := ComputeShape(patterns[path]);
      clashes := shape == newShape;
    }

    method ListPaths(verb: string) returns (paths: seq<string>)
      ensures ListsPaths(routes, verb, paths)
    {
      paths := SortedElements(PathsOf(routes, verb));
    }

    method MethodsMatching(path: string) returns (found: seq<string>)
      requires Valid()
      ensures Sorted(found) && forall m :: m in found <==> Answerable(routes, m, path)
    {
      var methods: set<string> := {};
      var rest := routes.Keys;
      while rest != {}
        invariant rest <= routes.Keys
        invariant forall m :: m in methods <==> exists q :: Candidate(routes, m, path, q) && (m, q) !in rest
        decreases rest
      {
        var key :| key in rest;
        var params := MatchPath(patterns[key.1], path);
        ghost var before := methods;
        if params.Some? {
          methods := methods + {key.0};
        }
        MethodsGrow(routes, path, rest, before, key);
        rest := rest - {key};
      }
      found := SortedElements(methods);
    }

    method FindMatchingRoute(verb: string, path: string) returns (r: Option<Route>)
      requires Valid()
      ensures r.None? <==> !Answerable(routes, verb, path)
      ensures r.Some? ==> r.value.path in PathsOf(routes, verb) && r.value == routes[(verb, r.value.path)]
      ensures r.Some? ==> Selected(routes, verb, path, r.value.path)
    {
      if (verb, path) in routes {
        MatchesItself(path);
        assert Candidate(routes, verb, path, path);
        return Some(routes[(verb, path)]);
      }
      var best: Option<(Route, nat)> := None;
      var paths := ListPaths(verb);
      for k := 0 to |paths|
        invariant best.None? ==> forall j | 0 <= j < k :: !Candidate(routes, verb, path, paths[j])
        invariant best.Some? ==> BestOf(routes, verb, path, paths[..k], best.value.0, best.value.1)
      {
        assert paths[k] in paths;
        assert (verb, paths[k]) in routes;
        BestGrows(routes, verb, path, paths, k, best);
        best := Better(routes[(verb, paths[k])], path, best);
      }
      assert paths[..|paths|] == paths;
      if best.None? {
        NoCandidate(routes, verb, path, paths);
        return None;
      }
      BestIsSelected(routes, verb, path, paths, best.value.0, best.value.1);
      return Some(best.value.0);
    }

    /** One round of the search: a matching route with strictly fewer parameters replaces the best. */
    method Better(route: Route, path: string, best: Option<(Route, nat)>) returns (r: Option<(Route, nat)>)
      requires Valid() && route.path in patterns
      ensures r == BetterOf(route, path, best)
    {
      var pattern := patterns[route.path];
      var params := MatchPath(pattern, path);
      if params.None? {
        return best;
      }
      var count := ParamCount(pattern.segments);
      if best.None? || count < best.value.1 {
        return Some((route, count));
      }
      return best;
    }

    /** The target of a trailing-slash redirect. */
    method LenientRedirect(path: string) returns (location: Option<string>)
      requires Valid()
      ensures location.Some? <==> Redirects(routes, slashPolicy, path)
      ensures location.Some? ==> location.value == TrimSlashes(path)
    {
      if slashPolicy != Lenient {
        return None;
      }
      if |path| <= 1 || path[|path| - 1] != '/' {
        return None;
      }
      var canonical := TrimSlashes(path);
      var rest := routes.Keys;
      while rest != {}
        invariant rest <= routes.Keys
        invariant forall key | key in routes.Keys - rest :: !Matches(Parse(key.1), canonical)
        decreases rest
      {
        var key :| key in rest;
        assert key in routes;
        MatchesItself(canonical);
        if key.1 == canonical {
          assert Candidate(routes, key.0, canonical, key.1) && Answerable(routes, key.0, canonical);
          return Some(canonical);
        }
        var params := MatchPath(patterns[key.1], canonical);
        if key.1 != path && params.Some? {
          assert Candidate(routes, key.0, canonical, key.1) && Answerable(routes, key.0, canonical);
          return Some(canonical);
        }
        rest := rest - {key};
      }
      return None;
    }
  }

  // ---------------------------------------------------------------------
  // Insertion
  // ---------------------------------------------------------------------

  ghost predicate FirstClash(routes: Routes, route: Route, q: string) {
    Clash(routes, route.verb, route.path, q) && forall p | Clash(routes, route.verb, route.path, p) :: Leq(q, p)
  }

  ghost predicate ListsPaths(routes: Routes, verb: string, paths: seq<string>) {
    Sorted(paths) && forall p :: p in paths <==> p in PathsOf(routes, verb)
  }

  lemma Listed(routes: Routes, verb: string, paths: seq<string>, k: nat)
    requires ListsPaths(routes, verb, paths) && k < |paths|
    ensures (verb, paths[k]) in routes
  {
    assert paths[k] in paths;
  }

  ghost predicate NoneBefore(routes: Routes, route: Route, paths: seq<string>, k: nat) {
    forall j | 0 <= j < k && j < |paths| :: !Clash(routes, route.verb, route.path, paths[j])
  }

  lemma ClashIsFirst(routes: Routes, route: Route, paths: seq<string>, k: nat)
    requires ListsPaths(routes, route.verb, paths) && k < |paths|
    requires Clash(routes, route.verb, route.path, paths[k]) && NoneBefore(routes, route, paths, k)
    ensures FirstClash(routes, route, paths[k])
  {
    forall p | Clash(routes, route.verb, route.path, p) ensures Leq(paths[k], p) {
      assert p in PathsOf(routes, route.verb);
      var i :| 0 <= i < |paths| && paths[i] == p;
    }
  }

  lemma NoClash(routes: Routes, route: Route, paths: seq<string>)
    requires ListsPaths(routes, route.verb, paths) && NoneBefore(routes, route, paths, |paths|)
    ensures forall q :: !Clash(routes, route.verb, route.path, q)
  {
    forall q ensures !Clash(routes, route.verb, route.path, q) {
      if (route.verb, q) in routes {
        assert q in PathsOf(routes, route.verb);
        assert q in paths;
      }
    }
  }

  /** Accepted insertions keep the table free of shape clashes. */
  lemma InsertKeepsUnambiguous(routes: Routes, route: Route)
    requires Unambiguous(routes) && forall q :: !Clash(routes, route.verb, route.path, q)
    ensures Unambiguous(routes[(route.verb, route.path) := route])
  {
    var next := routes[(route.verb, route.path) := route];
    forall verb, path, other | (verb, path) in next ensures !Clash(next, verb, path, other) {
      assert (verb, path) in routes ==> !Clash(routes, verb, path, other);
      assert !Clash(routes, route.verb, route.path, path);
      assert !Clash(routes, route.verb, route.path, other);
    }
  }

  /** In a table without clashes, any two paths of one method are told apart by some request path. */
  lemma PathsAreDistinguishable(routes: Routes, verb: string, p: string, q: string)
    requires Unambiguous(routes) && (verb, p) in routes && (verb, q) in routes && p != q
    ensures exists path :: Matches(Parse(p), path) != Matches(Parse(q), path)
  {
    assert !Clash(routes, verb, p, q);
    SameMatchesExactly(p, q);
  }

  // ---------------------------------------------------------------------
  // Selection
  // ---------------------------------------------------------------------

  lemma MethodsGrow(routes: Routes, path: string, rest: set<(string, string)>, methods: set<string>, key: (string, string))
    requires key in rest && rest <= routes.Keys
    requires forall m :: m in methods <==> exists q :: Candidate(routes, m, path, q) && (m, q) !in rest
    ensures var next := if Matches(Parse(key.1), path) then methods + {key.0} else methods;
            forall m :: m in next <==> exists q :: Candidate(routes, m, path, q) && (m, q) !in rest - {key}
  {
    var next := if Matches(Parse(key.1), path) then methods + {key.0} else methods;
    forall m ensures m in next <==> exists q :: Candidate(routes, m, path, q) && (m, q) !in rest - {key} {
      if m in next {
        if m in methods {
          var q :| Candidate(routes, m, path, q) && (m, q) !in rest;
          assert (m, q) !in rest - {key};
        } else {
          assert Candidate(routes, m, path, key.1) && (m, key.1) !in rest - {key};
        }
      }
      if q :| Candidate(routes, m, path, q) && (m, q) !in rest - {key} {
        if (m, q) == key {
          assert m in next;
        } else {
          assert (m, q) !in rest;
          assert m in methods;
        }
      }
    }
  }

  function BetterOf(route: Route, path: string, best: Option<(Route, nat)>): Option<(Route, nat)> {
    if Matches(Parse(route.path), path) && (best.None? || Count(route.path) < best.value.1)
    then Some((route, Count(route.path)))
    else best
  }

  /** The best of the paths seen so far, listed in order. */
  ghost predicate BestOf(routes: Routes, verb: string, path: string, paths: seq<string>, route: Route, count: nat) {
    && route.path in paths && Candidate(routes, verb, path, route.path)
    && route == routes[(verb, route.path)] && count == Count(route.path)
    && forall q | q in paths && Candidate(routes, verb, path, q) :: Precedes(route.path, q)
  }

  lemma BestGrows(routes: Routes, verb: string, path: string, paths: seq<string>, k: nat, best: Option<(Route, nat)>)
    requires ListsPaths(routes, verb, paths) && k < |paths|
    requires (verb, paths[k]) in routes && routes[(verb, paths[k])].path == paths[k]
    requires best.None? ==> forall j | 0 <= j < k :: !Candidate(routes, verb, path, paths[j])
    requires best.Some? ==> BestOf(routes, verb, path, paths[..k], best.value.0, best.value.1)
    ensures var next := BetterOf(routes[(verb, paths[k])], path, best);
            && (next.None? ==> forall j | 0 <= j < k + 1 :: !Candidate(routes, verb, path, paths[j]))
            && (next.Some? ==> BestOf(routes, verb, path, paths[..k + 1], next.value.0, next.value.1))
  {
    var next := BetterOf(routes[(verb, paths[k])], path, best);
    assert paths[..k + 1] == paths[..k] + [paths[k]];
    if next.Some? {
      forall q | q in paths[..k + 1] && Candidate(routes, verb, path, q) ensures Precedes(next.value.0.path, q) {
        if q != paths[k] && best.Some? {
          assert q in paths[..k];
        } else if best.Some? {
          var j :| 0 <= j < k && paths[j] == best.value.0.path;
          assert Less(paths[j], paths[k]);
        }
      }
    }
  }

  lemma NoCandidate(routes: Routes, verb: string, path: string, paths: seq<string>)
    requires ListsPaths(routes, verb, paths)
    requires forall j | 0 <= j < |paths| :: !Candidate(routes, verb, path, paths[j])
    ensures !Answerable(routes, verb, path)
  {
    forall q ensures !Candidate(routes, verb, path, q) {
      if (verb, q) in routes {
        assert q in PathsOf(routes, verb);
        assert q in paths;
      }
    }
  }

  lemma BestIsSelected(routes: Routes, verb: string, path: string, paths: seq<string>, route: Route, count: nat)
    requires ListsPaths(routes, verb, paths) && (verb, path) !in routes
    requires BestOf(routes, verb, path, paths, route, count)
    ensures Selected(routes, verb, path, route.path) && route.path in PathsOf(routes, verb)
  {
    forall q | Candidate(routes, verb, path, q) ensures Precedes(route.path, q) {
      assert q in PathsOf(routes, verb);
      assert q in paths;
    }
  }

  /** The selected route has the fewest parameters of all routes of the method that match, also when
      it was found by its exact path. */
  lemma SelectedIsMostSpecific(routes: Routes, verb: string, path: string, stored: string, other: string)
    requires Selected(routes, verb, path, stored) && Candidate(routes, verb, path, other)
    ensures Count(stored) <= Count(other)
  {
    if (verb, path) in routes {
      OwnPatternIsLeast(path, other);
    }
  }

  lemma SelectedUnique(routes: Routes, verb: string, path: string, a: string, b: string)
    requires Selected(routes, verb, path, a) && Selected(routes, verb, path, b)
    ensures a == b
  {
    if a != b {
      assert Precedes(a, b) && Precedes(b, a);
      Asymmetric(a, b);
    }
  }
}

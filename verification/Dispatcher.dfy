/** One request through the dispatcher: redirect, selection, middleware and the capability check. */
module Dispatcher {
  import opened Wrappers
  import opened Order
  import opened RoutePatterns
  import opened RouteDispatch

  type Reply = Result<Response, DispatchError>

  // ---------------------------------------------------------------------
  // Middleware
  // ---------------------------------------------------------------------

  predicate Shorts(mw: Middleware, req: Request) {
    mw.kind == Before && mw.handler(req, None).Short?
  }

  /** The response of the first before-middleware that short-circuits. */
  function ShortBefore(chain: seq<Middleware>, req: Request): Option<Response> {
    if chain == [] then None
    else if Shorts(chain[0], req) then Some(chain[0].handler(req, None).response)
    else ShortBefore(chain[1..], req)
  }

  /** What one after-middleware makes of a response: it may replace it. */
  ghost predicate Replaces(mw: Middleware, req: Request, before: Response, after: Response) {
    var outcome := mw.handler(req, Some(before));
    after == if mw.kind == After && outcome.Short? then outcome.response else before
  }

  /** `rs[k]` is the response once the middlewares from `k` on have run, the last registered first. */
  ghost predicate Unwinds(chain: seq<Middleware>, req: Request, rs: seq<Response>) {
    |rs| == |chain| + 1 && forall k | 0 <= k < |chain| :: Replaces(chain[k], req, rs[k + 1], rs[k])
  }

  /** The after-middlewares, run from the last to the first, turn one response into the other. */
  ghost predicate Unwound(chain: seq<Middleware>, req: Request, initial: Response, response: Response) {
    exists rs :: Unwinds(chain, req, rs) && rs[|chain|] == initial && rs[0] == response
  }

  /** The chain leaves no choice. */
  lemma {:induction false} UnwoundUnique(chain: seq<Middleware>, req: Request, rs: seq<Response>, ts: seq<Response>)
    requires Unwinds(chain, req, rs) && Unwinds(chain, req, ts) && rs[|chain|] == ts[|chain|]
    ensures rs == ts
    decreases |chain|
  {
    if chain != [] {
      var n := |chain| - 1;
      assert Replaces(chain[n], req, rs[n + 1], rs[n]) && Replaces(chain[n], req, ts[n + 1], ts[n]);
      UnwindsPrefix(chain, req, rs);
      UnwindsPrefix(chain, req, ts);
      UnwoundUnique(chain[..n], req, rs[..n + 1], ts[..n + 1]);
      assert rs == rs[..n + 1] + [rs[n + 1]] && ts == ts[..n + 1] + [ts[n + 1]];
    }
  }

  lemma UnwindsPrefix(chain: seq<Middleware>, req: Request, rs: seq<Response>)
    requires chain != [] && Unwinds(chain, req, rs)
    ensures Unwinds(chain[..|chain| - 1], req, rs[..|chain|])
  {
    forall k | 0 <= k < |chain| - 1 ensures Replaces(chain[k], req, rs[k + 1], rs[k]) {
    }
  }

  method RunBefore(chain: seq<Middleware>, req: Request) returns (r: Option<Response>)
    ensures r == ShortBefore(chain, req)
    ensures r.None? <==> forall k | 0 <= k < |chain| :: !Shorts(chain[k], req)
    ensures r.Some? ==> exists k | 0 <= k < |chain| ::
              && Shorts(chain[k], req) && r.value == chain[k].handler(req, None).response
              && forall j | 0 <= j < k :: !Shorts(chain[j], req)
  {
    for k := 0 to |chain|
      invariant ShortBefore(chain, req) == ShortBefore(chain[k..], req)
      invariant forall j | 0 <= j < k :: !Shorts(chain[j], req)
    {
      assert chain[k..][1..] == chain[k + 1..];
      if chain[k].kind != Before {
        continue;
      }
      match chain[k].handler(req, None) {
        case Continue =>
        case Short(response) =>
          assert Shorts(chain[k], req);
          return Some(response);
      }
    }
    return None;
  }

  method RunAfter(chain: seq<Middleware>, req: Request, initial: Response) returns (response: Response)
    ensures Unwound(chain, req, initial, response)
  {
    response := initial;
    ghost var rs := [initial];
    for k := |chain| downto 0
      invariant |rs| == |chain| - k + 1 && rs[|chain| - k] == initial && rs[0] == response
      invariant forall j | k <= j < |chain| :: Replaces(chain[j], req, rs[j - k + 1], rs[j - k])
    {
      ghost var before := response;
      if chain[k].kind == After {
        match chain[k].handler(req, Some(response)) {
          case Continue =>
          case Short(replacement) => response := replacement;
        }
      }
      assert Replaces(chain[k], req, before, response);
      rs := [response] + rs;
    }
    assert Unwinds(chain, req, rs);
  }

  // ---------------------------------------------------------------------
  // The capability check
  // ---------------------------------------------------------------------

  const TRANSPORT: string := "http"

  predicate Held(principal: Principal, effect: string) {
    effect == TRANSPORT || effect in principal.capabilities
  }

  /** What a principal, if any, must bring for the handler to run. */
  predicate Authorised(route: Route, principal: Option<Principal>) {
    match principal
    case None => !route.principalRequired
    case Some(p) => forall e | e in route.effects :: Held(p, e)
  }

  function Success(route: Route): Response {
    Response(200, "{\"dispatched\":\"" + route.symbolId + "\"}", map[])
  }

  /** The refusal names the first effect, in the route's order, that is not held. */
  ghost predicate Refused(route: Route, principal: Option<Principal>, error: DispatchError) {
    match principal
    case None => error == MissingPrincipal
    case Some(p) => exists k | 0 <= k < |route.effects| ::
      && error == MissingCapability(route.effects[k]) && !Held(p, route.effects[k])
      && forall j | 0 <= j < k :: Held(p, route.effects[j])
  }

  method Handle(route: Route, req: Request) returns (r: Reply)
    ensures r.Ok? <==> Authorised(route, req.principal)
    ensures r.Ok? ==> r.value == Success(route)
    ensures r.Ok? ==> r.value.status == 200 && r.value.body == "{\"dispatched\":\"" + route.symbolId + "\"}" && r.value.headers == map[]
    ensures r.Err? ==> Refused(route, req.principal, r.error)
  {
    if route.principalRequired && req.principal.None? {
      return Err(MissingPrincipal);
    }
    if req.principal.Some? {
      var principal := req.principal.value;
      for k := 0 to |route.effects|
        invariant forall j | 0 <= j < k :: Held(principal, route.effects[j])
      {
        if route.effects[k] == TRANSPORT {
          continue;
        }
        if route.effects[k] !in principal.capabilities {
          assert route.effects[k] in route.effects && !Held(principal, route.effects[k]);
          return Err(MissingCapability(route.effects[k]));
        }
      }
    }
    return Ok(Success(route));
  }

  // ---------------------------------------------------------------------
  // Dispatching
  // ---------------------------------------------------------------------

  function RedirectTo(location: string): Response {
    Response(308, "", map["Location" := location])
  }

  ghost predicate ListsMethods(routes: Routes, path: string, allowed: seq<string>) {
    Sorted(allowed) && forall m :: m in allowed <==> Answerable(routes, m, path)
  }

  /** The request as middleware and handler see it. */
  ghost predicate Working(verb: string, stored: string, req: Request, work: Request) {
    && work == req.(verb := verb, pathParams := work.pathParams)
    && |Pieces(req.path)| == |Parse(stored).segments|
    && Binds(Parse(stored), Pieces(req.path), |Parse(stored).segments|, work.pathParams)
  }

  /** What the selected route answers. */
  ghost predicate Routed(route: Route, chain: seq<Middleware>, work: Request, r: Reply) {
    var short := ShortBefore(chain, work);
    if short.Some? then r.Ok? && Unwound(chain, work, short.value, r.value)
    else if Authorised(route, work.principal) then r.Ok? && Unwound(chain, work, Success(route), r.value)
    else r.Err? && Refused(route, work.principal, r.error)
  }

  ghost predicate ByRoute(routes: Routes, chain: seq<Middleware>, verb: string, req: Request, r: Reply) {
    exists stored, work ::
      && Selected(routes, verb, req.path, stored) && Working(verb, stored, req, work)
      && Routed(routes[(verb, stored)], chain, work, r)
  }

  /** The full meaning of a dispatch; `verb` is the upper-cased method. */
  ghost predicate Answers(routes: Routes, policy: SlashPolicy, chain: seq<Middleware>, verb: string, req: Request, r: Reply) {
    if Redirects(routes, policy, req.path) then r == Ok(RedirectTo(TrimSlashes(req.path)))
    else if !Known(routes, req.path) then r == Err(NotFound)
    else if !Answerable(routes, verb, req.path) then
      r.Err? && r.error.MethodNotAllowed? && ListsMethods(routes, req.path, r.error.allowed)
    else ByRoute(routes, chain, verb, req, r)
  }

  method Dispatch(table: DispatchTable, upper: string -> string, req: Request) returns (r: Reply)
    requires table.Valid()
    ensures Answers(table.routes, table.slashPolicy, table.middleware, upper(req.verb), req, r)
  {
    var verb := upper(req.verb);
    var redirect := table.LenientRedirect(req.path);
    if redirect.Some? {
      return Ok(RedirectTo(redirect.value));
    }
    var methods := table.MethodsMatching(req.path);
    if methods == [] {
      assert forall m :: m !in methods;
      return Err(NotFound);
    }
    assert methods[0] in methods;
    var found := table.FindMatchingRoute(verb, req.path);
    if found.None? {
      return Err(MethodNotAllowed(methods));
    }
    r := DispatchTo(table, verb, req, found.value);
  }

  method DispatchTo(table: DispatchTable, verb: string, req: Request, route: Route) returns (r: Reply)
    requires table.Valid() && (verb, route.path) in table.routes && table.routes[(verb, route.path)] == route
    requires Selected(table.routes, verb, req.path, route.path)
    ensures ByRoute(table.routes, table.middleware, verb, req, r)
  {
    var bound := MatchPath(table.patterns[route.path], req.path);
    var params := if bound.Some? then bound.value else req.pathParams;
    var work := req.(verb := verb, pathParams := params);
    assert Working(verb, route.path, req, work);
    var short := RunBefore(table.middleware, work);
    var response: Response;
    if short.Some? {
      response := short.value;
    } else {
      var handled := Handle(route, work);
      if handled.Err? {
        return handled;
      }
      response := handled.value;
    }
    response := RunAfter(table.middleware, work, response);
    return Ok(response);
  }

  // ---------------------------------------------------------------------
  // Redirects and 405 answers
  // ---------------------------------------------------------------------

  lemma {:induction false} TrimmedPrefix(path: string)
    ensures |TrimSlashes(path)| <= |path| && path[..|TrimSlashes(path)|] == TrimSlashes(path)
    ensures forall i | |TrimSlashes(path)| <= i < |path| :: path[i] == '/'
    ensures TrimSlashes(path) != "" ==> path[|TrimSlashes(path)| - 1] != '/'
    decreases |path|
  {
    if path != [] && path[|path| - 1] == '/' {
      TrimmedPrefix(path[..|path| - 1]);
    }
  }

  /** A selected route answers, or refuses for want of rights. */
  lemma RouteErrors(routes: Routes, chain: seq<Middleware>, verb: string, req: Request, r: Reply)
    requires ByRoute(routes, chain, verb, req, r)
    ensures r.Err? ==> r.error.MissingPrincipal? || r.error.MissingCapability?
  {
    var stored, work :| Selected(routes, verb, req.path, stored) && Working(verb, stored, req, work)
                        && Routed(routes[(verb, stored)], chain, work, r);
  }

  /** Following a redirect is answered without another redirect and never with NotFound; its target is
      the request path without its trailing slashes, and is empty only when nothing else is left. */
  lemma RedirectsSettle(routes: Routes, policy: SlashPolicy, chain: seq<Middleware>, upper: string -> string,
                        req: Request, r: Reply, next: Request, s: Reply)
    requires Answers(routes, policy, chain, upper(req.verb), req, r) && Redirects(routes, policy, req.path)
    requires next.path == TrimSlashes(req.path) && Answers(routes, policy, chain, upper(next.verb), next, s)
    ensures r == Ok(Response(308, "", map["Location" := next.path]))
    ensures !Redirects(routes, policy, next.path) && s != Err(NotFound)
    ensures next.path == "" <==> forall i | 0 <= i < |req.path| :: req.path[i] == '/'
  {
    TrimmedPrefix(req.path);
    if Answerable(routes, upper(next.verb), next.path) {
      RouteErrors(routes, chain, upper(next.verb), next, s);
    }
  }

  /** A 405 answer lists at least one method and never the one requested; every listed method would
      be answered by some route. */
  lemma NotAllowedIsHonest(routes: Routes, policy: SlashPolicy, chain: seq<Middleware>, verb: string, req: Request, r: Reply)
    requires Answers(routes, policy, chain, verb, req, r) && r.Err? && r.error.MethodNotAllowed?
    ensures r.error.allowed != [] && verb !in r.error.allowed && Sorted(r.error.allowed)
    ensures forall m | m in r.error.allowed :: Answerable(routes, m, req.path)
  {
    if Answerable(routes, verb, req.path) {
      RouteErrors(routes, chain, verb, req, r);
    } else {
      var m :| Answerable(routes, m, req.path);
      assert m in r.error.allowed;
    }
  }

  /** The handler's answer is reachable only with the route's rights: unless a before-middleware
      answers first, a request that is not redirected succeeds exactly when it is routed and
      authorised. */
  lemma SuccessNeedsRights(routes: Routes, policy: SlashPolicy, chain: seq<Middleware>, verb: string, req: Request,
                           r: Reply, stored: string)
    requires Answers(routes, policy, chain, verb, req, r) && !Redirects(routes, policy, req.path)
    requires Selected(routes, verb, req.path, stored)
    requires forall mw, work | mw in chain && mw.kind == Before :: mw.handler(work, None) == Continue
    ensures r.Ok? <==> Authorised(routes[(verb, stored)], req.principal)
  {
    assert Answerable(routes, verb, req.path);
    var chosen, work :| Selected(routes, verb, req.path, chosen) && Working(verb, chosen, req, work)
                        && Routed(routes[(verb, chosen)], chain, work, r);
    SelectedUnique(routes, verb, req.path, stored, chosen);
    NothingShorts(chain, work);
  }

  lemma {:induction false} NothingShorts(chain: seq<Middleware>, work: Request)
    requires forall mw | mw in chain && mw.kind == Before :: mw.handler(work, None) == Continue
    ensures ShortBefore(chain, work) == None
    decreases |chain|
  {
    if chain != [] {
      assert chain[0] in chain;
      NothingShorts(chain[1..], work);
    }
  }

  /** How `build_dispatch_table` marks a route. */
  predicate MarkedByEffects(route: Route) {
    route.principalRequired <==> exists e :: e in route.effects && e != TRANSPORT
  }

  /** For routes so marked, being authorised means that every effect but transport is a capability of
      a principal who is present. */
  lemma RightsMeanCapabilities(route: Route, principal: Option<Principal>)
    requires MarkedByEffects(route)
    ensures Authorised(route, principal) <==>
            forall e | e in route.effects && e != TRANSPORT :: principal.Some? && e in principal.value.capabilities
  {
  }
}

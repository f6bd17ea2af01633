/** The route table registered at start-up: each (method, path) pattern, the
    handler behind it and the middleware guarding it. */
module Routes {
  import opened Basics
  import opened Http
  import opened Middleware

  datatype Handler = GetBannerHandler | PostBannerHandler | DeleteBannerIdHandler | PatchBannerIdHandler | GetUserBannerHandler

  /** Which middleware wraps a route. */
  datatype Guard = AdminGuard | UserGuard

  datatype Route = Route(verb: string, path: string, handler: Handler, guard: Guard)

  const Table: seq<Route> := [
    Route("GET", "/banner", GetBannerHandler, AdminGuard),
    Route("POST", "/banner", PostBannerHandler, AdminGuard),
    Route("DELETE", "/banner/:id", DeleteBannerIdHandler, AdminGuard),
    Route("PATCH", "/banner/:id", PatchBannerIdHandler, AdminGuard),
    Route("GET", "/user_banner", GetUserBannerHandler, UserGuard)
  ]

  /** The route registered for an HTTP method and path pattern, if any. */
  function Lookup(routes: seq<Route>, verb: string, path: string): (r: Option<Route>)
    ensures r.Some? ==> r.value in routes && r.value.verb == verb && r.value.path == path
    ensures r.None? ==> forall x | x in routes :: !(x.verb == verb && x.path == path)
    decreases |routes|
  {
    if |routes| == 0 then None
    else if routes[0].verb == verb && routes[0].path == path then Some(routes[0])
    else Lookup(routes[1..], verb, path)
  }

  /** The verdict of the middleware guarding a route. */
  function Admit(route: Route, token: string): Verdict
  {
    match route.guard
    case AdminGuard => AdminMiddleware(token)
    case UserGuard => UserMiddleware(token)
  }

  /** Every `/banner` route is admin-only and `/user_banner` is open to users. */
  lemma GuardsByPath()
    ensures forall r | r in Table :: (r.path == "/banner" || r.path == "/banner/:id") <==> r.guard == AdminGuard
    ensures forall r | r in Table :: r.path == "/user_banner" <==> r.guard == UserGuard
  {
  }

  /** A user token reaches only the user banner read; on every other route it gets 403. */
  lemma UserTokenReachesOnlyUserBanner(token: string)
    requires token in UserTokens
    ensures forall r | r in Table :: Admit(r, token) == Proceed <==> r.handler == GetUserBannerHandler
    ensures forall r | r in Table :: r.handler != GetUserBannerHandler ==> Admit(r, token) == Reject(Forbidden)
  {
  }

  /** An admin token reaches every handler. */
  lemma AdminTokenReachesAll(token: string)
    requires token in AdminTokens
    ensures forall r | r in Table :: Admit(r, token) == Proceed
  {
  }

  /** A token on neither list reaches no handler and always gets 401. */
  lemma UnknownTokenReachesNone(token: string)
    requires token !in AdminTokens && token !in UserTokens
    ensures forall r | r in Table :: Admit(r, token) == Reject(Unauthorized)
  {
  }
}

/** The access gate: fixed admin and user token lists, the linear search over
    them, and the two middlewares that wrap the handlers. The token is the
    value of the `token` request header; a missing header reads as "". */
module Middleware {
  import opened Http

  const AdminTokens: seq<string> := ["admin1", "admin2", "admin3"]
  const UserTokens: seq<string> := ["user1", "user2", "user3"]

  /** The search loop of `isValidAdminToken`/`isValidUserToken`: true at the
      first entry equal to the token. */
  function Contains(list: seq<string>, token: string): (found: bool)
    ensures found <==> token in list
    decreases |list|
  {
    if |list| == 0 then false
    else if list[0] == token then true
    else Contains(list[1..], token)
  }

  function IsValidAdminToken(token: string): (valid: bool)
    ensures valid <==> token in AdminTokens
  {
    Contains(AdminTokens, token)
  }

  function IsValidUserToken(token: string): (valid: bool)
    ensures valid <==> token in UserTokens
  {
    Contains(UserTokens, token)
  }

  /** No token is on both lists. */
  lemma TokenListsDisjoint(token: string)
    ensures !(token in AdminTokens && token in UserTokens)
  {
  }

  datatype Role = Admin | User | Unauthenticated

  /** The caller's role; the lists are disjoint, so every token has exactly one. */
  function Classify(token: string): (role: Role)
    ensures role == Admin <==> token in AdminTokens
    ensures role == User <==> token in UserTokens
    ensures role == Unauthenticated <==> token !in AdminTokens && token !in UserTokens
  {
    if IsValidAdminToken(token) then Admin
    else if IsValidUserToken(token) then User
    else Unauthenticated
  }

  /** What a middleware decides: run the wrapped handler, or answer itself. */
  datatype Verdict = Proceed | Reject(response: Response)

  /** User tokens are refused with 403 before the admin check; anything that is
      not an admin token then gets 401. */
  function AdminMiddleware(token: string): (v: Verdict)
    ensures v == Reject(Forbidden) <==> token in UserTokens
    ensures v == Reject(Unauthorized) <==> token !in UserTokens && token !in AdminTokens
    ensures v == Proceed <==> token in AdminTokens
  {
    if IsValidUserToken(token) then Reject(Forbidden)
    else if !IsValidAdminToken(token) then Reject(Unauthorized)
    else Proceed
  }

  /** Users and admins pass; anyone else gets 401, never 403. */
  function UserMiddleware(token: string): (v: Verdict)
    ensures v == Proceed <==> token in UserTokens || token in AdminTokens
    ensures v != Proceed ==> v == Reject(Unauthorized)
  {
    if !IsValidUserToken(token) && !IsValidAdminToken(token) then Reject(Unauthorized)
    else Proceed
  }

  /** Both middlewares decide by role alone. */
  lemma MiddlewaresByRole(token: string)
    ensures AdminMiddleware(token) == match Classify(token)
      case Admin => Proceed
      case User => Reject(Forbidden)
      case Unauthenticated => Reject(Unauthorized)
    ensures UserMiddleware(token) == (if Classify(token) == Unauthenticated then Reject(Unauthorized) else Proceed)
  {
  }

  /** A request without the header is unauthenticated everywhere. */
  lemma MissingTokenUnauthorized()
    ensures AdminMiddleware("") == Reject(Unauthorized)
    ensures UserMiddleware("") == Reject(Unauthorized)
  {
  }
}

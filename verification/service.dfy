/** The whole service as one state machine: a request is routed, passed
    through its middleware and handled against the store and the cache.
    Sequential requests only; the clock reading and the store and cache
    failures of each request are inputs. */
module Service {
  import opened Basics
  import opened Models
  import opened Http
  import opened Middleware
  import opened Routes
  import opened BannerHandlers
  import BannerProperties
  import Cache

  datatype State = State(store: Store, cache: Cache.KeyValue)

  /** The clock and the failures one request runs into. */
  datatype Env = Env(now: nat, storeFails: bool, cacheReadFails: bool, cacheWriteFails: bool)

  datatype Request =
    | ListBanners(query: ListQuery)
    | CreateBanner(post: PostBody)
    | DeleteBanner(id: int)
    | UpdateBanner(id: int, patch: PatchBody)
    | ReadUserBanner(read: UserQuery)

  /** The method and path pattern a request is routed by. */
  function Endpoint(req: Request): (string, string)
  {
    match req
    case ListBanners(_) => ("GET", "/banner")
    case CreateBanner(_) => ("POST", "/banner")
    case DeleteBanner(_) => ("DELETE", "/banner/:id")
    case UpdateBanner(_, _) => ("PATCH", "/banner/:id")
    case ReadUserBanner(_) => ("GET", "/user_banner")
  }

  function HandlerFor(req: Request): Handler
  {
    match req
    case ListBanners(_) => GetBannerHandler
    case CreateBanner(_) => PostBannerHandler
    case DeleteBanner(_) => DeleteBannerIdHandler
    case UpdateBanner(_, _) => PatchBannerIdHandler
    case ReadUserBanner(_) => GetUserBannerHandler
  }

  /** The guard the route table puts in front of a request's handler. */
  function GuardFor(req: Request): Guard
  {
    if req.ReadUserBanner? then UserGuard else AdminGuard
  }

  /** Every request finds its own handler's route in the table, behind the
      admin guard unless it is the user read. */
  lemma EveryRequestRouted(req: Request)
    ensures Lookup(Table, Endpoint(req).0, Endpoint(req).1) == Some(Route(Endpoint(req).0, Endpoint(req).1, HandlerFor(req), GuardFor(req)))
  {
  }

  /** The route the table yields for a request's method and path. */
  function RouteOf(req: Request): (r: Option<Route>)
    ensures r == Some(Route(Endpoint(req).0, Endpoint(req).1, HandlerFor(req), GuardFor(req)))
  {
    EveryRequestRouted(req);
    Lookup(Table, Endpoint(req).0, Endpoint(req).1)
  }

  /** Runs the handler a request names. Admin handlers never touch the cache;
      the user read never touches the store. */
  function Handle(s: State, env: Env, req: Request): (r: (State, Response))
    ensures !req.ReadUserBanner? ==> r.0.cache == s.cache
    ensures req.ReadUserBanner? ==> r.0.store == s.store
  {
    match req
    case ListBanners(q) =>
      var o := GetBanner(s.store, env.storeFails, q); (s.(store := o.store), o.response)
    case CreateBanner(body) =>
      var o := PostBanner(s.store, env.now, env.storeFails, body); (s.(store := o.store), o.response)
    case DeleteBanner(id) =>
      var o := DeleteBannerId(s.store, env.storeFails, id); (s.(store := o.store), o.response)
    case UpdateBanner(id, body) =>
      var o := PatchBannerId(s.store, env.now, env.storeFails, id, body); (s.(store := o.store), o.response)
    case ReadUserBanner(q) =>
      var o := GetUserBanner(s.store, s.cache, env.now, env.storeFails, env.cacheReadFails, env.cacheWriteFails, q);
      (s.(cache := o.cache), o.response)
  }

  lemma HandleKeepsValid(s: State, env: Env, req: Request)
    ensures Valid(s.store) ==> Valid(Handle(s, env, req).0.store)
  {
    if Valid(s.store) {
      match req
      case ListBanners(_) =>
      case CreateBanner(body) => BannerProperties.PostKeepsValid(s.store, env.now, env.storeFails, body);
      case DeleteBanner(id) => BannerProperties.DeleteKeepsValid(s.store, env.storeFails, id);
      case UpdateBanner(id, body) => BannerProperties.PatchKeepsValid(s.store, env.now, env.storeFails, id, body);
      case ReadUserBanner(_) =>
    }
  }

  /** One request end to end: route lookup, middleware, handler. A rejected
      request changes nothing; an admitted one is exactly its handler. */
  function Dispatch(s: State, env: Env, token: string, req: Request): (r: (State, Response))
    ensures Classify(token) == Unauthenticated ==> r == (s, Unauthorized)
    ensures Classify(token) == User && !req.ReadUserBanner? ==> r == (s, Forbidden)
    ensures Classify(token) == Admin || (Classify(token) == User && req.ReadUserBanner?) ==> r == Handle(s, env, req)
    ensures Valid(s.store) ==> Valid(r.0.store)
  {
    match RouteOf(req)
    case None => (s, NotFound)
    case Some(route) =>
      match Admit(route, token)
      case Reject(resp) => (s, resp)
      case Proceed =>
        HandleKeepsValid(s, env, req);
        Handle(s, env, req)
  }

  /** A user token is turned away from every admin request with 403 and
      changes nothing. */
  lemma UserTokenForbiddenOnAdminRequests(s: State, env: Env, token: string, req: Request)
    requires token in UserTokens && !req.ReadUserBanner?
    ensures Dispatch(s, env, token, req) == (s, Forbidden)
  {
    TokenListsDisjoint(token);
  }

  /** Only an admitted user read changes the cache. */
  lemma CacheChangesOnlyOnUserRead(s: State, env: Env, token: string, req: Request)
    ensures Dispatch(s, env, token, req).0.cache == s.cache
      || (req.ReadUserBanner? && Dispatch(s, env, token, req) == Handle(s, env, req))
  {
  }

  // ----------------------------------------------------------------------
  // Bounded staleness over a run of requests

  datatype Step = Step(env: Env, token: string, req: Request)

  /** The states a run passes through: the start state, then the state after each step. */
  function Run(s: State, steps: seq<Step>): (r: seq<State>)
    ensures |r| == |steps| + 1
    ensures r[0] == s
    ensures forall i | 0 <= i < |steps| :: r[i + 1] == Dispatch(r[i], steps[i].env, steps[i].token, steps[i].req).0
    decreases |steps|
  {
    if |steps| == 0 then [s]
    else
      var next := Dispatch(s, steps[0].env, steps[0].token, steps[0].req).0;
      var rest := Run(next, steps[1..]);
      [s] + rest
  }

  /** The response to step `i` of a run. */
  function ResponseAt(s: State, steps: seq<Step>, i: nat): Response
    requires i < |steps|
  {
    var states := Run(s, steps);
    Dispatch(states[i], steps[i].env, steps[i].token, steps[i].req).1
  }

  /** Every state a run reaches from a store that keeps the invariant keeps it too. */
  lemma {:induction false} RunKeepsValid(s: State, steps: seq<Step>, n: nat)
    requires Valid(s.store)
    requires n <= |steps|
    ensures Valid(Run(s, steps)[n].store)
    decreases n
  {
    if n > 0 {
      RunKeepsValid(s, steps, n - 1);
      var states := Run(s, steps);
      var st := steps[n - 1];
      assert states[n] == Dispatch(states[n - 1], st.env, st.token, st.req).0;
    }
  }

  /** From a freshly migrated database and an empty cache, every reachable
      store has unique primary keys, a unique (feature, tag) index and one
      feature per banner, whatever the requests, tokens, clock and failures. */
  lemma ReachableStoresValid(steps: seq<Step>, n: nat)
    requires n <= |steps|
    ensures Valid(Run(State(EmptyStore, map[]), steps)[n].store)
  {
    EmptyStoreValid();
    RunKeepsValid(State(EmptyStore, map[]), steps, n);
  }

  ghost predicate ClockMonotone(steps: seq<Step>)
  {
    forall i, j | 0 <= i <= j < |steps| :: steps[i].env.now <= steps[j].env.now
  }

  /** A point in the past: the clock reading of a step and the store it ran against. */
  datatype Snapshot = Snapshot(time: nat, store: Store)

  /** Every cache entry was written under a key naming some (feature, tag),
      exactly one TTL before its expiry, with what the store then answered for
      that pair. */
  ghost predicate Justified(c: Cache.KeyValue, past: seq<Snapshot>)
  {
    forall k | k in c ::
      && Cache.ParseKey(k).Some?
      && exists i | 0 <= i < |past| ::
           && past[i].time + Cache.Ttl == c[k].expiresAt
           && StoreAnswer(past[i].store, Cache.ParseKey(k).value.0, Cache.ParseKey(k).value.1) == Document(c[k].value)
  }

  /** Every entry that `c2` adds or replaces over `c` names a (feature, tag)
      pair, expires one TTL after `now` and holds what `st` answers for it. */
  ghost predicate WrittenFrom(c: Cache.KeyValue, c2: Cache.KeyValue, st: Store, now: nat)
  {
    forall k | k in c2 && (k !in c || c2[k] != c[k]) ::
      && Cache.ParseKey(k).Some?
      && c2[k].expiresAt == now + Cache.Ttl
      && StoreAnswer(st, Cache.ParseKey(k).value.0, Cache.ParseKey(k).value.1) == Document(c2[k].value)
  }

  /** A request writes to the cache only what the store answers at that moment. */
  lemma DispatchWritesFromStore(s: State, env: Env, token: string, req: Request)
    ensures WrittenFrom(s.cache, Dispatch(s, env, token, req).0.cache, s.store, env.now)
  {
    CacheChangesOnlyOnUserRead(s, env, token, req);
    var c2 := Dispatch(s, env, token, req).0.cache;
    if c2 != s.cache {
      var q := req.read;
      var o := GetUserBanner(s.store, s.cache, env.now, env.storeFails, env.cacheReadFails, env.cacheWriteFails, q);
      assert c2 == o.cache;
      Cache.KeyRoundTrip(q.featureId, q.tagId);
    }
  }

  /** Writes taken from the current store keep the cache justified, once the
      current snapshot joins the past. */
  lemma WritesKeepJustified(c: Cache.KeyValue, c2: Cache.KeyValue, st: Store, now: nat, past: seq<Snapshot>)
    requires Justified(c, past)
    requires WrittenFrom(c, c2, st, now)
    ensures Justified(c2, past + [Snapshot(now, st)])
  {
    var past2 := past + [Snapshot(now, st)];
    forall k | k in c2
      ensures Cache.ParseKey(k).Some?
      ensures exists i | 0 <= i < |past2| ::
           && past2[i].time + Cache.Ttl == c2[k].expiresAt
           && StoreAnswer(past2[i].store, Cache.ParseKey(k).value.0, Cache.ParseKey(k).value.1) == Document(c2[k].value)
    {
      if k in c && c2[k] == c[k] {
        var i :| 0 <= i < |past| && past[i].time + Cache.Ttl == c[k].expiresAt
          && StoreAnswer(past[i].store, Cache.ParseKey(k).value.0, Cache.ParseKey(k).value.1) == Document(c[k].value);
        assert past2[i] == past[i];
      } else {
        assert past2[|past|] == Snapshot(now, st);
      }
    }
  }

  /** One request keeps the cache justified, once its own snapshot joins the past. */
  lemma StepKeepsJustified(s: State, env: Env, token: string, req: Request, past: seq<Snapshot>)
    requires Justified(s.cache, past)
    ensures Justified(Dispatch(s, env, token, req).0.cache, past + [Snapshot(env.now, s.store)])
  {
    DispatchWritesFromStore(s, env, token, req);
    WritesKeepJustified(s.cache, Dispatch(s, env, token, req).0.cache, s.store, env.now, past);
  }

  lemma HandleUserRead(s: State, env: Env, q: UserQuery)
    ensures var o := GetUserBanner(s.store, s.cache, env.now, env.storeFails, env.cacheReadFails, env.cacheWriteFails, q);
      Handle(s, env, ReadUserBanner(q)) == (s.(cache := o.cache), o.response)
  {
  }

  /** A user read that returns a banner returns either the live cache entry
      for its key or what the store answers now. */
  lemma UserReadSource(s: State, env: Env, token: string, q: UserQuery)
    ensures var r := Dispatch(s, env, token, ReadUserBanner(q)).1;
      r.Document? ==>
        || (ServedFromCache(s.cache, env.now, env.cacheReadFails, q) && r == Document(s.cache[Cache.Key(q.featureId, q.tagId)].value))
        || r == StoreAnswer(s.store, q.featureId, q.tagId)
  {
    if Classify(token) != Unauthenticated {
      HandleUserRead(s, env, q);
    }
  }

  /** Against a justified cache, such an answer is what the store answers now
      or what it answered for the same pair at a snapshot no more than one
      TTL old. */
  lemma JustifiedAnswerWithinTtl(c: Cache.KeyValue, st: Store, now: nat, readFails: bool, q: UserQuery, past: seq<Snapshot>, r: Response)
    requires Justified(c, past)
    requires || (ServedFromCache(c, now, readFails, q) && r == Document(c[Cache.Key(q.featureId, q.tagId)].value))
             || r == StoreAnswer(st, q.featureId, q.tagId)
    ensures || r == StoreAnswer(st, q.featureId, q.tagId)
            || exists i | 0 <= i < |past| ::
                 now <= past[i].time + Cache.Ttl && StoreAnswer(past[i].store, q.featureId, q.tagId) == r
  {
    if r != StoreAnswer(st, q.featureId, q.tagId) {
      var key := Cache.Key(q.featureId, q.tagId);
      Cache.KeyRoundTrip(q.featureId, q.tagId);
      var i :| 0 <= i < |past| && past[i].time + Cache.Ttl == c[key].expiresAt
        && StoreAnswer(past[i].store, q.featureId, q.tagId) == Document(c[key].value);
    }
  }

  /** Whatever a user read answers is what the store answers now or what it
      answered for the same pair at a snapshot at most one TTL earlier. */
  lemma CachedAnswerWithinTtl(s: State, env: Env, token: string, q: UserQuery, past: seq<Snapshot>)
    requires Justified(s.cache, past)
    requires Dispatch(s, env, token, ReadUserBanner(q)).1.Document?
    ensures var r := Dispatch(s, env, token, ReadUserBanner(q)).1;
      || r == StoreAnswer(s.store, q.featureId, q.tagId)
      || exists i | 0 <= i < |past| ::
           env.now <= past[i].time + Cache.Ttl && StoreAnswer(past[i].store, q.featureId, q.tagId) == r
  {
    UserReadSource(s, env, token, q);
    JustifiedAnswerWithinTtl(s.cache, s.store, env.now, env.cacheReadFails, q, past, Dispatch(s, env, token, ReadUserBanner(q)).1);
  }

  /** The snapshots of the first `n` steps of a run. */
  function Past(states: seq<State>, steps: seq<Step>, n: nat): (r: seq<Snapshot>)
    requires n <= |steps| && |states| == |steps| + 1
    ensures |r| == n
    ensures forall i | 0 <= i < n :: r[i] == Snapshot(steps[i].env.now, states[i].store)
  {
    seq(n, i requires 0 <= i < n => Snapshot(steps[i].env.now, states[i].store))
  }

  lemma PastGrows(states: seq<State>, steps: seq<Step>, n: nat)
    requires 0 < n <= |steps| && |states| == |steps| + 1
    ensures Past(states, steps, n - 1) + [Snapshot(steps[n - 1].env.now, states[n - 1].store)] == Past(states, steps, n)
  {
  }

  lemma {:induction false} JustifiedAlongRun(s: State, steps: seq<Step>, n: nat)
    requires s.cache == map[]
    requires n <= |steps|
    ensures Justified(Run(s, steps)[n].cache, Past(Run(s, steps), steps, n))
    decreases n
  {
    var states := Run(s, steps);
    if n == 0 {
      assert states[0].cache == map[];
    } else {
      JustifiedAlongRun(s, steps, n - 1);
      var st := steps[n - 1];
      StepKeepsJustified(states[n - 1], st.env, st.token, st.req, Past(states, steps, n - 1));
      assert states[n] == Dispatch(states[n - 1], st.env, st.token, st.req).0;
      PastGrows(states, steps, n);
    }
  }

  /** Bounded staleness: in any run that starts with an empty cache and whose
      clock never goes back, every banner a user read returns is what the
      store answered for that (feature, tag) at some step at most five minutes
      earlier (possibly the read's own). */
  lemma ServedContentAtMostTtlStale(s: State, steps: seq<Step>, n: nat)
    requires s.cache == map[]
    requires ClockMonotone(steps)
    requires n < |steps| && steps[n].req.ReadUserBanner?
    requires ResponseAt(s, steps, n).Document?
    ensures var q := steps[n].req.read;
      exists j | 0 <= j <= n ::
        && steps[j].env.now <= steps[n].env.now <= steps[j].env.now + Cache.Ttl
        && StoreAnswer(Run(s, steps)[j].store, q.featureId, q.tagId) == ResponseAt(s, steps, n)
  {
    var states := Run(s, steps);
    var past := Past(states, steps, n);
    var st := steps[n];
    var q := st.req.read;
    var r := Dispatch(states[n], st.env, st.token, st.req).1;
    assert st.req == ReadUserBanner(q);
    assert r == ResponseAt(s, steps, n);
    JustifiedAlongRun(s, steps, n);
    CachedAnswerWithinTtl(states[n], st.env, st.token, q, past);
    if r != StoreAnswer(states[n].store, q.featureId, q.tagId) {
      var i :| 0 <= i < |past| && st.env.now <= past[i].time + Cache.Ttl
        && StoreAnswer(past[i].store, q.featureId, q.tagId) == r;
      assert past[i] == Snapshot(steps[i].env.now, states[i].store);
    }
  }
}

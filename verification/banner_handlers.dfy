/** The five banner handlers as pure transitions. The admin handlers map a
    store to a store and a response; `GetUserBanner` leaves the store alone
    and maps the cache to a cache. A transaction that fails returns the store
    it was given: that is the rollback. `storeFails` stands for a transport
    failure of the store during the request (a failed BEGIN, query or COMMIT). */
module BannerHandlers {
  import opened Basics
  import opened Models
  import opened Http
  import Cache

  datatype StoreStep = StoreStep(store: Store, response: Response)

  // ----------------------------------------------------------------------
  // GET /banner

  /** Query parameters of the listing; every one of them is optional. */
  datatype ListQuery = ListQuery(featureId: Option<int>, tagId: Option<int>, limit: Option<int>, offset: Option<int>)

  predicate Unfiltered(q: ListQuery)
  {
    q.featureId.None? && q.tagId.None?
  }

  /** The WHERE clause on the joined link row: each supplied filter must match. */
  predicate MatchesFilter(q: ListQuery, l: Link)
  {
    (q.featureId.None? || l.featureId == q.featureId.value) && (q.tagId.None? || l.tagId == q.tagId.value)
  }

  function JoinKeep(q: ListQuery, banners: map<nat, Banner>): Link -> bool
  {
    (l: Link) => MatchesFilter(q, l) && l.bannerId in banners
  }

  /** The link rows that survive `banners JOIN banner_feature_tags ... WHERE ...`:
      one per matching link whose banner row exists, with no DISTINCT. */
  function Joined(st: Store, q: ListQuery): (r: seq<Link>)
    ensures forall l :: l in r <==> l in st.links && MatchesFilter(q, l) && l.bannerId in st.banners
  {
    Filter(st.links, JoinKeep(q, st.banners))
  }

  /** The banner rows the listing query yields before LIMIT/OFFSET. SQL leaves
      the order open; unfiltered rows are taken in ascending id order and
      joined rows in link order. */
  function Rows(st: Store, q: ListQuery): (r: seq<Banner>)
  {
    if Unfiltered(q) then
      var ids := SortedIds(st.banners.Keys);
      seq(|ids|, i requires 0 <= i < |ids| => assert ids[i] in ids; st.banners[ids[i]])
    else
      var js := Joined(st, q);
      seq(|js|, i requires 0 <= i < |js| => assert js[i] in js; st.banners[js[i].bannerId])
  }

  /** Rows skipped by OFFSET: a missing or non-positive offset skips none. */
  function Skip(offset: Option<int>): nat
  {
    if offset.Some? && offset.value > 0 then offset.value else 0
  }

  /** `LIMIT l OFFSET o` as the query builder emits it: a negative or missing
      limit imposes none, a missing or non-positive offset skips nothing. */
  function Page<T>(rows: seq<T>, limit: Option<int>, offset: Option<int>): (r: seq<T>)
    ensures Skip(offset) <= |rows| ==> |r| <= |rows| - Skip(offset)
    ensures Skip(offset) >= |rows| ==> r == []
    ensures limit.Some? && limit.value >= 0 ==> |r| <= limit.value
    ensures (limit.None? || limit.value < 0) && Skip(offset) <= |rows| ==> |r| == |rows| - Skip(offset)
    ensures limit.Some? && 0 <= limit.value && Skip(offset) + limit.value <= |rows| ==> |r| == limit.value
    ensures forall i | 0 <= i < |r| :: Skip(offset) + i < |rows| && r[i] == rows[Skip(offset) + i]
  {
    var skip := Skip(offset);
    var rest := if skip <= |rows| then rows[skip..] else [];
    if limit.Some? && 0 <= limit.value < |rest| then rest[..limit.value] else rest
  }

  /** The feature the enrichment loop reports: the last non-zero feature id
      among the links, or 0 when there is none. */
  function LastNonZeroFeature(ls: seq<Link>): (f: int)
    ensures f == 0 <==> forall l | l in ls :: l.featureId == 0
    ensures f != 0 ==> exists i | 0 <= i < |ls| :: ls[i].featureId == f && forall j | i < j < |ls| :: ls[j].featureId == 0
    decreases |ls|
  {
    if |ls| == 0 then 0
    else if ls[|ls| - 1].featureId != 0 then ls[|ls| - 1].featureId
    else
      var f := LastNonZeroFeature(ls[..|ls| - 1]);
      assert forall l | l in ls :: l in ls[..|ls| - 1] || l == ls[|ls| - 1];
      f
  }

  /** The `tag_ids` the enrichment loop builds by appending each link's tag
      to a nil slice: still nil when there is no link. */
  function TagList(ls: seq<Link>): (r: Option<seq<int>>)
    ensures r.None? <==> |ls| == 0
    ensures r.Some? ==> |r.value| == |ls| && forall i | 0 <= i < |ls| :: r.value[i] == ls[i].tagId
  {
    if |ls| == 0 then None else Some(TagsOf(ls))
  }

  /** An entry shows banner `b` together with exactly the links stored for it. */
  predicate Describes(st: Store, e: BannerView, b: Banner)
  {
    && e.bannerId == b.id && e.content == b.content && e.createdAt == b.createdAt
    && e.updatedAt == b.updatedAt && e.isActive == b.isActive
    && e.tagIds == TagList(LinksOf(st.links, b.id))
    && e.featureId == LastNonZeroFeature(LinksOf(st.links, b.id))
  }

  /** A listing entry: the banner row enriched with all of its links. A banner
      without links lists feature 0 and null tags. */
  function View(st: Store, b: Banner): (e: BannerView)
    ensures Describes(st, e, b)
    ensures e.tagIds.None? <==> forall l | l in st.links :: l.bannerId != b.id
    ensures e.tagIds.None? ==> e.featureId == 0
  {
    var ls := LinksOf(st.links, b.id);
    BannerView(b.id, b.content, b.createdAt, b.updatedAt, b.isActive, LastNonZeroFeature(ls), TagList(ls))
  }

  function GetBanner(st: Store, storeFails: bool, q: ListQuery): (r: StoreStep)
    ensures r.store == st
    ensures r.response.InternalError? <==> storeFails
    ensures !storeFails ==> r.response.Listing?
    ensures r.response.Listing? && q.limit.Some? && q.limit.value >= 0 ==> |r.response.entries| <= q.limit.value
    ensures r.response.Listing? ==> forall e | e in r.response.entries ::
      exists k | k in st.banners :: Describes(st, e, st.banners[k])
    ensures r.response.Listing? && !Unfiltered(q) ==> forall e | e in r.response.entries ::
      exists l | l in st.links :: MatchesFilter(q, l) && l.bannerId in st.banners && Describes(st, e, st.banners[l.bannerId])
  {
    if storeFails then StoreStep(st, InternalError)
    else
      var rows := Page(Rows(st, q), q.limit, q.offset);
      var entries := seq(|rows|, i requires 0 <= i < |rows| => View(st, rows[i]));
      ListingSound(st, q, entries);
      StoreStep(st, Listing(entries))
  }

  /** Every listed entry comes from a row of the (joined) query. */
  lemma ListingSound(st: Store, q: ListQuery, entries: seq<BannerView>)
    requires var rows := Page(Rows(st, q), q.limit, q.offset);
      entries == seq(|rows|, i requires 0 <= i < |rows| => View(st, rows[i]))
    ensures forall e | e in entries :: exists k | k in st.banners :: Describes(st, e, st.banners[k])
    ensures !Unfiltered(q) ==> forall e | e in entries ::
      exists l | l in st.links :: MatchesFilter(q, l) && l.bannerId in st.banners && Describes(st, e, st.banners[l.bannerId])
  {
    var all := Rows(st, q);
    var rows := Page(all, q.limit, q.offset);
    forall e | e in entries
      ensures exists k | k in st.banners :: Describes(st, e, st.banners[k])
      ensures !Unfiltered(q) ==>
        exists l | l in st.links :: MatchesFilter(q, l) && l.bannerId in st.banners && Describes(st, e, st.banners[l.bannerId])
    {
      var i :| 0 <= i < |entries| && entries[i] == e;
      var n := Skip(q.offset) + i;
      assert rows[i] == all[n];
      if Unfiltered(q) {
        var ids := SortedIds(st.banners.Keys);
        assert ids[n] in ids;
        assert Describes(st, e, st.banners[ids[n]]);
      } else {
        var js := Joined(st, q);
        assert js[n] in js;
        assert Describes(st, e, st.banners[js[n].bannerId]);
      }
    }
  }

  // ----------------------------------------------------------------------
  // POST /banner

  /** The request body; `None` is a field the JSON left out (or set to null). */
  datatype PostBody = PostBody(isActive: Option<bool>, content: Option<Json>, featureId: Option<int>, tagIds: Option<seq<int>>)

  predicate Complete(body: PostBody)
  {
    body.isActive.Some? && body.content.Some? && body.featureId.Some? && body.tagIds.Some?
  }

  /** Whether a run of inserts for feature `f` and these tags would pass the unique index. */
  predicate Insertable(links: seq<Link>, f: int, tags: seq<int>)
  {
    NoRepeats(tags) && forall t | t in tags :: !PairTaken(links, f, t)
  }

  function PostBanner(st: Store, now: nat, storeFails: bool, body: PostBody): (r: StoreStep)
    ensures r.response.BadRequest? <==> !Complete(body)
    ensures r.response.InternalError? <==> Complete(body) && storeFails
    ensures r.response.Conflict? <==>
      Complete(body) && !storeFails && !Insertable(st.links, body.featureId.value, body.tagIds.value)
    ensures r.response.Created? <==>
      Complete(body) && !storeFails && Insertable(st.links, body.featureId.value, body.tagIds.value)
    ensures !r.response.Created? ==> r.store == st
    ensures r.response.Created? ==>
      var id := r.response.bannerId;
      && id == st.nextBannerId
      && (Valid(st) ==> id !in st.banners)
      && r.store.banners == st.banners[id := Banner(id, body.content.value, now, now, body.isActive.value)]
      && r.store.links == st.links + NewLinks(st.nextLinkId, id, body.featureId.value, body.tagIds.value)
      && r.store.nextBannerId == id + 1
      && r.store.nextLinkId == st.nextLinkId + |body.tagIds.value|
  {
    if !Complete(body) then StoreStep(st, BadRequest)
    else if storeFails then StoreStep(st, InternalError)
    else
      var id := st.nextBannerId;
      var banner := Banner(id, body.content.value, now, now, body.isActive.value);
      match InsertLinks(st.links, st.nextLinkId, id, body.featureId.value, body.tagIds.value)
      case Duplicate(_, _) => StoreStep(st, Conflict)
      case Inserted(links, nextLinkId) =>
        StoreStep(Store(st.banners[id := banner], links, id + 1, nextLinkId), Created(id))
  }

  // ----------------------------------------------------------------------
  // DELETE /banner/{id}

  /** Deletes the banner row only; the links that name it stay in the table. */
  function DeleteBannerId(st: Store, storeFails: bool, id: int): (r: StoreStep)
    ensures r.response == (if storeFails then InternalError else NoContent)
    ensures storeFails ==> r.store == st
    ensures !storeFails ==>
      && r.store.links == st.links
      && r.store.banners.Keys == st.banners.Keys - (if id >= 0 then {id as nat} else {})
      && (forall k | k in r.store.banners :: r.store.banners[k] == st.banners[k])
      && r.store.nextBannerId == st.nextBannerId && r.store.nextLinkId == st.nextLinkId
  {
    if storeFails then StoreStep(st, InternalError)
    else if id < 0 then StoreStep(st, NoContent)
    else StoreStep(st.(banners := st.banners - {id as nat}), NoContent)
  }

  // ----------------------------------------------------------------------
  // PATCH /banner/{id}

  /** The request body; every field is optional. */
  datatype PatchBody = PatchBody(isActive: Option<bool>, content: Option<Json>, featureId: Option<int>, tagIds: Option<seq<int>>)

  /** The loaded row with the supplied fields written over it; `Save` stamps `updatedAt`. */
  function Merge(prior: Banner, body: PatchBody, now: nat): (b: Banner)
    ensures b.id == prior.id && b.createdAt == prior.createdAt && b.updatedAt == now
    ensures b.content == (if body.content.Some? then body.content.value else prior.content)
    ensures b.isActive == (if body.isActive.Some? then body.isActive.value else prior.isActive)
  {
    Banner(
      prior.id,
      if body.content.Some? then body.content.value else prior.content,
      prior.createdAt,
      now,
      if body.isActive.Some? then body.isActive.value else prior.isActive)
  }

  /** The supplied feature, else the feature of the first existing link, else none. */
  function EffectiveFeature(body: PatchBody, existing: seq<Link>): (r: Option<int>)
    ensures r.None? <==> body.featureId.None? && |existing| == 0
    ensures body.featureId.Some? ==> r == body.featureId
    ensures body.featureId.None? && |existing| > 0 ==> r == Some(existing[0].featureId)
  {
    if body.featureId.Some? then body.featureId
    else if |existing| > 0 then Some(existing[0].featureId)
    else None
  }

  /** The supplied tags, else the tags of the existing links. */
  function EffectiveTags(body: PatchBody, existing: seq<Link>): (r: seq<int>)
    ensures body.tagIds.Some? ==> r == body.tagIds.value
    ensures body.tagIds.None? ==> |r| == |existing| && forall i | 0 <= i < |existing| :: r[i] == existing[i].tagId
  {
    if body.tagIds.Some? then body.tagIds.value else TagsOf(existing)
  }

  predicate Exists(st: Store, id: int)
  {
    id >= 0 && id as nat in st.banners
  }

  /** The links a successful patch leaves on banner `id`. */
  function PatchedLinks(st: Store, id: nat, body: PatchBody): (r: seq<Link>)
    ensures EffectiveFeature(body, LinksOf(st.links, id)).None? ==> r == []
    ensures EffectiveFeature(body, LinksOf(st.links, id)).Some? ==>
      var f := EffectiveFeature(body, LinksOf(st.links, id)).value;
      var tags := EffectiveTags(body, LinksOf(st.links, id));
      && |r| == |tags|
      && forall i | 0 <= i < |r| :: r[i] == Link(st.nextLinkId + i, id, f, tags[i])
  {
    var existing := LinksOf(st.links, id);
    match EffectiveFeature(body, existing)
    case None => []
    case Some(f) => NewLinks(st.nextLinkId, id, f, EffectiveTags(body, existing))
  }

  function PatchBannerId(st: Store, now: nat, storeFails: bool, id: int, body: PatchBody): (r: StoreStep)
    ensures r.response.InternalError? <==> storeFails
    ensures r.response.NotFound? <==> !storeFails && !Exists(st, id)
    ensures r.response.Conflict? <==>
      && !storeFails && Exists(st, id)
      && var existing := LinksOf(st.links, id as nat);
         && EffectiveFeature(body, existing).Some?
         && !Insertable(DropLinksOf(st.links, id as nat), EffectiveFeature(body, existing).value, EffectiveTags(body, existing))
    ensures r.response in {Ok, NotFound, Conflict, InternalError}
    ensures !r.response.Ok? ==> r.store == st
    ensures r.response.Ok? ==>
      && r.store.banners == st.banners[id as nat := Merge(st.banners[id as nat], body, now)]
      && LinksOf(r.store.links, id as nat) == PatchedLinks(st, id as nat, body)
      && (forall b: nat | b != id :: LinksOf(r.store.links, b) == LinksOf(st.links, b))
      && r.store.nextBannerId == st.nextBannerId
      && r.store.nextLinkId == st.nextLinkId + |PatchedLinks(st, id as nat, body)|
  {
    if storeFails then StoreStep(st, InternalError)
    else if !Exists(st, id) then StoreStep(st, NotFound)
    else
      var bid := id as nat;
      var merged := Merge(st.banners[bid], body, now);
      var existing := LinksOf(st.links, bid);
      var kept := DropLinksOf(st.links, bid);
      match EffectiveFeature(body, existing)
      case None =>
        KeptLinks(st.links, bid);
        StoreStep(st.(banners := st.banners[bid := merged], links := kept), Ok)
      case Some(f) =>
        match InsertLinks(kept, st.nextLinkId, bid, f, EffectiveTags(body, existing))
        case Duplicate(_, _) => StoreStep(st, Conflict)
        case Inserted(links, nextLinkId) =>
          KeptLinks(st.links, bid);
          LinksAfterInsertAll(kept, st.nextLinkId, bid, f, EffectiveTags(body, existing));
          StoreStep(st.(banners := st.banners[bid := merged], links := links, nextLinkId := nextLinkId), Ok)
  }

  /** Dropping a banner's links leaves it none and leaves every other banner's links as they were. */
  lemma KeptLinks(links: seq<Link>, bid: nat)
    ensures LinksOf(DropLinksOf(links, bid), bid) == []
    ensures forall b: nat | b != bid :: LinksOf(DropLinksOf(links, bid), b) == LinksOf(links, b)
  {
    FilterNone(DropLinksOf(links, bid), Owned(bid, true));
    forall b: nat | b != bid ensures LinksOf(DropLinksOf(links, bid), b) == LinksOf(links, b) {
      FilterOfFilter(links, bid, b);
    }
  }

  lemma {:induction false} FilterOfFilter(links: seq<Link>, dropped: nat, bid: nat)
    requires dropped != bid
    ensures LinksOf(DropLinksOf(links, dropped), bid) == LinksOf(links, bid)
    decreases |links|
  {
    if |links| > 0 {
      FilterOfFilter(links[1..], dropped, bid);
      var head: seq<Link> := if links[0].bannerId != dropped then [links[0]] else [];
      assert DropLinksOf(links, dropped) == head + DropLinksOf(links[1..], dropped);
      FilterConcat(head, DropLinksOf(links[1..], dropped), Owned(bid, true));
      assert LinksOf(links, bid) == LinksOf([links[0]], bid) + LinksOf(links[1..], bid) by {
        assert links == [links[0]] + links[1..];
        FilterConcat([links[0]], links[1..], Owned(bid, true));
      }
    }
  }

  lemma LinksAfterInsertAll(kept: seq<Link>, nextId: nat, bid: nat, f: int, tags: seq<int>)
    requires forall l | l in kept :: l.bannerId != bid
    ensures LinksOf(kept + NewLinks(nextId, bid, f, tags), bid) == NewLinks(nextId, bid, f, tags)
    ensures forall b: nat | b != bid :: LinksOf(kept + NewLinks(nextId, bid, f, tags), b) == LinksOf(kept, b)
  {
    LinksAfterInsertOwn(kept, nextId, bid, f, tags);
    forall b: nat | b != bid
      ensures LinksOf(kept + NewLinks(nextId, bid, f, tags), b) == LinksOf(kept, b)
    {
      LinksAfterInsertOther(kept, nextId, bid, f, tags, b);
    }
  }

  // ----------------------------------------------------------------------
  // GET /user_banner

  datatype UserQuery = UserQuery(featureId: int, tagId: int, useLastRevision: Option<bool>)

  datatype CacheStep = CacheStep(cache: Cache.KeyValue, response: Response)

  /** The cache is consulted unless `use_last_revision=true` was passed. */
  predicate CacheAllowed(q: UserQuery)
  {
    q.useLastRevision.None? || !q.useLastRevision.value
  }

  /** Ids of existing banners joined to a link with exactly (f, t). */
  function MatchingBannerIds(st: Store, f: int, t: int): set<nat>
  {
    set l | l in st.links && PairOf(l) == (f, t) && l.bannerId in st.banners :: l.bannerId
  }

  /** `First(&banner)` on the join: the matching banner of least id. The active
      flag plays no part. */
  function FindBanner(st: Store, f: int, t: int): (r: Option<Banner>)
    ensures r.None? <==> forall l | l in st.links && PairOf(l) == (f, t) :: l.bannerId !in st.banners
    ensures r.Some? ==> exists l | l in st.links && PairOf(l) == (f, t) && l.bannerId in st.banners ::
      && r.value == st.banners[l.bannerId]
      && forall m | m in st.links && PairOf(m) == (f, t) && m.bannerId in st.banners :: l.bannerId <= m.bannerId
  {
    var ids := MatchingBannerIds(st, f, t);
    if ids == {} then
      assert forall l | l in st.links && PairOf(l) == (f, t) :: l.bannerId !in st.banners by {
        forall l | l in st.links && PairOf(l) == (f, t) && l.bannerId in st.banners ensures l.bannerId in ids { }
      }
      None
    else
      var least := MinOf(ids);
      assert forall m | m in st.links && PairOf(m) == (f, t) && m.bannerId in st.banners :: m.bannerId in ids;
      Some(st.banners[least])
  }

  /** What the store answers for (f, t): the banner's content, or 404. */
  function StoreAnswer(st: Store, f: int, t: int): Response
  {
    match FindBanner(st, f, t)
    case None => NotFound
    case Some(b) => Document(b.content)
  }

  /** Whether this request is answered from the cache without reading the store. */
  predicate ServedFromCache(c: Cache.KeyValue, now: nat, readFails: bool, q: UserQuery)
  {
    CacheAllowed(q) && !readFails && Cache.Live(c, Cache.Key(q.featureId, q.tagId), now)
  }

  function GetUserBanner(
    st: Store, c: Cache.KeyValue, now: nat,
    storeFails: bool, readFails: bool, writeFails: bool, q: UserQuery): (r: CacheStep)
    ensures ServedFromCache(c, now, readFails, q) ==>
      r == CacheStep(c, Document(c[Cache.Key(q.featureId, q.tagId)].value))
    ensures !ServedFromCache(c, now, readFails, q) ==>
      r.response == (if storeFails then InternalError else StoreAnswer(st, q.featureId, q.tagId))
    ensures !ServedFromCache(c, now, readFails, q) && !storeFails && FindBanner(st, q.featureId, q.tagId).Some? ==>
      r.cache == Cache.Set(c, Cache.Key(q.featureId, q.tagId), FindBanner(st, q.featureId, q.tagId).value.content, now, writeFails)
    ensures r.cache.Keys <= c.Keys + {Cache.Key(q.featureId, q.tagId)}
    ensures forall k | k in c && k != Cache.Key(q.featureId, q.tagId) :: k in r.cache && r.cache[k] == c[k]
    ensures forall k | k in r.cache && (k !in c || r.cache[k] != c[k]) ::
      && k == Cache.Key(q.featureId, q.tagId)
      && r.cache[k].expiresAt == now + Cache.Ttl
      && StoreAnswer(st, q.featureId, q.tagId) == Document(r.cache[k].value)
    ensures !ServedFromCache(c, now, readFails, q) && (storeFails || FindBanner(st, q.featureId, q.tagId).None?) ==>
      r.cache == c
  {
    var key := Cache.Key(q.featureId, q.tagId);
    var read := if CacheAllowed(q) then Cache.Get(c, key, now, readFails) else Cache.Miss;
    if read.Hit? then CacheStep(c, Document(read.value))
    else if storeFails then CacheStep(c, InternalError)
    else match FindBanner(st, q.featureId, q.tagId)
      case None => CacheStep(c, NotFound)
      case Some(b) => CacheStep(Cache.Set(c, key, b.content, now, writeFails), Document(b.content))
  }
}

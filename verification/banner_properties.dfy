/** Properties that relate several handler calls, or a handler call to the
    store invariant: invariants are kept, creation and listing round-trip,
    patches keep what they omit, deletion leaves links behind, and the user
    read goes through the cache. */
module BannerProperties {
  import opened Basics
  import opened Models
  import opened Http
  import opened BannerHandlers
  import Cache

  // ----------------------------------------------------------------------
  // The store invariant is kept by every handler

  lemma PostKeepsValid(st: Store, now: nat, storeFails: bool, body: PostBody)
    requires Valid(st)
    ensures Valid(PostBanner(st, now, storeFails, body).store)
  {
    var r := PostBanner(st, now, storeFails, body);
    if r.response.Created? {
      var id := st.nextBannerId;
      var f := body.featureId.value;
      var tags := body.tagIds.value;
      InsertKeepsInvariants(st.links, st.nextLinkId, id, f, tags);
      NewLinksMembers(st.nextLinkId, id, f, tags);
    }
  }

  lemma PatchKeepsValid(st: Store, now: nat, storeFails: bool, id: int, body: PatchBody)
    requires Valid(st)
    ensures Valid(PatchBannerId(st, now, storeFails, id, body).store)
  {
    var r := PatchBannerId(st, now, storeFails, id, body);
    if r.response.Ok? {
      var bid := id as nat;
      var existing := LinksOf(st.links, bid);
      var kept := DropLinksOf(st.links, bid);
      DropLinksKeepsInvariants(st.links, bid);
      match EffectiveFeature(body, existing)
      case None =>
      case Some(f) =>
        var tags := EffectiveTags(body, existing);
        InsertKeepsInvariants(kept, st.nextLinkId, bid, f, tags);
        NewLinksMembers(st.nextLinkId, bid, f, tags);
    }
  }

  lemma DeleteKeepsValid(st: Store, storeFails: bool, id: int)
    requires Valid(st)
    ensures Valid(DeleteBannerId(st, storeFails, id).store)
  {
  }

  // ----------------------------------------------------------------------
  // POST /banner

  /** A created banner owns exactly one new link per requested tag, all under
      the requested feature, in request order. */
  lemma PostCreatesOneLinkPerTag(st: Store, now: nat, body: PostBody)
    requires Valid(st)
    requires PostBanner(st, now, false, body).response.Created?
    ensures var r := PostBanner(st, now, false, body);
      var mine := LinksOf(r.store.links, r.response.bannerId);
      && TagsOf(mine) == body.tagIds.value
      && (forall l | l in mine :: l.featureId == body.featureId.value)
      && r.store.banners[r.response.bannerId].content == body.content.value
      && r.store.banners[r.response.bannerId].isActive == body.isActive.value
  {
    var id := st.nextBannerId;
    var f := body.featureId.value;
    var tags := body.tagIds.value;
    LinksAfterInsertOwn(st.links, st.nextLinkId, id, f, tags);
    NewLinksMembers(st.nextLinkId, id, f, tags);
  }

  /** Posting the same body twice: the second request is refused with 409 and
      changes nothing, as soon as the body names at least one tag. */
  lemma PostTwiceConflicts(st: Store, now1: nat, now2: nat, body: PostBody)
    requires Valid(st)
    requires PostBanner(st, now1, false, body).response.Created?
    requires |body.tagIds.value| > 0
    ensures var st1 := PostBanner(st, now1, false, body).store;
      PostBanner(st1, now2, false, body) == StoreStep(st1, Conflict)
  {
    var st1 := PostBanner(st, now1, false, body).store;
    var added := NewLinks(st.nextLinkId, st.nextBannerId, body.featureId.value, body.tagIds.value);
    assert added[0] in st1.links;
    assert PairTaken(st1.links, body.featureId.value, body.tagIds.value[0]);
  }

  // ----------------------------------------------------------------------
  // PATCH /banner/{id}

  /** The links of one banner in a valid store have distinct tags and one feature. */
  lemma OwnLinksShape(st: Store, bid: nat)
    requires Valid(st)
    ensures var mine := LinksOf(st.links, bid);
      && NoRepeats(TagsOf(mine))
      && forall l | l in mine :: l.featureId == mine[0].featureId
  {
    var mine := LinksOf(st.links, bid);
    PairwiseFilter(st.links, Owned(bid, true), DistinctPairs);
    forall l | l in mine ensures l.featureId == mine[0].featureId {
      SameBannerFeature(st.links, l, mine[0]);
    }
    forall i, j | 0 <= i < j < |mine| ensures mine[i].tagId != mine[j].tagId {
      assert DistinctPairs(mine[i], mine[j]);
      SameBannerFeature(st.links, mine[i], mine[j]);
    }
  }

  /** Re-patching a banner with its own current pairs (or omitting them) never
      conflicts: its old links are deleted before the new ones are inserted. */
  lemma PatchOwnPairsNeverConflicts(st: Store, now: nat, id: nat, body: PatchBody)
    requires Valid(st) && id in st.banners
    requires var mine := LinksOf(st.links, id);
      && (body.featureId.None? || (|mine| > 0 && body.featureId.value == mine[0].featureId))
      && (body.tagIds.None? || body.tagIds.value == TagsOf(mine))
    ensures PatchBannerId(st, now, false, id, body).response == Ok
  {
    var mine := LinksOf(st.links, id);
    var kept := DropLinksOf(st.links, id);
    OwnLinksShape(st, id);
    if |mine| > 0 {
      var f := mine[0].featureId;
      var tags := TagsOf(mine);
      assert EffectiveFeature(body, mine) == Some(f);
      assert EffectiveTags(body, mine) == tags;
      forall t | t in tags ensures !PairTaken(kept, f, t) {
        var k :| 0 <= k < |tags| && tags[k] == t;
        assert mine[k] in mine;
        if PairTaken(kept, f, t) {
          var l :| l in kept && PairOf(l) == (f, t);
          SamePairSameLink(st.links, l, mine[k]);
        }
      }
    }
  }

  /** A patch that only flips `is_active` keeps the content and keeps the
      banner's (feature, tag) pairs, in order; only the link ids are renewed. */
  lemma PatchOnlyActiveKeepsRest(st: Store, now: nat, id: nat, active: bool)
    requires Valid(st) && id in st.banners
    ensures var r := PatchBannerId(st, now, false, id, PatchBody(Some(active), None, None, None));
      var before := LinksOf(st.links, id);
      var after := LinksOf(r.store.links, id);
      && r.response == Ok
      && r.store.banners[id].isActive == active
      && r.store.banners[id].content == st.banners[id].content
      && |after| == |before|
      && forall i | 0 <= i < |before| :: PairOf(after[i]) == PairOf(before[i])
  {
    var body := PatchBody(Some(active), None, None, None);
    PatchOwnPairsNeverConflicts(st, now, id, body);
    OwnLinksShape(st, id);
    var before := LinksOf(st.links, id);
    var after := LinksOf(PatchBannerId(st, now, false, id, body).store.links, id);
    assert after == PatchedLinks(st, id, body);
    if |before| > 0 {
      var f := before[0].featureId;
      assert after == NewLinks(st.nextLinkId, id, f, TagsOf(before));
      forall i | 0 <= i < |before| ensures PairOf(after[i]) == PairOf(before[i]) {
        assert before[i] in before;
      }
    }
  }

  /** A patch that supplies tags leaves exactly those tags on the banner: the
      old ones are gone. */
  lemma PatchReplacesTags(st: Store, now: nat, id: nat, f: int, tags: seq<int>, body: PatchBody)
    requires body.featureId == Some(f) && body.tagIds == Some(tags)
    requires PatchBannerId(st, now, false, id, body).response == Ok
    ensures var after := LinksOf(PatchBannerId(st, now, false, id, body).store.links, id);
      && TagsOf(after) == tags
      && forall l | l in after :: PairOf(l) == (f, l.tagId)
  {
    NewLinksMembers(st.nextLinkId, id, f, tags);
  }

  /** Tags sent without a feature to a banner that has no links are dropped:
      there is no feature to file them under. */
  lemma PatchWithoutFeatureDropsTags(st: Store, now: nat, id: nat, tags: seq<int>)
    requires id in st.banners && LinksOf(st.links, id) == []
    ensures var r := PatchBannerId(st, now, false, id, PatchBody(None, None, None, Some(tags)));
      r.response == Ok && LinksOf(r.store.links, id) == []
  {
  }

  // ----------------------------------------------------------------------
  // DELETE /banner/{id}

  /** After a delete no listing, filtered or not, shows the banner. */
  lemma DeletedBannerNotListed(st: Store, id: nat, storeFails: bool, q: ListQuery)
    requires Valid(st)
    ensures var st1 := DeleteBannerId(st, false, id).store;
      var r := GetBanner(st1, storeFails, q);
      r.response.Listing? ==> forall e | e in r.response.entries :: e.bannerId != id
  {
  }

  /** Deleting a banner leaves its links behind: their pairs stay taken, so a
      new banner cannot claim them (409), while the user read finds nothing (404). */
  lemma DeleteLeavesPairTaken(st: Store, l: Link, now: nat, active: bool, content: Json)
    requires Valid(st) && l in st.links
    ensures var st1 := DeleteBannerId(st, false, l.bannerId).store;
      && PairTaken(st1.links, l.featureId, l.tagId)
      && PostBanner(st1, now, false, PostBody(Some(active), Some(content), Some(l.featureId), Some([l.tagId]))).response == Conflict
      && StoreAnswer(st1, l.featureId, l.tagId) == NotFound
  {
    var st1 := DeleteBannerId(st, false, l.bannerId).store;
    assert PairTaken(st1.links, l.featureId, l.tagId);
    assert [l.tagId][0] == l.tagId;
    forall m | m in st1.links && PairOf(m) == (l.featureId, l.tagId) ensures m.bannerId !in st1.banners {
      SamePairSameLink(st.links, m, l);
    }
  }

  // ----------------------------------------------------------------------
  // GET /banner

  function EntryIds(entries: seq<BannerView>): (r: seq<nat>)
    ensures |r| == |entries|
    ensures forall i | 0 <= i < |entries| :: r[i] == entries[i].bannerId
  {
    seq(|entries|, i requires 0 <= i < |entries| => entries[i].bannerId)
  }

  /** The banner column of the joined rows, in order. */
  function JoinedIds(st: Store, q: ListQuery): (r: seq<nat>)
    ensures |r| == |Joined(st, q)|
    ensures forall i | 0 <= i < |r| :: r[i] == Joined(st, q)[i].bannerId && Joined(st, q)[i] in st.links
  {
    var js := Joined(st, q);
    seq(|js|, i requires 0 <= i < |js| => js[i].bannerId)
  }

  /** The unfiltered rows come in the model's order: ascending banner id. */
  lemma UnfilteredListingIds(st: Store)
    requires Valid(st)
    ensures EntryIds(GetBanner(st, false, ListQuery(None, None, None, None)).response.entries)
      == SortedIds(st.banners.Keys)
  {
    var q := ListQuery(None, None, None, None);
    var entries := GetBanner(st, false, q).response.entries;
    var ids := SortedIds(st.banners.Keys);
    var rows := Rows(st, q);
    assert Page(rows, q.limit, q.offset) == rows;
    assert |entries| == |rows| == |ids|;
    forall i | 0 <= i < |ids| ensures entries[i].bannerId == ids[i] {
      assert ids[i] in ids;
      assert rows[i] == st.banners[ids[i]] && rows[i].id == ids[i];
      assert entries[i] == View(st, rows[i]);
    }
  }

  /** Without filters or paging the listing shows every banner exactly once:
      no id repeats and the listed ids are exactly the existing banners. The
      order is the model's choice of ascending id. */
  lemma UnfilteredListingIsAllBanners(st: Store)
    requires Valid(st)
    ensures var r := GetBanner(st, false, ListQuery(None, None, None, None));
      var ids := EntryIds(r.response.entries);
      && (forall i, j | 0 <= i < j < |ids| :: ids[i] != ids[j])
      && (forall x :: x in ids <==> x in st.banners)
      && ids == SortedIds(st.banners.Keys)
  {
    UnfilteredListingIds(st);
    var ids := SortedIds(st.banners.Keys);
    assert Ascending(ids);
  }

  /** In a valid store the joined rows are distinct: link ids increase along them. */
  lemma JoinedDistinct(st: Store, q: ListQuery)
    requires Valid(st)
    ensures var js := Joined(st, q);
      forall i, j | 0 <= i < j < |js| :: js[i] != js[j]
  {
    PairwiseFilter(st.links, JoinKeep(q, st.banners), IdBefore);
  }

  /** With a filter and no paging the listing has one entry per matching link
      row whose banner exists: a banner appears as often as it has matching
      links. The first clause says so without regard to order (the joined
      rows are each matching link once); the last gives the model's order,
      that of the link table. */
  lemma FilteredListingOnePerLink(st: Store, q: ListQuery)
    requires Valid(st) && !Unfiltered(q) && q.limit.None? && q.offset.None?
    ensures var r := GetBanner(st, false, q);
      var js := Joined(st, q);
      && multiset(EntryIds(r.response.entries)) == multiset(JoinedIds(st, q))
      && (forall i, j | 0 <= i < j < |js| :: js[i] != js[j])
      && (forall l :: l in js <==> l in st.links && MatchesFilter(q, l) && l.bannerId in st.banners)
    ensures var r := GetBanner(st, false, q);
      EntryIds(r.response.entries) == JoinedIds(st, q)
  {
    var entries := GetBanner(st, false, q).response.entries;
    var js := Joined(st, q);
    var rows := Rows(st, q);
    assert |rows| == |js|;
    assert Page(rows, q.limit, q.offset) == rows;
    assert |entries| == |js|;
    forall i | 0 <= i < |js| ensures entries[i].bannerId == js[i].bannerId {
      assert js[i] in js;
      assert rows[i] == st.banners[js[i].bannerId];
      assert entries[i] == View(st, rows[i]);
    }
    assert EntryIds(entries) == JoinedIds(st, q);
    JoinedDistinct(st, q);
  }

  /** Paging: the listing skips the first `offset` rows of the query (none
      when the offset is missing or not positive) and then returns up to
      `limit` of them (all when the limit is missing or negative), in order. */
  lemma ListingIsPageOfRows(st: Store, q: ListQuery)
    ensures var entries := GetBanner(st, false, q).response.entries;
      var rows := Rows(st, q);
      var skip := Skip(q.offset);
      var left := if skip <= |rows| then |rows| - skip else 0;
      && |entries| == (if q.limit.Some? && 0 <= q.limit.value < left then q.limit.value else left)
      && forall i | 0 <= i < |entries| :: Describes(st, entries[i], rows[skip + i])
  {
    var entries := GetBanner(st, false, q).response.entries;
    var rows := Rows(st, q);
    var page := Page(rows, q.limit, q.offset);
    assert |entries| == |page|;
    forall i | 0 <= i < |entries| ensures Describes(st, entries[i], rows[Skip(q.offset) + i]) {
      assert entries[i] == View(st, page[i]);
    }
  }

  /** Without paging a filtered listing is complete: every matching link whose
      banner exists puts that banner's view in the listing. */
  lemma FilteredListingComplete(st: Store, q: ListQuery, l: Link)
    requires !Unfiltered(q) && q.limit.None? && q.offset.None?
    requires l in st.links && MatchesFilter(q, l) && l.bannerId in st.banners
    ensures View(st, st.banners[l.bannerId]) in GetBanner(st, false, q).response.entries
  {
    var entries := GetBanner(st, false, q).response.entries;
    var js := Joined(st, q);
    var rows := Rows(st, q);
    assert l in js;
    var n :| 0 <= n < |js| && js[n] == l;
    assert Page(rows, q.limit, q.offset) == rows;
    assert rows[n] == st.banners[l.bannerId];
    assert entries[n] == View(st, rows[n]);
  }

  /** In a valid store an entry's `feature_id` is the feature all of the
      banner's links share, and 0 when it has none. */
  lemma ListedFeatureIsBannerFeature(st: Store, storeFails: bool, q: ListQuery)
    requires Valid(st)
    ensures var r := GetBanner(st, storeFails, q);
      r.response.Listing? ==> forall e | e in r.response.entries ::
        var mine := LinksOf(st.links, e.bannerId);
        && e.featureId == (if |mine| == 0 then 0 else mine[0].featureId)
        && forall l | l in mine :: l.featureId == e.featureId
  {
    var r := GetBanner(st, storeFails, q);
    if r.response.Listing? {
      forall e | e in r.response.entries
        ensures var mine := LinksOf(st.links, e.bannerId);
          && e.featureId == (if |mine| == 0 then 0 else mine[0].featureId)
          && forall l | l in mine :: l.featureId == e.featureId
      {
        var mine := LinksOf(st.links, e.bannerId);
        OwnLinksShape(st, e.bannerId);
        if |mine| > 0 {
          assert mine[0] in mine;
          if e.featureId != 0 {
            var i :| 0 <= i < |mine| && mine[i].featureId == e.featureId;
            assert mine[i] in mine;
          }
        }
      }
    }
  }

  /** Creating a banner and then listing by its feature (and optionally one of
      its tags) shows it with that feature, exactly the posted tags and the
      posted content and flag. */
  lemma PostThenListRoundTrip(st: Store, now: nat, body: PostBody, tag: Option<int>)
    requires Valid(st)
    requires PostBanner(st, now, false, body).response.Created?
    requires |body.tagIds.value| > 0
    requires tag.None? || tag.value in body.tagIds.value
    ensures var p := PostBanner(st, now, false, body);
      var r := GetBanner(p.store, false, ListQuery(body.featureId, tag, None, None));
      exists e | e in r.response.entries ::
        && e.bannerId == p.response.bannerId
        && e.featureId == body.featureId.value
        && e.tagIds == Some(body.tagIds.value)
        && e.content == body.content.value
        && e.isActive == body.isActive.value
  {
    var p := PostBanner(st, now, false, body);
    var st1 := p.store;
    var id := p.response.bannerId;
    var f := body.featureId.value;
    var tags := body.tagIds.value;
    var q := ListQuery(body.featureId, tag, None, None);
    PostKeepsValid(st, now, false, body);
    PostCreatesOneLinkPerTag(st, now, body);
    var added := NewLinks(st.nextLinkId, id, f, tags);
    var k := if tag.None? then 0 else var k :| 0 <= k < |tags| && tags[k] == tag.value; k;
    var l := added[k];
    assert l in st1.links;
    var e := View(st1, st1.banners[id]);
    FilteredListingComplete(st1, q, l);
    var mine := LinksOf(st1.links, id);
    OwnLinksShape(st1, id);
    assert mine[0] in mine;
    if e.featureId != 0 {
      var i :| 0 <= i < |mine| && mine[i].featureId == e.featureId;
      assert mine[i] in mine;
    }
  }

  // ----------------------------------------------------------------------
  // GET /user_banner

  /** In a valid store the user read finds the banner of the one link holding
      the pair, when that banner still exists. */
  lemma FindBannerOfLink(st: Store, l: Link)
    requires Valid(st) && l in st.links && l.bannerId in st.banners
    ensures FindBanner(st, l.featureId, l.tagId) == Some(st.banners[l.bannerId])
  {
    var ids := MatchingBannerIds(st, l.featureId, l.tagId);
    assert l.bannerId in ids;
    forall x | x in ids ensures x == l.bannerId {
      var m :| m in st.links && PairOf(m) == (l.featureId, l.tagId) && m.bannerId in st.banners && m.bannerId == x;
      SamePairSameLink(st.links, m, l);
    }
    assert ids == {l.bannerId};
  }

  /** The active flag is not consulted: an inactive banner is served like any other. */
  lemma InactiveBannerServed(st: Store, c: Cache.KeyValue, now: nat, writeFails: bool, l: Link)
    requires Valid(st) && l in st.links && l.bannerId in st.banners
    requires !st.banners[l.bannerId].isActive
    ensures var q := UserQuery(l.featureId, l.tagId, Some(true));
      GetUserBanner(st, c, now, false, false, writeFails, q).response == Document(st.banners[l.bannerId].content)
  {
    FindBannerOfLink(st, l);
  }

  /** A cache hit does not read the store: any two stores give the same answer. */
  lemma CacheHitIgnoresStore(st1: Store, st2: Store, c: Cache.KeyValue, now: nat,
                             storeFails1: bool, storeFails2: bool, writeFails: bool, q: UserQuery)
    requires ServedFromCache(c, now, false, q)
    ensures GetUserBanner(st1, c, now, storeFails1, false, writeFails, q)
         == GetUserBanner(st2, c, now, storeFails2, false, writeFails, q)
  {
  }

  /** A failed cache read is answered exactly like a cache miss. */
  lemma ReadErrorActsAsMiss(st: Store, c: Cache.KeyValue, now: nat, storeFails: bool, writeFails: bool, q: UserQuery)
    ensures var key := Cache.Key(q.featureId, q.tagId);
      GetUserBanner(st, c, now, storeFails, true, writeFails, q).response
        == GetUserBanner(st, c - {key}, now, storeFails, false, writeFails, q).response
  {
  }

  /** A failed cache write is invisible in the response. */
  lemma WriteErrorInvisible(st: Store, c: Cache.KeyValue, now: nat, storeFails: bool, readFails: bool, q: UserQuery)
    ensures GetUserBanner(st, c, now, storeFails, readFails, true, q).response
         == GetUserBanner(st, c, now, storeFails, readFails, false, q).response
  {
  }

  /** A read that found the banner in the store leaves its content in the
      cache for five minutes, even when the caller asked for the last revision. */
  lemma ReadFillsCache(st: Store, c: Cache.KeyValue, now: nat, readFails: bool, q: UserQuery)
    requires !ServedFromCache(c, now, readFails, q)
    requires FindBanner(st, q.featureId, q.tagId).Some?
    ensures var r := GetUserBanner(st, c, now, false, readFails, false, q);
      var key := Cache.Key(q.featureId, q.tagId);
      && r.response == Document(FindBanner(st, q.featureId, q.tagId).value.content)
      && key in r.cache
      && r.cache[key] == Cache.Entry(FindBanner(st, q.featureId, q.tagId).value.content, now + Cache.Ttl)
  {
  }

  /** Once filled, the cache answers with the same content for five minutes,
      whatever happened to the store in between; a caller that asks for the
      last revision still reads the store. */
  lemma CachedContentServedUntilExpiry(st1: Store, st2: Store, c: Cache.KeyValue, t1: nat, t2: nat,
                                       readFails1: bool, q: UserQuery)
    requires !ServedFromCache(c, t1, readFails1, q)
    requires FindBanner(st1, q.featureId, q.tagId).Some?
    requires t1 <= t2 <= t1 + Cache.Ttl
    requires CacheAllowed(q)
    ensures var r1 := GetUserBanner(st1, c, t1, false, readFails1, false, q);
      var r2 := GetUserBanner(st2, r1.cache, t2, false, false, false, q);
      r2.response == r1.response
    ensures var r1 := GetUserBanner(st1, c, t1, false, readFails1, false, q);
      var q' := q.(useLastRevision := Some(true));
      GetUserBanner(st2, r1.cache, t2, false, false, false, q').response == StoreAnswer(st2, q.featureId, q.tagId)
  {
  }

  /** After the five minutes have passed, with no other fill of that key, the
      read goes back to the store. */
  lemma ExpiredEntryRereadsStore(st1: Store, st2: Store, c: Cache.KeyValue, t1: nat, t2: nat,
                                 readFails1: bool, q: UserQuery)
    requires !ServedFromCache(c, t1, readFails1, q)
    requires FindBanner(st1, q.featureId, q.tagId).Some?
    requires t2 > t1 + Cache.Ttl
    ensures var r1 := GetUserBanner(st1, c, t1, false, readFails1, false, q);
      GetUserBanner(st2, r1.cache, t2, false, false, false, q).response == StoreAnswer(st2, q.featureId, q.tagId)
  {
  }
}

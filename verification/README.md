# Banner service — a Dafny model

This project models the core of a banner service. Administrators create, list, patch and delete banners. Each banner carries a set of (feature, tag) links, and a unique index guarantees that no two links share a pair. End users read the content of the banner linked to a given (feature, tag), through a read-through cache whose entries live for five minutes.

The model covers:

- **The data model.** The `banners` and `banner_feature_tags` tables with the unique index on (feature_id, tag_id), plus the identifier sequences of both tables. It is kept as a banner map plus a link sequence (`Models.Store`).
- **The five handlers.** `GetBanner`, `PostBanner`, `DeleteBannerId`, `PatchBannerId` and `GetUserBanner`, each a pure function from the store (and cache) to a new store (and cache) and an HTTP response.
  - A failed transaction is rolled back. The model expresses a rollback by returning the input store unchanged.
  - "Pair already taken" (the outcome `isDuplicateEntryError` recognises) is the `Duplicate` outcome of `Models.InsertLinks`. Every insert is checked against the table as it stands at that moment.
- **The cache.** Redis is modelled as a map from key to (value, absolute expiry in ms). An entry is live while `now <= expiry`, and the TTL is 300 000 ms. The key is `"banner:" + %d(feature) + ":" + %d(tag)`, with the `%d` rendering and its parser written out (`Decimal`).
- **The access gate.** The fixed admin and user token lists, the linear search over them, and `AdminMiddleware`/`UserMiddleware`.
- **The route table.** Which handler each (method, path) reaches and behind which middleware.
- **The whole service as a state machine (`Service.Dispatch`).** It routes a request, applies the middleware, then runs the handler. Over runs of such steps it proves a bounded-staleness theorem: whatever the user read returns is what the store answered for that pair at that step or an earlier one, at most five minutes before. It also proves that every store reachable from a freshly migrated database keeps the unique index and the other store invariants.

The clock reading and the failures of the store and the cache are inputs of each call:

- `now: nat` — the request clock in milliseconds.
- `storeFails` — a transport or transaction error of the database. The handler answers 500 and the store is unchanged.
- `readFails`/`writeFails` — Redis errors, which the handler logs and otherwise ignores.

Three behaviours of the code that a reader might not expect, all modelled as written:

- **Delete.** `DeleteBannerId` deletes only the banner row (internal/server/banner_handlers.go:164). `BannerFeatureTag.BannerID` is a plain column with neither a foreign key nor a cascade (internal/db/models.go:18). The banner's links and their pairs therefore remain: `BannerProperties.DeleteLeavesPairTaken` shows that a new POST of one of those pairs gets 409 while the user read answers 404.
- **Active flag.** The user read's 404 message says the banner was "not found or is not active" (internal/server/banner_handlers.go:287). The query before it (:283-284) has no `is_active` condition, so an inactive banner is served like any other (`BannerProperties.InactiveBannerServed`).
- **Null tags.** A listed banner without links keeps a nil `TagIds` slice. The field has no `omitempty` (internal/server/banner_handlers.go:32), so it is rendered as `"tag_ids": null`. The model keeps this as `tagIds == None` (`BannerHandlers.View`).

Files: `basics.dfy` (Option, filtering, pairwise relations, sorting a set of ids), `decimal.dfy`, `models.dfy`, `http.dfy`, `cache.dfy`, `banner_handlers.dfy`, `banner_properties.dfy`, `middleware.dfy`, `routes.dfy`, `service.dfy`.

## Model

| member | source | states |
|---|---|---|
| Models.InsertLinks | internal/server/banner_handlers.go:132-147 | The per-tag inserts inside a transaction. They succeed exactly when the tag list repeats no tag and no tag's (feature, tag) pair is already in the table. On success exactly one link per tag is appended, in request order, with consecutive fresh ids. On failure the refused pair has the requested feature and one of the requested tags. |
| Models.LinksOf | internal/server/banner_handlers.go:210-215 | Selecting a banner's links yields exactly the table's links with that banner id. |
| Models.DropLinksOf | internal/server/banner_handlers.go:230-234 | Deleting a banner's links keeps exactly the links of other banners. |
| Models.AtMostOneLinkPerPair | internal/db/models.go:19-20 | Under the unique index two positions of the link table holding the same (feature, tag) pair are the same position. |
| Models.SamePairSameLink | internal/db/models.go:19-20 | Two links of the table that share a pair are the same row. |
| Models.LinkIdsUnique | internal/db/models.go:17 | Link ids are a primary key: distinct rows have distinct ids. |
| Models.UniquenessIsOnThePairOnly | internal/db/models.go:16-21 | A valid table can hold several links of one banner, one feature with several tags, and one tag under several features; only the pair is unique. |
| Models.OrphanLinksAllowed | internal/db/models.go:18 | With no foreign key, a link naming a banner id that has no row still satisfies every store invariant. |
| Models.DropLinksKeepsInvariants | internal/server/banner_handlers.go:230-234 | Deleting a banner's links keeps pair uniqueness, increasing link ids and one feature per banner. |
| Models.EmptyStoreValid | internal/db/models.go:8-21 | A freshly migrated database, with no rows and both sequences at 1, satisfies the store invariant. |
| Models.InsertKeepsInvariants | internal/server/banner_handlers.go:236-253 | A successful run of inserts for a banner with no remaining links keeps pair uniqueness, increasing link ids and one feature per banner. |
| Decimal.IntRoundTrip | internal/server/banner_handlers.go:267 | Parsing the `%d` rendering of any integer gives that integer back. |
| Decimal.IntToStringInjective | internal/server/banner_handlers.go:267 | Distinct integers have distinct `%d` renderings. |
| Cache.Get | internal/server/banner_handlers.go:271-279 | A read hits exactly when Redis answers and the key holds an unexpired entry, and then returns the stored value. It is an error exactly when Redis fails. |
| Cache.Set | internal/server/banner_handlers.go:307-311 | A successful write stores the value under the key with expiry now + 5 min and leaves every other key as it was. A failed write changes nothing. |
| Cache.KeyRoundTrip | internal/server/banner_handlers.go:267 | The key `banner:f:t` parses back to (f, t). |
| Cache.KeyInjective | internal/server/banner_handlers.go:267 | Two (feature, tag) pairs get the same cache key if and only if they are equal. |
| BannerHandlers.Joined | internal/server/banner_handlers.go:47-59 | The join keeps exactly the links that match every supplied filter (AND when both are given) and whose banner row exists. |
| BannerHandlers.Page | internal/server/banner_handlers.go:61-68 | LIMIT/OFFSET: the page skips the offset (none if missing or not positive) and returns the following rows in order. It holds at most `limit` rows (no bound if missing or negative), and exactly `limit` when that many remain. |
| BannerHandlers.LastNonZeroFeature | internal/server/banner_handlers.go:89-94 | The enrichment loop's feature: 0 exactly when every link has feature 0. Otherwise it is the feature of a link after which all links have feature 0. |
| BannerHandlers.ListingSound | internal/server/banner_handlers.go:47-95 | Every listed entry shows an existing banner with its content, timestamps, flag, all its links' tags and their last non-zero feature. When filtering, that banner owns a link matching the filter. |
| BannerHandlers.TagList | internal/server/banner_handlers.go:89-94 | The `tag_ids` built by appending to a nil slice: nil (rendered as null) exactly when the banner has no links, otherwise one tag per link in link order. |
| BannerHandlers.View | internal/server/banner_handlers.go:75-95 | A listing entry describes the banner row with all its links. `tag_ids` is null exactly when no link names the banner, and then the feature is 0. |
| BannerHandlers.GetBanner | internal/server/banner_handlers.go:40-99 | Listing never changes the store. It answers 500 exactly when the store fails, and otherwise returns at most `limit` entries, each describing an existing banner (matching the filter when one is given). |
| BannerHandlers.PostBanner | internal/server/banner_handlers.go:101-156 | The outcomes, each as an if-and-only-if: 400 when a field is missing, 500 on a store failure, 409 when a pair is taken or a tag repeats, 201 otherwise. Anything but 201 leaves the store unchanged. On 201 the new banner gets the next id with the given content and flag, and the links gain exactly one row per tag. |
| BannerHandlers.DeleteBannerId | internal/server/banner_handlers.go:163-168 | Delete answers 204 whether or not the id exists (500 on a store failure). It removes only that banner row and leaves the links and the other banners unchanged. |
| BannerHandlers.Merge | internal/server/banner_handlers.go:196-202 | Definition of the merged row: the supplied fields written over the loaded row, with id and creation time kept and the update time stamped by `Save`. `BannerProperties.PatchOnlyActiveKeepsRest` tests it. |
| BannerHandlers.EffectiveFeature | internal/server/banner_handlers.go:217-221 | Definition of the patch's feature: the supplied one, else the first existing link's, and none exactly when neither exists. `BannerProperties.PatchWithoutFeatureDropsTags` and `BannerProperties.PatchReplacesTags` test it. |
| BannerHandlers.EffectiveTags | internal/server/banner_handlers.go:222-228 | Definition of the patch's tags: the supplied list, else the existing links' tags in order. `BannerProperties.PatchReplacesTags` and `BannerProperties.PatchOnlyActiveKeepsRest` test it. |
| BannerHandlers.PatchedLinks | internal/server/banner_handlers.go:236-253 | The links a successful patch leaves on the banner: none without an effective feature, otherwise one per effective tag in order, all under that feature, with consecutive fresh ids. |
| BannerHandlers.PatchBannerId | internal/server/banner_handlers.go:171-262 | 500 on a store failure and 404 exactly when the banner does not exist. 409 exactly when the effective links cannot all be inserted once the banner's old links are gone. Any failure leaves the store unchanged. On 200 the banner row is merged, its links are exactly the effective ones, every other banner's links are unchanged, and the link sequence has advanced by one per inserted link. |
| BannerHandlers.FindBanner | internal/server/banner_handlers.go:282-291 | The joined `First`: no result exactly when no existing banner has a link with the pair. Otherwise the result is such a banner, the one with the least id. |
| BannerHandlers.GetUserBanner | internal/server/banner_handlers.go:264-314 | With caching allowed, no read error and a live entry, the entry is returned and nothing changes. Otherwise the answer is 500 on a store failure, else what the store holds for the pair (404 if nothing). A store hit is written to the cache. A 404 or a 500 leaves the cache exactly as it was, so a stale entry stays live. No other key changes, and every entry that changes holds the store's answer with expiry now + TTL. |
| BannerProperties.PostKeepsValid | internal/server/banner_handlers.go:120-147 | Creating a banner keeps the store invariant (unique pairs, unique ids, one feature per banner). |
| BannerProperties.PatchKeepsValid | internal/server/banner_handlers.go:217-253 | Patching a banner keeps the store invariant. |
| BannerProperties.DeleteKeepsValid | internal/server/banner_handlers.go:163-168 | Deleting a banner keeps the store invariant. |
| BannerProperties.PostCreatesOneLinkPerTag | internal/server/banner_handlers.go:120-147 | After a successful POST the new banner's tags are exactly the requested tags in order, all under the requested feature, and its content and flag are the requested ones. |
| BannerProperties.PostTwiceConflicts | tests/e2e_test.go:187-195 | Once a body naming at least one tag has been created, posting it again is refused with 409 and changes nothing. |
| BannerProperties.OwnLinksShape | internal/server/banner_handlers.go:219-220 | In a valid store a banner's links have pairwise distinct tags and share the feature of the first one. |
| BannerProperties.PatchOwnPairsNeverConflicts | internal/server/banner_handlers.go:230-253 | Patching a banner with its own current feature and tags (or omitting them) is never refused: its old links are deleted before the new ones are inserted. |
| BannerProperties.PatchOnlyActiveKeepsRest | internal/server/banner_handlers.go:196-228 | A patch that only sets `is_active` changes the flag, keeps the content and keeps the banner's (feature, tag) pairs in order. |
| BannerProperties.PatchReplacesTags | tests/e2e_test.go:112-129 | A patch with feature and tags leaves exactly those tags on the banner, all under that feature. |
| BannerProperties.PatchWithoutFeatureDropsTags | internal/server/banner_handlers.go:217-236 | Tags sent without a feature to a banner with no links are dropped: the patch succeeds and the banner has no links. |
| BannerProperties.DeletedBannerNotListed | tests/e2e_test.go:77-94 | After a delete no listing, filtered or not, contains the banner. |
| BannerProperties.DeleteLeavesPairTaken | internal/server/banner_handlers.go:163-168 | After deleting a banner its links remain. Their pairs stay taken, so a POST claiming one gets 409, while the user read answers 404. |
| BannerProperties.UnfilteredListingIsAllBanners | internal/server/banner_handlers.go:43-73 | Without filters or paging no listed id repeats and the listed ids are exactly the existing banners. The ascending order is the model's choice (see "Row order"). |
| BannerProperties.ListingIsPageOfRows | internal/server/banner_handlers.go:61-95 | The listing's size is the page size fixed by limit and offset. Entry i describes query row offset + i. |
| BannerProperties.FilteredListingOnePerLink | internal/server/banner_handlers.go:47-59 | Without paging the multiset of listed ids is that of the joined rows' banner ids. The joined rows are each matching link with an existing banner once, so a banner repeats once per matching link. Link order is the model's choice. |
| BannerProperties.JoinedDistinct | internal/server/banner_handlers.go:47-59 | In a valid store the join yields each link row at most once, since link ids increase along the table. |
| BannerProperties.FilteredListingComplete | internal/server/banner_handlers.go:47-95 | Without paging every matching link whose banner exists puts that banner's full view in the listing. |
| BannerProperties.ListedFeatureIsBannerFeature | internal/server/banner_handlers.go:84-94 | In a valid store an entry's feature is the feature shared by all the banner's links, or 0 when it has none. |
| BannerProperties.PostThenListRoundTrip | tests/e2e_test.go:32-48 | Creating a banner and listing by its feature (and one of its tags) shows it with that feature, exactly the posted tags, and the posted content and flag. |
| BannerProperties.FindBannerOfLink | internal/server/banner_handlers.go:282-284 | In a valid store the user read finds the banner of the one link holding the pair. |
| BannerProperties.InactiveBannerServed | internal/server/banner_handlers.go:282-287 | An inactive banner is served like an active one. |
| BannerProperties.CacheHitIgnoresStore | internal/server/banner_handlers.go:269-274 | A cache hit gives the same answer and cache whatever the store holds or whether it fails. |
| BannerProperties.ReadErrorActsAsMiss | internal/server/banner_handlers.go:275-279 | A failed cache read is answered exactly as a miss on that key. |
| BannerProperties.WriteErrorInvisible | internal/server/banner_handlers.go:307-313 | A failed cache write does not change the response. |
| BannerProperties.ReadFillsCache | internal/server/banner_handlers.go:282-313 | A read answered by the store returns the banner content and caches it for five minutes, whether or not the last revision was asked for. |
| BannerProperties.CachedContentServedUntilExpiry | internal/server/banner_handlers.go:269-311 | For five minutes after a fill, cached reads return the same content whatever the store became. A read asking for the last revision gets the store's current answer. |
| BannerProperties.ExpiredEntryRereadsStore | internal/server/banner_handlers.go:269-291 | Once the five minutes have passed the read returns the store's current answer. |
| Middleware.Contains | internal/server/middleware/middleware.go:41-57 | The linear search returns true exactly when the token is in the list. |
| Middleware.IsValidAdminToken | internal/server/middleware/middleware.go:41-48 | A token is a valid admin token exactly when it is on the admin list. |
| Middleware.IsValidUserToken | internal/server/middleware/middleware.go:50-57 | A token is a valid user token exactly when it is on the user list. |
| Middleware.TokenListsDisjoint | internal/server/middleware/middleware.go:37-39 | No token is both an admin and a user token. |
| Middleware.Classify | internal/server/middleware/middleware.go:37-57 | Every token has exactly one role: admin iff on the admin list, user iff on the user list, otherwise unauthenticated. |
| Middleware.AdminMiddleware | internal/server/middleware/middleware.go:9-23 | 403 exactly for user tokens, 401 exactly for tokens on neither list, and the handler runs exactly for admin tokens. |
| Middleware.UserMiddleware | internal/server/middleware/middleware.go:25-35 | The handler runs exactly for user and admin tokens. Every rejection is 401, never 403. |
| Middleware.MiddlewaresByRole | internal/server/middleware/middleware.go:9-35 | Both middlewares decide by the caller's role alone. |
| Middleware.MissingTokenUnauthorized | internal/server/middleware/middleware.go:11-19 | A missing token header is answered 401 by both middlewares. |
| Routes.Table | internal/server/handlers.go:11-15 | Definition of the five registrations: method, path pattern, handler and middleware. `Routes.GuardsByPath` and `Service.EveryRequestRouted` state what it holds. |
| Routes.Lookup | internal/server/handlers.go:11-15 | A found route is in the table with the requested method and path. When none is found, no route has them. |
| Routes.GuardsByPath | internal/server/handlers.go:11-15 | Every `/banner` route is behind the admin middleware and `/user_banner` behind the user middleware. |
| Routes.UserTokenReachesOnlyUserBanner | internal/server/handlers.go:11-15 | A user token passes exactly on the user read, and every other route refuses it with 403. |
| Routes.AdminTokenReachesAll | internal/server/handlers.go:11-15 | An admin token passes on every route. |
| Routes.UnknownTokenReachesNone | internal/server/handlers.go:11-15 | A token on neither list is refused with 401 on every route. |
| Service.EveryRequestRouted | internal/server/handlers.go:11-15 | Each kind of request finds its own handler's route, behind the admin guard except the user read. |
| Service.Dispatch | internal/server/handlers.go:11-15 | A request end to end: unauthenticated callers get 401 and change nothing. User tokens get 403 on admin requests and change nothing. An admitted request is exactly its handler. The store invariant is kept. |
| Service.RunKeepsValid | internal/server/banner_handlers.go:101-262 | Along any run of requests from a store that keeps the invariant, every state keeps it. |
| Service.ReachableStoresValid | internal/db/models.go:16-21 | Every store reachable from a freshly migrated database, under any requests, tokens, clock readings and failures, has unique (feature, tag) pairs, unique ids and one feature per banner. |
| Service.UserTokenForbiddenOnAdminRequests | internal/server/middleware/middleware.go:13-15 | A user token on an admin request gets 403, and neither the store nor the cache changes. |
| Service.CacheChangesOnlyOnUserRead | internal/server/banner_handlers.go:264-314 | Only an admitted user read can change the cache. |
| Service.HandleKeepsValid | internal/server/banner_handlers.go:101-262 | Every handler keeps the store invariant. |
| Service.DispatchWritesFromStore | internal/server/banner_handlers.go:307-311 | Every cache entry a request adds or replaces holds what the store answers at that moment for the pair its key names, with expiry now + TTL. |
| Service.WritesKeepJustified | internal/server/banner_handlers.go:307-311 | Writes taken from the current store keep every cache entry justified by some past store snapshot. |
| Service.StepKeepsJustified | internal/server/banner_handlers.go:264-314 | One request keeps the cache justified, once its own snapshot joins the past. |
| Service.UserReadSource | internal/server/banner_handlers.go:269-313 | A user read that returns a banner returns either the live cache entry for its key or the store's current answer. |
| Service.JustifiedAnswerWithinTtl | internal/server/banner_handlers.go:269-274 | Against a justified cache, such an answer is the store's current answer, or its answer at a snapshot no more than one TTL old. |
| Service.CachedAnswerWithinTtl | internal/server/banner_handlers.go:264-314 | The same for a dispatched user read. |
| Service.JustifiedAlongRun | internal/server/banner_handlers.go:264-314 | Along any run that starts with an empty cache, the cache stays justified by the snapshots of the steps so far. |
| Service.ServedContentAtMostTtlStale | internal/server/banner_handlers.go:264-314 | Bounded staleness: the run starts with an empty cache and a clock that never goes back. Then every banner the user read returns is the store's answer for that pair at some step j, the read's own step or an earlier one, with the read's time within five minutes after step j's. |

## Left out

- Request binding: a malformed JSON body or a non-integer path or query parameter (the 400s of `ctx.Bind` and the generated wrapper) is not modelled. Requests arrive typed. Only missing POST fields are modelled, as `None`.
- JSON handling: `getJsonFromPointer`, `json.Marshal` in `GetUserBanner` and its 500 are left out. Content is an opaque string, and the cached bytes are taken to equal the content. Of the listing's JSON rendering only `tag_ids` being null or a list is modelled.
- Timestamps: `autoCreateTime`/`autoUpdateTime` are modelled as the request clock. Both are set on create, and `updatedAt` is set on save.
- Individual database failure points: every database failure point of a handler is folded into one `storeFails` flag per request. This includes beginning the transaction, each insert, commit, the listing query, the per-row link fetch in `GetBanner` and the unused link fetch in `GetUserBanner`. The handler answers 500 and the store is unchanged.
- Postgres sequence gaps: a rolled-back insert consumes sequence values in Postgres. The model returns the input store unchanged, counters included.
- Row order: SQL leaves row order open, and none of the queries has an ORDER BY. The model lists unfiltered rows in ascending banner id and joined rows in link order. `First` is taken to pick the least banner id, as GORM orders `First` by primary key. The two per-banner link fetches `WHERE banner_id = ?` are read in link-id order (`Models.LinksOf`): the listing enrichment (internal/server/banner_handlers.go:85) and `existingTags` in the patch (:211). The order of every listed `tag_ids`, the ordered tag equality of `BannerProperties.PostThenListRoundTrip` and the "pairs in order" clause of `BannerProperties.PatchOnlyActiveKeepsRest` rest on that reading, which the program's own test also expects (tests/e2e_test.go:128).
- `Limit(0)`: it is taken to return no rows, while a negative limit means no limit.
- Concurrent requests: racing writers and the unique index's atomicity under concurrency are not modelled. The model runs requests one at a time.
- Logging: all `slog` output is left out.
- Redis: expiry is checked against the request clock. Eviction other than expiry, and a Redis clock differing from the server clock, are not modelled.
- Start-up: connection bootstrap, `AutoMigrate` and the Echo server start-up are not part of this model (server.go, main.go, migrations.go).
- The header-reading details of Echo: a missing `token` header is modelled as the empty token.

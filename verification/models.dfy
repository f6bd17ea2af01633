/** The relational store behind the banner service: the `banners` table, the
    `banner_feature_tags` link table with its unique index on
    (feature_id, tag_id), and the identifier sequences of both tables. */
module Models {
  import opened Basics

  /** A banner's content document, kept as its serialized JSON text. */
  type Json = string

  /** A row of `banners`. Timestamps are milliseconds on the request clock. */
  datatype Banner = Banner(id: nat, content: Json, createdAt: nat, updatedAt: nat, isActive: bool)

  /** A row of `banner_feature_tags`. `bannerId` is a plain column: no foreign
      key and no cascade tie it to `banners`. */
  datatype Link = Link(id: nat, bannerId: nat, featureId: int, tagId: int)

  /** Both tables plus the next value of each identifier sequence. Links are
      kept in insertion order, which is also ascending link id order. */
  datatype Store = Store(banners: map<nat, Banner>, links: seq<Link>, nextBannerId: nat, nextLinkId: nat)

  /** The store of a freshly migrated database. */
  const EmptyStore: Store := Store(map[], [], 1, 1)

  /** The key of the unique index `idx_feature_tag`. */
  function PairOf(l: Link): (int, int)
  {
    (l.featureId, l.tagId)
  }

  predicate DistinctPairs(a: Link, b: Link)
  {
    PairOf(a) != PairOf(b)
  }

  predicate IdBefore(a: Link, b: Link)
  {
    a.id < b.id
  }

  predicate SameBannerSameFeature(a: Link, b: Link)
  {
    a.bannerId == b.bannerId ==> a.featureId == b.featureId
  }

  /** No two links share a (feature, tag) pair. */
  ghost predicate UniquePairs(links: seq<Link>)
  {
    Pairwise(links, DistinctPairs)
  }

  /** Link ids strictly increase along the table, so they are distinct. */
  ghost predicate IncreasingIds(links: seq<Link>)
  {
    Pairwise(links, IdBefore)
  }

  /** All links of one banner carry the same feature id. */
  ghost predicate OneFeaturePerBanner(links: seq<Link>)
  {
    Pairwise(links, SameBannerSameFeature)
  }

  /** The store invariant: primary keys are unique and below their sequence,
      the unique index holds, and each banner is tied to a single feature. */
  ghost predicate Valid(st: Store)
  {
    && (forall id | id in st.banners :: st.banners[id].id == id && id < st.nextBannerId)
    && (forall l | l in st.links :: l.bannerId < st.nextBannerId && l.id < st.nextLinkId)
    && UniquePairs(st.links)
    && IncreasingIds(st.links)
    && OneFeaturePerBanner(st.links)
  }

  lemma EmptyStoreValid()
    ensures Valid(EmptyStore)
  {
  }

  /** The unique index refuses a row with pair (f, t) exactly when some link already has it. */
  predicate PairTaken(links: seq<Link>, f: int, t: int)
  {
    exists l | l in links :: PairOf(l) == (f, t)
  }

  /** The rows whose `banner_id` is `bid` (or is not, when `owned` is false). */
  function Owned(bid: nat, owned: bool): Link -> bool
  {
    (l: Link) => (l.bannerId == bid) == owned
  }

  /** `SELECT * FROM banner_feature_tags WHERE banner_id = bid`, in table order. */
  function LinksOf(links: seq<Link>, bid: nat): (r: seq<Link>)
    ensures forall l :: l in r <==> l in links && l.bannerId == bid
  {
    Filter(links, Owned(bid, true))
  }

  /** The table after `DELETE FROM banner_feature_tags WHERE banner_id = bid`. */
  function DropLinksOf(links: seq<Link>, bid: nat): (r: seq<Link>)
    ensures forall l :: l in r <==> l in links && l.bannerId != bid
  {
    Filter(links, Owned(bid, false))
  }

  /** The tag column of a list of links, in order. */
  function TagsOf(links: seq<Link>): (r: seq<int>)
    ensures |r| == |links|
    ensures forall i | 0 <= i < |links| :: r[i] == links[i].tagId
  {
    seq(|links|, i requires 0 <= i < |links| => links[i].tagId)
  }

  /** The rows one insert per tag writes: consecutive ids from `nextId`, all for
      banner `bid` under feature `f`, one per tag in order. */
  function NewLinks(nextId: nat, bid: nat, f: int, tags: seq<int>): (r: seq<Link>)
    ensures |r| == |tags|
    ensures forall i | 0 <= i < |tags| :: r[i] == Link(nextId + i, bid, f, tags[i])
  {
    seq(|tags|, i requires 0 <= i < |tags| => Link(nextId + i, bid, f, tags[i]))
  }

  /** What every inserted row looks like. */
  lemma NewLinksMembers(nextId: nat, bid: nat, f: int, tags: seq<int>)
    ensures forall l | l in NewLinks(nextId, bid, f, tags) ::
      l.bannerId == bid && l.featureId == f && nextId <= l.id < nextId + |tags| && l.tagId in tags
  {
    forall l | l in NewLinks(nextId, bid, f, tags)
      ensures l.bannerId == bid && l.featureId == f && nextId <= l.id < nextId + |tags| && l.tagId in tags
    {
      var i :| 0 <= i < |tags| && NewLinks(nextId, bid, f, tags)[i] == l;
    }
  }

  /** A tag list with no tag written twice. */
  predicate NoRepeats(tags: seq<int>)
  {
    forall i, j | 0 <= i < j < |tags| :: tags[i] != tags[j]
  }

  /** How a run of inserts into the link table ends inside a transaction:
      every row written, or the unique index refused the pair (f, t) — the
      outcome the handlers recognise with `isDuplicateEntryError`. */
  datatype InsertOutcome = Inserted(links: seq<Link>, nextId: nat) | Duplicate(featureId: int, tagId: int)

  /** One `INSERT` per tag, each checked against the table as it stands at that
      moment, so a pair inserted earlier in the same run is already taken. */
  function InsertLinks(links: seq<Link>, nextId: nat, bid: nat, f: int, tags: seq<int>): (r: InsertOutcome)
    ensures r.Inserted? <==> NoRepeats(tags) && forall t | t in tags :: !PairTaken(links, f, t)
    ensures r.Inserted? ==> r.links == links + NewLinks(nextId, bid, f, tags) && r.nextId == nextId + |tags|
    ensures r.Duplicate? ==> r.featureId == f && r.tagId in tags
    decreases |tags|
  {
    if |tags| == 0 then Inserted(links, nextId)
    else if PairTaken(links, f, tags[0]) then Duplicate(f, tags[0])
    else
      var row := Link(nextId, bid, f, tags[0]);
      var r := InsertLinks(links + [row], nextId + 1, bid, f, tags[1..]);
      InsertLinksStep(links, row, f, tags);
      NewLinksCons(nextId, bid, f, tags);
      r
  }

  /** The success condition of `InsertLinks` unfolds one tag at a time. */
  lemma InsertLinksStep(links: seq<Link>, row: Link, f: int, tags: seq<int>)
    requires |tags| > 0 && row.featureId == f && row.tagId == tags[0]
    requires !PairTaken(links, f, tags[0])
    ensures (NoRepeats(tags[1..]) && forall t | t in tags[1..] :: !PairTaken(links + [row], f, t))
        <==> (NoRepeats(tags) && forall t | t in tags :: !PairTaken(links, f, t))
  {
    forall t ensures PairTaken(links + [row], f, t) <==> PairTaken(links, f, t) || t == tags[0] {
      if PairTaken(links + [row], f, t) {
        var l :| l in links + [row] && PairOf(l) == (f, t);
        if l !in links {
          assert l == row;
        }
      }
      if t == tags[0] {
        assert row in links + [row];
      }
      if PairTaken(links, f, t) {
        var l :| l in links && PairOf(l) == (f, t);
        assert l in links + [row];
      }
    }
    if NoRepeats(tags[1..]) && forall t | t in tags[1..] :: !PairTaken(links + [row], f, t) {
      forall i, j | 0 <= i < j < |tags| ensures tags[i] != tags[j] {
        if i == 0 {
          assert tags[j] == tags[1..][j - 1];
        } else {
          assert tags[i] == tags[1..][i - 1] && tags[j] == tags[1..][j - 1];
        }
      }
      forall t | t in tags ensures !PairTaken(links, f, t) {
        if t != tags[0] {
          assert t in tags[1..];
        }
      }
    }
    if NoRepeats(tags) && forall t | t in tags :: !PairTaken(links, f, t) {
      forall t | t in tags[1..] ensures !PairTaken(links + [row], f, t) {
        var k :| 0 <= k < |tags[1..]| && tags[1..][k] == t;
        assert tags[k + 1] == t;
      }
      forall i, j | 0 <= i < j < |tags[1..]| ensures tags[1..][i] != tags[1..][j] {
        assert tags[1..][i] == tags[i + 1] && tags[1..][j] == tags[j + 1];
      }
    }
  }

  lemma NewLinksCons(nextId: nat, bid: nat, f: int, tags: seq<int>)
    requires |tags| > 0
    ensures NewLinks(nextId, bid, f, tags) == [Link(nextId, bid, f, tags[0])] + NewLinks(nextId + 1, bid, f, tags[1..])
  {
  }

  /** At most one link exists for any (feature, tag) pair. */
  lemma {:induction false} AtMostOneLinkPerPair(links: seq<Link>, i: int, j: int)
    requires UniquePairs(links)
    requires 0 <= i < |links| && 0 <= j < |links|
    ensures PairOf(links[i]) == PairOf(links[j]) ==> i == j
  {
    if i < j {
      assert DistinctPairs(links[i], links[j]);
    } else if j < i {
      assert DistinctPairs(links[j], links[i]);
    }
  }

  /** Two links in a table with unique pairs that share a pair are the same row. */
  lemma SamePairSameLink(links: seq<Link>, a: Link, b: Link)
    requires UniquePairs(links)
    requires a in links && b in links
    ensures PairOf(a) == PairOf(b) ==> a == b
  {
    var i :| 0 <= i < |links| && links[i] == a;
    var j :| 0 <= j < |links| && links[j] == b;
    AtMostOneLinkPerPair(links, i, j);
  }

  /** Two links of the same banner carry the same feature. */
  lemma SameBannerFeature(links: seq<Link>, a: Link, b: Link)
    requires OneFeaturePerBanner(links)
    requires a in links && b in links && a.bannerId == b.bannerId
    ensures a.featureId == b.featureId
  {
    var i :| 0 <= i < |links| && links[i] == a;
    var j :| 0 <= j < |links| && links[j] == b;
    if i < j {
      assert SameBannerSameFeature(links[i], links[j]);
    } else if j < i {
      assert SameBannerSameFeature(links[j], links[i]);
    }
  }

  /** Link ids are distinct, as a primary key demands. */
  lemma LinkIdsUnique(links: seq<Link>, i: int, j: int)
    requires IncreasingIds(links)
    requires 0 <= i < |links| && 0 <= j < |links| && i != j
    ensures links[i].id != links[j].id
  {
    if i < j {
      assert IdBefore(links[i], links[j]);
    } else {
      assert IdBefore(links[j], links[i]);
    }
  }

  /** Uniqueness is on the pair only: one valid table may hold one banner with
      several links, one feature under several tags and one tag under several
      features. */
  lemma UniquenessIsOnThePairOnly()
    ensures var links := [Link(1, 1, 10, 100), Link(2, 1, 10, 200), Link(3, 2, 20, 100)];
      && UniquePairs(links) && IncreasingIds(links) && OneFeaturePerBanner(links)
      && links[0].bannerId == links[1].bannerId
      && links[0].featureId == links[1].featureId
      && links[0].tagId == links[2].tagId && links[0].featureId != links[2].featureId
  {
    var links := [Link(1, 1, 10, 100), Link(2, 1, 10, 200), Link(3, 2, 20, 100)];
    assert DistinctPairs(links[0], links[1]) && DistinctPairs(links[0], links[2]) && DistinctPairs(links[1], links[2]);
    assert IdBefore(links[0], links[1]) && IdBefore(links[0], links[2]) && IdBefore(links[1], links[2]);
    assert SameBannerSameFeature(links[0], links[1]) && SameBannerSameFeature(links[0], links[2])
      && SameBannerSameFeature(links[1], links[2]);
  }

  /** With no foreign key, a valid store may hold a link whose banner row is gone. */
  lemma OrphanLinksAllowed()
    ensures Valid(Store(map[], [Link(1, 1, 10, 100)], 2, 2))
  {
  }

  /** Removing a banner's links keeps every link-table invariant. */
  lemma DropLinksKeepsInvariants(links: seq<Link>, bid: nat)
    requires UniquePairs(links) && IncreasingIds(links) && OneFeaturePerBanner(links)
    ensures UniquePairs(DropLinksOf(links, bid))
    ensures IncreasingIds(DropLinksOf(links, bid))
    ensures OneFeaturePerBanner(DropLinksOf(links, bid))
  {
    PairwiseFilter(links, Owned(bid, false), DistinctPairs);
    PairwiseFilter(links, Owned(bid, false), IdBefore);
    PairwiseFilter(links, Owned(bid, false), SameBannerSameFeature);
  }

  /** A successful run of inserts for banner `bid` keeps every link-table
      invariant, provided the banner had no links left, its id and the added
      link ids lie beyond what the table holds. */
  lemma InsertKeepsInvariants(links: seq<Link>, nextId: nat, bid: nat, f: int, tags: seq<int>)
    requires UniquePairs(links) && IncreasingIds(links) && OneFeaturePerBanner(links)
    requires forall l | l in links :: l.id < nextId && l.bannerId != bid
    requires InsertLinks(links, nextId, bid, f, tags).Inserted?
    ensures var r := InsertLinks(links, nextId, bid, f, tags).links;
      UniquePairs(r) && IncreasingIds(r) && OneFeaturePerBanner(r)
  {
    var added := NewLinks(nextId, bid, f, tags);
    forall x, y | x in links && y in added
      ensures DistinctPairs(x, y) && IdBefore(x, y) && SameBannerSameFeature(x, y)
    {
      var k :| 0 <= k < |added| && added[k] == y;
      assert tags[k] in tags;
      assert !PairTaken(links, f, tags[k]);
      assert PairOf(y) == (f, tags[k]);
    }
    assert Pairwise(added, DistinctPairs);
    assert Pairwise(added, IdBefore);
    assert Pairwise(added, SameBannerSameFeature);
    PairwiseConcat(links, added, DistinctPairs);
    PairwiseConcat(links, added, IdBefore);
    PairwiseConcat(links, added, SameBannerSameFeature);
  }

  /** The links of a banner after its old links were dropped and a run of
      inserts for it succeeded are exactly the inserted ones. */
  lemma LinksAfterInsertOwn(links: seq<Link>, nextId: nat, bid: nat, f: int, tags: seq<int>)
    requires forall l | l in links :: l.bannerId != bid
    ensures LinksOf(links + NewLinks(nextId, bid, f, tags), bid) == NewLinks(nextId, bid, f, tags)
  {
    var added := NewLinks(nextId, bid, f, tags);
    FilterConcat(links, added, Owned(bid, true));
    FilterNone(links, Owned(bid, true));
    FilterAll(added, Owned(bid, true));
  }

  /** A run of inserts for banner `bid` leaves every other banner's links as they were. */
  lemma LinksAfterInsertOther(links: seq<Link>, nextId: nat, bid: nat, f: int, tags: seq<int>, other: nat)
    requires other != bid
    ensures LinksOf(links + NewLinks(nextId, bid, f, tags), other) == LinksOf(links, other)
  {
    var added := NewLinks(nextId, bid, f, tags);
    FilterConcat(links, added, Owned(other, true));
    FilterNone(added, Owned(other, true));
  }
}

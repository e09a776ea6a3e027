/**
 The tweet poller: a bounded seen set decides which tweets of a fetched page are
 new, and only new, publishable ones are federated. Why nothing is published
 twice although the set forgets.
 */
module TweetPolling {
  import opened Basics
  import opened RecencyCache

  const SEEN_SIZE: nat := 8192
  const SEEN_TTL: nat := 86400 // seconds

  datatype Tweet = Tweet(id: Key, userId: string, retweetedBy: Option<string>, parentId: Option<string>)

  /** When the loop reaches a tweet, and which entries the cache has let lapse since its last use. */
  datatype Moment = Moment(now: nat, gone: set<Key>)

  type Page = seq<(Tweet, Moment)>

  predicate Publishable(t: Tweet, owner: string) {
    t.userId == owner && t.retweetedBy.None? && (t.parentId.None? || t.parentId.value == "")
  }

  datatype State = State(seen: Cache, published: seq<Tweet>)

  function SeedOne(s: State, t: Tweet, m: Moment): State {
    s.(seen := Touch(Expire(s.seen, m.gone), t.id, m.now, SEEN_SIZE))
  }

  function PollOne(owner: string, s: State, t: Tweet, m: Moment): State {
    var seen := Expire(s.seen, m.gone);
    State(Touch(seen, t.id, m.now, SEEN_SIZE),
          if !Has(seen, t.id) && Publishable(t, owner) then s.published + [t] else s.published)
  }

  function Seed(s: State, page: Page): State {
    if page == [] then s
    else SeedOne(Seed(s, page[..|page| - 1]), page[|page| - 1].0, page[|page| - 1].1)
  }

  function Poll(owner: string, s: State, page: Page): State {
    if page == [] then s
    else PollOne(owner, Poll(owner, s, page[..|page| - 1]), page[|page| - 1].0, page[|page| - 1].1)
  }

  /** Successive polls; a failed or empty fetch is the empty page. */
  function PollMany(owner: string, s: State, pages: seq<Page>): State
    decreases |pages|
  {
    if pages == [] then s else PollMany(owner, Poll(owner, s, pages[0]), pages[1..])
  }

  class TweetPoller {
    const owner: string
    var seen: Cache
    var published: seq<Tweet> // handed to publish, in order

    constructor (owner: string)
      ensures this.owner == owner && seen == [] && published == []
    {
      this.owner, seen, published := owner, [], [];
    }

    method SeedFrom(page: Page)
      modifies this
      ensures State(seen, published) == Seed(old(State(seen, published)), page)
    {
      for k := 0 to |page|
        invariant State(seen, published) == Seed(old(State(seen, published)), page[..k])
      {
        assert page[..k + 1][..k] == page[..k];
        seen := Touch(Expire(seen, page[k].1.gone), page[k].0.id, page[k].1.now, SEEN_SIZE);
      }
      assert page[..|page|] == page;
    }

    method PollPage(page: Page)
      modifies this
      ensures State(seen, published) == Poll(owner, old(State(seen, published)), page)
    {
      for k := 0 to |page|
        invariant State(seen, published) == Poll(owner, old(State(seen, published)), page[..k])
      {
        var t, m := page[k].0, page[k].1;
        assert page[..k + 1][..k] == page[..k];
        seen := Expire(seen, m.gone);
        if Has(seen, t.id) {
          seen := Touch(seen, t.id, m.now, SEEN_SIZE); // refresh its lifetime
        } else {
          seen := Touch(seen, t.id, m.now, SEEN_SIZE);
          if Publishable(t, owner) {
            published := published + [t];
          }
        }
      }
      assert page[..|page|] == page;
    }
  }

  // ---- what the clock and the cache may do ----

  function Ids(page: Page): set<Key> {
    set e | e in page :: e.0.id
  }

  /** All of a page is read at or after `from` and before `until`. */
  ghost predicate Within(page: Page, from: nat, until: nat) {
    forall e | e in page :: from <= e.1.now < until
  }

  /** Entries lapse only once their lifetime is over. */
  ghost predicate Lawful(owner: string, s: State, page: Page) {
    forall k: nat | k < |page| :: LawfulVisit(owner, s, page, k)
  }

  ghost predicate LawfulVisit(owner: string, s: State, page: Page, k: nat)
    requires k < |page|
  {
    OnlyExpired(Poll(owner, s, page[..k]).seen, page[k].1.gone, page[k].1.now, SEEN_TTL)
  }

  ghost predicate LawfulSeed(s: State, page: Page) {
    forall k: nat | k < |page| :: LawfulSeedVisit(s, page, k)
  }

  ghost predicate LawfulSeedVisit(s: State, page: Page, k: nat)
    requires k < |page|
  {
    OnlyExpired(Seed(s, page[..k]).seen, page[k].1.gone, page[k].1.now, SEEN_TTL)
  }

  ghost predicate LawfulMany(owner: string, s: State, pages: seq<Page>)
    decreases |pages|
  {
    pages == [] || (Lawful(owner, s, pages[0]) && LawfulMany(owner, Poll(owner, s, pages[0]), pages[1..]))
  }

  function Times(x: Key, published: seq<Tweet>): nat {
    if published == [] then 0
    else Times(x, published[..|published| - 1]) + if published[|published| - 1].id == x then 1 else 0
  }

  /** By the owner, no retweet, and answering nothing. */
  ghost predicate Original(t: Tweet, owner: string) {
    && t.userId == owner && t.retweetedBy == None
    && (t.parentId == None || t.parentId == Some(""))
  }

  lemma PublishableIsOriginal(t: Tweet, owner: string)
    ensures Publishable(t, owner) <==> Original(t, owner)
  {
  }

  // ---- what is published at all ----

  lemma {:induction false} PagePublishesOriginals(owner: string, s: State, page: Page)
    ensures forall t | t in Poll(owner, s, page).published ::
              t in s.published || (Original(t, owner) && exists e | e in page :: e.0 == t)
    ensures s.published <= Poll(owner, s, page).published
  {
    if page != [] {
      var front, last := page[..|page| - 1], page[|page| - 1];
      PagePublishesOriginals(owner, s, front);
      assert page == front + [last] && last in page;
      forall t | t in Poll(owner, s, page).published
        ensures t in s.published || (Original(t, owner) && exists e | e in page :: e.0 == t)
      {
        if t in Poll(owner, s, front).published && t !in s.published {
          var e :| e in front && e.0 == t;
          assert e in page;
        }
      }
    }
  }

  lemma {:induction false} SeedPublishesNothing(s: State, seed: Page)
    ensures Seed(s, seed).published == s.published
  {
    if seed != [] {
      SeedPublishesNothing(s, seed[..|seed| - 1]);
    }
  }

  lemma {:induction false} PagesPublishOriginals(owner: string, s: State, pages: seq<Page>)
    ensures forall t | t in PollMany(owner, s, pages).published ::
              t in s.published || (Original(t, owner) && exists page, e | page in pages && e in page :: e.0 == t)
    decreases |pages|
  {
    if pages != [] {
      var s1 := Poll(owner, s, pages[0]);
      PagePublishesOriginals(owner, s, pages[0]);
      PagesPublishOriginals(owner, s1, pages[1..]);
      forall t | t in PollMany(owner, s, pages).published
        ensures t in s.published || (Original(t, owner) && exists page, e | page in pages && e in page :: e.0 == t)
      {
        if t in s1.published {
          if t !in s.published {
            var e :| e in pages[0] && e.0 == t;
            assert pages[0] in pages;
          }
        } else {
          var page, e :| page in pages[1..] && e in page && e.0 == t;
          assert page in pages;
        }
      }
    }
  }

  /** Over every run: whatever is published was on a polled page, is the owner's, is no retweet and answers nothing. */
  lemma OnlyOriginalsArePublished(owner: string, seed: Page, pages: seq<Page>, t: Tweet)
    requires t in PollMany(owner, Seed(State([], []), seed), pages).published
    ensures t.userId == owner && t.retweetedBy == None && (t.parentId == None || t.parentId == Some(""))
    ensures exists page, e | page in pages && e in page :: e.0 == t
  {
    SeedPublishesNothing(State([], []), seed);
    PagesPublishOriginals(owner, Seed(State([], []), seed), pages);
  }

  // ---- one page ----

  lemma {:induction false} PollDistinct(owner: string, s: State, page: Page)
    requires DistinctKeys(s.seen)
    ensures DistinctKeys(Poll(owner, s, page).seen)
  {
    if page != [] {
      var front, m := page[..|page| - 1], page[|page| - 1].1;
      PollDistinct(owner, s, front);
      ExpireIs(Poll(owner, s, front).seen, m.gone);
      TouchDistinct(Expire(Poll(owner, s, front).seen, m.gone), page[|page| - 1].0.id, m.now, SEEN_SIZE);
    }
  }

  lemma {:induction false} SeedDistinct(s: State, page: Page)
    requires DistinctKeys(s.seen)
    ensures DistinctKeys(Seed(s, page).seen)
  {
    if page != [] {
      var front, m := page[..|page| - 1], page[|page| - 1].1;
      SeedDistinct(s, front);
      ExpireIs(Seed(s, front).seen, m.gone);
      TouchDistinct(Expire(Seed(s, front).seen, m.gone), page[|page| - 1].0.id, m.now, SEEN_SIZE);
    }
  }

  lemma LawfulPrefix(owner: string, s: State, page: Page, n: nat)
    requires Lawful(owner, s, page) && n <= |page|
    ensures Lawful(owner, s, page[..n])
  {
    forall k: nat | k < n
      ensures LawfulVisit(owner, s, page[..n], k)
    {
      assert LawfulVisit(owner, s, page, k);
      assert page[..n][..k] == page[..k];
    }
  }

  /** One tweet visited: a guarded id stays guarded and is not published, and the visited id becomes guarded. */
  lemma VisitGuards(owner: string, s: State, t: Tweet, m: Moment, x: Key, ids: set<Key>, since: nat)
    requires DistinctKeys(s.seen) && OnlyExpired(s.seen, m.gone, m.now, SEEN_TTL)
    requires since <= m.now < since + SEEN_TTL && t.id in ids && x in ids && |ids| <= SEEN_SIZE
    requires t.id == x || Guarded(s.seen, x, ids, since)
    ensures Guarded(PollOne(owner, s, t, m).seen, x, ids, since)
    ensures Guarded(s.seen, x, ids, since) ==> Times(x, PollOne(owner, s, t, m).published) == Times(x, s.published)
    ensures Times(x, PollOne(owner, s, t, m).published) <= Times(x, s.published) + 1
  {
    if Guarded(s.seen, x, ids, since) {
      ExpireGuards(s.seen, m.gone, m.now, SEEN_TTL, x, ids, since);
      GuardedHas(Expire(s.seen, m.gone), x, ids, since);
    }
    ExpireIs(s.seen, m.gone);
    TouchGuards(Expire(s.seen, m.gone), t.id, m.now, SEEN_SIZE, x, ids, since);
  }

  lemma PageSplit(page: Page)
    requires page != []
    ensures Ids(page) == Ids(page[..|page| - 1]) + {page[|page| - 1].0.id}
    ensures page[|page| - 1] in page && forall e | e in page[..|page| - 1] :: e in page
  {
    assert page == page[..|page| - 1] + [page[|page| - 1]];
  }

  /** A lawful page is a lawful one followed by a lawful visit. */
  lemma LawfulLast(owner: string, s: State, page: Page, from: nat, until: nat)
    requires page != [] && Lawful(owner, s, page) && Within(page, from, until)
    ensures var front, last := page[..|page| - 1], page[|page| - 1];
            && Lawful(owner, s, front) && Within(front, from, until)
            && OnlyExpired(Poll(owner, s, front).seen, last.1.gone, last.1.now, SEEN_TTL)
            && from <= last.1.now < until
            && Poll(owner, s, page) == PollOne(owner, Poll(owner, s, front), last.0, last.1)
  {
    assert LawfulVisit(owner, s, page, |page| - 1);
    LawfulPrefix(owner, s, page, |page| - 1);
    PageSplit(page);
  }

  lemma LawfulSeedPrefix(s: State, page: Page, n: nat)
    requires LawfulSeed(s, page) && n <= |page|
    ensures LawfulSeed(s, page[..n])
  {
    forall k: nat | k < n
      ensures LawfulSeedVisit(s, page[..n], k)
    {
      assert LawfulSeedVisit(s, page, k);
      assert page[..n][..k] == page[..k];
    }
  }

  lemma LawfulSeedLast(s: State, page: Page, from: nat, until: nat)
    requires page != [] && LawfulSeed(s, page) && Within(page, from, until)
    ensures var front, last := page[..|page| - 1], page[|page| - 1];
            && LawfulSeed(s, front) && Within(front, from, until)
            && OnlyExpired(Seed(s, front).seen, last.1.gone, last.1.now, SEEN_TTL)
            && from <= last.1.now < until
            && Seed(s, page) == SeedOne(Seed(s, front), last.0, last.1)
  {
    assert LawfulSeedVisit(s, page, |page| - 1);
    LawfulSeedPrefix(s, page, |page| - 1);
    PageSplit(page);
  }

  /** The last tweet of a page keeps an id guarded and publishes nothing under it. */
  lemma LastKeeps(owner: string, s: State, page: Page, x: Key, ids: set<Key>, since: nat)
    requires page != [] && DistinctKeys(s.seen)
    requires Lawful(owner, s, page) && Within(page, since, since + SEEN_TTL)
    requires Guarded(Poll(owner, s, page[..|page| - 1]).seen, x, ids, since)
    requires Ids(page) <= ids && x in ids && |ids| <= SEEN_SIZE
    ensures Guarded(Poll(owner, s, page).seen, x, ids, since)
    ensures Times(x, Poll(owner, s, page).published) == Times(x, Poll(owner, s, page[..|page| - 1]).published)
  {
    var front, last := page[..|page| - 1], page[|page| - 1];
    PageSplit(page);
    LawfulLast(owner, s, page, since, since + SEEN_TTL);
    PollDistinct(owner, s, front);
    VisitGuards(owner, Poll(owner, s, front), last.0, last.1, x, ids, since);
  }

  /**
   A cached id survives a whole page whose ids, together with the ids more recent than it, fit the
   cache; while it does, the page publishes nothing under it.
   */
  lemma {:induction false} PageKeeps(owner: string, s: State, page: Page, x: Key, ids: set<Key>, since: nat)
    requires DistinctKeys(s.seen) && Lawful(owner, s, page) && Within(page, since, since + SEEN_TTL)
    requires Guarded(s.seen, x, ids, since) && Ids(page) <= ids && x in ids && |ids| <= SEEN_SIZE
    ensures Guarded(Poll(owner, s, page).seen, x, ids, since)
    ensures Times(x, Poll(owner, s, page).published) == Times(x, s.published)
  {
    if page != [] {
      FrontIsLawful(owner, s, page, ids, since, since + SEEN_TTL);
      PageKeeps(owner, s, page[..|page| - 1], x, ids, since);
      LastKeeps(owner, s, page, x, ids, since);
    }
  }

  lemma {:induction false} PagePublishesOwn(owner: string, s: State, page: Page, x: Key)
    requires x !in Ids(page)
    ensures Times(x, Poll(owner, s, page).published) == Times(x, s.published)
  {
    if page != [] {
      PageSplit(page);
      PagePublishesOwn(owner, s, page[..|page| - 1], x);
    }
  }

  /** A page that holds x leaves only ids of that page more recent than x, and publishes x at most once. */
  lemma {:induction false} PageRefreshes(owner: string, s: State, page: Page, x: Key, ids: set<Key>, start: nat)
    requires DistinctKeys(s.seen) && Lawful(owner, s, page) && Within(page, start, start + SEEN_TTL)
    requires x in Ids(page) && Ids(page) <= ids && |ids| <= SEEN_SIZE
    ensures Guarded(Poll(owner, s, page).seen, x, ids, start)
    ensures Times(x, Poll(owner, s, page).published) <= Times(x, s.published) + 1
  {
    var front, last := page[..|page| - 1], page[|page| - 1];
    PageSplit(page);
    LawfulLast(owner, s, page, start, start + SEEN_TTL);
    PollDistinct(owner, s, front);
    if x in Ids(front) {
      PageRefreshes(owner, s, front, x, ids, start);
    } else {
      PagePublishesOwn(owner, s, front, x);
    }
    VisitGuards(owner, Poll(owner, s, front), last.0, last.1, x, ids, start);
  }

  lemma {:induction false} SeedRefreshes(s: State, page: Page, x: Key, ids: set<Key>, start: nat)
    requires DistinctKeys(s.seen) && LawfulSeed(s, page) && Within(page, start, start + SEEN_TTL)
    requires Ids(page) <= ids && |ids| <= SEEN_SIZE
    ensures x in Ids(page) ==> Guarded(Seed(s, page).seen, x, ids, start)
    ensures Seed(s, page).published == s.published
  {
    if page != [] {
      var front, last := page[..|page| - 1], page[|page| - 1];
      PageSplit(page);
      LawfulSeedLast(s, page, start, start + SEEN_TTL);
      SeedRefreshes(s, front, x, ids, start);
      SeedDistinct(s, front);
      if x in Ids(page) {
        VisitGuards("", Seed(s, front), last.0, last.1, x, ids, start);
      }
    }
  }

  // ---- runs ----

  /**
   x is in every non-empty page, and any two consecutive non-empty pages fit the cache together and
   are read within one lifetime. ids and since describe the non-empty page before these.
   */
  ghost predicate Steady(x: Key, ids: set<Key>, since: nat, pages: seq<Page>)
    decreases |pages|
  {
    pages == [] ||
    if pages[0] == [] then Steady(x, ids, since, pages[1..])
    else
      var start := pages[0][0].1.now;
      && x in Ids(pages[0]) && |ids + Ids(pages[0])| <= SEEN_SIZE
      && since <= start && Within(pages[0], start, since + SEEN_TTL)
      && Steady(x, Ids(pages[0]), start, pages[1..])
  }

  /** An id still guarded by the previous page is never published while it stays in the feed. */
  lemma {:induction false} SteadyNeverPublished(owner: string, s: State, pages: seq<Page>, x: Key,
                                                ids: set<Key>, since: nat)
    requires DistinctKeys(s.seen) && LawfulMany(owner, s, pages) && Steady(x, ids, since, pages)
    requires Guarded(s.seen, x, ids, since) && x in ids
    ensures Times(x, PollMany(owner, s, pages).published) == Times(x, s.published)
    decreases |pages|
  {
    if pages != [] {
      var page, t := pages[0], Poll(owner, s, pages[0]);
      PollDistinct(owner, s, page);
      if page == [] {
        SteadyNeverPublished(owner, t, pages[1..], x, ids, since);
      } else {
        var both, start := ids + Ids(page), page[0].1.now;
        GuardedWiden(s.seen, x, ids, both, since);
        PageKeeps(owner, s, page, x, both, since);
        SubsetSize(Ids(page), both);
        PageRefreshes(owner, s, page, x, Ids(page), start);
        SteadyNeverPublished(owner, t, pages[1..], x, Ids(page), start);
      }
    }
  }

  /** A tweet in the seed page is never published while it stays in the feed. */
  lemma SeededNeverPublished(owner: string, seed: Page, pages: seq<Page>, x: Key)
    requires seed != [] && x in Ids(seed) && |Ids(seed)| <= SEEN_SIZE
    requires LawfulSeed(State([], []), seed) && Within(seed, seed[0].1.now, seed[0].1.now + SEEN_TTL)
    requires LawfulMany(owner, Seed(State([], []), seed), pages) && Steady(x, Ids(seed), seed[0].1.now, pages)
    ensures Times(x, PollMany(owner, Seed(State([], []), seed), pages).published) == 0
  {
    SeedDistinct(State([], []), seed);
    SeedRefreshes(State([], []), seed, x, Ids(seed), seed[0].1.now);
    SteadyNeverPublished(owner, Seed(State([], []), seed), pages, x, Ids(seed), seed[0].1.now);
  }

  /** From any state: a tweet is published at most once from when it first shows until it leaves the feed. */
  lemma PublishedAtMostOnce(owner: string, s: State, first: Page, pages: seq<Page>, x: Key)
    requires DistinctKeys(s.seen) && first != [] && x in Ids(first) && |Ids(first)| <= SEEN_SIZE
    requires Lawful(owner, s, first) && Within(first, first[0].1.now, first[0].1.now + SEEN_TTL)
    requires LawfulMany(owner, Poll(owner, s, first), pages) && Steady(x, Ids(first), first[0].1.now, pages)
    ensures Times(x, PollMany(owner, s, [first] + pages).published) <= Times(x, s.published) + 1
  {
    PollDistinct(owner, s, first);
    PageRefreshes(owner, s, first, x, Ids(first), first[0].1.now);
    SteadyNeverPublished(owner, Poll(owner, s, first), pages, x, Ids(first), first[0].1.now);
    assert ([first] + pages)[1..] == pages;
  }

  // ---- history ----

  lemma {:induction false} StaysAbsent(owner: string, s: State, page: Page, x: Key)
    requires !Has(s.seen, x) && x !in Ids(page)
    ensures !Has(Poll(owner, s, page).seen, x)
    ensures Times(x, Poll(owner, s, page).published) == Times(x, s.published)
  {
    if page != [] {
      var front, last := page[..|page| - 1], page[|page| - 1];
      PageSplit(page);
      StaysAbsent(owner, s, front, x);
      AbsentAfter(Poll(owner, s, front).seen, last.1.gone, last.0.id, last.1.now, x);
    }
  }

  lemma {:induction false} SeedAbsent(s: State, page: Page, x: Key)
    requires !Has(s.seen, x) && x !in Ids(page)
    ensures !Has(Seed(s, page).seen, x)
  {
    if page != [] {
      var front, last := page[..|page| - 1], page[|page| - 1];
      PageSplit(page);
      SeedAbsent(s, front, x);
      AbsentAfter(Seed(s, front).seen, last.1.gone, last.0.id, last.1.now, x);
    }
  }

  lemma AbsentAfter(c: Cache, gone: set<Key>, k: Key, now: nat, x: Key)
    requires !Has(c, x) && k != x
    ensures !Has(Expire(c, gone), x) && !Has(Touch(Expire(c, gone), k, now, SEEN_SIZE), x)
  {
    ExpireIs(c, gone);
    TouchAdds(Expire(c, gone), k, now, x);
  }

  lemma TouchAdds(c: Cache, k: Key, now: nat, x: Key)
    requires !Has(c, x) && k != x
    ensures !Has(Touch(c, k, now, SEEN_SIZE), x)
  {
    DropKeyIs(c, k);
    var d := DropKey(c, k);
    assert forall e | e in Touch(c, k, now, SEEN_SIZE) :: e == Entry(k, now) || e in d;
  }

  /** Seed and page are read within one lifetime and together fit the cache. */
  ghost predicate OneSitting(owner: string, seed: Page, page: Page) {
    && |Ids(seed) + Ids(page)| <= SEEN_SIZE
    && LawfulSeed(State([], []), seed) && Lawful(owner, Seed(State([], []), seed), page)
    && Within(seed, Start(seed + page), Start(seed + page) + SEEN_TTL)
    && Within(page, Start(seed + page), Start(seed + page) + SEEN_TTL)
  }

  /**
   The first poll publishes a tweet of its page exactly when the seed page did not hold it and it
   is publishable, so an empty (failed) seed replays the whole page.
   */
  lemma FirstPollPublishes(owner: string, seed: Page, page: Page, k: nat)
    requires k < |page| && page[k].0.id !in Ids(page[..k]) && OneSitting(owner, seed, page)
    ensures Times(page[k].0.id, Poll(owner, Seed(State([], []), seed), page).published) ==
            if page[k].0.id !in Ids(seed) && Original(page[k].0, owner) then 1 else 0
  {
    var s0, x := Seed(State([], []), seed), page[k].0.id;
    var both, start := Ids(seed) + Ids(page), Start(seed + page);
    PublishableIsOriginal(page[k].0, owner);
    SeedDistinct(State([], []), seed);
    SeedRefreshes(State([], []), seed, x, both, start);
    if x in Ids(seed) {
      PageKeeps(owner, s0, page, x, both, start);
    } else {
      SeedAbsent(State([], []), seed, x);
      assert page[k] in page;
      forall j | 0 <= j < k
        ensures page[j].0.id != x
      {
        assert page[..k][j] == page[j] && page[j] in page[..k];
      }
      NewIsPublished(owner, s0, page, k, x, both, start);
    }
  }

  /** A failed seed fetch replays history: a tweet that stood in the feed all along is published by the first poll. */
  lemma FailedSeedReplays(owner: string, t: Tweet, now: nat)
    requires Publishable(t, owner)
    ensures OneSitting(owner, [], [(t, Moment(now, {}))])
    ensures Times(t.id, Poll(owner, Seed(State([], []), []), [(t, Moment(now, {}))]).published) == 1
  {
    var page := [(t, Moment(now, {}))];
    assert [] + page == page;
    assert Ids([]) + Ids(page) == {t.id};
    assert page[..0] == [];
    assert OneSitting(owner, [], page);
    FirstPollPublishes(owner, [], page, 0);
  }

  lemma VisitPublishes(owner: string, s: State, t: Tweet, m: Moment)
    requires !Has(s.seen, t.id)
    ensures Times(t.id, PollOne(owner, s, t, m).published) ==
            Times(t.id, s.published) + if Publishable(t, owner) then 1 else 0
  {
    ExpireIs(s.seen, m.gone);
    assert (s.published + [t])[..|s.published|] == s.published;
  }

  /** The last tweet of a page, when its id is neither in the seen set nor earlier in the page. */
  lemma LastIsPublished(owner: string, s: State, page: Page, x: Key, ids: set<Key>, since: nat)
    requires page != [] && page[|page| - 1].0.id == x && x !in Ids(page[..|page| - 1]) && !Has(s.seen, x)
    requires DistinctKeys(s.seen) && Lawful(owner, s, page) && Within(page, since, since + SEEN_TTL)
    requires x in ids && |ids| <= SEEN_SIZE
    ensures Guarded(Poll(owner, s, page).seen, x, ids, since)
    ensures Times(x, Poll(owner, s, page).published) ==
            Times(x, s.published) + if Publishable(page[|page| - 1].0, owner) then 1 else 0
  {
    var front, last := page[..|page| - 1], page[|page| - 1];
    LawfulLast(owner, s, page, since, since + SEEN_TTL);
    StaysAbsent(owner, s, front, x);
    PollDistinct(owner, s, front);
    VisitGuards(owner, Poll(owner, s, front), last.0, last.1, x, ids, since);
    VisitPublishes(owner, Poll(owner, s, front), last.0, last.1);
  }

  /** A tweet whose id is new to the seen set and the page is published by the page exactly when it is publishable. */
  lemma {:induction false} NewIsPublished(owner: string, s: State, page: Page, k: nat, x: Key,
                                          ids: set<Key>, since: nat)
    requires k < |page| && page[k].0.id == x && !Has(s.seen, x) && forall j | 0 <= j < k :: page[j].0.id != x
    requires DistinctKeys(s.seen) && Lawful(owner, s, page) && Within(page, since, since + SEEN_TTL)
    requires Ids(page) <= ids && x in ids && |ids| <= SEEN_SIZE
    ensures Guarded(Poll(owner, s, page).seen, x, ids, since)
    ensures Times(x, Poll(owner, s, page).published) ==
            Times(x, s.published) + if Publishable(page[k].0, owner) then 1 else 0
  {
    if k == |page| - 1 {
      assert x !in Ids(page[..k]);
      LastIsPublished(owner, s, page, x, ids, since);
    } else {
      var front := page[..|page| - 1];
      FrontIsLawful(owner, s, page, ids, since, since + SEEN_TTL);
      NewIsPublished(owner, s, front, k, x, ids, since);
      LastKeeps(owner, s, page, x, ids, since);
    }
  }

  function Start(page: Page): nat {
    if page == [] then 0 else page[0].1.now
  }

  lemma FrontIsLawful(owner: string, s: State, page: Page, ids: set<Key>, from: nat, until: nat)
    requires page != [] && Lawful(owner, s, page) && Within(page, from, until) && Ids(page) <= ids
    ensures var front := page[..|page| - 1]; Lawful(owner, s, front) && Within(front, from, until) && Ids(front) <= ids
  {
    LawfulPrefix(owner, s, page, |page| - 1);
    PageSplit(page);
  }
}

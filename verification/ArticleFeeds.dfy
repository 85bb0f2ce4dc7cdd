/**
  The paged article feed: a read-through cache of rankings, page slicing, and putting the
  documents the store returns back into ranking order.
 */
module ArticleFeeds {
  import opened Wrappers
  import opened Ranking
  import opened RecencyList
  import opened LruCaches
  import Scoring = FeedScoring

  // ---- pages ------------------------------------------------------------------------------

  /** `s.slice(from, to)`: negative positions count from the end, and all are clamped. */
  function JsSlice<T>(s: seq<T>, from: int, to: int): seq<T> {
    var lo := Clamp(from, |s|);
    var hi := Clamp(to, |s|);
    if lo < hi then s[lo..hi] else []
  }

  function Clamp(i: int, n: nat): (r: nat)
    ensures r <= n
  {
    if i + n < 0 then 0 else if i < 0 then n + i else if i > n then n else i
  }

  function Page<T>(s: seq<T>, page: int, limit: nat): seq<T> {
    JsSlice(s, (page - 1) * limit, (page - 1) * limit + limit)
  }

  /** `Math.ceil(total / limit)`. */
  function TotalPages(total: nat, limit: nat): nat
    requires limit > 0
  {
    (total + limit - 1) / limit
  }

  /** Pages 1 to `n`, one after the other. */
  function PagesUpTo<T>(s: seq<T>, n: nat, limit: nat): seq<T> {
    if n == 0 then [] else PagesUpTo(s, n - 1, limit) + Page(s, n, limit)
  }

  lemma MulStep(n: int, limit: int)
    ensures (n - 1) * limit + limit == n * limit
  {
  }

  lemma MulMonotone(m: int, n: int, limit: nat)
    requires m <= n
    ensures m * limit <= n * limit
  {
  }

  /** A full or partial page after the prefix of length `at`. */
  lemma PrefixGrows<T>(s: seq<T>, at: nat, limit: nat)
    ensures (if at <= |s| then s[..at] else s) + JsSlice(s, at, at + limit)
         == if at + limit <= |s| then s[..at + limit] else s
  {
  }

  lemma {:induction false} PagesArePrefixes<T>(s: seq<T>, n: nat, limit: nat)
    ensures PagesUpTo(s, n, limit) == if n * limit <= |s| then s[..n * limit] else s
  {
    if n > 0 {
      var at := (n - 1) * limit;
      MulMonotone(0, n - 1, limit);
      MulStep(n, limit);
      PagesArePrefixes(s, n - 1, limit);
      PrefixGrows(s, at, limit);
    }
  }

  lemma CeilBounds(total: nat, limit: nat)
    requires limit > 0
    ensures var t := TotalPages(total, limit);
            t * limit - limit < total + (if total == 0 then 1 else 0) && total <= t * limit
  {
    var q := (total + limit - 1) / limit;
    assert total + limit - 1 == q * limit + (total + limit - 1) % limit;
  }

  /** The pages 1 to `totalPages` concatenate to the ranking, without gaps or repeats. */
  lemma PagesConcatenate<T>(s: seq<T>, limit: nat)
    requires limit > 0
    ensures PagesUpTo(s, TotalPages(|s|, limit), limit) == s
  {
    PagesArePrefixes(s, TotalPages(|s|, limit), limit);
    CeilBounds(|s|, limit);
  }

  /** Page numbers compare with `totalPages` as positions compare with the length. */
  lemma PageWithinExactly(total: nat, limit: nat, q: nat)
    requires limit > 0
    ensures q < TotalPages(total, limit) <==> q * limit < total
  {
    var t := TotalPages(total, limit);
    CeilBounds(total, limit);
    MulStep(t, limit);
    if q < t {
      MulMonotone(q, t - 1, limit);
      if total == 0 {
        MulMonotone(1, t, limit);
      }
    } else {
      MulMonotone(t, q, limit);
    }
  }

  /** A slice of `limit` elements from position `at`, seen from its two ends. */
  lemma SliceNonEmpty<T>(s: seq<T>, at: int, limit: nat)
    requires limit > 0
    ensures at >= 0 ==> (JsSlice(s, at, at + limit) != [] <==> at < |s|)
    ensures at + limit == 0 ==> JsSlice(s, at, at + limit) == []
    ensures at + limit < 0 ==> (JsSlice(s, at, at + limit) != [] <==> -(at + limit) < |s|)
  {
  }

  lemma PositivePageExactly<T>(s: seq<T>, page: int, limit: nat)
    requires limit > 0 && page >= 1
    ensures Page(s, page, limit) != [] <==> page <= TotalPages(|s|, limit)
  {
    MulMonotone(0, page - 1, limit);
    SliceNonEmpty(s, (page - 1) * limit, limit);
    PageWithinExactly(|s|, limit, page - 1);
  }

  lemma OtherPageExactly<T>(s: seq<T>, q: int, limit: nat)
    requires limit > 0 && q >= 0
    ensures Page(s, -q, limit) != [] <==> 1 <= q < TotalPages(|s|, limit)
  {
    MulMonotone(if q == 0 then 0 else 1, q, limit);
    assert (-q - 1) * limit == -(q * limit) - limit;
    SliceNonEmpty(s, -(q * limit) - limit, limit);
    PageWithinExactly(|s|, limit, q);
  }

  /**
    A page is non-empty exactly when its number is between 1 and `totalPages`; a negative
    number counts pages from the end, because `slice` does.
   */
  lemma PageNonEmptyExactly<T>(s: seq<T>, page: int, limit: nat)
    requires limit > 0
    ensures var t := TotalPages(|s|, limit);
            Page(s, page, limit) != [] <==> 1 <= page <= t || (page < 0 && -page < t)
  {
    if page >= 1 {
      PositivePageExactly(s, page, limit);
    } else {
      OtherPageExactly(s, -page, limit);
    }
  }

  // ---- documents in ranking order -------------------------------------------------------------

  datatype Doc = Doc(id: Id, body: string)

  /** The last item with that id: a later `Map.set` overwrites an earlier one. */
  function LastWith(items: seq<Doc>, id: Id): Option<Doc> {
    if items == [] then None
    else if items[|items| - 1].id == id then Some(items[|items| - 1])
    else LastWith(items[..|items| - 1], id)
  }

  function Reordered(items: seq<Doc>, orderedIds: seq<Id>): seq<Doc> {
    if orderedIds == [] then []
    else
      var id := orderedIds[|orderedIds| - 1];
      Reordered(items, orderedIds[..|orderedIds| - 1])
      + match LastWith(items, id) case None => [] case Some(item) => [item]
  }

  /** `reorderByIds`. */
  method ReorderByIds(items: seq<Doc>, orderedIds: seq<Id>) returns (result: seq<Doc>)
    ensures result == Reordered(items, orderedIds)
  {
    var byId: map<Id, Doc> := map[];
    for i := 0 to |items|
      invariant forall id :: LastWith(items[..i], id) == if id in byId then Some(byId[id]) else None
    {
      assert items[..i + 1][..i] == items[..i];
      byId := byId[items[i].id := items[i]];
    }
    assert items[..|items|] == items;
    result := [];
    for i := 0 to |orderedIds|
      invariant result == Reordered(items, orderedIds[..i])
    {
      assert orderedIds[..i + 1][..i] == orderedIds[..i];
      var id := orderedIds[i];
      if id in byId {
        result := result + [byId[id]];
      }
    }
    assert orderedIds[..|orderedIds|] == orderedIds;
  }

  /** `items` lists, in some order and possibly repeatedly, the stored documents with one of the ids. */
  ghost predicate IsListing(items: seq<Doc>, stored: map<Id, Doc>, ids: seq<Id>) {
    && (forall d :: d in items ==> d.id in stored && stored[d.id] == d)
    && (forall id :: id in ids && id in stored ==> stored[id] in items && stored[id].id == id)
  }

  /** The stored documents among the ids, in the order of the ids. */
  function Surviving(stored: map<Id, Doc>, ids: seq<Id>): seq<Doc> {
    if ids == [] then []
    else Surviving(stored, ids[..|ids| - 1]) + if ids[|ids| - 1] in stored then [stored[ids[|ids| - 1]]] else []
  }

  lemma {:induction false} LastWithStored(items: seq<Doc>, stored: map<Id, Doc>, id: Id)
    requires forall d :: d in items ==> d.id in stored && stored[d.id] == d
    ensures match LastWith(items, id)
            case None => forall d :: d in items ==> d.id != id
            case Some(d) => id in stored && d == stored[id]
  {
    if items != [] {
      LastWithStored(items[..|items| - 1], stored, id);
      assert items == items[..|items| - 1] + [items[|items| - 1]];
    }
  }

  /** Whatever order the store returns, the result is the surviving documents in ranking order. */
  lemma {:induction false} ReorderRestoresRanking(items: seq<Doc>, stored: map<Id, Doc>, ids: seq<Id>)
    requires IsListing(items, stored, ids)
    ensures Reordered(items, ids) == Surviving(stored, ids)
  {
    if ids != [] {
      var prefix, id := ids[..|ids| - 1], ids[|ids| - 1];
      assert ids == prefix + [id];
      ReorderRestoresRanking(items, stored, prefix);
      LastWithStored(items, stored, id);
    }
  }

  // ---- the cached feed ------------------------------------------------------------------------------

  datatype FeedResult =
    | UserNotFound
    | FeedPage(items: seq<Doc>, total: nat, page: int, totalPages: nat)

  const MAX_FEED_CANDIDATES: nat := 150

  /** "feed:articles:..." and "feed:mentors:..." share one cache. */
  datatype FeedKey = ArticlesOf(user: Id) | MentorsOf(user: Id)

  type Cached = Entry<FeedKey, seq<Id>>

  /** Which ranking a request works on, and the cache afterwards. */
  function RankingFor(
    cache: seq<Cached>, key: FeedKey, ranked: seq<Id>, now: int, ttl: int, max: int)
    : (seq<Id>, seq<Cached>)
  {
    var (after, hit) := AfterGet(cache, key, now);
    match hit
    case Some(ids) => (ids, after)
    case None => (ranked, AfterSet(after, Entry(key, ranked, now + ttl), Some(max)))
  }

  class FeedService {
    const cache: LruCache<FeedKey, seq<Id>>

    constructor (cache: LruCache<FeedKey, seq<Id>>)
      ensures this.cache == cache
    {
      this.cache := cache;
    }

    /** The read-through cache: a hit is served, a miss is ranked and stored. */
    method CachedRanking(
      user: Id, interests: seq<Scoring.Interest>, now: int, candidates: seq<Scoring.Article>, log10: nat -> real)
      returns (ids: seq<Id>)
      requires cache.Valid()
      modifies cache, cache.repr
      ensures cache.Valid()
      ensures (ids, cache.contents) == RankingFor(
                old(cache.contents), ArticlesOf(user),
                Scoring.ArticleFeed(candidates, interests, now, log10, MAX_FEED_CANDIDATES), now, cache.ttl, cache.max)
    {
      var hit := cache.Get(ArticlesOf(user), now);
      if hit.Some? {
        return hit.value;
      }
      ids := Scoring.ArticleFeed(candidates, interests, now, log10, MAX_FEED_CANDIDATES);
      cache.Set(ArticlesOf(user), ids, now);
    }

    /**
      `GetArticleFeedUseCase.execute`.  `interests` is `None` for an unknown user; the
      candidates are what the store offers, and `fetch` is the query for the documents of a
      page, answered in any order.
     */
    method GetArticleFeed(
      user: Id, interests: Option<seq<Scoring.Interest>>, page: int, limit: nat, now: int,
      candidates: seq<Scoring.Article>, log10: nat -> real, fetch: seq<Id> -> seq<Doc>)
      returns (r: FeedResult)
      requires limit > 0 && cache.Valid()
      modifies cache, cache.repr
      ensures cache.Valid()
      ensures interests.None? ==> r == UserNotFound && cache.contents == old(cache.contents)
      ensures interests == Some([]) ==> r == FeedPage([], 0, page, 0) && cache.contents == old(cache.contents)
      ensures interests.Some? && interests.value != [] ==>
                var ranked := Scoring.ArticleFeed(candidates, interests.value, now, log10, MAX_FEED_CANDIDATES);
                var (ids, after) := RankingFor(old(cache.contents), ArticlesOf(user), ranked, now, cache.ttl, cache.max);
                && cache.contents == after
                && r == FeedPage(if Page(ids, page, limit) == [] then []
                                 else Reordered(fetch(Page(ids, page, limit)), Page(ids, page, limit)),
                                 |ids|, page, TotalPages(|ids|, limit))
    {
      if interests.None? {
        return UserNotFound;
      }
      if interests.value == [] {
        return FeedPage([], 0, page, 0);
      }
      var skip := (page - 1) * limit;
      var ids := CachedRanking(user, interests.value, now, candidates, log10);
      var pageIds := JsSlice(ids, skip, skip + limit);
      if pageIds == [] {
        return FeedPage([], |ids|, page, TotalPages(|ids|, limit));
      }
      var docs := fetch(pageIds);
      var items := ReorderByIds(docs, pageIds);
      return FeedPage(items, |ids|, page, TotalPages(|ids|, limit));
    }
  }

  /** While the cached ranking has not expired it is served unchanged and stays cached. */
  lemma CachedRankingServed(
    cache: seq<Cached>, key: FeedKey, ranking: seq<Id>, expiry: int, ranked: seq<Id>, now: int, ttl: int, max: int)
    requires Lookup(cache, key) == Some(Entry(key, ranking, expiry)) && now <= expiry
    ensures var (ids, after) := RankingFor(cache, key, ranked, now, ttl, max);
            ids == ranking && Lookup(after, key) == Some(Entry(key, ranking, expiry))
  {
  }

  /** The cache after a request: the ranking it was answered from is at the front. */
  lemma RequestMovesToFront(
    cache: seq<Cached>, key: FeedKey, ranked: seq<Id>, now: int, ttl: int, max: int)
    requires Distinct(cache) && max > 0
    ensures var (ids, after) := RankingFor(cache, key, ranked, now, ttl, max);
            && Distinct(after) && after != []
            && after[0].key == key && after[0].value == ids && Behind(after, after[0], {})
  {
    var (got, hit) := AfterGet(cache, key, now);
    StepDistinct(cache, Op.Get(key, now), ttl, Some(max));
    StepDistinct(got, Op.Set(key, ranked, now), ttl, Some(max));
  }

  /**
    What happens to the shared cache over time: a page request of the user, with the ranking
    that would be computed at that time, or an operation on behalf of another feed.
   */
  datatype Event =
    | Request(page: int, now: int, ranked: seq<Id>)
    | Other(op: Op<FeedKey, seq<Id>>)

  function CacheAfter(cache: seq<Cached>, key: FeedKey, event: Event, ttl: int, max: int): seq<Cached> {
    match event
    case Request(_, now, ranked) => RankingFor(cache, key, ranked, now, ttl, max).1
    case Other(op) => Step(cache, op, ttl, Some(max))
  }

  /** The ids the user gets out of one event. */
  function Answer(cache: seq<Cached>, key: FeedKey, event: Event, limit: nat, ttl: int, max: int): seq<Id> {
    match event
    case Request(page, now, ranked) => Page(RankingFor(cache, key, ranked, now, ttl, max).0, page, limit)
    case Other(_) => []
  }

  /** The ids the user gets, page after page. */
  function Served(cache: seq<Cached>, key: FeedKey, events: seq<Event>, limit: nat, ttl: int, max: int): seq<Id>
    decreases |events|
  {
    if events == [] then []
    else
      Answer(cache, key, events[0], limit, ttl, max)
      + Served(CacheAfter(cache, key, events[0], ttl, max), key, events[1..], limit, ttl, max)
  }

  /** The pages the user asks for. */
  function PagesAsked(events: seq<Event>): seq<int> {
    if events == [] then []
    else (if events[0].Request? then [events[0].page] else []) + PagesAsked(events[1..])
  }

  /**
    The user comes back before the ranking expires, and at every moment fewer than `max` other
    feeds have used the cache since the user's last request (those in `used`).
   */
  ghost predicate Undisturbed(
    cache: seq<Cached>, key: FeedKey, events: seq<Event>, used: set<FeedKey>, expiry: int, ttl: int, max: int)
    decreases |events|
  {
    events == [] ||
    (var after := CacheAfter(cache, key, events[0], ttl, max);
     match events[0]
     case Request(_, now, _) => now <= expiry && Undisturbed(after, key, events[1..], {}, expiry, ttl, max)
     case Other(op) =>
       && op.key != key && |StillUsed(cache, op, used)| < max
       && Undisturbed(after, key, events[1..], StillUsed(cache, op, used), expiry, ttl, max))
  }

  /** Pages `k + 1` to `n` of one ranking. */
  function PagesFrom<T>(s: seq<T>, k: nat, n: nat, limit: nat): seq<T>
    requires k <= n
    decreases n - k
  {
    if k == n then [] else Page(s, k + 1, limit) + PagesFrom(s, k + 1, n, limit)
  }

  lemma {:induction false} PagesFromAreUpTo<T>(s: seq<T>, k: nat, n: nat, limit: nat)
    requires k <= n
    ensures PagesUpTo(s, k, limit) + PagesFrom(s, k, n, limit) == PagesUpTo(s, n, limit)
    decreases n - k
  {
    if k < n {
      PagesFromAreUpTo(s, k + 1, n, limit);
    }
  }

  /** Pages `k + 1` to `k + n` are asked for, in that order. */
  ghost predicate InOrder(pages: seq<int>, k: nat) {
    forall i :: 0 <= i < |pages| ==> pages[i] == k + i + 1
  }

  lemma FirstPageAsked(events: seq<Event>, k: nat)
    requires events != [] && events[0].Request? && InOrder(PagesAsked(events), k)
    ensures events[0].page == k + 1 && InOrder(PagesAsked(events[1..]), k + 1)
    ensures |PagesAsked(events)| == 1 + |PagesAsked(events[1..])|
  {
    assert PagesAsked(events)[0] == k + 1;
    assert PagesAsked(events)[1..] == PagesAsked(events[1..]);
    forall i | 0 <= i < |PagesAsked(events[1..])|
      ensures PagesAsked(events[1..])[i] == k + 1 + i + 1
    {
      assert PagesAsked(events)[i + 1] == k + i + 1 + 1;
    }
  }

  /** A request is answered from an entry that is in the cache and has not expired, and uses it. */
  lemma RequestServed(
    cache: seq<Cached>, key: FeedKey, e: Cached, used: set<FeedKey>, ranked: seq<Id>, now: int, ttl: int, max: int)
    requires Distinct(cache) && max > 0 && e.key == key && Behind(cache, e, used) && now <= e.expiry
    ensures var (ids, after) := RankingFor(cache, key, ranked, now, ttl, max);
            ids == e.value && Distinct(after) && Behind(after, e, {})
  {
    BehindLookup(cache, e, used);
    RequestMovesToFront(cache, key, ranked, now, ttl, max);
  }

  lemma OtherKeeps(
    cache: seq<Cached>, key: FeedKey, e: Cached, op: Op<FeedKey, seq<Id>>, used: set<FeedKey>, ttl: int, max: int)
    requires Distinct(cache) && e.key == key && Behind(cache, e, used)
    requires op.key != key && |StillUsed(cache, op, used)| < max
    ensures Distinct(Step(cache, op, ttl, Some(max)))
    ensures Behind(Step(cache, op, ttl, Some(max)), e, StillUsed(cache, op, used))
  {
    StepDistinct(cache, op, ttl, Some(max));
    StepKeepsBehind(cache, op, ttl, max, e, used);
  }

  /** A page request of an undisturbed session is answered from the ranking and leaves it in front. */
  lemma FirstRequest(
    cache: seq<Cached>, key: FeedKey, e: Cached, events: seq<Event>, used: set<FeedKey>, limit: nat, ttl: int, max: int)
    requires events != [] && events[0].Request?
    requires Distinct(cache) && max > 0 && e.key == key && Behind(cache, e, used)
    requires Undisturbed(cache, key, events, used, e.expiry, ttl, max)
    ensures var after := CacheAfter(cache, key, events[0], ttl, max);
            && Distinct(after) && Behind(after, e, {}) && Undisturbed(after, key, events[1..], {}, e.expiry, ttl, max)
            && Served(cache, key, events, limit, ttl, max)
               == Page(e.value, events[0].page, limit) + Served(after, key, events[1..], limit, ttl, max)
  {
    RequestServed(cache, key, e, used, events[0].ranked, events[0].now, ttl, max);
  }

  /** An operation for another feed answers nothing and leaves the ranking in the cache. */
  lemma FirstOther(
    cache: seq<Cached>, key: FeedKey, e: Cached, events: seq<Event>, used: set<FeedKey>, limit: nat, ttl: int, max: int)
    requires events != [] && events[0].Other?
    requires Distinct(cache) && e.key == key && Behind(cache, e, used)
    requires Undisturbed(cache, key, events, used, e.expiry, ttl, max)
    ensures var after, still := CacheAfter(cache, key, events[0], ttl, max), StillUsed(cache, events[0].op, used);
            && Distinct(after) && Behind(after, e, still)
            && Undisturbed(after, key, events[1..], still, e.expiry, ttl, max)
            && Served(cache, key, events, limit, ttl, max) == Served(after, key, events[1..], limit, ttl, max)
  {
    OtherKeeps(cache, key, e, events[0].op, used, ttl, max);
  }

  lemma NextPage<T>(s: seq<T>, k: nat, n: nat, limit: nat)
    requires k < n
    ensures PagesFrom(s, k, n, limit) == Page(s, k + 1, limit) + PagesFrom(s, k + 1, n, limit)
  {
  }

  lemma {:induction false} ServedUndisturbed(
    cache: seq<Cached>, key: FeedKey, e: Cached, events: seq<Event>, used: set<FeedKey>,
    k: nat, n: nat, limit: nat, ttl: int, max: int)
    requires Distinct(cache) && max > 0 && e.key == key && Behind(cache, e, used)
    requires Undisturbed(cache, key, events, used, e.expiry, ttl, max)
    requires InOrder(PagesAsked(events), k) && n == k + |PagesAsked(events)|
    ensures Served(cache, key, events, limit, ttl, max) == PagesFrom(e.value, k, n, limit)
    decreases |events|
  {
    if events != [] {
      var after := CacheAfter(cache, key, events[0], ttl, max);
      if events[0].Request? {
        FirstRequest(cache, key, e, events, used, limit, ttl, max);
        FirstPageAsked(events, k);
        ServedUndisturbed(after, key, e, events[1..], {}, k + 1, n, limit, ttl, max);
        NextPage(e.value, k, n, limit);
      } else {
        FirstOther(cache, key, e, events, used, limit, ttl, max);
        assert PagesAsked(events) == PagesAsked(events[1..]);
        ServedUndisturbed(after, key, e, events[1..], StillUsed(cache, events[0].op, used), k, n, limit, ttl, max);
      }
    }
  }

  lemma PagesBeyondEnd<T>(s: seq<T>, n: nat, limit: nat)
    requires limit > 0 && n >= TotalPages(|s|, limit)
    ensures PagesUpTo(s, n, limit) == s
  {
    PagesArePrefixes(s, n, limit);
    CeilBounds(|s|, limit);
    MulMonotone(TotalPages(|s|, limit), n, limit);
  }

  /**
    A user who asks for page 1, and then for the following pages up to `totalPages` or beyond,
    gets exactly the ranking that page 1 was cut from, whatever the store would rank by then
    and whatever other feeds do to the shared cache, as long as the ranking does not expire
    and fewer than `max` other feeds use the cache between two of the user's requests.
   */
  lemma PagingYieldsRanking(
    cache: seq<Cached>, key: FeedKey, now: int, ranked: seq<Id>, events: seq<Event>, limit: nat, ttl: int, max: int)
    requires limit > 0 && max > 0 && Distinct(cache)
    requires var (ids, after) := RankingFor(cache, key, ranked, now, ttl, max);
             && after != [] && Undisturbed(after, key, events, {}, after[0].expiry, ttl, max)
             && InOrder(PagesAsked(events), 1) && 1 + |PagesAsked(events)| >= TotalPages(|ids|, limit)
    ensures Served(cache, key, [Request(1, now, ranked)] + events, limit, ttl, max)
         == RankingFor(cache, key, ranked, now, ttl, max).0
  {
    var (ids, after) := RankingFor(cache, key, ranked, now, ttl, max);
    var n := 1 + |PagesAsked(events)|;
    RequestMovesToFront(cache, key, ranked, now, ttl, max);
    ServedUndisturbed(after, key, after[0], events, {}, 1, n, limit, ttl, max);
    assert ([Request(1, now, ranked)] + events)[1..] == events;
    PagesFromAreUpTo(ids, 0, n, limit);
    PagesBeyondEnd(ids, n, limit);
  }

  /** The documents the user gets, page after page; `fetch` answers the query for a page in any order. */
  ghost function ServedDocs(
    cache: seq<Cached>, key: FeedKey, events: seq<Event>, fetch: seq<Id> -> seq<Doc>, limit: nat, ttl: int, max: int)
    : seq<Doc>
    decreases |events|
  {
    if events == [] then []
    else
      var ids := Answer(cache, key, events[0], limit, ttl, max);
      Reordered(fetch(ids), ids)
      + ServedDocs(CacheAfter(cache, key, events[0], ttl, max), key, events[1..], fetch, limit, ttl, max)
  }

  lemma {:induction false} SurvivingConcat(stored: map<Id, Doc>, a: seq<Id>, b: seq<Id>)
    ensures Surviving(stored, a + b) == Surviving(stored, a) + Surviving(stored, b)
  {
    if b == [] {
      assert a + b == a;
    } else {
      var prefix, id := b[..|b| - 1], b[|b| - 1];
      SurvivingConcat(stored, a, prefix);
      assert (a + b)[..|a + b| - 1] == a + prefix && (a + b)[|a + b| - 1] == id;
    }
  }

  lemma {:induction false} ServedDocsSurvive(
    cache: seq<Cached>, key: FeedKey, events: seq<Event>, fetch: seq<Id> -> seq<Doc>, stored: map<Id, Doc>,
    limit: nat, ttl: int, max: int)
    requires forall ids :: IsListing(fetch(ids), stored, ids)
    ensures ServedDocs(cache, key, events, fetch, limit, ttl, max)
         == Surviving(stored, Served(cache, key, events, limit, ttl, max))
    decreases |events|
  {
    if events != [] {
      var ids := Answer(cache, key, events[0], limit, ttl, max);
      var after := CacheAfter(cache, key, events[0], ttl, max);
      ReorderRestoresRanking(fetch(ids), stored, ids);
      ServedDocsSurvive(after, key, events[1..], fetch, stored, limit, ttl, max);
      SurvivingConcat(stored, ids, Served(after, key, events[1..], limit, ttl, max));
    }
  }

  /** And so the documents of all pages are the surviving documents of that ranking, in its order. */
  lemma PagingYieldsDocuments(
    cache: seq<Cached>, key: FeedKey, now: int, ranked: seq<Id>, events: seq<Event>,
    fetch: seq<Id> -> seq<Doc>, stored: map<Id, Doc>, limit: nat, ttl: int, max: int)
    requires limit > 0 && max > 0 && Distinct(cache)
    requires var (ids, after) := RankingFor(cache, key, ranked, now, ttl, max);
             && after != [] && Undisturbed(after, key, events, {}, after[0].expiry, ttl, max)
             && InOrder(PagesAsked(events), 1) && 1 + |PagesAsked(events)| >= TotalPages(|ids|, limit)
    requires forall ids :: IsListing(fetch(ids), stored, ids)
    ensures ServedDocs(cache, key, [Request(1, now, ranked)] + events, fetch, limit, ttl, max)
         == Surviving(stored, RankingFor(cache, key, ranked, now, ttl, max).0)
  {
    PagingYieldsRanking(cache, key, now, ranked, events, limit, ttl, max);
    ServedDocsSurvive(cache, key, [Request(1, now, ranked)] + events, fetch, stored, limit, ttl, max);
  }

  /** The document kept for an id is the last one of the list with that id. */
  lemma {:induction false} LastWithExactly(items: seq<Doc>, id: Id)
    ensures match LastWith(items, id)
            case None => forall i :: 0 <= i < |items| ==> items[i].id != id
            case Some(d) =>
              exists i :: 0 <= i < |items| && items[i] == d && d.id == id
                          && forall j :: i < j < |items| ==> items[j].id != id
  {
    if items != [] {
      var rest := items[..|items| - 1];
      LastWithExactly(rest, id);
      if items[|items| - 1].id == id {
        assert items[|items| - 1] == LastWith(items, id).value;
      } else if LastWith(rest, id).Some? {
        var i :| 0 <= i < |rest| && rest[i] == LastWith(rest, id).value && rest[i].id == id
                 && forall j :: i < j < |rest| ==> rest[j].id != id;
        assert items[i] == LastWith(items, id).value;
      }
    }
  }

  /** A ranking that is computed lists every candidate, or 150 of them. */
  lemma RankingLength(
    candidates: seq<Scoring.Article>, interests: seq<Scoring.Interest>, now: int, log10: nat -> real)
    requires Scoring.DistinctArticles(candidates)
    ensures |Scoring.ArticleFeed(candidates, interests, now, log10, MAX_FEED_CANDIDATES)|
         == if |candidates| <= 150 then |candidates| else 150
  {
    TopDistinct(Scoring.ScoreArticles(candidates, interests, now, log10), MAX_FEED_CANDIDATES);
  }
}

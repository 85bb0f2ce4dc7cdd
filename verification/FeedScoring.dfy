/**
  Scores of the article and mentor feeds.  `log10` is any strictly increasing function;
  JavaScript numbers are modelled by exact reals.
 */
module FeedScoring {
  import opened Wrappers
  import opened Ranking

  const ONE_DAY_IN_MS: real := 86_400_000.0

  type Interest = nat

  ghost predicate StrictlyIncreasing(log10: nat -> real) {
    forall m, n :: m < n ==> log10(m) < log10(n)
  }

  /** How many entries of `interests` the user shares, repetitions included. */
  function Matches(interests: seq<Interest>, user: seq<Interest>): nat {
    if interests == [] then 0
    else Matches(interests[..|interests| - 1], user) + if interests[|interests| - 1] in user then 1 else 0
  }

  /** Ten points at `now`, one less for every day since then, more for a later time, never below zero. */
  function Recency(time: int, now: int): real {
    var days := (now - time) as real / ONE_DAY_IN_MS;
    if 10.0 - days > 0.0 then 10.0 - days else 0.0
  }

  lemma RecencyMonotone(a: int, b: int, now: int)
    requires a >= b
    ensures Recency(a, now) >= Recency(b, now)
  {
    assert (now - a) as real <= (now - b) as real;
  }

  // ---- articles -------------------------------------------------------------------------

  datatype Article = Article(id: Id, interests: seq<Interest>, views: nat, createdAt: int)

  function ScoreArticle(a: Article, user: seq<Interest>, now: int, log10: nat -> real): Scored {
    Scored(a.id,
           Matches(a.interests, user) as real * 5.0 + log10(a.views + 1) * 2.0 + Recency(a.createdAt, now),
           a.createdAt)
  }

  function ScoreArticles(articles: seq<Article>, user: seq<Interest>, now: int, log10: nat -> real): (r: seq<Scored>)
    ensures |r| == |articles|
  {
    seq(|articles|, i requires 0 <= i < |articles| => ScoreArticle(articles[i], user, now, log10))
  }

  /** `computeArticleFeed`. */
  function ArticleFeed(articles: seq<Article>, user: seq<Interest>, now: int, log10: nat -> real, limit: nat): seq<Id> {
    Top(ScoreArticles(articles, user, now, log10), limit)
  }

  /** At least as good in matches, views and recency, and better in one of them. */
  predicate Dominates(a: Article, b: Article, user: seq<Interest>) {
    && Matches(a.interests, user) >= Matches(b.interests, user)
    && a.views >= b.views && a.createdAt >= b.createdAt
    && (Matches(a.interests, user) > Matches(b.interests, user) || a.views > b.views || a.createdAt > b.createdAt)
  }

  lemma DominatingRanksAbove(a: Article, b: Article, user: seq<Interest>, now: int, log10: nat -> real)
    requires StrictlyIncreasing(log10) && Dominates(a, b, user)
    ensures Above(ScoreArticle(a, user, now, log10), ScoreArticle(b, user, now, log10))
  {
    RecencyMonotone(a.createdAt, b.createdAt, now);
    if a.views > b.views {
      assert log10(a.views + 1) > log10(b.views + 1);
    }
  }

  ghost predicate DistinctArticles(articles: seq<Article>) {
    forall i, j :: 0 <= i < j < |articles| ==> articles[i].id != articles[j].id
  }

  /** An article is never listed unless every article that dominates it is listed before it. */
  lemma FeedRespectsDominance(
    articles: seq<Article>, user: seq<Interest>, now: int, log10: nat -> real, limit: nat, i: nat, j: nat, pos: nat)
    requires DistinctArticles(articles) && StrictlyIncreasing(log10)
    requires i < |articles| && j < |articles| && Dominates(articles[i], articles[j], user)
    requires var feed := ArticleFeed(articles, user, now, log10, limit);
             pos < |feed| && feed[pos] == articles[j].id
    ensures exists p :: 0 <= p < pos && ArticleFeed(articles, user, now, log10, limit)[p] == articles[i].id
  {
    var scored := ScoreArticles(articles, user, now, log10);
    DominatingRanksAbove(articles[i], articles[j], user, now, log10);
    assert scored[i] in scored && scored[j] in scored;
    TopRespectsOrder(scored, limit, scored[i], scored[j], pos);
  }

  /** The feed is the same for every order in which the store returns the candidates. */
  lemma FeedIgnoresStoreOrder(
    a: seq<Article>, b: seq<Article>, user: seq<Interest>, now: int, log10: nat -> real, limit: nat)
    requires DistinctArticles(a) && multiset(a) == multiset(b)
    ensures ArticleFeed(a, user, now, log10, limit) == ArticleFeed(b, user, now, log10, limit)
  {
    ScoredMultiset(a, b, user, now, log10);
    TopIgnoresInputOrder(ScoreArticles(a, user, now, log10), ScoreArticles(b, user, now, log10), limit);
  }

  lemma ScoreAppend(a: seq<Article>, b: seq<Article>, user: seq<Interest>, now: int, log10: nat -> real)
    ensures ScoreArticles(a + b, user, now, log10)
         == ScoreArticles(a, user, now, log10) + ScoreArticles(b, user, now, log10)
  {
  }

  /** Taking one article out takes its score out. */
  lemma ScoreWithout(a: seq<Article>, k: nat, user: seq<Interest>, now: int, log10: nat -> real)
    requires k < |a|
    ensures multiset(a) == multiset(a[..k] + a[k + 1..]) + multiset{a[k]}
    ensures multiset(ScoreArticles(a, user, now, log10))
         == multiset(ScoreArticles(a[..k] + a[k + 1..], user, now, log10))
            + multiset{ScoreArticle(a[k], user, now, log10)}
  {
    assert a == a[..k] + ([a[k]] + a[k + 1..]);
    ScoreAppend(a[..k], [a[k]] + a[k + 1..], user, now, log10);
    ScoreAppend([a[k]], a[k + 1..], user, now, log10);
    ScoreAppend(a[..k], a[k + 1..], user, now, log10);
    assert ScoreArticles([a[k]], user, now, log10) == [ScoreArticle(a[k], user, now, log10)];
  }

  lemma SameWithout(a: seq<Article>, b: seq<Article>, x: Article)
    requires multiset(a) + multiset{x} == multiset(b) + multiset{x}
    ensures multiset(a) == multiset(b)
  {
    assert multiset(a) == multiset(a) + multiset{x} - multiset{x};
    assert multiset(b) == multiset(b) + multiset{x} - multiset{x};
  }

  lemma {:induction false} ScoredMultiset(
    a: seq<Article>, b: seq<Article>, user: seq<Interest>, now: int, log10: nat -> real)
    requires multiset(a) == multiset(b)
    ensures multiset(ScoreArticles(a, user, now, log10)) == multiset(ScoreArticles(b, user, now, log10))
    decreases |a|
  {
    assert |multiset(a)| == |a| && |multiset(b)| == |b|;
    if a != [] {
      assert a[0] in multiset(b);
      var k :| 0 <= k < |b| && b[k] == a[0];
      ScoreWithout(a, 0, user, now, log10);
      ScoreWithout(b, k, user, now, log10);
      SameWithout(a[..0] + a[1..], b[..k] + b[k + 1..], a[0]);
      ScoredMultiset(a[..0] + a[1..], b[..k] + b[k + 1..], user, now, log10);
    }
  }

  // ---- mentors ----------------------------------------------------------------------------

  datatype MentorCandidate = MentorCandidate(
    id: Id, interests: seq<Interest>, rating: real, totalSessions: nat, lastSessionAt: Option<int>)

  function ScoreMentor(m: MentorCandidate, user: seq<Interest>, now: int, log10: nat -> real): Scored {
    Scored(m.id,
           Matches(m.interests, user) as real * 5.0 + m.rating * 10.0 + log10(m.totalSessions + 1)
           + (if m.lastSessionAt.Some? then Recency(m.lastSessionAt.value, now) else 0.0),
           m.lastSessionAt.GetOr(0))
  }

  /** `computeMentorFeed`. */
  function MentorFeed(mentors: seq<MentorCandidate>, user: seq<Interest>, now: int, log10: nat -> real, limit: nat)
    : seq<Id>
  {
    Top(seq(|mentors|, i requires 0 <= i < |mentors| => ScoreMentor(mentors[i], user, now, log10)), limit)
  }

  /** A session at or after the epoch is more recent than none. */
  predicate AtLeastAsRecent(a: Option<int>, b: Option<int>) {
    match (a, b)
    case (_, None) => a.GetOr(0) >= 0
    case (None, Some(_)) => false
    case (Some(s), Some(t)) => s >= t
  }

  /** At least as good in every respect, and better in matches, rating or sessions or with a later last session. */
  predicate MentorDominates(a: MentorCandidate, b: MentorCandidate, user: seq<Interest>) {
    && Matches(a.interests, user) >= Matches(b.interests, user)
    && a.rating >= b.rating && a.totalSessions >= b.totalSessions && AtLeastAsRecent(a.lastSessionAt, b.lastSessionAt)
    && (Matches(a.interests, user) > Matches(b.interests, user)
        || a.rating > b.rating || a.totalSessions > b.totalSessions
        || a.lastSessionAt.GetOr(0) > b.lastSessionAt.GetOr(0))
  }

  lemma DominatingMentorRanksAbove(
    a: MentorCandidate, b: MentorCandidate, user: seq<Interest>, now: int, log10: nat -> real)
    requires StrictlyIncreasing(log10) && MentorDominates(a, b, user)
    ensures Above(ScoreMentor(a, user, now, log10), ScoreMentor(b, user, now, log10))
  {
    if a.lastSessionAt.Some? && b.lastSessionAt.Some? {
      RecencyMonotone(a.lastSessionAt.value, b.lastSessionAt.value, now);
    }
    if a.totalSessions > b.totalSessions {
      assert log10(a.totalSessions + 1) > log10(b.totalSessions + 1);
    }
  }

  /** The mentor feed, too, lists nobody unless every dominating mentor is listed before. */
  lemma MentorFeedRespectsDominance(
    mentors: seq<MentorCandidate>, user: seq<Interest>, now: int, log10: nat -> real, limit: nat,
    i: nat, j: nat, pos: nat)
    requires StrictlyIncreasing(log10)
    requires forall k, l :: 0 <= k < l < |mentors| ==> mentors[k].id != mentors[l].id
    requires i < |mentors| && j < |mentors| && MentorDominates(mentors[i], mentors[j], user)
    requires var feed := MentorFeed(mentors, user, now, log10, limit); pos < |feed| && feed[pos] == mentors[j].id
    ensures exists p :: 0 <= p < pos && MentorFeed(mentors, user, now, log10, limit)[p] == mentors[i].id
  {
    var scored := seq(|mentors|, k requires 0 <= k < |mentors| => ScoreMentor(mentors[k], user, now, log10));
    DominatingMentorRanksAbove(mentors[i], mentors[j], user, now, log10);
    assert scored[i] in scored && scored[j] in scored;
    assert MentorFeed(mentors, user, now, log10, limit) == Top(scored, limit);
    TopRespectsOrder(scored, limit, scored[i], scored[j], pos);
  }

  // ---- the order in plain numbers ---------------------------------------------------------------

  /** Only the last ten days count for recency. */
  function CountedFrom(time: int, now: int): int {
    if time > now - 864_000_000 then time else now - 864_000_000
  }

  lemma RecencyExactly(time: int, now: int)
    ensures Recency(time, now) * 86_400_000.0 == (CountedFrom(time, now) - (now - 864_000_000)) as real
  {
    var days := (now - time) as real / 86_400_000.0;
    assert (10.0 - days) * 86_400_000.0 == (time - (now - 864_000_000)) as real;
  }

  /** Ahead by a lead, or, with none, by the later time, or else by the smaller id. */
  predicate AheadBy(lead: real, time: int, otherTime: int, id: Id, otherId: Id) {
    lead > 0.0 || (lead == 0.0 && (time > otherTime || (time == otherTime && id < otherId)))
  }

  lemma AboveExactly(a: Scored, b: Scored, lead: real)
    requires (a.score - b.score) * 86_400_000.0 == lead
    ensures Above(a, b) <==> AheadBy(lead, a.time, b.time, a.id, b.id)
  {
  }

  /** In milliseconds: a shared interest is worth five days, and ten times the views two. */
  function ArticleLead(a: Article, b: Article, user: seq<Interest>, now: int, log10: nat -> real): real {
    432_000_000.0 * (Matches(a.interests, user) - Matches(b.interests, user)) as real
    + 172_800_000.0 * (log10(a.views + 1) - log10(b.views + 1))
    + (CountedFrom(a.createdAt, now) - CountedFrom(b.createdAt, now)) as real
  }

  lemma ArticleLeadExactly(a: Article, b: Article, user: seq<Interest>, now: int, log10: nat -> real)
    ensures Above(ScoreArticle(a, user, now, log10), ScoreArticle(b, user, now, log10))
            <==> AheadBy(ArticleLead(a, b, user, now, log10), a.createdAt, b.createdAt, a.id, b.id)
  {
    RecencyExactly(a.createdAt, now);
    RecencyExactly(b.createdAt, now);
    AboveExactly(ScoreArticle(a, user, now, log10), ScoreArticle(b, user, now, log10),
                 ArticleLead(a, b, user, now, log10));
  }

  /** Of two articles the one that is ahead is listed, and first, whenever the other one is. */
  lemma FeedOrderExactly(
    articles: seq<Article>, user: seq<Interest>, now: int, log10: nat -> real, limit: nat, i: nat, j: nat, pos: nat)
    requires DistinctArticles(articles) && i < |articles| && j < |articles|
    requires var (a, b) := (articles[i], articles[j]);
             AheadBy(ArticleLead(a, b, user, now, log10), a.createdAt, b.createdAt, a.id, b.id)
    requires var feed := ArticleFeed(articles, user, now, log10, limit);
             pos < |feed| && feed[pos] == articles[j].id
    ensures exists p :: 0 <= p < pos && ArticleFeed(articles, user, now, log10, limit)[p] == articles[i].id
  {
    var scored := ScoreArticles(articles, user, now, log10);
    ArticleLeadExactly(articles[i], articles[j], user, now, log10);
    assert scored[i] in scored && scored[j] in scored;
    TopRespectsOrder(scored, limit, scored[i], scored[j], pos);
  }

  /** A mentor without sessions counts like one whose last session is ten days ago. */
  function LastCounted(m: MentorCandidate, now: int): int {
    if m.lastSessionAt.Some? then CountedFrom(m.lastSessionAt.value, now) else now - 864_000_000
  }

  /** A shared interest is worth five days, a star ten, and ten times the sessions one. */
  function MentorLead(a: MentorCandidate, b: MentorCandidate, user: seq<Interest>, now: int, log10: nat -> real): real {
    432_000_000.0 * (Matches(a.interests, user) - Matches(b.interests, user)) as real
    + 864_000_000.0 * (a.rating - b.rating)
    + 86_400_000.0 * (log10(a.totalSessions + 1) - log10(b.totalSessions + 1))
    + (LastCounted(a, now) - LastCounted(b, now)) as real
  }

  lemma MentorLeadExactly(a: MentorCandidate, b: MentorCandidate, user: seq<Interest>, now: int, log10: nat -> real)
    ensures Above(ScoreMentor(a, user, now, log10), ScoreMentor(b, user, now, log10))
            <==> AheadBy(MentorLead(a, b, user, now, log10), a.lastSessionAt.GetOr(0), b.lastSessionAt.GetOr(0),
                         a.id, b.id)
  {
    RecencyExactly(a.lastSessionAt.GetOr(0), now);
    RecencyExactly(b.lastSessionAt.GetOr(0), now);
    AboveExactly(ScoreMentor(a, user, now, log10), ScoreMentor(b, user, now, log10),
                 MentorLead(a, b, user, now, log10));
  }

  /** The same for the mentor feed. */
  lemma MentorFeedOrderExactly(
    mentors: seq<MentorCandidate>, user: seq<Interest>, now: int, log10: nat -> real, limit: nat,
    i: nat, j: nat, pos: nat)
    requires forall k, l :: 0 <= k < l < |mentors| ==> mentors[k].id != mentors[l].id
    requires i < |mentors| && j < |mentors|
    requires var (a, b) := (mentors[i], mentors[j]);
             AheadBy(MentorLead(a, b, user, now, log10), a.lastSessionAt.GetOr(0), b.lastSessionAt.GetOr(0), a.id, b.id)
    requires var feed := MentorFeed(mentors, user, now, log10, limit); pos < |feed| && feed[pos] == mentors[j].id
    ensures exists p :: 0 <= p < pos && MentorFeed(mentors, user, now, log10, limit)[p] == mentors[i].id
  {
    var scored := seq(|mentors|, k requires 0 <= k < |mentors| => ScoreMentor(mentors[k], user, now, log10));
    MentorLeadExactly(mentors[i], mentors[j], user, now, log10);
    assert scored[i] in scored && scored[j] in scored;
    assert MentorFeed(mentors, user, now, log10, limit) == Top(scored, limit);
    TopRespectsOrder(scored, limit, scored[i], scored[j], pos);
  }

  /** Shared interests are counted once for every time they are listed. */
  lemma {:induction false} MatchesExactly(interests: seq<Interest>, user: seq<Interest>)
    ensures Matches(interests, user) == |set i | 0 <= i < |interests| && interests[i] in user|
  {
    var here := set i | 0 <= i < |interests| && interests[i] in user;
    if interests == [] {
      assert here == {};
    } else {
      var rest := interests[..|interests| - 1];
      MatchesExactly(rest, user);
      var before := set i | 0 <= i < |rest| && rest[i] in user;
      assert here == before + if interests[|rest|] in user then {|rest|} else {};
    }
  }
}

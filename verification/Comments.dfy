/**
  Comments of articles form trees.  Creating a reply walks the parent chain and bumps
  the cached `repliesCount` of every ancestor; deleting a comment is a soft delete that
  touches the article counter alone.  The cached counters are proved to equal the
  cardinalities they stand for, over every run.

  Database ids of comments are modelled by creation rank: the comment with id `c` is
  the `c`-th comment ever stored.
 */
module Comments {
  import opened Wrappers

  type ArticleId = nat
  type UserId = nat
  type CommentId = nat

  datatype Comment = Comment(
    articleId: ArticleId, parentId: Option<CommentId>, userId: UserId, repliesCount: nat, isActive: bool)

  datatype Article = Article(isActive: bool, commentsCount: nat)

  datatype Store = Store(articles: map<ArticleId, Article>, comments: seq<Comment>)

  datatype Outcome =
    | Created(id: CommentId)
    | Deleted
    | ArticleNotFound
    | ParentNotFound
    | ParentOfOtherArticle
    | CommentNotFound
    | NotOwner

  // ---- the tree ------------------------------------------------------------------

  /** Parents are stored before their children and belong to the same article. */
  ghost predicate Forest(cs: seq<Comment>) {
    forall c :: 0 <= c < |cs| && cs[c].parentId.Some? ==>
      cs[c].parentId.value < c && cs[cs[c].parentId.value].articleId == cs[c].articleId
  }

  /** `a` lies strictly above `c`. */
  predicate Above(cs: seq<Comment>, a: CommentId, c: CommentId)
    requires c < |cs|
    decreases c
  {
    match cs[c].parentId
    case None => false
    case Some(p) => p < c && (p == a || Above(cs, a, p))
  }

  ghost function Descendants(cs: seq<Comment>, a: CommentId): set<CommentId> {
    set c | 0 <= c < |cs| && Above(cs, a, c)
  }

  ghost function ActiveIn(cs: seq<Comment>, article: ArticleId): set<CommentId> {
    set c | 0 <= c < |cs| && cs[c].isActive && cs[c].articleId == article
  }

  /** Every cached counter equals what it caches. */
  ghost predicate CountersExact(s: Store) {
    && Forest(s.comments)
    && (forall c :: 0 <= c < |s.comments| ==> s.comments[c].articleId in s.articles)
    && (forall a :: 0 <= a < |s.comments| ==> s.comments[a].repliesCount == |Descendants(s.comments, a)|)
    && (forall x :: x in s.articles ==> s.articles[x].commentsCount == |ActiveIn(s.comments, x)|)
  }

  // ---- what the use cases do -------------------------------------------------------

  /** `a` is `p` or lies above `p`. */
  predicate OnPath(cs: seq<Comment>, p: Option<CommentId>, a: CommentId)
    requires p.Some? ==> p.value < |cs|
  {
    p.Some? && (a == p.value || Above(cs, a, p.value))
  }

  /** One more reply for `a` when it is `p` or lies above `p`. */
  function Bumped(cs: seq<Comment>, p: Option<CommentId>, a: CommentId): Comment
    requires p.Some? ==> p.value < |cs|
    requires a < |cs|
  {
    if OnPath(cs, p, a)
    then cs[a].(repliesCount := cs[a].repliesCount + 1)
    else cs[a]
  }

  function BumpAncestors(cs: seq<Comment>, p: Option<CommentId>): (r: seq<Comment>)
    requires p.Some? ==> p.value < |cs|
    ensures |r| == |cs|
  {
    seq(|cs|, a requires 0 <= a < |cs| => Bumped(cs, p, a))
  }

  function Create(s: Store, article: ArticleId, parent: Option<CommentId>, user: UserId): (Store, Outcome) {
    if article !in s.articles || !s.articles[article].isActive then
      (s, ArticleNotFound)
    else if parent.Some? && (parent.value >= |s.comments| || !s.comments[parent.value].isActive) then
      (s, ParentNotFound)
    else if parent.Some? && s.comments[parent.value].articleId != article then
      (s, ParentOfOtherArticle)
    else
      var count := s.articles[article].commentsCount + 1;
      (Store(s.articles[article := s.articles[article].(commentsCount := count)],
             BumpAncestors(s.comments, parent) + [Comment(article, parent, user, 0, true)]),
       Created(|s.comments|))
  }

  function Delete(s: Store, c: CommentId, user: UserId): (Store, Outcome) {
    if c >= |s.comments| || !s.comments[c].isActive then
      (s, CommentNotFound)
    else if s.comments[c].userId != user then
      (s, NotOwner)
    else
      var x := s.comments[c].articleId;
      var comments := s.comments[c := s.comments[c].(isActive := false)];
      var articles :=
        if x in s.articles then
          var old' := s.articles[x].commentsCount;
          s.articles[x := s.articles[x].(commentsCount := if old' == 0 then 0 else old' - 1)]
        else s.articles;
      (Store(articles, comments), Deleted)
  }

  /** The ancestors of the reply are bumped up to, and not including, `current`. */
  ghost predicate BumpedBelow(
    before: seq<Comment>, parent: Option<CommentId>, current: Option<CommentId>, cs: seq<Comment>)
  {
    && |cs| == |before|
    && (parent.Some? ==> parent.value < |before|)
    && (current.Some? ==> parent.Some? && current.value < |before|)
    && (forall a :: 0 <= a < |before| ==>
          cs[a] == if OnPath(before, current, a) then before[a] else Bumped(before, parent, a))
    && (forall a: CommentId :: OnPath(before, current, a) ==> OnPath(before, parent, a))
  }

  /** One turn of the loop: the comment at hand is bumped and the walk moves to its parent. */
  lemma BumpOne(before: seq<Comment>, parent: Option<CommentId>, id: CommentId, cs: seq<Comment>)
    requires Forest(before) && BumpedBelow(before, parent, Some(id), cs)
    ensures cs[id] == before[id]
    ensures BumpedBelow(before, parent, before[id].parentId, cs[id := cs[id].(repliesCount := cs[id].repliesCount + 1)])
    ensures before[id].parentId.Some? ==> before[id].parentId.value < id
  {
    PathStep(before, id);
    assert OnPath(before, Some(id), id);
    var bumped := cs[id := cs[id].(repliesCount := cs[id].repliesCount + 1)];
    forall a | 0 <= a < |before|
      ensures bumped[a] == if OnPath(before, before[id].parentId, a) then before[a] else Bumped(before, parent, a)
    {
      assert OnPath(before, before[id].parentId, a) <==> a != id && OnPath(before, Some(id), a);
    }
  }

  /** The store behind the two use cases, updated in place. */
  class CommentBoard {
    var articles: map<ArticleId, Article>
    var comments: seq<Comment>

    ghost function State(): Store
      reads this
    {
      Store(articles, comments)
    }

    constructor (articles: map<ArticleId, Article>)
      ensures State() == Store(articles, [])
    {
      this.articles, comments := articles, [];
    }

    /** `CreateArticleCommentUseCase.execute`. */
    method CreateComment(article: ArticleId, parent: Option<CommentId>, user: UserId) returns (r: Outcome)
      requires Forest(comments)
      modifies this
      ensures Forest(comments)
      ensures (State(), r) == Create(old(State()), article, parent, user)
    {
      if article !in articles || !articles[article].isActive {
        return ArticleNotFound;
      }
      if parent.Some? {
        if parent.value >= |comments| || !comments[parent.value].isActive {
          return ParentNotFound;
        }
        if comments[parent.value].articleId != article {
          return ParentOfOtherArticle;
        }
      }
      ghost var before := comments;
      var currentComments := articles[article].commentsCount;
      var created := |comments|;
      comments := comments + [Comment(article, parent, user, 0, true)];
      articles := articles[article := articles[article].(commentsCount := currentComments + 1)];

      var current: Option<CommentId> := parent;
      while current.Some?
        invariant |comments| == created + 1
        invariant BumpedBelow(before, parent, current, comments[..created])
        invariant comments == comments[..created] + [Comment(article, parent, user, 0, true)]
        invariant articles == old(articles)[article := old(articles)[article].(commentsCount := currentComments + 1)]
        decreases current.Some?, if current.Some? then current.value else 0
      {
        var id := current.value;
        if id >= |comments| {
          break;
        }
        var parentComment := comments[id];
        BumpOne(before, parent, id, comments[..created]);
        ghost var bumped := comments[..created][id := parentComment.(repliesCount := parentComment.repliesCount + 1)];
        comments := comments[id := parentComment.(repliesCount := parentComment.repliesCount + 1)];
        assert comments[..created] == bumped;
        current := parentComment.parentId;
      }
      assert comments[..created] == BumpAncestors(before, parent);
      r := Created(created);
    }

    /** `DeleteArticleCommentUseCase.execute`. */
    method DeleteComment(c: CommentId, user: UserId) returns (r: Outcome)
      requires Forest(comments)
      modifies this
      ensures Forest(comments)
      ensures (State(), r) == Delete(old(State()), c, user)
    {
      if c >= |comments| || !comments[c].isActive {
        return CommentNotFound;
      }
      var comment := comments[c];
      if comment.userId != user {
        return NotOwner;
      }
      comments := comments[c := comment.(isActive := false)];
      if comment.articleId in articles {
        var article := articles[comment.articleId];
        articles := articles[comment.articleId :=
          article.(commentsCount := if article.commentsCount == 0 then 0 else article.commentsCount - 1)];
      }
      r := Deleted;
    }
  }

  // ---- the tree, continued ------------------------------------------------------------

  lemma {:induction false} AboveSmaller(cs: seq<Comment>, c: CommentId)
    requires c < |cs|
    ensures forall a: CommentId :: Above(cs, a, c) ==> a < c
    decreases c
  {
    if cs[c].parentId.Some? && cs[c].parentId.value < c {
      AboveSmaller(cs, cs[c].parentId.value);
    }
  }

  /** Moving from a comment to its parent takes exactly that comment off the path. */
  lemma PathStep(cs: seq<Comment>, id: CommentId)
    requires Forest(cs) && id < |cs|
    ensures forall a: CommentId :: OnPath(cs, cs[id].parentId, a) <==> a != id && OnPath(cs, Some(id), a)
  {
    AboveSmaller(cs, id);
    forall a: CommentId
      ensures OnPath(cs, cs[id].parentId, a) == Above(cs, a, id)
    {
    }
  }

  /** The relation depends on the parent links only. */
  lemma {:induction false} AboveSameLinks(cs: seq<Comment>, ds: seq<Comment>, a: CommentId, c: CommentId)
    requires c < |cs| <= |ds|
    requires forall i :: 0 <= i < |cs| ==> cs[i].parentId == ds[i].parentId
    ensures Above(cs, a, c) == Above(ds, a, c)
    decreases c
  {
    if cs[c].parentId.Some? && cs[c].parentId.value < c {
      AboveSameLinks(cs, ds, a, cs[c].parentId.value);
    }
  }

  // ---- every step keeps the counters exact ----------------------------------------------

  lemma DescendantsAfterCreate(s: Store, article: ArticleId, parent: Option<CommentId>, user: UserId, a: CommentId)
    requires Forest(s.comments)
    requires Create(s, article, parent, user).1.Created?
    requires a < |s.comments|
    ensures var cs, cs' := s.comments, Create(s, article, parent, user).0.comments;
            Descendants(cs', a) == Descendants(cs, a)
              + if OnPath(cs, parent, a) then {|cs|} else {}
  {
    var cs, cs' := s.comments, Create(s, article, parent, user).0.comments;
    forall c | 0 <= c < |cs|
      ensures Above(cs, a, c) == Above(cs', a, c)
    {
      AboveSameLinks(cs, cs', a, c);
    }
  }

  lemma CreateKeepsRepliesExact(s: Store, article: ArticleId, parent: Option<CommentId>, user: UserId, a: CommentId)
    requires CountersExact(s)
    requires Create(s, article, parent, user).1.Created?
    requires a <= |s.comments|
    ensures var cs' := Create(s, article, parent, user).0.comments;
            cs'[a].repliesCount == |Descendants(cs', a)|
  {
    var cs, cs' := s.comments, Create(s, article, parent, user).0.comments;
    if a < |cs| {
      DescendantsAfterCreate(s, article, parent, user, a);
      assert |cs| !in Descendants(cs, a);
    } else {
      forall c | 0 <= c < |cs'|
        ensures !Above(cs', a, c)
      {
        AboveSmaller(cs', c);
      }
      assert Descendants(cs', a) == {};
    }
  }

  /** Replies counters do not matter for who is active. */
  lemma ActiveAfterAppend(cs: seq<Comment>, bumped: seq<Comment>, c: Comment, x: ArticleId)
    requires |bumped| == |cs| && c.isActive
    requires forall i :: 0 <= i < |cs| ==> bumped[i].isActive == cs[i].isActive && bumped[i].articleId == cs[i].articleId
    ensures |ActiveIn(bumped + [c], x)| == |ActiveIn(cs, x)| + if c.articleId == x then 1 else 0
  {
    assert ActiveIn(bumped + [c], x) == ActiveIn(cs, x) + if c.articleId == x then {|cs|} else {};
    assert |cs| !in ActiveIn(cs, x);
  }

  lemma CreateKeepsActiveExact(s: Store, article: ArticleId, parent: Option<CommentId>, user: UserId, x: ArticleId)
    requires x in s.articles && s.articles[x].commentsCount == |ActiveIn(s.comments, x)|
    requires Create(s, article, parent, user).1.Created?
    ensures var s' := Create(s, article, parent, user).0;
            s'.articles[x].commentsCount == |ActiveIn(s'.comments, x)|
  {
    ActiveAfterAppend(s.comments, BumpAncestors(s.comments, parent), Comment(article, parent, user, 0, true), x);
  }

  lemma CreateKeepsForest(s: Store, article: ArticleId, parent: Option<CommentId>, user: UserId)
    requires Forest(s.comments) && forall c :: 0 <= c < |s.comments| ==> s.comments[c].articleId in s.articles
    ensures var s' := Create(s, article, parent, user).0;
            Forest(s'.comments) && forall c :: 0 <= c < |s'.comments| ==> s'.comments[c].articleId in s'.articles
  {
  }

  lemma CreateKeepsCountersExact(s: Store, article: ArticleId, parent: Option<CommentId>, user: UserId)
    requires CountersExact(s)
    ensures CountersExact(Create(s, article, parent, user).0)
  {
    var (s', r) := Create(s, article, parent, user);
    if r.Created? {
      CreateKeepsForest(s, article, parent, user);
      forall a | 0 <= a < |s'.comments|
        ensures s'.comments[a].repliesCount == |Descendants(s'.comments, a)|
      {
        CreateKeepsRepliesExact(s, article, parent, user, a);
      }
      forall x | x in s'.articles
        ensures s'.articles[x].commentsCount == |ActiveIn(s'.comments, x)|
      {
        CreateKeepsActiveExact(s, article, parent, user, x);
      }
    }
  }

  /** Deleting softly leaves the tree alone. */
  lemma DescendantsAfterDelete(cs: seq<Comment>, c: CommentId, a: CommentId)
    requires c < |cs|
    ensures Descendants(cs[c := cs[c].(isActive := false)], a) == Descendants(cs, a)
  {
    var cs' := cs[c := cs[c].(isActive := false)];
    forall d | 0 <= d < |cs|
      ensures Above(cs, a, d) == Above(cs', a, d)
    {
      AboveSameLinks(cs, cs', a, d);
    }
  }

  lemma ActiveAfterDelete(cs: seq<Comment>, c: CommentId, x: ArticleId)
    requires c < |cs| && cs[c].isActive
    ensures var cs' := cs[c := cs[c].(isActive := false)];
            |ActiveIn(cs', x)| == |ActiveIn(cs, x)| - if x == cs[c].articleId then 1 else 0
  {
    var cs' := cs[c := cs[c].(isActive := false)];
    assert ActiveIn(cs', x) == if x == cs[c].articleId then ActiveIn(cs, x) - {c} else ActiveIn(cs, x);
    assert x == cs[c].articleId ==> c in ActiveIn(cs, x);
  }

  /** The clamp at zero in `decrementComments` is never reached: a deletion lowers the counter by one. */
  lemma DeleteKeepsCountersExact(s: Store, c: CommentId, user: UserId)
    requires CountersExact(s)
    ensures CountersExact(Delete(s, c, user).0)
    ensures Delete(s, c, user).1.Deleted? ==>
              var x := s.comments[c].articleId;
              Delete(s, c, user).0.articles[x].commentsCount == s.articles[x].commentsCount - 1
  {
    var (s', r) := Delete(s, c, user);
    if r.Deleted? {
      forall a | 0 <= a < |s'.comments|
        ensures s'.comments[a].repliesCount == |Descendants(s'.comments, a)|
      {
        DescendantsAfterDelete(s.comments, c, a);
      }
      ActiveAfterDelete(s.comments, c, s.comments[c].articleId);
      forall x | x in s'.articles
        ensures s'.articles[x].commentsCount == |ActiveIn(s'.comments, x)|
      {
        ActiveAfterDelete(s.comments, c, x);
      }
    }
  }

  // ---- runs -------------------------------------------------------------------------------

  datatype Op =
    | CreateOp(article: ArticleId, parent: Option<CommentId>, user: UserId)
    | DeleteOp(comment: CommentId, user: UserId)
    /** Articles are blocked, unblocked, deleted (softly) and added by other use cases. */
    | SetArticleActive(article: ArticleId, isActive: bool)
    | AddArticle(article: ArticleId)

  function Step(s: Store, op: Op): Store {
    match op
    case CreateOp(article, parent, user) => Create(s, article, parent, user).0
    case DeleteOp(c, user) => Delete(s, c, user).0
    case SetArticleActive(x, isActive) =>
      if x in s.articles then s.(articles := s.articles[x := s.articles[x].(isActive := isActive)]) else s
    case AddArticle(x) =>
      if x in s.articles then s else s.(articles := s.articles[x := Article(true, 0)])
  }

  function Run(ops: seq<Op>): Store {
    if ops == [] then Store(map[], []) else Step(Run(ops[..|ops| - 1]), ops[|ops| - 1])
  }

  /** Over any run, every cached counter equals the cardinality it stands for. */
  lemma {:induction false} RunCountersExact(ops: seq<Op>)
    ensures CountersExact(Run(ops))
  {
    if ops != [] {
      var s, op := Run(ops[..|ops| - 1]), ops[|ops| - 1];
      RunCountersExact(ops[..|ops| - 1]);
      match op
      case CreateOp(article, parent, user) => CreateKeepsCountersExact(s, article, parent, user);
      case DeleteOp(c, user) => DeleteKeepsCountersExact(s, c, user);
      case SetArticleActive(_, _) =>
      case AddArticle(x) =>
        if x !in s.articles {
          assert ActiveIn(s.comments, x) == {};
        }
    }
  }

  // ---- who may write and delete ---------------------------------------------------------------

  /** The author of a stored comment asks for its deletion. */
  predicate WithdrawsOwn(s: Store, op: Op, c: CommentId) {
    op.DeleteOp? && op.comment == c && c < |s.comments| && op.user == s.comments[c].userId
  }

  /** A comment keeps its article, its parent and its author, and it is deleted by its author alone. */
  lemma StepWithdrawsExactly(s: Store, op: Op, c: CommentId)
    requires c < |s.comments|
    ensures c < |Step(s, op).comments|
    ensures var x, x' := s.comments[c], Step(s, op).comments[c];
            && x'.articleId == x.articleId && x'.parentId == x.parentId && x'.userId == x.userId
            && (x'.isActive <==> x.isActive && !WithdrawsOwn(s, op, c))
  {
  }

  /** The request succeeds exactly then. */
  lemma DeleteAcceptedExactly(s: Store, c: CommentId, user: UserId)
    ensures Delete(s, c, user).1.Deleted? <==> c < |s.comments| && s.comments[c].isActive && s.comments[c].userId == user
    ensures !Delete(s, c, user).1.Deleted? ==> Delete(s, c, user).0 == s
    ensures Delete(s, c, user).1 == CommentNotFound <==> c >= |s.comments| || !s.comments[c].isActive
  {
  }

  /** A deletion takes one off the article's counter, down to zero, and touches nothing else. */
  lemma DeleteWrites(s: Store, c: CommentId, user: UserId)
    requires Delete(s, c, user).1.Deleted?
    ensures c < |s.comments|
    ensures var s', x := Delete(s, c, user).0, s.comments[c].articleId;
            && s'.comments == s.comments[c := s.comments[c].(isActive := false)]
            && s'.articles.Keys == s.articles.Keys
            && forall a :: a in s.articles ==>
                 && s'.articles[a].isActive == s.articles[a].isActive
                 && s'.articles[a].commentsCount
                    == if a != x || s.articles[a].commentsCount == 0 then s.articles[a].commentsCount
                       else s.articles[a].commentsCount - 1
  {
  }

  /** Some step of the run is its author's request to delete the comment. */
  ghost predicate Withdrawn(ops: seq<Op>, c: CommentId) {
    exists k :: 0 <= k < |ops| && WithdrawsOwn(Run(ops[..k]), ops[k], c)
  }

  lemma WithdrawnSnoc(ops: seq<Op>, c: CommentId)
    requires ops != []
    ensures Withdrawn(ops, c) <==>
              Withdrawn(ops[..|ops| - 1], c) || WithdrawsOwn(Run(ops[..|ops| - 1]), ops[|ops| - 1], c)
  {
    var prefix := ops[..|ops| - 1];
    forall k | 0 <= k < |prefix|
      ensures WithdrawsOwn(Run(prefix[..k]), prefix[k], c) <==> WithdrawsOwn(Run(ops[..k]), ops[k], c)
    {
      assert prefix[..k] == ops[..k];
    }
    if Withdrawn(ops, c) {
      var k :| 0 <= k < |ops| && WithdrawsOwn(Run(ops[..k]), ops[k], c);
      assert k < |prefix| ==> WithdrawsOwn(Run(prefix[..k]), prefix[k], c);
    }
    if Withdrawn(prefix, c) {
      var k :| 0 <= k < |prefix| && WithdrawsOwn(Run(prefix[..k]), prefix[k], c);
      assert WithdrawsOwn(Run(ops[..k]), ops[k], c);
    }
  }

  /** Over any run a comment is inactive if and only if its author asked for its deletion. */
  lemma {:induction false} RunDeletedExactly(ops: seq<Op>, c: CommentId)
    requires c < |Run(ops).comments|
    ensures !Run(ops).comments[c].isActive <==> Withdrawn(ops, c)
  {
    var prefix, op := ops[..|ops| - 1], ops[|ops| - 1];
    WithdrawnSnoc(ops, c);
    if c < |Run(prefix).comments| {
      RunDeletedExactly(prefix, c);
      StepWithdrawsExactly(Run(prefix), op, c);
    } else {
      NotBefore(prefix, c);
    }
  }

  /** Nobody can ask for the deletion of a comment that is still to be written. */
  lemma {:induction false} NotBefore(ops: seq<Op>, c: CommentId)
    requires c >= |Run(ops).comments|
    ensures !Withdrawn(ops, c)
  {
    if ops != [] {
      WithdrawnSnoc(ops, c);
      NotBefore(ops[..|ops| - 1], c);
    }
  }

  /** The article and the comment replied to are there and active, and belong together. */
  predicate MayWrite(s: Store, article: ArticleId, parent: Option<CommentId>) {
    && article in s.articles && s.articles[article].isActive
    && (parent.Some? ==>
          && parent.value < |s.comments| && s.comments[parent.value].isActive
          && s.comments[parent.value].articleId == article)
  }

  /** A comment is stored if and only if it may be written, and then under its author and at the end. */
  lemma CreateAcceptedExactly(s: Store, article: ArticleId, parent: Option<CommentId>, user: UserId)
    ensures Create(s, article, parent, user).1.Created? <==> MayWrite(s, article, parent)
    ensures var s' := Create(s, article, parent, user).0;
            if MayWrite(s, article, parent) then
              |s'.comments| == |s.comments| + 1
              && s'.comments[|s.comments|] == Comment(article, parent, user, 0, true)
            else s' == s
    ensures var r := Create(s, article, parent, user).1;
            && (r == ArticleNotFound <==> article !in s.articles || !s.articles[article].isActive)
            && (r == ParentOfOtherArticle <==>
                  && article in s.articles && s.articles[article].isActive && parent.Some?
                  && parent.value < |s.comments| && s.comments[parent.value].isActive
                  && s.comments[parent.value].articleId != article)
  {
  }

  /** Over any run every comment was written, in its turn, under an active article and an active parent. */
  lemma {:induction false} RunWrittenInPlace(ops: seq<Op>, c: CommentId)
    requires c < |Run(ops).comments|
    ensures exists k :: 0 <= k < |ops| && Writes(Run(ops[..k]), ops[k], c, Run(ops).comments[c])
  {
    var prefix, op := ops[..|ops| - 1], ops[|ops| - 1];
    var s := Run(prefix);
    if c < |s.comments| {
      RunWrittenInPlace(prefix, c);
      var k :| 0 <= k < |prefix| && Writes(Run(prefix[..k]), prefix[k], c, s.comments[c]);
      assert prefix[..k] == ops[..k];
      StepWithdrawsExactly(s, op, c);
      assert Writes(Run(ops[..k]), ops[k], c, Run(ops).comments[c]);
    } else {
      assert Writes(Run(ops[..|ops| - 1]), ops[|ops| - 1], c, Run(ops).comments[c]);
    }
  }

  /** The operation writes what becomes the `c`-th comment. */
  predicate Writes(s: Store, op: Op, c: CommentId, x: Comment) {
    && op == CreateOp(x.articleId, x.parentId, x.userId)
    && c == |s.comments| && MayWrite(s, x.articleId, x.parentId)
  }
}

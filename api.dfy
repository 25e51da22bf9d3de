/** The read side of the data-access layer (`src/lib/api.ts`): topics, the
    paged post listing with recomputed counters, a single post, and the
    one-level comment tree. Each read is a function of the tables, the
    signed-in user and the failures the store reports. */
module Api {
  import opened Wrappers
  import opened Text
  import opened Seqs
  import opened Records

  /** Thrown by every operation that needs a signed-in user. */
  const LoginRequired := "로그인이 필요합니다."

  /** The store's message when `.single()` finds no row, or several. */
  const NotSingleRow := "JSON object requested, multiple (or no) rows returned"

  // ---------------------------------------------------------------------
  // fetchTopics

  const TopicsFailed := "토픽을 불러오는데 실패했습니다: "

  function IsActive(t: Topic): bool { t.is_active }

  /** `.order("name", { ascending: true })`. */
  function ByName(a: Topic, b: Topic): bool { LexLe(a.name, b.name) }

  lemma ByNameTotalPreorder()
    ensures TotalPreorder(ByName)
  {
    forall a: Topic, b: Topic ensures ByName(a, b) || ByName(b, a) {
      LexLeTotal(a.name, b.name);
    }
    forall a: Topic, b: Topic, c: Topic | ByName(a, b) && ByName(b, c) ensures ByName(a, c) {
      LexLeTrans(a.name, b.name, c.name);
    }
  }

  /** The active topics by name, or the store's failure. */
  function FetchTopics(topics: seq<Topic>, fault: Option<string>): (r: Result<seq<Topic>, string>)
    ensures fault.Some? ==> r == Err(TopicsFailed + fault.value)
    ensures fault.None? ==> r.Ok? && multiset(r.value) == multiset(Filter(topics, IsActive))
  {
    if fault.Some? then Err(TopicsFailed + fault.value)
    else Ok(Sort(Filter(topics, IsActive), ByName))
  }

  /** The topics returned are exactly the active ones, in name order. */
  lemma FetchTopicsActiveByName(topics: seq<Topic>)
    ensures var r := FetchTopics(topics, None).value;
      && (forall x :: x in r <==> x in topics && x.is_active)
      && SortedBy(r, ByName)
  {
    var active := Filter(topics, IsActive);
    var r := Sort(active, ByName);
    SameMembers(r, active);
    ByNameTotalPreorder();
    SortSorted(active, ByName);
  }

  // ---------------------------------------------------------------------
  // fetchPosts

  const PostsFailed := "게시글을 불러오는데 실패했습니다: "

  /** The listing filter: published, and in the topic when one is given
      (`null`, `undefined` and `""` mean every topic). */
  function InListing(topicId: Option<TopicId>): Post -> bool {
    (p: Post) => p.is_published && (topicId.None? || topicId.value == "" || p.topic_id == Some(topicId.value))
  }

  /** `.order("created_at", { ascending: false })`. */
  function NewerOrSame(a: Post, b: Post): bool { a.created_at >= b.created_at }

  lemma NewerOrSameTotalPreorder()
    ensures TotalPreorder(NewerOrSame)
  {
  }

  /** Every post the query matches, newest first, before the window is
      applied; equal timestamps keep their storage order. */
  function Listing(posts: seq<Post>, topicId: Option<TopicId>): (r: seq<Post>)
    ensures multiset(r) == multiset(Filter(posts, InListing(topicId)))
  {
    Sort(Filter(posts, InListing(topicId)), NewerOrSame)
  }

  /** The first position of a page: `(page - 1) * pageSize`. */
  function First(page: int, pageSize: int): int { (page - 1) * pageSize }

  /** The last position of a page: `page * pageSize - 1`. */
  function Last(page: int, pageSize: int): int { page * pageSize - 1 }

  /** A page spans `pageSize` positions from a non-negative start. */
  lemma PageBounds(page: int, pageSize: int)
    requires page >= 1 && pageSize >= 1
    ensures 0 <= First(page, pageSize) <= Last(page, pageSize)
    ensures Last(page, pageSize) - First(page, pageSize) + 1 == pageSize
  {
  }

  /** An earlier page ends before a later one starts. */
  lemma PagesApart(p1: int, p2: int, pageSize: int)
    requires 1 <= p1 < p2 && pageSize >= 1
    ensures Last(p1, pageSize) < First(p2, pageSize)
  {
    assert Last(p1, pageSize) + 1 == p1 * pageSize;
    assert First(p2, pageSize) == (p2 - 1) * pageSize;
    assert p1 <= p2 - 1;
  }


  /** Likes of one post: the rows an exact `count` on `post_id` sees. */
  function LikesOf(postId: PostId): Like -> bool { (l: Like) => l.post_id == postId }

  /** The comments a post's counter counts: its rows not soft-deleted. */
  function LiveCommentsOf(postId: PostId): Comment -> bool {
    (c: Comment) => c.post_id == postId && !c.is_deleted
  }

  function LikeCount(likes: seq<Like>, postId: PostId): nat {
    Count(likes, LikesOf(postId))
  }

  function CommentCount(comments: seq<Comment>, postId: PostId): nat {
    Count(comments, LiveCommentsOf(postId))
  }

  /** A post as the listing returns it: its counters recomputed from the
      tables (0 when that count fails), and whether the caller likes it. */
  datatype ListedPost = ListedPost(post: Post, isLiked: bool)

  function WithCounts(p: Post, t: Tables, likeCountFails: bool, commentCountFails: bool): (r: Post)
    ensures r.likes_count == if likeCountFails then 0 else LikeCount(t.likes, p.id)
    ensures r.comments_count == if commentCountFails then 0 else CommentCount(t.comments, p.id)
    ensures r.(likes_count := p.likes_count, comments_count := p.comments_count) == p
  {
    p.(likes_count := if likeCountFails then 0 else LikeCount(t.likes, p.id),
       comments_count := if commentCountFails then 0 else CommentCount(t.comments, p.id))
  }

  /** What can go wrong in a listing: the main query (its message), the
      two counts of particular posts, and the caller's likes lookup. */
  datatype ListingFaults = ListingFaults(
    query: Option<string>,
    likeCounts: set<PostId>,
    commentCounts: set<PostId>,
    likedLookup: bool)

  const NoListingFaults := ListingFaults(None, {}, {}, false)

  datatype PostsResponse = PostsResponse(posts: seq<ListedPost>, totalCount: nat)

  function Decorate(p: Post, t: Tables, caller: Option<UserId>, f: ListingFaults): ListedPost {
    ListedPost(
      WithCounts(p, t, p.id in f.likeCounts, p.id in f.commentCounts),
      caller.Some? && !f.likedLookup && Like(p.id, caller.value) in t.likes)
  }

  /** The listed posts at positions `from` to `to`, decorated. */
  function ListingPage(t: Tables, caller: Option<UserId>, topicId: Option<TopicId>,
                       from: nat, to: int, f: ListingFaults): seq<ListedPost>
  {
    var window := Range(Listing(t.posts, topicId), from, to);
    seq(|window|, i requires 0 <= i < |window| => Decorate(window[i], t, caller, f))
  }

  /** PostgreSQL's answer to the negative `OFFSET` that a page below 1
      asks for. */
  const NegativeOffset := "OFFSET must not be negative"

  /** PostgREST's answer (PGRST103, status 416) to a range that starts
      after the last counted row. */
  const RangeNotSatisfiable := "Requested range not satisfiable"

  /** `fetchPosts`: one page of the listing with recomputed counters, and
      the number of posts on all pages. A page below 1 asks for a range
      that starts before the first row, and a page that starts after the
      last matching post asks for one the exact count cannot satisfy; the
      service rejects both. A page starting exactly at the end is empty. */
  function FetchPosts(t: Tables, caller: Option<UserId>, topicId: Option<TopicId>,
                      page: int, pageSize: int, f: ListingFaults): (r: Result<PostsResponse, string>)
    requires pageSize >= 1
    ensures r.Err? <==> page < 1 || f.query.Some? || First(page, pageSize) > |Listing(t.posts, topicId)|
    ensures page < 1 ==> r == Err(PostsFailed + NegativeOffset)
    ensures page >= 1 && f.query.Some? ==> r == Err(PostsFailed + f.query.value)
    ensures page >= 1 && f.query.None? && First(page, pageSize) > |Listing(t.posts, topicId)| ==>
      r == Err(PostsFailed + RangeNotSatisfiable)
    ensures r.Ok? ==> |r.value.posts| <= pageSize
    ensures r.Ok? ==> r.value.totalCount == Count(t.posts, InListing(topicId))
  {
    if page < 1 then Err(PostsFailed + NegativeOffset)
    else if f.query.Some? then Err(PostsFailed + f.query.value)
    else if First(page, pageSize) > |Listing(t.posts, topicId)| then Err(PostsFailed + RangeNotSatisfiable)
    else
      PageBounds(page, pageSize);
      Ok(PostsResponse(
        ListingPage(t, caller, topicId, First(page, pageSize), Last(page, pageSize), f),
        |Listing(t.posts, topicId)|))
  }

  /** Every listed post is a published post of the store, in the topic
      asked for, with only its counters changed, and the positions come
      newest first. */
  lemma ListingPageContents(t: Tables, caller: Option<UserId>, topicId: Option<TopicId>,
                            from: nat, to: int, f: ListingFaults)
    ensures var ps := ListingPage(t, caller, topicId, from, to, f);
      && (forall i :: 0 <= i < |ps| ==>
            && ps[i].post.is_published
            && (topicId.None? || topicId.value == "" || ps[i].post.topic_id == topicId)
            && exists q :: q in t.posts && q == ps[i].post.(likes_count := q.likes_count, comments_count := q.comments_count))
      && (forall i, j :: 0 <= i < j < |ps| ==> ps[i].post.created_at >= ps[j].post.created_at)
  {
    var all := Listing(t.posts, topicId);
    var window := Range(all, from, to);
    var ps := ListingPage(t, caller, topicId, from, to, f);
    var matching := Filter(t.posts, InListing(topicId));
    SameMembers(all, matching);
    NewerOrSameTotalPreorder();
    SortSorted(matching, NewerOrSame);
    forall i | 0 <= i < |ps|
      ensures && ps[i].post.is_published
        && (topicId.None? || topicId.value == "" || ps[i].post.topic_id == topicId)
        && exists q :: q in t.posts && q == ps[i].post.(likes_count := q.likes_count, comments_count := q.comments_count)
    {
      var q := window[i];
      assert q in all;
      assert q in matching;
      assert q == ps[i].post.(likes_count := q.likes_count, comments_count := q.comments_count);
    }
    forall i, j | 0 <= i < j < |ps| ensures ps[i].post.created_at >= ps[j].post.created_at {
      assert window[i] == all[from + i] && window[j] == all[from + j];
      assert NewerOrSame(all[from + i], all[from + j]);
    }
  }

  /** Every post on a page is a published post of the store, in the topic
      asked for, with only its counters changed, and the page is newest
      first. */
  lemma FetchPostsContents(t: Tables, caller: Option<UserId>, topicId: Option<TopicId>,
                           page: int, pageSize: int, f: ListingFaults)
    requires page >= 1 && pageSize >= 1 && f.query.None?
    requires First(page, pageSize) <= |Listing(t.posts, topicId)|
    ensures var ps := FetchPosts(t, caller, topicId, page, pageSize, f).value.posts;
      && (forall i :: 0 <= i < |ps| ==>
            && ps[i].post.is_published
            && (topicId.None? || topicId.value == "" || ps[i].post.topic_id == topicId)
            && exists q :: q in t.posts && q == ps[i].post.(likes_count := q.likes_count, comments_count := q.comments_count))
      && (forall i, j :: 0 <= i < j < |ps| ==> ps[i].post.created_at >= ps[j].post.created_at)
  {
    PageBounds(page, pageSize);
    ListingPageContents(t, caller, topicId, First(page, pageSize), Last(page, pageSize), f);
  }

  /** The counters and the liked flag: each count is that of the tables, or
      0 when its query fails; `isLiked` holds exactly when a caller is
      signed in, the lookup succeeds and the caller has a like row for it.
      The stored counters are never used. */
  lemma FetchPostsCounters(t: Tables, caller: Option<UserId>, topicId: Option<TopicId>,
                           page: int, pageSize: int, f: ListingFaults, i: nat)
    requires page >= 1 && pageSize >= 1 && f.query.None?
    requires First(page, pageSize) <= |Listing(t.posts, topicId)|
    requires i < |FetchPosts(t, caller, topicId, page, pageSize, f).value.posts|
    ensures var lp := FetchPosts(t, caller, topicId, page, pageSize, f).value.posts[i];
      && lp.post.likes_count == (if lp.post.id in f.likeCounts then 0 else LikeCount(t.likes, lp.post.id))
      && lp.post.comments_count == (if lp.post.id in f.commentCounts then 0 else CommentCount(t.comments, lp.post.id))
      && (lp.isLiked <==> caller.Some? && !f.likedLookup && Like(lp.post.id, caller.value) in t.likes)
  {
    PageBounds(page, pageSize);
  }

  /** Nobody signed in: nothing is liked. */
  lemma FetchPostsAnonymous(t: Tables, topicId: Option<TopicId>, page: int, pageSize: int, f: ListingFaults, i: nat)
    requires page >= 1 && pageSize >= 1 && f.query.None?
    requires First(page, pageSize) <= |Listing(t.posts, topicId)|
    requires i < |FetchPosts(t, None, topicId, page, pageSize, f).value.posts|
    ensures !FetchPosts(t, None, topicId, page, pageSize, f).value.posts[i].isLiked
  {
    PageBounds(page, pageSize);
  }

  /** With distinct post ids, two different pages share no post. */
  lemma FetchPostsPagesDisjoint(t: Tables, caller: Option<UserId>, topicId: Option<TopicId>,
                                p1: int, p2: int, pageSize: int, f1: ListingFaults, f2: ListingFaults)
    requires 1 <= p1 < p2 && pageSize >= 1
    requires f1.query.None? && f2.query.None?
    requires First(p1, pageSize) <= |Listing(t.posts, topicId)| && First(p2, pageSize) <= |Listing(t.posts, topicId)|
    requires DistinctBy(t.posts, (p: Post) => p.id)
    ensures var a := FetchPosts(t, caller, topicId, p1, pageSize, f1).value.posts;
      var b := FetchPosts(t, caller, topicId, p2, pageSize, f2).value.posts;
      forall i, j :: 0 <= i < |a| && 0 <= j < |b| ==> a[i].post.id != b[j].post.id
  {
    var key := (p: Post) => p.id;
    var all := Listing(t.posts, topicId);
    DistinctByFilter(t.posts, InListing(topicId), key);
    DistinctByPermutation(Filter(t.posts, InListing(topicId)), all, key);
    PageBounds(p1, pageSize);
    PageBounds(p2, pageSize);
    PagesApart(p1, p2, pageSize);
    var w1, w2 := Range(all, First(p1, pageSize), Last(p1, pageSize)), Range(all, First(p2, pageSize), Last(p2, pageSize));
    RangesDisjoint(all, key, First(p1, pageSize), Last(p1, pageSize), First(p2, pageSize), Last(p2, pageSize));
    var a := ListingPage(t, caller, topicId, First(p1, pageSize), Last(p1, pageSize), f1);
    var b := ListingPage(t, caller, topicId, First(p2, pageSize), Last(p2, pageSize), f2);
    assert FetchPosts(t, caller, topicId, p1, pageSize, f1).value.posts == a;
    assert FetchPosts(t, caller, topicId, p2, pageSize, f2).value.posts == b;
    forall i, j | 0 <= i < |a| && 0 <= j < |b| ensures a[i].post.id != b[j].post.id {
      assert a[i].post.id == w1[i].id && b[j].post.id == w2[j].id;
    }
  }

  /** Every post of the listing is on the page whose bounds hold its
      position, at its offset from the page's start. */
  lemma FetchPostsPagesCover(t: Tables, caller: Option<UserId>, topicId: Option<TopicId>,
                             page: int, pageSize: int, f: ListingFaults, k: nat)
    requires page >= 1 && pageSize >= 1 && f.query.None?
    requires k < |Listing(t.posts, topicId)|
    requires First(page, pageSize) <= k <= Last(page, pageSize)
    ensures var ps := FetchPosts(t, caller, topicId, page, pageSize, f).value.posts;
      var o := k - First(page, pageSize);
      0 <= o < |ps| && ps[o].post.id == Listing(t.posts, topicId)[k].id
  {
    PageBounds(page, pageSize);
    var all := Listing(t.posts, topicId);
    var from, to := First(page, pageSize), Last(page, pageSize);
    var ps := ListingPage(t, caller, topicId, from, to, f);
    assert FetchPosts(t, caller, topicId, page, pageSize, f).value.posts == ps;
    var o := k - from;
    assert Range(all, from, to)[o] == all[k];
    assert ps[o] == Decorate(all[k], t, caller, f);
  }

  // ---------------------------------------------------------------------
  // fetchPostById

  const PostMissing := "게시글을 찾을 수 없습니다: "

  /** The rows `.eq("id", postId).eq("is_published", true)` selects. */
  function PublishedWithId(postId: PostId): Post -> bool {
    (p: Post) => p.id == postId && p.is_published
  }

  /** The caller's like rows for a post. */
  function LikeBy(postId: PostId, user: UserId): Like -> bool {
    (l: Like) => l == Like(postId, user)
  }

  /** What can go wrong reading one post. */
  datatype PostFaults = PostFaults(
    query: Option<string>,
    likeCount: bool,
    commentCount: bool,
    likedLookup: bool)

  const NoPostFaults := PostFaults(None, false, false, false)

  /** `fetchPostById`: the single published post with that id, its counters
      recomputed, and whether the caller's like lookup finds exactly one
      row. */
  function FetchPostById(t: Tables, caller: Option<UserId>, postId: PostId, f: PostFaults): (r: Result<ListedPost, string>)
    ensures f.query.Some? ==> r == Err(PostMissing + f.query.value)
    ensures f.query.None? ==> (r.Ok? <==> Count(t.posts, PublishedWithId(postId)) == 1)
    ensures r.Ok? ==> r.value.post.id == postId && r.value.post.is_published
    ensures r.Ok? ==> r.value.post.likes_count == (if f.likeCount then 0 else LikeCount(t.likes, postId))
    ensures r.Ok? ==> r.value.post.comments_count == (if f.commentCount then 0 else CommentCount(t.comments, postId))
    ensures r.Ok? ==> (r.value.isLiked <==>
      caller.Some? && !f.likedLookup && Count(t.likes, LikeBy(postId, caller.value)) == 1)
  {
    var found := Filter(t.posts, PublishedWithId(postId));
    if f.query.Some? then Err(PostMissing + f.query.value)
    else if |found| != 1 then Err(PostMissing + NotSingleRow)
    else
      assert found[0] in found;
      Ok(ListedPost(
        WithCounts(found[0], t, f.likeCount, f.commentCount),
        caller.Some? && !f.likedLookup && Count(t.likes, LikeBy(postId, caller.value)) == 1))
  }

  /** The number of rows equal to `x` is its multiplicity. */
  lemma {:induction false} CountLikeBy(likes: seq<Like>, postId: PostId, user: UserId)
    ensures Count(likes, LikeBy(postId, user)) == multiset(likes)[Like(postId, user)]
  {
    if likes != [] {
      assert likes == [likes[0]] + likes[1..];
      CountLikeBy(likes[1..], postId, user);
    }
  }

  /** With at most one like per post and user, "exactly one row" and "a row
      exists" agree, so the detail page and the listing report the same
      liked flag. */
  lemma SingleLikeIffLiked(likes: seq<Like>, postId: PostId, user: UserId)
    requires DistinctBy(likes, (l: Like) => l)
    ensures Count(likes, LikeBy(postId, user)) == 1 <==> Like(postId, user) in likes
  {
    CountLikeBy(likes, postId, user);
    if Like(postId, user) in likes {
      DistinctByMultiplicity(likes, (l: Like) => l, Like(postId, user));
    }
  }

  /** A post on a listing page, read again by its id with no failures,
      comes back exactly as listed. */
  lemma ListedPostReadsBack(t: Tables, caller: Option<UserId>, topicId: Option<TopicId>,
                            page: int, pageSize: int, i: nat)
    requires page >= 1 && pageSize >= 1
    requires First(page, pageSize) <= |Listing(t.posts, topicId)|
    requires DistinctBy(t.posts, (p: Post) => p.id)
    requires DistinctBy(t.likes, (l: Like) => l)
    requires i < |FetchPosts(t, caller, topicId, page, pageSize, NoListingFaults).value.posts|
    ensures var lp := FetchPosts(t, caller, topicId, page, pageSize, NoListingFaults).value.posts[i];
      FetchPostById(t, caller, lp.post.id, NoPostFaults) == Ok(lp)
  {
    PageBounds(page, pageSize);
    var all := Listing(t.posts, topicId);
    var q := Range(all, First(page, pageSize), Last(page, pageSize))[i];
    assert q in all;
    SameMembers(all, Filter(t.posts, InListing(topicId)));
    var lp := FetchPosts(t, caller, topicId, page, pageSize, NoListingFaults).value.posts[i];
    assert lp == Decorate(q, t, caller, NoListingFaults);
    FilterSingleton(t.posts, (p: Post) => p.id, PublishedWithId(q.id), q);
    var liked := caller.Some? && Like(q.id, caller.value) in t.likes;
    if caller.Some? {
      SingleLikeIffLiked(t.likes, q.id, caller.value);
    }
    assert FetchPostById(t, caller, q.id, NoPostFaults) == Ok(ListedPost(WithCounts(q, t, false, false), liked));
  }

  // ---------------------------------------------------------------------
  // fetchComments

  const CommentsFailed := "댓글을 불러오는데 실패했습니다: "

  /** A top-level comment with its direct replies. */
  datatype Thread = Thread(comment: Comment, replies: seq<Comment>)

  /** `.order("created_at", { ascending: true })`. */
  function OlderOrSame(a: Comment, b: Comment): bool { a.created_at <= b.created_at }

  lemma OlderOrSameTotalPreorder()
    ensures TotalPreorder(OlderOrSame)
  {
  }

  /** The post's top-level comments that are not soft-deleted. */
  function TopLevelOf(postId: PostId): Comment -> bool {
    (c: Comment) => c.post_id == postId && !c.is_deleted && c.parent_id.None?
  }

  /** The replies to one comment that are not soft-deleted. */
  function RepliesTo(id: CommentId): Comment -> bool {
    (c: Comment) => c.parent_id == Some(id) && !c.is_deleted
  }

  /** A comment's live replies, oldest first. */
  function Replies(comments: seq<Comment>, id: CommentId): (r: seq<Comment>)
    ensures multiset(r) == multiset(Filter(comments, RepliesTo(id)))
  {
    Sort(Filter(comments, RepliesTo(id)), OlderOrSame)
  }

  /** The post's live top-level comments, oldest first. */
  function TopLevel(comments: seq<Comment>, postId: PostId): (r: seq<Comment>)
    ensures multiset(r) == multiset(Filter(comments, TopLevelOf(postId)))
  {
    Sort(Filter(comments, TopLevelOf(postId)), OlderOrSame)
  }

  /** One top-level comment with the replies its lookup found. */
  function ThreadOf(c: Comment, comments: seq<Comment>, failedReplies: set<CommentId>): Thread {
    Thread(c, if c.id in failedReplies then [] else Replies(comments, c.id))
  }

  /** `fetchComments`: the post's live top-level comments, oldest first,
      each with its live replies, oldest first; a failed replies lookup
      gives that comment no replies. */
  function FetchComments(comments: seq<Comment>, postId: PostId, fault: Option<string>,
                         failedReplies: set<CommentId>): (r: Result<seq<Thread>, string>)
    ensures fault.Some? ==> r == Err(CommentsFailed + fault.value)
    ensures fault.None? ==> r.Ok? && |r.value| == Count(comments, TopLevelOf(postId))
    ensures r.Ok? ==> forall i :: 0 <= i < |r.value| && r.value[i].comment.id in failedReplies ==> r.value[i].replies == []
  {
    if fault.Some? then Err(CommentsFailed + fault.value)
    else
      var tops := TopLevel(comments, postId);
      Ok(seq(|tops|, i requires 0 <= i < |tops| => ThreadOf(tops[i], comments, failedReplies)))
  }

  /** The threads hold exactly the post's live top-level comments, oldest
      first. */
  lemma FetchCommentsTopLevel(comments: seq<Comment>, postId: PostId, failedReplies: set<CommentId>)
    ensures var ths := FetchComments(comments, postId, None, failedReplies).value;
      && (forall i :: 0 <= i < |ths| ==>
            ths[i].comment in comments && ths[i].comment.post_id == postId &&
            !ths[i].comment.is_deleted && ths[i].comment.parent_id.None?)
      && (forall c :: c in comments && c.post_id == postId && !c.is_deleted && c.parent_id.None? ==>
            exists i :: 0 <= i < |ths| && ths[i].comment == c)
      && (forall i, j :: 0 <= i < j < |ths| ==> ths[i].comment.created_at <= ths[j].comment.created_at)
  {
    var live := Filter(comments, TopLevelOf(postId));
    var tops := TopLevel(comments, postId);
    var ths := FetchComments(comments, postId, None, failedReplies).value;
    SameMembers(tops, live);
    OlderOrSameTotalPreorder();
    SortSorted(live, OlderOrSame);
    forall i | 0 <= i < |ths|
      ensures ths[i].comment in comments && ths[i].comment.post_id == postId &&
              !ths[i].comment.is_deleted && ths[i].comment.parent_id.None?
    {
      assert ths[i].comment == tops[i];
      assert tops[i] in live;
    }
    forall c | c in comments && c.post_id == postId && !c.is_deleted && c.parent_id.None?
      ensures exists i :: 0 <= i < |ths| && ths[i].comment == c
    {
      assert c in live;
      var i :| 0 <= i < |tops| && tops[i] == c;
      assert ths[i].comment == c;
    }
    forall i, j | 0 <= i < j < |ths| ensures ths[i].comment.created_at <= ths[j].comment.created_at {
      assert ths[i].comment == tops[i] && ths[j].comment == tops[j];
      assert OlderOrSame(tops[i], tops[j]);
    }
  }

  /** A comment's replies are exactly its live direct replies, oldest
      first. */
  lemma RepliesLiveSorted(comments: seq<Comment>, id: CommentId)
    ensures var r := Replies(comments, id);
      && (forall c :: c in r <==> c in comments && c.parent_id == Some(id) && !c.is_deleted)
      && (forall a, b :: 0 <= a < b < |r| ==> r[a].created_at <= r[b].created_at)
  {
    var r := Replies(comments, id);
    var live := Filter(comments, RepliesTo(id));
    SameMembers(r, live);
    OlderOrSameTotalPreorder();
    SortSorted(live, OlderOrSame);
    forall a, b | 0 <= a < b < |r| ensures r[a].created_at <= r[b].created_at {
      assert OlderOrSame(r[a], r[b]);
    }
  }

  /** Unless its lookup failed, a thread carries exactly the live direct
      replies of its comment, oldest first. */
  lemma FetchCommentsReplies(comments: seq<Comment>, postId: PostId, failedReplies: set<CommentId>, i: nat)
    requires i < |FetchComments(comments, postId, None, failedReplies).value|
    ensures var th := FetchComments(comments, postId, None, failedReplies).value[i];
      th.comment.id !in failedReplies ==>
        && (forall c :: c in th.replies <==> c in comments && c.parent_id == Some(th.comment.id) && !c.is_deleted)
        && (forall a, b :: 0 <= a < b < |th.replies| ==> th.replies[a].created_at <= th.replies[b].created_at)
  {
    var tops := TopLevel(comments, postId);
    var th := FetchComments(comments, postId, None, failedReplies).value[i];
    assert th == ThreadOf(tops[i], comments, failedReplies);
    RepliesLiveSorted(comments, th.comment.id);
  }

  /** A soft-deleted comment appears nowhere in the tree. */
  lemma FetchCommentsHidesDeleted(comments: seq<Comment>, postId: PostId, failedReplies: set<CommentId>, c: Comment, i: nat)
    requires c.is_deleted
    requires i < |FetchComments(comments, postId, None, failedReplies).value|
    ensures var th := FetchComments(comments, postId, None, failedReplies).value[i];
      th.comment != c && c !in th.replies
  {
    FetchCommentsTopLevel(comments, postId, failedReplies);
    FetchCommentsReplies(comments, postId, failedReplies, i);
  }
}

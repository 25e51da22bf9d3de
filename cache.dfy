/** The query hooks of `src/hooks/use-posts.ts`: the key each query is
    cached under, and what each mutation's `onSuccess` does to the shared
    query cache. Keys are sequences of parts; `invalidateQueries` and
    `removeQueries` select the entries whose key starts with the given
    one. */
module QueryCache {
  import opened Wrappers

  /** One element of a query key. */
  datatype KeyPart = Str(s: string) | Num(n: int) | Null | Undefined

  type Key = seq<KeyPart>

  /** A cached entry is fresh until invalidated; an entry not in the cache
      is absent. */
  datatype Status = Fresh | Stale

  /** `topicId?: string | null` as it appears in a key. */
  function TopicPart(topicId: Option<Option<string>>): (k: KeyPart)
    ensures topicId.None? ==> k == Undefined
    ensures topicId == Some(None) ==> k == Null
    ensures topicId.Some? && topicId.value.Some? ==> k == Str(topicId.value.value)
  {
    match topicId
    case None => Undefined
    case Some(None) => Null
    case Some(Some(id)) => Str(id)
  }

  const Topics: Key := [Str("topics")]
  const Posts: Key := [Str("posts")]
  const PostFamily: Key := [Str("post")]
  const Comments: Key := [Str("comments")]

  /** `usePosts`: `["posts", topicId, page, pageSize]`, page 1 and ten posts
      per page unless given. */
  function PostsKey(topicId: Option<Option<string>>, page: Option<int>, pageSize: Option<int>): (k: Key)
    ensures |k| == 4 && Posts <= k
    ensures k[1] == TopicPart(topicId)
    ensures k[2] == Num(if page.Some? then page.value else 1)
    ensures k[3] == Num(if pageSize.Some? then pageSize.value else 10)
  {
    Posts + [TopicPart(topicId), Num(page.GetOr(1)), Num(pageSize.GetOr(10))]
  }

  /** The key as the cache hashes it: `JSON.stringify` writes an
      `undefined` element of an array as `null`, and entries are told
      apart by that hash. */
  function Hashed(k: Key): (h: Key)
    ensures |h| == |k|
    ensures forall i :: 0 <= i < |h| ==> h[i] != Undefined
    ensures forall i :: 0 <= i < |k| && k[i] != Undefined ==> h[i] == k[i]
  {
    if k == [] then []
    else [if k[0] == Undefined then Null else k[0]] + Hashed(k[1..])
  }

  /** A list query with no topic and one with a null topic have different
      keys but share one cache entry. */
  lemma AbsentAndNullTopicShareEntry(page: Option<int>, pageSize: Option<int>)
    ensures PostsKey(None, page, pageSize) != PostsKey(Some(None), page, pageSize)
    ensures Hashed(PostsKey(None, page, pageSize)) == Hashed(PostsKey(Some(None), page, pageSize))
  {
  }

  /** A query: its key and whether it runs. */
  datatype Query = Query(key: Key, enabled: bool)

  /** `usePost(postId)`: `["post", postId]`, run only for a non-empty id. */
  function PostQuery(postId: string): (q: Query)
    ensures q.key == PostFamily + [Str(postId)]
    ensures q.enabled <==> postId != ""
  {
    Query(PostFamily + [Str(postId)], postId != "")
  }

  /** `useComments(postId)`: `["comments", postId]`, run only for a
      non-empty id. */
  function CommentsQuery(postId: string): (q: Query)
    ensures q.key == Comments + [Str(postId)]
    ensures q.enabled <==> postId != ""
  {
    Query(Comments + [Str(postId)], postId != "")
  }

  /** The first part of a key names its family; the families `posts`,
      `post`, `comments` and `topics` never share an entry. */
  lemma FamiliesDisjoint(k: Key)
    ensures !(Posts <= k && PostFamily <= k)
    ensures !(Posts <= k && Comments <= k)
    ensures !(PostFamily <= k && Comments <= k)
    ensures !(Topics <= k && (Posts <= k || PostFamily <= k || Comments <= k))
  {
    if |k| > 0 {
      assert Posts <= k ==> k[0] == Str("posts");
      assert PostFamily <= k ==> k[0] == Str("post");
      assert Comments <= k ==> k[0] == Str("comments");
      assert Topics <= k ==> k[0] == Str("topics");
      assert "posts" != "post" by {
        assert |"posts"| != |"post"|;
      }
    }
  }

  /** Every key `usePosts` builds is in the `posts` family and in no other. */
  lemma PostsKeyFamily(topicId: Option<Option<string>>, page: Option<int>, pageSize: Option<int>)
    ensures var k := PostsKey(topicId, page, pageSize);
      Posts <= k && !(PostFamily <= k) && !(Comments <= k) && !(Topics <= k)
  {
    FamiliesDisjoint(PostsKey(topicId, page, pageSize));
  }

  /** `invalidateQueries({ queryKey: prefix })`: every entry under the
      prefix becomes stale; nothing is added or dropped. */
  function Invalidated(entries: map<Key, Status>, prefix: Key): (r: map<Key, Status>)
    ensures r.Keys == entries.Keys
    ensures forall k :: k in r ==> (r[k] == Fresh <==> entries[k] == Fresh && !(prefix <= k))
  {
    map k | k in entries :: if prefix <= k then Stale else entries[k]
  }

  /** `removeQueries({ queryKey: prefix })`: the entries under the prefix
      are dropped and the rest are kept as they are. */
  function Removed(entries: map<Key, Status>, prefix: Key): (r: map<Key, Status>)
    ensures r.Keys <= entries.Keys
    ensures forall k :: k in r ==> !(prefix <= k) && r[k] == entries[k]
    ensures forall k :: k in entries && !(prefix <= k) ==> k in r
  {
    map k | k in entries && !(prefix <= k) :: entries[k]
  }

  /** Invalidating twice is invalidating once. */
  lemma InvalidatedIdempotent(entries: map<Key, Status>, prefix: Key)
    ensures Invalidated(Invalidated(entries, prefix), prefix) == Invalidated(entries, prefix)
  {
  }

  /** Removing twice is removing once. */
  lemma RemovedIdempotent(entries: map<Key, Status>, prefix: Key)
    ensures Removed(Removed(entries, prefix), prefix) == Removed(entries, prefix)
  {
  }

  /** After a removal nothing under the prefix is left to invalidate. */
  lemma InvalidateAfterRemove(entries: map<Key, Status>, prefix: Key)
    ensures Invalidated(Removed(entries, prefix), prefix) == Removed(entries, prefix)
  {
  }

  /** The order of two invalidations does not matter, so the mutations may
      list their prefixes in any order. */
  lemma InvalidationsCommute(entries: map<Key, Status>, p: Key, q: Key)
    ensures Invalidated(Invalidated(entries, p), q) == Invalidated(Invalidated(entries, q), p)
  {
  }

  /** Invalidating the entries under one prefix, then removing those under
      another, is removing first and invalidating after. */
  lemma RemoveAndInvalidateCommute(entries: map<Key, Status>, p: Key, q: Key)
    ensures Removed(Invalidated(entries, p), q) == Invalidated(Removed(entries, q), p)
  {
  }

  // What each `onSuccess` leaves in the cache.

  function AfterToggleLike(entries: map<Key, Status>): map<Key, Status> {
    Invalidated(Invalidated(entries, Posts), PostFamily)
  }

  function AfterCreatePost(entries: map<Key, Status>): map<Key, Status> {
    Invalidated(entries, Posts)
  }

  function AfterDeletePost(entries: map<Key, Status>, postId: string): map<Key, Status> {
    Invalidated(Removed(entries, PostFamily + [Str(postId)]), Posts)
  }

  function AfterCreateComment(entries: map<Key, Status>, postId: string): map<Key, Status> {
    Invalidated(Invalidated(Invalidated(entries, Comments + [Str(postId)]), PostFamily + [Str(postId)]), Posts)
  }

  function AfterUpdateComment(entries: map<Key, Status>, postId: string): map<Key, Status> {
    Invalidated(entries, Comments + [Str(postId)])
  }

  function AfterDeleteComment(entries: map<Key, Status>): map<Key, Status> {
    Invalidated(Invalidated(entries, Comments), Posts)
  }

  /** A like marks every list and every single-post entry stale and
      leaves the others as they were. */
  lemma ToggleLikeEffect(entries: map<Key, Status>)
    ensures var r := AfterToggleLike(entries);
      && r.Keys == entries.Keys
      && forall k :: k in r ==> r[k] == (if Posts <= k || PostFamily <= k then Stale else entries[k])
  {
  }

  /** A new post marks the lists stale and nothing else. */
  lemma CreatePostEffect(entries: map<Key, Status>)
    ensures var r := AfterCreatePost(entries);
      && r.Keys == entries.Keys
      && (forall k :: k in r && Posts <= k ==> r[k] == Stale)
      && (forall k :: k in r && !(Posts <= k) ==> r[k] == entries[k])
  {
  }

  /** Deleting a post drops its own entry, marks the lists stale and keeps
      every other entry. */
  lemma DeletePostEffect(entries: map<Key, Status>, postId: string)
    ensures var r := AfterDeletePost(entries, postId);
      && PostQuery(postId).key !in r
      && (forall k :: k in r <==> k in entries && !(PostFamily + [Str(postId)] <= k))
      && (forall k :: k in r ==> r[k] == (if Posts <= k then Stale else entries[k]))
  {
  }

  /** A new comment marks the post's comments, the post and the lists
      stale. */
  lemma CreateCommentEffect(entries: map<Key, Status>, postId: string)
    ensures var r := AfterCreateComment(entries, postId);
      && r.Keys == entries.Keys
      && forall k :: k in r ==>
           r[k] == (if CommentsQuery(postId).key <= k || PostQuery(postId).key <= k || Posts <= k
                    then Stale else entries[k])
  {
  }

  /** An edited comment marks only its post's comments stale. */
  lemma UpdateCommentEffect(entries: map<Key, Status>, postId: string)
    ensures var r := AfterUpdateComment(entries, postId);
      && r.Keys == entries.Keys
      && forall k :: k in r && !(CommentsQuery(postId).key <= k) ==> r[k] == entries[k]
  {
  }

  /** A deleted comment marks every comment list and every post list
      stale, but no single-post entry. */
  lemma DeleteCommentSparesPosts(entries: map<Key, Status>)
    ensures var r := AfterDeleteComment(entries);
      && r.Keys == entries.Keys
      && (forall k :: k in r && (Comments <= k || Posts <= k) ==> r[k] == Stale)
      && (forall k :: k in r && PostFamily <= k ==> r[k] == entries[k])
  {
    forall k | k in entries && PostFamily <= k
      ensures !(Comments <= k) && !(Posts <= k)
    {
      FamiliesDisjoint(k);
    }
  }

  /** The shared query cache. */
  class Cache {
    var entries: map<Key, Status>

    constructor ()
      ensures entries == map[]
    {
      entries := map[];
    }

    /** A query that has loaded its data. */
    method Store(key: Key)
      modifies this
      ensures entries == old(entries)[key := Fresh]
    {
      entries := entries[key := Fresh];
    }

    method Invalidate(prefix: Key)
      modifies this
      ensures entries == Invalidated(old(entries), prefix)
    {
      entries := Invalidated(entries, prefix);
    }

    method Remove(prefix: Key)
      modifies this
      ensures entries == Removed(old(entries), prefix)
    {
      entries := Removed(entries, prefix);
    }

    /** `useToggleLike`'s `onSuccess`. */
    method OnToggleLike()
      modifies this
      ensures entries == AfterToggleLike(old(entries))
    {
      Invalidate(Posts);
      Invalidate(PostFamily);
    }

    /** `useCreatePost`'s `onSuccess`. */
    method OnCreatePost()
      modifies this
      ensures entries == AfterCreatePost(old(entries))
    {
      Invalidate(Posts);
    }

    /** `useDeletePost`'s `onSuccess`. */
    method OnDeletePost(postId: string)
      modifies this
      ensures entries == AfterDeletePost(old(entries), postId)
    {
      Remove(PostFamily + [Str(postId)]);
      Invalidate(Posts);
    }

    /** `useCreateComment`'s `onSuccess`. */
    method OnCreateComment(postId: string)
      modifies this
      ensures entries == AfterCreateComment(old(entries), postId)
    {
      Invalidate(Comments + [Str(postId)]);
      Invalidate(PostFamily + [Str(postId)]);
      Invalidate(Posts);
    }

    /** `useUpdateComment`'s `onSuccess`, given the updated comment's post. */
    method OnUpdateComment(postId: string)
      modifies this
      ensures entries == AfterUpdateComment(old(entries), postId)
    {
      Invalidate(Comments + [Str(postId)]);
    }

    /** `useDeleteComment`'s `onSuccess`. */
    method OnDeleteComment()
      modifies this
      ensures entries == AfterDeleteComment(old(entries))
    {
      Invalidate(Comments);
      Invalidate(Posts);
    }
  }
}

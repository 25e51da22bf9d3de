/** The rows of the remote store (`posts`, `likes`, `comments`, `topics`)
    and the browser `File` objects the forms handle. Timestamps are the
    store's `created_at` values, which compare as instants. */
module Records {
  import opened Wrappers

  type UserId = string
  type PostId = string
  type CommentId = string
  type TopicId = string

  /** A `posts` row. The author and topic that the store embeds with each
      post are not part of this model. */
  datatype Post = Post(
    id: PostId,
    title: string,
    content: string,
    topic_id: Option<TopicId>,
    images: seq<string>,
    likes_count: int,
    comments_count: int,
    is_published: bool,
    created_at: int,
    user_id: UserId)

  /** A `likes` row: one user's like of one post. */
  datatype Like = Like(post_id: PostId, user_id: UserId)

  /** A `comments` row; `parent_id` is the comment it answers, if any. */
  datatype Comment = Comment(
    id: CommentId,
    post_id: PostId,
    user_id: UserId,
    parent_id: Option<CommentId>,
    content: string,
    likes_count: int,
    is_edited: bool,
    is_deleted: bool,
    created_at: int)

  /** A `topics` row. */
  datatype Topic = Topic(
    id: TopicId,
    name: string,
    description: string,
    color: string,
    is_active: bool)

  /** The four tables the application reads, in storage order. */
  datatype Tables = Tables(
    posts: seq<Post>,
    likes: seq<Like>,
    comments: seq<Comment>,
    topics: seq<Topic>)

  /** A browser `File`: its name, size in bytes and MIME type. */
  datatype File = File(name: string, size: nat, mimeType: string)

  /** The five megabytes every image picker allows. */
  const MaxImageBytes: nat := 5 * 1024 * 1024

  /** The most images a post or community post may carry. */
  const MaxImages: nat := 5

  /** What an awaited call can throw: an `Error` with its message, or some
      other value. */
  datatype Thrown = ErrorWith(message: string) | NotAnError

  /** A toast a handler shows. */
  datatype Toast = Success(message: string) | Failure(message: string)
}

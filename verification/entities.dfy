/** The records the FreeFeed API returns and the archive stores, reduced to the fields the
    download pipeline reads. */
module Entities {
  import opened Options

  /** Provider-assigned record ids, URLs and asset paths are strings. */
  type Id = string
  type Url = string
  type Path = string
  type Bytes = seq<bv8>

  /** The `whoami` payload stored in the session file. Only its validity matters to the pipeline. */
  datatype Session = Session(username: string, authToken: string)

  /** A post as a search page lists it: the omission counters say whether comments or likes
      were cut from this response. */
  datatype Post = Post(id: Id, omittedComments: int, omittedLikes: int, body: string)

  /** A user; `profilePictureLargeUrl` may be absent or empty. */
  datatype User = User(id: Id, username: string, profilePictureLargeUrl: Option<Url>)

  datatype Comment = Comment(id: Id, postId: Id, body: string)

  /** An attachment; both URLs may be absent or empty. */
  datatype Attachment = Attachment(id: Id, url: Option<Url>, thumbnailUrl: Option<Url>)

  /** The response of the single-post request with all comments and likes: the post itself
      under `posts`, plus the records it refers to. */
  datatype FullPost = FullPost(posts: Post, users: seq<User>, comments: seq<Comment>, attachments: seq<Attachment>)

  /** What the posts collection holds under an id: a post as a page listed it, or, once
      hydrated, the entire single-post response. */
  datatype PostEntry = Summary(post: Post) | Hydrated(response: FullPost)

  /** One response of the paginated search request. */
  datatype Page = Page(posts: seq<Post>, users: seq<User>, comments: seq<Comment>, attachments: seq<Attachment>, isLastPage: bool)

  /** JavaScript truthiness of an optional string: present and not empty. */
  predicate Truthy(s: Option<string>)
  {
    s.Some? && s.value != ""
  }

  /** A posts-collection entry the hydration pass selects: a listed post with a positive omission
      counter. A hydrated entry is the whole response, which has no top-level counters, so
      `omittedComments > 0` is false for it. */
  predicate NeedsHydration(e: PostEntry)
  {
    e.Summary? && (e.post.omittedComments > 0 || e.post.omittedLikes > 0)
  }

  function PostKey(p: Post): Id { p.id }
  function UserKey(u: User): Id { u.id }
  function CommentKey(c: Comment): Id { c.id }
  function AttachmentKey(a: Attachment): Id { a.id }

  /** The id a posts-collection entry carries itself. */
  function EntryKey(e: PostEntry): Id
  {
    match e
    case Summary(p) => p.id
    case Hydrated(r) => r.posts.id
  }
}

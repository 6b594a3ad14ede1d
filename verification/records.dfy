/**
 * The discussion records (src/models/discussion.model.ts): one datatype per
 * collection, and for each the check its schema makes when a document is
 * created (required fields present, references castable to ids, defaults
 * filled in).
 */
module DiscussionModel {

  /** A document identifier. Fresh identifiers are larger than every existing one. */
  type Id = nat

  datatype Option<T> = None | Some(value: T)

  /**
   * An identifier as it arrives in a request: missing, present but not a
   * well-formed object id, or a well-formed id.
   */
  datatype IdArg = Absent | Malformed | Given(id: Id)

  /** `likes` holds Like ids, `comments` Comment ids, `bookmarks` Bookmark ids. */
  datatype Post = Post(
    author: Id,
    content: string,
    likes: seq<Id>,
    comments: seq<Id>,
    bookmarks: seq<Id>,
    views: nat)

  /** Unlike Post.likes, Comment.likes holds User ids. */
  datatype Comment = Comment(
    author: Id,
    post: Id,
    content: string,
    likes: seq<Id>,
    replies: seq<Id>)

  /** `tags` holds the ids of the users tagged in the reply. */
  datatype Reply = Reply(author: Id, comment: Id, content: string, tags: seq<Id>)

  datatype Like = Like(user: Id, post: Id, comment: Option<Id>)

  datatype Bookmark = Bookmark(user: Id, post: Id)

  datatype View = View(user: Id, post: Id)

  datatype Report = Report(post: Id, user: Id, reason: string, comments: Option<string>)

  /**
   * A reference field marked `required`: the document is accepted only when
   * the value is present and castable to an id.
   */
  predicate RequiredRef(a: IdArg) {
    a.Given?
  }

  /** A string field marked `required` rejects both a missing and an empty value. */
  predicate RequiredText(s: string) {
    s != ""
  }

  /** Creating a Post: author and content are required; arrays start empty and `views` defaults to 0. */
  function NewPost(author: IdArg, content: string): (r: Option<Post>)
    ensures r.Some? <==> author.Given? && content != ""
    ensures r.Some? ==> r.value.author == author.id && r.value.content == content
    ensures r.Some? ==> r.value.views == 0
    ensures r.Some? ==> r.value.likes == [] && r.value.comments == [] && r.value.bookmarks == []
  {
    if RequiredRef(author) && RequiredText(content) then
      Some(Post(author.id, content, [], [], [], 0))
    else
      None
  }

  /** Creating a Comment: author, post and content are required; likes and replies start empty. */
  function NewComment(author: IdArg, post: IdArg, content: string): (r: Option<Comment>)
    ensures r.Some? <==> author.Given? && post.Given? && content != ""
    ensures r.Some? ==> r.value.author == author.id && r.value.post == post.id && r.value.content == content
    ensures r.Some? ==> r.value.likes == [] && r.value.replies == []
  {
    if RequiredRef(author) && RequiredRef(post) && RequiredText(content) then
      Some(Comment(author.id, post.id, content, [], []))
    else
      None
  }

  /** Creating a Reply: author, comment and content are required; no user is tagged. */
  function NewReply(author: IdArg, comment: IdArg, content: string): (r: Option<Reply>)
    ensures r.Some? <==> author.Given? && comment.Given? && content != ""
    ensures r.Some? ==> r.value.author == author.id && r.value.comment == comment.id && r.value.content == content
    ensures r.Some? ==> r.value.tags == []
  {
    if RequiredRef(author) && RequiredRef(comment) && RequiredText(content) then
      Some(Reply(author.id, comment.id, content, []))
    else
      None
  }

  /** Creating a Like: user and post are required, the optional comment is left unset. */
  function NewLike(user: IdArg, post: IdArg): (r: Option<Like>)
    ensures r.Some? <==> user.Given? && post.Given?
    ensures r.Some? ==> r.value.user == user.id && r.value.post == post.id && r.value.comment.None?
  {
    if RequiredRef(user) && RequiredRef(post) then Some(Like(user.id, post.id, None)) else None
  }

  /** Creating a Bookmark: user and post are required. */
  function NewBookmark(user: IdArg, post: IdArg): (r: Option<Bookmark>)
    ensures r.Some? <==> user.Given? && post.Given?
    ensures r.Some? ==> r.value.user == user.id && r.value.post == post.id
  {
    if RequiredRef(user) && RequiredRef(post) then Some(Bookmark(user.id, post.id)) else None
  }

  /** Creating a View: user and post are required. */
  function NewView(user: IdArg, post: IdArg): (r: Option<View>)
    ensures r.Some? <==> user.Given? && post.Given?
    ensures r.Some? ==> r.value.user == user.id && r.value.post == post.id
  {
    if RequiredRef(user) && RequiredRef(post) then Some(View(user.id, post.id)) else None
  }

  /** Creating a Report: post, user and reason are required; the free-text comments are optional. */
  function NewReport(post: IdArg, user: IdArg, reason: string, comments: Option<string>): (r: Option<Report>)
    ensures r.Some? <==> post.Given? && user.Given? && reason != ""
    ensures r.Some? ==> r.value.post == post.id && r.value.user == user.id
    ensures r.Some? ==> r.value.reason == reason && r.value.comments == comments
  {
    if RequiredRef(post) && RequiredRef(user) && RequiredText(reason) then
      Some(Report(post.id, user.id, reason, comments))
    else
      None
  }
}

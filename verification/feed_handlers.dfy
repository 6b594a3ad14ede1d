/**
 * The discussion handlers that change the store
 * (src/controllers/discussion.controller.ts), one transition function each:
 * from the tables and the request to the new tables and the answer. Each runs
 * its checks in the source's order, so the first failing check decides the
 * status, and a record the source inserts before a later check fails stays
 * inserted.
 */
module FeedHandlers {
  import opened DiscussionModel
  import opened Pagination
  import opened FeedState

  /** `communityOnboarding`: marks the caller as a community member under `username`. */
  function CommunityOnboarding(t: Tables, caller: IdArg, username: string): (a: Answer<CommunityInfo>)
    ensures a.result == Err(Unauthorized) <==> caller.Absent?
    ensures a.result == Err(BadRequest) <==> !caller.Absent? && username == ""
    ensures a.result == Err(NotFound) <==> caller.Given? && username != "" && caller.id !in t.members
    ensures a.result.Ok? <==>
              caller.Given? && username != "" && caller.id in t.members && t.members[caller.id].Some?
    ensures a.result.Ok? ==>
              var before := t.members[caller.id].value;
              && a.result.value == before.(joined := true, author := username)
              && a.state == t.(members := t.members[caller.id := Some(a.result.value)])
    ensures a.result.Err? ==> a.state == t
  {
    if caller.Absent? then Answer(t, Err(Unauthorized))
    else if username == "" then Answer(t, Err(BadRequest))
    else
      match FindById(t.members, caller)
      case CastFailure => Answer(t, Err(ServerError))
      case Miss => Answer(t, Err(NotFound))
      case Hit(u) =>
        match t.members[u]
        // `user.communityInfo.joined = ...` on a user without the sub-document throws
        case None => Answer(t, Err(ServerError))
        case Some(info) =>
          var joined := info.(joined := true, author := username);
          Answer(t.(members := t.members[u := Some(joined)]), Ok(joined))
  }

  /** `getPost`: answers the post after counting one more view. */
  function GetPost(t: Tables, postId: IdArg): (a: Answer<Post>)
    ensures a.result == Err(ServerError) <==> postId.Malformed?
    ensures a.result == Err(NotFound) <==> !postId.Malformed? && !(postId.Given? && postId.id in t.posts)
    ensures a.result.Ok? <==> postId.Given? && postId.id in t.posts
    ensures a.result.Ok? ==>
              && a.result.value == t.posts[postId.id].(views := t.posts[postId.id].views + 1)
              && a.state == t.(posts := t.posts[postId.id := a.result.value])
    ensures a.result.Err? ==> a.state == t
  {
    match FindById(t.posts, postId)
    case CastFailure => Answer(t, Err(ServerError))
    case Miss => Answer(t, Err(NotFound))
    case Hit(p) =>
      var post := t.posts[p].(views := t.posts[p].views + 1);
      Answer(t.(posts := t.posts[p := post]), Ok(post))
  }

  /** `createPost`: stores a new post by the caller under a fresh id and answers the id. */
  function CreatePost(t: Tables, caller: IdArg, content: string): (a: Answer<Id>)
    ensures a.result == Err(BadRequest) <==> caller.Absent? || content == ""
    ensures a.result.Ok? <==> caller.Given? && content != ""
    ensures a.result.Ok? ==>
              && a.result.value == t.nextId
              && a.state == t.(posts := t.posts[t.nextId := Post(caller.id, content, [], [], [], 0)],
                               nextId := t.nextId + 1)
    ensures a.result.Err? ==> a.state == t
  {
    if caller.Absent? || content == "" then Answer(t, Err(BadRequest))
    else
      match NewPost(caller, content)
      // the schema rejects an author that does not cast to an id
      case None => Answer(t, Err(ServerError))
      case Some(post) =>
        Answer(t.(posts := t.posts[t.nextId := post], nextId := t.nextId + 1), Ok(t.nextId))
  }

  /** `editPost`: the author replaces the content of a post. */
  function EditPost(t: Tables, caller: IdArg, postId: IdArg, content: string): (a: Answer<Post>)
    ensures a.result == Err(BadRequest) <==> caller.Absent? || content == ""
    ensures a.result == Err(NotFound) <==>
              !caller.Absent? && content != "" && !postId.Malformed? && !(postId.Given? && postId.id in t.posts)
    ensures a.result == Err(Forbidden) <==>
              !caller.Absent? && content != "" && postId.Given? && postId.id in t.posts
              && !IsCaller(caller, t.posts[postId.id].author)
    ensures a.result.Ok? <==>
              content != "" && postId.Given? && postId.id in t.posts && IsCaller(caller, t.posts[postId.id].author)
    ensures a.result.Ok? ==>
              && a.result.value == t.posts[postId.id].(content := content)
              && a.state == t.(posts := t.posts[postId.id := a.result.value])
    ensures a.result.Err? ==> a.state == t
  {
    if caller.Absent? || content == "" then Answer(t, Err(BadRequest))
    else
      match FindById(t.posts, postId)
      case CastFailure => Answer(t, Err(ServerError))
      case Miss => Answer(t, Err(NotFound))
      case Hit(p) =>
        if !IsCaller(caller, t.posts[p].author) then Answer(t, Err(Forbidden))
        else
          var post := t.posts[p].(content := content);
          Answer(t.(posts := t.posts[p := post]), Ok(post))
  }

  /** The ids of the comments on post `p`. */
  function CommentsOf(t: Tables, p: Id): (cs: set<Id>)
    ensures forall c :: c in cs <==> c in t.comments && t.comments[c].post == p
  {
    set c | c in t.comments && t.comments[c].post == p
  }

  /**
   * The deletes `deletePost` runs after its checks: the replies to the
   * post's comments, the comments, and the post's likes, bookmarks, reports
   * and views, then the post itself. Exactly the records that hang off `p`
   * go, and every other record stays as it was.
   */
  function CascadePost(t: Tables, p: Id): (u: Tables)
    ensures u.posts == t.posts - {p}
    ensures forall x :: x in u.comments <==> x in t.comments && t.comments[x].post != p
    ensures forall x :: x in u.replies <==> x in t.replies && t.replies[x].comment !in CommentsOf(t, p)
    ensures forall x :: x in u.likes <==> x in t.likes && t.likes[x].post != p
    ensures forall x :: x in u.bookmarks <==> x in t.bookmarks && t.bookmarks[x].post != p
    ensures forall x :: x in u.reports <==> x in t.reports && t.reports[x].post != p
    ensures forall x :: x in u.views <==> x in t.views && t.views[x].post != p
    ensures forall x :: x in u.comments ==> u.comments[x] == t.comments[x]
    ensures forall x :: x in u.replies ==> u.replies[x] == t.replies[x]
    ensures forall x :: x in u.likes ==> u.likes[x] == t.likes[x]
    ensures forall x :: x in u.bookmarks ==> u.bookmarks[x] == t.bookmarks[x]
    ensures forall x :: x in u.reports ==> u.reports[x] == t.reports[x]
    ensures forall x :: x in u.views ==> u.views[x] == t.views[x]
    ensures u.members == t.members && u.nextId == t.nextId
  {
    Tables(
      t.posts - {p},
      CommentsOff(t.comments, p),
      RepliesOff(t.replies, CommentsOf(t, p)),
      LikesOff(t.likes, p),
      BookmarksOff(t.bookmarks, p),
      ViewsOff(t.views, p),
      ReportsOff(t.reports, p),
      t.members,
      t.nextId)
  }

  /** `Comment.deleteMany({ post })`. */
  function CommentsOff(m: map<Id, Comment>, p: Id): map<Id, Comment> {
    map x | x in m && m[x].post != p :: m[x]
  }

  /** `Reply.deleteMany({ comment: { $in: doomed } })`. */
  function RepliesOff(m: map<Id, Reply>, doomed: set<Id>): map<Id, Reply> {
    map x | x in m && m[x].comment !in doomed :: m[x]
  }

  /** `Like.deleteMany({ post })`. */
  function LikesOff(m: map<Id, Like>, p: Id): map<Id, Like> {
    map x | x in m && m[x].post != p :: m[x]
  }

  /** `Bookmark.deleteMany({ post })`. */
  function BookmarksOff(m: map<Id, Bookmark>, p: Id): map<Id, Bookmark> {
    map x | x in m && m[x].post != p :: m[x]
  }

  /** `View.deleteMany({ post })`. */
  function ViewsOff(m: map<Id, View>, p: Id): map<Id, View> {
    map x | x in m && m[x].post != p :: m[x]
  }

  /** `Report.deleteMany({ post })`. */
  function ReportsOff(m: map<Id, Report>, p: Id): map<Id, Report> {
    map x | x in m && m[x].post != p :: m[x]
  }

  /** `deletePost`: the author deletes a post and everything hanging off it. */
  function DeletePost(t: Tables, caller: IdArg, postId: IdArg): (a: Answer<()>)
    ensures a.result == Err(ServerError) <==>
              postId.Malformed? || (postId.Given? && postId.id in t.posts && caller.Absent?)
    ensures a.result == Err(NotFound) <==> !postId.Malformed? && !(postId.Given? && postId.id in t.posts)
    ensures a.result == Err(Forbidden) <==>
              postId.Given? && postId.id in t.posts && !caller.Absent? && !IsCaller(caller, t.posts[postId.id].author)
    ensures a.result.Ok? <==> postId.Given? && postId.id in t.posts && IsCaller(caller, t.posts[postId.id].author)
    ensures a.result.Ok? ==> a.state == CascadePost(t, postId.id)
    ensures a.result.Err? ==> a.state == t
  {
    match FindById(t.posts, postId)
    case CastFailure => Answer(t, Err(ServerError))
    case Miss => Answer(t, Err(NotFound))
    case Hit(p) =>
      // `userId.toString()` with no caller throws
      if caller.Absent? then Answer(t, Err(ServerError))
      else if !IsCaller(caller, t.posts[p].author) then Answer(t, Err(Forbidden))
      else Answer(CascadePost(t, p), Ok(()))
  }

  /** The ids of the records of kind `k` for the pair (user, post). */
  function RecordsFor(t: Tables, k: Kind, user: Id, post: Id): (s: set<Id>)
    ensures forall x :: x in s <==> x in Records(t, k) && PairOf(t, k, x) == (user, post)
  {
    set x | x in Records(t, k) && PairOf(t, k, x) == (user, post)
  }

  /** `findOne({ user, post })`: the first matching record in insertion order, if any. */
  function FindRecord(t: Tables, k: Kind, user: Id, post: Id): (r: Option<Id>)
    ensures r.None? <==> RecordsFor(t, k, user, post) == {}
    ensures r.Some? ==> r.value in Records(t, k) && PairOf(t, k, r.value) == (user, post)
  {
    var s := RecordsFor(t, k, user, post);
    if s == {} then None else Some(MinOf(s))
  }

  /** Post `p` with its array of kind `k` replaced. */
  function WithArray(p: Post, k: Kind, arr: seq<Id>): (q: Post)
    ensures ArrayOf(q, k) == arr
    ensures forall j :: j != k ==> ArrayOf(q, j) == ArrayOf(p, j)
    ensures k == Likes ==> q == p.(likes := arr)
    ensures k == Bookmarks ==> q == p.(bookmarks := arr)
  {
    if k == Likes then p.(likes := arr) else p.(bookmarks := arr)
  }

  /** The tables without record `x` of kind `k`. */
  function Drop(t: Tables, k: Kind, x: Id): (u: Tables)
    ensures Records(u, k) == Records(t, k) - {x}
    ensures forall y :: y in Records(u, k) ==> PairOf(u, k, y) == PairOf(t, k, y)
    ensures forall j :: j != k ==> Records(u, j) == Records(t, j)
    ensures forall j, y :: j != k && y in Records(t, j) ==> PairOf(u, j, y) == PairOf(t, j, y)
    ensures u.posts == t.posts && u.nextId == t.nextId
    ensures k == Likes ==> u == t.(likes := t.likes - {x})
    ensures k == Bookmarks ==> u == t.(bookmarks := t.bookmarks - {x})
  {
    if k == Likes then t.(likes := t.likes - {x}) else t.(bookmarks := t.bookmarks - {x})
  }

  /** The tables with a new record of kind `k` for (user, post) under the fresh id. */
  function Insert(t: Tables, k: Kind, user: Id, post: Id): (u: Tables)
    ensures Records(u, k) == Records(t, k) + {t.nextId}
    ensures PairOf(u, k, t.nextId) == (user, post)
    ensures forall y :: y in Records(t, k) && y != t.nextId ==> PairOf(u, k, y) == PairOf(t, k, y)
    ensures u.nextId == t.nextId + 1
    ensures forall j :: j != k ==> Records(u, j) == Records(t, j)
    ensures forall j, y :: j != k && y in Records(t, j) ==> PairOf(u, j, y) == PairOf(t, j, y)
    ensures u.posts == t.posts
    ensures k == Likes ==> u == t.(likes := t.likes[t.nextId := Like(user, post, None)], nextId := t.nextId + 1)
    ensures k == Bookmarks ==> u == t.(bookmarks := t.bookmarks[t.nextId := Bookmark(user, post)], nextId := t.nextId + 1)
  {
    if k == Likes then
      t.(likes := t.likes[t.nextId := Like(user, post, None)], nextId := t.nextId + 1)
    else
      t.(bookmarks := t.bookmarks[t.nextId := Bookmark(user, post)], nextId := t.nextId + 1)
  }

  /** What a toggle answers: the post as saved and whether the caller now has a record on it. */
  datatype Toggled = Toggled(post: Post, byUser: bool)

  /**
   * `toggleLikePost` (k = Likes) and `toggleBookmarkPost` (k = Bookmarks):
   * remove the caller's record on the post and filter its id out of the
   * post's array, or create one and append its id to the array.
   */
  function Toggle(t: Tables, k: Kind, caller: IdArg, postId: IdArg): (a: Answer<Toggled>)
    ensures a.result == Err(BadRequest) <==> !postId.Given? || !caller.Given?
    ensures a.result == Err(NotFound) <==> postId.Given? && caller.Given? && postId.id !in t.posts
    ensures a.result.Ok? <==> postId.Given? && caller.Given? && postId.id in t.posts
    ensures a.result.Ok? ==>
              && a.result.value.byUser == (RecordsFor(t, k, caller.id, postId.id) == {})
              && a.state.posts == t.posts[postId.id := a.result.value.post]
    ensures a.result.Err? ==> a.state == t
  {
    if !postId.Given? || !caller.Given? then Answer(t, Err(BadRequest))
    else if postId.id !in t.posts then Answer(t, Err(NotFound))
    else
      var p := postId.id;
      var post := t.posts[p];
      match FindRecord(t, k, caller.id, p)
      case Some(x) =>
        var post' := WithArray(post, k, Without(ArrayOf(post, k), x));
        Answer(Drop(t, k, x).(posts := t.posts[p := post']), Ok(Toggled(post', false)))
      case None =>
        var post' := WithArray(post, k, ArrayOf(post, k) + [t.nextId]);
        Answer(Insert(t, k, caller.id, p).(posts := t.posts[p := post']), Ok(Toggled(post', true)))
  }

  /**
   * `addView`: stores a View for (caller, post), then counts the view on the
   * post. With no such post the View stays stored and the handler fails on
   * the missing document.
   */
  function AddView(t: Tables, caller: IdArg, postId: IdArg): (a: Answer<()>)
    ensures a.result.Ok? <==> caller.Given? && postId.Given? && postId.id in t.posts
    ensures a.result.Err? ==> a.result.status == ServerError
    ensures !(caller.Given? && postId.Given?) ==> a.state == t
    ensures caller.Given? && postId.Given? ==>
              && a.state.views == t.views[t.nextId := View(caller.id, postId.id)]
              && a.state.nextId == t.nextId + 1
              && a.state == t.(views := a.state.views, nextId := a.state.nextId, posts := a.state.posts)
    ensures caller.Given? && postId.Given? && postId.id !in t.posts ==> a.state.posts == t.posts
    ensures a.result.Ok? ==>
              a.state.posts == t.posts[postId.id := t.posts[postId.id].(views := t.posts[postId.id].views + 1)]
  {
    match NewView(caller, postId)
    case None => Answer(t, Err(ServerError))
    case Some(v) =>
      var t1 := t.(views := t.views[t.nextId := v], nextId := t.nextId + 1);
      if v.post !in t1.posts then Answer(t1, Err(ServerError))
      else
        var post := t1.posts[v.post];
        Answer(t1.(posts := t1.posts[v.post := post.(views := post.views + 1)]), Ok(()))
  }

  /**
   * `createComment`: stores the comment, then appends its id to the post's
   * `comments`. With no such post the comment stays stored and the answer is
   * 404.
   */
  function CreateComment(t: Tables, caller: IdArg, postId: IdArg, content: string): (a: Answer<Id>)
    ensures a.result == Err(BadRequest) <==> caller.Absent? || content == ""
    ensures a.result == Err(ServerError) <==> !caller.Absent? && content != "" && !(caller.Given? && postId.Given?)
    ensures a.result == Err(NotFound) <==> caller.Given? && content != "" && postId.Given? && postId.id !in t.posts
    ensures a.result.Ok? <==> caller.Given? && content != "" && postId.Given? && postId.id in t.posts
    ensures a.result.Ok? || a.result == Err(NotFound) ==>
              a.state.comments == t.comments[t.nextId := Comment(caller.id, postId.id, content, [], [])]
              && a.state.nextId == t.nextId + 1
              && a.state == t.(comments := a.state.comments, nextId := a.state.nextId, posts := a.state.posts)
    ensures a.result == Err(NotFound) ==> a.state.posts == t.posts
    ensures a.result.Ok? ==>
              && a.result.value == t.nextId
              && a.state.posts == t.posts[postId.id := t.posts[postId.id].(comments := t.posts[postId.id].comments + [t.nextId])]
    ensures a.result == Err(BadRequest) || a.result == Err(ServerError) ==> a.state == t
  {
    if caller.Absent? || content == "" then Answer(t, Err(BadRequest))
    else
      match NewComment(caller, postId, content)
      case None => Answer(t, Err(ServerError))
      case Some(c) =>
        var id := t.nextId;
        var t1 := t.(comments := t.comments[id := c], nextId := id + 1);
        if c.post !in t1.posts then Answer(t1, Err(NotFound))
        else
          var post := t1.posts[c.post];
          Answer(t1.(posts := t1.posts[c.post := post.(comments := post.comments + [id])]), Ok(id))
  }

  /** The ids of the replies to comment `c`. */
  function RepliesOf(t: Tables, c: Id): (rs: set<Id>)
    ensures forall r :: r in rs <==> r in t.replies && t.replies[r].comment == c
  {
    set r | r in t.replies && t.replies[r].comment == c
  }

  /**
   * `deleteComment`: the author deletes a comment and its replies. The
   * comment's id stays in its post's `comments`.
   */
  function DeleteComment(t: Tables, caller: IdArg, commentId: IdArg): (a: Answer<()>)
    ensures a.result == Err(Unauthorized) <==> caller.Absent?
    ensures a.result == Err(BadRequest) <==> !caller.Absent? && commentId.Absent?
    ensures a.result == Err(ServerError) <==> !caller.Absent? && commentId.Malformed?
    ensures a.result == Err(NotFound) <==> !caller.Absent? && commentId.Given? && commentId.id !in t.comments
    ensures a.result == Err(Forbidden) <==>
              !caller.Absent? && commentId.Given? && commentId.id in t.comments
              && !IsCaller(caller, t.comments[commentId.id].author)
    ensures a.result.Ok? <==>
              commentId.Given? && commentId.id in t.comments && IsCaller(caller, t.comments[commentId.id].author)
    ensures a.result.Ok? ==>
              a.state == t.(comments := t.comments - {commentId.id},
                            replies := t.replies - RepliesOf(t, commentId.id))
    ensures a.result.Err? ==> a.state == t
  {
    if caller.Absent? then Answer(t, Err(Unauthorized))
    else if commentId.Absent? then Answer(t, Err(BadRequest))
    else
      match FindById(t.comments, commentId)
      case CastFailure => Answer(t, Err(ServerError))
      case Miss => Answer(t, Err(NotFound))
      case Hit(c) =>
        if !IsCaller(caller, t.comments[c].author) then Answer(t, Err(Forbidden))
        else Answer(t.(replies := t.replies - RepliesOf(t, c), comments := t.comments - {c}), Ok(()))
  }

  /**
   * `createReply`: stores the reply, then appends its id to the comment's
   * `replies`. With no such comment the reply stays stored and the answer is
   * 404.
   */
  function CreateReply(t: Tables, caller: IdArg, commentId: IdArg, content: string): (a: Answer<Id>)
    ensures a.result == Err(BadRequest) <==> caller.Absent? || content == ""
    ensures a.result == Err(ServerError) <==> !caller.Absent? && content != "" && !(caller.Given? && commentId.Given?)
    ensures a.result == Err(NotFound) <==>
              caller.Given? && content != "" && commentId.Given? && commentId.id !in t.comments
    ensures a.result.Ok? <==> caller.Given? && content != "" && commentId.Given? && commentId.id in t.comments
    ensures a.result.Ok? || a.result == Err(NotFound) ==>
              a.state.replies == t.replies[t.nextId := Reply(caller.id, commentId.id, content, [])]
              && a.state.nextId == t.nextId + 1
              && a.state == t.(replies := a.state.replies, nextId := a.state.nextId, comments := a.state.comments)
    ensures a.result == Err(NotFound) ==> a.state.comments == t.comments
    ensures a.result.Ok? ==>
              && a.result.value == t.nextId
              && a.state.comments == t.comments[commentId.id :=
                   t.comments[commentId.id].(replies := t.comments[commentId.id].replies + [t.nextId])]
    ensures a.result == Err(BadRequest) || a.result == Err(ServerError) ==> a.state == t
  {
    if caller.Absent? || content == "" then Answer(t, Err(BadRequest))
    else
      match NewReply(caller, commentId, content)
      case None => Answer(t, Err(ServerError))
      case Some(r) =>
        var id := t.nextId;
        var t1 := t.(replies := t.replies[id := r], nextId := id + 1);
        if r.comment !in t1.comments then Answer(t1, Err(NotFound))
        else
          var comment := t1.comments[r.comment];
          Answer(t1.(comments := t1.comments[r.comment := comment.(replies := comment.replies + [id])]), Ok(id))
  }

  /**
   * `deleteReply`: the author deletes a reply. Its id stays in the parent
   * comment's `replies`.
   */
  function DeleteReply(t: Tables, caller: IdArg, replyId: IdArg): (a: Answer<()>)
    ensures a.result == Err(ServerError) <==>
              replyId.Malformed? || (replyId.Given? && replyId.id in t.replies && caller.Absent?)
    ensures a.result == Err(NotFound) <==> !replyId.Malformed? && !(replyId.Given? && replyId.id in t.replies)
    ensures a.result == Err(Forbidden) <==>
              replyId.Given? && replyId.id in t.replies && !caller.Absent?
              && !IsCaller(caller, t.replies[replyId.id].author)
    ensures a.result.Ok? <==>
              replyId.Given? && replyId.id in t.replies && IsCaller(caller, t.replies[replyId.id].author)
    ensures a.result.Ok? ==> a.state == t.(replies := t.replies - {replyId.id})
    ensures a.result.Err? ==> a.state == t
  {
    match FindById(t.replies, replyId)
    case CastFailure => Answer(t, Err(ServerError))
    case Miss => Answer(t, Err(NotFound))
    case Hit(r) =>
      if caller.Absent? then Answer(t, Err(ServerError))
      else if !IsCaller(caller, t.replies[r].author) then Answer(t, Err(Forbidden))
      else Answer(t.(replies := t.replies - {r}), Ok(()))
  }

  /** `reportPost`: stores a report; nothing checks that the post exists. */
  function ReportPost(t: Tables, caller: IdArg, postId: IdArg, reason: string, comments: Option<string>): (a: Answer<Id>)
    ensures a.result == Err(BadRequest) <==> caller.Absent? || reason == ""
    ensures a.result.Ok? <==> caller.Given? && postId.Given? && reason != ""
    ensures a.result.Ok? ==>
              && a.result.value == t.nextId
              && a.state == t.(reports := t.reports[t.nextId := Report(postId.id, caller.id, reason, comments)],
                               nextId := t.nextId + 1)
    ensures a.result.Err? ==> a.state == t
  {
    if caller.Absent? || reason == "" then Answer(t, Err(BadRequest))
    else
      match NewReport(postId, caller, reason, comments)
      case None => Answer(t, Err(ServerError))
      case Some(r) =>
        Answer(t.(reports := t.reports[t.nextId := r], nextId := t.nextId + 1), Ok(t.nextId))
  }
}

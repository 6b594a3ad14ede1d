/**
 * The discussion handlers that only read the store
 * (src/controllers/discussion.controller.ts): the cursor-paginated feeds,
 * the per-user lists and the reports of a post.
 */
module FeedQueries {
  import opened DiscussionModel
  import opened Pagination
  import opened Trending
  import opened FeedState

  /** `getAllPosts`: one page of every post, newest first. */
  function AllPosts(t: Tables, cursor: IdArg, limit: nat): (p: Page)
    ensures p == PageOf(t.posts.Keys, cursor, limit)
    ensures |p.items| == Taken(limit, |Below(t.posts.Keys, cursor)|)
    ensures StrictlyDescending(p.items)
    ensures forall x :: x in p.items ==> x in t.posts
    ensures cursor.Given? ==> forall x :: x in p.items ==> x < cursor.id
    ensures CursorIsLast(p)
  {
    PageOf(t.posts.Keys, cursor, limit)
  }

  /**
   * `getTrendingPosts`: one page of the window of newest posts, ranked by
   * score, where the score counts only the comments that still exist.
   */
  function TrendingPosts(t: Tables, cursor: IdArg, limit: nat): (p: Page)
    ensures p == TrendingPage(Populated(t.posts, t.comments), cursor, limit)
    ensures forall x :: x in p.items ==> x in t.posts
    ensures cursor.Given? ==> forall x :: x in p.items ==> x < cursor.id
    ensures Ranked(Populated(t.posts, t.comments), p.items)
    ensures |p.items| == Min(limit, Min(WINDOW_SIZE, |Below(t.posts.Keys, cursor)|))
    ensures var shown := Populated(t.posts, t.comments);
            forall x, y :: x in Window(shown, cursor) && x !in p.items && y in p.items ==> RanksAbove(shown, y, x)
    ensures CursorIsLast(p)
  {
    var shown := Populated(t.posts, t.comments);
    var p := TrendingPage(shown, cursor, limit);
    assert forall x :: x in p.items ==> x in Window(shown, cursor);
    p
  }

  /**
   * A deleted comment's id stays in its post's `comments` but does not
   * count: post 0 keeps the id of deleted comment 5, post 1 has one view,
   * and post 1 comes first.
   */
  lemma DeletedCommentNotCounted()
    ensures var t := Tables(map[0 := Post(7, "a", [], [5], [], 0), 1 := Post(7, "b", [], [], [], 1)],
                            map[], map[], map[], map[], map[], map[], map[], 6);
            TrendingPosts(t, Absent, 1).items == [1]
  {
    var t := Tables(map[0 := Post(7, "a", [], [5], [], 0), 1 := Post(7, "b", [], [], [], 1)],
                    map[], map[], map[], map[], map[], map[], map[], 6);
    var shown := Populated(t.posts, t.comments);
    assert Live([5], map[]) == [];
    assert shown.Keys == {0, 1};
    assert ScoreOf(shown, 0) == 0 && ScoreOf(shown, 1) == 2;
    var w := Window(shown, Absent);
    assert Below(shown.Keys, Absent) == {0, 1};
    assert |w| == 2 && w[0] > w[1] && w[0] in shown && w[1] in shown;
    assert 1 in w;
    var p := TrendingPosts(t, Absent, 1);
    assert |p.items| == 1 && p.items[0] in shown;
    assert !RanksAbove(shown, 0, 1);
    assert p.items == [p.items[0]];
    assert 0 !in p.items;
  }

  function PostsBy(t: Tables, user: Id): (s: set<Id>)
    ensures forall x :: x in s <==> x in t.posts && t.posts[x].author == user
  {
    set x | x in t.posts && t.posts[x].author == user
  }

  function CommentsBy(t: Tables, user: Id): (s: set<Id>)
    ensures forall x :: x in s <==> x in t.comments && t.comments[x].author == user
  {
    set x | x in t.comments && t.comments[x].author == user
  }

  /** `getUserPosts`: one page of the caller's own posts; 400 unless the caller is a well-formed id. */
  function UserPosts(t: Tables, caller: IdArg, cursor: IdArg, limit: nat): (r: Outcome<Page>)
    ensures r.Err? <==> !caller.Given?
    ensures r.Err? ==> r.status == BadRequest
    ensures r.Ok? ==> r.value == PageOf(PostsBy(t, caller.id), cursor, limit)
    ensures r.Ok? ==> forall x :: x in r.value.items ==> x in t.posts && t.posts[x].author == caller.id
    ensures r.Ok? ==> |r.value.items| == Taken(limit, |Below(PostsBy(t, caller.id), cursor)|)
    ensures r.Ok? ==> StrictlyDescending(r.value.items) && CursorIsLast(r.value)
    ensures r.Ok? && cursor.Given? ==> forall x :: x in r.value.items ==> x < cursor.id
  {
    if !caller.Given? then Err(BadRequest) else Ok(PageOf(PostsBy(t, caller.id), cursor, limit))
  }

  /** `getUserComments`: one page of the caller's own comments; 400 unless the caller is a well-formed id. */
  function UserComments(t: Tables, caller: IdArg, cursor: IdArg, limit: nat): (r: Outcome<Page>)
    ensures r.Err? <==> !caller.Given?
    ensures r.Err? ==> r.status == BadRequest
    ensures r.Ok? ==> r.value == PageOf(CommentsBy(t, caller.id), cursor, limit)
    ensures r.Ok? ==> forall x :: x in r.value.items ==> x in t.comments && t.comments[x].author == caller.id
    ensures r.Ok? ==> |r.value.items| == Taken(limit, |Below(CommentsBy(t, caller.id), cursor)|)
    ensures r.Ok? ==> StrictlyDescending(r.value.items) && CursorIsLast(r.value)
    ensures r.Ok? && cursor.Given? ==> forall x :: x in r.value.items ==> x < cursor.id
  {
    if !caller.Given? then Err(BadRequest) else Ok(PageOf(CommentsBy(t, caller.id), cursor, limit))
  }

  function RepliesTo(t: Tables, comment: Id): (s: set<Id>)
    ensures forall x :: x in s <==> x in t.replies && t.replies[x].comment == comment
  {
    set x | x in t.replies && t.replies[x].comment == comment
  }

  /** `getRepliesForComment`: one page of a comment's replies; 400 unless the comment id is well-formed. */
  function RepliesForComment(t: Tables, commentId: IdArg, cursor: IdArg, limit: nat): (r: Outcome<Page>)
    ensures r.Err? <==> !commentId.Given?
    ensures r.Err? ==> r.status == BadRequest
    ensures r.Ok? ==> r.value == PageOf(RepliesTo(t, commentId.id), cursor, limit)
    ensures r.Ok? ==> forall x :: x in r.value.items ==> x in t.replies && t.replies[x].comment == commentId.id
    ensures r.Ok? ==> |r.value.items| == Taken(limit, |Below(RepliesTo(t, commentId.id), cursor)|)
    ensures r.Ok? ==> StrictlyDescending(r.value.items) && CursorIsLast(r.value)
    ensures r.Ok? && cursor.Given? ==> forall x :: x in r.value.items ==> x < cursor.id
  {
    if !commentId.Given? then Err(BadRequest) else Ok(PageOf(RepliesTo(t, commentId.id), cursor, limit))
  }

  /** `getReportsForPost`: the ids of the reports on a post. */
  function ReportsForPost(t: Tables, postId: IdArg): (r: Outcome<set<Id>>)
    ensures r.Err? <==> postId.Malformed?
    ensures r.Err? ==> r.status == ServerError
    ensures r.Ok? ==> forall x :: x in r.value <==> x in t.reports && postId.Given? && t.reports[x].post == postId.id
  {
    match postId
    case Malformed => Err(ServerError)
    // a filter on a missing post id matches no report: every report has one
    case Absent => Ok({})
    case Given(p) => Ok(set x | x in t.reports && t.reports[x].post == p)
  }

  /** The caller's records of kind `k`: their likes or their bookmarks. */
  function RecordsBy(t: Tables, k: Kind, user: Id): (s: set<Id>)
    ensures forall x :: x in s <==> x in Records(t, k) && PairOf(t, k, x).0 == user
  {
    set x | x in Records(t, k) && PairOf(t, k, x).0 == user
  }

  /** The existing posts that the records `ids` of kind `k` point to. */
  function PostsOf(t: Tables, k: Kind, ids: seq<Id>): (s: set<Id>)
    ensures forall p :: p in s <==> p in t.posts && exists x :: x in ids && x in Records(t, k) && PairOf(t, k, x).1 == p
  {
    set x | x in ids && x in Records(t, k) && PairOf(t, k, x).1 in t.posts :: PairOf(t, k, x).1
  }

  /** The existing posts a user has a record of kind `k` on. */
  function PostsMarkedBy(t: Tables, k: Kind, user: Id): (s: set<Id>)
    ensures forall p :: p in s <==> p in t.posts && exists x :: x in Records(t, k) && PairOf(t, k, x) == (user, p)
  {
    set x | x in Records(t, k) && PairOf(t, k, x).0 == user && PairOf(t, k, x).1 in t.posts :: PairOf(t, k, x).1
  }

  /**
   * `getUserLikedPosts` as written: a page of the caller's likes, the posts
   * they point to (newest first, at most `limit`), and as next cursor the id
   * of the last post, although the next request compares it with like ids.
   */
  function LikedPostsAsWritten(t: Tables, caller: IdArg, cursor: IdArg, limit: nat): (r: Outcome<Page>)
    ensures r.Err? <==> !caller.Given?
    ensures r.Err? ==> r.status == BadRequest
    ensures r.Ok? ==> r.value.items == LikedPosts(t, caller, cursor, limit).value.items
    ensures r.Ok? ==> forall x :: x in r.value.items ==> x in PostsMarkedBy(t, Likes, caller.id)
    ensures r.Ok? ==> StrictlyDescending(r.value.items) && CursorIsLast(r.value)
  {
    if !caller.Given? then Err(BadRequest)
    else
      var likes := PageOf(RecordsBy(t, Likes, caller.id), cursor, limit);
      Ok(PageOf(PostsOf(t, Likes, likes.items), Absent, limit))
  }

  /**
   * `getUserLikedPosts` with the next cursor taken from the page of likes,
   * the way `getUserBookmarkedPosts` takes it from its page of bookmarks.
   */
  function LikedPosts(t: Tables, caller: IdArg, cursor: IdArg, limit: nat): (r: Outcome<Page>)
    ensures r.Err? <==> !caller.Given?
    ensures r.Err? ==> r.status == BadRequest
    ensures r.Ok? ==> forall x :: x in r.value.items ==> x in PostsMarkedBy(t, Likes, caller.id)
    ensures r.Ok? ==> StrictlyDescending(r.value.items)
    ensures r.Ok? ==> r.value.nextCursor == PageOf(RecordsBy(t, Likes, caller.id), cursor, limit).nextCursor
  {
    if !caller.Given? then Err(BadRequest)
    else
      var likes := PageOf(RecordsBy(t, Likes, caller.id), cursor, limit);
      Ok(Page(PageOf(PostsOf(t, Likes, likes.items), Absent, limit).items, likes.nextCursor))
  }

  /**
   * `getUserBookmarkedPosts`: a page of the caller's bookmarks, every post
   * they point to (newest first, no limit), and as next cursor the id of the
   * last bookmark.
   */
  function BookmarkedPosts(t: Tables, caller: IdArg, cursor: IdArg, limit: nat): (r: Outcome<Page>)
    ensures r.Err? <==> !caller.Given?
    ensures r.Err? ==> r.status == BadRequest
    ensures r.Ok? ==> forall x :: x in r.value.items ==> x in PostsMarkedBy(t, Bookmarks, caller.id)
    ensures r.Ok? ==> StrictlyDescending(r.value.items)
    ensures r.Ok? ==> r.value.nextCursor == PageOf(RecordsBy(t, Bookmarks, caller.id), cursor, limit).nextCursor
  {
    if !caller.Given? then Err(BadRequest)
    else
      var marks := PageOf(RecordsBy(t, Bookmarks, caller.id), cursor, limit);
      DescendingSorts(PostsOf(t, Bookmarks, marks.items));
      Ok(Page(Descending(PostsOf(t, Bookmarks, marks.items)), marks.nextCursor))
  }
}

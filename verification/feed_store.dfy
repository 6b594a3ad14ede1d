/**
 * The document store as the handlers of
 * src/controllers/discussion.controller.ts change it: one map per
 * collection, updated in place step by step, in the order the handler runs
 * its queries. Each method leaves the store and gives the answer that the
 * matching transition of FeedHandlers describes, and keeps the invariant
 * `Valid`.
 */
module FeedStore {
  import opened DiscussionModel
  import opened FeedState
  import FeedHandlers
  import FeedProps

  class Feed {
    var posts: map<Id, Post>
    var comments: map<Id, Comment>
    var replies: map<Id, Reply>
    var likes: map<Id, Like>
    var bookmarks: map<Id, Bookmark>
    var views: map<Id, View>
    var reports: map<Id, Report>
    var members: map<Id, Option<CommunityInfo>>
    var nextId: Id

    /** The whole store as a value. */
    function Tables(): Tables
      reads this
    {
      FeedState.Tables(posts, comments, replies, likes, bookmarks, views, reports, members, nextId)
    }

    ghost predicate Valid()
      reads this
    {
      Consistent(Tables())
    }

    /** A store with no discussion records yet and the given users. */
    constructor (users: map<Id, Option<CommunityInfo>>)
      ensures Valid()
      ensures Tables() == Empty(users)
    {
      posts, comments, replies := map[], map[], map[];
      likes, bookmarks, views, reports := map[], map[], map[], map[];
      members := users;
      nextId := 0;
      EmptyConsistent(users);
    }

    method CommunityOnboarding(caller: IdArg, username: string) returns (r: Outcome<CommunityInfo>)
      requires Valid()
      modifies this
      ensures Valid()
      ensures Answer(Tables(), r) == FeedHandlers.CommunityOnboarding(old(Tables()), caller, username)
    {
      var user := FindById(members, caller);
      if caller.Absent? {
        r := Err(Unauthorized);
      } else if username == "" {
        r := Err(BadRequest);
      } else if user.CastFailure? {
        r := Err(ServerError);
      } else if user.Miss? {
        r := Err(NotFound);
      } else if members[user.id].None? {
        // the user document has no `communityInfo` to set fields on
        r := Err(ServerError);
      } else {
        var joined := members[user.id].value.(joined := true, author := username);
        members := members[user.id := Some(joined)];
        r := Ok(joined);
      }
      assert Tables() == FeedHandlers.CommunityOnboarding(old(Tables()), caller, username).state;
      FeedProps.CommunityOnboardingKeeps(old(Tables()), caller, username);
    }

    /** `post.views += 1` on the post found. */
    method GetPost(postId: IdArg) returns (r: Outcome<Post>)
      requires Valid()
      modifies this
      ensures Valid()
      ensures Answer(Tables(), r) == FeedHandlers.GetPost(old(Tables()), postId)
    {
      var found := FindById(posts, postId);
      if found.CastFailure? {
        r := Err(ServerError);
      } else if found.Miss? {
        r := Err(NotFound);
      } else {
        var post := posts[found.id];
        post := post.(views := post.views + 1);
        posts := posts[found.id := post];
        r := Ok(post);
      }
      assert Tables() == FeedHandlers.GetPost(old(Tables()), postId).state;
      FeedProps.GetPostKeeps(old(Tables()), postId);
    }

    method CreatePost(caller: IdArg, content: string) returns (r: Outcome<Id>)
      requires Valid()
      modifies this
      ensures Valid()
      ensures Answer(Tables(), r) == FeedHandlers.CreatePost(old(Tables()), caller, content)
    {
      var post := NewPost(caller, content);
      if caller.Absent? || content == "" {
        r := Err(BadRequest);
      } else if post.None? {
        r := Err(ServerError);
      } else {
        var id := nextId;
        posts := posts[id := post.value];
        nextId := nextId + 1;
        r := Ok(id);
      }
      assert Tables() == FeedHandlers.CreatePost(old(Tables()), caller, content).state;
      FeedProps.CreatePostKeeps(old(Tables()), caller, content);
    }

    method EditPost(caller: IdArg, postId: IdArg, content: string) returns (r: Outcome<Post>)
      requires Valid()
      modifies this
      ensures Valid()
      ensures Answer(Tables(), r) == FeedHandlers.EditPost(old(Tables()), caller, postId, content)
    {
      var found := FindById(posts, postId);
      if caller.Absent? || content == "" {
        r := Err(BadRequest);
      } else if found.CastFailure? {
        r := Err(ServerError);
      } else if found.Miss? {
        r := Err(NotFound);
      } else if !IsCaller(caller, posts[found.id].author) {
        r := Err(Forbidden);
      } else {
        var post := posts[found.id].(content := content);
        posts := posts[found.id := post];
        r := Ok(post);
      }
      assert Tables() == FeedHandlers.EditPost(old(Tables()), caller, postId, content).state;
      FeedProps.EditPostKeeps(old(Tables()), caller, postId, content);
    }

    /**
     * The deletes of `deletePost`, one collection after another: the replies
     * to the post's comments, its comments, likes, bookmarks, reports and
     * views, and last the post.
     */
    method Cascade(p: Id)
      modifies this
      ensures Tables() == FeedHandlers.CascadePost(old(Tables()), p)
    {
      var doomed := FeedHandlers.CommentsOf(Tables(), p);
      replies := FeedHandlers.RepliesOff(replies, doomed);
      comments := FeedHandlers.CommentsOff(comments, p);
      likes := FeedHandlers.LikesOff(likes, p);
      bookmarks := FeedHandlers.BookmarksOff(bookmarks, p);
      reports := FeedHandlers.ReportsOff(reports, p);
      views := FeedHandlers.ViewsOff(views, p);
      posts := posts - {p};
    }

    method DeletePost(caller: IdArg, postId: IdArg) returns (r: Outcome<()>)
      requires Valid()
      modifies this
      ensures Valid()
      ensures Answer(Tables(), r) == FeedHandlers.DeletePost(old(Tables()), caller, postId)
    {
      var found := FindById(posts, postId);
      if found.CastFailure? {
        r := Err(ServerError);
      } else if found.Miss? {
        r := Err(NotFound);
      } else if caller.Absent? {
        r := Err(ServerError);
      } else if !IsCaller(caller, posts[found.id].author) {
        r := Err(Forbidden);
      } else {
        Cascade(found.id);
        r := Ok(());
      }
      assert Tables() == FeedHandlers.DeletePost(old(Tables()), caller, postId).state;
      FeedProps.DeletePostKeeps(old(Tables()), caller, postId);
    }

    /** Filters the caller's like out of `post.likes`, or creates one and pushes its id. */
    method ToggleLike(caller: IdArg, postId: IdArg) returns (r: Outcome<FeedHandlers.Toggled>)
      requires Valid()
      modifies this
      ensures Valid()
      ensures Answer(Tables(), r) == FeedHandlers.Toggle(old(Tables()), Likes, caller, postId)
    {
      if !postId.Given? || !caller.Given? {
        r := Err(BadRequest);
      } else if postId.id !in posts {
        r := Err(NotFound);
      } else {
        var p := postId.id;
        var post := posts[p];
        var existing := FeedHandlers.FindRecord(Tables(), Likes, caller.id, p);
        if existing.Some? {
          likes := likes - {existing.value};
          post := post.(likes := Without(post.likes, existing.value));
        } else {
          likes := likes[nextId := Like(caller.id, p, None)];
          post := post.(likes := post.likes + [nextId]);
          nextId := nextId + 1;
        }
        posts := posts[p := post];
        r := Ok(FeedHandlers.Toggled(post, existing.None?));
      }
      assert Tables() == FeedHandlers.Toggle(old(Tables()), Likes, caller, postId).state;
      FeedProps.ToggleKeeps(old(Tables()), Likes, caller, postId);
    }

    /** Filters the caller's bookmark out of `post.bookmarks`, or creates one and pushes its id. */
    method ToggleBookmark(caller: IdArg, postId: IdArg) returns (r: Outcome<FeedHandlers.Toggled>)
      requires Valid()
      modifies this
      ensures Valid()
      ensures Answer(Tables(), r) == FeedHandlers.Toggle(old(Tables()), Bookmarks, caller, postId)
    {
      if !postId.Given? || !caller.Given? {
        r := Err(BadRequest);
      } else if postId.id !in posts {
        r := Err(NotFound);
      } else {
        var p := postId.id;
        var post := posts[p];
        var existing := FeedHandlers.FindRecord(Tables(), Bookmarks, caller.id, p);
        if existing.Some? {
          bookmarks := bookmarks - {existing.value};
          post := post.(bookmarks := Without(post.bookmarks, existing.value));
        } else {
          bookmarks := bookmarks[nextId := Bookmark(caller.id, p)];
          post := post.(bookmarks := post.bookmarks + [nextId]);
          nextId := nextId + 1;
        }
        posts := posts[p := post];
        r := Ok(FeedHandlers.Toggled(post, existing.None?));
      }
      assert Tables() == FeedHandlers.Toggle(old(Tables()), Bookmarks, caller, postId).state;
      FeedProps.ToggleKeeps(old(Tables()), Bookmarks, caller, postId);
    }

    /** Stores the View first, then counts it on the post, failing if there is none. */
    method AddView(caller: IdArg, postId: IdArg) returns (r: Outcome<()>)
      requires Valid()
      modifies this
      ensures Valid()
      ensures Answer(Tables(), r) == FeedHandlers.AddView(old(Tables()), caller, postId)
    {
      var view := NewView(caller, postId);
      if view.None? {
        r := Err(ServerError);
      } else {
        views := views[nextId := view.value];
        nextId := nextId + 1;
        var p := view.value.post;
        if p !in posts {
          r := Err(ServerError);
        } else {
          var post := posts[p];
          posts := posts[p := post.(views := post.views + 1)];
          r := Ok(());
        }
      }
      assert Tables() == FeedHandlers.AddView(old(Tables()), caller, postId).state;
      FeedProps.AddViewKeeps(old(Tables()), caller, postId);
    }

    /** Stores the comment first, then pushes its id onto the post, failing with 404 if there is none. */
    method CreateComment(caller: IdArg, postId: IdArg, content: string) returns (r: Outcome<Id>)
      requires Valid()
      modifies this
      ensures Valid()
      ensures Answer(Tables(), r) == FeedHandlers.CreateComment(old(Tables()), caller, postId, content)
    {
      var comment := NewComment(caller, postId, content);
      if caller.Absent? || content == "" {
        r := Err(BadRequest);
      } else if comment.None? {
        r := Err(ServerError);
      } else {
        var id := nextId;
        comments := comments[id := comment.value];
        nextId := nextId + 1;
        var p := comment.value.post;
        if p !in posts {
          r := Err(NotFound);
        } else {
          var post := posts[p];
          posts := posts[p := post.(comments := post.comments + [id])];
          r := Ok(id);
        }
      }
      assert Tables() == FeedHandlers.CreateComment(old(Tables()), caller, postId, content).state;
      FeedProps.CreateCommentKeeps(old(Tables()), caller, postId, content);
    }

    /** Deletes the comment's replies, then the comment; the post's `comments` keeps the id. */
    method DeleteComment(caller: IdArg, commentId: IdArg) returns (r: Outcome<()>)
      requires Valid()
      modifies this
      ensures Valid()
      ensures Answer(Tables(), r) == FeedHandlers.DeleteComment(old(Tables()), caller, commentId)
    {
      var found := FindById(comments, commentId);
      if caller.Absent? {
        r := Err(Unauthorized);
      } else if commentId.Absent? {
        r := Err(BadRequest);
      } else if found.CastFailure? {
        r := Err(ServerError);
      } else if found.Miss? {
        r := Err(NotFound);
      } else if !IsCaller(caller, comments[found.id].author) {
        r := Err(Forbidden);
      } else {
        var c := found.id;
        replies := replies - FeedHandlers.RepliesOf(Tables(), c);
        comments := comments - {c};
        r := Ok(());
      }
      assert Tables() == FeedHandlers.DeleteComment(old(Tables()), caller, commentId).state;
      FeedProps.DeleteCommentKeeps(old(Tables()), caller, commentId);
    }

    /** Stores the reply first, then pushes its id onto the comment, failing with 404 if there is none. */
    method CreateReply(caller: IdArg, commentId: IdArg, content: string) returns (r: Outcome<Id>)
      requires Valid()
      modifies this
      ensures Valid()
      ensures Answer(Tables(), r) == FeedHandlers.CreateReply(old(Tables()), caller, commentId, content)
    {
      var reply := NewReply(caller, commentId, content);
      if caller.Absent? || content == "" {
        r := Err(BadRequest);
      } else if reply.None? {
        r := Err(ServerError);
      } else {
        var id := nextId;
        replies := replies[id := reply.value];
        nextId := nextId + 1;
        var c := reply.value.comment;
        if c !in comments {
          r := Err(NotFound);
        } else {
          var comment := comments[c];
          comments := comments[c := comment.(replies := comment.replies + [id])];
          r := Ok(id);
        }
      }
      assert Tables() == FeedHandlers.CreateReply(old(Tables()), caller, commentId, content).state;
      FeedProps.CreateReplyKeeps(old(Tables()), caller, commentId, content);
    }

    /** Deletes the reply only; the comment's `replies` keeps the id. */
    method DeleteReply(caller: IdArg, replyId: IdArg) returns (r: Outcome<()>)
      requires Valid()
      modifies this
      ensures Valid()
      ensures Answer(Tables(), r) == FeedHandlers.DeleteReply(old(Tables()), caller, replyId)
    {
      var found := FindById(replies, replyId);
      if found.CastFailure? {
        r := Err(ServerError);
      } else if found.Miss? {
        r := Err(NotFound);
      } else if caller.Absent? {
        r := Err(ServerError);
      } else if !IsCaller(caller, replies[found.id].author) {
        r := Err(Forbidden);
      } else {
        replies := replies - {found.id};
        r := Ok(());
      }
      assert Tables() == FeedHandlers.DeleteReply(old(Tables()), caller, replyId).state;
      FeedProps.DeleteReplyKeeps(old(Tables()), caller, replyId);
    }

    method ReportPost(caller: IdArg, postId: IdArg, reason: string, note: Option<string>) returns (r: Outcome<Id>)
      requires Valid()
      modifies this
      ensures Valid()
      ensures Answer(Tables(), r) == FeedHandlers.ReportPost(old(Tables()), caller, postId, reason, note)
    {
      var report := NewReport(postId, caller, reason, note);
      if caller.Absent? || reason == "" {
        r := Err(BadRequest);
      } else if report.None? {
        r := Err(ServerError);
      } else {
        var id := nextId;
        reports := reports[id := report.value];
        nextId := nextId + 1;
        r := Ok(id);
      }
      assert Tables() == FeedHandlers.ReportPost(old(Tables()), caller, postId, reason, note).state;
      FeedProps.ReportPostKeeps(old(Tables()), caller, postId, reason, note);
    }
  }
}

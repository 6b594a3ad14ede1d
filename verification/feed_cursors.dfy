/**
 * Following `nextCursor` through the caller's liked or bookmarked posts
 * (src/controllers/discussion.controller.ts:612-723). The bookmark list
 * takes its cursor from the page of bookmarks, so chaining its pages reaches
 * every bookmarked post. The liked list as written takes its cursor from the
 * page of posts and compares it with like ids on the next request, which
 * can skip liked posts; with the cursor taken from the page of likes it
 * reaches every liked post.
 */
module FeedCursors {
  import opened DiscussionModel
  import opened Pagination
  import opened FeedState
  import opened FeedHandlers
  import opened FeedQueries

  /** The page answered to a well-formed caller: liked posts for `Likes`, bookmarked posts for `Bookmarks`. */
  function MarkedPage(t: Tables, k: Kind, user: Id, cursor: IdArg, limit: nat): Page {
    if k == Likes then LikedPosts(t, Given(user), cursor, limit).value
    else BookmarkedPosts(t, Given(user), cursor, limit).value
  }

  /** Every post returned while following `nextCursor` from `cursor` until it comes back null. */
  function MarkedChain(t: Tables, k: Kind, user: Id, cursor: IdArg, limit: nat): set<Id>
    decreases |Below(RecordsBy(t, k, user), cursor)|
  {
    var p := MarkedPage(t, k, user, cursor, limit);
    if p.nextCursor.None? then {}
    else
      NextPageSmaller(RecordsBy(t, k, user), cursor, limit);
      Listing(p.items) + MarkedChain(t, k, user, Given(p.nextCursor.value), limit)
  }

  /** The ids a page lists. */
  function Listing(items: seq<Id>): set<Id> {
    set x | x in items
  }

  lemma {:induction false} PostsOfSize(t: Tables, k: Kind, ids: seq<Id>)
    ensures |PostsOf(t, k, ids)| <= |ids|
  {
    if ids != [] {
      var x := ids[0];
      PostsOfSize(t, k, ids[1..]);
      var head: set<Id> := if x in Records(t, k) && PairOf(t, k, x).1 in t.posts then {PairOf(t, k, x).1} else {};
      assert PostsOf(t, k, ids) <= PostsOf(t, k, ids[1..]) + head by {
        forall p | p in PostsOf(t, k, ids) ensures p in PostsOf(t, k, ids[1..]) + head {
          var y :| y in ids && y in Records(t, k) && PairOf(t, k, y).1 == p;
          if y != x {
            var i :| 0 <= i < |ids| && ids[i] == y;
            assert ids[1..][i - 1] == y;
          }
        }
      }
      SubsetSmaller(PostsOf(t, k, ids), PostsOf(t, k, ids[1..]) + head);
    }
  }

  lemma PostsOfConcat(t: Tables, k: Kind, a: seq<Id>, b: seq<Id>)
    ensures PostsOf(t, k, a + b) == PostsOf(t, k, a) + PostsOf(t, k, b)
  {
    forall p ensures p in PostsOf(t, k, a + b) <==> p in PostsOf(t, k, a) + PostsOf(t, k, b) {
      if p in PostsOf(t, k, a + b) {
        var y :| y in a + b && y in Records(t, k) && PairOf(t, k, y).1 == p;
      }
      if p in PostsOf(t, k, a) {
        var y :| y in a && y in Records(t, k) && PairOf(t, k, y).1 == p;
        assert y in a + b;
      }
      if p in PostsOf(t, k, b) {
        var y :| y in b && y in Records(t, k) && PairOf(t, k, y).1 == p;
        assert y in a + b;
      }
    }
  }

  /** A page with no limit below its size lists the whole set. */
  lemma WholePage(s: set<Id>, limit: nat)
    requires limit == 0 || |s| <= limit
    ensures forall x :: x in PageOf(s, Absent, limit).items <==> x in s
  {
    PageIsPrefix(s, Absent, limit);
    DescendingSorts(s);
    assert Taken(limit, |s|) == |s|;
    assert Descending(s)[..|s|] == Descending(s);
  }

  /** Each page holds exactly the posts of its page of records, and its cursor is that page's cursor. */
  lemma MarkedPageContents(t: Tables, k: Kind, user: Id, cursor: IdArg, limit: nat)
    ensures var records := PageOf(RecordsBy(t, k, user), cursor, limit);
            var p := MarkedPage(t, k, user, cursor, limit);
            && p.nextCursor == records.nextCursor
            && Listing(p.items) == PostsOf(t, k, records.items)
  {
    var records := PageOf(RecordsBy(t, k, user), cursor, limit);
    var posts := PostsOf(t, k, records.items);
    var p := MarkedPage(t, k, user, cursor, limit);
    if k == Likes {
      assert p == Page(PageOf(posts, Absent, limit).items, records.nextCursor);
      PostsOfSize(t, k, records.items);
      WholePage(posts, limit);
    } else {
      assert p == Page(Descending(posts), records.nextCursor);
      DescendingSorts(posts);
    }
  }

  /** The handler chain ends where the page of records has no next cursor. */
  lemma MarkedChainEnds(t: Tables, k: Kind, user: Id, cursor: IdArg, limit: nat)
    requires PageOf(RecordsBy(t, k, user), cursor, limit).nextCursor.None?
    ensures MarkedChain(t, k, user, cursor, limit) == {}
  {
    MarkedPageContents(t, k, user, cursor, limit);
  }

  /** One step of the handler chain: the posts of this page of records, then the rest of the chain. */
  lemma MarkedChainStep(t: Tables, k: Kind, user: Id, cursor: IdArg, limit: nat)
    requires PageOf(RecordsBy(t, k, user), cursor, limit).nextCursor.Some?
    ensures var records := PageOf(RecordsBy(t, k, user), cursor, limit);
            var next := Given(records.nextCursor.value);
            && |Below(RecordsBy(t, k, user), next)| < |Below(RecordsBy(t, k, user), cursor)|
            && MarkedChain(t, k, user, cursor, limit) == PostsOf(t, k, records.items) + MarkedChain(t, k, user, next, limit)
  {
    var records := PageOf(RecordsBy(t, k, user), cursor, limit);
    var p := MarkedPage(t, k, user, cursor, limit);
    MarkedPageContents(t, k, user, cursor, limit);
    NextPageSmaller(RecordsBy(t, k, user), cursor, limit);
  }

  /** One step of the chain of record pages. */
  lemma ChainStep(s: set<Id>, cursor: IdArg, limit: nat)
    ensures var records := PageOf(s, cursor, limit);
            && (records.nextCursor.None? ==> Chain(s, cursor, limit) == [])
            && (records.nextCursor.Some? ==>
                  Chain(s, cursor, limit) == records.items + Chain(s, Given(records.nextCursor.value), limit))
  {
  }

  /** Chaining the handler collects the posts of the chained pages of records. */
  lemma {:induction false} MarkedChainFollowsRecords(t: Tables, k: Kind, user: Id, cursor: IdArg, limit: nat)
    ensures MarkedChain(t, k, user, cursor, limit) == PostsOf(t, k, Chain(RecordsBy(t, k, user), cursor, limit))
    decreases |Below(RecordsBy(t, k, user), cursor)|
  {
    var s := RecordsBy(t, k, user);
    var records := PageOf(s, cursor, limit);
    ChainStep(s, cursor, limit);
    if records.nextCursor.None? {
      MarkedChainEnds(t, k, user, cursor, limit);
    } else {
      var next := Given(records.nextCursor.value);
      MarkedChainStep(t, k, user, cursor, limit);
      MarkedChainFollowsRecords(t, k, user, next, limit);
      PostsOfConcat(t, k, records.items, Chain(s, next, limit));
    }
  }

  /**
   * Following `nextCursor` from the first page of the bookmark list, or of
   * the liked list with its cursor taken from the likes, reaches exactly the
   * existing posts the caller has bookmarked or liked, whatever the limit.
   */
  lemma MarkedChainComplete(t: Tables, k: Kind, user: Id, limit: nat)
    ensures MarkedChain(t, k, user, Absent, limit) == PostsMarkedBy(t, k, user)
  {
    var s := RecordsBy(t, k, user);
    MarkedChainFollowsRecords(t, k, user, Absent, limit);
    ChainListsAll(s, Absent, limit);
    DescendingSorts(s);
    forall p ensures p in PostsOf(t, k, Descending(s)) <==> p in PostsMarkedBy(t, k, user) {
      if p in PostsMarkedBy(t, k, user) {
        var x :| x in Records(t, k) && PairOf(t, k, x) == (user, p);
        assert x in Descending(s);
      }
    }
  }

  /** Two posts by user 7, liked by user 9 in order: likes 2 and 3 on posts 0 and 1. */
  function LikedTwice(): Tables {
    Tables(
      map[0 := Post(7, "first", [2], [], [], 0), 1 := Post(7, "second", [3], [], [], 0)],
      map[], map[],
      map[2 := Like(9, 0, None), 3 := Like(9, 1, None)],
      map[], map[], map[], map[], 4)
  }

  /** The example arises from an empty store by two `createPost` and two `toggleLikePost` calls. */
  lemma LikedTwiceReachable()
    ensures var t1 := CreatePost(Empty(map[]), Given(7), "first").state;
            var t2 := CreatePost(t1, Given(7), "second").state;
            var t3 := Toggle(t2, Likes, Given(9), Given(0)).state;
            Toggle(t3, Likes, Given(9), Given(1)).state == LikedTwice()
  {
    var t1 := CreatePost(Empty(map[]), Given(7), "first").state;
    var t2 := CreatePost(t1, Given(7), "second").state;
    var first := Post(7, "first", [], [], [], 0);
    var second := Post(7, "second", [], [], [], 0);
    assert t2 == Tables(map[0 := first, 1 := second], map[], map[], map[], map[], map[], map[], map[], 2);
    assert FindRecord(t2, Likes, 9, 0) == None;
    var t3 := Toggle(t2, Likes, Given(9), Given(0)).state;
    assert ArrayOf(first, Likes) + [2] == [2];
    assert t3.posts == t2.posts[0 := WithArray(first, Likes, ArrayOf(first, Likes) + [2])];
    assert t3.posts == map[0 := first.(likes := [2]), 1 := second];
    assert t3 == Tables(map[0 := first.(likes := [2]), 1 := second],
                        map[], map[], map[2 := Like(9, 0, None)], map[], map[], map[], map[], 3);
    assert FindRecord(t3, Likes, 9, 1) == None by {
      assert forall x :: x in Records(t3, Likes) ==> x == 2;
    }
    var t4 := Toggle(t3, Likes, Given(9), Given(1)).state;
    assert ArrayOf(second, Likes) + [3] == [3];
    assert t4.posts == t3.posts[1 := WithArray(second, Likes, ArrayOf(second, Likes) + [3])];
    assert t4.posts == map[0 := first.(likes := [2]), 1 := second.(likes := [3])];
  }

  lemma LikesOfNine()
    ensures RecordsBy(LikedTwice(), Likes, 9) == {2, 3}
  {
    var t := LikedTwice();
    assert PairOf(t, Likes, 2) == (9, 0) && PairOf(t, Likes, 3) == (9, 1);
  }

  lemma NewestLikeFirst()
    ensures PageOf({2, 3}, Absent, 1).items == [3]
  {
    var likes: set<Id> := {2, 3};
    assert MaxOf(likes) == 3;
    assert Descending(likes) == [3] + Descending({2});
  }

  lemma PostOfNewestLike()
    ensures PostsOf(LikedTwice(), Likes, [3]) == {1}
  {
    assert PairOf(LikedTwice(), Likes, 3).1 == 1;
  }

  lemma SinglePostPage()
    ensures PageOf({1}, Absent, 1) == Page([1], Some(1))
  {
    assert MaxOf({1}) == 1;
    assert Descending({1}) == [1];
  }

  lemma FirstLikedPage()
    ensures LikedPostsAsWritten(LikedTwice(), Given(9), Absent, 1) == Ok(Page([1], Some(1)))
  {
    LikesOfNine();
    NewestLikeFirst();
    PostOfNewestLike();
    SinglePostPage();
  }

  lemma SecondLikedPage()
    ensures LikedPostsAsWritten(LikedTwice(), Given(9), Given(1), 1) == Ok(Page([], None))
  {
    LikesOfNine();
    var likes: set<Id> := {2, 3};
    assert Below(likes, Given(1)) == {};
    assert PageOf(likes, Given(1), 1).items == [];
    assert PostsOf(LikedTwice(), Likes, []) == {};
  }

  lemma FirstPostLiked()
    ensures 0 in PostsMarkedBy(LikedTwice(), Likes, 9)
  {
    assert PairOf(LikedTwice(), Likes, 2) == (9, 0);
  }

  /**
   * The liked list as written, with a limit of 1: the first page holds post
   * 1 and hands out 1 as the cursor; the second page looks for likes older
   * than id 1, finds none and ends the list. Post 0 is liked by the caller
   * but on no page.
   */
  lemma LikedCursorSkipsPost()
    ensures var t := LikedTwice();
            && LikedPostsAsWritten(t, Given(9), Absent, 1) == Ok(Page([1], Some(1)))
            && LikedPostsAsWritten(t, Given(9), Given(1), 1) == Ok(Page([], None))
            && 0 in PostsMarkedBy(t, Likes, 9)
  {
    FirstLikedPage();
    SecondLikedPage();
    FirstPostLiked();
  }
}

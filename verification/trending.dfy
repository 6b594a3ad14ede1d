/**
 * The trending feed (src/controllers/discussion.controller.ts:109-160): the
 * newest posts below the cursor form a bounded window, the window is sorted
 * stably by a linear score, highest first, and the first `limit` are returned.
 * The score counts the comments the post's populated `comments` array holds,
 * so the ids of deleted comments do not count.
 */
module Trending {
  import opened DiscussionModel
  import opened Pagination

  /** At most this many of the newest posts below the cursor are ranked. */
  const WINDOW_SIZE: nat := 100

  /**
   * A post's `comments` after `.populate('comments')`: the ids of comments
   * that no longer exist are dropped, the others keep their order.
   */
  function Live(ids: seq<Id>, comments: map<Id, Comment>): (r: seq<Id>)
    ensures forall x :: x in r <==> x in ids && x in comments
    ensures |r| <= |ids|
    ensures (forall x :: x in ids ==> x in comments) ==> r == ids
  {
    if ids == [] then []
    else (if ids[0] in comments then [ids[0]] else []) + Live(ids[1..], comments)
  }

  /** The posts as the trending query sees them: each with its comments populated. */
  function Populated(posts: map<Id, Post>, comments: map<Id, Comment>): (q: map<Id, Post>)
    ensures q.Keys == posts.Keys
  {
    map x | x in posts :: posts[x].(comments := Live(posts[x].comments, comments))
  }

  /**
   * The trending score, scaled by 10 so that the weights 0.5, 0.3 and 0.2
   * become 5, 3 and 2, with the number of likes as the likes term, the way
   * the comments term counts comments.
   */
  function Score(p: Post): nat {
    5 * |p.likes| + 3 * |p.comments| + 2 * p.views
  }

  /** A JavaScript number as the score produces it: a value scaled by 10, or NaN. */
  datatype Number = Finite(tenths: int) | NaN

  /**
   * The score as written, which multiplies the `likes` array itself by its
   * weight: an empty array converts to 0, an array of object ids to NaN, and
   * NaN spreads through the sum. Like `Score`, it is taken on a post whose
   * comments are populated.
   */
  function ScoreAsWritten(p: Post): (s: Number)
    ensures s == NaN <==> p.likes != []
    ensures p.likes == [] ==> s == Finite(Score(p))
  {
    if p.likes == [] then Finite(3 * |p.comments| + 2 * p.views) else NaN
  }

  /**
   * The comparator `(a, b) => b.score - a.score` on the scores as written. A
   * negative result puts `a` first; `Array.prototype.sort` reads a NaN result
   * as 0, "equal" (SortCompare, section 23.1.3.30.2 of ECMA-262).
   */
  function CompareAsWritten(a: Post, b: Post): (c: int)
    ensures ScoreAsWritten(a).Finite? && ScoreAsWritten(b).Finite? ==> c == Score(b) - Score(a)
    ensures a.likes != [] || b.likes != [] ==> c == 0
  {
    match (ScoreAsWritten(a), ScoreAsWritten(b))
    case (Finite(x), Finite(y)) => y - x
    case _ => 0
  }

  /**
   * As written, a like lowers nothing and raises nothing: a post with one
   * like and the same views ties with its unliked twin, and it ties with two
   * posts the comparator orders strictly, so the comparator is not
   * consistent and the order the sort produces is left to the engine.
   */
  lemma LikesIgnoredAsWritten()
    ensures var plain := Post(7, "plain", [], [], [], 1);
            var liked := Post(7, "liked", [3], [], [], 1);
            var viewed := Post(7, "viewed", [], [], [], 2);
            && Score(liked) > Score(plain)
            && CompareAsWritten(liked, plain) == 0
            && CompareAsWritten(liked, viewed) == 0
            && CompareAsWritten(viewed, plain) < 0
  {
  }

  /** The score of the post with id `x`, 0 for an id with no post. */
  function ScoreOf(posts: map<Id, Post>, x: Id): nat {
    if x in posts then Score(posts[x]) else 0
  }

  /** More comments, all else fixed, means a strictly higher score. */
  lemma ScoreGrowsWithComments(p: Post, q: Post)
    requires q.likes == p.likes && q.views == p.views
    requires |q.comments| > |p.comments|
    ensures Score(q) > Score(p)
  {
  }

  /** More views, all else fixed, means a strictly higher score. */
  lemma ScoreGrowsWithViews(p: Post, q: Post)
    requires q.likes == p.likes && q.comments == p.comments
    requires q.views > p.views
    ensures Score(q) > Score(p)
  {
  }

  /** More likes, all else fixed, means a strictly higher score. */
  lemma ScoreGrowsWithLikes(p: Post, q: Post)
    requires q.comments == p.comments && q.views == p.views
    requires |q.likes| > |p.likes|
    ensures Score(q) > Score(p)
  {
  }

  /** `a` comes before `b`: a higher score, or the same score and a newer post. */
  predicate RanksAbove(posts: map<Id, Post>, a: Id, b: Id) {
    ScoreOf(posts, a) > ScoreOf(posts, b) || (ScoreOf(posts, a) == ScoreOf(posts, b) && a > b)
  }

  predicate Ranked(posts: map<Id, Post>, r: seq<Id>) {
    forall i, j :: 0 <= i < j < |r| ==> RanksAbove(posts, r[i], r[j])
  }

  /**
   * Stable insertion of `x` into a list sorted by non-increasing score: `x`
   * goes before the first post it scores at least as high as.
   */
  function InsertByScore(posts: map<Id, Post>, x: Id, r: seq<Id>): (q: seq<Id>)
    requires Ranked(posts, r)
    requires forall y :: y in r ==> x > y
    ensures multiset(q) == multiset(r) + multiset{x}
    ensures Ranked(posts, q)
  {
    if r == [] || ScoreOf(posts, x) >= ScoreOf(posts, r[0]) then
      FirstWhenScoringHigher(posts, x, r);
      [x] + r
    else
      assert r == [r[0]] + r[1..];
      TailRanked(posts, r);
      var rest := InsertByScore(posts, x, r[1..]);
      HeadStaysFirst(posts, x, r, rest);
      [r[0]] + rest
  }

  lemma TailRanked(posts: map<Id, Post>, r: seq<Id>)
    requires Ranked(posts, r) && r != []
    ensures Ranked(posts, r[1..])
    ensures forall y :: y in r[1..] ==> y in r
  {
    forall i, j | 0 <= i < j < |r[1..]| ensures RanksAbove(posts, r[1..][i], r[1..][j]) {
      assert r[1..][i] == r[i + 1] && r[1..][j] == r[j + 1];
    }
  }

  lemma FirstWhenScoringHigher(posts: map<Id, Post>, x: Id, r: seq<Id>)
    requires Ranked(posts, r)
    requires forall y :: y in r ==> x > y
    requires r == [] || ScoreOf(posts, x) >= ScoreOf(posts, r[0])
    ensures Ranked(posts, [x] + r)
  {
    var q := [x] + r;
    forall i, j | 0 <= i < j < |q| ensures RanksAbove(posts, q[i], q[j]) {
      if i == 0 {
        assert q[j] == r[j - 1] && r[j - 1] in r;
        if j > 1 { assert RanksAbove(posts, r[0], r[j - 1]); }
      } else {
        assert q[i] == r[i - 1] && q[j] == r[j - 1];
      }
    }
  }

  lemma HeadStaysFirst(posts: map<Id, Post>, x: Id, r: seq<Id>, rest: seq<Id>)
    requires Ranked(posts, r) && r != []
    requires ScoreOf(posts, x) < ScoreOf(posts, r[0])
    requires Ranked(posts, rest)
    requires multiset(rest) == multiset(r[1..]) + multiset{x}
    ensures Ranked(posts, [r[0]] + rest)
  {
    var q := [r[0]] + rest;
    forall i, j | 0 <= i < j < |q| ensures RanksAbove(posts, q[i], q[j]) {
      if i == 0 {
        var y := rest[j - 1];
        assert q[j] == y;
        assert y in multiset(rest);
        if y != x {
          assert y in multiset(r[1..]);
          var k :| 0 <= k < |r[1..]| && r[1..][k] == y;
          assert r[k + 1] == y;
        }
      } else {
        assert q[i] == rest[i - 1] && q[j] == rest[j - 1];
      }
    }
  }

  lemma AllBelow(x: Id, s: seq<Id>, t: seq<Id>)
    requires forall y :: y in s ==> x > y
    requires multiset(t) == multiset(s)
    ensures forall y :: y in t ==> x > y
  {
    forall y | y in t ensures x > y {
      assert y in multiset(t);
      assert y in multiset(s);
      assert y in s;
    }
  }

  lemma HeadIsNewest(w: seq<Id>)
    requires StrictlyDescending(w) && w != []
    ensures StrictlyDescending(w[1..])
    ensures forall y :: y in w[1..] ==> w[0] > y
  {
    forall i, j | 0 <= i < j < |w[1..]| ensures w[1..][i] > w[1..][j] {
      assert w[1..][i] == w[i + 1] && w[1..][j] == w[j + 1];
    }
  }

  /**
   * `posts.sort((a, b) => b.score - a.score)` on a window listed newest
   * first. The sort is stable, so posts with equal scores keep their window
   * order, newest first; the result is therefore ranked.
   */
  function SortByScore(posts: map<Id, Post>, w: seq<Id>): (r: seq<Id>)
    requires StrictlyDescending(w)
    ensures multiset(r) == multiset(w)
    ensures Ranked(posts, r)
  {
    if w == [] then []
    else
      assert w == [w[0]] + w[1..];
      HeadIsNewest(w);
      var rest := SortByScore(posts, w[1..]);
      AllBelow(w[0], w[1..], rest);
      InsertByScore(posts, w[0], rest)
  }

  /** The window: the newest posts below the cursor, at most WINDOW_SIZE of them. */
  function Window(posts: map<Id, Post>, cursor: IdArg): (w: seq<Id>)
    ensures |w| == Min(WINDOW_SIZE, |Below(posts.Keys, cursor)|)
    ensures StrictlyDescending(w)
    ensures forall x :: x in w ==> x in posts
    ensures cursor.Given? ==> forall x :: x in w ==> x < cursor.id
    ensures forall x, y :: x in Below(posts.Keys, cursor) && x !in w && y in w ==> x < y
  {
    PageOf(posts.Keys, cursor, WINDOW_SIZE).items
  }

  /** Cutting a ranked permutation of the window after `n` leaves out nothing that outranks what it keeps. */
  lemma {:induction false} PrefixOutranksRest(posts: map<Id, Post>, w: seq<Id>, ranked: seq<Id>, n: nat)
    requires multiset(ranked) == multiset(w)
    requires Ranked(posts, ranked)
    requires n <= |ranked|
    ensures forall x, y :: x in w && x !in ranked[..n] && y in ranked[..n] ==> RanksAbove(posts, y, x)
  {
    forall x, y | x in w && x !in ranked[..n] && y in ranked[..n] ensures RanksAbove(posts, y, x) {
      assert x in multiset(w);
      assert x in ranked;
      var i :| 0 <= i < |ranked| && ranked[i] == x;
      var j :| 0 <= j < n && ranked[..n][j] == y;
      assert ranked[j] == y;
    }
  }

  lemma PrefixOfPermutation(w: seq<Id>, ranked: seq<Id>, n: nat)
    requires multiset(ranked) == multiset(w)
    requires n <= |ranked|
    ensures forall x :: x in ranked[..n] ==> x in w
  {
    forall x | x in ranked[..n] ensures x in w {
      assert x in ranked;
      assert x in multiset(ranked);
    }
  }

  /** One page of trending posts and the cursor for the next one. */
  function TrendingPage(posts: map<Id, Post>, cursor: IdArg, limit: nat): (p: Page)
    ensures |p.items| == Min(limit, |Window(posts, cursor)|)
    ensures forall x :: x in p.items ==> x in Window(posts, cursor)
    ensures Ranked(posts, p.items)
    ensures forall x, y :: x in Window(posts, cursor) && x !in p.items && y in p.items ==> RanksAbove(posts, y, x)
    ensures CursorIsLast(p)
  {
    var w := Window(posts, cursor);
    var ranked := SortByScore(posts, w);
    assert |ranked| == |multiset(ranked)| == |multiset(w)| == |w|;
    var n := Min(limit, |ranked|);
    PrefixOfPermutation(w, ranked, n);
    PrefixOutranksRest(posts, w, ranked, n);
    var items := ranked[..n];
    Page(items, LastCursor(items))
  }

  /** The page is the start of the stably score-sorted window. */
  lemma TrendingIsSortedWindow(posts: map<Id, Post>, cursor: IdArg, limit: nat)
    ensures var ranked := SortByScore(posts, Window(posts, cursor));
            TrendingPage(posts, cursor, limit).items == ranked[..Min(limit, |ranked|)]
  {
  }
}

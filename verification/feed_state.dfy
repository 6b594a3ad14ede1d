/**
 * The document store the discussion handlers run against
 * (src/controllers/discussion.controller.ts), as one map per collection, and
 * the invariant the handlers keep: every Like and Bookmark id is listed in the
 * denormalised array of exactly the post it belongs to, and there is at most
 * one of each per (user, post) pair.
 */
module FeedState {
  import opened DiscussionModel

  /** The error answers a handler gives, by HTTP status. */
  datatype Status = BadRequest | Unauthorized | Forbidden | NotFound | ServerError {
    function Code(): nat {
      match this
      case BadRequest => 400
      case Unauthorized => 401
      case Forbidden => 403
      case NotFound => 404
      case ServerError => 500
    }
  }

  /**
   * A handler's answer. Thrown exceptions without an HTTP status (a failed
   * cast, a failed schema check, a property read on `undefined`) reach the
   * error handler, which answers 500: they are `Err(ServerError)`.
   */
  datatype Outcome<T> = Ok(value: T) | Err(status: Status)

  /** The `communityInfo` sub-document of a user. */
  datatype CommunityInfo = CommunityInfo(joined: bool, author: string, bio: Option<string>)

  /**
   * All collections the handlers touch. `members` maps each user id to the
   * user's `communityInfo`, which a user document may lack. `nextId` is the
   * next identifier the store hands out: larger than every id in use.
   */
  datatype Tables = Tables(
    posts: map<Id, Post>,
    comments: map<Id, Comment>,
    replies: map<Id, Reply>,
    likes: map<Id, Like>,
    bookmarks: map<Id, Bookmark>,
    views: map<Id, View>,
    reports: map<Id, Report>,
    members: map<Id, Option<CommunityInfo>>,
    nextId: Id)

  /** The tables after a handler and what it answered. */
  datatype Answer<T> = Answer(state: Tables, result: Outcome<T>)

  /** The store with no documents and the given users. */
  function Empty(members: map<Id, Option<CommunityInfo>>): Tables {
    Tables(map[], map[], map[], map[], map[], map[], map[], members, 0)
  }

  /** What `Model.findById(arg)` gives: the document, nothing, or a cast failure. */
  datatype Lookup = Hit(id: Id) | Miss | CastFailure

  function FindById<T>(table: map<Id, T>, arg: IdArg): (r: Lookup)
    ensures r.Hit? <==> arg.Given? && arg.id in table
    ensures r.CastFailure? <==> arg.Malformed?
    ensures r.Hit? ==> r.id == arg.id
  {
    match arg
    case Malformed => CastFailure
    case Absent => Miss
    case Given(id) => if id in table then Hit(id) else Miss
  }

  /** The caller is the author: `author.toString() === userId.toString()`. */
  predicate IsCaller(caller: IdArg, author: Id) {
    caller.Given? && caller.id == author
  }

  /** Every id in use is below `nextId`. */
  predicate Fresh(t: Tables) {
    && (forall x :: x in t.posts ==> x < t.nextId)
    && (forall x :: x in t.comments ==> x < t.nextId)
    && (forall x :: x in t.replies ==> x < t.nextId)
    && (forall x :: x in t.likes ==> x < t.nextId)
    && (forall x :: x in t.bookmarks ==> x < t.nextId)
    && (forall x :: x in t.views ==> x < t.nextId)
    && (forall x :: x in t.reports ==> x < t.nextId)
  }

  predicate NoDup(s: seq<Id>) {
    forall i, j :: 0 <= i < j < |s| ==> s[i] != s[j]
  }

  /** The two kinds of (user, post) record a post keeps an array of. */
  datatype Kind = Likes | Bookmarks

  /** The ids of the records of kind `k`. */
  function Records(t: Tables, k: Kind): set<Id> {
    if k == Likes then t.likes.Keys else t.bookmarks.Keys
  }

  /** The (user, post) pair of record `x` of kind `k`. */
  function PairOf(t: Tables, k: Kind, x: Id): (Id, Id)
    requires x in Records(t, k)
  {
    if k == Likes then (t.likes[x].user, t.likes[x].post) else (t.bookmarks[x].user, t.bookmarks[x].post)
  }

  /** The array on post `p` that lists its records of kind `k`. */
  function ArrayOf(p: Post, k: Kind): seq<Id> {
    if k == Likes then p.likes else p.bookmarks
  }

  /**
   * Records of kind `k` and the posts' arrays agree: each record belongs to
   * an existing post, no (user, post) pair has two records, every array is
   * free of duplicates and lists exactly the records of its post.
   */
  ghost predicate Mirrors(t: Tables, k: Kind) {
    Owned(t, k) && Unique(t, k) && ArraysNoDup(t, k) && Listed(t, k)
  }

  ghost predicate Owned(t: Tables, k: Kind) {
    forall x :: x in Records(t, k) ==> PairOf(t, k, x).1 in t.posts
  }

  ghost predicate Unique(t: Tables, k: Kind) {
    forall x, y :: x in Records(t, k) && y in Records(t, k) && PairOf(t, k, x) == PairOf(t, k, y) ==> x == y
  }

  ghost predicate ArraysNoDup(t: Tables, k: Kind) {
    forall p :: p in t.posts ==> NoDup(ArrayOf(t.posts[p], k))
  }

  ghost predicate Listed(t: Tables, k: Kind) {
    forall p, x :: p in t.posts ==>
      (x in ArrayOf(t.posts[p], k) <==> x in Records(t, k) && PairOf(t, k, x).1 == p)
  }

  /** The invariant every handler keeps. */
  ghost predicate Consistent(t: Tables) {
    Fresh(t) && Mirrors(t, Likes) && Mirrors(t, Bookmarks)
  }

  lemma EmptyConsistent(members: map<Id, Option<CommunityInfo>>)
    ensures Consistent(Empty(members))
  {
  }

  /** `arr.filter(x => !x.equals(id))`. */
  function Without(arr: seq<Id>, id: Id): (r: seq<Id>)
    ensures forall x :: x in r <==> x in arr && x != id
    ensures |r| <= |arr|
    ensures NoDup(arr) ==> NoDup(r)
    ensures id in arr && NoDup(arr) ==> |r| == |arr| - 1
    ensures id !in arr ==> r == arr
  {
    if arr == [] then []
    else
      var rest := Without(arr[1..], id);
      assert forall x :: x in arr <==> x == arr[0] || x in arr[1..] by {
        assert arr == [arr[0]] + arr[1..];
      }
      if arr[0] == id then
        rest
      else
        assert NoDup(arr) ==> arr[0] !in arr[1..];
        NoDupCons(arr[0], rest);
        [arr[0]] + rest
  }

  lemma NoDupCons(x: Id, s: seq<Id>)
    ensures NoDup(s) && x !in s ==> NoDup([x] + s)
  {
    if NoDup(s) && x !in s {
      var q := [x] + s;
      forall i, j | 0 <= i < j < |q| ensures q[i] != q[j] {
        if i == 0 { assert q[j] == s[j - 1]; } else { assert q[i] == s[i - 1] && q[j] == s[j - 1]; }
      }
    }
  }

  lemma NoDupSnoc(s: seq<Id>, x: Id)
    requires NoDup(s) && x !in s
    ensures NoDup(s + [x])
  {
    var q := s + [x];
    forall i, j | 0 <= i < j < |q| ensures q[i] != q[j] {
      if j == |s| { assert q[i] == s[i]; assert q[i] in s; } else { assert q[i] == s[i] && q[j] == s[j]; }
    }
  }

  /** Appending an id and filtering it out again gives back the array. */
  lemma {:induction false} WithoutAppended(arr: seq<Id>, id: Id)
    requires id !in arr
    ensures Without(arr + [id], id) == arr
  {
    if arr == [] {
      assert [] + [id] == [id];
      assert Without([id], id) == Without([id][1..], id);
    } else {
      assert (arr + [id])[1..] == arr[1..] + [id];
      WithoutAppended(arr[1..], id);
      assert arr == [arr[0]] + arr[1..];
    }
  }
}

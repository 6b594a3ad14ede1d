/**
 * What the discussion handlers keep and what they promise across calls:
 * every handler preserves the store invariant, a toggle flips whether the
 * caller has a record and two toggles undo each other, and a post delete
 * leaves nothing that refers to the post.
 */
module FeedProps {
  import opened DiscussionModel
  import opened FeedState
  import opened FeedHandlers

  /** A change that leaves the records of kind `k` and the existing arrays alone, and adds posts with empty arrays only. */
  lemma MirrorsFrame(t: Tables, u: Tables, k: Kind)
    requires Mirrors(t, k)
    requires Records(u, k) == Records(t, k)
    requires forall x :: x in Records(t, k) ==> PairOf(u, k, x) == PairOf(t, k, x)
    requires t.posts.Keys <= u.posts.Keys
    requires forall p :: p in t.posts ==> ArrayOf(u.posts[p], k) == ArrayOf(t.posts[p], k)
    requires forall p :: p in u.posts && p !in t.posts ==> ArrayOf(u.posts[p], k) == []
    ensures Mirrors(u, k)
  {
  }

  /** Record `x` of post `p` is deleted from `t` and filtered out of the post's array; nothing else of kind `k` changes. */
  ghost predicate Removed(t: Tables, u: Tables, k: Kind, p: Id, x: Id) {
    && p in t.posts && x in Records(t, k) && PairOf(t, k, x).1 == p
    && Records(u, k) == Records(t, k) - {x}
    && (forall y :: y in Records(u, k) ==> PairOf(u, k, y) == PairOf(t, k, y))
    && u.posts.Keys == t.posts.Keys
    && ArrayOf(u.posts[p], k) == Without(ArrayOf(t.posts[p], k), x)
    && (forall q :: q in t.posts && q != p ==> ArrayOf(u.posts[q], k) == ArrayOf(t.posts[q], k))
  }

  lemma RemoveKeepsPairs(t: Tables, u: Tables, k: Kind, p: Id, x: Id)
    requires Mirrors(t, k) && Removed(t, u, k, p, x)
    ensures Owned(u, k) && Unique(u, k)
  {
    forall y | y in Records(u, k) ensures PairOf(u, k, y).1 in u.posts {
      assert PairOf(u, k, y) == PairOf(t, k, y);
    }
    forall y, z | y in Records(u, k) && z in Records(u, k) && PairOf(u, k, y) == PairOf(u, k, z) ensures y == z {
      assert PairOf(u, k, y) == PairOf(t, k, y) && PairOf(u, k, z) == PairOf(t, k, z);
    }
  }

  /** After the removal, post `q`'s array lists `y` exactly when `y` is a remaining record of `q`. */
  lemma RemoveListsAt(t: Tables, u: Tables, k: Kind, p: Id, x: Id, q: Id, y: Id)
    requires Listed(t, k) && Removed(t, u, k, p, x) && q in u.posts
    ensures y in ArrayOf(u.posts[q], k) <==> y in Records(u, k) && PairOf(u, k, y).1 == q
  {
    var listed := y in Records(t, k) && PairOf(t, k, y).1 == q;
    assert y in ArrayOf(t.posts[q], k) <==> listed;
    if y in Records(u, k) {
      assert PairOf(u, k, y) == PairOf(t, k, y);
    }
    if q == p {
      assert y in ArrayOf(u.posts[q], k) <==> y in ArrayOf(t.posts[p], k) && y != x;
    } else {
      assert ArrayOf(u.posts[q], k) == ArrayOf(t.posts[q], k);
    }
  }

  lemma RemoveKeepsArrays(t: Tables, u: Tables, k: Kind, p: Id, x: Id)
    requires Mirrors(t, k) && Removed(t, u, k, p, x)
    ensures ArraysNoDup(u, k) && Listed(u, k)
  {
    forall q | q in u.posts ensures NoDup(ArrayOf(u.posts[q], k)) {
      assert NoDup(ArrayOf(t.posts[q], k));
    }
    forall q, y | q in u.posts
      ensures y in ArrayOf(u.posts[q], k) <==> y in Records(u, k) && PairOf(u, k, y).1 == q
    {
      RemoveListsAt(t, u, k, p, x, q, y);
    }
  }

  /** Deleting record `x` of post `p` and filtering `x` out of the post's array keeps the mirror. */
  lemma RemoveKeepsMirror(t: Tables, u: Tables, k: Kind, p: Id, x: Id)
    requires Mirrors(t, k) && Removed(t, u, k, p, x)
    ensures Mirrors(u, k)
  {
    RemoveKeepsPairs(t, u, k, p, x);
    RemoveKeepsArrays(t, u, k, p, x);
  }

  /** A fresh record for (user, p), which had none, is created in `t` and its id appended to the post's array; nothing else of kind `k` changes. */
  ghost predicate Added(t: Tables, u: Tables, k: Kind, p: Id, user: Id) {
    && p in t.posts
    && (forall y :: y in Records(t, k) ==> y < t.nextId)
    && RecordsFor(t, k, user, p) == {}
    && Records(u, k) == Records(t, k) + {t.nextId}
    && PairOf(u, k, t.nextId) == (user, p)
    && (forall y :: y in Records(t, k) ==> PairOf(u, k, y) == PairOf(t, k, y))
    && u.posts.Keys == t.posts.Keys
    && ArrayOf(u.posts[p], k) == ArrayOf(t.posts[p], k) + [t.nextId]
    && (forall q :: q in t.posts && q != p ==> ArrayOf(u.posts[q], k) == ArrayOf(t.posts[q], k))
  }

  lemma AddKeepsPairs(t: Tables, u: Tables, k: Kind, p: Id, user: Id)
    requires Mirrors(t, k) && Added(t, u, k, p, user)
    ensures Owned(u, k) && Unique(u, k)
  {
    forall y, z | y in Records(u, k) && z in Records(u, k) && PairOf(u, k, y) == PairOf(u, k, z) ensures y == z {
      if y != t.nextId && z != t.nextId {
        assert PairOf(u, k, y) == PairOf(t, k, y) && PairOf(u, k, z) == PairOf(t, k, z);
      } else if y != t.nextId || z != t.nextId {
        assert false;
      }
    }
  }

  /** After the insertion, post `q`'s array lists `y` exactly when `y` is a record of `q`. */
  lemma AddListsAt(t: Tables, u: Tables, k: Kind, p: Id, user: Id, q: Id, y: Id)
    requires Listed(t, k) && Added(t, u, k, p, user) && q in u.posts
    ensures y in ArrayOf(u.posts[q], k) <==> y in Records(u, k) && PairOf(u, k, y).1 == q
  {
    var listed := y in Records(t, k) && PairOf(t, k, y).1 == q;
    assert y in ArrayOf(t.posts[q], k) <==> listed;
    if y in Records(t, k) {
      assert PairOf(u, k, y) == PairOf(t, k, y);
    }
    if q != p {
      assert ArrayOf(u.posts[q], k) == ArrayOf(t.posts[q], k);
    }
  }

  lemma AddKeepsArrays(t: Tables, u: Tables, k: Kind, p: Id, user: Id)
    requires Mirrors(t, k) && Added(t, u, k, p, user)
    ensures ArraysNoDup(u, k) && Listed(u, k)
  {
    var n := t.nextId;
    assert n !in ArrayOf(t.posts[p], k);
    NoDupSnoc(ArrayOf(t.posts[p], k), n);
    forall q | q in u.posts ensures NoDup(ArrayOf(u.posts[q], k)) {
      if q != p {
        assert ArrayOf(u.posts[q], k) == ArrayOf(t.posts[q], k);
      }
    }
    forall q, y | q in u.posts
      ensures y in ArrayOf(u.posts[q], k) <==> y in Records(u, k) && PairOf(u, k, y).1 == q
    {
      AddListsAt(t, u, k, p, user, q, y);
    }
  }

  /** Creating a fresh record for (user, p), which had none, and appending its id keeps the mirror. */
  lemma AddKeepsMirror(t: Tables, u: Tables, k: Kind, p: Id, user: Id)
    requires Mirrors(t, k) && Added(t, u, k, p, user)
    ensures Mirrors(u, k)
  {
    AddKeepsPairs(t, u, k, p, user);
    AddKeepsArrays(t, u, k, p, user);
  }

  function Other(k: Kind): Kind {
    if k == Likes then Bookmarks else Likes
  }

  /** The tables after a toggle removed record `x` of post `p`. */
  function Off(t: Tables, k: Kind, p: Id, x: Id): Tables
    requires p in t.posts
  {
    var post := t.posts[p];
    Drop(t, k, x).(posts := t.posts[p := WithArray(post, k, Without(ArrayOf(post, k), x))])
  }

  /** The tables after a toggle created a record for (user, p). */
  function On(t: Tables, k: Kind, p: Id, user: Id): Tables
    requires p in t.posts
  {
    var post := t.posts[p];
    Insert(t, k, user, p).(posts := t.posts[p := WithArray(post, k, ArrayOf(post, k) + [t.nextId])])
  }

  lemma OffMirrors(t: Tables, k: Kind, p: Id, x: Id)
    requires Mirrors(t, k)
    requires p in t.posts && x in Records(t, k) && PairOf(t, k, x).1 == p
    ensures Mirrors(Off(t, k, p, x), k)
  {
    var u := Off(t, k, p, x);
    assert forall y :: y in Records(u, k) ==> PairOf(u, k, y) == PairOf(Drop(t, k, x), k, y);
    RemoveKeepsMirror(t, u, k, p, x);
  }

  lemma OffMirrorsOther(t: Tables, k: Kind, p: Id, x: Id)
    requires Mirrors(t, Other(k))
    requires p in t.posts
    ensures Mirrors(Off(t, k, p, x), Other(k))
  {
    MirrorsFrame(t, Off(t, k, p, x), Other(k));
  }

  lemma OnMirrors(t: Tables, k: Kind, p: Id, user: Id)
    requires Mirrors(t, k)
    requires forall y :: y in Records(t, k) ==> y < t.nextId
    requires p in t.posts && RecordsFor(t, k, user, p) == {}
    ensures Mirrors(On(t, k, p, user), k)
  {
    var u := On(t, k, p, user);
    assert forall y :: y in Records(u, k) ==> PairOf(u, k, y) == PairOf(Insert(t, k, user, p), k, y);
    AddKeepsMirror(t, u, k, p, user);
  }

  lemma OnMirrorsOther(t: Tables, k: Kind, p: Id, user: Id)
    requires Mirrors(t, Other(k))
    requires p in t.posts
    ensures Mirrors(On(t, k, p, user), Other(k))
  {
    MirrorsFrame(t, On(t, k, p, user), Other(k));
  }

  /** Filtering out the caller's record keeps the invariant. */
  lemma ToggleOffKeeps(t: Tables, k: Kind, p: Id, x: Id)
    requires Consistent(t)
    requires p in t.posts && x in Records(t, k) && PairOf(t, k, x).1 == p
    ensures Consistent(Off(t, k, p, x))
  {
    var u := Off(t, k, p, x);
    assert Fresh(u);
    if k == Likes {
      OffMirrors(t, Likes, p, x);
      OffMirrorsOther(t, Likes, p, x);
    } else {
      OffMirrors(t, Bookmarks, p, x);
      OffMirrorsOther(t, Bookmarks, p, x);
    }
  }

  /** Creating the caller's record, when there was none, keeps the invariant. */
  lemma ToggleOnKeeps(t: Tables, k: Kind, p: Id, user: Id)
    requires Consistent(t)
    requires p in t.posts && RecordsFor(t, k, user, p) == {}
    ensures Consistent(On(t, k, p, user))
  {
    var u := On(t, k, p, user);
    assert Fresh(u);
    if k == Likes {
      OnMirrors(t, Likes, p, user);
      OnMirrorsOther(t, Likes, p, user);
    } else {
      OnMirrors(t, Bookmarks, p, user);
      OnMirrorsOther(t, Bookmarks, p, user);
    }
  }

  lemma ToggleKeeps(t: Tables, k: Kind, caller: IdArg, postId: IdArg)
    requires Consistent(t)
    ensures Consistent(Toggle(t, k, caller, postId).state)
  {
    if caller.Given? && postId.Given? && postId.id in t.posts {
      match FindRecord(t, k, caller.id, postId.id)
      case Some(x) =>
        ToggleOffKeeps(t, k, postId.id, x);
        assert Toggle(t, k, caller, postId).state == Off(t, k, postId.id, x);
      case None =>
        ToggleOnKeeps(t, k, postId.id, caller.id);
        assert Toggle(t, k, caller, postId).state == On(t, k, postId.id, caller.id);
    }
  }

  /** Removing the pair's only record leaves the pair with none and the array one shorter. */
  lemma OffFacts(t: Tables, k: Kind, p: Id, x: Id, user: Id)
    requires Mirrors(t, k)
    requires p in t.posts && x in Records(t, k) && PairOf(t, k, x) == (user, p)
    ensures RecordsFor(t, k, user, p) == {x}
    ensures RecordsFor(Off(t, k, p, x), k, user, p) == {}
    ensures var before := ArrayOf(t.posts[p], k);
            var after := ArrayOf(Off(t, k, p, x).posts[p], k);
            |after| == |before| - 1 && forall y :: y in after <==> y in before && y != x
  {
    var u := Off(t, k, p, x);
    assert forall y :: y in Records(u, k) ==> PairOf(u, k, y) == PairOf(t, k, y);
    assert x in ArrayOf(t.posts[p], k);
  }

  /** Creating a record for a pair that had none gives it exactly the fresh one, appended to the array. */
  lemma OnFacts(t: Tables, k: Kind, p: Id, user: Id)
    requires forall y :: y in Records(t, k) ==> y < t.nextId
    requires p in t.posts && RecordsFor(t, k, user, p) == {}
    ensures RecordsFor(On(t, k, p, user), k, user, p) == {t.nextId}
    ensures ArrayOf(On(t, k, p, user).posts[p], k) == ArrayOf(t.posts[p], k) + [t.nextId]
  {
    var u := On(t, k, p, user);
    forall y | y in Records(u, k) && y != t.nextId ensures PairOf(u, k, y) != (user, p) {
      assert PairOf(u, k, y) == PairOf(t, k, y);
      assert y !in RecordsFor(t, k, user, p);
    }
  }

  /**
   * A toggle flips whether the caller has a record on the post: afterwards
   * there is exactly one when `byUser` and none otherwise; the post's array
   * gains the new id at its end or loses exactly the old record's id.
   */
  lemma ToggleFlips(t: Tables, k: Kind, caller: IdArg, postId: IdArg)
    requires Consistent(t)
    requires Toggle(t, k, caller, postId).result.Ok?
    ensures var a := Toggle(t, k, caller, postId);
            var before := ArrayOf(t.posts[postId.id], k);
            var after := ArrayOf(a.state.posts[postId.id], k);
            && (a.result.value.byUser ==> RecordsFor(a.state, k, caller.id, postId.id) == {t.nextId})
            && (!a.result.value.byUser ==> RecordsFor(a.state, k, caller.id, postId.id) == {})
            && (a.result.value.byUser ==> after == before + [t.nextId])
            && (!a.result.value.byUser ==>
                  |after| == |before| - 1
                  && forall y :: y in after <==> y in before && y !in RecordsFor(t, k, caller.id, postId.id))
  {
    var p := postId.id;
    match FindRecord(t, k, caller.id, p)
    case Some(x) =>
      assert Toggle(t, k, caller, postId).state == Off(t, k, p, x);
      if k == Likes { OffFacts(t, Likes, p, x, caller.id); } else { OffFacts(t, Bookmarks, p, x, caller.id); }
    case None =>
      assert Toggle(t, k, caller, postId).state == On(t, k, p, caller.id);
      if k == Likes { OnFacts(t, Likes, p, caller.id); } else { OnFacts(t, Bookmarks, p, caller.id); }
  }

  /** Removing the record a toggle just created restores the tables, all but the id counter. */
  lemma OffUndoesOn(t: Tables, k: Kind, p: Id, user: Id)
    requires p in t.posts
    requires t.nextId !in Records(t, k) && t.nextId !in ArrayOf(t.posts[p], k)
    ensures Off(On(t, k, p, user), k, p, t.nextId) == t.(nextId := t.nextId + 1)
    ensures var post := On(t, k, p, user).posts[p];
            WithArray(post, k, Without(ArrayOf(post, k), t.nextId)) == t.posts[p]
  {
    var n := t.nextId;
    var post := t.posts[p];
    var t1 := On(t, k, p, user);
    WithoutAppended(ArrayOf(post, k), n);
    assert WithArray(t1.posts[p], k, Without(ArrayOf(t1.posts[p], k), n)) == post;
    assert t1.posts[p := post] == t.posts;
    if k == Likes {
      assert t1.likes - {n} == t.likes;
    } else {
      assert t1.bookmarks - {n} == t.bookmarks;
    }
  }

  /**
   * Toggling twice from "no record" gives the tables back: the record made
   * by the first toggle is deleted by the second and the array is restored.
   * Only the id counter has moved on.
   */
  lemma ToggleTwice(t: Tables, k: Kind, caller: IdArg, postId: IdArg)
    requires Consistent(t)
    requires caller.Given? && postId.Given? && postId.id in t.posts
    requires RecordsFor(t, k, caller.id, postId.id) == {}
    ensures var a1 := Toggle(t, k, caller, postId);
            var a2 := Toggle(a1.state, k, caller, postId);
            && a1.result.Ok? && a1.result.value.byUser
            && a2.result == Ok(Toggled(t.posts[postId.id], false))
            && a2.state == t.(nextId := t.nextId + 1)
  {
    var p := postId.id;
    var n := t.nextId;
    FreshNotListed(t, k, p);
    var t1 := On(t, k, p, caller.id);
    ToggleIsOn(t, k, caller, postId);
    OnFacts(t, k, p, caller.id);
    OffUndoesOn(t, k, p, caller.id);
    ToggleIsOff(t1, k, caller, postId, n);
  }

  /** In a consistent store every record id is below the counter, so no array lists the next id. */
  lemma FreshNotListed(t: Tables, k: Kind, p: Id)
    requires Consistent(t) && p in t.posts
    ensures forall y :: y in Records(t, k) ==> y < t.nextId
    ensures t.nextId !in ArrayOf(t.posts[p], k)
  {
    assert Fresh(t);
    if k == Likes {
      assert Records(t, k) == t.likes.Keys;
    } else {
      assert Records(t, k) == t.bookmarks.Keys;
    }
    assert t.nextId !in Records(t, k);
    assert Listed(t, k);
  }

  /** The toggle of a caller without a record on an existing post is `On`. */
  lemma ToggleIsOn(t: Tables, k: Kind, caller: IdArg, postId: IdArg)
    requires caller.Given? && postId.Given? && postId.id in t.posts
    requires RecordsFor(t, k, caller.id, postId.id) == {}
    ensures var u := On(t, k, postId.id, caller.id);
            Toggle(t, k, caller, postId) == Answer(u, Ok(Toggled(u.posts[postId.id], true)))
  {
  }

  /** The toggle of a caller whose first record on an existing post is `x` is `Off`. */
  lemma ToggleIsOff(t: Tables, k: Kind, caller: IdArg, postId: IdArg, x: Id)
    requires caller.Given? && postId.Given? && postId.id in t.posts
    requires FindRecord(t, k, caller.id, postId.id) == Some(x)
    ensures var post := t.posts[postId.id];
            Toggle(t, k, caller, postId)
            == Answer(Off(t, k, postId.id, x), Ok(Toggled(WithArray(post, k, Without(ArrayOf(post, k), x)), false)))
  {
  }

  /** A handler that leaves the Like and Bookmark tables and the existing arrays alone keeps the invariant. */
  lemma FrameKeeps(t: Tables, u: Tables)
    requires Consistent(t) && Fresh(u)
    requires u.likes == t.likes && u.bookmarks == t.bookmarks
    requires t.posts.Keys <= u.posts.Keys
    requires forall p :: p in t.posts ==>
               u.posts[p].likes == t.posts[p].likes && u.posts[p].bookmarks == t.posts[p].bookmarks
    requires forall p :: p in u.posts && p !in t.posts ==> u.posts[p].likes == [] && u.posts[p].bookmarks == []
    ensures Consistent(u)
  {
    MirrorsFrame(t, u, Likes);
    MirrorsFrame(t, u, Bookmarks);
  }

  lemma CommunityOnboardingKeeps(t: Tables, caller: IdArg, username: string)
    requires Consistent(t)
    ensures Consistent(CommunityOnboarding(t, caller, username).state)
  {
    FrameKeeps(t, CommunityOnboarding(t, caller, username).state);
  }

  lemma GetPostKeeps(t: Tables, postId: IdArg)
    requires Consistent(t)
    ensures Consistent(GetPost(t, postId).state)
  {
    FrameKeeps(t, GetPost(t, postId).state);
  }

  lemma CreatePostKeeps(t: Tables, caller: IdArg, content: string)
    requires Consistent(t)
    ensures Consistent(CreatePost(t, caller, content).state)
  {
    FrameKeeps(t, CreatePost(t, caller, content).state);
  }

  lemma EditPostKeeps(t: Tables, caller: IdArg, postId: IdArg, content: string)
    requires Consistent(t)
    ensures Consistent(EditPost(t, caller, postId, content).state)
  {
    FrameKeeps(t, EditPost(t, caller, postId, content).state);
  }

  /** Removing post `p` with every record of kind `k` on it keeps the mirror. */
  lemma CascadeKeepsMirror(t: Tables, k: Kind, p: Id)
    requires Mirrors(t, k)
    ensures Mirrors(CascadePost(t, p), k)
  {
    var u := CascadePost(t, p);
    CascadeRecords(t, k, p);
    assert Owned(u, k) && Unique(u, k) && ArraysNoDup(u, k);
    assert Listed(u, k) by {
      forall q, y | q in u.posts
        ensures y in ArrayOf(u.posts[q], k) <==> y in Records(u, k) && PairOf(u, k, y).1 == q
      {
        CascadeListsAt(t, k, p, q, y);
      }
    }
  }

  /** A surviving post still lists exactly its records. */
  lemma CascadeListsAt(t: Tables, k: Kind, p: Id, q: Id, y: Id)
    requires Listed(t, k) && q in CascadePost(t, p).posts
    ensures var u := CascadePost(t, p);
            y in ArrayOf(u.posts[q], k) <==> y in Records(u, k) && PairOf(u, k, y).1 == q
  {
    CascadeRecords(t, k, p);
    assert y in ArrayOf(t.posts[q], k) <==> y in Records(t, k) && PairOf(t, k, y).1 == q;
  }

  /** The records of kind `k` left by the cascade are those of other posts, unchanged. */
  lemma CascadeRecords(t: Tables, k: Kind, p: Id)
    ensures var u := CascadePost(t, p);
            && (forall x :: x in Records(u, k) <==> x in Records(t, k) && PairOf(t, k, x).1 != p)
            && (forall x :: x in Records(u, k) ==> PairOf(u, k, x) == PairOf(t, k, x))
  {
    var u := CascadePost(t, p);
    if k == Likes {
      assert Records(u, k) == u.likes.Keys;
    } else {
      assert Records(u, k) == u.bookmarks.Keys;
    }
  }

  lemma DeletePostKeeps(t: Tables, caller: IdArg, postId: IdArg)
    requires Consistent(t)
    ensures Consistent(DeletePost(t, caller, postId).state)
  {
    if DeletePost(t, caller, postId).result.Ok? {
      CascadeKeepsMirror(t, Likes, postId.id);
      CascadeKeepsMirror(t, Bookmarks, postId.id);
    }
  }

  /**
   * After a successful `deletePost(p)` nothing refers to `p`: no comment,
   * like, bookmark, report or view of it, and no reply to one of its comments.
   */
  lemma DeletePostLeavesNoTrace(t: Tables, caller: IdArg, postId: IdArg)
    requires DeletePost(t, caller, postId).result.Ok?
    ensures var u := DeletePost(t, caller, postId).state;
            var p := postId.id;
            && p !in u.posts
            && (forall x :: x in u.comments ==> u.comments[x].post != p)
            && (forall x :: x in u.replies ==> u.replies[x].comment !in CommentsOf(t, p))
            && (forall x :: x in u.likes ==> u.likes[x].post != p)
            && (forall x :: x in u.bookmarks ==> u.bookmarks[x].post != p)
            && (forall x :: x in u.reports ==> u.reports[x].post != p)
            && (forall x :: x in u.views ==> u.views[x].post != p)
  {
  }

  lemma AddViewKeeps(t: Tables, caller: IdArg, postId: IdArg)
    requires Consistent(t)
    ensures Consistent(AddView(t, caller, postId).state)
  {
    FrameKeeps(t, AddView(t, caller, postId).state);
  }

  lemma CreateCommentKeeps(t: Tables, caller: IdArg, postId: IdArg, content: string)
    requires Consistent(t)
    ensures Consistent(CreateComment(t, caller, postId, content).state)
  {
    FrameKeeps(t, CreateComment(t, caller, postId, content).state);
  }

  lemma DeleteCommentKeeps(t: Tables, caller: IdArg, commentId: IdArg)
    requires Consistent(t)
    ensures Consistent(DeleteComment(t, caller, commentId).state)
  {
    FrameKeeps(t, DeleteComment(t, caller, commentId).state);
  }

  lemma CreateReplyKeeps(t: Tables, caller: IdArg, commentId: IdArg, content: string)
    requires Consistent(t)
    ensures Consistent(CreateReply(t, caller, commentId, content).state)
  {
    FrameKeeps(t, CreateReply(t, caller, commentId, content).state);
  }

  lemma DeleteReplyKeeps(t: Tables, caller: IdArg, replyId: IdArg)
    requires Consistent(t)
    ensures Consistent(DeleteReply(t, caller, replyId).state)
  {
    FrameKeeps(t, DeleteReply(t, caller, replyId).state);
  }

  lemma ReportPostKeeps(t: Tables, caller: IdArg, postId: IdArg, reason: string, comments: Option<string>)
    requires Consistent(t)
    ensures Consistent(ReportPost(t, caller, postId, reason, comments).state)
  {
    FrameKeeps(t, ReportPost(t, caller, postId, reason, comments).state);
  }
}

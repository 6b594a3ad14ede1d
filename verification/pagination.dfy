/**
 * Cursor pagination as the feed handlers run it against the store
 * (src/controllers/discussion.controller.ts:66-98 and the per-user lists):
 * keep the ids below a well-formed cursor, sort them newest first, take
 * `limit` of them and hand back the last one as the next cursor.
 */
module Pagination {
  import opened DiscussionModel

  /** The ids `r` run strictly from newest to oldest. */
  predicate StrictlyDescending(r: seq<Id>) {
    forall i, j :: 0 <= i < j < |r| ==> r[i] > r[j]
  }

  /** Some newest id of a non-empty set, picked one element at a time. */
  ghost function Newest(s: set<Id>): (m: Id)
    requires s != {}
    ensures m in s && forall x :: x in s ==> x <= m
    decreases |s|
  {
    var y :| y in s;
    if s - {y} == {} then
      assert forall x :: x in s ==> x in s - {y} || x == y;
      y
    else
      var m := Newest(s - {y});
      assert forall x :: x in s ==> x in s - {y} || x == y;
      if m < y then y else m
  }

  /** Some oldest id of a non-empty set. */
  ghost function Oldest(s: set<Id>): (m: Id)
    requires s != {}
    ensures m in s && forall x :: x in s ==> m <= x
    decreases |s|
  {
    var y :| y in s;
    if s - {y} == {} then
      assert forall x :: x in s ==> x in s - {y} || x == y;
      y
    else
      var m := Oldest(s - {y});
      assert forall x :: x in s ==> x in s - {y} || x == y;
      if y < m then y else m
  }

  /** The newest id of a non-empty set. */
  function MaxOf(s: set<Id>): (m: Id)
    requires s != {}
    ensures m in s && forall x :: x in s ==> x <= m
  {
    assert Newest(s) in s;
    var m :| m in s && forall x :: x in s ==> x <= m; m
  }

  /** The oldest id of a non-empty set: the first match in the store's natural (insertion) order. */
  function MinOf(s: set<Id>): (m: Id)
    requires s != {}
    ensures m in s && forall x :: x in s ==> m <= x
  {
    assert Oldest(s) in s;
    var m :| m in s && forall x :: x in s ==> m <= x; m
  }

  /** The ids of `s` sorted newest first, as `sort({ _id: -1 })` returns them. */
  function Descending(s: set<Id>): (r: seq<Id>)
    ensures |r| == |s|
    decreases |s|
  {
    if s == {} then []
    else
      var m := MaxOf(s);
      [m] + Descending(s - {m})
  }

  /** The sorted listing holds the ids of the set, newest first. */
  lemma {:induction false} DescendingSorts(s: set<Id>)
    ensures forall x :: x in Descending(s) <==> x in s
    ensures StrictlyDescending(Descending(s))
    decreases |s|
  {
    if s != {} {
      var m := MaxOf(s);
      var rest := Descending(s - {m});
      DescendingSorts(s - {m});
      var r := [m] + rest;
      assert Descending(s) == r;
      forall i, j | 0 <= i < j < |r| ensures r[i] > r[j] {
        if i == 0 {
          assert r[j] == rest[j - 1] && r[j] in s - {m};
        } else {
          assert r[i] == rest[i - 1] && r[j] == rest[j - 1];
        }
      }
    }
  }

  function Min(a: nat, b: nat): nat {
    if a < b then a else b
  }

  /** How many items a query returns when `.limit(limit)` is applied to `n` matches: a limit of 0 means no limit. */
  function Taken(limit: nat, n: nat): (k: nat)
    ensures k <= n
    ensures limit > 0 ==> k <= limit
    ensures k == n || k == limit
  {
    if limit == 0 then n else Min(limit, n)
  }

  /**
   * The cursor filter: a well-formed cursor keeps the ids strictly below it;
   * a missing or malformed cursor keeps everything.
   */
  function Below(s: set<Id>, cursor: IdArg): (q: set<Id>)
    ensures cursor.Given? ==> forall x :: x in q <==> x in s && x < cursor.id
    ensures !cursor.Given? ==> q == s
  {
    if cursor.Given? then Older(s, cursor.id) else s
  }

  /** The ids of `s` strictly older than `bound`. */
  function Older(s: set<Id>, bound: Id): (q: set<Id>)
    ensures forall x :: x in q <==> x in s && x < bound
  {
    set x | x in s && x < bound
  }

  /** A page of results and the cursor for the next one. */
  datatype Page = Page(items: seq<Id>, nextCursor: Option<Id>)

  /** `nextCursor` is the last returned id, and null exactly when the page is empty. */
  predicate CursorIsLast(p: Page) {
    && (p.nextCursor.None? <==> p.items == [])
    && (p.items != [] ==> p.nextCursor == Some(p.items[|p.items| - 1]))
  }

  function LastCursor(items: seq<Id>): (c: Option<Id>)
    ensures CursorIsLast(Page(items, c))
  {
    if items == [] then None else Some(items[|items| - 1])
  }

  /** One page of a cursor query over the ids `s` that match the handler's own filter. */
  function PageOf(s: set<Id>, cursor: IdArg, limit: nat): (p: Page)
    ensures |p.items| == Taken(limit, |Below(s, cursor)|)
    ensures StrictlyDescending(p.items)
    ensures forall x :: x in p.items ==> x in s
    ensures cursor.Given? ==> forall x :: x in p.items ==> x < cursor.id
    ensures forall x, y :: x in Below(s, cursor) && x !in p.items && y in p.items ==> x < y
    ensures CursorIsLast(p)
  {
    var q := Below(s, cursor);
    var items := Descending(q)[..Taken(limit, |q|)];
    TakeNewest(q, Taken(limit, |q|));
    Page(items, LastCursor(items))
  }

  /** The first `n` ids of the sorted listing are sorted, and newer than every id left out. */
  lemma TakeNewest(q: set<Id>, n: nat)
    requires n <= |q|
    ensures var items := Descending(q)[..n];
            && StrictlyDescending(items)
            && (forall x :: x in items ==> x in q)
            && (forall x, y :: x in q && x !in items && y in items ==> x < y)
  {
    var all := Descending(q);
    var items := all[..n];
    DescendingSorts(q);
    assert StrictlyDescending(items) by {
      forall i, j | 0 <= i < j < |items| ensures items[i] > items[j] {
        assert items[i] == all[i] && items[j] == all[j];
      }
    }
    forall x, y | x in q && x !in items && y in items ensures x < y {
      var i :| 0 <= i < |all| && all[i] == x;
      var j :| 0 <= j < |items| && items[j] == y;
      assert all[j] == y;
      assert j < i;
    }
  }

  /** The page is the newest `Taken` ids of the filtered set, in order. */
  lemma PageIsPrefix(s: set<Id>, cursor: IdArg, limit: nat)
    ensures PageOf(s, cursor, limit).items
         == Descending(Below(s, cursor))[..Taken(limit, |Below(s, cursor)|)]
  {
  }

  /** Below the newest id of a set lies the rest of the set. */
  lemma OlderThanMax(q: set<Id>)
    requires q != {}
    ensures Older(q, MaxOf(q)) == q - {MaxOf(q)}
  {
  }

  /** The ids after the first `n` of a descending listing are those older than its n-th item. */
  lemma {:induction false} SuffixIsOlder(q: set<Id>, n: nat)
    requires 0 < n <= |q|
    ensures var all := Descending(q);
            all[n..] == Descending(Older(q, all[n - 1]))
    decreases n
  {
    var m := MaxOf(q);
    var all := Descending(q);
    var rest := Descending(q - {m});
    if n == 1 {
      assert all[1..] == rest && all[0] == m by {
        assert all == [m] + rest;
      }
      OlderThanMax(q);
    } else {
      assert all[n..] == rest[n - 1..] && all[n - 1] == rest[n - 2] by {
        assert all == [m] + rest;
      }
      var last := rest[n - 2];
      SuffixIsOlder(q - {m}, n - 1);
      assert Older(q - {m}, last) == Older(q, last) by {
        DescendingSorts(q - {m});
        assert last in q - {m};
      }
    }
  }

  lemma PrefixSuffix(a: seq<Id>, n: nat)
    requires n <= |a|
    ensures a == a[..n] + a[n..]
  {
  }

  /** A cursor taken from the filtered set narrows that set, not the whole collection. */
  lemma BelowWithin(s: set<Id>, cursor: IdArg, last: Id)
    requires last in Below(s, cursor)
    ensures Below(s, Given(last)) == Older(Below(s, cursor), last)
  {
  }

  /** Following the next cursor from a page lists the ids below the page's last item. */
  lemma NextPageFollows(s: set<Id>, cursor: IdArg, limit: nat)
    requires PageOf(s, cursor, limit).items != []
    ensures var p := PageOf(s, cursor, limit);
            Descending(Below(s, cursor))
            == p.items + Descending(Below(s, Given(p.nextCursor.value)))
  {
    var q := Below(s, cursor);
    var all := Descending(q);
    var n := Taken(limit, |q|);
    PageIsPrefix(s, cursor, limit);
    SuffixIsOlder(q, n);
    assert all[n - 1] in q by {
      DescendingSorts(q);
    }
    BelowWithin(s, cursor, all[n - 1]);
    PrefixSuffix(all, n);
  }

  lemma {:induction false} SubsetSmaller(a: set<Id>, b: set<Id>)
    requires a <= b
    ensures |a| <= |b|
    decreases |b|
  {
    if a != {} {
      var x :| x in a;
      SubsetSmaller(a - {x}, b - {x});
    }
  }

  /** The next cursor of a non-empty page leaves strictly fewer ids to list. */
  lemma NextPageSmaller(s: set<Id>, cursor: IdArg, limit: nat)
    requires PageOf(s, cursor, limit).items != []
    ensures var p := PageOf(s, cursor, limit);
            |Below(s, Given(p.nextCursor.value))| < |Below(s, cursor)|
  {
    var p := PageOf(s, cursor, limit);
    var last := p.nextCursor.value;
    var q := Below(s, cursor);
    var q' := Below(s, Given(last));
    assert last in p.items;
    SubsetSmaller(q', q - {last});
  }

  /** Every item fetched by following `nextCursor` from `cursor` until a page comes back empty. */
  function Chain(s: set<Id>, cursor: IdArg, limit: nat): seq<Id>
    decreases |Below(s, cursor)|
  {
    var p := PageOf(s, cursor, limit);
    if p.nextCursor.None? then []
    else
      NextPageSmaller(s, cursor, limit);
      p.items + Chain(s, Given(p.nextCursor.value), limit)
  }

  /**
   * Chaining pages yields the whole descending list: no id is skipped and
   * none is repeated, whatever the page size.
   */
  lemma {:induction false} ChainListsAll(s: set<Id>, cursor: IdArg, limit: nat)
    ensures Chain(s, cursor, limit) == Descending(Below(s, cursor))
    decreases |Below(s, cursor)|
  {
    var p := PageOf(s, cursor, limit);
    if p.nextCursor.None? {
      assert |Below(s, cursor)| == 0;
    } else {
      NextPageSmaller(s, cursor, limit);
      ChainListsAll(s, Given(p.nextCursor.value), limit);
      NextPageFollows(s, cursor, limit);
    }
  }
}

/**
 * The activity handlers of src/controllers/activity.controller.ts: the
 * required-field check of `saveActivity`, the grouping of a user's
 * activities by category in `getUserActivities`, and the saved-affirmation
 * list that `saveAffirmation` appends to.
 */
module Activities {
  import opened DiscussionModel
  import opened FeedState

  /** A request-body field as JavaScript sees it. */
  datatype JsValue = Undefined | Null | Bool(b: bool) | Num(n: int) | Str(s: string) | Object

  /** JavaScript truthiness: `false`, `0`, `""`, `null` and `undefined` are falsy. */
  predicate Truthy(v: JsValue) {
    match v
    case Undefined => false
    case Null => false
    case Bool(b) => b
    case Num(n) => n != 0
    case Str(s) => s != ""
    case Object => true
  }

  datatype ActivityBody = ActivityBody(date: JsValue, title: JsValue, timeSpent: JsValue, activityNote: JsValue, category: JsValue)

  /** `saveActivity`'s check: 400 unless date, title, timeSpent and category are all truthy. */
  function CheckActivity(b: ActivityBody): (r: Outcome<ActivityBody>)
    ensures r.Err? ==> r.status == BadRequest
    ensures r.Ok? ==> r.value == b
    ensures r.Err? <==> !Truthy(b.date) || !Truthy(b.title) || !Truthy(b.timeSpent) || !Truthy(b.category)
  {
    if !Truthy(b.date) || !Truthy(b.title) || !Truthy(b.timeSpent) || !Truthy(b.category) then Err(BadRequest)
    else Ok(b)
  }

  /** A time spent of 0 is falsy, so it is refused like a missing one; the note is never looked at. */
  lemma ZeroTimeAndNote(b: ActivityBody, note: JsValue)
    ensures CheckActivity(b.(timeSpent := Num(0))) == Err(BadRequest)
    ensures CheckActivity(b.(activityNote := note)).Ok? == CheckActivity(b).Ok?
  {
  }

  /** A stored activity of the user. */
  datatype Activity = Activity(id: Id, date: string, title: string, timeSpent: int, note: string, category: string)

  /** What a group lists of an activity. */
  datatype Entry = Entry(id: Id, date: string, title: string, timeSpent: int, note: string)

  datatype Group = Group(category: string, list: seq<Entry>)

  function EntryOf(a: Activity): Entry {
    Entry(a.id, a.date, a.title, a.timeSpent, a.note)
  }

  /** The categories of `acts`, each once, in the order they first occur. */
  function FirstOccurrences(acts: seq<Activity>): seq<string> {
    if acts == [] then []
    else
      var cs := FirstOccurrences(acts[..|acts| - 1]);
      var c := acts[|acts| - 1].category;
      if c in cs then cs else cs + [c]
  }

  /** Every category of `acts` is listed, each once, and nothing else is. */
  lemma {:induction false} FirstOccurrencesSpec(acts: seq<Activity>)
    ensures forall c :: c in FirstOccurrences(acts) <==> exists a :: a in acts && a.category == c
    ensures forall i, j :: 0 <= i < j < |FirstOccurrences(acts)| ==> FirstOccurrences(acts)[i] != FirstOccurrences(acts)[j]
  {
    if acts != [] {
      var init := acts[..|acts| - 1];
      var last := acts[|acts| - 1];
      assert acts == init + [last];
      FirstOccurrencesSpec(init);
      forall c ensures c in FirstOccurrences(acts) <==> exists a :: a in acts && a.category == c {
        if c in FirstOccurrences(init) {
          var a :| a in init && a.category == c;
          assert a in acts;
        }
        if exists a :: a in acts && a.category == c {
          var a :| a in acts && a.category == c;
          if a != last {
            assert a in init;
          }
        }
      }
    }
  }

  /** The entries of the activities of category `c`, in the order of `acts`. */
  function EntriesIn(acts: seq<Activity>, c: string): seq<Entry> {
    if acts == [] then []
    else
      var last := acts[|acts| - 1];
      EntriesIn(acts[..|acts| - 1], c) + (if last.category == c then [EntryOf(last)] else [])
  }

  /** A category has no entries exactly when no activity has it. */
  lemma {:induction false} EntriesEmpty(acts: seq<Activity>, c: string)
    ensures EntriesIn(acts, c) == [] <==> forall a :: a in acts ==> a.category != c
  {
    if acts != [] {
      var init := acts[..|acts| - 1];
      var last := acts[|acts| - 1];
      assert acts == init + [last];
      EntriesEmpty(init, c);
    }
  }

  /** The number of entries listed across `groups`. */
  function Total(groups: seq<Group>): nat {
    if groups == [] then 0 else Total(groups[..|groups| - 1]) + |groups[|groups| - 1].list|
  }

  /** What `Object.values` gives for the accumulator: the groups in key-insertion order. */
  function Values(keys: seq<string>, acc: map<string, seq<Entry>>): (gs: seq<Group>)
    requires forall k :: k in keys ==> k in acc
    ensures |gs| == |keys|
    ensures forall j :: 0 <= j < |keys| ==> gs[j] == Group(keys[j], acc[keys[j]])
  {
    if keys == [] then [] else Values(keys[..|keys| - 1], acc) + [Group(keys[|keys| - 1], acc[keys[|keys| - 1]])]
  }

  /** Adding an entry to one group that is listed once raises the total by one. */
  lemma {:induction false} TotalGrows(keys: seq<string>, acc: map<string, seq<Entry>>, c: string, e: Entry)
    requires forall k :: k in keys ==> k in acc
    requires forall i, j :: 0 <= i < j < |keys| ==> keys[i] != keys[j]
    requires c in keys
    ensures Total(Values(keys, acc[c := acc[c] + [e]])) == Total(Values(keys, acc)) + 1
  {
    var init := keys[..|keys| - 1];
    var last := keys[|keys| - 1];
    var acc' := acc[c := acc[c] + [e]];
    assert Values(keys, acc) == Values(init, acc) + [Group(last, acc[last])];
    assert Values(keys, acc') == Values(init, acc') + [Group(last, acc'[last])];
    assert Values(keys, acc)[..|keys| - 1] == Values(init, acc);
    assert Values(keys, acc')[..|keys| - 1] == Values(init, acc');
    if last == c {
      assert c !in init;
      assert Values(init, acc') == Values(init, acc);
    } else {
      assert c in init;
      TotalGrows(init, acc, c, e);
    }
  }

  /** Adding a new group at the end adds its entries to the total. */
  lemma TotalAppend(keys: seq<string>, acc: map<string, seq<Entry>>, c: string, es: seq<Entry>)
    requires forall k :: k in keys ==> k in acc
    requires c !in keys
    ensures Total(Values(keys + [c], acc[c := es])) == Total(Values(keys, acc)) + |es|
  {
    var acc' := acc[c := es];
    var gs := Values(keys + [c], acc');
    assert (keys + [c])[..|keys|] == keys;
    assert Values(keys, acc') == Values(keys, acc);
    assert gs[..|gs| - 1] == Values(keys, acc');
  }

  /** One step of the `reduce`: open the category's group if it has none, then push the entry. */
  function Push(keys: seq<string>, acc: map<string, seq<Entry>>, a: Activity): (seq<string>, map<string, seq<Entry>>) {
    if a.category !in acc then (keys + [a.category], acc[a.category := [EntryOf(a)]])
    else (keys, acc[a.category := acc[a.category] + [EntryOf(a)]])
  }

  /** The group keys follow the first occurrences of the categories. */
  lemma PushKeys(acts: seq<Activity>, i: nat, keys: seq<string>, acc: map<string, seq<Entry>>)
    requires i < |acts|
    requires keys == FirstOccurrences(acts[..i])
    requires forall k :: k in acc <==> k in keys
    ensures Push(keys, acc, acts[i]).0 == FirstOccurrences(acts[..i + 1])
    ensures forall k :: k in Push(keys, acc, acts[i]).1 <==> k in Push(keys, acc, acts[i]).0
  {
    assert acts[..i + 1][..i] == acts[..i];
  }

  /** Each group lists the entries of its category so far. */
  lemma PushEntries(acts: seq<Activity>, i: nat, keys: seq<string>, acc: map<string, seq<Entry>>)
    requires i < |acts|
    requires keys == FirstOccurrences(acts[..i])
    requires forall k :: k in acc <==> k in keys
    requires forall k :: k in acc ==> acc[k] == EntriesIn(acts[..i], k)
    ensures forall k :: k in Push(keys, acc, acts[i]).1 ==> Push(keys, acc, acts[i]).1[k] == EntriesIn(acts[..i + 1], k)
  {
    var a := acts[i];
    assert acts[..i + 1][..i] == acts[..i];
    if a.category !in acc {
      FirstOccurrencesSpec(acts[..i]);
      EntriesEmpty(acts[..i], a.category);
    }
  }

  /** Each step adds one entry to the total. */
  lemma PushTotal(keys: seq<string>, acc: map<string, seq<Entry>>, a: Activity)
    requires forall k :: k in acc <==> k in keys
    requires forall i, j :: 0 <= i < j < |keys| ==> keys[i] != keys[j]
    ensures Total(Values(Push(keys, acc, a).0, Push(keys, acc, a).1)) == Total(Values(keys, acc)) + 1
  {
    if a.category !in acc {
      TotalAppend(keys, acc, a.category, [EntryOf(a)]);
    } else {
      TotalGrows(keys, acc, a.category, EntryOf(a));
    }
  }

  /**
   * `getUserActivities`: the `reduce` into an object keyed by category, then
   * `Object.values`. The groups come in the order their categories first
   * occur, each lists its category's activities in fetch order, and together
   * they list every activity once.
   */
  method GroupByCategory(acts: seq<Activity>) returns (groups: seq<Group>)
    ensures |groups| == |FirstOccurrences(acts)|
    ensures forall j :: 0 <= j < |groups| ==>
              groups[j].category == FirstOccurrences(acts)[j] && groups[j].list == EntriesIn(acts, groups[j].category)
    ensures Total(groups) == |acts|
  {
    var keys: seq<string> := [];
    var acc: map<string, seq<Entry>> := map[];
    var i := 0;
    while i < |acts|
      invariant 0 <= i <= |acts|
      invariant keys == FirstOccurrences(acts[..i])
      invariant forall k :: k in acc <==> k in keys
      invariant forall k :: k in acc ==> acc[k] == EntriesIn(acts[..i], k)
      invariant Total(Values(keys, acc)) == i
    {
      FirstOccurrencesSpec(acts[..i]);
      PushKeys(acts, i, keys, acc);
      PushEntries(acts, i, keys, acc);
      PushTotal(keys, acc, acts[i]);
      keys, acc := Push(keys, acc, acts[i]).0, Push(keys, acc, acts[i]).1;
      i := i + 1;
    }
    assert acts[..i] == acts;
    groups := Values(keys, acc);
  }

  /** Each group holds activities of its own category only, and the groups' categories differ. */
  lemma GroupsArePartition(acts: seq<Activity>, groups: seq<Group>)
    requires |groups| == |FirstOccurrences(acts)|
    requires forall j :: 0 <= j < |groups| ==>
               groups[j].category == FirstOccurrences(acts)[j] && groups[j].list == EntriesIn(acts, groups[j].category)
    ensures forall i, j :: 0 <= i < j < |groups| ==> groups[i].category != groups[j].category
    ensures forall a :: a in acts ==> exists j :: 0 <= j < |groups| && groups[j].category == a.category
    ensures forall j, e :: 0 <= j < |groups| && e in groups[j].list ==>
              exists a :: a in acts && a.category == groups[j].category && EntryOf(a) == e
  {
    FirstOccurrencesSpec(acts);
    forall j, e | 0 <= j < |groups| && e in groups[j].list
      ensures exists a :: a in acts && a.category == groups[j].category && EntryOf(a) == e
    {
      EntriesFrom(acts, groups[j].category, e);
    }
    forall a | a in acts ensures exists j :: 0 <= j < |groups| && groups[j].category == a.category {
      var cs := FirstOccurrences(acts);
      assert a.category in cs;
      var j :| 0 <= j < |cs| && cs[j] == a.category;
      assert groups[j].category == a.category;
    }
  }

  lemma {:induction false} EntriesFrom(acts: seq<Activity>, c: string, e: Entry)
    requires e in EntriesIn(acts, c)
    ensures exists a :: a in acts && a.category == c && EntryOf(a) == e
  {
    var init := acts[..|acts| - 1];
    var last := acts[|acts| - 1];
    assert acts == init + [last];
    if e in EntriesIn(init, c) {
      EntriesFrom(init, c, e);
      var a :| a in init && a.category == c && EntryOf(a) == e;
      assert a in acts;
    } else {
      assert last in acts;
    }
  }

  /**
   * The users' saved affirmations: for each user id, the quote ids in
   * `savedAffirmations`, and the ids of the stored quotes.
   */
  class AffirmationBook {
    var saved: map<Id, seq<Id>>
    var quotes: set<Id>

    /** No user has saved the same quote twice. */
    ghost predicate Valid()
      reads this
    {
      forall u :: u in saved ==> NoDup(saved[u])
    }

    constructor (users: set<Id>, quotes: set<Id>)
      ensures Valid()
      ensures saved == (map u | u in users :: []) && this.quotes == quotes
    {
      saved := map u | u in users :: [];
      this.quotes := quotes;
    }

    /**
     * `saveAffirmation`: 400 for a malformed affirmation id, 404 for a
     * missing user or quote, 400 when the quote is already saved, and
     * otherwise the quote id appended once at the end of the user's list.
     */
    method SaveAffirmation(user: IdArg, affirmation: IdArg) returns (r: Outcome<()>)
      requires Valid()
      modifies this
      ensures Valid()
      ensures quotes == old(quotes)
      ensures r.Ok? <==>
                affirmation.Given? && user.Given? && user.id in old(saved) && affirmation.id in quotes
                && affirmation.id !in old(saved)[user.id]
      ensures r == Err(BadRequest) <==>
                !affirmation.Given? || (user.Given? && user.id in old(saved) && affirmation.id in quotes
                                        && affirmation.id in old(saved)[user.id])
      ensures r == Err(ServerError) <==> affirmation.Given? && user.Malformed?
      ensures r == Err(NotFound) <==>
                affirmation.Given? && !user.Malformed? && (!(user.Given? && user.id in old(saved)) || affirmation.id !in quotes)
      ensures r.Ok? ==> saved == old(saved)[user.id := old(saved)[user.id] + [affirmation.id]]
      ensures r.Err? ==> saved == old(saved)
    {
      if !affirmation.Given? {
        return Err(BadRequest);
      }
      var found := FindById(saved, user);
      if found.CastFailure? {
        return Err(ServerError);
      }
      if found.Miss? || affirmation.id !in quotes {
        return Err(NotFound);
      }
      var list := saved[found.id];
      if affirmation.id in list {
        return Err(BadRequest);
      }
      NoDupSnoc(list, affirmation.id);
      saved := saved[found.id := list + [affirmation.id]];
      r := Ok(());
    }
  }
}

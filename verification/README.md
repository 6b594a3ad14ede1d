# Discussion feed model

A Dafny model of the community discussion back end of a speech-practice
app. Users write posts. They comment on posts and reply to comments. They
like, bookmark, view and report posts. They page through the feeds with an
id cursor. The model covers:

- **Records.** `records.dfy` (module `DiscussionModel`) holds the Post, Comment,
  Reply, Like, Bookmark, View and Report records of
  `src/models/discussion.model.ts`, with the checks each schema makes when a
  document is created.
- **The store and its invariant.** `feed_state.dfy` (module `FeedState`)
  holds the store as one map per collection. Its invariant `Consistent`
  says:
  - every id in use is below the next fresh id;
  - every Like and Bookmark belongs to an existing post;
  - no (user, post) pair has two of them;
  - each post's `likes` and `bookmarks` array lists exactly its own records,
    each once.
- **Handlers that change the store.** `feed_handlers.dfy` (module
  `FeedHandlers`) gives each such handler of
  `src/controllers/discussion.controller.ts` as a transition function, from
  the tables and the request to the new tables and the answer.
  `feed_props.dfy` (module `FeedProps`) proves that every transition keeps
  `Consistent`, and proves what the toggles and the cascading delete do.
- **The store in place.** `feed_store.dfy` (module `FeedStore`) is the class
  `Feed`: its fields are the collections, and its methods update them step
  by step as the handlers do. Each method is proved to end in the state and
  give the answer of its transition function, and to keep `Valid()`.
- **Read-only handlers.** `pagination.dfy` (module `Pagination`),
  `trending.dfy` (module `Trending`), `feed_queries.dfy` (module
  `FeedQueries`) and `feed_cursors.dfy` (module `FeedCursors`) cover these
  handlers:
  - cursor pagination: filter below the cursor, sort newest first, apply
    `.limit`, hand back the last id;
  - the trending window and its stable sort by score;
  - the per-user lists;
  - what following `nextCursor` from page to page reaches.
- **Smaller pieces.**
  - `search.dfy` (module `Search`): the request check of `searchPosts`.
  - `image_url.dfy` (module `ImageUrl`): `extractPublicIdFromImageUrl` of
    `src/utils/helpers.ts`.
  - `cors.dfy` (module `Cors`): the `origin` callback of
    `src/config/corsOptions.ts`.
  - `activity.dfy` (module `Activities`):
    - the request check of `saveActivity`;
    - the grouping in `getUserActivities`, as an imperative loop;
    - the saved-affirmation list of `saveAffirmation`, as a class.
  - `validators.dfy` (module `Validators`): the zod schemas of
    `src/utils/validators/index.ts`.

**Ids.** Object ids are natural numbers, and the store hands out increasing
ones, so "newer" is "larger", as with the timestamp prefix of an object id. A
request's id argument is `Absent`, `Malformed` (fails the object-id cast) or
`Given(id)`.

**Errors.** A failed cast or schema check, or a property read on `undefined`,
throws without an HTTP status. The error middleware then answers 500, which
the model writes as `Err(ServerError)`.

## Model

| member | source | states |
|---|---|---|
| DiscussionModel.NewPost | src/models/discussion.model.ts:4-29 | A post is created exactly when it has an author id and non-empty content. It has those values, empty likes, comments and bookmarks arrays, and 0 views. |
| DiscussionModel.NewComment | src/models/discussion.model.ts:33-60 | A comment is created exactly when author, post and content are all present. It carries them, with empty likes and replies. |
| DiscussionModel.NewReply | src/models/discussion.model.ts:63-82 | A reply is created exactly when author, comment and content are all present. It carries them and tags nobody. |
| DiscussionModel.NewLike | src/models/discussion.model.ts:86-98 | A like is created exactly when user and post are present. It carries them, with no comment. |
| DiscussionModel.NewBookmark | src/models/discussion.model.ts:101-115 | A bookmark is created exactly when user and post are present, and it carries them. |
| DiscussionModel.NewView | src/models/discussion.model.ts:118-128 | A view is created exactly when user and post are present, and it carries them. |
| DiscussionModel.NewReport | src/models/discussion.model.ts:132-151 | A report is created exactly when post, user and a non-empty reason are present. It keeps the optional comments. |
| FeedState.FindById | src/controllers/discussion.controller.ts:344-347 | `findById` finds a document exactly when the id is well formed and present, and fails the cast exactly when the id is malformed. |
| FeedState.Without | src/controllers/discussion.controller.ts:360-362 | Filtering an id out of an array keeps every other element and keeps the array duplicate-free. A present id of a duplicate-free array makes it one shorter; an absent id leaves the array unchanged. |
| FeedState.WithoutAppended | src/controllers/discussion.controller.ts:360-365 | Pushing a fresh id and filtering it out again gives back the original array. |
| FeedHandlers.CommunityOnboarding | src/controllers/discussion.controller.ts:27-57 | Answers 401 with no caller, 400 with no username, 404 for an unknown user, and 500 for a user without `communityInfo`. Otherwise it sets `joined` and `author` on that user only, and every failure leaves the store alone. |
| FeedHandlers.GetPost | src/controllers/discussion.controller.ts:169-200 | Answers 500 for a malformed id and 404 for a missing post. Otherwise it answers the post with one more view and stores exactly that change. |
| FeedHandlers.CreatePost | src/controllers/discussion.controller.ts:203-232 | Answers 400 without a caller or content. Otherwise it stores a new empty post by the caller under a fresh id and answers that id. |
| FeedHandlers.EditPost | src/controllers/discussion.controller.ts:261-288 | Checks in order: 400, then 404 for a missing post, then 403 for a non-author. Otherwise it replaces only the content. |
| FeedHandlers.CascadePost | src/controllers/discussion.controller.ts:305-320 | Removes the post. Exactly the comments, likes, bookmarks, reports and views on the post go, and the replies to its comments. Every other record stays unchanged. |
| FeedHandlers.DeletePost | src/controllers/discussion.controller.ts:290-329 | Answers 500 for a malformed id, 404 for a missing post, 500 for an existing post with no caller, and 403 for a non-author. The author gets the cascade. |
| FeedHandlers.FindRecord | src/controllers/discussion.controller.ts:353-356 | `findOne` finds nothing exactly when the user has no record of that kind on the post. Otherwise it finds one of their records. |
| FeedHandlers.Toggle | src/controllers/discussion.controller.ts:331-381 | Answers 400 for a missing or malformed post or caller, and 404 for a missing post. Otherwise it answers whether the caller had no record, and only that post changes among the posts. |
| FeedHandlers.AddView | src/controllers/discussion.controller.ts:508-528 | Stores a View under a fresh id whenever both ids are well formed, even for a missing post, which then answers 500. An existing post gets exactly one more view. |
| FeedHandlers.CreateComment | src/controllers/discussion.controller.ts:384-422 | 400 without caller or content, 500 for a malformed id. Otherwise the comment is stored under a fresh id. A missing post answers 404 with the comment kept; an existing post gets the id appended to its `comments`. |
| FeedHandlers.DeleteComment | src/controllers/discussion.controller.ts:424-450 | Statuses 401, 400, 500, 404 and 403 in the source's order. The author removes the comment and exactly its replies. |
| FeedHandlers.CreateReply | src/controllers/discussion.controller.ts:725-754 | 400 without caller or content, 500 for a malformed id. Otherwise the reply is stored under a fresh id. A missing comment answers 404 with the reply kept; an existing comment gets the id appended to its `replies`. |
| FeedHandlers.DeleteReply | src/controllers/discussion.controller.ts:756-783 | 500 for a malformed id, 404 for a missing reply, 500 for no caller, 403 for a non-author. The author removes the reply alone. |
| FeedHandlers.ReportPost | src/controllers/discussion.controller.ts:826-853 | 400 without caller or reason. Otherwise it stores a report under a fresh id, with no check that the post exists. |
| FeedProps.CommunityOnboardingKeeps | src/controllers/discussion.controller.ts:27-57 | `communityOnboarding` keeps the store invariant. |
| FeedProps.GetPostKeeps | src/controllers/discussion.controller.ts:169-200 | `getPost` keeps the store invariant. |
| FeedProps.CreatePostKeeps | src/controllers/discussion.controller.ts:203-232 | `createPost` keeps the store invariant. |
| FeedProps.EditPostKeeps | src/controllers/discussion.controller.ts:261-288 | `editPost` keeps the store invariant. |
| FeedProps.CascadeKeepsMirror | src/controllers/discussion.controller.ts:305-320 | After the cascade, the remaining likes and bookmarks still agree with the remaining posts' arrays. |
| FeedProps.CascadeRecords | src/controllers/discussion.controller.ts:305-320 | The cascade keeps exactly the likes and bookmarks on other posts, unchanged. |
| FeedProps.DeletePostKeeps | src/controllers/discussion.controller.ts:290-329 | `deletePost` keeps the store invariant. |
| FeedProps.DeletePostLeavesNoTrace | src/controllers/discussion.controller.ts:305-320 | After a successful delete nothing refers to the post: no comment, like, bookmark, report or view, and no reply to one of its comments. |
| FeedProps.RemoveKeepsMirror | src/controllers/discussion.controller.ts:358-362 | Deleting a record and filtering its id out of its post's array keeps the records and arrays in agreement. |
| FeedProps.AddKeepsMirror | src/controllers/discussion.controller.ts:364-366 | Creating a record under a fresh id and pushing the id onto its post's array keeps them in agreement. |
| FeedProps.ToggleKeeps | src/controllers/discussion.controller.ts:331-381 | Toggling a like or a bookmark keeps the store invariant. |
| FeedProps.OffFacts | src/controllers/discussion.controller.ts:358-362 | Removing the caller's record leaves them none on the post, and the array loses exactly that id. |
| FeedProps.OnFacts | src/controllers/discussion.controller.ts:363-366 | Creating a record leaves the caller exactly the new one, and the array gains it at the end. |
| FeedProps.ToggleFlips | src/controllers/discussion.controller.ts:331-381 | A toggle flips the state. If the caller had no record, they end with exactly one and its id is pushed. Otherwise they end with none and the array loses exactly their record's ids. |
| FeedProps.OffUndoesOn | src/controllers/discussion.controller.ts:353-366 | Removing the record just created restores every table and the post. |
| FeedProps.ToggleTwice | src/controllers/discussion.controller.ts:331-381 | Toggling twice answers the original post with `byUser` false. It restores the store except that one id has been used up. |
| FeedProps.AddViewKeeps | src/controllers/discussion.controller.ts:508-528 | `addView` keeps the store invariant. |
| FeedProps.CreateCommentKeeps | src/controllers/discussion.controller.ts:384-422 | `createComment` keeps the store invariant. |
| FeedProps.DeleteCommentKeeps | src/controllers/discussion.controller.ts:424-450 | `deleteComment` keeps the store invariant. |
| FeedProps.CreateReplyKeeps | src/controllers/discussion.controller.ts:725-754 | `createReply` keeps the store invariant. |
| FeedProps.DeleteReplyKeeps | src/controllers/discussion.controller.ts:756-783 | `deleteReply` keeps the store invariant. |
| FeedProps.ReportPostKeeps | src/controllers/discussion.controller.ts:826-853 | `reportPost` keeps the store invariant. |
| FeedStore.Feed.CommunityOnboarding | src/controllers/discussion.controller.ts:27-57 | The in-place handler ends in the state and gives the answer of `FeedHandlers.CommunityOnboarding`, and keeps `Valid`. |
| FeedStore.Feed.GetPost | src/controllers/discussion.controller.ts:169-200 | Ends as `FeedHandlers.GetPost` says and keeps `Valid`. |
| FeedStore.Feed.CreatePost | src/controllers/discussion.controller.ts:203-232 | Ends as `FeedHandlers.CreatePost` says and keeps `Valid`. |
| FeedStore.Feed.EditPost | src/controllers/discussion.controller.ts:261-288 | Ends as `FeedHandlers.EditPost` says and keeps `Valid`. |
| FeedStore.Feed.DeletePost | src/controllers/discussion.controller.ts:290-329 | Runs the deletes one collection at a time. Ends as `FeedHandlers.DeletePost` says and keeps `Valid`. |
| FeedStore.Feed.ToggleLike | src/controllers/discussion.controller.ts:331-381 | Deletes the like and filters the array, or creates one and pushes its id. Ends as `FeedHandlers.Toggle` says for likes and keeps `Valid`. |
| FeedStore.Feed.ToggleBookmark | src/controllers/discussion.controller.ts:452-505 | The same for bookmarks. |
| FeedStore.Feed.AddView | src/controllers/discussion.controller.ts:508-528 | Ends as `FeedHandlers.AddView` says and keeps `Valid`. |
| FeedStore.Feed.CreateComment | src/controllers/discussion.controller.ts:384-422 | Ends as `FeedHandlers.CreateComment` says and keeps `Valid`. |
| FeedStore.Feed.DeleteComment | src/controllers/discussion.controller.ts:424-450 | Ends as `FeedHandlers.DeleteComment` says and keeps `Valid`. |
| FeedStore.Feed.CreateReply | src/controllers/discussion.controller.ts:725-754 | Ends as `FeedHandlers.CreateReply` says and keeps `Valid`. |
| FeedStore.Feed.DeleteReply | src/controllers/discussion.controller.ts:756-783 | Ends as `FeedHandlers.DeleteReply` says and keeps `Valid`. |
| FeedStore.Feed.ReportPost | src/controllers/discussion.controller.ts:826-853 | Ends as `FeedHandlers.ReportPost` says and keeps `Valid`. |
| Pagination.DescendingSorts | src/controllers/discussion.controller.ts:73 | `sort({ _id: -1 })` lists exactly the ids of the set, strictly newest first. |
| Pagination.Taken | src/controllers/discussion.controller.ts:74 | `.limit(n)` returns `n` matches, or all of them when there are fewer or when `n` is 0. |
| Pagination.Below | src/controllers/discussion.controller.ts:69-70 | A well-formed cursor keeps exactly the ids below it. A missing or malformed cursor keeps everything. |
| Pagination.PageOf | src/controllers/discussion.controller.ts:66-98 | A page has `Taken` items, strictly descending, from the set and below the cursor. It holds the newest ones, since every left-out id is older than every returned one. The next cursor is the last item, null exactly when the page is empty. |
| Pagination.PageIsPrefix | src/controllers/discussion.controller.ts:72-74 | The page is the start of the sorted, filtered listing. |
| Pagination.NextPageFollows | src/controllers/discussion.controller.ts:98 | The listing below the cursor is this page followed by the listing below its next cursor. |
| Pagination.NextPageSmaller | src/controllers/discussion.controller.ts:98 | Following a non-empty page's cursor leaves strictly fewer ids. |
| Pagination.ChainListsAll | src/controllers/discussion.controller.ts:66-98 | Following `nextCursor` until a page is empty returns the whole descending listing, for any limit, with nothing skipped or repeated. |
| Trending.Live | src/controllers/discussion.controller.ts:144 | `.populate('comments')` keeps exactly the ids of comments that still exist, and keeps the array when all exist. |
| Trending.Window | src/controllers/discussion.controller.ts:132-138 | The window is the newest at most 100 posts below the cursor, newest first: every left-out post below the cursor is older. |
| Trending.SortByScore | src/controllers/discussion.controller.ts:153 | The stable sort on a window listed newest first is a permutation of it, ranked by score, with newer first on ties. |
| Trending.TrendingPage | src/controllers/discussion.controller.ts:109-160 | The page holds `min(limit, window size)` posts of the window, ranked. No left-out window post outranks a returned one. The cursor is the last item. |
| Trending.TrendingIsSortedWindow | src/controllers/discussion.controller.ts:153-155 | The page is exactly the first `limit` posts of the score-sorted window. |
| Trending.ScoreGrowsWithComments | src/controllers/discussion.controller.ts:126-129 | More comments, all else equal, means a strictly higher score. |
| Trending.ScoreGrowsWithViews | src/controllers/discussion.controller.ts:126-129 | More views, all else equal, means a strictly higher score. |
| Trending.ScoreGrowsWithLikes | src/controllers/discussion.controller.ts:126-129 | With the likes counted, more likes, all else equal, means a strictly higher score. |
| Trending.ScoreAsWritten | src/controllers/discussion.controller.ts:126-129 | As written, the score is NaN exactly when the post has a like. Otherwise it is the counted score. Like `Score`, it is meant for a post with its comments populated. |
| Trending.CompareAsWritten | src/controllers/discussion.controller.ts:153 | The comparator orders two unliked posts by score and calls any pair involving a liked post equal. |
| Trending.LikesIgnoredAsWritten | src/controllers/discussion.controller.ts:126-129 | A liked post ties with its unliked twin, and with two posts the comparator orders strictly. |
| FeedQueries.AllPosts | src/controllers/discussion.controller.ts:60-105 | `getAllPosts` gives exactly the cursor page of all posts: the newest `Taken` posts below the cursor, newest first, with the last id as cursor. |
| FeedQueries.TrendingPosts | src/controllers/discussion.controller.ts:109-166 | `getTrendingPosts` gives exactly the trending page of the posts with their comments populated. The posts exist and lie below the cursor. There are `min(limit, 100, posts below the cursor)` of them, ranked, with no left-out window post outranking a returned one. The cursor is the last id. |
| FeedQueries.DeletedCommentNotCounted | src/controllers/discussion.controller.ts:128-144 | The id of a deleted comment stays in its post's `comments` but adds nothing to the score: a post with one view comes before it. |
| FeedQueries.UserPosts | src/controllers/discussion.controller.ts:530-564 | 400 unless the caller is a well-formed id. Otherwise exactly the cursor page of the caller's own posts: the newest `Taken` of them below the cursor, newest first. |
| FeedQueries.UserComments | src/controllers/discussion.controller.ts:566-610 | 400 unless the caller is a well-formed id. Otherwise exactly the cursor page of the caller's own comments: the newest `Taken` of them below the cursor, newest first. |
| FeedQueries.RepliesForComment | src/controllers/discussion.controller.ts:785-823 | 400 unless the comment id is well formed. Otherwise exactly the cursor page of that comment's replies: the newest `Taken` of them below the cursor, newest first. |
| FeedQueries.ReportsForPost | src/controllers/discussion.controller.ts:855-874 | 500 for a malformed id. Otherwise exactly the reports on the post. |
| FeedQueries.LikedPostsAsWritten | src/controllers/discussion.controller.ts:612-677 | 400 unless the caller is well formed. Otherwise the same posts as the corrected list (those of the page of likes, newest first), with the last post's id as cursor. |
| FeedQueries.LikedPosts | src/controllers/discussion.controller.ts:612-677 | As above, but the cursor is the one of the page of likes. |
| FeedQueries.BookmarkedPosts | src/controllers/discussion.controller.ts:679-723 | 400 unless the caller is well formed. Otherwise bookmarked existing posts, newest first, with the bookmark page's cursor. |
| FeedCursors.MarkedPageContents | src/controllers/discussion.controller.ts:679-723 | Each page lists exactly the existing posts of its page of records, and passes on that page's cursor. |
| FeedCursors.MarkedChainFollowsRecords | src/controllers/discussion.controller.ts:679-723 | Following the handler's cursor collects the posts of the chained pages of records. |
| FeedCursors.MarkedChainComplete | src/controllers/discussion.controller.ts:679-723 | Starting from no cursor, the chain reaches exactly the existing posts the caller has bookmarked (or, corrected, liked), for any limit. |
| FeedCursors.LikedTwiceReachable | src/controllers/discussion.controller.ts:331-381 | The counterexample store arises from an empty one by two `createPost` and two `toggleLikePost` calls. |
| FeedCursors.LikedCursorSkipsPost | src/controllers/discussion.controller.ts:633-671 | On that store with limit 1, the liked list as written ends after page [1], although post 0 is liked too. |
| Search.TrimStart | src/controllers/discussion.controller.ts:241 | Drops exactly a leading run of white space. |
| Search.TrimEnd | src/controllers/discussion.controller.ts:241 | Drops exactly a trailing run of white space. |
| Search.TrimEmpty | src/controllers/discussion.controller.ts:241 | A string trims to "" exactly when every character is white space. |
| Search.SearchQuery | src/controllers/discussion.controller.ts:239-247 | 400 unless the picked query value is a string with a non-white-space character. Otherwise it searches for that string. |
| ImageUrl.Split | src/utils/helpers.ts:8 | `split('/')` gives one more segment than there are slashes, none holding a slash. |
| ImageUrl.JoinSplit | src/utils/helpers.ts:8-9 | Joining the split segments gives back the URL. |
| ImageUrl.LastTwo | src/utils/helpers.ts:9 | `slice(-2)` keeps the last two segments, or all of them when there are fewer. |
| ImageUrl.TailIsSuffix | src/utils/helpers.ts:8-9 | The rejoined tail is a suffix of the URL. |
| ImageUrl.LastIndexOf | src/utils/helpers.ts:10 | `lastIndexOf` gives -1 exactly when the character is absent. Otherwise it gives the last index holding it. |
| ImageUrl.BeforeLastDot | src/utils/helpers.ts:10 | The result is "" without a dot. Otherwise it is the prefix up to the last dot. |
| ImageUrl.PublicId | src/utils/helpers.ts:7-11 | The public id is the rejoined last two segments cut before their last dot: "" without a dot, and always a prefix of them. |
| ImageUrl.PublicIdSlashes | src/utils/helpers.ts:7-11 | The public id holds at most one '/'. |
| Cors.IndexOf | src/config/corsOptions.ts:7 | `indexOf` gives -1 exactly when the origin is absent from the list. Otherwise it gives its first index. |
| Cors.CheckOrigin | src/config/corsOptions.ts:5-12 | Allows exactly a missing or empty origin or one listed verbatim; otherwise it fails with the fixed message. |
| Cors.NoNormalisation | src/config/allowedOrigins.ts:1-10 | Matching is exact: a trailing slash, an upper-case scheme or `localhost:4000` is refused. |
| Activities.CheckActivity | src/controllers/activity.controller.ts:16-23 | 400 exactly when one of date, title, timeSpent or category is falsy. Otherwise the body passes unchanged. |
| Activities.ZeroTimeAndNote | src/controllers/activity.controller.ts:16-23 | A time spent of 0 is refused, and the note never matters. |
| Activities.FirstOccurrencesSpec | src/controllers/activity.controller.ts:59-96 | The group keys are exactly the categories present, each once. |
| Activities.EntriesEmpty | src/controllers/activity.controller.ts:59-94 | A category's list is empty exactly when no activity has it. |
| Activities.GroupByCategory | src/controllers/activity.controller.ts:50-98 | One group per category, in order of first occurrence. Each lists its category's activities in fetch order, and the groups hold all activities in total. |
| Activities.GroupsArePartition | src/controllers/activity.controller.ts:59-96 | The group categories differ pairwise, every activity has its group, and every entry comes from an activity of its group's category. |
| Activities.AffirmationBook.SaveAffirmation | src/controllers/activity.controller.ts:140-167 | 400 for a malformed affirmation id, 500 for a malformed user id, 404 for a missing user or quote, and 400 for an already saved quote. Otherwise the id is appended once, lists stay duplicate-free, and failures change nothing. |
| Validators.Utf16Length | src/utils/validators/index.ts:12 | A string's length in UTF-16 code units lies between its character count and twice that, and is 0 only for "". |
| Validators.StringMin | src/utils/validators/index.ts:5 | `z.string().min(n)` accepts exactly strings of at least `n` code units, unchanged. |
| Validators.Email | src/utils/validators/index.ts:7 | `z.string().email()` accepts exactly strings that pass the e-mail check. |
| Validators.ParseSignup | src/utils/validators/index.ts:4-8 | Accepts exactly objects with non-empty names and an e-mail, and yields those three fields. |
| Validators.ParseVerifyEmail | src/utils/validators/index.ts:10-13 | Accepts exactly an e-mail and a token of six code units, which has 3 to 6 characters. |
| Validators.ParseLogin | src/utils/validators/index.ts:15-18 | Accepts exactly an e-mail and a password of at least six code units. |
| Validators.OptionalString | src/utils/validators/index.ts:73-74 | `.optional()` accepts exactly an absent value or a string. |
| Validators.Goal | src/utils/validators/index.ts:60-64 | A goal is absent (giving 5) or a number in [2, 20], and the result is always in range. |
| Validators.ParseGoals | src/utils/validators/index.ts:58-72 | An absent `dailyGoal` gives all fives. Otherwise every goal must pass, each result is the number the body gives or 5 when it gives none, and all are in range. |
| Validators.GoalDefault | src/utils/validators/index.ts:60-64 | A goal left out of a given `dailyGoal` comes out as 5. |
| Validators.ParseOnboarding | src/utils/validators/index.ts:55-75 | Accepts exactly non-empty `why` and `stutterGrade`, valid goals and optional strings. The result carries the body's `why`, `stutterGrade`, `dob` and `reminder` and the parsed goals; an absent `dailyGoal` gives the defaults. |
| Validators.ParseUpdateUser | src/utils/validators/index.ts:21-52 | Accepts exactly objects whose known fields are absent or of their kind (a `z.date()` takes no JSON value). It keeps exactly the present known fields, with unknown keys stripped from the two sub-objects. |
| Validators.UpdateUserAllOptional | src/utils/validators/index.ts:21-52 | The empty object passes, and so does an accepted body with any field removed. |

## Left out

- Database I/O, `populate`, `lean` and the response shapes are not modelled. Handlers answer ids and records, not populated documents. The one exception is the trending score, which reads the populated `comments` (`Trending.Populated`).
- The `totalPosts` and `totalReplies` counts (`countDocuments`) are not modelled.
- `searchPosts` is modelled up to the `$text` search; the text index and its scoring are not modelled.
- Socket emits after a handler succeeds are left out.
- Concurrent requests are left out. Each handler runs alone, as one sequence of steps.
- Timestamps are left out; the order of ids stands in for creation time.
- Object ids are natural numbers handed out in increasing order. Their hex-string form and its cast rules are reduced to `Absent`, `Malformed` and `Given`.
- `limit` is the number the caller's query gives. An absent `limit` defaults to 10 in every paginated handler; the model has no default and takes the number as given. `Number(limit)` is taken as a natural number. A non-numeric limit (NaN) and a negative limit are not modelled.
- The e-mail format check of zod is a parameter `isEmail`. Its regular expression is not modelled.
- `Comment.likes` is carried in the record, but no handler in the model changes it.
- `getTodayAffirmation` is left out: it depends on the clock and on a random pick.
- `deleteSavedAffirmation` and the rest of the activity controller's handlers are left out.
- `ActivityModel.find` with an undefined user id is not modelled. The model groups the activities it is given.
- Integer-like category names are left out. `Object.values` lists those first, in numeric order; the model lists every category in insertion order.
- Category names that clash with `Object.prototype` members (such as `constructor`) are left out.
- FeedQueries.ReportsForPost: answers the set of report ids, not the list in insertion order.
- Trending.ScoreAsWritten: treats every non-empty `likes` array as NaN. The source gets a number for a single like whose object id is made only of decimal digits, and the model does not cover that case.
- Trending.TrendingPage: uses the corrected score, with the likes counted (see Findings). `FeedQueries.TrendingPosts` applies it to the posts with their comments populated, so deleted comments do not count. The score is also scaled by 10 to stay in integers, which keeps the order of the source's decimal weights.

## Findings

| source | as written | input that shows it | evidently intended | confidence | as-written member | corrected member |
|---|---|---|---|---|---|---|
| src/controllers/discussion.controller.ts:670-671 | `getUserLikedPosts` returns the id of the last liked post as `nextCursor`, but the next request compares the cursor with like ids (lines 633-636) | User 7 creates posts 0 and 1; user 9 likes them (likes 2 and 3). With limit 1, page one is [1] with cursor 1, and page two looks for likes below 1, finds none and ends. Post 0 is never listed | the cursor of the page of likes, as `getUserBookmarkedPosts` does | high; not executed | FeedCursors.LikedCursorSkipsPost | FeedCursors.MarkedChainComplete |
| src/controllers/discussion.controller.ts:126-129 | the trending score multiplies the `likes` array by 0.5, which makes the score of any liked post NaN, and the sort comparator then calls that post equal to every post | A post with one like and one view ties with the same post without the like, and with a post of two views that the comparator puts before a post of one view | `post.likes.length * 0.5`, as the comments term counts comments | high; not executed | Trending.LikesIgnoredAsWritten | Trending.ScoreGrowsWithLikes |

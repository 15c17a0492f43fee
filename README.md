# Post board model

A Dafny model of the data layer of a small link-sharing board.

Signed-in users submit links (a title and a URL). Anyone can list them, ranked by points and then by age, ten to a page. Signed-in users toggle their upvote on a post.

The model covers:

- The two server actions, as a store class over the `posts` collection: `submitPost` and `voteOnPost`.
- The submission schema, and the post schema's declared defaults. No code path parses a stored post with the post schema: the listing returns documents as stored, with only a missing `votes` read as [].
- The ranked, paginated listing, both as `fetchPostsFromDB` and as the `GET /api/posts` endpoint.
- The server component that numbers the posts of a page, and the client pager that draws its links and builds their targets.
- The optimistic vote shown by a post item.
- The list updater that re-sorts the list after a vote.
- The "time ago" wording.

Each module follows one source file:

| module | file |
|---|---|
| `Wrappers` | `Option` and `Result` |
| `Text` | JavaScript's `trim()`, `parseInt(s, 10)` and the decimal text of a number |
| `SearchParams` | the part of `URLSearchParams` the pager uses |
| `Schemas` | `lib/schemas.ts` |
| `Ranking` | the listing order: points descending, then `submittedAt` descending, with a missing `points` below every number as the store sorts null |
| `Actions` | `lib/actions.ts` |
| `Posts` | `lib/posts.ts` |
| `PostsRoute` | `app/api/posts/route.ts` |
| `PostListServer` | `components/PostListServer.tsx` |
| `PostListPagination` | `components/PostListPagination.tsx` |
| `PostItem` | `components/PostItem.tsx` |
| `PostList` | `components/PostList.tsx` |
| `Utils` | `lib/utils.ts` |

Outside inputs and how the model takes them:

- **The session.** A parameter: `Option<User>`, where `None` means no signed-in user.
- **The clock.** Integer milliseconds, passed in.
- **Whether `new URL(s)` succeeds.** A function parameter, `parsesAsUrl`. The model does not parse URLs.
- **Store failures in the listing endpoint.** A boolean, `storeAvailable`.
- **Post ids.** Natural numbers handed out by the store from a counter, standing for generated ObjectIds.
- **Cache invalidation.** A ghost counter, `revalidations`. Each successful mutation increments it, standing for `revalidateTag("posts")`.

Where the code and its documentation differ, the model follows the code:

- **Whitespace-only title.** The title length checks run on the string as submitted, before `.trim()`. A title made only of spaces is accepted and stored as the empty title (`Schemas.BlankTitleAccepted`).
- **300-character title.** Accepted, although the message says "less than 300 characters".
- **Empty url.** Reported with both "URL is required" and "Please enter a valid URL". The refinement still runs after `min(1)` fails.
- **Points of a listed post.** PostItem's props are typed as a parsed `Post`, but the listing hands it documents as stored. The post schema's default of 1 point is never applied. A document without `points` shows no number, and `voteOnPost` counts it from 0 (`PostItem.MissingPointsShowNoNumber`). The model keeps a listed post's points optional.

## Model

| member | source | states |
|---|---|---|
| Text.TrimStart | app/api/posts/route.ts:7-8 | drops exactly the leading whitespace (as `parseInt` and `trim()` do): the result is a suffix, what was dropped is all whitespace, and the result does not start with whitespace |
| Text.TrimEnd | lib/schemas.ts:7 | drops exactly the trailing whitespace: the result is a prefix, what was dropped is all whitespace, and the result does not end with whitespace |
| Text.Trim | lib/schemas.ts:7 | `trim()` returns the infix of the input that starts where the leading whitespace stops, with only whitespace before and after it; the result neither starts nor ends with whitespace |
| Text.TrimIdempotent | lib/schemas.ts:10 | trimming an already trimmed string changes nothing |
| Text.TrimEmptyIffBlank | lib/schemas.ts:10 | a string trims to "" exactly when it is all whitespace |
| Text.IntToString | components/PostListPagination.tsx:35 | `page.toString()`: a leading '-' exactly for negative numbers, then the decimal numeral of the magnitude |
| Text.NatToString | components/PostListPagination.tsx:35 | the numeral of a natural number is a non-empty string of digits whose value is that number, with no leading zero except for 0 itself |
| Text.DigitPrefix | app/api/posts/route.ts:7 | what `parseInt` reads: the longest prefix made of digits |
| Text.ParseInt | app/api/posts/route.ts:7-8 | `parseInt(s, 10)`: skip leading whitespace, read an optional sign and the longest run of digits, NaN (None) when there are none; `ParseIntOfNatToString` states what it gives back on numerals |
| Text.ParseIntOfNatToString | app/api/posts/route.ts:7-8 | `parseInt(String(n), 10) == n` for every natural number |
| Schemas.ParsePost | lib/schemas.ts:21-30 | the post schema's declared reading of a stored post keeps every field, defaulting a missing `points` to 1 and missing `votes` to []; no code path applies it |
| Schemas.ParseSubmission | lib/schemas.ts:3-19 | accepted exactly when 1 <= title length <= 300 before trimming, the url is non-empty, and the trimmed url parses; the result is both fields trimmed; a refusal carries at least one issue |
| Schemas.RejectionNamesFailedChecks | lib/schemas.ts:5-18 | a refusal names each failed check, and only those: "Title is required" iff the title is empty, "Title must be less than 300 characters" iff longer than 300, "URL is required" iff the url is empty, "Please enter a valid URL" iff the trimmed url does not parse |
| Schemas.TitleIssues | lib/schemas.ts:5-6 | the title checks report "Title is required" iff the title is empty and "Title must be less than 300 characters" iff it is longer than 300, no url issue, and nothing exactly when 1 <= length <= 300 |
| Schemas.UrlIssues | lib/schemas.ts:9-18 | the url checks report "URL is required" iff the url is empty and "Please enter a valid URL" iff the trimmed url does not parse, no title issue, and nothing exactly when both pass |
| Schemas.NoIssuesIffBothPass | lib/schemas.ts:3-19 | the schema finds no issue exactly when every title and url check passes |
| Schemas.AcceptedSubmissionIsClean | lib/schemas.ts:5-18 | an accepted submission is already trimmed, its title is at most 300 characters long, and its url parses |
| Schemas.BlankUrlRejected | lib/schemas.ts:9-18 | a whitespace-only url passes `min(1)` but is refused as not a URL |
| Schemas.BlankTitleAccepted | lib/schemas.ts:5-7 | a whitespace-only title of 1..300 characters is accepted as the empty title |
| Ranking.PointsAtLeast | lib/posts.ts:32 | `points: -1`: more points first, with a missing value below every number as the store sorts null; the client comparator at components/PostList.tsx:48 sees only numbers |
| Ranking.RanksAtLeast | lib/posts.ts:32 | `{ points: -1, submittedAt: -1 }`: points first, then the later submission first among equal points, the same order as the client comparator at components/PostList.tsx:48, which compares the points difference and then the time difference |
| Ranking.RanksAtLeastIsTotalPreorder | lib/posts.ts:32 | the order (points desc, submittedAt desc) is reflexive, total and transitive, and ties only equal keys |
| Ranking.Insert | lib/posts.ts:32 | inserting into a sorted list keeps it sorted and adds exactly that element |
| Ranking.SortBy | lib/posts.ts:32 | the ranking is sorted by (points desc, submittedAt desc) and is a permutation of its input |
| Ranking.SortSortedIsIdentity | components/PostList.tsx:48 | sorting a list already in ranking order leaves it exactly as it is |
| Posts.Skip | lib/posts.ts:21 | `(page - 1) * limit` is never negative for a page of at least 1, and is 0 exactly on the first page |
| Posts.TotalPages | lib/posts.ts:28 | `Math.ceil(count / limit)`: the fewest pages of `limit` that hold `count`, and 0 exactly when there are no posts |
| Posts.Window | lib/posts.ts:33-34 | `.skip(k).limit(l)`: `min(l, n - k)` items starting at position `k`, and none when `k >= n` |
| Posts.Page | lib/posts.ts:33-34 | page `page` of `limit` items holds at most `limit` items, is empty exactly when the skip reaches the end, and item i is the item at position skip + i |
| Posts.Ranked | lib/posts.ts:30-32 | the collection in ranking order: sorted and a permutation |
| Posts.ForResponse | lib/posts.ts:38-42 | a listed post keeps every field, except that a missing `votes` becomes [] |
| Posts.Listing | lib/posts.ts:30-42 | the whole ranked collection as returned, sorted, one response document per ranked post |
| Posts.WindowOfSorted | lib/posts.ts:32-34 | a skip/limit slice of a sorted list is sorted |
| Posts.FetchPostsFromDB | lib/posts.ts:20-54 | the pagination info (`currentPage = page`, `totalCount = n`, ceiling pages, `hasNextPage` iff `page < totalPages`, `hasPrevPage` iff `page > 1`); the posts are the page-th slice of the listing, with size `min(limit, n - skip)`, and are sorted |
| Posts.PagesFromCoverRest | lib/posts.ts:21-35 | the pages from `first` to the last one, concatenated, are everything after the posts of the earlier pages |
| Posts.PagesPartition | lib/posts.ts:21-35 | pages 1..totalPages, concatenated, are the ranked list itself, with no gap and no overlap |
| Posts.PageSizes | lib/posts.ts:28-35 | every page before the last is full; the last holds the remainder, at least one post; pages past the last are empty |
| Posts.FetchedPagesCoverCollection | lib/posts.ts:20-54 | the served pages 1..totalPages together return every post exactly once, in listing order |
| Posts.TwentyFivePostsMakeThreePages | lib/posts.ts:28-52 | 25 posts make pages of 10, 10 and 5, and the third page has no next page |
| SearchParams.Get | components/PostListPagination.tsx:31 | `get` yields nothing exactly when no pair has the name; otherwise the value of a pair with that name that no earlier pair shares the name with, i.e. the first one |
| SearchParams.FirstIndex | components/PostListPagination.tsx:35 | the position of the first pair with the name, holding the value `get` returns |
| SearchParams.Delete | components/PostListPagination.tsx:33 | `delete` removes every pair with that name and keeps the others and their values; a single pair stays exactly when its name differs, and with `DeleteAppend` the kept pairs stay in their order and number |
| SearchParams.DeleteAppend | components/PostListPagination.tsx:33 | deleting from two lists joined is deleting from each and joining the results |
| SearchParams.Set | components/PostListPagination.tsx:35 | after `set` the name reads as the new value, other names read as before, and apart from that name the pairs are unchanged; an absent name gets one pair appended at the end, and a present one is replaced in place with its later pairs removed (`ReplaceFirst`) |
| SearchParams.ReplaceFirst | components/PostListPagination.tsx:35 | `set` on a present name gives the pairs before the first one unchanged, then (name, value) in its place, then the later pairs without that name; lookups of other names are unchanged |
| SearchParams.DeleteTwice | components/PostListPagination.tsx:33 | deleting a name twice is deleting it once |
| SearchParams.SetAbsentAppends | components/PostListPagination.tsx:35 | appending a pair under an absent name reads as the new value there, leaves every other name's value alone, and deletes back to the original list's deletion |
| SearchParams.Serialize | components/PostListPagination.tsx:38-39 | `toString()` is empty exactly when there are no pairs, and one pair reads `name=value` |
| SearchParams.SerializeAppend | components/PostListPagination.tsx:38-39 | the text of two non-empty lists joined is their texts joined by one '&'; with the one-pair case this fixes the whole text |
| PostsRoute.IntParam | app/api/posts/route.ts:7-8 | `parseInt(searchParams.get(name) \|\| fallback, 10)`: an absent or empty parameter reads the fallback |
| PostsRoute.RequestedPage | app/api/posts/route.ts:7 | an absent or empty `page` reads as 1; any other value is what `parseInt` makes of it |
| PostsRoute.RequestedLimit | app/api/posts/route.ts:8 | an absent or empty `limit` reads as 10; any other value is what `parseInt` makes of it |
| PostsRoute.HandleGet | app/api/posts/route.ts:4-47 | any store failure gives status 500 with "Internal server error" and nothing else does; otherwise the body is the listing for the parsed page and limit, as `fetchPostsFromDB` computes it |
| PostsRoute.AbsentParamsMeanFirstPageOfTen | app/api/posts/route.ts:7-8 | a request without `page` and `limit` reads as page 1 of 10 |
| PostsRoute.DefaultsParse | app/api/posts/route.ts:7-8 | the fallbacks "1" and "10" parse as 1 and 10 |
| PostListPagination.QueryFor | components/PostListPagination.tsx:31-36 | moving to page 1 removes `page`; any other page sets it to its numeral; every other parameter is kept |
| PostListPagination.Href | components/PostListPagination.tsx:38-39 | the target is "/" exactly when the query is empty, else "/?" followed by the query |
| PostListPagination.HandlePageChange | components/PostListPagination.tsx:29-42 | navigation happens exactly when 1 <= page <= totalPages, and goes to the current address with `page` adjusted |
| PostListPagination.PagerTargetFromHome | components/PostListPagination.tsx:31-39 | from the bare address, page 1 leads to "/" and page p >= 2 to "/?page=" followed by the numeral of p |
| PostListPagination.PagerTargetAppendsPage | components/PostListPagination.tsx:31-39 | with other parameters and no `page`, moving to page p >= 2 leads to "/?", the existing query, "&page=" and the numeral of p |
| PostListPagination.PageParamRoundTrip | components/PostListPagination.tsx:31-36 | the query the pager builds reads back, as the listing endpoint parses `page`, as the page asked for |
| PostListPagination.PageLinks | components/PostListPagination.tsx:60-73 | links are exactly 1..totalPages, in order, each active iff it is the current page |
| PostListPagination.ActiveLinks | components/PostListPagination.tsx:64 | exactly one link is active when the current page exists, none otherwise |
| PostListPagination.RenderPager | components/PostListPagination.tsx:48-85 | Previous is shown iff `hasPrevPage` and leads to currentPage-1; Next is shown iff `hasNextPage` and leads to currentPage+1 |
| PostListPagination.EveryControlNavigates | components/PostListPagination.tsx:30-85 | with consistent props, every control the pager shows passes the navigation guard |
| PostListServer.GlobalIndex | components/PostListServer.tsx:24 | the number passed with item i is the page's skip plus i plus 1, so at least 1 |
| PostListServer.Render | components/PostListServer.tsx:9-41 | "No posts yet" exactly when the page is past the last; otherwise item i is passed the number `(page-1)*10 + i + 1` and is that post of the listing; the pager is shown iff totalPages > 1, with props taken from the pagination info |
| PostListServer.Numbered | components/PostListServer.tsx:23-26 | item i carries post i and is passed the number `(page-1)*10 + i + 1` |
| PostListServer.PageItemsAreListed | components/PostListServer.tsx:23-26 | every number passed is between 1 and the post count, and it is the post's place in the listing |
| PostListServer.IndicesOf | components/PostListServer.tsx:24 | the numbers of a page's items, in order |
| PostListServer.OneTo | components/PostListServer.tsx:24 | the sequence 1..n |
| PostListServer.NumbersArePageOfPositions | components/PostListServer.tsx:24 | the numbers passed on page p are page p of 1..totalCount |
| PostListServer.NumbersFromArePages | components/PostListServer.tsx:24 | the numbers passed on pages first..last are those pages of 1..totalCount |
| PostListServer.NumberingCoversAll | components/PostListServer.tsx:24 | across pages 1..totalPages the numbers passed are exactly 1..totalCount, in order |
| PostListServer.ShownPagerIsConsistent | components/PostListServer.tsx:31-38 | a pager that is shown has consistent props |
| Actions.AuthorName | lib/actions.ts:40 | the author name is the user's name when it is not empty, and "Anonymous User" exactly when it is; never empty |
| Actions.PointsOf | lib/actions.ts:83 | `post.points \|\| 0`: the stored points, or 0 when missing |
| Actions.VotesOf | lib/actions.ts:80 | `post.votes \|\| []`: the stored voters, or none when missing |
| Actions.WellFormed | lib/actions.ts:35-43 | the invariant every post keeps: no voter twice, and the points are the number of voters |
| Actions.Without | lib/actions.ts:88 | `filter(id => id !== voter)` removes every occurrence of the voter and keeps everyone else; with no duplicates it shortens the list by one when the voter was present |
| Actions.ToggleVote | lib/actions.ts:79-112 | only `points` and `votes` change; `hasVoted` is true iff the voter is now in `votes` iff they were not before; other voters are unaffected; points become max(0, p-1) when the vote is withdrawn and p+1 when it is cast, reading missing values as 0 and [] |
| Actions.ToggleKeepsWellFormed | lib/actions.ts:86-94 | a toggle keeps "no duplicate voters and points = number of voters", and moves the points by exactly one |
| Actions.ToggleTwiceRestores | lib/actions.ts:86-94 | two toggles by the same voter restore the points, the voters and every other field |
| Actions.RemoveThenAdd | lib/actions.ts:88-92 | withdrawing then casting a vote gives back the same voters |
| Actions.AddThenRemove | lib/actions.ts:88-92 | casting then withdrawing a vote gives back exactly the same voter list |
| Actions.MovedToEnd | lib/actions.ts:88-92 | moving one voter to the end keeps the same voters |
| Actions.WithoutAt | lib/actions.ts:88 | removing a voter who appears once deletes exactly their position |
| Actions.WithoutAppend | lib/actions.ts:88-92 | removing a voter who was just appended restores the list |
| Actions.ToggleAll | lib/actions.ts:79-112 | a sequence of votes gives one result per vote |
| Actions.ToggleAllNetEffect | lib/actions.ts:79-112 | after any sequence of votes the post is still well formed, and its points are the start plus the votes cast minus the votes withdrawn |
| Actions.UrlTaken | lib/actions.ts:29-33 | `findOne({ url })` finds a post: some stored post carries exactly that url, which `SubmitDecision` turns into the duplicate-url error |
| Actions.FindById | lib/actions.ts:71-77 | `findOne({_id})` finds the post with that id, or reports that none has it |
| Actions.NewPost | lib/actions.ts:35-43 | a new post takes the given id, the trimmed title and url, the author's id and name (or "Anonymous User") and the time; it has one point and its author as its only voter, so it is well formed |
| Actions.ToggleAtKeepsValid | lib/actions.ts:96-104 | updating one post with a toggle keeps ids and urls unique and every post well formed |
| Actions.InsertKeepsValid | lib/actions.ts:30-45 | inserting a well-formed post with a fresh id and an unused url keeps the collection valid |
| Actions.SubmitDecision | lib/actions.ts:10-33 | the checks run in order: no session gives Unauthorized; then a refused submission gives the schema's issues; then a url already present gives DuplicateUrl; it succeeds exactly when all pass, with the trimmed submission |
| Actions.PostStore.SubmitPost | lib/actions.ts:10-55 | a refusal by `SubmitDecision` is returned and changes nothing; otherwise exactly the new post for the accepted submission is appended under the next id, the cache is invalidated once, and the store stays valid |
| Actions.PostStore.InsertAndRevalidate | lib/actions.ts:45-48 | inserting a well-formed post with the next id and an unused url appends it, advances the id counter and invalidates the cache once, keeping the store valid |
| Actions.PostStore.VoteOnPost | lib/actions.ts:57-118 | no session gives Unauthorized; an unknown id gives PostNotFound and changes nothing; otherwise only that post is replaced by its toggled version, the result is the toggle's result, and the cache is invalidated once |
| Actions.SubmitTwice | lib/actions.ts:29-33 | submitting the same link twice: the second attempt fails with DuplicateUrl and one post holds the url |
| PostItem.InitialVoteData | components/PostItem.tsx:22-25 | the points are the listed post's, possibly missing; `hasVoted` is true iff a user is signed in and their id is among the voters |
| PostItem.Moved | components/PostItem.tsx:41 | `points + pointChange` moves a number by the change; a missing value stays not a number |
| PostItem.Flipped | components/PostItem.tsx:35-43 | the optimistic toggle flips `hasVoted` and moves the points by +1 when casting and -1 when withdrawing, with no floor; missing points stay missing |
| PostItem.FlipTwiceRestores | components/PostItem.tsx:35-43 | two optimistic toggles show the original state |
| PostItem.OptimisticMatchesServer | components/PostItem.tsx:35-43 | for a listed post whose stored points are present, and at least 1 when the vote is withdrawn, the optimistic state equals what `voteOnPost` returns |
| PostItem.MissingPointsShowNoNumber | components/PostItem.tsx:22-43 | a listed post stored without points shows no number before or after the optimistic toggle, while `voteOnPost` counts from 0 and returns 1 or 0 |
| PostItem.Reducer | components/PostItem.tsx:29 | `useOptimistic`'s reducer replaces the state with the new vote |
| PostItem.VoteButton.Shown | components/PostItem.tsx:27-30 | the button shows the optimistic value while pending, the base value otherwise |
| PostItem.VoteButton.constructor | components/PostItem.tsx:20-30 | starts from the initial vote data, not pending |
| PostItem.VoteButton.HandleVote | components/PostItem.tsx:32-53 | without a user, or while pending, nothing changes; otherwise the button becomes pending and shows the toggled state |
| PostItem.VoteButton.TransitionEnd | components/PostItem.tsx:27-30 | when the transition ends the optimistic value is dropped and the post as rendered next is shown |
| PostItem.PointsLabel | components/PostItem.tsx:118 | "point" exactly when the points are the number 1, "points" otherwise |
| PostItem.GetTimeAgo | components/PostItem.tsx:55-75 | the component's own copy of `getTimeAgo`, branch by branch; `LocalTimeAgoAgrees` states that it equals the one in lib/utils.ts |
| PostItem.LocalTimeAgoAgrees | components/PostItem.tsx:55-75 | the component's own `getTimeAgo` says the same as the one in lib/utils.ts, at every instant |
| PostItem.SecondsAgree | components/PostItem.tsx:60-61 | the two agree in the seconds bucket |
| PostItem.UnitsAgree | components/PostItem.tsx:62-74 | the two agree in the minute, hour, day and month buckets |
| PostItem.Regroup | components/PostItem.tsx:64 | the two ways of joining the phrase give the same text |
| PostList.WithPoints | components/PostList.tsx:44-47 | the post with the id gets the new points; every other post and every other field is unchanged |
| PostList.Ids | components/PostList.tsx:71 | the ids of the posts, in order |
| PostList.UpdatedPosts | components/PostList.tsx:43-49 | the result has the same length, is a permutation of the mapped list, holds the same ids, and is sorted by points desc then submittedAt desc |
| PostList.SameElementsSameIds | components/PostList.tsx:43-49 | lists with the same posts have the same ids |
| PostList.IdsAppend | components/PostList.tsx:71 | the ids of two lists joined are their ids joined |
| PostList.UpdateIsIdempotent | components/PostList.tsx:43-49 | applying the same vote update twice gives the same list as once |
| PostList.PostListState.constructor | components/PostList.tsx:21-22 | starts with no posts, loading |
| PostList.PostListState.View | components/PostList.tsx:52-81 | "Loading posts..." iff loading; "No posts yet" iff not loading and no posts; otherwise one row per post, numbered `index + 1` |
| PostList.PostListState.FetchSettled | components/PostList.tsx:24-36 | an OK response replaces the list; loading stops either way |
| PostList.PostListState.HandleVote | components/PostList.tsx:42-50 | the list becomes the updater's result; loading is unchanged |
| Utils.DiffInSeconds | lib/utils.ts:11 | the whole seconds elapsed, rounded down (as `Math.floor` does, also for dates in the future) |
| Utils.Phrase | lib/utils.ts:14-26 | for seconds the text is the numeral and " seconds ago"; for the other units it is the numeral, a space, the unit word, an "s" unless the count is 1, and " ago" |
| Utils.GetTimeAgo | lib/utils.ts:8-28 | below a minute the text is the elapsed seconds' numeral and " seconds ago"; from a minute on it is the count of the bucket the seconds fall into, a space, its unit word, an "s" unless the count is 1, and " ago" |
| Utils.Bucket | lib/utils.ts:13-27 | below 60 s the count is the seconds, negatives included; then minutes in 1..59, hours in 1..23, days in 1..29, months >= 1, each the whole number of units elapsed |
| Utils.SingularIffOne | lib/utils.ts:13-27 | the unit is singular exactly when it is not seconds and the count is 1 |
| Utils.CountIsWholeUnitsElapsed | lib/utils.ts:11-27 | the count is the millisecond difference divided by the unit's length, rounded down once |
| Utils.FloorOfFloor | lib/utils.ts:11-25 | rounding down twice is rounding down once by the product |
| Utils.DivUnique | lib/utils.ts:16 | the quotient is the one number whose multiples bracket the dividend |
| Utils.SmallMultipleIsZero | lib/utils.ts:16 | a multiple of m strictly between -m and m is 0 |

## Left out

- **Concurrency.** Each server action is one atomic step. The read-then-update of a vote and the check-then-insert of a submission are not modelled as interleavings. URL uniqueness is kept as a store invariant, standing for the unique url index.
- **Caching.** `unstable_cache` in lib/posts.ts, its one-hour expiry, and the invalidation tag are left out. The listing is always computed from the current collection. A ghost counter records each invalidation.
- **Malformed inputs.** Malformed post ids (`new ObjectId` throwing) and missing form fields are not modelled. Ids are numbers and the form fields are strings.
- **Database and auth failures.** These are not modelled in the actions. In the endpoint they are the `storeAvailable` flag.
- **Tie order across queries.** The store does not promise that posts with equal points and `submittedAt` come back in the same order in every query. The partition lemmas assume they do: every page is cut from one ranked list.
- Posts.FetchPostsFromDB: requires a page and a limit of at least 1. A page below 1 or a limit of 0 leads to values the model does not cover, such as `Math.ceil` of Infinity or a negative skip.
- PostsRoute.HandleGet: requires both parameters to parse as integers of at least 1. `parseInt` giving NaN is not covered.
- **`URLSearchParams` encoding.** Percent-encoding and `+` for space are not modelled. Names and values stand for their decoded text.
- **URL parsing and `.hostname`.** Whether a URL parses is a parameter. The hostname shown next to the title is not modelled.
- **Lengths and characters.** Lengths count characters (code points), while JavaScript counts UTF-16 code units. The two differ only for characters outside the Basic Multilingual Plane.
- **`parseInt` edge cases.** `parseInt` of "-0" gives 0 here rather than -0.
- **The fetch in components/PostList.tsx.** The fetch I/O is left out. `FetchSettled` receives its outcome. The component stores the whole `{posts, pagination}` body of the listing endpoint as its list. That shape mismatch is not modelled: `FetchSettled` receives a list of posts.
- **The `onVote` callback.** PostList passes `onVote` to PostItem, which never calls it. Nothing connects `PostList.PostListState.HandleVote` to a vote click.
- **Optimistic state.** React's `useOptimistic` and `useTransition` are modelled only as far as the button's state goes: a base value, and an optimistic value while pending. The `if (!post._id) return` inside the transition is not modelled, since every listed post has an id.
- **Numbers passed to PostItem.** `PostListServer` passes `globalIndex` to each item, but PostItem's props take only `post`, so the number is never displayed. The model states which number is passed, not what is drawn.
- **Number width.** Pages, limits, skips, counts, points and times are unbounded integers, while JavaScript numbers are doubles and the store's skip is a 64-bit integer. Values past 2^53 or past the store's integer range are not modelled: there `parseInt` rounds, `toString` switches to exponent notation from 10^21 on, and the store rejects the skip.
- **Not-a-number points.** `undefined` and `NaN` are both modelled as a missing number (`None`). The text the browser draws for them is not modelled.
- **A listed post without votes.** `post.votes.includes` would throw on a missing list. Every listed post carries its votes, so the model reads a missing list as empty.
- **Where the pager is used.** The home page renders the client list, not `PostListServer`, and does not read `?page`. `PostListPagination.PageParamRoundTrip` therefore states the round trip against the listing endpoint's parsing of `page`.
- **UI and plumbing.** The `cn` class merging in lib/utils.ts, the rendering markup, the auth client, the MongoDB connection and the index script are left out.

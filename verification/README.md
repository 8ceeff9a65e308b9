# Feed engagement and data helpers, modelled in Dafny

This project models the logic behind a social-feed prototype written in
TypeScript and React. It has four parts:

- **Engagement overlay.** The feed container keeps one record per post id:
  `{isLiked, isBookmarked, localLikes}`. Two handlers update it:
  - `handleLike` receives the like state the card asks for (a target, not a
    toggle).
  - `handleBookmark` writes the bookmark flag.

  The container lays the records over the immutable post list and renders one
  card per post. When a post has no record, the render falls back to
  `{false, false, likes}`, and the count shown is `localLikes || likes`.
- **Card state machine.** Each post card's engagement bar keeps four pieces
  of local state: `isLiked`, `isBookmarked`, `localLikes` and a comment draft.
  The user can press like, bookmark, comment, share or submit, edit the draft,
  or press a key. Each event may report a callback to the parent.
- **Feed and cards together.** The `Feed` module mounts a card with the props
  the container renders. It routes every callback the card fires back into the
  overlay, and proves that card and feed keep showing the same flags and count.
- **Pure helpers of the mock data layer and the data utilities:**
  - navigation activation;
  - user and post lookups;
  - the interaction record;
  - trending hashtags;
  - post search and suggested users;
  - paginated feeds with the 'following' and 'trending' filters;
  - global search;
  - recommendations;
  - relative-time labels and the recency test;
  - post validation;
  - hashtag extraction;
  - the five-minute memo cache.

Everything is a pure function over immutable data:

- The lists a helper reads (posts, users, navigation items) and the current
  user are parameters, not module globals.
- The clock reading `now` (milliseconds since the epoch) is a parameter.
- The cache's `Map` is passed in and handed back.

JavaScript semantics that matter are written out:

- `x || y` on numbers treats 0 as absent (`OrElse`).
- `Array.prototype.slice` normalises negative and out-of-range indices
  (`Slice`, following section 23.1.3.28 of ECMAScript).
- `trim` removes the ECMAScript WhiteSpace and LineTerminator code points.
- `.length` counts UTF-16 code units.
- `Math.floor(diff / unit)` is characterised by `WholeUnits`.
- `Math.ceil(n * 0.6)` is the integer `(3n + 4) / 5`.

Modules, one per file:

| module | file | models |
|---|---|---|
| `Collections` | collections.dfy | `find`, `filter`, `slice`, descending `sort`, `[...new Set(xs)]` |
| `Text` | text.dfy | `trim`, ASCII `toLowerCase`, `includes`, `\w`, UTF-16 length |
| `Social` | social.dfy | users, posts, navigation items, interaction records |
| `TagCounts` | tag_counts.dfy | the `Record<string, number>` hashtag tally read back with `Object.entries` |
| `TimeLabels` | time_labels.dfy | relative-time labels (`now`, `5m`, `2w`, `3mo`, ...) and their rendering |
| `Overlay` | overlay.dfy | the container's engagement map, its handlers and the render fallback |
| `Card` | card.dfy | the card's engagement state machine |
| `Feed` | feed.dfy | a card mounted in the feed, its callbacks handled by the container |
| `MockData` | mock_data.dfy | the helpers of `lib/mock-data.ts` |
| `DataUtils` | data_utils.dfy | the helpers of `lib/data-utils.ts` except the cache |
| `Cache` | cache.dfy | `getCachedData` and `clearCache` |

## Model

| member | source | states |
|---|---|---|
| Collections.Find | components/feed/FeedContainer.tsx:57 | `find` yields nothing exactly when no element satisfies the test, and otherwise the first element that does |
| Collections.Filter | lib/mock-data.ts:284-286 | `filter` keeps exactly the elements satisfying the test, each with its original multiplicity |
| Collections.FilterConcat | lib/mock-data.ts:375-380 | filtering a concatenation filters each part, so the kept elements keep their order |
| Collections.Slice | lib/data-utils.ts:121 | for non-negative bounds, `slice` is the window between the bounds clamped to the length, and empty when they cross |
| Collections.InsertSorted | lib/data-utils.ts:114-116 | inserting into a list sorted by descending key keeps it sorted |
| Collections.SortDesc | lib/data-utils.ts:114-116 | the comparator sort `(a, b) => key(b) - key(a)` returns a permutation of its input with non-increasing keys, and keeps a repeat-free list repeat-free |
| Collections.TopPrefix | lib/mock-data.ts:327-328 | `slice(0, limit)` of a list sorted by descending key is a sorted prefix of length `min(limit, n)`; an element left out has a key no larger than that of any element kept, and is left out only when the limit is reached |
| Collections.FilterKeepsFirstOrder | lib/data-utils.ts:164-171 | filtering keeps the relative order of first appearance of any two kept elements, in both directions |
| Collections.Dedupe | lib/data-utils.ts:314 | `[...new Set(xs)]` has no repeats and the same members as `xs` |
| Collections.DedupeKeepsFirstAppearanceOrder | lib/data-utils.ts:314 | `[...new Set(xs)]` lists the members in the order of their first appearance in `xs` |
| Text.TrimEmptyIffBlank | lib/data-utils.ts:275 | `!s.trim()` holds exactly when the string is all white space |
| Text.TrimStart | lib/data-utils.ts:275 | trimming the front drops exactly a white-space prefix, up to the first non-space character |
| Text.TrimEnd | lib/data-utils.ts:275 | trimming the back drops exactly a white-space suffix, back to the last non-space character |
| Text.Utf16Length | lib/data-utils.ts:279 | `.length` lies between the number of characters and twice that, and equals the number of characters exactly when none lies outside the Basic Multilingual Plane |
| TagCounts.TallyIsReference | lib/mock-data.ts:317-326 | the bump-per-occurrence loop read back with `Object.entries` equals one entry per distinct tag, in order of first appearance, with its number of occurrences |
| TagCounts.TallyFacts | lib/mock-data.ts:317-326 | the tally has distinct tags that all occur; each carries its occurrence count; every occurring tag is present; entries follow first appearance |
| TimeLabels.DigitsRoundTrip | lib/mock-data.ts:343 | the decimal digits `${n}` of a count read back as the count |
| TimeLabels.ParseRender | lib/data-utils.ts:236-242 | the rendered labels (`now`, `${n}m`, `${n}h`, `${n}d`, `${n}w`, `${n}mo`, `${n}y`) are unambiguous: count and unit read back from the text |
| Overlay.BaseLikes | components/feed/FeedContainer.tsx:57-58 | the baseline is the like count of the first post with the id, and 0 when no post has it |
| Overlay.Like | components/feed/FeedContainer.tsx:54-69 | `handleLike` adds an entry for the post and leaves every other entry alone; it sets the flag, keeps the bookmark, and moves the count from `localLikes \|\| baseline` by +1 only on false to true, by -1 only on true to false, and not at all when the flag is already the target |
| Overlay.Bookmark | components/feed/FeedContainer.tsx:77-88 | `handleBookmark` sets only the bookmark flag; the like flag and count are kept (false and 0 when the entry is new), and other entries are untouched |
| Overlay.Project | components/feed/FeedContainer.tsx:46-51 | the merged list has the posts' length and order; each element is its post with that post's entry, if any |
| Overlay.RenderFeed | components/feed/FeedContainer.tsx:155-170 | a post without an entry renders unliked and unbookmarked with its baseline; with an entry it renders the entry's flags and `localLikes \|\| likes` |
| Overlay.LikeKeepsConsistent | components/feed/FeedContainer.tsx:64-67 | with unique ids and non-negative baselines, a like keeps every shown count equal to baseline plus one when liked |
| Overlay.BookmarkKeepsConsistent | components/feed/FeedContainer.tsx:79-88 | a bookmark keeps that invariant |
| Overlay.ApplyAllKeepsConsistent | components/feed/FeedContainer.tsx:54-92 | any sequence of like and bookmark calls keeps the invariant |
| Overlay.DisplayedCountInvariant | components/feed/FeedContainer.tsx:64-167 | from the empty map, after any sequence of like and bookmark calls, every card shows its baseline plus one exactly when shown liked |
| Overlay.LikeRoundTrip | components/feed/FeedContainer.tsx:56-67 | liking a post without an entry gives `{true, false, baseline + 1}`; unliking then gives `{false, false, baseline}` |
| Overlay.LikeRoundTripAt142 | components/feed/FeedContainer.tsx:56-67 | with baseline 142: `{true, false, 143}`, then `{false, false, 142}` |
| Overlay.LikeIdempotent | components/feed/FeedContainer.tsx:64-67 | on a consistent overlay, asking twice for the same like state is the same as asking once |
| Overlay.LikeUnknownIsInvisible | components/feed/FeedContainer.tsx:57-58 | a like on an id no post carries uses baseline 0 and still adds an entry, but the merged list and the rendered cards do not change |
| Card.Init | components/post/PostEngagement.tsx:47-48 | the card starts with the flags from its props (false when absent), its count equal to the `likes` prop and an empty draft |
| Card.Like | components/post/PostEngagement.tsx:63-68 | a like press flips the flag, moves the count by +1 when newly liked and -1 when unliked, changes nothing else, and reports the new state once |
| Card.Bookmark | components/post/PostEngagement.tsx:83-87 | a bookmark press flips only the bookmark flag and reports its new state once |
| Card.Submit | components/post/PostEngagement.tsx:90-96 | a blank draft is kept and nothing is reported; any other draft is reported once, untrimmed, and cleared |
| Card.KeyPress | components/post/PostEngagement.tsx:99-104 | Enter without Shift submits; Shift+Enter and every other key change nothing |
| Card.CommentAndShareKeepState | components/post/PostEngagement.tsx:71-80 | the comment and share presses report their event and change no state |
| Card.LikeTwiceRestores | components/post/PostEngagement.tsx:63-68 | two like presses in a row restore the flag and the count |
| Card.StepFacts | components/post/PostEngagement.tsx:57-104 | every event keeps count minus `[isLiked]` fixed, reports the flags it changes, and tags each callback with the card's post id |
| Card.StepKeepsBalance | components/post/PostEngagement.tsx:63-68 | every event keeps count minus `[isLiked]` fixed |
| Card.StepReports | components/post/PostEngagement.tsx:57-104 | every event's callbacks report the flags it leaves, each tagged with the card's post id |
| Card.LikeCountInvariant | components/post/PostEngagement.tsx:57-67 | over any events, the count is the initial count plus `[liked now]` minus `[liked initially]` |
| Card.MountedLikeCount | components/post/PostEngagement.tsx:57-67 | for a mounted card: `localLikes = likes + [isLiked] - [initial isLiked]` |
| Card.LastReportedConcat | components/post/PostEngagement.tsx:67-86 | the last reported state after two runs of callbacks is the second run's, starting from the first's |
| Card.ReportsMirrorState | components/post/PostEngagement.tsx:63-87 | a parent that records each reported like and bookmark state always holds the card's flags |
| Feed.QuietCallbacks | components/feed/FeedContainer.tsx:95-118 | the comment, share and new-comment handlers leave the engagement map as it is |
| Feed.QuietStep | components/post/PostEngagement.tsx:71-104 | comment, share, draft edits, submit and key presses keep the card's flags and count, and report no like or bookmark |
| Feed.LikeAgrees | components/feed/FeedContainer.tsx:54-69 | after a like press on a card that agrees with the feed, the card's state equals what the feed renders for it, and the overlay stays consistent |
| Feed.LikeLeavesOtherCards | components/feed/FeedContainer.tsx:60-69 | with unique ids, a like on one post leaves every other rendered card as it was |
| Feed.StepAgrees | components/feed/FeedContainer.tsx:155-175 | one card event, handled by the card and then the container, keeps card and feed in agreement and leaves other cards alone |
| Feed.CardAndFeedAgree | components/feed/FeedContainer.tsx:155-175 | however the user drives a mounted card, it shows the same flags and count the feed renders for it, the overlay stays consistent, and no other card changes |
| Feed.MountAgrees | components/feed/FeedContainer.tsx:163-170 | a card mounted with the rendered props starts in agreement with the feed |
| MockData.GetActiveNavItem | lib/mock-data.ts:254-256 | the first active item, and nothing exactly when no item is active |
| MockData.UpdateNavigationState | lib/mock-data.ts:262-267 | same length and order, every other field kept, an item active exactly when its id is the target |
| MockData.UpdateNavigationIdempotent | lib/mock-data.ts:262-267 | updating twice to the same id is updating once |
| MockData.UpdateNavigationActivatesOne | lib/mock-data.ts:262-267 | with unique ids at most one item is active afterwards, none for an unknown id, and the active item found is the target |
| MockData.GetUserById | lib/mock-data.ts:273-278 | the current user for its own id; otherwise the first user with the id, and nothing exactly when there is none |
| MockData.GetPostsByUserId | lib/mock-data.ts:284-286 | exactly the posts whose author has the id, with their multiplicity |
| MockData.PostsByUserIdKeepsOrder | lib/mock-data.ts:284-286 | the posts keep their feed order |
| MockData.GenerateInteractionState | lib/mock-data.ts:302-310 | the id is echoed; the first matching post's flags and count are copied; an unknown post gives false, false, 0 |
| MockData.GetTrendingHashtags | lib/mock-data.ts:316-329 | at most 10 distinct tags with non-increasing counts, each count the tag's occurrences across all posts; a tag left out occurs no more often than any listed, and only when 10 are listed |
| MockData.SortedTallyFacts | lib/mock-data.ts:325-327 | sorting the tally by count keeps it repeat-free, count-faithful and complete |
| MockData.SortKeepsTally | lib/mock-data.ts:325-327 | any permutation-preserving sort keeps those tally facts |
| MockData.TopOfSorted | lib/mock-data.ts:327-328 | the top `limit` of the sorted tally keep the facts, and a tag left out is used no more than any tag kept |
| MockData.FormatTimestamp | lib/mock-data.ts:335-348 | `now` under one minute, negative gaps included; whole minutes 1 to 59, whole hours 1 to 23, whole days 1 to 6; the locale date exactly from seven days on |
| MockData.SearchPosts | lib/mock-data.ts:371-381 | nothing for a blank query; otherwise exactly the posts whose text, author names or a tag contain the lowercased, untrimmed query |
| MockData.SearchPostsKeepsOrder | lib/mock-data.ts:371-381 | search results keep their feed order |
| MockData.GetSuggestedUsers | lib/mock-data.ts:387-389 | the first three users other than the current user, in list order |
| DataUtils.FollowingCount | lib/data-utils.ts:111 | the integer `k` with `k - 1 < 0.6n <= k`, i.e. `Math.ceil(n * 0.6)` |
| DataUtils.ApplyFeedFilter | lib/data-utils.ts:106-117 | 'following' keeps the first `ceil(0.6n)` posts in order; 'trending' is a permutation with non-increasing likes plus comments; otherwise the list is unchanged |
| DataUtils.GetPaginatedPosts | lib/data-utils.ts:101-133 | always successful, page and limit echoed, total the filtered length; `hasMore` exactly when `page * limit < total`; for page from 1 and limit from 0 the data is the window from `(page - 1) * limit`, at most `limit` posts |
| DataUtils.PagesTile | lib/data-utils.ts:119-121 | pages 1 to k read in turn are the list up to where page k ends, without gaps or repeats |
| DataUtils.PagesComplete | lib/data-utils.ts:119-130 | the pages `getPaginatedPosts` returns for pages 1 to k tile the filtered list, and they cover all of it once a page reports no more |
| DataUtils.Blocks | lib/data-utils.ts:178 | concatenating the user, post and hashtag blocks keeps each kind in its own block, users first and hashtags last |
| DataUtils.SearchBlocksOrder | lib/data-utils.ts:145-161 | in a non-blank search, user results are exactly the matching users and post results exactly the matching posts, ranked users before posts before tags |
| DataUtils.HashtagEntries | lib/data-utils.ts:173-178 | hashtag entries after the user and post blocks keep the tally's facts and its order |
| DataUtils.SearchBlocksTags | lib/data-utils.ts:163-178 | one hashtag entry per matching tag, each with its occurrence count, no tag twice, in order of first occurrence |
| DataUtils.PerformGlobalSearch | lib/data-utils.ts:139-179 | nothing for a blank query; otherwise exactly the matching users in list order, then the matching posts in list order, then one entry per matching tag with its number of occurrences, tags in order of first occurrence across all posts |
| DataUtils.MatchingKeepsOrder | lib/data-utils.ts:145-161 | the user and post filters keep source order and multiplicity: matching a concatenation matches each part in turn |
| DataUtils.MatchingTagCounts | lib/data-utils.ts:164-171 | counting only matching occurrences gives each matching tag its full occurrence count, listed in order of first occurrence among all tags |
| DataUtils.MostLiked | lib/data-utils.ts:196-197 | the result is a prefix of the candidates sorted by likes, most liked first, taking each candidate at most as often as it occurs, `min(limit, n)` of them |
| DataUtils.LeftOutLikedLess | lib/data-utils.ts:196-197 | a candidate left out has no more likes than any post returned, and is left out only when the limit is reached |
| DataUtils.CandidateFacts | lib/data-utils.ts:187-195 | every candidate is a post by someone else sharing a tag with the user's own posts |
| DataUtils.GetRecommendedPosts | lib/data-utils.ts:185-200 | a prefix of the eligible posts (by others, sharing a tag with the user's posts) sorted by likes, each at most as often as it is eligible, `min(limit, candidates)` of them; an eligible post is left out only when the limit is reached and has no more likes than any returned |
| DataUtils.CountUnits | lib/data-utils.ts:237-242 | `Math.floor(diff / unit)` is at least 1 once a unit has passed; weeks below a month are at most 4 and months below a year at most 12 |
| DataUtils.LargestUnit | lib/data-utils.ts:236-242 | the unit chosen is the one whose range contains the gap: minutes under an hour, hours under a day, days under a week, weeks under 30 days, months under 365 days, years after |
| DataUtils.FormatTimeAgo | lib/data-utils.ts:225-243 | `now` exactly under a minute, negative gaps included; otherwise the whole number of the largest unit passed, at least 1, with weeks 1 to 4 and months 1 to 12; never a locale date |
| DataUtils.WholeUnitsUnique | lib/data-utils.ts:237-242 | the count `Math.floor(diff / unit)` is the only whole number of units that fits the gap |
| DataUtils.TimestampFormattersAgree | lib/mock-data.ts:335-346 | below a week, `formatTimestamp` and `formatTimeAgo` (lib/data-utils.ts:225-239) give the same label: `now`, or the same count of the same unit |
| DataUtils.RecentMeansUnderADay | lib/data-utils.ts:258-261 | a post is recent exactly when its relative time is `now`, minutes or hours |
| DataUtils.ValidatePostContent | lib/data-utils.ts:272-287 | valid exactly when the content is not all white space and has at most 280 UTF-16 code units; no message other than the two occurs; the empty error exactly for all-white-space content; the length error exactly above 280 UTF-16 code units; both together in that order |
| DataUtils.ErrorList | lib/data-utils.ts:275-281 | the two checks contribute their own message each, empty first |
| DataUtils.WordEnd | lib/data-utils.ts:306 | `\w+` is greedy: the match ends at the first non-word character |
| DataUtils.ScanHashes | lib/data-utils.ts:306-312 | every match of `/#(\w+)/g` starts at a `#` followed by a word character, and the matches come in strictly increasing text positions |
| DataUtils.ScanHashesFindsEvery | lib/data-utils.ts:306-312 | no `#` followed by a word character is skipped by the global scan |
| DataUtils.TagsAt | lib/data-utils.ts:310-312 | one lowercased word per match, in text order, each the word after its `#` |
| DataUtils.TagsAtComplete | lib/data-utils.ts:306-312 | a lowercased word is among the matches exactly when some `#` in the content introduces it |
| DataUtils.FirstTagPosition | lib/data-utils.ts:306-314 | the first match yielding a tag starts at the earliest `#` in the content that introduces that tag |
| DataUtils.LowerWord | lib/data-utils.ts:311 | a lowercased tag word is a non-empty run of word characters with no capital letter |
| DataUtils.ExtractHashtags | lib/data-utils.ts:305-315 | distinct, lowercase, non-empty `[A-Za-z0-9_]` strings, exactly the lowercased words following a `#` in the content |
| DataUtils.ExtractHashtagsOrder | lib/data-utils.ts:310-314 | the tags come out in order of first appearance in the content: of any two, the earlier has a `#` before every `#` of the later |
| Cache.GetCachedData | lib/data-utils.ts:328-339 | the producer runs exactly when there is no entry younger than five minutes; a hit returns the stored value and leaves the cache alone; a miss stores `(value, now)` under the key; other keys are kept |
| Cache.ClearCache | lib/data-utils.ts:345-347 | the cleared cache has no entries |
| Cache.HitAfterMiss | lib/data-utils.ts:332-338 | within five minutes of a miss the same key hits and returns the value just computed |
| Cache.ExpiredIsRecomputed | lib/data-utils.ts:332 | from five minutes after storing, an entry is recomputed |
| Cache.ClearedMisses | lib/data-utils.ts:345-347 | after clearing, every lookup runs the producer |
| Cache.CachingIsTransparent | lib/data-utils.ts:328-339 | when every entry holds the producer's value, a lookup returns the producer's value and keeps that true |

## Left out

- React rendering, JSX and class names. This covers the container's loading
  skeleton and empty-list message (components/feed/FeedContainer.tsx:127-148),
  `PostCard` markup and `formatLikeCount`. `formatLikeCount` is imported from
  lib/mock-data but is not part of this model.
- `console.log` calls. The container's comment, share and new-comment handlers
  do nothing else that is modelled: they are no-ops on the engagement map.
- `navigator.share`, `window.location` and `e.preventDefault()`: browser
  effects.
- The clock. `Date.now()` and `new Date()` become the `now` parameter. Timestamps
  are integer milliseconds. `formatTimeAgo` and `isPostRecent` read the clock
  separately in the source; the model gives both the same `now`.
- The cache's module-level `Map`. It is an explicit store passed in and returned.
  The producer is a pure function, so its side effects and exceptions are not
  modelled.
- `toLocaleDateString`. It depends on the locale and is kept opaque as
  `LocaleDate(timestamp)`.
- `toLowerCase` beyond ASCII. `Text.Lower` lowercases `A`–`Z` only; Unicode case
  mapping is not modelled.
- `Object.entries` key order. Integer-like keys are listed first in ascending
  order, but the tally keeps every key in insertion order. Tie order in the
  trending list therefore matches the source only for non-numeric tags.
- `Record<string, number>` keys that are also `Object.prototype` members
  (lib/mock-data.ts:316-324, lib/data-utils.ts:164-170). The tallies model
  a plain map. In the source, a tag such as `constructor` or `toString`
  starts from the inherited function, so `(fn || 0) + 1` stores a string.
  A `__proto__` tag is never stored as an own key. Such tags are not
  distinguished here.
- Default arguments. `getPaginatedPosts` defaults to `page = 1, limit = 10`
  (lib/data-utils.ts:102-103) and `getRecommendedPosts` to `limit = 10`
  (lib/data-utils.ts:185). The model always takes them explicitly, and a
  caller passes 1 and 10 to get the defaults.
- Non-integer `page` and `limit`. The source takes any number, and `slice`
  truncates fractional indices. The model's arguments are integers.
- DataUtils.PerformGlobalSearch: the hashtag block is stated in order of
  first occurrence. This matches `Object.entries` only for tags that are not
  integer-like (see the key-order line above). A tag such as `2024` would
  come first in the source.
- Collections.SortDesc: it is a stable insertion sort, but stability (ties
  keeping their input order) is not proved. Only the sort's permutation and
  ordering facts are stated.
- `sanitizeUserInput`: its regular expressions use lookahead and `\b`, and
  modelling them would mean modelling the regular-expression engine.
- `generateMockUser`, `generateMockPost`, `generateMockComment` and
  `generateEngagementMetrics`: they use randomness.
- `calculateEngagementRate` and `transformPostsForFeed`: floating point.
- `getCommentsForPost`: it returns a fixed list whatever its argument.
- The `timeRange` field of the feed filter: it is carried but never read.
- Overlay.LikeKeepsConsistent, Overlay.DisplayedCountInvariant and
  Feed.CardAndFeedAgree assume unique post ids and non-negative baselines.
  The source assumes neither. With a baseline of -1, a like stores
  `localLikes = 0`, and the render then shows -1 for a liked post, because
  `0 || -1` is -1.
- Overlay.BaseLikes reads the first post with the id, as `find` does. A
  duplicate id shares that baseline.
- DataUtils.FollowingCount: `Math.ceil(n * 0.6)` on doubles is taken as the
  exact `ceil(3n / 5)`. Rounding of `n * 0.6` is not modelled.
- DataUtils.GetPaginatedPosts: the data window is stated for page >= 1 and
  limit >= 0. Other arguments are modelled, through `Slice` with negative
  indices, but no separate property is stated for them.
- DataUtils.GetRecommendedPosts: the length bound and the left-out property
  are stated for limit >= 0. A negative limit counts from the end, as in the
  source, and only the membership and ordering facts are stated for it.
- Text.Utf16Length: its contract states the bounds and when the count equals
  the number of characters, not the exact count of surrogate pairs.

/** The retrieval, formatting and validation helpers of the data utilities:
    paginated feeds, global search, recommendations, relative time, content
    validation and hashtag extraction. Lists and the clock are arguments. */
module DataUtils {
  import opened Collections
  import opened Social
  import opened Text
  import opened TagCounts
  import opened TimeLabels
  import MockData

  datatype FeedKind = AllPosts | Following | Trending

  /** `FeedFilter`; the time range is carried but no helper reads it. */
  datatype TimeRange = Today | ThisWeek | ThisMonth | AllTime

  datatype FeedFilter = FeedFilter(kind: FeedKind, timeRange: Option<TimeRange>)

  datatype Pagination = Pagination(page: int, limit: int, total: nat, hasMore: bool)

  datatype PaginatedPosts = PaginatedPosts(success: bool, data: seq<Post>, pagination: Pagination)

  /** `Math.ceil(n * 0.6)` in integers. */
  function FollowingCount(n: nat): (k: nat)
    ensures 5 * k >= 3 * n && 5 * (k - 1) < 3 * n
    ensures k <= n
  {
    (3 * n + 4) / 5
  }

  function EngagementOf(p: Post): int {
    p.likes + p.comments
  }

  /** The filter step of `getPaginatedPosts`, on a copy of the list: the
      first 60% (rounded up) for 'following', the whole list by descending
      likes plus comments for 'trending', and the list as is otherwise. */
  function ApplyFeedFilter(posts: seq<Post>, filter: Option<FeedFilter>): (r: seq<Post>)
    ensures filter.Some? && filter.value.kind == Following ==>
      |r| <= |posts| && r == posts[..|r|] && 5 * |r| >= 3 * |posts| && 5 * (|r| - 1) < 3 * |posts|
    ensures filter.Some? && filter.value.kind == Trending ==>
      multiset(r) == multiset(posts) && NonIncreasing(r, EngagementOf)
    ensures filter.None? || filter.value.kind == AllPosts ==> r == posts
  {
    if filter.Some? && filter.value.kind == Following then posts[..FollowingCount(|posts|)]
    else if filter.Some? && filter.value.kind == Trending then SortDesc(posts, EngagementOf)
    else posts
  }

  /** The index of the first post of `page`. */
  function PageStart(page: int, limit: int): (start: int)
    ensures start + limit == page * limit
    ensures page >= 1 && limit >= 0 ==> start >= 0
  {
    (page - 1) * limit
  }

  /** The posts of `page`: `all.slice(start, start + limit)`. */
  function PageOf(all: seq<Post>, page: int, limit: int): seq<Post> {
    var start := PageStart(page, limit);
    Slice(all, start, start + limit)
  }

  /** `getPaginatedPosts`: for a page from 1 and a non-negative limit, the
      posts of that window of the filtered list, at most `limit` of them, with
      `hasMore` exactly when the filtered list runs past the window; the total
      is always the length of the filtered list. */
  function GetPaginatedPosts(posts: seq<Post>, page: int, limit: int, filter: Option<FeedFilter>): (r: PaginatedPosts)
    ensures r.success
    ensures r.pagination.page == page && r.pagination.limit == limit
    ensures r.pagination.total == |ApplyFeedFilter(posts, filter)|
    ensures r.pagination.hasMore <==> page * limit < r.pagination.total
    ensures page >= 1 && limit >= 0 ==>
      var all := ApplyFeedFilter(posts, filter);
      var start := PageStart(page, limit);
      && r.data == all[Min(start, |all|)..Min(start + limit, |all|)]
      && |r.data| <= limit
  {
    var filteredPosts := ApplyFeedFilter(posts, filter);
    var startIndex := PageStart(page, limit);
    var endIndex := startIndex + limit;
    PaginatedPosts(true, PageOf(filteredPosts, page, limit),
                   Pagination(page, limit, |filteredPosts|, endIndex < |filteredPosts|))
  }

  /** Pages 1 to k of a list, concatenated. */
  function FirstPages(all: seq<Post>, limit: int, k: nat): seq<Post> {
    if k == 0 then [] else FirstPages(all, limit, k - 1) + PageOf(all, k, limit)
  }

  /** Reading pages 1 to k in turn yields the list up to where page k ends,
      without gaps or repeats. */
  lemma {:induction false} PagesTile(all: seq<Post>, limit: nat, k: nat)
    ensures FirstPages(all, limit, k) == all[..Min(PageStart(k, limit) + limit, |all|)]
  {
    if k == 0 {
      assert PageStart(k, limit) + limit == 0;
    } else {
      var start := PageStart(k, limit);
      var before := FirstPages(all, limit, k - 1);
      assert start >= 0 && before == all[..Min(start, |all|)] by {
        PagesTile(all, limit, k - 1);
        NextPageStart(k, limit);
      }
      assert PageOf(all, k, limit) == all[Min(start, |all|)..Min(start + limit, |all|)];
      AppendPage(all, before, PageOf(all, k, limit), start, limit);
    }
  }

  lemma NextPageStart(k: nat, limit: nat)
    requires k >= 1
    ensures PageStart(k - 1, limit) + limit == PageStart(k, limit)
    ensures PageStart(k, limit) >= 0
  {
  }

  /** The pages `getPaginatedPosts` returns for pages 1 to k, read in turn,
      are the filtered list up to where page k ends; once a page reports no
      more posts, they are all of it. */
  lemma PagesComplete(posts: seq<Post>, limit: nat, filter: Option<FeedFilter>, k: nat)
    ensures forall j :: 1 <= j <= k ==> GetPaginatedPosts(posts, j, limit, filter).data == PageOf(ApplyFeedFilter(posts, filter), j, limit)
    ensures var all := ApplyFeedFilter(posts, filter);
      FirstPages(all, limit, k) == all[..Min(PageStart(k, limit) + limit, |all|)]
    ensures k >= 1 && !GetPaginatedPosts(posts, k, limit, filter).pagination.hasMore ==>
      FirstPages(ApplyFeedFilter(posts, filter), limit, k) == ApplyFeedFilter(posts, filter)
  {
    var all := ApplyFeedFilter(posts, filter);
    PagesTile(all, limit, k);
    if k >= 1 && !GetPaginatedPosts(posts, k, limit, filter).pagination.hasMore {
      assert PageStart(k, limit) + limit >= |all|;
      assert all[..|all|] == all;
    }
  }

  /** A prefix of `all` up to `start`, followed by the window from `start` of
      width `limit`, is the prefix up to `start + limit`. */
  lemma AppendPage(all: seq<Post>, before: seq<Post>, page: seq<Post>, start: nat, limit: nat)
    requires before == all[..Min(start, |all|)]
    requires page == all[Min(start, |all|)..Min(start + limit, |all|)]
    ensures before + page == all[..Min(start + limit, |all|)]
  {
  }

  datatype SearchResult = UserResult(user: User) | PostResult(post: Post) | HashtagResult(tag: string, count: nat)

  /** Users come first, then posts, then hashtags. */
  function Rank(r: SearchResult): nat {
    match r
    case UserResult(_) => 0
    case PostResult(_) => 1
    case HashtagResult(_, _) => 2
  }

  predicate UserMatches(u: User, term: string) {
    Contains(Lower(u.username), term) || Contains(Lower(u.displayName), term)
  }

  predicate TagMatches(tag: string, term: string) {
    Contains(Lower(tag), term)
  }

  predicate GlobalPostMatch(p: Post, term: string) {
    Contains(Lower(p.content), term) || exists i :: 0 <= i < |p.hashtags| && TagMatches(p.hashtags[i], term)
  }

  function UserResults(users: seq<User>): (r: seq<SearchResult>)
    ensures |r| == |users| && forall i :: 0 <= i < |r| ==> r[i] == UserResult(users[i])
    ensures forall x :: UserResult(x) in r <==> x in users
  {
    var r := seq(|users|, i requires 0 <= i < |users| => UserResult(users[i]));
    assert forall x :: x in users ==> UserResult(x) in r by {
      forall x | x in users
        ensures UserResult(x) in r
      {
        var k :| 0 <= k < |users| && users[k] == x;
        assert r[k] == UserResult(x);
      }
    }
    r
  }

  function PostResults(posts: seq<Post>): (r: seq<SearchResult>)
    ensures |r| == |posts| && forall i :: 0 <= i < |r| ==> r[i] == PostResult(posts[i])
    ensures forall x :: PostResult(x) in r <==> x in posts
  {
    var r := seq(|posts|, i requires 0 <= i < |posts| => PostResult(posts[i]));
    assert forall x :: x in posts ==> PostResult(x) in r by {
      forall x | x in posts
        ensures PostResult(x) in r
      {
        var k :| 0 <= k < |posts| && posts[k] == x;
        assert r[k] == PostResult(x);
      }
    }
    r
  }

  function HashtagResults(counts: seq<TagCount>): (r: seq<SearchResult>)
    ensures |r| == |counts| && forall i :: 0 <= i < |r| ==> r[i] == HashtagResult(counts[i].tag, counts[i].count)
  {
    seq(|counts|, i requires 0 <= i < |counts| => HashtagResult(counts[i].tag, counts[i].count))
  }

  /** Users, then posts, then hashtags: the ranks never decrease, and each
      kind of result is found only in its own block. */
  lemma {:induction false} Blocks(u: seq<SearchResult>, p: seq<SearchResult>, h: seq<SearchResult>)
    requires forall i :: 0 <= i < |u| ==> u[i].UserResult?
    requires forall i :: 0 <= i < |p| ==> p[i].PostResult?
    requires forall i :: 0 <= i < |h| ==> h[i].HashtagResult?
    ensures var r := u + p + h;
      && (forall i, j :: 0 <= i < j < |r| ==> Rank(r[i]) <= Rank(r[j]))
      && (forall x :: UserResult(x) in r <==> UserResult(x) in u)
      && (forall x :: PostResult(x) in r <==> PostResult(x) in p)
      && (forall i :: 0 <= i < |r| && r[i].HashtagResult? ==> |u| + |p| <= i && r[i] == h[i - |u| - |p|])
      && (forall k :: 0 <= k < |h| ==> r[|u| + |p| + k] == h[k])
  {
    var r := u + p + h;
    assert forall i :: 0 <= i < |u| ==> r[i] == u[i];
    assert forall i :: |u| <= i < |u| + |p| ==> r[i] == p[i - |u|];
    assert forall i :: |u| + |p| <= i < |r| ==> r[i] == h[i - |u| - |p|];
    assert forall i :: 0 <= i < |r| ==> (Rank(r[i]) == 0 <==> i < |u|) && (Rank(r[i]) == 2 <==> |u| + |p| <= i);
  }

  function MatchingUsers(users: seq<User>, term: string): seq<User> {
    Filter(users, (u: User) => UserMatches(u, term))
  }

  function MatchingPosts(posts: seq<Post>, term: string): seq<Post> {
    Filter(posts, (p: Post) => GlobalPostMatch(p, term))
  }

  function MatchingTags(tags: seq<string>, term: string): seq<string> {
    Filter(tags, (t: string) => TagMatches(t, term))
  }

  /** The user and post blocks keep the source order: matching a
      concatenation matches each part in turn, so earlier entries stay first
      and each entry is kept as often as it occurs. */
  lemma MatchingKeepsOrder(users: seq<User>, moreUsers: seq<User>, posts: seq<Post>, morePosts: seq<Post>, term: string)
    ensures MatchingUsers(users + moreUsers, term) == MatchingUsers(users, term) + MatchingUsers(moreUsers, term)
    ensures MatchingPosts(posts + morePosts, term) == MatchingPosts(posts, term) + MatchingPosts(morePosts, term)
  {
    FilterConcat(users, moreUsers, (u: User) => UserMatches(u, term));
    FilterConcat(posts, morePosts, (p: Post) => GlobalPostMatch(p, term));
  }

  /** The three blocks of a non-blank search, as `performGlobalSearch`
      concatenates them. */
  function SearchBlocks(users: seq<User>, posts: seq<Post>, term: string): seq<SearchResult> {
    UserResults(MatchingUsers(users, term)) + PostResults(MatchingPosts(posts, term))
      + HashtagResults(Tally(MatchingTags(AllTags(posts), term)))
  }

  lemma SearchBlocksOrder(users: seq<User>, posts: seq<Post>, term: string)
    ensures var r := SearchBlocks(users, posts, term);
      && (forall i, j :: 0 <= i < j < |r| ==> Rank(r[i]) <= Rank(r[j]))
      && (forall u :: UserResult(u) in r <==> u in users && UserMatches(u, term))
      && (forall p :: PostResult(p) in r <==> p in posts && GlobalPostMatch(p, term))
  {
    var u := UserResults(MatchingUsers(users, term));
    var p := PostResults(MatchingPosts(posts, term));
    var h := HashtagResults(Tally(MatchingTags(AllTags(posts), term)));
    Blocks(u, p, h);
  }

  /** Hashtag entries built from a tally of matching tags, placed after the
      user and post blocks, keep the tally's guarantees. */
  lemma HashtagEntries(u: seq<SearchResult>, p: seq<SearchResult>, counts: seq<TagCount>, tags: seq<string>, term: string)
    requires forall i :: 0 <= i < |u| ==> u[i].UserResult?
    requires forall i :: 0 <= i < |p| ==> p[i].PostResult?
    requires DistinctTags(counts)
    requires forall i :: 0 <= i < |counts| ==> TagMatches(counts[i].tag, term) && counts[i].count == Occurrences(tags, counts[i].tag) && counts[i].count > 0
    requires forall t :: t in tags && TagMatches(t, term) ==> TagCount(t, Occurrences(tags, t)) in counts
    requires forall i :: 0 <= i < |counts| ==> counts[i].tag in tags
    requires forall i, j :: 0 <= i < j < |counts| ==> FirstIndexOf(tags, counts[i].tag) < FirstIndexOf(tags, counts[j].tag)
    ensures var r := u + p + HashtagResults(counts);
      && (forall i :: 0 <= i < |r| && r[i].HashtagResult? ==>
            TagMatches(r[i].tag, term) && r[i].count == Occurrences(tags, r[i].tag) && r[i].count > 0)
      && (forall i, j :: 0 <= i < j < |r| && r[i].HashtagResult? && r[j].HashtagResult? ==> r[i].tag != r[j].tag)
      && (forall t :: t in tags && TagMatches(t, term) ==> HashtagResult(t, Occurrences(tags, t)) in r)
      && (forall i, j :: 0 <= i < j < |r| && r[i].HashtagResult? && r[j].HashtagResult? ==>
            r[i].tag in tags && r[j].tag in tags && FirstIndexOf(tags, r[i].tag) < FirstIndexOf(tags, r[j].tag))
  {
    var h := HashtagResults(counts);
    var r := u + p + h;
    var off := |u| + |p|;
    assert forall i :: 0 <= i < |r| && r[i].HashtagResult? ==> off <= i && r[i] == h[i - off];
    forall t | t in tags && TagMatches(t, term)
      ensures HashtagResult(t, Occurrences(tags, t)) in r
    {
      var k :| 0 <= k < |counts| && counts[k] == TagCount(t, Occurrences(tags, t));
      assert r[off + k] == h[k];
    }
  }

  lemma SearchBlocksTags(users: seq<User>, posts: seq<Post>, term: string)
    ensures var r := SearchBlocks(users, posts, term);
      && (forall i :: 0 <= i < |r| && r[i].HashtagResult? ==>
            TagMatches(r[i].tag, term) && r[i].count == Occurrences(AllTags(posts), r[i].tag) && r[i].count > 0)
      && (forall i, j :: 0 <= i < j < |r| && r[i].HashtagResult? && r[j].HashtagResult? ==> r[i].tag != r[j].tag)
      && (forall t :: t in AllTags(posts) && TagMatches(t, term) ==> HashtagResult(t, Occurrences(AllTags(posts), t)) in r)
      && (forall i, j :: 0 <= i < j < |r| && r[i].HashtagResult? && r[j].HashtagResult? ==>
            r[i].tag in AllTags(posts) && r[j].tag in AllTags(posts) && FirstIndexOf(AllTags(posts), r[i].tag) < FirstIndexOf(AllTags(posts), r[j].tag))
  {
    var tags := AllTags(posts);
    var u := UserResults(MatchingUsers(users, term));
    var p := PostResults(MatchingPosts(posts, term));
    var counts := Tally(MatchingTags(tags, term));
    MatchingTagCounts(tags, term);
    HashtagEntries(u, p, counts, tags, term);
    assert SearchBlocks(users, posts, term) == u + p + HashtagResults(counts);
  }

  /** `performGlobalSearch`: nothing for a blank query; otherwise the users
      whose username or display name contains the lowercased query, then the
      posts whose text or one of whose tags does, then one entry per matching
      tag with the number of its occurrences across all posts, in the order
      the tags first occur. The user and post blocks are order-preserving
      filters (`MatchingKeepsOrder`). */
  function PerformGlobalSearch(users: seq<User>, posts: seq<Post>, query: string): (r: seq<SearchResult>)
    ensures Blank(query) ==> r == []
    ensures forall i, j :: 0 <= i < j < |r| ==> Rank(r[i]) <= Rank(r[j])
    ensures forall u :: UserResult(u) in r <==> !Blank(query) && u in users && UserMatches(u, Lower(query))
    ensures forall p :: PostResult(p) in r <==> !Blank(query) && p in posts && GlobalPostMatch(p, Lower(query))
    ensures forall i :: 0 <= i < |r| && r[i].HashtagResult? ==>
      TagMatches(r[i].tag, Lower(query)) && r[i].count == Occurrences(AllTags(posts), r[i].tag) && r[i].count > 0
    ensures forall i, j :: 0 <= i < j < |r| && r[i].HashtagResult? && r[j].HashtagResult? ==> r[i].tag != r[j].tag
    ensures forall t :: t in AllTags(posts) && !Blank(query) && TagMatches(t, Lower(query)) ==>
      HashtagResult(t, Occurrences(AllTags(posts), t)) in r
    ensures forall i, j :: 0 <= i < j < |r| && r[i].HashtagResult? && r[j].HashtagResult? ==>
      r[i].tag in AllTags(posts) && r[j].tag in AllTags(posts) && FirstIndexOf(AllTags(posts), r[i].tag) < FirstIndexOf(AllTags(posts), r[j].tag)
    ensures !Blank(query) ==>
      r == UserResults(MatchingUsers(users, Lower(query))) + PostResults(MatchingPosts(posts, Lower(query)))
           + HashtagResults(Tally(MatchingTags(AllTags(posts), Lower(query))))
  {
    TrimEmptyIffBlank(query);
    if Trim(query) == "" then []
    else
      SearchBlocksOrder(users, posts, Lower(query));
      SearchBlocksTags(users, posts, Lower(query));
      SearchBlocks(users, posts, Lower(query))
  }

  /** Counting only matching occurrences gives each matching tag its full
      occurrence count, and lists the tags in order of their first
      occurrence among all tags, since the match depends on the tag alone. */
  lemma MatchingTagCounts(tags: seq<string>, term: string)
    ensures var counts := Tally(MatchingTags(tags, term));
      && DistinctTags(counts)
      && (forall i :: 0 <= i < |counts| ==> TagMatches(counts[i].tag, term) && counts[i].tag in tags && counts[i].count == Occurrences(tags, counts[i].tag) && counts[i].count > 0)
      && (forall t :: t in tags && TagMatches(t, term) ==> TagCount(t, Occurrences(tags, t)) in counts)
      && (forall i, j :: 0 <= i < j < |counts| ==> FirstIndexOf(tags, counts[i].tag) < FirstIndexOf(tags, counts[j].tag))
  {
    var m := MatchingTags(tags, term);
    var counts := Tally(m);
    TallyFacts(m);
    forall i, j | 0 <= i < j < |counts|
      ensures FirstIndexOf(tags, counts[i].tag) < FirstIndexOf(tags, counts[j].tag)
    {
      FilterKeepsFirstOrder(tags, (t: string) => TagMatches(t, term), counts[i].tag, counts[j].tag);
    }
  }

  /** The shared-hashtag test of `getRecommendedPosts`. */
  predicate SharesTag(p: Post, tags: seq<string>) {
    exists i :: 0 <= i < |p.hashtags| && p.hashtags[i] in tags
  }

  function LikesOf(p: Post): int {
    p.likes
  }

  /** The posts eligible for recommendation: by someone else, sharing a tag
      with the user's own posts. */
  function Candidates(posts: seq<Post>, userId: string): seq<Post> {
    var userHashtags := AllTags(MockData.GetPostsByUserId(posts, userId));
    Filter(Filter(posts, (p: Post) => p.user.id != userId), (p: Post) => SharesTag(p, userHashtags))
  }

  /** The most liked `limit` of a list of candidates: a prefix of the
      candidates sorted by likes, so a selection without repeats, most liked
      first, as many as the limit allows. */
  lemma MostLiked(candidates: seq<Post>, limit: int)
    ensures var r := Slice(SortDesc(candidates, LikesOf), 0, limit);
      && (forall i :: 0 <= i < |r| ==> r[i] in candidates)
      && r == SortDesc(candidates, LikesOf)[..|r|]
      && multiset(r) <= multiset(candidates)
      && NonIncreasing(r, LikesOf)
      && (limit >= 0 ==> |r| == Min(limit, |candidates|))
  {
    var sorted := SortDesc(candidates, LikesOf);
    TopPrefix(sorted, LikesOf, limit);
    var r := Slice(sorted, 0, limit);
    PrefixMultiset(sorted, |r|);
    forall i | 0 <= i < |r|
      ensures r[i] in candidates
    {
      assert r[i] == sorted[i];
    }
  }

  /** A candidate left out of the most liked `limit` has no more likes than
      any post kept, and is left out only when the limit is reached. */
  lemma LeftOutLikedLess(candidates: seq<Post>, limit: nat)
    ensures var r := Slice(SortDesc(candidates, LikesOf), 0, limit);
      forall p :: p in candidates && p !in r ==>
        |r| == limit && forall i :: 0 <= i < |r| ==> r[i].likes >= p.likes
  {
    var sorted := SortDesc(candidates, LikesOf);
    TopPrefix(sorted, LikesOf, limit);
    var r := Slice(sorted, 0, limit);
    assert forall i :: 0 <= i < |r| ==> r[i] == sorted[i];
    forall p | p in candidates && p !in r
      ensures |r| == limit && forall i :: 0 <= i < |r| ==> r[i].likes >= p.likes
    {
      var k :| 0 <= k < |sorted| && sorted[k] == p;
      assert k >= |r|;
      assert LikesOf(sorted[k]) == p.likes;
    }
  }

  /** Every candidate is a post by someone else sharing one of the user's
      tags. */
  lemma CandidateFacts(posts: seq<Post>, userId: string)
    ensures var userHashtags := AllTags(MockData.GetPostsByUserId(posts, userId));
      forall p :: p in Candidates(posts, userId) ==> p in posts && p.user.id != userId && SharesTag(p, userHashtags)
  {
  }

  /** `getRecommendedPosts`: posts by others that share a tag with the user's
      posts, a prefix of them sorted most liked first (each taken at most as
      often as it is eligible), cut at `limit`; an eligible post left out has
      no more likes than any post returned. */
  function GetRecommendedPosts(posts: seq<Post>, userId: string, limit: int): (r: seq<Post>)
    ensures var userHashtags := AllTags(MockData.GetPostsByUserId(posts, userId));
      forall i :: 0 <= i < |r| ==> r[i] in posts && r[i].user.id != userId && SharesTag(r[i], userHashtags)
    ensures |r| <= |Candidates(posts, userId)|
    ensures r == SortDesc(Candidates(posts, userId), LikesOf)[..|r|]
    ensures multiset(r) <= multiset(Candidates(posts, userId))
    ensures NonIncreasing(r, LikesOf)
    ensures limit >= 0 ==> |r| == Min(limit, |Candidates(posts, userId)|)
    ensures limit >= 0 ==> forall p :: p in Candidates(posts, userId) && p !in r ==>
      |r| == limit && forall i :: 0 <= i < |r| ==> r[i].likes >= p.likes
  {
    var candidates := Candidates(posts, userId);
    var r := Slice(SortDesc(candidates, LikesOf), 0, limit);
    var userHashtags := AllTags(MockData.GetPostsByUserId(posts, userId));
    assert forall i :: 0 <= i < |r| ==> r[i] in candidates by {
      MostLiked(candidates, limit);
    }
    forall i | 0 <= i < |r|
      ensures r[i] in posts && r[i].user.id != userId && SharesTag(r[i], userHashtags)
    {
      CandidateFacts(posts, userId);
      assert r[i] in candidates;
    }
    MostLiked(candidates, limit);
    if limit >= 0 then
      LeftOutLikedLess(candidates, limit);
      r
    else
      r
  }

  /** `Math.floor(diff / unit)` once at least one unit has passed. */
  function CountUnits(diff: int, u: TimeUnit): (n: nat)
    requires diff >= UnitMs(u)
    ensures n >= 1 && WholeUnits(n, diff, UnitMs(u))
    ensures u == Week && diff < MonthMs ==> n <= 4
    ensures u == Month && diff < YearMs ==> n <= 12
  {
    var d := UnitMs(u);
    assert d * (diff / d) + diff % d == diff;
    diff / d
  }

  /** The largest unit that has fully passed, for a difference of at least a
      minute. */
  function LargestUnit(diff: int): (u: TimeUnit)
    requires diff >= MinuteMs
    ensures UnitMs(u) <= diff
    ensures u == Minute <==> diff < HourMs
    ensures u == Hour <==> HourMs <= diff < DayMs
    ensures u == Day <==> DayMs <= diff < WeekMs
    ensures u == Week <==> WeekMs <= diff < MonthMs
    ensures u == Month <==> MonthMs <= diff < YearMs
    ensures u == Year <==> YearMs <= diff
  {
    if diff < HourMs then Minute
    else if diff < DayMs then Hour
    else if diff < WeekMs then Day
    else if diff < MonthMs then Week
    else if diff < YearMs then Month
    else Year
  }

  /** `formatTimeAgo`: `now` under a minute (or in the future), otherwise the
      largest unit that has fully passed, counted in whole units; weeks run
      from 1 to 4 and 30-day months from 1 to 12. */
  function FormatTimeAgo(now: int, timestamp: int): (r: TimeLabel)
    ensures !r.LocaleDate?
    ensures r.Now? <==> now - timestamp < MinuteMs
    ensures r.Ago? ==> WholeUnits(r.n, now - timestamp, UnitMs(r.unit)) && r.n >= 1
    ensures r.Ago? ==> r.unit == LargestUnit(now - timestamp)
    ensures r.Ago? && r.unit == Week ==> r.n <= 4
    ensures r.Ago? && r.unit == Month ==> r.n <= 12
  {
    var diff := now - timestamp;
    if diff < MinuteMs then Now
    else
      var u := LargestUnit(diff);
      Ago(CountUnits(diff, u), u)
  }

  /** A whole-unit count of a gap is unique. */
  lemma WholeUnitsUnique(a: int, b: int, diff: int, unit: nat)
    requires unit > 0 && WholeUnits(a, diff, unit) && WholeUnits(b, diff, unit)
    ensures a == b
  {
    if a != b {
      var lo := if a < b then a else b;
      var hi := if a < b then b else a;
      StepsApart(lo, hi - lo - 1, unit);
    }
  }

  /** Whole units further apart are at least one unit apart. */
  lemma StepsApart(lo: int, k: nat, unit: nat)
    ensures (lo + 1) * unit + k * unit == (lo + 1 + k) * unit
    ensures k * unit >= 0
  {
  }

  /** Below a week the mock data layer's `formatTimestamp` and `formatTimeAgo`
      give the same label: `now`, or the same count of the same unit. */
  lemma TimestampFormattersAgree(now: int, timestamp: int)
    requires now - timestamp < WeekMs
    ensures MockData.FormatTimestamp(now, timestamp) == FormatTimeAgo(now, timestamp)
  {
    var diff := now - timestamp;
    var a := MockData.FormatTimestamp(now, timestamp);
    var b := FormatTimeAgo(now, timestamp);
    if a.Ago? {
      assert b.Ago?;
      assert a.unit == b.unit by {
        if a.unit == Minute {
          assert diff < HourMs;
        } else if a.unit == Hour {
          assert HourMs <= diff < DayMs;
        } else {
          assert DayMs <= diff;
        }
      }
      WholeUnitsUnique(a.n, b.n, diff, UnitMs(a.unit));
    }
  }

  /** `isPostRecent`: posted within the last 24 hours, or in the future. */
  function IsPostRecent(now: int, timestamp: int): bool {
    timestamp > now - DayMs
  }

  /** A post is recent exactly when its relative time is shown in minutes,
      hours or as `now`. */
  lemma RecentMeansUnderADay(now: int, timestamp: int)
    ensures IsPostRecent(now, timestamp) <==>
      (FormatTimeAgo(now, timestamp).Now? || FormatTimeAgo(now, timestamp).unit in {Minute, Hour})
  {
  }

  const MaxPostLength := 280
  const EmptyContentError := "Post content cannot be empty"
  const TooLongError := "Post content cannot exceed 280 characters"

  datatype Validation = Validation(isValid: bool, errors: seq<string>)

  /** `validatePostContent`: the empty-content error for an all-white-space
      post, the length error for more than 280 UTF-16 code units, in that
      order; valid exactly when there is no error. */
  function ValidatePostContent(content: string): (r: Validation)
    ensures r.isValid <==> r.errors == []
    ensures EmptyContentError in r.errors <==> Blank(content)
    ensures TooLongError in r.errors <==> Utf16Length(content) > MaxPostLength
    ensures |r.errors| <= 2
    ensures |r.errors| == 2 ==> r.errors == [EmptyContentError, TooLongError]
    ensures forall e :: e in r.errors ==> e == EmptyContentError || e == TooLongError
    ensures r.isValid <==> !Blank(content) && Utf16Length(content) <= MaxPostLength
  {
    TrimEmptyIffBlank(content);
    var empty := Trim(content) == "";
    var tooLong := Utf16Length(content) > MaxPostLength;
    ErrorList(empty, tooLong);
    var errors := (if empty then [EmptyContentError] else []) + (if tooLong then [TooLongError] else []);
    Validation(|errors| == 0, errors)
  }

  /** The two checks report their own message each, in order. */
  lemma ErrorList(empty: bool, tooLong: bool)
    ensures var errors := (if empty then [EmptyContentError] else []) + (if tooLong then [TooLongError] else []);
      && (EmptyContentError in errors <==> empty)
      && (TooLongError in errors <==> tooLong)
      && |errors| <= 2
      && (|errors| == 2 ==> errors == [EmptyContentError, TooLongError])
      && (forall e :: e in errors ==> e == EmptyContentError || e == TooLongError)
      && (errors == [] <==> !empty && !tooLong)
  {
    assert |EmptyContentError| == 28 && |TooLongError| == 41;
  }

  /** End of the run of word characters starting at `k`. */
  function WordEnd(s: string, k: nat): (e: nat)
    requires k <= |s|
    ensures k <= e <= |s|
    ensures forall i :: k <= i < e ==> IsWordChar(s[i])
    ensures e == |s| || !IsWordChar(s[e])
    decreases |s| - k
  {
    if k < |s| && IsWordChar(s[k]) then WordEnd(s, k + 1) else k
  }

  /** A `#` at `i` followed by at least one word character. */
  predicate HashAt(s: string, i: int) {
    0 <= i && i + 1 < |s| && s[i] == '#' && IsWordChar(s[i + 1])
  }

  /** The word the tag at `i` names: the longest run of word characters after
      the `#`. */
  function TagWordAt(s: string, i: int): string
    requires HashAt(s, i)
  {
    s[i + 1..WordEnd(s, i + 1)]
  }

  /** Where the successive matches of `/#(\w+)/g` from position `k` start:
      the search resumes where the previous match ended, so the positions
      strictly increase. */
  function ScanHashes(s: string, k: nat): (r: seq<nat>)
    requires k <= |s|
    ensures forall m :: 0 <= m < |r| ==> k <= r[m] && HashAt(s, r[m])
    ensures forall m, n :: 0 <= m < n < |r| ==> r[m] < r[n]
    decreases |s| - k
  {
    if k >= |s| then []
    else if HashAt(s, k) then [k] + ScanHashes(s, WordEnd(s, k + 1))
    else ScanHashes(s, k + 1)
  }

  /** No tag is skipped: every `#` followed by a word character at or after
      `k` starts a match, since a match never swallows a `#`. */
  lemma {:induction false} ScanHashesFindsEvery(s: string, k: nat, i: nat)
    requires k <= i && HashAt(s, i)
    ensures i in ScanHashes(s, k)
    decreases |s| - k
  {
    if k < i {
      if HashAt(s, k) {
        var e := WordEnd(s, k + 1);
        assert e <= i by {
          assert !IsWordChar(s[i]);
        }
        ScanHashesFindsEvery(s, e, i);
      } else {
        ScanHashesFindsEvery(s, k + 1, i);
      }
    }
  }

  predicate IsLowerWord(t: string) {
    |t| > 0 && forall i :: 0 <= i < |t| ==> IsWordChar(t[i]) && !('A' <= t[i] <= 'Z')
  }

  lemma LowerWord(s: string, i: int)
    requires HashAt(s, i)
    ensures IsLowerWord(Lower(TagWordAt(s, i)))
  {
  }

  /** The lowercased word of every match, in text order. */
  function TagsAt(content: string): (r: seq<string>)
    ensures |r| == |ScanHashes(content, 0)|
    ensures forall m :: 0 <= m < |r| ==> r[m] == Lower(TagWordAt(content, ScanHashes(content, 0)[m]))
  {
    var ps := ScanHashes(content, 0);
    seq(|ps|, m requires 0 <= m < |ps| => Lower(TagWordAt(content, ps[m])))
  }

  /** A lowercased tag word occurs among the matches exactly when some `#` in
      the text introduces it. */
  lemma TagsAtComplete(content: string)
    ensures forall t :: t in TagsAt(content) <==> exists i :: HashAt(content, i) && t == Lower(TagWordAt(content, i))
  {
    var ps := ScanHashes(content, 0);
    var lw := TagsAt(content);
    forall i | HashAt(content, i)
      ensures Lower(TagWordAt(content, i)) in lw
    {
      ScanHashesFindsEvery(content, 0, i);
      var m :| 0 <= m < |ps| && ps[m] == i;
      assert lw[m] == Lower(TagWordAt(content, i));
    }
  }

  /** `extractHashtags`: the lowercased words after each `#`, without
      repeats, in order of first appearance. */
  function ExtractHashtags(content: string): (r: seq<string>)
    ensures Distinct(r)
    ensures forall t :: t in r ==> IsLowerWord(t)
    ensures forall t :: t in r <==> exists i :: HashAt(content, i) && t == Lower(TagWordAt(content, i))
  {
    var r := Dedupe(TagsAt(content));
    TagsAtComplete(content);
    forall t | t in r
      ensures IsLowerWord(t)
    {
      var i :| HashAt(content, i) && t == Lower(TagWordAt(content, i));
      LowerWord(content, i);
    }
    r
  }

  /** The `#` at `p` introduces tag `t`. */
  predicate Introduces(content: string, p: int, t: string) {
    HashAt(content, p) && Lower(TagWordAt(content, p)) == t
  }

  /** Some `#` introducing `t` comes before every `#` introducing `u`. */
  ghost predicate IntroducedBefore(content: string, t: string, u: string) {
    exists p :: Introduces(content, p, t) && forall q :: Introduces(content, q, u) ==> p < q
  }

  /** The match that first yields tag `t` starts at the earliest `#` in the
      text that introduces `t`. */
  lemma FirstTagPosition(content: string, t: string) returns (p: nat)
    requires t in TagsAt(content)
    ensures p == ScanHashes(content, 0)[FirstIndexOf(TagsAt(content), t)]
    ensures Introduces(content, p, t)
    ensures forall q :: Introduces(content, q, t) ==> p <= q
  {
    var ps := ScanHashes(content, 0);
    var lw := TagsAt(content);
    var a := FirstIndexOf(lw, t);
    p := ps[a];
    forall q | Introduces(content, q, t)
      ensures p <= q
    {
      ScanHashesFindsEvery(content, 0, q);
      var c :| 0 <= c < |ps| && ps[c] == q;
      assert lw[c] == t;
      assert a <= c;
      if a < c {
        assert ps[a] < ps[c];
      }
    }
  }

  /** The tags come out in the order they first appear in the text: for any
      two, the earlier one has a `#` before every `#` of the later one. */
  lemma ExtractHashtagsOrder(content: string)
    ensures var r := ExtractHashtags(content);
      forall i, j :: 0 <= i < j < |r| ==> IntroducedBefore(content, r[i], r[j])
  {
    var lw := TagsAt(content);
    var r := ExtractHashtags(content);
    DedupeKeepsFirstAppearanceOrder(lw);
    forall i, j | 0 <= i < j < |r|
      ensures IntroducedBefore(content, r[i], r[j])
    {
      var p := FirstTagPosition(content, r[i]);
      var p2 := FirstTagPosition(content, r[j]);
      assert FirstIndexOf(lw, r[i]) < FirstIndexOf(lw, r[j]);
      assert p < p2;
    }
  }
}

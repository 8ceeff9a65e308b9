/** The lookup, filter and formatting helpers of the mock data layer. Each
    helper takes the list it reads (navigation items, users, posts) and the
    current user as arguments instead of reading module constants, and the
    clock reading `now` is passed in. */
module MockData {
  import opened Collections
  import opened Social
  import opened Text
  import opened TagCounts
  import opened TimeLabels

  /** The id of the signed-in user in the mock data set. */
  const CurrentUserId := "current-user"

  /** `getActiveNavItem`: the first active item, if there is one. */
  function GetActiveNavItem(items: seq<NavItem>): (r: Option<NavItem>)
    ensures r.None? <==> forall i :: 0 <= i < |items| ==> !items[i].active
    ensures r.Some? ==> exists k :: 0 <= k < |items| && items[k] == r.value && items[k].active && forall j :: 0 <= j < k ==> !items[j].active
  {
    Find(items, (item: NavItem) => item.active)
  }

  /** `updateNavigationState`: the same items in the same order, with only the
      `active` flag rewritten, set exactly on the items whose id is `activeId`. */
  function UpdateNavigationState(items: seq<NavItem>, activeId: string): (r: seq<NavItem>)
    ensures |r| == |items|
    ensures forall i :: 0 <= i < |items| ==> r[i].(active := items[i].active) == items[i]
    ensures forall i :: 0 <= i < |items| ==> (r[i].active <==> items[i].id == activeId)
  {
    seq(|items|, i requires 0 <= i < |items| => items[i].(active := items[i].id == activeId))
  }

  lemma UpdateNavigationIdempotent(items: seq<NavItem>, activeId: string)
    ensures UpdateNavigationState(UpdateNavigationState(items, activeId), activeId) == UpdateNavigationState(items, activeId)
  {
  }

  /** With unique ids at most one item is active afterwards, none when no item
      has the id, and `getActiveNavItem` then finds the item with that id. */
  lemma UpdateNavigationActivatesOne(items: seq<NavItem>, activeId: string)
    requires UniqueNavIds(items)
    ensures var r := UpdateNavigationState(items, activeId);
      && (forall i, j :: 0 <= i < |r| && 0 <= j < |r| && r[i].active && r[j].active ==> i == j)
      && ((forall i :: 0 <= i < |items| ==> items[i].id != activeId) ==> GetActiveNavItem(r) == None)
      && (forall k :: 0 <= k < |items| && items[k].id == activeId ==> GetActiveNavItem(r) == Some(items[k].(active := true)))
  {
    var r := UpdateNavigationState(items, activeId);
    forall k | 0 <= k < |items| && items[k].id == activeId
      ensures GetActiveNavItem(r) == Some(items[k].(active := true))
    {
      var found := GetActiveNavItem(r);
      var k' :| 0 <= k' < |r| && r[k'] == found.value && r[k'].active && forall j :: 0 <= j < k' ==> !r[j].active;
      assert k' == k;
    }
  }

  /** `getUserById`: the current user for its own id, otherwise the first user
      in the list with that id. */
  function GetUserById(current: User, users: seq<User>, userId: string): (r: Option<User>)
    ensures userId == current.id ==> r == Some(current)
    ensures userId != current.id ==> (r.None? <==> forall i :: 0 <= i < |users| ==> users[i].id != userId)
    ensures userId != current.id && r.Some? ==>
      exists k :: 0 <= k < |users| && users[k] == r.value && r.value.id == userId && forall j :: 0 <= j < k ==> users[j].id != userId
  {
    if userId == current.id then Some(current)
    else Find(users, (user: User) => user.id == userId)
  }

  predicate ByUser(p: Post, userId: string) {
    p.user.id == userId
  }

  /** `getPostsByUserId`: exactly the posts whose author has the id, each as
      many times as it occurs. */
  function GetPostsByUserId(posts: seq<Post>, userId: string): (r: seq<Post>)
    ensures forall i :: 0 <= i < |r| ==> r[i].user.id == userId
    ensures forall p :: multiset(r)[p] == if p.user.id == userId then multiset(posts)[p] else 0
  {
    Filter(posts, (p: Post) => ByUser(p, userId))
  }

  /** The posts keep their feed order: filtering a concatenation filters each
      part. */
  lemma PostsByUserIdKeepsOrder(a: seq<Post>, b: seq<Post>, userId: string)
    ensures GetPostsByUserId(a + b, userId) == GetPostsByUserId(a, userId) + GetPostsByUserId(b, userId)
  {
    FilterConcat(a, b, (p: Post) => ByUser(p, userId));
  }

  /** `generateInteractionState`: echoes the id and copies the first matching
      post's flags and count, with false/false/0 for an unknown post. */
  function GenerateInteractionState(posts: seq<Post>, postId: string): (r: InteractionState)
    ensures r.postId == postId
    ensures (forall i :: 0 <= i < |posts| ==> posts[i].id != postId) ==> r == InteractionState(postId, false, false, 0)
    ensures forall k :: 0 <= k < |posts| && posts[k].id == postId && (forall j :: 0 <= j < k ==> posts[j].id != postId) ==>
      r == InteractionState(postId, posts[k].isLiked, posts[k].isBookmarked, posts[k].likes)
  {
    match Find(posts, (p: Post) => p.id == postId)
    case Some(post) => InteractionState(postId, post.isLiked || false, post.isBookmarked || false, OrElse(post.likes, 0))
    case None => InteractionState(postId, false, false, 0)
  }

  const TrendingLimit := 10

  function CountOf(c: TagCount): int {
    c.count
  }

  /** `getTrendingHashtags`: at most ten distinct tags, most used first, each
      with its number of occurrences across all posts; a tag left out is used
      no more often than any tag listed. */
  function GetTrendingHashtags(posts: seq<Post>): (r: seq<TagCount>)
    ensures |r| <= TrendingLimit
    ensures DistinctTags(r)
    ensures NonIncreasing(r, CountOf)
    ensures forall i :: 0 <= i < |r| ==> r[i].tag in AllTags(posts) && r[i].count == Occurrences(AllTags(posts), r[i].tag)
    ensures forall t :: t in AllTags(posts) && (forall i :: 0 <= i < |r| ==> r[i].tag != t) ==>
      |r| == TrendingLimit && forall i :: 0 <= i < |r| ==> r[i].count >= Occurrences(AllTags(posts), t)
  {
    var tags := AllTags(posts);
    var sorted := SortDesc(Tally(tags), CountOf);
    SortedTallyFacts(tags);
    TopOfSorted(sorted, tags, TrendingLimit);
    Slice(sorted, 0, TrendingLimit)
  }

  /** The tally sorted by count still has distinct tags, each carrying its
      number of occurrences, and every occurring tag. */
  lemma SortedTallyFacts(tags: seq<string>)
    ensures var sorted := SortDesc(Tally(tags), CountOf);
      && DistinctTags(sorted)
      && (forall x :: x in sorted ==> x.tag in tags && x.count == Occurrences(tags, x.tag))
      && (forall t :: t in tags ==> TagCount(t, Occurrences(tags, t)) in sorted)
  {
    TallyFacts(tags);
    SortKeepsTally(Tally(tags), tags);
  }

  /** Sorting a tally by count keeps its tags distinct and its entries. */
  lemma SortKeepsTally(counts: seq<TagCount>, tags: seq<string>)
    requires DistinctTags(counts)
    requires forall i :: 0 <= i < |counts| ==> counts[i].tag in tags && counts[i].count == Occurrences(tags, counts[i].tag)
    requires forall t :: t in tags ==> TagCount(t, Occurrences(tags, t)) in counts
    ensures var sorted := SortDesc(counts, CountOf);
      && DistinctTags(sorted)
      && (forall x :: x in sorted ==> x.tag in tags && x.count == Occurrences(tags, x.tag))
      && (forall t :: t in tags ==> TagCount(t, Occurrences(tags, t)) in sorted)
  {
    assert Distinct(counts) by {
      forall i, j | 0 <= i < j < |counts|
        ensures counts[i] != counts[j]
      {
        assert counts[i].tag != counts[j].tag;
      }
    }
    var sorted := SortDesc(counts, CountOf);
    forall x | x in sorted
      ensures x.tag in tags && x.count == Occurrences(tags, x.tag)
    {
      var k :| 0 <= k < |counts| && counts[k] == x;
    }
    forall i, j | 0 <= i < j < |sorted|
      ensures sorted[i].tag != sorted[j].tag
    {
      assert sorted[i] in sorted && sorted[j] in sorted;
      assert sorted[i] != sorted[j];
    }
  }

  /** The first `limit` entries of a list sorted by count, whose entries each
      carry their tag's occurrence count: a tag left out is used no more often
      than any tag kept. */
  lemma TopOfSorted(sorted: seq<TagCount>, tags: seq<string>, limit: nat)
    requires NonIncreasing(sorted, CountOf) && DistinctTags(sorted)
    requires forall x :: x in sorted ==> x.tag in tags && x.count == Occurrences(tags, x.tag)
    requires forall t :: t in tags ==> TagCount(t, Occurrences(tags, t)) in sorted
    ensures var r := Slice(sorted, 0, limit);
      && |r| <= limit
      && DistinctTags(r)
      && NonIncreasing(r, CountOf)
      && (forall i :: 0 <= i < |r| ==> r[i].tag in tags && r[i].count == Occurrences(tags, r[i].tag))
      && (forall t :: t in tags && (forall i :: 0 <= i < |r| ==> r[i].tag != t) ==>
            |r| == limit && forall i :: 0 <= i < |r| ==> r[i].count >= Occurrences(tags, t))
  {
    TopPrefix(sorted, CountOf, limit);
    var r := Slice(sorted, 0, limit);
    assert forall i :: 0 <= i < |r| ==> r[i] == sorted[i];
    assert forall i :: 0 <= i < |r| ==> sorted[i] in sorted;
    forall t | t in tags && (forall i :: 0 <= i < |r| ==> r[i].tag != t)
      ensures |r| == limit && forall i :: 0 <= i < |r| ==> r[i].count >= Occurrences(tags, t)
    {
      var k :| 0 <= k < |sorted| && sorted[k] == TagCount(t, Occurrences(tags, t));
      assert k >= |r|;
      assert CountOf(sorted[k]) == Occurrences(tags, t);
    }
  }

  /** `formatTimestamp`: `now` under a minute (or in the future), then whole
      minutes, hours and days, and the locale date from seven days on. */
  function FormatTimestamp(now: int, timestamp: int): (r: TimeLabel)
    ensures r.Now? <==> now - timestamp < MinuteMs
    ensures r.LocaleDate? <==> now - timestamp >= WeekMs
    ensures r.LocaleDate? ==> r.timestamp == timestamp
    ensures r.Ago? ==> r.unit in {Minute, Hour, Day} && WholeUnits(r.n, now - timestamp, UnitMs(r.unit))
    ensures r.Ago? && r.unit == Minute ==> 1 <= r.n < 60
    ensures r.Ago? && r.unit == Hour ==> 1 <= r.n < 24
    ensures r.Ago? && r.unit == Day ==> 1 <= r.n < 7
  {
    var diff := now - timestamp;
    var minutes := diff / MinuteMs;
    var hours := diff / HourMs;
    var days := diff / DayMs;
    if minutes < 1 then Now
    else if minutes < 60 then Ago(minutes, Minute)
    else if hours < 24 then Ago(hours, Hour)
    else if days == 1 then Ago(1, Day)
    else if days < 7 then Ago(days, Day)
    else LocaleDate(timestamp)
  }

  /** The match test of `searchPosts` against the lowercased query. */
  predicate SearchPostsMatch(p: Post, term: string) {
    || Contains(Lower(p.content), term)
    || Contains(Lower(p.user.displayName), term)
    || Contains(Lower(p.user.username), term)
    || (exists i :: 0 <= i < |p.hashtags| && Contains(Lower(p.hashtags[i]), term))
  }

  /** `searchPosts`: nothing for a blank query; otherwise exactly the posts
      matching the lowercased, untrimmed query. */
  function SearchPosts(posts: seq<Post>, query: string): (r: seq<Post>)
    ensures Blank(query) ==> r == []
    ensures forall i :: 0 <= i < |r| ==> SearchPostsMatch(r[i], Lower(query))
    ensures !Blank(query) ==> forall p :: multiset(r)[p] == if SearchPostsMatch(p, Lower(query)) then multiset(posts)[p] else 0
  {
    TrimEmptyIffBlank(query);
    if Trim(query) == "" then []
    else
      var searchTerm := Lower(query);
      Filter(posts, (p: Post) => SearchPostsMatch(p, searchTerm))
  }

  /** Search results keep their feed order. */
  lemma SearchPostsKeepsOrder(a: seq<Post>, b: seq<Post>, query: string)
    ensures SearchPosts(a + b, query) == SearchPosts(a, query) + SearchPosts(b, query)
  {
    TrimEmptyIffBlank(query);
    if Trim(query) != "" {
      var searchTerm := Lower(query);
      FilterConcat(a, b, (p: Post) => SearchPostsMatch(p, searchTerm));
    }
  }

  const SuggestedLimit := 3

  predicate NotCurrent(u: User, current: User) {
    u.id != current.id
  }

  /** `getSuggestedUsers`: the first three users, in list order, other than the
      current user. */
  function GetSuggestedUsers(users: seq<User>, current: User): (r: seq<User>)
    ensures forall i :: 0 <= i < |r| ==> r[i].id != current.id && r[i] in users
    ensures var others := Filter(users, (u: User) => NotCurrent(u, current));
      |r| == Min(SuggestedLimit, |others|) && r == others[..|r|]
  {
    Slice(Filter(users, (u: User) => NotCurrent(u, current)), 0, SuggestedLimit)
  }
}

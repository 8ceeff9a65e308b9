/** The engagement overlay of the feed container: a map from post id to the
    user's like/bookmark override, two transitions that update it, and the
    projection that lays the overrides over the immutable post list before the
    cards are rendered. */
module Overlay {
  import opened Collections
  import opened Social

  datatype Engagement = Engagement(isLiked: bool, isBookmarked: bool, localLikes: int)

  type Engagements = map<string, Engagement>

  /** The overlay starts with no entries. */
  const NoEngagements: Engagements := map[]

  /** The record synthesised when a post has no entry yet. */
  const Untouched := Engagement(false, false, 0)

  /** `prev[postId] || { isLiked: false, isBookmarked: false, localLikes: 0 }` */
  function Current(m: Engagements, postId: string): Engagement {
    if postId in m then m[postId] else Untouched
  }

  /** `posts.find(p => p.id === postId)?.likes || 0`: the baseline of the
      first post with that id, and 0 when there is none. */
  function BaseLikes(posts: seq<Post>, postId: string): (b: int)
    ensures (forall i :: 0 <= i < |posts| ==> posts[i].id != postId) ==> b == 0
    ensures forall k :: 0 <= k < |posts| && posts[k].id == postId && (forall j :: 0 <= j < k ==> posts[j].id != postId) ==> b == posts[k].likes
  {
    match Find(posts, (p: Post) => p.id == postId)
    case Some(p) => OrElse(p.likes, 0)
    case None => 0
  }

  /** `handleLike(postId, isLiked)`: `isLiked` is the state the card asks for,
      not a toggle. The count starts from the stored `localLikes`, or from the
      baseline when that is 0, and moves by one only when the flag changes. */
  function Like(m: Engagements, posts: seq<Post>, postId: string, isLiked: bool): (r: Engagements)
    ensures r.Keys == m.Keys + {postId}
    ensures forall k :: k in m && k != postId ==> r[k] == m[k]
    ensures r[postId].isLiked == isLiked
    ensures r[postId].isBookmarked == Current(m, postId).isBookmarked
    ensures var start := OrElse(Current(m, postId).localLikes, BaseLikes(posts, postId));
      && (isLiked && !Current(m, postId).isLiked ==> r[postId].localLikes == start + 1)
      && (!isLiked && Current(m, postId).isLiked ==> r[postId].localLikes == start - 1)
      && (isLiked == Current(m, postId).isLiked ==> r[postId].localLikes == start)
  {
    var current := Current(m, postId);
    var baseLikes := BaseLikes(posts, postId);
    var localLikes :=
      if isLiked then OrElse(current.localLikes, baseLikes) + (if current.isLiked then 0 else 1)
      else OrElse(current.localLikes, baseLikes) - (if current.isLiked then 1 else 0);
    m[postId := current.(isLiked := isLiked, localLikes := localLikes)]
  }

  /** `handleBookmark(postId, isBookmarked)`: only the flag is written. */
  function Bookmark(m: Engagements, postId: string, isBookmarked: bool): (r: Engagements)
    ensures r.Keys == m.Keys + {postId}
    ensures forall k :: k in m && k != postId ==> r[k] == m[k]
    ensures r[postId].isBookmarked == isBookmarked
    ensures r[postId].isLiked == Current(m, postId).isLiked
    ensures r[postId].localLikes == Current(m, postId).localLikes
    ensures postId !in m ==> r[postId].localLikes == 0 && !r[postId].isLiked
  {
    m[postId := Current(m, postId).(isBookmarked := isBookmarked)]
  }

  /** `{ ...post, ...engagements[post.id] }`: the post itself, plus the
      override fields when the post has an entry. */
  datatype ViewPost = ViewPost(post: Post, engagement: Option<Engagement>)

  /** `postsWithEngagement`. */
  function Project(posts: seq<Post>, m: Engagements): (r: seq<ViewPost>)
    ensures |r| == |posts|
    ensures forall i :: 0 <= i < |posts| ==> r[i].post == posts[i]
    ensures forall i :: 0 <= i < |posts| ==> (r[i].engagement.Some? <==> posts[i].id in m)
    ensures forall i :: 0 <= i < |posts| && posts[i].id in m ==> r[i].engagement.value == m[posts[i].id]
  {
    seq(|posts|, i requires 0 <= i < |posts| =>
      ViewPost(posts[i], if posts[i].id in m then Some(m[posts[i].id]) else None))
  }

  /** The props one card is rendered with: the post with its displayed like
      count in `likes`, and the two flags. */
  datatype CardView = CardView(post: Post, isLiked: bool, isBookmarked: bool)

  /** One card of the feed: the entry, or `{false, false, post.likes}` when
      there is none, and `likes: engagement.localLikes || post.likes`. */
  function RenderPost(v: ViewPost, m: Engagements): CardView {
    var engagement := if v.post.id in m then m[v.post.id] else Engagement(false, false, v.post.likes);
    CardView(v.post.(likes := OrElse(engagement.localLikes, v.post.likes)), engagement.isLiked, engagement.isBookmarked)
  }

  /** The rendered feed: one card per post, in feed order. A post without an
      entry is shown exactly as stored, unliked and unbookmarked. */
  function RenderFeed(posts: seq<Post>, m: Engagements): (r: seq<CardView>)
    ensures |r| == |posts|
    ensures forall i :: 0 <= i < |posts| && posts[i].id !in m ==> r[i] == CardView(posts[i], false, false)
    ensures forall i :: 0 <= i < |posts| && posts[i].id in m ==>
      r[i] == CardView(posts[i].(likes := OrElse(m[posts[i].id].localLikes, posts[i].likes)), m[posts[i].id].isLiked, m[posts[i].id].isBookmarked)
  {
    var views := Project(posts, m);
    seq(|views|, i requires 0 <= i < |views| => RenderPost(views[i], m))
  }

  predicate ValidBaselines(posts: seq<Post>) {
    forall i :: 0 <= i < |posts| ==> posts[i].likes >= 0
  }

  /** Every entry that belongs to a post of the feed displays that post's
      baseline plus one exactly when it is liked. */
  predicate Consistent(m: Engagements, posts: seq<Post>) {
    forall i :: 0 <= i < |posts| && posts[i].id in m ==>
      OrElse(m[posts[i].id].localLikes, posts[i].likes) == posts[i].likes + Indicator(m[posts[i].id].isLiked)
  }

  lemma BaseLikesOfMember(posts: seq<Post>, i: nat)
    requires UniquePostIds(posts) && i < |posts|
    ensures BaseLikes(posts, posts[i].id) == posts[i].likes
  {
  }

  lemma LikeKeepsConsistent(m: Engagements, posts: seq<Post>, postId: string, isLiked: bool)
    requires UniquePostIds(posts) && ValidBaselines(posts) && Consistent(m, posts)
    ensures Consistent(Like(m, posts, postId, isLiked), posts)
  {
    var r := Like(m, posts, postId, isLiked);
    forall i | 0 <= i < |posts| && posts[i].id in r
      ensures OrElse(r[posts[i].id].localLikes, posts[i].likes) == posts[i].likes + Indicator(r[posts[i].id].isLiked)
    {
      if posts[i].id == postId {
        BaseLikesOfMember(posts, i);
      }
    }
  }

  lemma BookmarkKeepsConsistent(m: Engagements, posts: seq<Post>, postId: string, isBookmarked: bool)
    requires Consistent(m, posts)
    ensures Consistent(Bookmark(m, postId, isBookmarked), posts)
  {
  }

  /** A user action on the overlay. */
  datatype Action = LikeAction(postId: string, isLiked: bool) | BookmarkAction(postId: string, isBookmarked: bool)

  function Apply(m: Engagements, posts: seq<Post>, a: Action): Engagements {
    match a
    case LikeAction(id, liked) => Like(m, posts, id, liked)
    case BookmarkAction(id, bookmarked) => Bookmark(m, id, bookmarked)
  }

  function ApplyAll(m: Engagements, posts: seq<Post>, actions: seq<Action>): Engagements
    decreases |actions|
  {
    if |actions| == 0 then m else ApplyAll(Apply(m, posts, actions[0]), posts, actions[1..])
  }

  lemma {:induction false} ApplyAllKeepsConsistent(m: Engagements, posts: seq<Post>, actions: seq<Action>)
    requires UniquePostIds(posts) && ValidBaselines(posts) && Consistent(m, posts)
    ensures Consistent(ApplyAll(m, posts, actions), posts)
    decreases |actions|
  {
    if |actions| > 0 {
      match actions[0] {
        case LikeAction(id, liked) => LikeKeepsConsistent(m, posts, id, liked);
        case BookmarkAction(id, bookmarked) => BookmarkKeepsConsistent(m, posts, id, bookmarked);
      }
      ApplyAllKeepsConsistent(Apply(m, posts, actions[0]), posts, actions[1..]);
    }
  }

  /** With unique ids and non-negative baselines, after any sequence of like
      and bookmark calls every card shows its baseline plus one exactly when it
      is shown liked. */
  lemma DisplayedCountInvariant(posts: seq<Post>, actions: seq<Action>)
    requires UniquePostIds(posts) && ValidBaselines(posts)
    ensures var cards := RenderFeed(posts, ApplyAll(NoEngagements, posts, actions));
      forall i :: 0 <= i < |posts| ==> cards[i].post.likes == posts[i].likes + Indicator(cards[i].isLiked)
  {
    ApplyAllKeepsConsistent(NoEngagements, posts, actions);
  }

  /** Liking then unliking a post without an entry leaves an entry that shows
      the baseline, unliked and with the bookmark flag untouched. */
  lemma LikeRoundTrip(m: Engagements, posts: seq<Post>, postId: string)
    requires postId !in m && ValidBaselines(posts)
    ensures Like(m, posts, postId, true)[postId] == Engagement(true, false, BaseLikes(posts, postId) + 1)
    ensures Like(Like(m, posts, postId, true), posts, postId, false) == m[postId := Engagement(false, false, BaseLikes(posts, postId))]
  {
    var b := BaseLikes(posts, postId);
    assert b >= 0 by {
      match FindIndex(posts, (p: Post) => p.id == postId)
      case None =>
      case Some(k) =>
    }
  }

  /** The concrete scenario: baseline 142, like then unlike. */
  lemma LikeRoundTripAt142(rest: Post)
    ensures var posts := [rest.(id := "p1", likes := 142)];
      && Like(NoEngagements, posts, "p1", true)["p1"] == Engagement(true, false, 143)
      && Like(Like(NoEngagements, posts, "p1", true), posts, "p1", false)["p1"] == Engagement(false, false, 142)
  {
    var posts := [rest.(id := "p1", likes := 142)];
    assert BaseLikes(posts, "p1") == 142;
    LikeRoundTrip(NoEngagements, posts, "p1");
  }

  /** Asking twice for the same like state counts once: on a consistent
      overlay, a repeated `Like` with the same target changes nothing. */
  lemma LikeIdempotent(m: Engagements, posts: seq<Post>, postId: string, isLiked: bool)
    requires UniquePostIds(posts) && ValidBaselines(posts) && Consistent(m, posts)
    ensures Like(Like(m, posts, postId, isLiked), posts, postId, isLiked) == Like(m, posts, postId, isLiked)
  {
    var once := Like(m, posts, postId, isLiked);
    LikeKeepsConsistent(m, posts, postId, isLiked);
    if k :| 0 <= k < |posts| && posts[k].id == postId {
      BaseLikesOfMember(posts, k);
      assert OrElse(once[postId].localLikes, posts[k].likes) == posts[k].likes + Indicator(isLiked);
    }
  }

  /** A like on an id that no post carries creates an entry with baseline 0,
      and the rendered feed does not change. */
  lemma LikeUnknownIsInvisible(m: Engagements, posts: seq<Post>, postId: string, isLiked: bool)
    requires forall i :: 0 <= i < |posts| ==> posts[i].id != postId
    ensures postId in Like(m, posts, postId, isLiked)
    ensures BaseLikes(posts, postId) == 0
    ensures Project(posts, Like(m, posts, postId, isLiked)) == Project(posts, m)
    ensures RenderFeed(posts, Like(m, posts, postId, isLiked)) == RenderFeed(posts, m)
  {
    var r := Like(m, posts, postId, isLiked);
    assert forall i :: 0 <= i < |posts| ==> (posts[i].id in r <==> posts[i].id in m);
  }
}

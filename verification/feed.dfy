/** The feed container wired to its cards: each card is mounted with the
    props the container renders for it, and every callback the card fires is
    handled by the container on the spot. */
module Feed {
  import opened Collections
  import opened Social
  import opened Overlay
  import Card

  /** The container's handlers: like and bookmark update the overlay; the
      comment, share and new-comment handlers only log or call the browser's
      share dialog, so the overlay is untouched. */
  function Dispatch(m: Engagements, posts: seq<Post>, c: Card.Callback): Engagements {
    match c
    case OnLike(id, liked) => Like(m, posts, id, liked)
    case OnBookmark(id, bookmarked) => Bookmark(m, id, bookmarked)
    case _ => m
  }

  function DispatchAll(m: Engagements, posts: seq<Post>, cbs: seq<Card.Callback>): Engagements
    decreases |cbs|
  {
    if |cbs| == 0 then m else DispatchAll(Dispatch(m, posts, cbs[0]), posts, cbs[1..])
  }

  /** The props a card is given: the post id, the displayed count as `likes`,
      and the two flags. */
  function Mount(v: CardView): Card.Props {
    Card.Props(v.post.id, v.post.likes, Some(v.isLiked), Some(v.isBookmarked))
  }

  /** The card and the overlay hold the same engagement for a post. */
  predicate Agree(s: Card.State, v: CardView) {
    s.isLiked == v.isLiked && s.isBookmarked == v.isBookmarked && s.localLikes == v.post.likes
  }

  datatype World = World(card: Card.State, engagements: Engagements)

  /** Events on the card of `posts[i]`, each handled by the card and then by
      the container. */
  function Interact(w: World, posts: seq<Post>, postId: string, events: seq<Card.Event>): World
    decreases |events|
  {
    if |events| == 0 then w
    else
      var r := Card.Step(w.card, postId, events[0]);
      Interact(World(r.state, DispatchAll(w.engagements, posts, r.emitted)), posts, postId, events[1..])
  }

  lemma RenderedFlags(posts: seq<Post>, m: Engagements, i: nat)
    requires i < |posts|
    ensures RenderFeed(posts, m)[i].isLiked == Current(m, posts[i].id).isLiked
    ensures RenderFeed(posts, m)[i].isBookmarked == Current(m, posts[i].id).isBookmarked
    ensures RenderFeed(posts, m)[i].post.id == posts[i].id
  {
  }

  /** Callbacks other than like and bookmark leave the overlay alone. */
  lemma {:induction false} QuietCallbacks(m: Engagements, posts: seq<Post>, cbs: seq<Card.Callback>)
    requires forall i :: 0 <= i < |cbs| ==> !cbs[i].OnLike? && !cbs[i].OnBookmark?
    ensures DispatchAll(m, posts, cbs) == m
    decreases |cbs|
  {
    if |cbs| > 0 {
      QuietCallbacks(Dispatch(m, posts, cbs[0]), posts, cbs[1..]);
    }
  }

  /** Every event other than a like or bookmark press keeps the card's flags
      and count and fires no like or bookmark callback. */
  lemma QuietStep(s: Card.State, postId: string, e: Card.Event)
    requires !e.PressLike? && !e.PressBookmark?
    ensures var r := Card.Step(s, postId, e);
      && r.state.isLiked == s.isLiked && r.state.isBookmarked == s.isBookmarked && r.state.localLikes == s.localLikes
      && forall i :: 0 <= i < |r.emitted| ==> !r.emitted[i].OnLike? && !r.emitted[i].OnBookmark?
  {
    var r := Card.Step(s, postId, e);
    match e {
      case PressComment =>
        assert r.state == s && r.emitted == [Card.OnComment(postId)];
      case PressShare =>
        assert r.state == s && r.emitted == [Card.OnShare(postId)];
      case EditComment(text) =>
        assert r.state == s.(commentText := text) && r.emitted == [];
      case PressSubmit =>
        assert r == Card.Submit(s, postId);
        QuietSubmit(s, postId);
      case KeyPress(key, shiftKey) =>
        QuietSubmit(s, postId);
      case PressLike =>
      case PressBookmark =>
    }
  }

  /** Submitting a comment keeps the flags and count and reports at most the
      new comment. */
  lemma QuietSubmit(s: Card.State, postId: string)
    ensures var r := Card.Submit(s, postId);
      && r.state.isLiked == s.isLiked && r.state.isBookmarked == s.isBookmarked && r.state.localLikes == s.localLikes
      && forall i :: 0 <= i < |r.emitted| ==> r.emitted[i].OnNewComment?
  {
  }

  /** After a like press the card's flag and count match the feed's. */
  lemma LikeAgrees(posts: seq<Post>, m: Engagements, i: nat, s: Card.State)
    requires UniquePostIds(posts) && ValidBaselines(posts) && Consistent(m, posts) && i < |posts|
    requires Agree(s, RenderFeed(posts, m)[i])
    ensures Consistent(Like(m, posts, posts[i].id, !s.isLiked), posts)
    ensures Agree(Card.Like(s, posts[i].id).state, RenderFeed(posts, Like(m, posts, posts[i].id, !s.isLiked))[i])
  {
    var id := posts[i].id;
    var m' := Like(m, posts, id, !s.isLiked);
    LikeKeepsConsistent(m, posts, id, !s.isLiked);
    RenderedFlags(posts, m, i);
    RenderedFlags(posts, m', i);
    assert id in m';
  }

  /** A like on one post leaves every other card of the feed as it was. */
  lemma LikeLeavesOtherCards(posts: seq<Post>, m: Engagements, i: nat, isLiked: bool)
    requires UniquePostIds(posts) && i < |posts|
    ensures forall j :: 0 <= j < |posts| && j != i ==>
      RenderFeed(posts, Like(m, posts, posts[i].id, isLiked))[j] == RenderFeed(posts, m)[j]
  {
    var m' := Like(m, posts, posts[i].id, isLiked);
    forall j | 0 <= j < |posts| && j != i
      ensures RenderFeed(posts, m')[j] == RenderFeed(posts, m)[j]
    {
      assert posts[j].id != posts[i].id;
    }
  }

  lemma LikeStepAgrees(posts: seq<Post>, m: Engagements, i: nat, s: Card.State)
    requires UniquePostIds(posts) && ValidBaselines(posts) && Consistent(m, posts) && i < |posts|
    requires Agree(s, RenderFeed(posts, m)[i])
    ensures var r := Card.Step(s, posts[i].id, Card.PressLike);
      var m' := DispatchAll(m, posts, r.emitted);
      && Consistent(m', posts)
      && Agree(r.state, RenderFeed(posts, m')[i])
      && forall j :: 0 <= j < |posts| && j != i ==> RenderFeed(posts, m')[j] == RenderFeed(posts, m)[j]
  {
    var id := posts[i].id;
    var r := Card.Step(s, id, Card.PressLike);
    assert r == Card.Like(s, id);
    assert DispatchAll(m, posts, r.emitted) == Like(m, posts, id, !s.isLiked) by {
      assert r.emitted == [Card.OnLike(id, !s.isLiked)];
    }
    LikeAgrees(posts, m, i, s);
    LikeLeavesOtherCards(posts, m, i, !s.isLiked);
  }

  lemma BookmarkStepAgrees(posts: seq<Post>, m: Engagements, i: nat, s: Card.State)
    requires UniquePostIds(posts) && ValidBaselines(posts) && Consistent(m, posts) && i < |posts|
    requires Agree(s, RenderFeed(posts, m)[i])
    ensures var r := Card.Step(s, posts[i].id, Card.PressBookmark);
      var m' := DispatchAll(m, posts, r.emitted);
      && Consistent(m', posts)
      && Agree(r.state, RenderFeed(posts, m')[i])
      && forall j :: 0 <= j < |posts| && j != i ==> RenderFeed(posts, m')[j] == RenderFeed(posts, m)[j]
  {
    var id := posts[i].id;
    var r := Card.Step(s, id, Card.PressBookmark);
    RenderedFlags(posts, m, i);
    var m' := Bookmark(m, id, !s.isBookmarked);
    assert r.emitted == [Card.OnBookmark(id, !s.isBookmarked)];
    assert DispatchAll(m, posts, r.emitted) == m';
    BookmarkKeepsConsistent(m, posts, id, !s.isBookmarked);
    RenderedFlags(posts, m', i);
  }

  /** One card event, handled by card and container, keeps them in agreement
      and leaves every other card as it was. */
  lemma StepAgrees(posts: seq<Post>, m: Engagements, i: nat, s: Card.State, e: Card.Event)
    requires UniquePostIds(posts) && ValidBaselines(posts) && Consistent(m, posts) && i < |posts|
    requires Agree(s, RenderFeed(posts, m)[i])
    ensures var r := Card.Step(s, posts[i].id, e);
      var m' := DispatchAll(m, posts, r.emitted);
      && Consistent(m', posts)
      && Agree(r.state, RenderFeed(posts, m')[i])
      && forall j :: 0 <= j < |posts| && j != i ==> RenderFeed(posts, m')[j] == RenderFeed(posts, m)[j]
  {
    if e.PressLike? {
      LikeStepAgrees(posts, m, i, s);
    } else if e.PressBookmark? {
      BookmarkStepAgrees(posts, m, i, s);
    } else {
      var r := Card.Step(s, posts[i].id, e);
      QuietStep(s, posts[i].id, e);
      QuietCallbacks(m, posts, r.emitted);
    }
  }

  /** However the user drives a mounted card, the card and the feed it sits in
      show the same flags and the same like count, the overlay stays
      consistent, and no other card changes. */
  lemma {:induction false} CardAndFeedAgree(posts: seq<Post>, m: Engagements, i: nat, s: Card.State, events: seq<Card.Event>)
    requires UniquePostIds(posts) && ValidBaselines(posts) && Consistent(m, posts) && i < |posts|
    requires Agree(s, RenderFeed(posts, m)[i])
    ensures var w := Interact(World(s, m), posts, posts[i].id, events);
      && Consistent(w.engagements, posts)
      && Agree(w.card, RenderFeed(posts, w.engagements)[i])
      && forall j :: 0 <= j < |posts| && j != i ==> RenderFeed(posts, w.engagements)[j] == RenderFeed(posts, m)[j]
    decreases |events|
  {
    if |events| > 0 {
      var r := Card.Step(s, posts[i].id, events[0]);
      var m' := DispatchAll(m, posts, r.emitted);
      StepAgrees(posts, m, i, s, events[0]);
      CardAndFeedAgree(posts, m', i, r.state, events[1..]);
    }
  }

  /** A freshly mounted card agrees with the feed that rendered it. */
  lemma MountAgrees(posts: seq<Post>, m: Engagements, i: nat)
    requires i < |posts|
    ensures Agree(Card.Init(Mount(RenderFeed(posts, m)[i])), RenderFeed(posts, m)[i])
  {
  }
}

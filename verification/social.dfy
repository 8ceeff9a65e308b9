/** The entities of the feed: users, posts, navigation items and the
    per-post interaction record. Optional fields of the source that the core
    reads with a default (`active`, `isLiked`, `isBookmarked`, `hashtags`)
    are stored with that default applied. Timestamps are milliseconds since
    the epoch. */
module Social {
  import opened Collections

  datatype User = User(id: string, username: string, displayName: string)

  datatype Post = Post(
    id: string,
    user: User,
    content: string,
    timestamp: int,
    likes: int,
    comments: int,
    hashtags: seq<string>,
    isLiked: bool,
    isBookmarked: bool)

  /** `caption` is the source's `label` field (a reserved word in Dafny). */
  datatype NavItem = NavItem(id: string, caption: string, icon: string, href: string, active: bool, badge: Option<int>)

  datatype InteractionState = InteractionState(postId: string, isLiked: bool, isBookmarked: bool, likeCount: int)

  predicate UniquePostIds(posts: seq<Post>) {
    forall i, j :: 0 <= i < j < |posts| ==> posts[i].id != posts[j].id
  }

  predicate UniqueNavIds(items: seq<NavItem>) {
    forall i, j :: 0 <= i < j < |items| ==> items[i].id != items[j].id
  }
}

/** The engagement bar of one post card: its local state, the events the user
    can fire at it, and the callback each event reports to the parent. */
module Card {
  import opened Collections
  import opened Text

  /** The props the card reads; the flags are optional and default to false. */
  datatype Props = Props(postId: string, likes: int, isLiked: Option<bool>, isBookmarked: Option<bool>)

  datatype State = State(isLiked: bool, isBookmarked: bool, localLikes: int, commentText: string)

  datatype Event =
    | PressLike
    | PressComment
    | PressShare
    | PressBookmark
    | EditComment(text: string)
    | PressSubmit
    | KeyPress(key: string, shiftKey: bool)

  /** The optional callbacks of the props, as events the parent receives. */
  datatype Callback =
    | OnLike(postId: string, isLiked: bool)
    | OnComment(postId: string)
    | OnShare(postId: string)
    | OnBookmark(postId: string, isBookmarked: bool)
    | OnNewComment(postId: string, content: string)

  /** The state after an event and the callbacks it fired, in order. */
  datatype Reaction = Reaction(state: State, emitted: seq<Callback>)

  /** The four `useState` initialisers. */
  function Init(props: Props): (s: State)
    ensures s.isLiked == (props.isLiked == Some(true))
    ensures s.isBookmarked == (props.isBookmarked == Some(true))
    ensures s.localLikes == props.likes && s.commentText == ""
  {
    State(props.isLiked.GetOr(false), props.isBookmarked.GetOr(false), props.likes, "")
  }

  /** `handleLike`: the flag flips, the count follows it by one, and the parent
      is told the new state. */
  function Like(s: State, postId: string): (r: Reaction)
    ensures r.state.isLiked == !s.isLiked
    ensures r.state.localLikes - Indicator(r.state.isLiked) == s.localLikes - Indicator(s.isLiked)
    ensures r.state.(isLiked := s.isLiked, localLikes := s.localLikes) == s
    ensures r.emitted == [OnLike(postId, r.state.isLiked)]
  {
    var newLikedState := !s.isLiked;
    Reaction(s.(isLiked := newLikedState, localLikes := if newLikedState then s.localLikes + 1 else s.localLikes - 1),
             [OnLike(postId, newLikedState)])
  }

  /** `handleBookmark`: only the bookmark flag flips. */
  function Bookmark(s: State, postId: string): (r: Reaction)
    ensures r.state == s.(isBookmarked := !s.isBookmarked)
    ensures r.emitted == [OnBookmark(postId, !s.isBookmarked)]
  {
    var newBookmarkedState := !s.isBookmarked;
    Reaction(s.(isBookmarked := newBookmarkedState), [OnBookmark(postId, newBookmarkedState)])
  }

  /** `handleCommentSubmit`: a draft with something besides white space is
      reported untrimmed, once, and cleared; a blank draft is kept and nothing
      is reported. */
  function Submit(s: State, postId: string): (r: Reaction)
    ensures Blank(s.commentText) ==> r == Reaction(s, [])
    ensures !Blank(s.commentText) ==> r == Reaction(s.(commentText := ""), [OnNewComment(postId, s.commentText)])
  {
    TrimEmptyIffBlank(s.commentText);
    if Trim(s.commentText) != "" then
      Reaction(s.(commentText := ""), [OnNewComment(postId, s.commentText)])
    else
      Reaction(s, [])
  }

  /** `handleCommentKeyPress`: Enter without Shift submits; any other key is
      left to the input. */
  function KeyPress(s: State, postId: string, key: string, shiftKey: bool): (r: Reaction)
    ensures key == "Enter" && !shiftKey ==> r == Submit(s, postId)
    ensures key != "Enter" || shiftKey ==> r == Reaction(s, [])
  {
    if key == "Enter" && !shiftKey then Submit(s, postId) else Reaction(s, [])
  }

  function Step(s: State, postId: string, e: Event): Reaction {
    match e
    case PressLike => Like(s, postId)
    case PressComment => Reaction(s, [OnComment(postId)])
    case PressShare => Reaction(s, [OnShare(postId)])
    case PressBookmark => Bookmark(s, postId)
    case EditComment(text) => Reaction(s.(commentText := text), [])
    case PressSubmit => Submit(s, postId)
    case KeyPress(key, shiftKey) => KeyPress(s, postId, key, shiftKey)
  }

  /** The comment and share buttons report their event and change nothing. */
  lemma CommentAndShareKeepState(s: State, postId: string)
    ensures Step(s, postId, PressComment) == Reaction(s, [OnComment(postId)])
    ensures Step(s, postId, PressShare) == Reaction(s, [OnShare(postId)])
  {
  }

  /** Runs a sequence of events, collecting every callback fired. */
  function Run(s: State, postId: string, events: seq<Event>): Reaction
    decreases |events|
  {
    if |events| == 0 then Reaction(s, [])
    else
      var first := Step(s, postId, events[0]);
      var rest := Run(first.state, postId, events[1..]);
      Reaction(rest.state, first.emitted + rest.emitted)
  }

  /** Two like presses in a row restore the flag and the count. */
  lemma LikeTwiceRestores(s: State, postId: string)
    ensures Like(Like(s, postId).state, postId).state == s
  {
  }

  /** One event keeps the count-minus-flag balance. */
  lemma StepKeepsBalance(s: State, postId: string, e: Event)
    ensures var r := Step(s, postId, e);
      r.state.localLikes - Indicator(r.state.isLiked) == s.localLikes - Indicator(s.isLiked)
  {
    TrimEmptyIffBlank(s.commentText);
  }

  /** A single callback reports a like or bookmark state only when it is of
      that kind. */
  lemma SingleReport(liked: bool, bookmarked: bool, c: Callback)
    ensures LastReportedLike(liked, [c]) == if c.OnLike? then c.isLiked else liked
    ensures LastReportedBookmark(bookmarked, [c]) == if c.OnBookmark? then c.isBookmarked else bookmarked
  {
    assert [c][1..] == [];
  }

  /** One event reports the flags it leaves, and tags every callback with the
      card's post id. */
  lemma StepReports(s: State, postId: string, e: Event)
    ensures var r := Step(s, postId, e);
      && LastReportedLike(s.isLiked, r.emitted) == r.state.isLiked
      && LastReportedBookmark(s.isBookmarked, r.emitted) == r.state.isBookmarked
      && forall i :: 0 <= i < |r.emitted| ==> r.emitted[i].postId == postId
  {
    match e {
      case PressLike =>
        SingleReport(s.isLiked, s.isBookmarked, OnLike(postId, !s.isLiked));
      case PressComment =>
        SingleReport(s.isLiked, s.isBookmarked, OnComment(postId));
      case PressShare =>
        SingleReport(s.isLiked, s.isBookmarked, OnShare(postId));
      case PressBookmark =>
        SingleReport(s.isLiked, s.isBookmarked, OnBookmark(postId, !s.isBookmarked));
      case EditComment(text) =>
      case PressSubmit =>
        SingleReport(s.isLiked, s.isBookmarked, OnNewComment(postId, s.commentText));
      case KeyPress(key, shiftKey) =>
        SingleReport(s.isLiked, s.isBookmarked, OnNewComment(postId, s.commentText));
    }
  }

  /** One event keeps the count-minus-flag balance, reports its flags
      faithfully and tags every callback with the card's post id. */
  lemma StepFacts(s: State, postId: string, e: Event)
    ensures var r := Step(s, postId, e);
      && r.state.localLikes - Indicator(r.state.isLiked) == s.localLikes - Indicator(s.isLiked)
      && LastReportedLike(s.isLiked, r.emitted) == r.state.isLiked
      && LastReportedBookmark(s.isBookmarked, r.emitted) == r.state.isBookmarked
      && forall i :: 0 <= i < |r.emitted| ==> r.emitted[i].postId == postId
  {
    StepKeepsBalance(s, postId, e);
    StepReports(s, postId, e);
  }

  /** Over any sequence of events the count is the initial count, plus one if
      liked now, minus one if liked at mount. */
  lemma {:induction false} LikeCountInvariant(s: State, postId: string, events: seq<Event>)
    ensures var t := Run(s, postId, events).state;
      t.localLikes - Indicator(t.isLiked) == s.localLikes - Indicator(s.isLiked)
    decreases |events|
  {
    if |events| > 0 {
      StepFacts(s, postId, events[0]);
      LikeCountInvariant(Step(s, postId, events[0]).state, postId, events[1..]);
    }
  }

  lemma MountedLikeCount(props: Props, events: seq<Event>)
    ensures var t := Run(Init(props), props.postId, events).state;
      t.localLikes == props.likes + Indicator(t.isLiked) - Indicator(props.isLiked == Some(true))
  {
    LikeCountInvariant(Init(props), props.postId, events);
  }

  /** The last like state reported, or `init` when none was. */
  function LastReportedLike(init: bool, cbs: seq<Callback>): bool
    decreases |cbs|
  {
    if |cbs| == 0 then init
    else LastReportedLike(if cbs[0].OnLike? then cbs[0].isLiked else init, cbs[1..])
  }

  /** The last bookmark state reported, or `init` when none was. */
  function LastReportedBookmark(init: bool, cbs: seq<Callback>): bool
    decreases |cbs|
  {
    if |cbs| == 0 then init
    else LastReportedBookmark(if cbs[0].OnBookmark? then cbs[0].isBookmarked else init, cbs[1..])
  }

  lemma {:induction false} LastReportedConcat(a: bool, b: bool, x: seq<Callback>, y: seq<Callback>)
    ensures LastReportedLike(a, x + y) == LastReportedLike(LastReportedLike(a, x), y)
    ensures LastReportedBookmark(b, x + y) == LastReportedBookmark(LastReportedBookmark(b, x), y)
    decreases |x|
  {
    if |x| == 0 {
      assert x + y == y;
    } else {
      assert (x + y)[1..] == x[1..] + y;
      LastReportedConcat(if x[0].OnLike? then x[0].isLiked else a, if x[0].OnBookmark? then x[0].isBookmarked else b, x[1..], y);
    }
  }

  /** A parent that starts from the card's flags and records every reported
      state always holds the card's current flags; every callback carries the
      card's post id. */
  lemma {:induction false} ReportsMirrorState(s: State, postId: string, events: seq<Event>)
    ensures var r := Run(s, postId, events);
      && LastReportedLike(s.isLiked, r.emitted) == r.state.isLiked
      && LastReportedBookmark(s.isBookmarked, r.emitted) == r.state.isBookmarked
      && forall i :: 0 <= i < |r.emitted| ==> r.emitted[i].postId == postId
    decreases |events|
  {
    if |events| > 0 {
      var first := Step(s, postId, events[0]);
      var rest := Run(first.state, postId, events[1..]);
      StepFacts(s, postId, events[0]);
      ReportsMirrorState(first.state, postId, events[1..]);
      LastReportedConcat(s.isLiked, s.isBookmarked, first.emitted, rest.emitted);
      assert Run(s, postId, events) == Reaction(rest.state, first.emitted + rest.emitted);
    }
  }
}

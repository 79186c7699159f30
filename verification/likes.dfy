/** The like controller: one toggle per target kind and the "liked by me"
    listings. A like names its target through one of three optional
    fields; the toggles query and create likes on exactly one of them. */
module Likes {
  import opened Base
  import opened Seqs
  import opened Entities

  datatype Kind = VideoTarget | CommentTarget | TweetTarget

  function TargetOf(l: Like, k: Kind): Option<Id> {
    match k
    case VideoTarget => l.video
    case CommentTarget => l.comment
    case TweetTarget => l.tweet
  }

  /** The filter `{ <kind>: target, likedBy: me }` of a toggle. */
  predicate Matches(l: Like, k: Kind, target: Id, me: Id) {
    TargetOf(l, k) == Some(target) && l.likedBy == me
  }

  function LikeOf(k: Kind, target: Id, me: Id): Like -> bool {
    (l: Like) => Matches(l, k, target, me)
  }

  /** `new Like({ <kind>: target, likedBy: me })` with the id the store assigns. */
  function NewLike(id: Id, k: Kind, target: Id, me: Id): (l: Like)
    ensures l.id == id && Matches(l, k, target, me)
    ensures ExactlyOneTarget(l)
    ensures forall k' :: k' != k ==> TargetOf(l, k') == None
  {
    Like(id,
      if k == VideoTarget then Some(target) else None,
      if k == CommentTarget then Some(target) else None,
      if k == TweetTarget then Some(target) else None,
      me)
  }

  datatype Toggled = Liked(like: Like) | Unliked

  /** The body shared by the three toggles: `findOneAndDelete` on the filter,
      and a new like when nothing was deleted. */
  function Toggle(s: Store, me: Id, k: Kind, target: Id, newId: Id): (r: Reply<Toggled>)
    ensures r.result.Ok?
    ensures r.store == s.(likes := r.store.likes)
    ensures forall l :: l in r.store.likes ==> l in s.likes || l == NewLike(newId, k, target, me)
    ensures Filter(r.store.likes, Not(LikeOf(k, target, me))) == Filter(s.likes, Not(LikeOf(k, target, me)))
    ensures Count(s.likes, LikeOf(k, target, me)) > 0 ==>
      && r.result == Ok(Unliked)
      && |r.store.likes| == |s.likes| - 1
      && Count(r.store.likes, LikeOf(k, target, me)) == Count(s.likes, LikeOf(k, target, me)) - 1
    ensures Count(s.likes, LikeOf(k, target, me)) == 0 ==>
      && r.result == Ok(Liked(NewLike(newId, k, target, me)))
      && r.store.likes == s.likes + [NewLike(newId, k, target, me)]
  {
    var p := LikeOf(k, target, me);
    if Count(s.likes, p) > 0 then
      Reply(Ok(Unliked), s.(likes := RemoveFirst(s.likes, p)))
    else
      var l := NewLike(newId, k, target, me);
      FilterConcat(s.likes, [l], Not(p));
      assert [l][1..] == [];
      Reply(Ok(Liked(l)), s.(likes := s.likes + [l]))
  }

  /** `toggleVideoLike`. Its id check sits inside the `try`, so the 400 it
      throws is caught and rethrown as 500. The query and the new like use
      the cast id. */
  function ToggleVideoLike(s: Store, me: Id, videoId: string, newId: Id): (r: Reply<Toggled>)
    ensures !ValidObjectId(videoId) ==> r == Reply(Err(ServerError), s)
    ensures ValidObjectId(videoId) ==> r == Toggle(s, me, VideoTarget, Canon(videoId), newId)
    ensures ValidObjectId(videoId) ==> r.result.Ok? && r.store == s.(likes := r.store.likes)
    ensures ValidObjectId(videoId) ==>
      Filter(r.store.likes, Not(LikeOf(VideoTarget, Canon(videoId), me))) == Filter(s.likes, Not(LikeOf(VideoTarget, Canon(videoId), me)))
    ensures ValidObjectId(videoId) && (exists l :: l in s.likes && l.video == Some(Canon(videoId)) && l.likedBy == me) ==>
      && r.result == Ok(Unliked)
      && |r.store.likes| == |s.likes| - 1
      && Count(r.store.likes, LikeOf(VideoTarget, Canon(videoId), me)) == Count(s.likes, LikeOf(VideoTarget, Canon(videoId), me)) - 1
    ensures ValidObjectId(videoId) && (forall l :: l in s.likes ==> !(l.video == Some(Canon(videoId)) && l.likedBy == me)) ==>
      var l := Like(newId, Some(Canon(videoId)), None, None, me);
      r.result == Ok(Liked(l)) && r.store.likes == s.likes + [l]
  {
    if !ValidObjectId(videoId) then Reply(Err(ServerError), s)
    else
      Toggle(s, me, VideoTarget, Canon(videoId), newId)
  }

  /** `toggleCommentLike`: the id check comes before the `try`, so a
      malformed id is answered with 400. */
  function ToggleCommentLike(s: Store, me: Id, commentId: string, newId: Id): (r: Reply<Toggled>)
    ensures !ValidObjectId(commentId) ==> r == Reply(Err(BadRequest), s)
    ensures ValidObjectId(commentId) ==> r == Toggle(s, me, CommentTarget, Canon(commentId), newId)
    ensures ValidObjectId(commentId) ==> r.result.Ok? && r.store == s.(likes := r.store.likes)
    ensures ValidObjectId(commentId) ==>
      Filter(r.store.likes, Not(LikeOf(CommentTarget, Canon(commentId), me))) == Filter(s.likes, Not(LikeOf(CommentTarget, Canon(commentId), me)))
    ensures ValidObjectId(commentId) && (exists l :: l in s.likes && l.comment == Some(Canon(commentId)) && l.likedBy == me) ==>
      && r.result == Ok(Unliked)
      && |r.store.likes| == |s.likes| - 1
      && Count(r.store.likes, LikeOf(CommentTarget, Canon(commentId), me)) == Count(s.likes, LikeOf(CommentTarget, Canon(commentId), me)) - 1
    ensures ValidObjectId(commentId) && (forall l :: l in s.likes ==> !(l.comment == Some(Canon(commentId)) && l.likedBy == me)) ==>
      var l := Like(newId, None, Some(Canon(commentId)), None, me);
      r.result == Ok(Liked(l)) && r.store.likes == s.likes + [l]
  {
    if !ValidObjectId(commentId) then Reply(Err(BadRequest), s)
    else
      Toggle(s, me, CommentTarget, Canon(commentId), newId)
  }

  /** `toggleTweetLike`, shaped like the comment toggle. */
  function ToggleTweetLike(s: Store, me: Id, tweetId: string, newId: Id): (r: Reply<Toggled>)
    ensures !ValidObjectId(tweetId) ==> r == Reply(Err(BadRequest), s)
    ensures ValidObjectId(tweetId) ==> r == Toggle(s, me, TweetTarget, Canon(tweetId), newId)
    ensures ValidObjectId(tweetId) ==> r.result.Ok? && r.store == s.(likes := r.store.likes)
    ensures ValidObjectId(tweetId) ==>
      Filter(r.store.likes, Not(LikeOf(TweetTarget, Canon(tweetId), me))) == Filter(s.likes, Not(LikeOf(TweetTarget, Canon(tweetId), me)))
    ensures ValidObjectId(tweetId) && (exists l :: l in s.likes && l.tweet == Some(Canon(tweetId)) && l.likedBy == me) ==>
      && r.result == Ok(Unliked)
      && |r.store.likes| == |s.likes| - 1
      && Count(r.store.likes, LikeOf(TweetTarget, Canon(tweetId), me)) == Count(s.likes, LikeOf(TweetTarget, Canon(tweetId), me)) - 1
    ensures ValidObjectId(tweetId) && (forall l :: l in s.likes ==> !(l.tweet == Some(Canon(tweetId)) && l.likedBy == me)) ==>
      var l := Like(newId, None, None, Some(Canon(tweetId)), me);
      r.result == Ok(Liked(l)) && r.store.likes == s.likes + [l]
  {
    if !ValidObjectId(tweetId) then Reply(Err(BadRequest), s)
    else
      Toggle(s, me, TweetTarget, Canon(tweetId), newId)
  }

  /** Starting with no matching like, two toggles in a row answer "liked"
      then "unliked" and give back the original store. */
  lemma ToggleTwiceRestores(s: Store, me: Id, k: Kind, target: Id, id1: Id, id2: Id)
    requires Count(s.likes, LikeOf(k, target, me)) == 0
    ensures Toggle(s, me, k, target, id1).result.value.Liked?
    ensures Toggle(Toggle(s, me, k, target, id1).store, me, k, target, id2).result == Ok(Unliked)
    ensures Toggle(Toggle(s, me, k, target, id1).store, me, k, target, id2).store == s
  {
    var p := LikeOf(k, target, me);
    var l := NewLike(id1, k, target, me);
    var s1 := Toggle(s, me, k, target, id1).store;
    assert s1.likes == s.likes + [l];
    assert Count(s1.likes, p) > 0 by { assert l in s1.likes; }
    RemoveFirstOfAppended(s.likes, l, p);
  }

  /** Starting with no matching like, a toggle leaves exactly one. */
  lemma ToggleCreatesOne(s: Store, me: Id, k: Kind, target: Id, newId: Id)
    requires Count(s.likes, LikeOf(k, target, me)) == 0
    ensures Count(Toggle(s, me, k, target, newId).store.likes, LikeOf(k, target, me)) == 1
  {
    var p := LikeOf(k, target, me);
    var l := NewLike(newId, k, target, me);
    FilterConcat(s.likes, [l], p);
    assert Filter([l], p) == [l];
  }

  /** Every like a toggle creates has exactly one target, so a store in which
      every like has one keeps that property. */
  lemma TogglePreservesSingleTarget(s: Store, me: Id, k: Kind, target: Id, newId: Id)
    requires AllSingleTarget(s.likes)
    ensures AllSingleTarget(Toggle(s, me, k, target, newId).store.likes)
  {
  }

  /** A like with one target populates the field of one kind only. */
  lemma OneKind(x: Like, k: Kind, k2: Kind)
    requires ExactlyOneTarget(x)
    ensures TargetOf(x, k).Some? && TargetOf(x, k2).Some? ==> k == k2
  {
  }

  /** A toggle does not change the likes selected by any other (kind, target,
      liker) filter, provided every like has a single target (which is what
      lets likes of different kinds be told apart). */
  lemma ToggleLeavesOtherFilters(s: Store, me: Id, k: Kind, target: Id, newId: Id, k2: Kind, target2: Id, me2: Id)
    requires AllSingleTarget(s.likes)
    requires (k, target, me) != (k2, target2, me2)
    ensures Filter(Toggle(s, me, k, target, newId).store.likes, LikeOf(k2, target2, me2)) == Filter(s.likes, LikeOf(k2, target2, me2))
  {
    var p := LikeOf(k, target, me);
    var q := LikeOf(k2, target2, me2);
    var r := Toggle(s, me, k, target, newId).store.likes;
    forall x | ExactlyOneTarget(x) && q(x) ensures !p(x) {
      OneKind(x, k, k2);
    }
    FilterNarrow(r, p, q);
    FilterNarrow(s.likes, p, q);
  }

  /** Whether the populated target of a like resolves to an existing record. */
  predicate TargetResolves(s: Store, l: Like, k: Kind) {
    match TargetOf(l, k)
    case None => false
    case Some(id) =>
      match k
      case VideoTarget => FindVideo(s, id).Some?
      case CommentTarget => FindComment(s, id).Some?
      case TweetTarget => FindTweet(s, id).Some?
  }

  function LikedResolving(s: Store, me: Id, k: Kind): Like -> bool {
    (l: Like) => l.likedBy == me && TargetResolves(s, l, k)
  }

  /** `Like.find({ likedBy: me })`, populated, keeping the entries whose target
      of kind `k` is neither absent nor dangling; an empty list is a 404. */
  function LikedBy(s: Store, me: Id, k: Kind): (r: Result<seq<Like>>)
    ensures r.Err? ==> r.status == NotFound
    ensures r.Err? <==> forall l :: l in s.likes ==> !(l.likedBy == me && TargetResolves(s, l, k))
    ensures r.Ok? ==> forall l :: l in r.value ==> l in s.likes && l.likedBy == me && TargetResolves(s, l, k)
    ensures r.Ok? ==> forall l :: l in s.likes && l.likedBy == me && TargetResolves(s, l, k) ==> l in r.value
  {
    var found := Filter(s.likes, LikedResolving(s, me, k));
    if |found| == 0 then Err(NotFound)
    else
      assert found[0] in found;
      Ok(found)
  }

  /** `getUserLikedVideos`. */
  function GetUserLikedVideos(s: Store, me: Id): (r: Result<seq<Like>>)
    ensures r.Err? ==> r.status == NotFound
    ensures r.Err? <==> forall l :: l in s.likes && l.likedBy == me && l.video.Some? ==> FindVideo(s, l.video.value).None?
    ensures r.Ok? ==> forall l :: l in r.value ==> l in s.likes && l.likedBy == me && l.video.Some? && FindVideo(s, l.video.value).Some?
    ensures r.Ok? ==> forall l :: l in s.likes && l.likedBy == me && l.video.Some? && FindVideo(s, l.video.value).Some? ==> l in r.value
  {
    LikedBy(s, me, VideoTarget)
  }

  /** `getUserLikedTweets`. */
  function GetUserLikedTweets(s: Store, me: Id): (r: Result<seq<Like>>)
    ensures r.Err? ==> r.status == NotFound
    ensures r.Err? <==> forall l :: l in s.likes && l.likedBy == me && l.tweet.Some? ==> FindTweet(s, l.tweet.value).None?
    ensures r.Ok? ==> forall l :: l in r.value ==> l in s.likes && l.likedBy == me && l.tweet.Some? && FindTweet(s, l.tweet.value).Some?
    ensures r.Ok? ==> forall l :: l in s.likes && l.likedBy == me && l.tweet.Some? && FindTweet(s, l.tweet.value).Some? ==> l in r.value
  {
    LikedBy(s, me, TweetTarget)
  }

  /** `getUserLikedComments`. */
  function GetUserLikedComments(s: Store, me: Id): (r: Result<seq<Like>>)
    ensures r.Err? ==> r.status == NotFound
    ensures r.Err? <==> forall l :: l in s.likes && l.likedBy == me && l.comment.Some? ==> FindComment(s, l.comment.value).None?
    ensures r.Ok? ==> forall l :: l in r.value ==> l in s.likes && l.likedBy == me && l.comment.Some? && FindComment(s, l.comment.value).Some?
    ensures r.Ok? ==> forall l :: l in s.likes && l.likedBy == me && l.comment.Some? && FindComment(s, l.comment.value).Some? ==> l in r.value
  {
    LikedBy(s, me, CommentTarget)
  }

  /** Liking an existing video, whatever the case of its id in the request,
      makes it show up among the caller's liked videos. */
  lemma LikedVideoIsListed(s: Store, me: Id, videoId: string, newId: Id)
    requires ValidObjectId(videoId) && FindVideo(s, Canon(videoId)).Some?
    requires forall l :: l in s.likes ==> !(l.video == Some(Canon(videoId)) && l.likedBy == me)
    ensures var s1 := ToggleVideoLike(s, me, videoId, newId).store;
      GetUserLikedVideos(s1, me).Ok? && Like(newId, Some(Canon(videoId)), None, None, me) in GetUserLikedVideos(s1, me).value
  {
    var s1 := ToggleVideoLike(s, me, videoId, newId).store;
    var l := Like(newId, Some(Canon(videoId)), None, None, me);
    assert l in s1.likes;
    assert s1.videos == s.videos;
    assert FindVideo(s1, Canon(videoId)).Some?;
    assert TargetResolves(s1, l, VideoTarget);
  }
}

/** `removeUser` and its helpers. Each helper loop walks a list read from the
    store once, before the loop, and deletes by id; unlike the public video
    deletion, the video helper never pulls a deleted id from playlists or
    watch histories. */
module UserRemoval {
  import opened Base
  import opened Seqs
  import opened Entities
  import opened Cloudinary
  import Videos

  /** Every record of `t` was already in `s`. */
  ghost predicate Within(s: Store, t: Store) {
    && (forall x :: x in t.users ==> x in s.users)
    && (forall x :: x in t.videos ==> x in s.videos)
    && (forall x :: x in t.comments ==> x in s.comments)
    && (forall x :: x in t.tweets ==> x in s.tweets)
    && (forall x :: x in t.likes ==> x in s.likes)
    && (forall x :: x in t.playlists ==> x in s.playlists)
    && (forall x :: x in t.subscriptions ==> x in s.subscriptions)
  }

  /** A like in `t` on a comment of `s` means that comment is still in `t`:
      comments were only ever deleted together with their likes. */
  ghost predicate LikesFollowComments(s: Store, t: Store) {
    forall l, c :: l in t.likes && c in s.comments && l.comment == Some(c.id) ==> c in t.comments
  }

  /** A comment in `t` on a video of `s`, or a like in `t` on one, means a
      video with that id is still in `t`: videos were only ever deleted
      together with their comments and likes. */
  ghost predicate ContentFollowsVideos(s: Store, t: Store) {
    && (forall c :: c in t.comments && HasVideo(s, c.video) ==> HasVideo(t, c.video))
    && (forall l :: l in t.likes && l.video.Some? && HasVideo(s, l.video.value) ==> HasVideo(t, l.video.value))
  }

  /** `t` is what is left of `s` after deletions of the kind the helpers make. */
  ghost predicate Shrinks(s: Store, t: Store) {
    Within(s, t) && LikesFollowComments(s, t) && ContentFollowsVideos(s, t)
  }

  lemma ShrinksTrans(a: Store, b: Store, c: Store)
    requires Shrinks(a, b) && Shrinks(b, c)
    ensures Shrinks(a, c)
  {
  }

  /** Some comment of `s` on video `v` has id `id`. */
  ghost predicate CommentIdOnVideo(s: Store, id: Id, v: Id) {
    exists c :: c in s.comments && c.video == v && c.id == id
  }

  /** `deleteCommentAndRelatedData`: the likes on the comment, then every
      comment with its id. */
  function DeleteCommentAndRelatedData(s: Store, c: Comment): (r: Store)
    ensures r == s.(likes := r.likes, comments := r.comments)
    ensures forall l :: l in r.likes <==> l in s.likes && l.comment != Some(c.id)
    ensures forall x :: x in r.comments <==> x in s.comments && x.id != c.id
    ensures Shrinks(s, r)
  {
    s.(likes := Filter(s.likes, Not(LikeOnComment(c.id))), comments := Filter(s.comments, Not(CommentIdIs(c.id))))
  }

  /** The helper applied to each comment of a list in turn. */
  function DeleteComments(s: Store, cs: seq<Comment>): (r: Store)
    decreases |cs|
    ensures r == s.(likes := r.likes, comments := r.comments)
    ensures forall l :: l in r.likes <==> l in s.likes && !(l.comment.Some? && l.comment.value in CommentIds(cs))
    ensures forall x :: x in r.comments <==> x in s.comments && x.id !in CommentIds(cs)
    ensures Shrinks(s, r)
  {
    if |cs| == 0 then s
    else
      var t := DeleteCommentAndRelatedData(s, cs[0]);
      CommentIdsCons(cs);
      var r := DeleteComments(t, cs[1..]);
      ShrinksTrans(s, t, r);
      r
  }

  /** The likes of `deleteVideoAndRelatedData`. */
  function LikesAfterVideo(s: Store, v: Video): Store {
    s.(likes := Filter(s.likes, Not(LikeOnVideo(v.id))))
  }

  /** The comments on the video, read once before the loop. */
  function CommentsOnVideo(s: Store, v: Video): (cs: seq<Comment>)
    ensures forall id :: id in CommentIds(cs) <==> CommentIdOnVideo(s, id, v.id)
    ensures forall x :: x in s.comments && x.video == v.id ==> x in cs
  {
    Filter(s.comments, CommentOnVideo(v.id))
  }

  /** `findByIdAndDelete` on a video none of whose comments and likes are
      left. */
  function DropVideo(s: Store, id: Id): (r: Store)
    requires forall x :: x in s.comments ==> x.video != id
    requires forall l :: l in s.likes ==> l.video != Some(id)
    ensures r == s.(videos := r.videos)
    ensures forall x :: x in r.videos <==> x in s.videos && x.id != id
    ensures Shrinks(s, r)
  {
    var r := s.(videos := Filter(s.videos, Not(VideoIdIs(id))));
    forall c | c in r.comments && HasVideo(s, c.video) ensures HasVideo(r, c.video) {
      var x :| x in s.videos && x.id == c.video;
      assert x in r.videos;
    }
    forall l | l in r.likes && l.video.Some? && HasVideo(s, l.video.value) ensures HasVideo(r, l.video.value) {
      var x :| x in s.videos && x.id == l.video.value;
      assert x in r.videos;
    }
    r
  }

  /** `deleteVideoAndRelatedData`: the likes on the video, then each comment
      on it (read once) with its likes, then the video record. Its media are
      destroyed as in the public deletion. Playlists and watch histories are
      not touched. */
  function DeleteVideoAndRelatedData(s: Store, v: Video): (r: (Store, seq<Destroy>))
    ensures r.0 == s.(likes := r.0.likes, comments := r.0.comments, videos := r.0.videos)
    ensures r.1 == Videos.MediaRequests(v)
    ensures forall x :: x in r.0.videos <==> x in s.videos && x.id != v.id
    ensures forall x :: x in r.0.comments ==> x.video != v.id
    ensures forall l :: l in r.0.likes ==> l.video != Some(v.id)
    ensures Shrinks(s, r.0)
  {
    var t := LikesAfterVideo(s, v);
    var cs := CommentsOnVideo(t, v);
    var u := DeleteComments(t, cs);
    assert Shrinks(s, t);
    ShrinksTrans(s, t, u);
    assert forall x :: x in u.comments ==> x.video != v.id;
    var w := DropVideo(u, v.id);
    ShrinksTrans(s, u, w);
    (w, Videos.MediaRequests(v))
  }

  /** What the video helper deletes from the comments, exactly: those
      sharing an id with a comment on the video. */
  lemma DeleteVideoComments(s: Store, v: Video)
    ensures forall x :: x in DeleteVideoAndRelatedData(s, v).0.comments <==> x in s.comments && !CommentIdOnVideo(s, x.id, v.id)
  {
    var t := LikesAfterVideo(s, v);
    assert t.comments == s.comments;
    var cs := CommentsOnVideo(t, v);
    var u := DeleteComments(t, cs);
    assert DeleteVideoAndRelatedData(s, v).0.comments == u.comments;
    forall id ensures id in CommentIds(cs) <==> CommentIdOnVideo(s, id, v.id) {
      assert CommentIdOnVideo(t, id, v.id) <==> CommentIdOnVideo(s, id, v.id);
    }
  }

  /** And from the likes: those on the video, and those on an id of a comment
      on the video. */
  lemma DeleteVideoLikes(s: Store, v: Video)
    ensures forall l :: l in DeleteVideoAndRelatedData(s, v).0.likes <==>
      l in s.likes && l.video != Some(v.id) && !(l.comment.Some? && CommentIdOnVideo(s, l.comment.value, v.id))
  {
    var t := LikesAfterVideo(s, v);
    assert t.comments == s.comments;
    var cs := CommentsOnVideo(t, v);
    var u := DeleteComments(t, cs);
    assert DeleteVideoAndRelatedData(s, v).0.likes == u.likes;
    forall id ensures id in CommentIds(cs) <==> CommentIdOnVideo(s, id, v.id) {
      assert CommentIdOnVideo(t, id, v.id) <==> CommentIdOnVideo(s, id, v.id);
    }
    assert forall l :: l in t.likes <==> l in s.likes && l.video != Some(v.id);
  }

  /** The video helper applied to each video of a list in turn, collecting
      the destroy requests. */
  function DeleteVideos(s: Store, vs: seq<Video>): (r: (Store, seq<Destroy>))
    decreases |vs|
    ensures r.0 == s.(likes := r.0.likes, comments := r.0.comments, videos := r.0.videos)
    ensures forall x :: x in r.0.videos <==> x in s.videos && x.id !in VideoIds(vs)
    ensures forall x :: x in r.0.comments ==> x.video !in VideoIds(vs)
    ensures forall l :: l in r.0.likes ==> !(l.video.Some? && l.video.value in VideoIds(vs))
    ensures forall v, d :: v in vs && d in Videos.MediaRequests(v) ==> d in r.1
    ensures Shrinks(s, r.0)
  {
    if |vs| == 0 then (s, [])
    else
      var first := DeleteVideoAndRelatedData(s, vs[0]);
      var rest := DeleteVideos(first.0, vs[1..]);
      VideoIdsCons(vs);
      ShrinksTrans(s, first.0, rest.0);
      assert forall v :: v in vs ==> v == vs[0] || v in vs[1..];
      (rest.0, first.1 + rest.1)
  }

  function ListedIn(p: Playlist): Video -> bool { (v: Video) => v.id in p.videos }

  /** `deletePlaylistAndRelatedData`: every existing video the playlist
      lists, whoever owns it, goes through the video helper; then the
      playlist record goes. */
  function DeletePlaylistAndRelatedData(s: Store, p: Playlist): (r: (Store, seq<Destroy>))
    ensures r.0 == s.(likes := r.0.likes, comments := r.0.comments, videos := r.0.videos, playlists := r.0.playlists)
    ensures forall x :: x in r.0.playlists <==> x in s.playlists && x.id != p.id
    ensures forall x :: x in r.0.videos <==> x in s.videos && x.id !in p.videos
    ensures forall v, d :: v in s.videos && v.id in p.videos && d in Videos.MediaRequests(v) ==> d in r.1
    ensures Shrinks(s, r.0)
  {
    var listed := Filter(s.videos, ListedIn(p));
    var (u, d) := DeleteVideos(s, listed);
    assert forall id :: id in VideoIds(listed) <==> id in p.videos && HasVideo(s, id);
    var w := u.(playlists := Filter(u.playlists, Not(PlaylistIdIs(p.id))));
    assert Shrinks(u, w);
    ShrinksTrans(s, u, w);
    (w, d)
  }

  /** Some playlist of `ps` lists `id`. */
  predicate ListedInAny(ps: seq<Playlist>, id: Id)
    decreases |ps|
  {
    |ps| > 0 && (id in ps[0].videos || ListedInAny(ps[1..], id))
  }

  /** Some playlist of `ps` has id `id`. */
  predicate PlaylistAmong(ps: seq<Playlist>, id: Id)
    decreases |ps|
  {
    |ps| > 0 && (ps[0].id == id || PlaylistAmong(ps[1..], id))
  }

  /** The playlist helper applied to each playlist of a list in turn. */
  function DeletePlaylists(s: Store, ps: seq<Playlist>): (r: (Store, seq<Destroy>))
    decreases |ps|
    ensures r.0 == s.(likes := r.0.likes, comments := r.0.comments, videos := r.0.videos, playlists := r.0.playlists)
    ensures forall x :: x in r.0.playlists <==> x in s.playlists && !PlaylistAmong(ps, x.id)
    ensures forall x :: x in r.0.videos <==> x in s.videos && !ListedInAny(ps, x.id)
    ensures Shrinks(s, r.0)
  {
    if |ps| == 0 then (s, [])
    else
      var first := DeletePlaylistAndRelatedData(s, ps[0]);
      var rest := DeletePlaylists(first.0, ps[1..]);
      ShrinksTrans(s, first.0, rest.0);
      (rest.0, first.1 + rest.1)
  }

  /** What the recursive predicates mean. */
  lemma {:induction false} ListedInAnyMeans(ps: seq<Playlist>, id: Id)
    ensures ListedInAny(ps, id) <==> exists q :: q in ps && id in q.videos
    decreases |ps|
  {
    if |ps| > 0 {
      ListedInAnyMeans(ps[1..], id);
      assert forall q :: q in ps <==> q == ps[0] || q in ps[1..];
    }
  }

  lemma {:induction false} PlaylistAmongMeans(ps: seq<Playlist>, id: Id)
    ensures PlaylistAmong(ps, id) <==> exists q :: q in ps && q.id == id
    decreases |ps|
  {
    if |ps| > 0 {
      PlaylistAmongMeans(ps[1..], id);
      assert forall q :: q in ps <==> q == ps[0] || q in ps[1..];
    }
  }

  // What the video and playlist helpers leave alone. `gone` holds of the
  // ids of the videos a helper deletes.

  function InIds(ids: seq<Id>): Id -> bool { (id: Id) => id in ids }
  function ListedBy(ps: seq<Playlist>): Id -> bool { (id: Id) => ListedInAny(ps, id) }

  /** A comment of `s` none of whose namesakes is on a deleted video. */
  ghost predicate CommentSpared(s: Store, x: Comment, gone: Id -> bool) {
    x in s.comments && forall y :: y in s.comments && y.id == x.id ==> !gone(y.video)
  }

  /** A like of `s` neither on a deleted video nor on the id of a comment on
      one. */
  ghost predicate LikeSpared(s: Store, l: Like, gone: Id -> bool) {
    && l in s.likes
    && !(l.video.Some? && gone(l.video.value))
    && (l.comment.Some? ==> forall y :: y in s.comments && y.id == l.comment.value ==> !gone(y.video))
  }

  /** Sparing survives fewer comments and fewer deleted ids. */
  lemma SparedNarrow(s: Store, t: Store, gone: Id -> bool, fewer: Id -> bool)
    requires forall y :: y in t.comments ==> y in s.comments
    requires forall id :: fewer(id) ==> gone(id)
    ensures forall x :: CommentSpared(s, x, gone) && x in t.comments ==> CommentSpared(t, x, fewer)
    ensures forall l :: LikeSpared(s, l, gone) && l in t.likes ==> LikeSpared(t, l, fewer)
  {
  }

  /** A comment or like spared from a set of deleted ids that holds `v`'s
      is not tied to `v`. */
  lemma SparedNotOnVideo(s: Store, v: Video, gone: Id -> bool)
    requires gone(v.id)
    ensures forall x :: CommentSpared(s, x, gone) ==> !CommentIdOnVideo(s, x.id, v.id)
    ensures forall l :: LikeSpared(s, l, gone) ==> l.video != Some(v.id) && !(l.comment.Some? && CommentIdOnVideo(s, l.comment.value, v.id))
  {
  }

  /** One run of the video helper keeps what it spares. */
  lemma DeleteVideoSpares(s: Store, v: Video, gone: Id -> bool)
    requires gone(v.id)
    ensures forall x :: CommentSpared(s, x, gone) ==> x in DeleteVideoAndRelatedData(s, v).0.comments
    ensures forall l :: LikeSpared(s, l, gone) ==> l in DeleteVideoAndRelatedData(s, v).0.likes
  {
    SparedNotOnVideo(s, v, gone);
    DeleteVideoComments(s, v);
    DeleteVideoLikes(s, v);
  }

  /** The video helper, run over `vs`, keeps every comment and like it spares. */
  lemma {:induction false} DeleteVideosSpares(s: Store, vs: seq<Video>)
    ensures forall x :: CommentSpared(s, x, InIds(VideoIds(vs))) ==> x in DeleteVideos(s, vs).0.comments
    ensures forall l :: LikeSpared(s, l, InIds(VideoIds(vs))) ==> l in DeleteVideos(s, vs).0.likes
    decreases |vs|
  {
    if |vs| > 0 {
      var first := DeleteVideoAndRelatedData(s, vs[0]).0;
      VideoIdsCons(vs);
      DeleteVideoSpares(s, vs[0], InIds(VideoIds(vs)));
      SparedNarrow(s, first, InIds(VideoIds(vs)), InIds(VideoIds(vs[1..])));
      DeleteVideosSpares(first, vs[1..]);
      assert DeleteVideos(s, vs).0 == DeleteVideos(first, vs[1..]).0;
    }
  }

  /** The playlist helper keeps every comment and like that no video the
      playlist lists takes with it. */
  lemma DeletePlaylistSpares(s: Store, p: Playlist)
    ensures forall x :: CommentSpared(s, x, InIds(p.videos)) ==> x in DeletePlaylistAndRelatedData(s, p).0.comments
    ensures forall l :: LikeSpared(s, l, InIds(p.videos)) ==> l in DeletePlaylistAndRelatedData(s, p).0.likes
  {
    var listed := Filter(s.videos, ListedIn(p));
    DeleteVideosSpares(s, listed);
    SparedNarrow(s, s, InIds(p.videos), InIds(VideoIds(listed)));
  }

  /** The playlist helper, run over `ps`, keeps every comment and like that
      no video listed in one of them takes with it. */
  lemma {:induction false} DeletePlaylistsSpares(s: Store, ps: seq<Playlist>)
    ensures forall x :: CommentSpared(s, x, ListedBy(ps)) ==> x in DeletePlaylists(s, ps).0.comments
    ensures forall l :: LikeSpared(s, l, ListedBy(ps)) ==> l in DeletePlaylists(s, ps).0.likes
    decreases |ps|
  {
    if |ps| > 0 {
      var first := DeletePlaylistAndRelatedData(s, ps[0]).0;
      DeletePlaylistsSpares(first, ps[1..]);
      DeletePlaylistSpares(s, ps[0]);
      SparedNarrow(s, s, ListedBy(ps), InIds(ps[0].videos));
      SparedNarrow(s, first, ListedBy(ps), ListedBy(ps[1..]));
    }
  }

  /** `{ tweet: { $in: ids } }`. */
  function LikeOnTweetIn(ids: seq<Id>): Like -> bool {
    (l: Like) => l.tweet.Some? && l.tweet.value in ids
  }

  /** The first step of `removeUser`: the likes on the user's tweets, then
      the tweets. */
  function RemoveTweets(s: Store, me: Id): (r: Store)
    ensures r == s.(likes := r.likes, tweets := r.tweets)
    ensures forall x :: x in r.tweets <==> x in s.tweets && x.owner != me
    ensures forall l :: l in r.likes <==> l in s.likes && !(l.tweet.Some? && exists x :: x in s.tweets && x.owner == me && x.id == l.tweet.value)
    ensures Shrinks(s, r)
  {
    var ids := TweetIds(Filter(s.tweets, TweetOwnedBy(me)));
    s.(likes := Filter(s.likes, Not(LikeOnTweetIn(ids))), tweets := Filter(s.tweets, Not(TweetOwnedBy(me))))
  }

  /** `Like.deleteMany({ likedBy: me })`. */
  function RemoveLikesBy(s: Store, me: Id): (r: Store)
    ensures r == s.(likes := r.likes)
    ensures forall l :: l in r.likes <==> l in s.likes && l.likedBy != me
    ensures Shrinks(s, r)
  {
    s.(likes := Filter(s.likes, Not(LikeBy(me))))
  }

  /** Deleting subscriptions by id, one after another. */
  function IdNotIn(ids: seq<Id>): Subscription -> bool { (x: Subscription) => x.id !in ids }

  /** `cleanupSubscriptions`: the user's own subscriptions, read once and
      deleted by id, then likewise the subscriptions to the user's channel. */
  function CleanupSubscriptions(s: Store, me: Id): (r: Store)
    ensures r == s.(subscriptions := r.subscriptions)
    ensures forall x :: x in r.subscriptions ==> x in s.subscriptions && x.subscriber != me && x.channel != me
    ensures forall x :: x in s.subscriptions && (forall y :: y in s.subscriptions && y.id == x.id ==> y.subscriber != me && y.channel != me) ==>
      x in r.subscriptions
    ensures Shrinks(s, r)
  {
    var mine := SubscriptionIds(Filter(s.subscriptions, SubscriptionBySubscriber(me)));
    var t := Filter(s.subscriptions, IdNotIn(mine));
    var toMe := SubscriptionIds(Filter(t, SubscriptionToChannel(me)));
    s.(subscriptions := Filter(t, IdNotIn(toMe)))
  }

  // The steps of `removeUser` after its check, one function per step.

  function MyVideos(s: Store, me: Id): seq<Video> { Filter(s.videos, VideoOwnedBy(me)) }
  function MyPlaylists(s: Store, me: Id): seq<Playlist> { Filter(s.playlists, PlaylistOwnedBy(me)) }
  function MyComments(s: Store, me: Id): seq<Comment> { Filter(s.comments, CommentOwnedBy(me)) }

  /** A video id the removal of `me` leaves alone: no video of `me`'s has
      it, and no playlist of `me`'s lists it. */
  ghost predicate VideoIdKept(s: Store, me: Id, id: Id) {
    && (forall w :: w in s.videos && w.id == id ==> w.owner != me)
    && !ListedInAny(MyPlaylists(s, me), id)
  }

  /** A comment id the removal of `me` leaves alone: every comment with it
      is another user's, on a video id the removal leaves alone. */
  ghost predicate CommentIdKept(s: Store, me: Id, id: Id) {
    forall y :: y in s.comments && y.id == id ==> y.owner != me && VideoIdKept(s, me, y.video)
  }

  function AfterTweets(s: Store, me: Id): Store { RemoveTweets(s, me) }

  function AfterVideos(s: Store, me: Id): (r: (Store, seq<Destroy>))
  {
    var s1 := AfterTweets(s, me);
    DeleteVideos(s1, MyVideos(s1, me))
  }

  function AfterPlaylists(s: Store, me: Id): (r: (Store, seq<Destroy>))
  {
    var s2 := AfterVideos(s, me).0;
    DeletePlaylists(s2, MyPlaylists(s2, me))
  }

  function AfterComments(s: Store, me: Id): Store {
    var s3 := AfterPlaylists(s, me).0;
    DeleteComments(s3, MyComments(s3, me))
  }

  function AfterLikes(s: Store, me: Id): Store { RemoveLikesBy(AfterComments(s, me), me) }

  function AfterSubscriptions(s: Store, me: Id): Store { CleanupSubscriptions(AfterLikes(s, me), me) }

  /** `findByIdAndDelete` on the user. */
  function RemoveUserRecord(s: Store, me: Id): (r: Store)
    ensures r == s.(users := r.users)
    ensures forall x :: x in r.users <==> x in s.users && x.id != me
    ensures Shrinks(s, r)
  {
    s.(users := Filter(s.users, Not(UserIdIs(me))))
  }

  /** The destroy requests for the avatar and the cover image, as images. */
  function ProfileMedia(u: User): (r: seq<Destroy>)
    ensures u.avatar != "" ==> Destroy(PublicId(u.avatar), "image") in r
    ensures u.coverImage != "" ==> Destroy(PublicId(u.coverImage), "image") in r
    ensures u.avatar == "" && u.coverImage == "" ==> r == []
    ensures forall d :: d in r ==> d == Destroy(PublicId(u.avatar), "image") || d == Destroy(PublicId(u.coverImage), "image")
  {
    var avatar := DeleteFile(Some(u.avatar), false);
    var cover := DeleteFile(Some(u.coverImage), false);
    assert avatar.Some? ==> avatar.value == Destroy(PublicId(u.avatar), "image");
    assert cover.Some? ==> cover.value == Destroy(PublicId(u.coverImage), "image");
    var r := Requests([avatar, cover]);
    assert |r| > 0 ==> r[0] in r;
    r
  }

  /** The steps of `removeUser` after its check, for the user record `u`:
      the tweets, the user's videos, the user's playlists, the user's
      comments, the user's likes, the subscriptions, and last the user. The
      avatar and cover image are destroyed after the media of every deleted
      video. */
  function Removal(s: Store, u: User): (Store, seq<Destroy>) {
    (RemoveUserRecord(AfterSubscriptions(s, u.id), u.id),
     AfterVideos(s, u.id).1 + AfterPlaylists(s, u.id).1 + ProfileMedia(u))
  }

  /** `removeUser`: an absent user is a 404 and nothing changes; otherwise
      the removal, answering the destroy requests for the media. */
  function RemoveUser(s: Store, me: Id): (r: Reply<seq<Destroy>>)
    ensures FindUser(s, me).None? <==> r == Reply(Err(NotFound), s)
    ensures r.result.Ok? ==> r.store == Removal(s, FindUser(s, me).value).0 && r.result.value == Removal(s, FindUser(s, me).value).1
  {
    match FindUser(s, me)
    case None => Reply(Err(NotFound), s)
    case Some(u) =>
      var (t, d) := Removal(s, u);
      Reply(Ok(d), t)
  }

  /** The answer holds the media of every video of the user's and the
      profile images. */
  lemma RemovalMedia(s: Store, u: User)
    ensures forall v, d :: v in s.videos && v.owner == u.id && d in Videos.MediaRequests(v) ==> d in Removal(s, u).1
    ensures forall d :: d in ProfileMedia(u) ==> d in Removal(s, u).1
  {
    var s1 := AfterTweets(s, u.id);
    assert s1.videos == s.videos;
    assert forall v :: v in s.videos && v.owner == u.id ==> v in MyVideos(s1, u.id);
  }

  // Everything left at the end was already there after each earlier step.

  lemma ShrinksFromLikes(s: Store, u: User)
    ensures Shrinks(AfterLikes(s, u.id), Removal(s, u).0)
  {
    ShrinksTrans(AfterLikes(s, u.id), AfterSubscriptions(s, u.id), Removal(s, u).0);
  }

  lemma ShrinksFromComments(s: Store, u: User)
    ensures Shrinks(AfterComments(s, u.id), Removal(s, u).0)
  {
    ShrinksFromLikes(s, u);
    ShrinksTrans(AfterComments(s, u.id), AfterLikes(s, u.id), Removal(s, u).0);
  }

  lemma ShrinksFromPlaylists(s: Store, u: User)
    ensures Shrinks(AfterPlaylists(s, u.id).0, Removal(s, u).0)
  {
    ShrinksFromComments(s, u);
    ShrinksTrans(AfterPlaylists(s, u.id).0, AfterComments(s, u.id), Removal(s, u).0);
  }

  lemma ShrinksFromVideos(s: Store, u: User)
    ensures Shrinks(AfterVideos(s, u.id).0, Removal(s, u).0)
  {
    ShrinksFromPlaylists(s, u);
    ShrinksTrans(AfterVideos(s, u.id).0, AfterPlaylists(s, u.id).0, Removal(s, u).0);
  }

  lemma ShrinksFromTweets(s: Store, u: User)
    ensures Shrinks(AfterTweets(s, u.id), Removal(s, u).0)
  {
    ShrinksFromVideos(s, u);
    ShrinksTrans(AfterTweets(s, u.id), AfterVideos(s, u.id).0, Removal(s, u).0);
  }

  /** The removal only ever deletes, and keeps likes and comments attached
      to the comments and videos they point at. */
  lemma RemovalShrinks(s: Store, u: User)
    ensures Shrinks(s, Removal(s, u).0)
  {
    ShrinksFromTweets(s, u);
    ShrinksTrans(s, AfterTweets(s, u.id), Removal(s, u).0);
  }

  /** The user's tweets are gone and every other tweet stays. */
  lemma RemovalTweets(s: Store, u: User)
    ensures forall x :: x in Removal(s, u).0.tweets <==> x in s.tweets && x.owner != u.id
  {
    var me := u.id;
    assert AfterVideos(s, me).0.tweets == AfterTweets(s, me).tweets;
    assert AfterPlaylists(s, me).0.tweets == AfterVideos(s, me).0.tweets;
    assert AfterComments(s, me).tweets == AfterPlaylists(s, me).0.tweets;
  }

  /** No like is left that the user gave, or that was on one of the user's
      tweets; every like the removal leaves alone is left. */
  lemma RemovalLikes(s: Store, u: User)
    ensures forall l :: l in Removal(s, u).0.likes ==> l.likedBy != u.id
    ensures forall l, x :: l in Removal(s, u).0.likes && x in s.tweets && x.owner == u.id ==> l.tweet != Some(x.id)
    ensures forall l :: l in s.likes && LikeKept(s, u.id, l) ==> l in Removal(s, u).0.likes
  {
    ShrinksFromLikes(s, u);
    ShrinksFromTweets(s, u);
    LikesKeptToComments(s, u.id);
    assert Removal(s, u).0.likes == AfterLikes(s, u.id).likes;
  }

  /** The steps up to the comment step keep every like the removal leaves
      alone. */
  lemma LikesKeptToComments(s: Store, me: Id)
    ensures forall l :: l in s.likes && LikeKept(s, me, l) ==> l in AfterComments(s, me).likes
  {
    forall l | l in s.likes && LikeKept(s, me, l) ensures l in AfterComments(s, me).likes {
      LikeKeptToComments(s, me, l);
    }
  }

  /** One like the removal keeps survives its first four stages. */
  lemma LikeKeptToComments(s: Store, me: Id, l: Like)
    requires l in s.likes && LikeKept(s, me, l)
    ensures l in AfterComments(s, me).likes
  {
    var s1 := AfterTweets(s, me);
    var s2 := AfterVideos(s, me).0;
    var s3 := AfterPlaylists(s, me).0;
    EarlyStages(s, me);
    DeleteVideosSpares(s1, MyVideos(s1, me));
    DeletePlaylistsSpares(s2, MyPlaylists(s2, me));
    if l.video.Some? {
      NotMyVideoId(s, me, l.video.value);
    }
    forall y | y in s.comments && l.comment.Some? && y.id == l.comment.value ensures y.video !in VideoIds(MyVideos(s1, me)) {
      NotMyVideoId(s, me, y.video);
    }
    assert LikeSpared(s1, l, InIds(VideoIds(MyVideos(s1, me))));
    assert LikeSpared(s2, l, ListedBy(MyPlaylists(s2, me)));
    assert !(l.comment.Some? && l.comment.value in CommentIds(MyComments(s3, me)));
  }


  /** The user's playlists are gone (with every record sharing an id with
      one) and every other playlist stays, its list of videos untouched. */
  lemma RemovalPlaylists(s: Store, u: User)
    ensures forall x :: x in Removal(s, u).0.playlists <==> x in s.playlists && !PlaylistAmong(MyPlaylists(s, u.id), x.id)
  {
    var me := u.id;
    assert AfterVideos(s, me).0.playlists == s.playlists;
    assert AfterComments(s, me).playlists == AfterPlaylists(s, me).0.playlists;
  }

  /** No video of the user's is left, nor any video listed in one of the
      user's playlists, whoever owns it. */
  lemma RemovalVideos(s: Store, u: User)
    ensures forall v :: v in Removal(s, u).0.videos ==> v.owner != u.id
    ensures forall v :: v in Removal(s, u).0.videos ==> !ListedInAny(MyPlaylists(s, u.id), v.id)
    ensures forall v :: v in Removal(s, u).0.videos <==> v in s.videos && VideoIdKept(s, u.id, v.id)
  {
    RemovalVideosExactly(s, u);
    var me := u.id;
    var s1 := AfterTweets(s, me);
    var s2 := AfterVideos(s, me).0;
    var s3 := AfterPlaylists(s, me).0;
    ShrinksFromVideos(s, u);
    ShrinksFromPlaylists(s, u);
    assert s1.videos == s.videos && s2.playlists == s.playlists;
    assert forall v :: v in s1.videos && v.owner == me ==> v.id in VideoIds(MyVideos(s1, me));
  }

  /** The steps after the playlists leave the videos alone. */
  lemma VideosAfterPlaylists(s: Store, u: User)
    ensures Removal(s, u).0.videos == AfterPlaylists(s, u.id).0.videos
  {
    var me := u.id;
    assert AfterComments(s, me).videos == AfterPlaylists(s, me).0.videos;
    assert AfterSubscriptions(s, me).videos == AfterLikes(s, me).videos;
  }

  /** The video step deletes exactly the videos sharing an id with one of the
      user's. */
  lemma VideoStep(s: Store, me: Id)
    ensures forall v :: v in AfterVideos(s, me).0.videos <==> v in s.videos && forall w :: w in s.videos && w.id == v.id ==> w.owner != me
  {
    var s1 := AfterTweets(s, me);
    assert s1.videos == s.videos;
    forall v: Video ensures v.id in VideoIds(MyVideos(s1, me)) <==> exists w :: w in s.videos && w.id == v.id && w.owner == me {
      if exists w :: w in s.videos && w.id == v.id && w.owner == me {
        var w :| w in s.videos && w.id == v.id && w.owner == me;
        assert w in MyVideos(s1, me);
      }
    }
  }

  /** Exactly the videos with an id the removal leaves alone are left. */
  lemma RemovalVideosExactly(s: Store, u: User)
    ensures forall v :: v in Removal(s, u).0.videos <==> v in s.videos && VideoIdKept(s, u.id, v.id)
  {
    var me := u.id;
    var s2 := AfterVideos(s, me).0;
    assert AfterTweets(s, me).playlists == s.playlists && s2.playlists == s.playlists;
    assert MyPlaylists(s2, me) == MyPlaylists(s, me);
    VideosAfterPlaylists(s, u);
    VideoStep(s, me);
  }

  /** An id no video of the user's has is not among those the video step
      deletes. */
  lemma NotMyVideoId(s: Store, me: Id, id: Id)
    requires forall w :: w in s.videos && w.id == id ==> w.owner != me
    ensures id !in VideoIds(MyVideos(AfterTweets(s, me), me))
  {
    assert AfterTweets(s, me).videos == s.videos;
  }

  /** The steps before the comment step only delete comments, and leave the
      user's playlists as they were. */
  lemma EarlyStages(s: Store, me: Id)
    ensures AfterTweets(s, me).comments == s.comments
    ensures MyPlaylists(AfterVideos(s, me).0, me) == MyPlaylists(s, me)
    ensures forall y :: y in AfterVideos(s, me).0.comments ==> y in s.comments
    ensures forall y :: y in AfterPlaylists(s, me).0.comments ==> y in s.comments
  {
    var s1 := AfterTweets(s, me);
    var s2 := AfterVideos(s, me).0;
    assert s1.playlists == s.playlists && s2.playlists == s.playlists;
    assert Shrinks(s1, s2);
    assert Shrinks(s2, AfterPlaylists(s, me).0);
  }

  /** A like the removal leaves alone: another user's, not on a tweet of the
      user's, and on a video id and a comment id the removal leaves alone. */
  ghost predicate LikeKept(s: Store, me: Id, l: Like) {
    && l.likedBy != me
    && !(l.tweet.Some? && exists x :: x in s.tweets && x.owner == me && x.id == l.tweet.value)
    && (l.video.Some? ==> VideoIdKept(s, me, l.video.value))
    && (l.comment.Some? ==> CommentIdKept(s, me, l.comment.value))
  }

  /** No comment of the user's is left, and no comment or like is left on a
      video of the user's; every comment whose id the removal leaves alone is
      left. */
  lemma RemovalComments(s: Store, u: User)
    ensures forall c :: c in Removal(s, u).0.comments ==> c.owner != u.id
    ensures forall c, v :: c in Removal(s, u).0.comments && v in s.videos && v.owner == u.id ==> c.video != v.id
    ensures forall l, v :: l in Removal(s, u).0.likes && v in s.videos && v.owner == u.id ==> l.video != Some(v.id)
    ensures forall c :: c in s.comments && CommentIdKept(s, u.id, c.id) ==> c in Removal(s, u).0.comments
  {
    var me := u.id;
    var s1 := AfterTweets(s, me);
    var s3 := AfterPlaylists(s, me).0;
    ShrinksFromVideos(s, u);
    ShrinksFromComments(s, u);
    assert s1.videos == s.videos;
    assert forall c :: c in s3.comments && c.owner == me ==> c.id in CommentIds(MyComments(s3, me));
    forall v | v in s.videos && v.owner == me ensures v.id in VideoIds(MyVideos(s1, me)) {
      assert v in MyVideos(s1, me);
    }
    var s2 := AfterVideos(s, me).0;
    EarlyStages(s, me);
    DeleteVideosSpares(s1, MyVideos(s1, me));
    DeletePlaylistsSpares(s2, MyPlaylists(s2, me));
    assert Removal(s, u).0.comments == AfterComments(s, me).comments;
    forall c | c in s.comments && CommentIdKept(s, me, c.id) ensures c in AfterComments(s, me).comments {
      forall y | y in s.comments && y.id == c.id ensures y.video !in VideoIds(MyVideos(s1, me)) {
        NotMyVideoId(s, me, y.video);
      }
      assert CommentSpared(s1, c, InIds(VideoIds(MyVideos(s1, me))));
      assert CommentSpared(s2, c, ListedBy(MyPlaylists(s2, me)));
      assert c.id !in CommentIds(MyComments(s3, me));
    }
  }

  /** No like is left on a comment of the user's: the comment is gone, and
      a comment only ever went together with its likes. */
  lemma RemovalCommentLikes(s: Store, u: User)
    ensures forall l, c :: l in Removal(s, u).0.likes && c in s.comments && c.owner == u.id ==> l.comment != Some(c.id)
  {
    RemovalShrinks(s, u);
    RemovalComments(s, u);
  }

  /** The steps before the cleanup leave the subscriptions alone. */
  lemma SubscriptionsToCleanup(s: Store, me: Id)
    ensures AfterLikes(s, me).subscriptions == s.subscriptions
    ensures AfterLikes(s, me).users == s.users
  {
    assert AfterVideos(s, me).0.subscriptions == s.subscriptions;
    assert AfterComments(s, me).subscriptions == AfterPlaylists(s, me).0.subscriptions;
  }

  /** No subscription is left in which the user is the subscriber or the
      channel, every subscription between two other users stays, and so do
      the other users. */
  lemma RemovalSubscriptionsAndUsers(s: Store, u: User)
    ensures forall x :: x in Removal(s, u).0.subscriptions ==> x.subscriber != u.id && x.channel != u.id
    ensures forall x :: x in s.subscriptions && (forall y :: y in s.subscriptions && y.id == x.id ==> y.subscriber != u.id && y.channel != u.id) ==>
      x in Removal(s, u).0.subscriptions
    ensures forall x :: x in Removal(s, u).0.users <==> x in s.users && x.id != u.id
  {
    var me := u.id;
    SubscriptionsToCleanup(s, me);
    var a := AfterLikes(s, me);
    var b := CleanupSubscriptions(a, me);
    assert Removal(s, u).0 == RemoveUserRecord(b, me);
    assert b.users == a.users;
  }

  /** Unlike the public video deletion (`Videos.CascadeKeepsPlaylistVideos`),
      removing a user leaves another user's playlist listing the user's
      video after the video is gone: the video helper never pulls the id. */
  lemma RemovalLeavesDanglingPlaylistEntry(s: Store, u: User, p: Playlist, v: Video)
    requires p in s.playlists && forall q :: q in s.playlists && q.id == p.id ==> q.owner != u.id
    requires v in s.videos && v.id in p.videos && forall w :: w in s.videos && w.id == v.id ==> w.owner == u.id
    ensures p in Removal(s, u).0.playlists && v.id in p.videos
    ensures !HasVideo(Removal(s, u).0, v.id)
  {
    PlaylistAmongMeans(MyPlaylists(s, u.id), p.id);
    RemovalPlaylists(s, u);
    RemovalVideos(s, u);
    RemovalShrinks(s, u);
  }

  /** Likewise another user's watch history keeps the id of a deleted video
      of the user's (compare `Videos.CascadeKeepsHistoryVideos`). */
  lemma RemovalLeavesDanglingHistoryEntry(s: Store, u: User, x: User, v: Video)
    requires x in s.users && x.id != u.id
    requires v in s.videos && v.id in x.watchHistory && forall w :: w in s.videos && w.id == v.id ==> w.owner == u.id
    ensures x in Removal(s, u).0.users && v.id in x.watchHistory
    ensures !HasVideo(Removal(s, u).0, v.id)
  {
    RemovalSubscriptionsAndUsers(s, u);
    RemovalVideos(s, u);
    RemovalShrinks(s, u);
  }
}

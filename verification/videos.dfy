/** The video controller: the public deletion cascade, the publish toggle,
    the view counters and watch history updates of a video fetch, and the
    sort and owner options of the video listing. */
module Videos {
  import opened Base
  import opened Seqs
  import opened Entities
  import opened Cloudinary

  /** `{ comment: { $in: ids } }`. */
  function LikeOnCommentIn(ids: seq<Id>): Like -> bool {
    (l: Like) => l.comment.Some? && l.comment.value in ids
  }

  function ListsVideo(v: Id): Playlist -> bool { (p: Playlist) => v in p.videos }
  function PullFromPlaylist(v: Id): Playlist -> Playlist { (p: Playlist) => p.(videos := Pull(p.videos, v)) }
  function HasWatched(v: Id): User -> bool { (u: User) => v in u.watchHistory }
  function PullFromHistory(v: Id): User -> User { (u: User) => u.(watchHistory := Pull(u.watchHistory, v)) }

  /** Whether a like targets video `v` or one of the comments on it in `s`. */
  ghost predicate LikeRelatedTo(s: Store, l: Like, v: Id) {
    l.video == Some(v) || (l.comment.Some? && exists c :: c in s.comments && c.video == v && c.id == l.comment.value)
  }

  /** An `updateMany({ field: v }, { $pull: { field: v } })` is a `$pull` on
      every element, since it changes nothing where `v` is absent. */
  lemma PullEverywhere<T>(s: seq<T>, has: T -> bool, pull: T -> T, r: seq<T>, field: T -> seq<Id>, v: Id)
    requires forall x :: has(x) <==> v in field(x)
    requires forall x :: field(pull(x)) == Pull(field(x), v)
    requires forall x :: v !in field(x) ==> x == pull(x)
    requires r == Update(s, has, pull)
    ensures forall i :: 0 <= i < |s| ==> r[i] == pull(s[i])
  {
  }

  /** Steps 1-6 of `deleteVideo` after its checks: likes on the video, likes
      on its comments, its comments, its id in every playlist and every watch
      history, and last the video record. */
  function Cascade(s: Store, v: Id): (r: Store)
    ensures r.videos == Filter(s.videos, Not(VideoIdIs(v)))
    ensures r.comments == Filter(s.comments, Not(CommentOnVideo(v)))
    ensures forall l :: l in r.likes ==> l in s.likes && !LikeRelatedTo(s, l, v)
    ensures forall l :: l in s.likes && !LikeRelatedTo(s, l, v) ==> l in r.likes
    ensures |r.playlists| == |s.playlists|
    ensures forall i :: 0 <= i < |s.playlists| ==> r.playlists[i] == s.playlists[i].(videos := Pull(s.playlists[i].videos, v))
    ensures |r.users| == |s.users|
    ensures forall i :: 0 <= i < |s.users| ==> r.users[i] == s.users[i].(watchHistory := Pull(s.users[i].watchHistory, v))
    ensures r.tweets == s.tweets && r.subscriptions == s.subscriptions
  {
    var likes := CascadeLikes(s, v);
    var comments := Filter(s.comments, Not(CommentOnVideo(v)));
    var playlists := Update(s.playlists, ListsVideo(v), PullFromPlaylist(v));
    var users := Update(s.users, HasWatched(v), PullFromHistory(v));
    var videos := Filter(s.videos, Not(VideoIdIs(v)));
    assert forall p: Playlist :: v !in p.videos ==> p == PullFromPlaylist(v)(p) by {
      forall p: Playlist | v !in p.videos { PullAbsent(p.videos, v); }
    }
    assert forall u: User :: v !in u.watchHistory ==> u == PullFromHistory(v)(u) by {
      forall u: User | v !in u.watchHistory { PullAbsent(u.watchHistory, v); }
    }
    PullEverywhere(s.playlists, ListsVideo(v), PullFromPlaylist(v), playlists, (p: Playlist) => p.videos, v);
    PullEverywhere(s.users, HasWatched(v), PullFromHistory(v), users, (u: User) => u.watchHistory, v);
    s.(likes := likes, comments := comments, playlists := playlists, users := users, videos := videos)
  }

  /** Steps 1 and 2 of the cascade: the likes on the video, then the likes
      on the comments on it, gathered before those comments go. */
  function CascadeLikes(s: Store, v: Id): (r: seq<Like>)
    ensures forall l :: l in r ==> l in s.likes && !LikeRelatedTo(s, l, v)
    ensures forall l :: l in s.likes && !LikeRelatedTo(s, l, v) ==> l in r
  {
    var ids := CommentIds(Filter(s.comments, CommentOnVideo(v)));
    Filter(Filter(s.likes, Not(LikeOnVideo(v))), Not(LikeOnCommentIn(ids)))
  }

  /** The destroy requests for a video's media: its file as a video asset
      and its thumbnail as an image, each skipped when its URL is empty. */
  function MediaRequests(video: Video): (r: seq<Destroy>)
    ensures Destroy(PublicId(video.videoFile), "video") in r <==> video.videoFile != ""
    ensures Destroy(PublicId(video.thumbnail), "image") in r <==> video.thumbnail != ""
    ensures forall d :: d in r ==> d == Destroy(PublicId(video.videoFile), "video") || d == Destroy(PublicId(video.thumbnail), "image")
  {
    var file := DeleteFile(Some(video.videoFile), true);
    var thumb := DeleteFile(Some(video.thumbnail), false);
    assert file.Some? ==> file.value == Destroy(PublicId(video.videoFile), "video");
    assert thumb.Some? ==> thumb.value == Destroy(PublicId(video.thumbnail), "image");
    Requests([file, thumb])
  }

  /** `deleteVideo`: a blank or malformed id is a 400, an absent video a 404
      and a caller who does not own it a 403, each with the store unchanged.
      Otherwise the cascade runs on the cast id and the video file and
      thumbnail are destroyed. */
  function DeleteVideo(s: Store, me: Id, videoId: string): (r: Reply<seq<Destroy>>)
    ensures !ValidObjectId(videoId) ==> r == Reply(Err(BadRequest), s)
    ensures ValidObjectId(videoId) && FindVideo(s, Canon(videoId)).None? ==> r == Reply(Err(NotFound), s)
    ensures ValidObjectId(videoId) && FindVideo(s, Canon(videoId)).Some? && FindVideo(s, Canon(videoId)).value.owner != me ==>
      r == Reply(Err(Forbidden), s)
    ensures r.result.Ok? <==> ValidObjectId(videoId) && FindVideo(s, Canon(videoId)).Some? && FindVideo(s, Canon(videoId)).value.owner == me
    ensures r.result.Ok? ==> r.store == Cascade(s, Canon(videoId)) && r.result.value == MediaRequests(FindVideo(s, Canon(videoId)).value)
  {
    if IsBlank(videoId) || !ValidObjectId(videoId) then
      assert IsBlank(videoId) ==> !ValidObjectId(videoId) by {
        if IsBlank(videoId) { BlankIsNotValid(videoId); }
      }
      Reply(Err(BadRequest), s)
    else
      var id := Canon(videoId);
      match FindVideo(s, id)
      case None => Reply(Err(NotFound), s)
      case Some(video) =>
        if video.owner != me then Reply(Err(Forbidden), s)
        else Reply(Ok(MediaRequests(video)), Cascade(s, id))
  }

  /** After the cascade nothing refers to the video any more: no video has
      its id, no comment is on it, no like targets it or one of its comments,
      and no playlist or watch history lists it. */
  lemma CascadeLeavesNoReference(s: Store, v: Id)
    ensures var t := Cascade(s, v);
      && (forall x :: x in t.videos ==> x.id != v)
      && (forall c :: c in t.comments ==> c.video != v)
      && (forall l :: l in t.likes ==> l.video != Some(v))
      && (forall l, c :: l in t.likes && c in s.comments && c.video == v ==> l.comment != Some(c.id))
      && (forall p :: p in t.playlists ==> v !in p.videos)
      && (forall u :: u in t.users ==> v !in u.watchHistory)
  {
    var t := Cascade(s, v);
    forall p | p in t.playlists ensures v !in p.videos {
      var i :| 0 <= i < |t.playlists| && t.playlists[i] == p;
    }
    forall u | u in t.users ensures v !in u.watchHistory {
      var i :| 0 <= i < |t.users| && t.users[i] == u;
    }
  }

  /** A second deletion of the same id finds no video: it answers 404 and
      changes nothing (the code has no "already deleted" success path). */
  lemma DeleteVideoTwice(s: Store, me: Id, videoId: string)
    requires DeleteVideo(s, me, videoId).result.Ok?
    ensures var t := DeleteVideo(s, me, videoId).store;
      DeleteVideo(t, me, videoId) == Reply(Err(NotFound), t)
  {
    CascadeLeavesNoReference(s, Canon(videoId));
  }

  /** Every like left after the cascade still has its targets. */
  lemma {:induction false} CascadeKeepsLikeTargets(s: Store, v: Id)
    requires LikeTargetsExist(s)
    ensures LikeTargetsExist(Cascade(s, v))
  {
    var t := Cascade(s, v);
    forall l | l in t.likes && l.video.Some? ensures HasVideo(t, l.video.value) {
      var x :| x in s.videos && x.id == l.video.value;
      assert x.id != v;
      assert x in t.videos;
    }
    forall l | l in t.likes && l.comment.Some? ensures HasComment(t, l.comment.value) {
      var c :| c in s.comments && c.id == l.comment.value;
      assert !LikeRelatedTo(s, l, v);
      assert c.video != v;
      assert c in t.comments;
    }
    forall l | l in t.likes && l.tweet.Some? ensures HasTweet(t, l.tweet.value) {
      var x :| x in s.tweets && x.id == l.tweet.value;
      assert x in t.tweets;
    }
  }

  /** Every comment left after the cascade is on a video that is still there. */
  lemma {:induction false} CascadeKeepsCommentVideos(s: Store, v: Id)
    requires CommentVideosExist(s)
    ensures CommentVideosExist(Cascade(s, v))
  {
    var t := Cascade(s, v);
    forall c | c in t.comments ensures HasVideo(t, c.video) {
      var x :| x in s.videos && x.id == c.video;
      assert x in t.videos;
    }
  }

  /** Every playlist entry left after the cascade names a video that is
      still there. */
  lemma {:induction false} CascadeKeepsPlaylistVideos(s: Store, v: Id)
    requires PlaylistVideosExist(s)
    ensures PlaylistVideosExist(Cascade(s, v))
  {
    var t := Cascade(s, v);
    forall p, id | p in t.playlists && id in p.videos ensures HasVideo(t, id) {
      var i :| 0 <= i < |t.playlists| && t.playlists[i] == p;
      assert p.videos == Pull(s.playlists[i].videos, v);
      assert id in s.playlists[i].videos && id != v;
      assert s.playlists[i] in s.playlists;
      assert HasVideo(s, id);
      var x :| x in s.videos && x.id == id;
      assert x in t.videos;
    }
  }

  /** Every history entry left after the cascade names a video that is still
      there. */
  lemma {:induction false} CascadeKeepsHistoryVideos(s: Store, v: Id)
    requires HistoryVideosExist(s)
    ensures HistoryVideosExist(Cascade(s, v))
  {
    var t := Cascade(s, v);
    forall u, id | u in t.users && id in u.watchHistory ensures HasVideo(t, id) {
      var i :| 0 <= i < |t.users| && t.users[i] == u;
      assert u.watchHistory == Pull(s.users[i].watchHistory, v);
      assert id in s.users[i].watchHistory && id != v;
      assert s.users[i] in s.users;
      assert HasVideo(s, id);
      var x :| x in s.videos && x.id == id;
      assert x in t.videos;
    }
  }

  /** The cascade keeps a store free of dangling references to content. */
  lemma CascadeKeepsNoDangling(s: Store, v: Id)
    requires NoDanglingContent(s)
    ensures NoDanglingContent(Cascade(s, v))
  {
    CascadeKeepsLikeTargets(s, v);
    CascadeKeepsCommentVideos(s, v);
    CascadeKeepsPlaylistVideos(s, v);
    CascadeKeepsHistoryVideos(s, v);
  }

  function FlipPublished(): Video -> Video { (x: Video) => x.(isPublished := !x.isPublished) }

  /** The `save` of the toggled video: every record with the id has its
      `isPublished` negated; nothing else changes. */
  function Republished(s: Store, videoId: Id): (r: Store)
    ensures r == s.(videos := r.videos) && |r.videos| == |s.videos|
    ensures forall i :: 0 <= i < |s.videos| ==>
      r.videos[i] == if s.videos[i].id == videoId then s.videos[i].(isPublished := !s.videos[i].isPublished) else s.videos[i]
  {
    s.(videos := Update(s.videos, VideoIdIs(videoId), FlipPublished()))
  }

  /** Negating twice restores the store, and the record found by id after
      the first negation is the negated version of the one found before. */
  lemma RepublishedTwice(s: Store, videoId: Id)
    ensures Republished(Republished(s, videoId), videoId) == s
    ensures FindVideo(s, videoId).Some? ==>
      FindVideo(Republished(s, videoId), videoId) == Some(FlipPublished()(FindVideo(s, videoId).value))
    ensures FindVideo(s, videoId).None? ==> FindVideo(Republished(s, videoId), videoId).None?
  {
    var p := VideoIdIs(videoId);
    var f := FlipPublished();
    FirstOfUpdate(s.videos, p, f, p);
    UpdateTwice(s.videos, p, f);
  }

  /** `togglePublishStatus`: a blank or malformed id is a 400; an absent
      video and a caller who does not own it both get 403. Otherwise the
      video's `isPublished` is negated and the saved video is answered. */
  function TogglePublishStatus(s: Store, me: Id, videoId: string): (r: Reply<Video>)
    ensures !ValidObjectId(videoId) ==> r == Reply(Err(BadRequest), s)
    ensures ValidObjectId(videoId) && (FindVideo(s, Canon(videoId)).None? || FindVideo(s, Canon(videoId)).value.owner != me) ==>
      r == Reply(Err(Forbidden), s)
    ensures r.result.Ok? <==> ValidObjectId(videoId) && FindVideo(s, Canon(videoId)).Some? && FindVideo(s, Canon(videoId)).value.owner == me
    ensures r.result.Ok? ==> var before := FindVideo(s, Canon(videoId)).value;
      r.result.value == before.(isPublished := !before.isPublished)
    ensures r.result.Ok? ==> r.store == Republished(s, Canon(videoId))
  {
    if IsBlank(videoId) || !ValidObjectId(videoId) then
      assert IsBlank(videoId) ==> !ValidObjectId(videoId) by {
        if IsBlank(videoId) { BlankIsNotValid(videoId); }
      }
      Reply(Err(BadRequest), s)
    else
      var id := Canon(videoId);
      match FindVideo(s, id)
      case None => Reply(Err(Forbidden), s)
      case Some(video) =>
        if video.owner != me then Reply(Err(Forbidden), s)
        else Reply(Ok(video.(isPublished := !video.isPublished)), Republished(s, id))
  }

  /** Two toggles in a row give back the original store, and the second
      answers the video as it was at the start. */
  lemma TogglePublishTwice(s: Store, me: Id, videoId: string)
    requires TogglePublishStatus(s, me, videoId).result.Ok?
    ensures var t := TogglePublishStatus(s, me, videoId).store;
      TogglePublishStatus(t, me, videoId) == Reply(Ok(FindVideo(s, Canon(videoId)).value), s)
  {
    RepublishedTwice(s, Canon(videoId));
  }

  function BumpViews(): Video -> Video { (x: Video) => x.(views := x.views + 1) }

  /** What fetching a video does to the store: the id joins the caller's
      watch history if it is not there yet, and the video's views go up by
      one; nothing else changes. */
  function RecordView(s: Store, me: Id, videoId: Id): (t: Store)
    ensures t == s.(users := t.users, videos := t.videos)
    ensures |t.videos| == |s.videos| && forall i :: 0 <= i < |s.videos| ==>
      t.videos[i] == if s.videos[i].id == videoId then s.videos[i].(views := s.videos[i].views + 1) else s.videos[i]
    ensures |t.users| == |s.users| && forall i :: 0 <= i < |s.users| ==>
      t.users[i] == if s.users[i].id == me then s.users[i].(watchHistory := AddToSet(s.users[i].watchHistory, videoId)) else s.users[i]
  {
    var users := Update(s.users, UserIdIs(me), (u: User) => u.(watchHistory := AddToSet(u.watchHistory, videoId)));
    var videos := Update(s.videos, VideoIdIs(videoId), BumpViews());
    s.(users := users, videos := videos)
  }

  /** A fetched video with the counts of records that refer to it. */
  datatype VideoDetails = VideoDetails(video: Video, numberOfLikes: nat, numberOfComments: nat)

  /** `getVideoById`: a blank or malformed id is a 400 and an absent video a
      404. Otherwise the video (as read, before its view count goes up) with
      its like and comment counts; the id joins the caller's watch history
      if it is not there yet, and the video's views go up by one. */
  function GetVideoById(s: Store, me: Id, videoId: string): (r: Reply<VideoDetails>)
    ensures !ValidObjectId(videoId) ==> r == Reply(Err(BadRequest), s)
    ensures ValidObjectId(videoId) && FindVideo(s, Canon(videoId)).None? ==> r == Reply(Err(NotFound), s)
    ensures r.result.Ok? <==> ValidObjectId(videoId) && FindVideo(s, Canon(videoId)).Some?
    ensures r.result.Ok? ==>
      && r.result.value.video == FindVideo(s, Canon(videoId)).value
      && r.result.value.numberOfLikes == Count(s.likes, LikeOnVideo(Canon(videoId)))
      && r.result.value.numberOfComments == Count(s.comments, CommentOnVideo(Canon(videoId)))
    ensures r.result.Ok? ==> r.store == RecordView(s, me, Canon(videoId))
  {
    if IsBlank(videoId) || !ValidObjectId(videoId) then
      assert IsBlank(videoId) ==> !ValidObjectId(videoId) by {
        if IsBlank(videoId) { BlankIsNotValid(videoId); }
      }
      Reply(Err(BadRequest), s)
    else
      var id := Canon(videoId);
      var likes := Count(s.likes, LikeOnVideo(id));
      var comments := Count(s.comments, CommentOnVideo(id));
      match FindVideo(s, id)
      case None => Reply(Err(NotFound), s)
      case Some(video) => Reply(Ok(VideoDetails(video, likes, comments)), RecordView(s, me, id))
  }

  /** Watching the same video twice leaves the watch histories as watching
      it once did, while its view count has gone up by two. */
  lemma WatchTwice(s: Store, me: Id, videoId: string)
    requires GetVideoById(s, me, videoId).result.Ok?
    ensures var t := GetVideoById(s, me, videoId).store;
      && GetVideoById(t, me, videoId).result.Ok?
      && GetVideoById(t, me, videoId).store.users == t.users
      && forall i :: 0 <= i < |s.videos| && s.videos[i].id == Canon(videoId) ==>
           GetVideoById(t, me, videoId).store.videos[i].views == s.videos[i].views + 2
  {
    var t := RecordView(s, me, Canon(videoId));
    var video := FindVideo(s, Canon(videoId)).value;
    var j :| 0 <= j < |s.videos| && s.videos[j] == video;
    assert t.videos[j].id == Canon(videoId);
    assert FindVideo(t, Canon(videoId)).Some?;
    RecordViewTwice(s, me, Canon(videoId));
  }

  /** Recording a view twice adds to the watch histories only once. */
  lemma RecordViewTwice(s: Store, me: Id, videoId: Id)
    ensures var t := RecordView(s, me, videoId);
      && RecordView(t, me, videoId).users == t.users
      && forall i :: 0 <= i < |s.videos| && s.videos[i].id == videoId ==>
           RecordView(t, me, videoId).videos[i].views == s.videos[i].views + 2
  {
    var t := RecordView(s, me, videoId);
    var u := RecordView(t, me, videoId);
    forall i | 0 <= i < |t.users| ensures u.users[i] == t.users[i] {
      if t.users[i].id == me {
        AddToSetTwice(s.users[i].watchHistory, videoId);
      }
    }
  }

  /** A like on a video raises the like count a later fetch reports by one. */
  lemma NewLikeIsCounted(s: Store, me: Id, videoId: string, newId: Id)
    requires ValidObjectId(videoId) && FindVideo(s, Canon(videoId)).Some?
    requires forall l :: l in s.likes ==> !(l.video == Some(Canon(videoId)) && l.likedBy == me)
    ensures var t := s.(likes := s.likes + [Like(newId, Some(Canon(videoId)), None, None, me)]);
      GetVideoById(t, me, videoId).result.value.numberOfLikes == GetVideoById(s, me, videoId).result.value.numberOfLikes + 1
  {
    var l := Like(newId, Some(Canon(videoId)), None, None, me);
    FilterConcat(s.likes, [l], LikeOnVideo(Canon(videoId)));
    assert [l][1..] == [];
  }

  /** `updateVideoViews`: a blank or malformed id is a 400 and an absent
      video a 404, with the store unchanged; otherwise the views go up by one. */
  function UpdateVideoViews(s: Store, videoId: string): (r: Reply<()>)
    ensures !ValidObjectId(videoId) ==> r == Reply(Err(BadRequest), s)
    ensures ValidObjectId(videoId) && FindVideo(s, Canon(videoId)).None? ==> r == Reply(Err(NotFound), s)
    ensures r.result.Ok? <==> ValidObjectId(videoId) && FindVideo(s, Canon(videoId)).Some?
    ensures r.result.Ok? ==> r.store == s.(videos := r.store.videos) && |r.store.videos| == |s.videos|
    ensures r.result.Ok? ==> forall i :: 0 <= i < |s.videos| ==>
      && r.store.videos[i].views == (if s.videos[i].id == Canon(videoId) then s.videos[i].views + 1 else s.videos[i].views)
      && r.store.videos[i] == s.videos[i].(views := r.store.videos[i].views)
  {
    if IsBlank(videoId) || !ValidObjectId(videoId) then
      assert IsBlank(videoId) ==> !ValidObjectId(videoId) by {
        if IsBlank(videoId) { BlankIsNotValid(videoId); }
      }
      Reply(Err(BadRequest), s)
    else
      var id := Canon(videoId);
      if FindVideo(s, id).None? then Reply(Err(NotFound), s)
      else Reply(Ok(()), s.(videos := Update(s.videos, VideoIdIs(id), BumpViews())))
  }

  /** The sort of the listing: a field and a direction. */
  datatype SortSpec = SortSpec(field: string, descending: bool)

  /** The `sort` option: newest first when no field is given, otherwise the
      given field, descending exactly when the sort type is "desc". */
  function SortOptions(sortBy: Option<string>, sortType: Option<string>): (r: SortSpec)
    ensures sortBy.None? || sortBy.value == "" ==> r == SortSpec("createdAt", true)
    ensures sortBy.Some? && sortBy.value != "" ==> r.field == sortBy.value && (r.descending <==> sortType == Some("desc"))
  {
    match sortBy
    case None => SortSpec("createdAt", true)
    case Some(f) =>
      if f == "" then SortSpec("createdAt", true)
      else SortSpec(f, sortType == Some("desc"))
  }

  /** The value a video is sorted on. Fields other than the two numeric ones
      rank all videos alike. */
  function FieldValue(field: string, v: Video): int {
    if field == "createdAt" then v.createdAt
    else if field == "views" then v.views
    else 0
  }

  function SortRank(spec: SortSpec): Video -> int {
    (v: Video) => if spec.descending then -FieldValue(spec.field, v) else FieldValue(spec.field, v)
  }

  /** One entry of the listing: the video, the users who liked it (nothing
      where the liker is gone) and its owner. */
  datatype Listed = Listed(video: Video, likedBy: seq<Option<User>>, owner: Option<User>)

  function Likers(s: Store, v: Id): (r: seq<Option<User>>)
    ensures |r| == Count(s.likes, LikeOnVideo(v))
  {
    Map(Filter(s.likes, LikeOnVideo(v)), (l: Like) => FindUser(s, l.likedBy))
  }

  function Candidates(s: Store, me: Option<Id>): (r: seq<Video>)
    ensures me.None? ==> r == s.videos
    ensures me.Some? ==> r == Filter(s.videos, VideoOwnedBy(me.value))
  {
    match me
    case None => s.videos
    case Some(u) => Filter(s.videos, VideoOwnedBy(u))
  }

  /** The listing entries for `vs`, in the same order. */
  function Listing(s: Store, vs: seq<Video>): (r: seq<Listed>)
    ensures |r| == |vs|
    ensures forall i :: 0 <= i < |vs| ==> r[i].video == vs[i]
    ensures forall e :: e in r ==> e.video in vs && e.likedBy == Likers(s, e.video.id) && e.owner == FindUser(s, e.video.owner)
  {
    Map(vs, (v: Video) => Listed(v, Likers(s, v.id), FindUser(s, v.owner)))
  }

  /** The videos of a listing are the videos it was built from. */
  lemma ListingVideos(s: Store, vs: seq<Video>)
    ensures Map(Listing(s, vs), (e: Listed) => e.video) == vs
  {
  }

  /** A sequence ascending in the rank of a sort spec is ordered by the
      spec's field in the spec's direction. */
  lemma AscendingBySpec(spec: SortSpec, vs: seq<Video>)
    requires Ascending(vs, SortRank(spec))
    ensures forall i, j :: 0 <= i < j < |vs| ==>
      if spec.descending then FieldValue(spec.field, vs[i]) >= FieldValue(spec.field, vs[j])
      else FieldValue(spec.field, vs[i]) <= FieldValue(spec.field, vs[j])
  {
    forall i, j | 0 <= i < j < |vs|
      ensures if spec.descending then FieldValue(spec.field, vs[i]) >= FieldValue(spec.field, vs[j])
        else FieldValue(spec.field, vs[i]) <= FieldValue(spec.field, vs[j])
    {
      assert SortRank(spec)(vs[i]) <= SortRank(spec)(vs[j]);
    }
  }

  /** `getAllVideos`, as one page holding every match: the caller's videos
      when the caller is known, all videos otherwise, ordered by the sort
      options, each with its likers and owner. */
  function GetAllVideos(s: Store, me: Option<Id>, sortBy: Option<string>, sortType: Option<string>): (r: Result<seq<Listed>>)
    ensures r.Ok?
    ensures var spec := SortOptions(sortBy, sortType);
      forall i, j :: 0 <= i < j < |r.value| ==>
        if spec.descending then FieldValue(spec.field, r.value[i].video) >= FieldValue(spec.field, r.value[j].video)
        else FieldValue(spec.field, r.value[i].video) <= FieldValue(spec.field, r.value[j].video)
    ensures multiset(Map(r.value, (e: Listed) => e.video)) == multiset(Candidates(s, me))
    ensures me.Some? ==> forall e :: e in r.value ==> e.video.owner == me.value
    ensures forall e :: e in r.value ==> e.likedBy == Likers(s, e.video.id) && e.owner == FindUser(s, e.video.owner)
  {
    var spec := SortOptions(sortBy, sortType);
    var sorted := SortBy(Candidates(s, me), SortRank(spec));
    AscendingBySpec(spec, sorted);
    ListingVideos(s, sorted);
    assert forall v :: v in sorted ==> v in Candidates(s, me) by {
      forall v | v in sorted ensures v in Candidates(s, me) {
        assert v in multiset(sorted);
      }
    }
    Ok(Listing(s, sorted))
  }
}

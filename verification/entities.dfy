/** The documents of the seven collections and the store that holds them.
    Field names follow the ones the controllers read and write. */
module Entities {
  import opened Base
  import opened Seqs

  datatype User = User(
    id: Id,
    username: string,
    fullName: string,
    email: string,
    avatar: string,
    coverImage: string,
    watchHistory: seq<Id>)

  datatype Video = Video(
    id: Id,
    owner: Id,
    title: string,
    description: string,
    videoFile: string,
    thumbnail: string,
    views: nat,
    isPublished: bool,
    createdAt: int)

  datatype Comment = Comment(id: Id, content: string, video: Id, owner: Id, createdAt: int)

  datatype Tweet = Tweet(id: Id, content: string, owner: Id, createdAt: int)

  /** A like names its liker and one of three optional targets; nothing in
      the record itself forces exactly one target to be set. */
  datatype Like = Like(id: Id, video: Option<Id>, comment: Option<Id>, tweet: Option<Id>, likedBy: Id)

  datatype Playlist = Playlist(id: Id, name: string, description: string, owner: Id, videos: seq<Id>)

  datatype Subscription = Subscription(id: Id, subscriber: Id, channel: Id)

  /** Each collection in its natural (insertion) order. */
  datatype Store = Store(
    users: seq<User>,
    videos: seq<Video>,
    comments: seq<Comment>,
    tweets: seq<Tweet>,
    likes: seq<Like>,
    playlists: seq<Playlist>,
    subscriptions: seq<Subscription>)

  /** A handler's answer together with the store it leaves behind. */
  datatype Reply<+T> = Reply(result: Result<T>, store: Store)

  predicate ExactlyOneTarget(l: Like) {
    (if l.video.Some? then 1 else 0) + (if l.comment.Some? then 1 else 0) + (if l.tweet.Some? then 1 else 0) == 1
  }

  predicate AllSingleTarget(likes: seq<Like>) {
    forall l :: l in likes ==> ExactlyOneTarget(l)
  }

  // Predicates on records, as values, for the sequence operators.

  function UserIdIs(id: Id): User -> bool { (u: User) => u.id == id }
  function VideoIdIs(id: Id): Video -> bool { (v: Video) => v.id == id }
  function CommentIdIs(id: Id): Comment -> bool { (c: Comment) => c.id == id }
  function TweetIdIs(id: Id): Tweet -> bool { (t: Tweet) => t.id == id }
  function PlaylistIdIs(id: Id): Playlist -> bool { (p: Playlist) => p.id == id }
  function SubscriptionIdIs(id: Id): Subscription -> bool { (x: Subscription) => x.id == id }

  function VideoOwnedBy(owner: Id): Video -> bool { (v: Video) => v.owner == owner }
  function CommentOwnedBy(owner: Id): Comment -> bool { (c: Comment) => c.owner == owner }
  function TweetOwnedBy(owner: Id): Tweet -> bool { (t: Tweet) => t.owner == owner }
  function PlaylistOwnedBy(owner: Id): Playlist -> bool { (p: Playlist) => p.owner == owner }
  function CommentOnVideo(video: Id): Comment -> bool { (c: Comment) => c.video == video }

  function LikeOnVideo(video: Id): Like -> bool { (l: Like) => l.video == Some(video) }
  function LikeOnComment(comment: Id): Like -> bool { (l: Like) => l.comment == Some(comment) }
  function LikeOnTweet(tweet: Id): Like -> bool { (l: Like) => l.tweet == Some(tweet) }
  function LikeBy(user: Id): Like -> bool { (l: Like) => l.likedBy == user }

  function SubscriptionToChannel(channel: Id): Subscription -> bool { (x: Subscription) => x.channel == channel }
  function SubscriptionBySubscriber(subscriber: Id): Subscription -> bool { (x: Subscription) => x.subscriber == subscriber }

  // `findById`: the record with the given id, if there is one.

  function FindUser(s: Store, id: Id): (r: Option<User>)
    ensures r.Some? ==> r.value in s.users && r.value.id == id
    ensures r.None? <==> forall u :: u in s.users ==> u.id != id
  {
    First(s.users, UserIdIs(id))
  }

  function FindVideo(s: Store, id: Id): (r: Option<Video>)
    ensures r.Some? ==> r.value in s.videos && r.value.id == id
    ensures r.None? <==> forall v :: v in s.videos ==> v.id != id
  {
    First(s.videos, VideoIdIs(id))
  }

  function FindComment(s: Store, id: Id): (r: Option<Comment>)
    ensures r.Some? ==> r.value in s.comments && r.value.id == id
    ensures r.None? <==> forall c :: c in s.comments ==> c.id != id
  {
    First(s.comments, CommentIdIs(id))
  }

  function FindTweet(s: Store, id: Id): (r: Option<Tweet>)
    ensures r.Some? ==> r.value in s.tweets && r.value.id == id
    ensures r.None? <==> forall t :: t in s.tweets ==> t.id != id
  {
    First(s.tweets, TweetIdIs(id))
  }

  function FindPlaylist(s: Store, id: Id): (r: Option<Playlist>)
    ensures r.Some? ==> r.value in s.playlists && r.value.id == id
    ensures r.None? <==> forall p :: p in s.playlists ==> p.id != id
  {
    First(s.playlists, PlaylistIdIs(id))
  }

  /** The name shown for a liker: the user's full name; only used where
      every liker resolves. */
  function NameOf(s: Store, id: Id): (r: string)
    ensures FindUser(s, id).Some? ==> r == FindUser(s, id).value.fullName
  {
    match FindUser(s, id)
    case None => ""
    case Some(u) => u.fullName
  }

  /** The ids of the given comments, in order. */
  function CommentIds(cs: seq<Comment>): (r: seq<Id>)
    ensures |r| == |cs|
    ensures forall i :: 0 <= i < |cs| ==> r[i] == cs[i].id
    ensures forall x :: x in cs ==> x.id in r
    ensures forall k :: k in r ==> exists x :: x in cs && x.id == k
  {
    Map(cs, (c: Comment) => c.id)
  }

  function TweetIds(ts: seq<Tweet>): (r: seq<Id>)
    ensures |r| == |ts|
    ensures forall i :: 0 <= i < |ts| ==> r[i] == ts[i].id
    ensures forall x :: x in ts ==> x.id in r
    ensures forall k :: k in r ==> exists x :: x in ts && x.id == k
  {
    Map(ts, (t: Tweet) => t.id)
  }

  function VideoIds(vs: seq<Video>): (r: seq<Id>)
    ensures |r| == |vs|
    ensures forall i :: 0 <= i < |vs| ==> r[i] == vs[i].id
    ensures forall x :: x in vs ==> x.id in r
    ensures forall k :: k in r ==> exists x :: x in vs && x.id == k
  {
    Map(vs, (v: Video) => v.id)
  }

  function SubscriptionIds(xs: seq<Subscription>): (r: seq<Id>)
    ensures |r| == |xs|
    ensures forall i :: 0 <= i < |xs| ==> r[i] == xs[i].id
    ensures forall x :: x in xs ==> x.id in r
    ensures forall k :: k in r ==> exists x :: x in xs && x.id == k
  {
    Map(xs, (x: Subscription) => x.id)
  }

  /** `populate` on an array of user references: the users that still exist,
      in order; references to missing users are dropped. */
  function ResolveUsers(s: Store, ids: seq<Id>): (r: seq<User>)
    ensures |r| <= |ids|
    ensures forall u :: u in r ==> u in s.users && u.id in ids
    ensures forall id :: id in ids && FindUser(s, id).Some? ==> FindUser(s, id).value in r
    ensures (forall id :: id in ids ==> FindUser(s, id).Some?) ==> |r| == |ids|
  {
    if |ids| == 0 then []
    else
      var rest := ResolveUsers(s, ids[1..]);
      assert ids == [ids[0]] + ids[1..];
      match FindUser(s, ids[0])
      case None => rest
      case Some(u) => [u] + rest
  }

  /** The same for video references. */
  function ResolveVideos(s: Store, ids: seq<Id>): (r: seq<Video>)
    ensures |r| <= |ids|
    ensures forall x :: x in r ==> x in s.videos && x.id in ids
    ensures forall id :: id in ids && FindVideo(s, id).Some? ==> FindVideo(s, id).value in r
  {
    if |ids| == 0 then []
    else
      var rest := ResolveVideos(s, ids[1..]);
      assert forall id :: id in ids ==> id == ids[0] || id in ids[1..];
      match FindVideo(s, ids[0])
      case None => rest
      case Some(v) => [v] + rest
  }

  /** The liker of each like, in order. */
  function LikerIds(ls: seq<Like>): (r: seq<Id>)
    ensures |r| == |ls|
    ensures forall i :: 0 <= i < |ls| ==> r[i] == ls[i].likedBy
  {
    Map(ls, (l: Like) => l.likedBy)
  }

  /** The ids of a non-empty list: the first id, then the ids of the rest. */
  lemma VideoIdsCons(vs: seq<Video>)
    requires |vs| > 0
    ensures forall id :: id in VideoIds(vs) <==> id == vs[0].id || id in VideoIds(vs[1..])
  {
    var ids, rest := VideoIds(vs), VideoIds(vs[1..]);
    assert forall i :: 0 <= i < |rest| ==> ids[i + 1] == rest[i];
    assert ids == [vs[0].id] + rest;
  }

  lemma CommentIdsCons(cs: seq<Comment>)
    requires |cs| > 0
    ensures forall id :: id in CommentIds(cs) <==> id == cs[0].id || id in CommentIds(cs[1..])
  {
    var ids, rest := CommentIds(cs), CommentIds(cs[1..]);
    assert forall i :: 0 <= i < |rest| ==> ids[i + 1] == rest[i];
    assert ids == [cs[0].id] + rest;
  }

  ghost predicate HasVideo(s: Store, id: Id) {
    exists v :: v in s.videos && v.id == id
  }

  ghost predicate HasComment(s: Store, id: Id) {
    exists c :: c in s.comments && c.id == id
  }

  ghost predicate HasTweet(s: Store, id: Id) {
    exists t :: t in s.tweets && t.id == id
  }

  ghost predicate LikeTargetsExist(s: Store) {
    && (forall l :: l in s.likes && l.video.Some? ==> HasVideo(s, l.video.value))
    && (forall l :: l in s.likes && l.comment.Some? ==> HasComment(s, l.comment.value))
    && (forall l :: l in s.likes && l.tweet.Some? ==> HasTweet(s, l.tweet.value))
  }

  ghost predicate CommentVideosExist(s: Store) {
    forall c :: c in s.comments ==> HasVideo(s, c.video)
  }

  ghost predicate PlaylistVideosExist(s: Store) {
    forall p, id :: p in s.playlists && id in p.videos ==> HasVideo(s, id)
  }

  ghost predicate HistoryVideosExist(s: Store) {
    forall u, id :: u in s.users && id in u.watchHistory ==> HasVideo(s, id)
  }

  /** No like, comment, playlist or watch history refers to a video, comment
      or tweet that is not in the store. */
  ghost predicate NoDanglingContent(s: Store) {
    LikeTargetsExist(s) && CommentVideosExist(s) && PlaylistVideosExist(s) && HistoryVideosExist(s)
  }
}

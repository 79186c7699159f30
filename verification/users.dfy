/** The user controller's read views and its one list edit besides removal:
    the channel profile with its subscription counters, the watch-history
    push and the watch-history view, and the user-details report that groups
    the likes on a user's content by the liked item. */
module Users {
  import opened Base
  import opened Seqs
  import opened Entities
  import Subscriptions

  // ----- getUserChannelProfile -----

  /** A channel as the profile aggregation projects it, with its counters. */
  datatype ChannelProfile = ChannelProfile(
    id: Id,
    fullName: string,
    username: string,
    avatar: string,
    coverImage: string,
    email: string,
    subscribersCount: nat,
    channelsSubscribedToCount: nat,
    isSubscribed: bool,
    numberOfVideos: nat)

  /** `getUserChannelProfile`, for the signed-in viewer `me`: a malformed id
      is a 400 and an unknown channel a 404. The aggregation matches the cast
      id; the counters are the sizes of the two subscription joins and of the
      channel's videos; the viewer is subscribed when one of the channel's
      subscriptions names them. */
  function GetUserChannelProfile(s: Store, me: Id, channelId: string): (r: Result<ChannelProfile>)
    ensures !ValidObjectId(channelId) ==> r == Err(BadRequest)
    ensures ValidObjectId(channelId) && FindUser(s, Canon(channelId)).None? ==> r == Err(NotFound)
    ensures r.Ok? <==> ValidObjectId(channelId) && FindUser(s, Canon(channelId)).Some?
    ensures r.Ok? ==>
      var c := FindUser(s, Canon(channelId)).value;
      && r.value.id == Canon(channelId)
      && r.value.fullName == c.fullName && r.value.username == c.username && r.value.email == c.email
      && r.value.avatar == c.avatar && r.value.coverImage == c.coverImage
    ensures r.Ok? ==> r.value.subscribersCount == Count(s.subscriptions, SubscriptionToChannel(Canon(channelId)))
    ensures r.Ok? ==> r.value.channelsSubscribedToCount == Count(s.subscriptions, SubscriptionBySubscriber(Canon(channelId)))
    ensures r.Ok? ==> (r.value.isSubscribed <==> exists x :: x in s.subscriptions && x.channel == Canon(channelId) && x.subscriber == me)
    ensures r.Ok? ==> r.value.numberOfVideos == Count(s.videos, VideoOwnedBy(Canon(channelId)))
  {
    if !ValidObjectId(channelId) then Err(BadRequest)
    else
      var id := Canon(channelId);
      var subscribers := Filter(s.subscriptions, SubscriptionToChannel(id));
      var subscribedTo := Filter(s.subscriptions, SubscriptionBySubscriber(id));
      var numberOfVideos := Count(s.videos, VideoOwnedBy(id));
      match FindUser(s, id)
      case None => Err(NotFound)
      case Some(c) =>
        var isSubscribed := exists x :: x in subscribers && x.subscriber == me;
        Ok(ChannelProfile(c.id, c.fullName, c.username, c.avatar, c.coverImage, c.email,
          |subscribers|, |subscribedTo|, isSubscribed, numberOfVideos))
  }

  /** The channel's subscriptions split into the viewer's and the others'. */
  lemma {:induction false} ChannelCountSplit(xs: seq<Subscription>, me: Id, c: Id)
    ensures Count(xs, SubscriptionToChannel(c)) ==
      Count(Filter(xs, Not(Subscriptions.SubscriptionOf(me, c))), SubscriptionToChannel(c)) + Count(xs, Subscriptions.SubscriptionOf(me, c))
  {
    if |xs| > 0 {
      ChannelCountSplit(xs[1..], me, c);
    }
  }

  /** The viewer is among a channel's subscribers exactly when some
      subscription matches the toggle's filter. */
  lemma SubscribedIff(xs: seq<Subscription>, me: Id, c: Id)
    ensures (exists x :: x in xs && x.channel == c && x.subscriber == me) <==> Count(xs, Subscriptions.SubscriptionOf(me, c)) > 0
  {
    var f := Filter(xs, Subscriptions.SubscriptionOf(me, c));
    assert |f| > 0 ==> f[0] in f;
  }

  /** A toggle moves the matching count and the channel's count by one. */
  lemma ToggleMovesCounts(s: Store, me: Id, channelId: string, newId: Id)
    requires ValidObjectId(channelId) && Canon(channelId) != me
    ensures var t := Subscriptions.ToggleSubscription(s, me, channelId, newId).store;
      var c := Canon(channelId);
      var p := Subscriptions.SubscriptionOf(me, c);
      var n := Count(s.subscriptions, p);
      && Count(t.subscriptions, p) == (if n == 0 then 1 else n - 1)
      && Count(t.subscriptions, SubscriptionToChannel(c)) ==
           if n == 0 then Count(s.subscriptions, SubscriptionToChannel(c)) + 1
           else Count(s.subscriptions, SubscriptionToChannel(c)) - 1
  {
    var c := Canon(channelId);
    var t := Subscriptions.ToggleOn(s, me, c, newId).store;
    var p := Subscriptions.SubscriptionOf(me, c);
    ChannelCountSplit(s.subscriptions, me, c);
    ChannelCountSplit(t.subscriptions, me, c);
    if Count(s.subscriptions, p) == 0 {
      var x := Subscription(newId, me, c);
      FilterConcat(s.subscriptions, [x], p);
      assert [x][1..] == [];
      assert Filter([x], p) == [x];
    }
  }

  /** A subscription toggle shows in the profile the viewer sees next: the
      subscriber count moves by one and the viewer's flag follows whether a
      matching subscription is left. */
  lemma ProfileAfterToggle(s: Store, me: Id, channelId: string, newId: Id)
    requires ValidObjectId(channelId) && Canon(channelId) != me && FindUser(s, Canon(channelId)).Some?
    ensures var t := Subscriptions.ToggleSubscription(s, me, channelId, newId).store;
      var before := GetUserChannelProfile(s, me, channelId).value;
      var after := GetUserChannelProfile(t, me, channelId).value;
      var n := Count(s.subscriptions, Subscriptions.SubscriptionOf(me, Canon(channelId)));
      && GetUserChannelProfile(t, me, channelId).Ok?
      && (before.isSubscribed <==> n > 0)
      && (after.isSubscribed <==> n != 1)
      && after.subscribersCount == if n == 0 then before.subscribersCount + 1 else before.subscribersCount - 1
  {
    var t := Subscriptions.ToggleSubscription(s, me, channelId, newId).store;
    ToggleMovesCounts(s, me, channelId, newId);
    SubscribedIff(s.subscriptions, me, Canon(channelId));
    SubscribedIff(t.subscriptions, me, Canon(channelId));
  }

  // ----- addToWatchHistory -----

  function Push(videoId: Id): User -> User {
    (u: User) => u.(watchHistory := u.watchHistory + [videoId])
  }

  /** `addToWatchHistory`: every failure inside the handler is rethrown as a
      500 with nothing changed: an unknown caller, and a malformed video id,
      which the history array cannot cast. Otherwise the cast video id is
      pushed onto the end of the caller's history, whether or not it is there
      already and whether or not such a video exists, and the new history is
      the answer. */
  function AddToWatchHistory(s: Store, me: Id, videoId: string): (r: Reply<seq<Id>>)
    ensures FindUser(s, me).None? || !ValidObjectId(videoId) ==> r == Reply(Err(ServerError), s)
    ensures r.result.Ok? <==> FindUser(s, me).Some? && ValidObjectId(videoId)
    ensures r.result.Ok? ==> r.result.value == FindUser(s, me).value.watchHistory + [Canon(videoId)]
    ensures r.store == s.(users := r.store.users) && |r.store.users| == |s.users|
    ensures r.result.Ok? ==> forall i :: 0 <= i < |s.users| ==>
      r.store.users[i] == if s.users[i].id == me then s.users[i].(watchHistory := s.users[i].watchHistory + [Canon(videoId)]) else s.users[i]
  {
    match FindUser(s, me)
    case None => Reply(Err(ServerError), s)
    case Some(u) =>
      if !ValidObjectId(videoId) then Reply(Err(ServerError), s)
      else
        var id := Canon(videoId);
        Reply(Ok(u.watchHistory + [id]), s.(users := Update(s.users, UserIdIs(me), Push(id))))
  }

  /** The caller's record after a push is the record before with the cast
      id appended; every other user reads as before. */
  lemma FindAfterPush(s: Store, me: Id, videoId: string, id: Id)
    requires FindUser(s, me).Some? && ValidObjectId(videoId)
    ensures var t := AddToWatchHistory(s, me, videoId).store;
      && FindUser(t, id).Some? == FindUser(s, id).Some?
      && (FindUser(s, id).Some? ==>
            FindUser(t, id).value ==
              if id == me then FindUser(s, id).value.(watchHistory := FindUser(s, id).value.watchHistory + [Canon(videoId)])
              else FindUser(s, id).value)
  {
    FirstOfUpdate(s.users, UserIdIs(me), Push(Canon(videoId)), UserIdIs(id));
  }

  /** Pushing the same id twice leaves it twice at the end of the history. */
  lemma AddToWatchHistoryTwice(s: Store, me: Id, videoId: string)
    requires FindUser(s, me).Some? && ValidObjectId(videoId)
    ensures var t := AddToWatchHistory(s, me, videoId).store;
      AddToWatchHistory(t, me, videoId).result == Ok(FindUser(s, me).value.watchHistory + [Canon(videoId), Canon(videoId)])
  {
    FindAfterPush(s, me, videoId, me);
    var h := FindUser(s, me).value.watchHistory;
    assert h + [Canon(videoId)] + [Canon(videoId)] == h + [Canon(videoId), Canon(videoId)];
  }

  // ----- getWatchHistory -----

  /** The owner fields the watch-history join projects. */
  datatype OwnerCard = OwnerCard(id: Id, fullName: string, username: string, avatar: string)

  datatype WatchedVideo = WatchedVideo(video: Video, owner: Option<OwnerCard>)

  function OwnerOf(s: Store, v: Video): Option<OwnerCard> {
    match FindUser(s, v.owner)
    case None => None
    case Some(u) => Some(OwnerCard(u.id, u.fullName, u.username, u.avatar))
  }

  function InHistory(h: seq<Id>): Video -> bool { (v: Video) => v.id in h }

  function Watched(s: Store): Video -> WatchedVideo { (v: Video) => WatchedVideo(v, OwnerOf(s, v)) }

  /** The entries for `vs`, in the same order, each with its owner's card. */
  function WatchedVideos(s: Store, vs: seq<Video>): (r: seq<WatchedVideo>)
    ensures Map(r, (w: WatchedVideo) => w.video) == vs
    ensures forall w :: w in r ==> w.video in vs && w.owner == OwnerOf(s, w.video)
    ensures forall v :: v in vs ==> WatchedVideo(v, OwnerOf(s, v)) in r
  {
    var r := Map(vs, Watched(s));
    assert forall v :: v in vs ==> exists i :: 0 <= i < |vs| && v == vs[i] && r[i] == Watched(s)(v);
    r
  }

  /** `getWatchHistory`: an unknown caller makes the handler fail (a 500).
      Otherwise the join answers the videos whose id is in the history, each
      once and in the order of the video collection, not of the history,
      each with its owner's card when the owner resolves. */
  function GetWatchHistory(s: Store, me: Id): (r: Result<seq<WatchedVideo>>)
    ensures FindUser(s, me).None? <==> r == Err(ServerError)
    ensures r.Ok? ==> Map(r.value, (w: WatchedVideo) => w.video) == Filter(s.videos, InHistory(FindUser(s, me).value.watchHistory))
    ensures r.Ok? ==> forall w :: w in r.value ==>
      w.video in s.videos && w.video.id in FindUser(s, me).value.watchHistory && w.owner == OwnerOf(s, w.video)
    ensures r.Ok? ==> forall v :: v in s.videos && v.id in FindUser(s, me).value.watchHistory ==> WatchedVideo(v, OwnerOf(s, v)) in r.value
  {
    match FindUser(s, me)
    case None => Err(ServerError)
    case Some(u) => Ok(WatchedVideos(s, Filter(s.videos, InHistory(u.watchHistory))))
  }

  /** Watching again a video already in the history changes nothing in the
      history view, though the stored history grows. */
  lemma RewatchKeepsView(s: Store, me: Id, videoId: string)
    requires FindUser(s, me).Some? && ValidObjectId(videoId) && Canon(videoId) in FindUser(s, me).value.watchHistory
    ensures GetWatchHistory(AddToWatchHistory(s, me, videoId).store, me) == GetWatchHistory(s, me)
  {
    var t := AddToWatchHistory(s, me, videoId).store;
    var h := FindUser(s, me).value.watchHistory;
    FindAfterPush(s, me, videoId, me);
    FilterAgree(s.videos, InHistory(h + [Canon(videoId)]), InHistory(h));
    var vs := Filter(s.videos, InHistory(h));
    forall i | 0 <= i < |vs| ensures OwnerOf(t, vs[i]) == OwnerOf(s, vs[i]) {
      FindAfterPush(s, me, videoId, vs[i].owner);
    }
    assert Map(vs, Watched(t)) == Map(vs, Watched(s));
  }

  /** Watching a video, whatever the case of its id in the request, adds it
      to the history view. */
  lemma NewWatchShowsInView(s: Store, me: Id, videoId: string)
    requires FindUser(s, me).Some? && ValidObjectId(videoId)
    ensures var t := AddToWatchHistory(s, me, videoId).store;
      && GetWatchHistory(t, me).Ok?
      && forall v :: v in s.videos && v.id == Canon(videoId) ==> v in Map(GetWatchHistory(t, me).value, (w: WatchedVideo) => w.video)
  {
    FindAfterPush(s, me, videoId, me);
  }

  // ----- getUserDetails -----

  datatype Counted<T> = Counted(count: nat, data: seq<T>)

  /** A liker as `populate("likedBy", "fullName")` shows it. */
  datatype Liker = Liker(id: Id, fullName: string)

  /** One entry of `likesOnUserContent`: the first like that the response
      lookup finds for the item, with the item's likers in store order.
      `content` is the grouping key, the id of the liked item. */
  datatype LikeGroup = LikeGroup(content: Id, like: Like, likedBy: seq<Option<Liker>>)

  datatype UserDetails = UserDetails(
    user: User,
    comments: Counted<Comment>,
    tweets: Counted<Tweet>,
    videos: Counted<Video>,
    playlists: Counted<Playlist>,
    subscriber: nat,
    subscribedTo: seq<Subscription>,
    likesOnUserContent: seq<LikeGroup>)

  /** The `$or` query: a like on one of the given comments, tweets or videos. */
  function OnContent(commentIds: seq<Id>, tweetIds: seq<Id>, videoIds: seq<Id>): Like -> bool {
    (l: Like) =>
      || (l.comment.Some? && l.comment.value in commentIds)
      || (l.tweet.Some? && l.tweet.value in tweetIds)
      || (l.video.Some? && l.video.value in videoIds)
  }

  /** The grouping key of a like: its comment if that populates, else its
      tweet, else its video; none when no target populates. */
  function ContentKey(s: Store, l: Like): Option<Id> {
    if l.comment.Some? && FindComment(s, l.comment.value).Some? then l.comment
    else if l.tweet.Some? && FindTweet(s, l.tweet.value).Some? then l.tweet
    else if l.video.Some? && FindVideo(s, l.video.value).Some? then l.video
    else None
  }

  function KeyOf(s: Store): Like -> Option<Id> { (l: Like) => ContentKey(s, l) }

  function HasKey(key: Like -> Option<Id>, k: Id): Like -> bool { (l: Like) => key(l) == Some(k) }

  function KeyIs(s: Store, k: Id): Like -> bool { HasKey(KeyOf(s), k) }

  /** The lookup of the response object for key `k`: any populated target
      with that id, in no order of preference. */
  function MatchesKey(s: Store, k: Id): Like -> bool {
    (l: Like) =>
      || (l.comment == Some(k) && FindComment(s, k).Some?)
      || (l.tweet == Some(k) && FindTweet(s, k).Some?)
      || (l.video == Some(k) && FindVideo(s, k).Some?)
  }

  /** The grouping key of each like, in order. */
  function KeysOf(s: Store, ls: seq<Like>): (r: seq<Option<Id>>)
    ensures |r| == |ls| && forall i :: 0 <= i < |ls| ==> r[i] == ContentKey(s, ls[i])
  {
    Map(ls, KeyOf(s))
  }

  /** The keys of the grouping object in insertion order: each present key
      once, in the order of the like that first produced it. */
  function Distinct(ks: seq<Option<Id>>): (r: seq<Id>)
    ensures NoDup(r)
    ensures forall k :: k in r <==> Some(k) in ks
    decreases |ks|
  {
    if |ks| == 0 then []
    else
      var init := ks[..|ks| - 1];
      assert ks == init + [ks[|ks| - 1]];
      var r := Distinct(init);
      match ks[|ks| - 1]
      case None => r
      case Some(k) => if k in r then r else r + [k]
  }

  function LikerOf(s: Store): Like -> Option<Liker> {
    (l: Like) =>
      match FindUser(s, l.likedBy)
      case None => None
      case Some(u) => Some(Liker(u.id, u.fullName))
  }

  /** The entry for key `k`: the first like whose target `find` matches
      with `k`, and the likers of every like grouped under `k`. */
  function GroupFor(s: Store, ls: seq<Like>, k: Id): (g: LikeGroup)
    requires Some(k) in KeysOf(s, ls)
    ensures g.content == k && g.like in ls && MatchesKey(s, k)(g.like)
    ensures exists i :: 0 <= i < |ls| && ls[i] == g.like && forall j :: 0 <= j < i ==> !MatchesKey(s, k)(ls[j])
    ensures |g.likedBy| == Count(ls, KeyIs(s, k)) > 0
  {
    var i :| 0 <= i < |ls| && KeysOf(s, ls)[i] == Some(k);
    assert ls[i] in ls && KeyIs(s, k)(ls[i]);
    LikeGroup(k, First(ls, MatchesKey(s, k)).value, Map(Filter(ls, KeyIs(s, k)), LikerOf(s)))
  }

  function Groups(s: Store, ls: seq<Like>, ks: seq<Id>): (r: seq<LikeGroup>)
    requires forall k :: k in ks ==> Some(k) in KeysOf(s, ls)
    ensures |r| == |ks|
    ensures forall i :: 0 <= i < |ks| ==> r[i] == GroupFor(s, ls, ks[i])
  {
    if |ks| == 0 then [] else [GroupFor(s, ls, ks[0])] + Groups(s, ls, ks[1..])
  }

  /** The likes the details query reads, in store order. */
  function LikesOnContent(s: Store, me: Id): seq<Like> {
    Filter(s.likes, OnContent(
      CommentIds(Filter(s.comments, CommentOwnedBy(me))),
      TweetIds(Filter(s.tweets, TweetOwnedBy(me))),
      VideoIds(Filter(s.videos, VideoOwnedBy(me)))))
  }

  /** `likesOnUserContent`: one group per populated item, in first-like order. */
  function LikesOnUserContent(s: Store, me: Id): seq<LikeGroup> {
    var ls := LikesOnContent(s, me);
    Groups(s, ls, Distinct(KeysOf(s, ls)))
  }

  /** `getUserDetails`: an unknown caller is a 404. Otherwise the caller's
      record, their comments, tweets, videos and playlists each with its
      count, the number of their subscribers, their own subscriptions, and
      the likes on their content grouped by liked item. */
  function GetUserDetails(s: Store, me: Id): (r: Result<UserDetails>)
    ensures FindUser(s, me).None? <==> r == Err(NotFound)
    ensures r.Ok? ==> r.value.user == FindUser(s, me).value
    ensures r.Ok? ==>
      && r.value.comments.count == |r.value.comments.data|
      && r.value.tweets.count == |r.value.tweets.data|
      && r.value.videos.count == |r.value.videos.data|
      && r.value.playlists.count == |r.value.playlists.data|
    ensures r.Ok? ==>
      && (forall x :: x in r.value.comments.data <==> x in s.comments && x.owner == me)
      && (forall x :: x in r.value.tweets.data <==> x in s.tweets && x.owner == me)
      && (forall x :: x in r.value.videos.data <==> x in s.videos && x.owner == me)
      && (forall x :: x in r.value.playlists.data <==> x in s.playlists && x.owner == me)
    ensures r.Ok? ==> r.value.subscriber == Count(s.subscriptions, SubscriptionToChannel(me))
    ensures r.Ok? ==> forall x :: x in r.value.subscribedTo <==> x in s.subscriptions && x.subscriber == me
    ensures r.Ok? ==> r.value.likesOnUserContent == LikesOnUserContent(s, me)
  {
    match FindUser(s, me)
    case None => Err(NotFound)
    case Some(u) =>
      var comments := Filter(s.comments, CommentOwnedBy(me));
      var tweets := Filter(s.tweets, TweetOwnedBy(me));
      var videos := Filter(s.videos, VideoOwnedBy(me));
      var playlists := Filter(s.playlists, PlaylistOwnedBy(me));
      Ok(UserDetails(u,
        Counted(Count(s.comments, CommentOwnedBy(me)), comments),
        Counted(Count(s.tweets, TweetOwnedBy(me)), tweets),
        Counted(Count(s.videos, VideoOwnedBy(me)), videos),
        Counted(Count(s.playlists, PlaylistOwnedBy(me)), playlists),
        |Filter(s.subscriptions, SubscriptionToChannel(me))|,
        Filter(s.subscriptions, SubscriptionBySubscriber(me)),
        LikesOnUserContent(s, me)))
  }

  /** Every like the details read is on the caller's content. */
  lemma LikesOnContentAreMine(s: Store, me: Id)
    ensures forall l :: l in LikesOnContent(s, me) <==>
      && l in s.likes
      && (|| (exists c :: c in s.comments && c.owner == me && l.comment == Some(c.id))
          || (exists t :: t in s.tweets && t.owner == me && l.tweet == Some(t.id))
          || (exists v :: v in s.videos && v.owner == me && l.video == Some(v.id)))
  {
  }

  /** The groups have distinct keys, one for each item some read like
      populates, and each group lists one liker for each such like on its
      item, in store order. */
  lemma GroupsPartitionLikes(s: Store, me: Id)
    ensures var ls := LikesOnContent(s, me); var gs := LikesOnUserContent(s, me);
      && (forall i, j :: 0 <= i < j < |gs| ==> gs[i].content != gs[j].content)
      && (forall l :: l in ls && ContentKey(s, l).Some? ==> exists i :: 0 <= i < |gs| && gs[i].content == ContentKey(s, l).value)
      && (forall i :: 0 <= i < |gs| ==> gs[i].likedBy == Map(Filter(ls, KeyIs(s, gs[i].content)), LikerOf(s)))
  {
    var ls := LikesOnContent(s, me);
    var ks := Distinct(KeysOf(s, ls));
    forall l | l in ls && ContentKey(s, l).Some?
      ensures exists i :: 0 <= i < |ks| && ks[i] == ContentKey(s, l).value
    {
      var j :| 0 <= j < |ls| && ls[j] == l;
      assert KeysOf(s, ls)[j] == ContentKey(s, l);
    }
  }

  /** The `forEach` that builds the grouping object, as a loop over a map
      from key to liker ids, for any way `key` of keying a like (the handler
      uses `KeyOf(s)`): it computes the keys in the order `Distinct` gives
      them and, for each key, the liker ids of the likes with it. */
  method GroupLikes(ls: seq<Like>, key: Like -> Option<Id>) returns (keys: seq<Id>, grouped: map<Id, seq<Id>>)
    ensures keys == Distinct(Map(ls, key))
    ensures forall k :: k in grouped <==> k in keys
    ensures forall k :: k in grouped ==> grouped[k] == LikerIds(Filter(ls, HasKey(key, k)))
  {
    keys := [];
    grouped := map[];
    var i := 0;
    while i < |ls|
      invariant 0 <= i <= |ls|
      invariant GroupedUpTo(ls, key, i, keys, grouped)
    {
      GroupedStep(ls, key, i, keys, grouped);
      keys := AddKey(keys, key(ls[i]));
      grouped := AddLiker(grouped, key(ls[i]), ls[i].likedBy);
      i := i + 1;
    }
    assert ls[..i] == ls && Map(ls, key)[..i] == Map(ls, key);
  }

  /** The loop's state after the first `n` likes: the distinct keys so far
      and, for each, the liker ids of those likes with it. */
  ghost predicate GroupedUpTo(ls: seq<Like>, key: Like -> Option<Id>, n: nat, keys: seq<Id>, grouped: map<Id, seq<Id>>)
    requires n <= |ls|
  {
    && keys == Distinct(Map(ls, key)[..n])
    && (forall k :: k in grouped <==> k in keys)
    && (forall k :: k in grouped ==> grouped[k] == LikerIds(Filter(ls[..n], HasKey(key, k))))
  }

  /** A key joins the keys the first time it is seen. */
  function AddKey(keys: seq<Id>, k: Option<Id>): seq<Id> {
    match k
    case None => keys
    case Some(x) => if x in keys then keys else keys + [x]
  }

  /** A liker joins the group of its like's key, opening it if need be. */
  function AddLiker(grouped: map<Id, seq<Id>>, k: Option<Id>, liker: Id): map<Id, seq<Id>> {
    match k
    case None => grouped
    case Some(x) => grouped[x := (if x in grouped then grouped[x] else []) + [liker]]
  }

  /** One pass of the loop keeps its state in step with the likes read. */
  lemma GroupedStep(ls: seq<Like>, key: Like -> Option<Id>, n: nat, keys: seq<Id>, grouped: map<Id, seq<Id>>)
    requires n < |ls| && GroupedUpTo(ls, key, n, keys, grouped)
    ensures GroupedUpTo(ls, key, n + 1, AddKey(keys, key(ls[n])), AddLiker(grouped, key(ls[n]), ls[n].likedBy))
  {
    DistinctStep(Map(ls, key), n);
    GroupStep(ls, key, n);
    if key(ls[n]).None? {
      UnkeyedStep(ls, key, n, grouped);
    } else {
      KeyedStep(ls, key, n, grouped);
    }
  }

  /** A like without a key changes no group. */
  lemma UnkeyedStep(ls: seq<Like>, key: Like -> Option<Id>, n: nat, grouped: map<Id, seq<Id>>)
    requires n < |ls| && key(ls[n]).None?
    requires forall k :: k in grouped ==> grouped[k] == LikerIds(Filter(ls[..n], HasKey(key, k)))
    ensures forall k :: k in grouped ==> grouped[k] == LikerIds(Filter(ls[..n + 1], HasKey(key, k)))
  {
    GroupStep(ls, key, n);
    forall k | k in grouped ensures grouped[k] == LikerIds(Filter(ls[..n + 1], HasKey(key, k))) {
      assert LikerIds(Filter(ls[..n], HasKey(key, k))) + [] == LikerIds(Filter(ls[..n], HasKey(key, k)));
    }
  }

  /** A like with a key adds its liker to that key's group, opening it if
      no earlier like had the key, and changes no other group. */
  lemma KeyedStep(ls: seq<Like>, key: Like -> Option<Id>, n: nat, grouped: map<Id, seq<Id>>)
    requires n < |ls| && key(ls[n]).Some?
    requires forall k :: k in grouped <==> Some(k) in Map(ls, key)[..n]
    requires forall k :: k in grouped ==> grouped[k] == LikerIds(Filter(ls[..n], HasKey(key, k)))
    ensures var g := AddLiker(grouped, key(ls[n]), ls[n].likedBy);
      forall k :: k in g ==> g[k] == LikerIds(Filter(ls[..n + 1], HasKey(key, k)))
  {
    var k := key(ls[n]).value;
    var g := AddLiker(grouped, key(ls[n]), ls[n].likedBy);
    GroupStep(ls, key, n);
    var before := if k in grouped then grouped[k] else [];
    assert before == LikerIds(Filter(ls[..n], HasKey(key, k))) by {
      if k !in grouped {
        assert Map(ls[..n], key) == Map(ls, key)[..n];
        EmptyGroup(ls[..n], key, k);
      }
    }
    forall k' | k' in g ensures g[k'] == LikerIds(Filter(ls[..n + 1], HasKey(key, k'))) {
      if k' != k {
        assert LikerIds(Filter(ls[..n], HasKey(key, k'))) + [] == LikerIds(Filter(ls[..n], HasKey(key, k')));
      }
    }
  }

  lemma DistinctStep(ks: seq<Option<Id>>, i: nat)
    requires i < |ks|
    ensures Distinct(ks[..i + 1]) ==
      match ks[i]
      case None => Distinct(ks[..i])
      case Some(k) => if k in Distinct(ks[..i]) then Distinct(ks[..i]) else Distinct(ks[..i]) + [k]
  {
    assert ks[..i + 1][..i] == ks[..i];
  }

  /** No like has a key that the sequence of keys does not hold. */
  lemma EmptyGroup(ls: seq<Like>, key: Like -> Option<Id>, k: Id)
    requires Some(k) !in Map(ls, key)
    ensures Filter(ls, HasKey(key, k)) == []
  {
  }

  /** One more like adds its liker to its own key's group and to no other. */
  lemma GroupStep(ls: seq<Like>, key: Like -> Option<Id>, i: nat)
    requires i < |ls|
    ensures forall k ::
      LikerIds(Filter(ls[..i + 1], HasKey(key, k))) ==
      LikerIds(Filter(ls[..i], HasKey(key, k))) + if key(ls[i]) == Some(k) then [ls[i].likedBy] else []
  {
    var l := ls[i];
    assert ls[..i + 1] == ls[..i] + [l];
    assert [l][1..] == [];
    forall k ensures LikerIds(Filter(ls[..i + 1], HasKey(key, k))) ==
      LikerIds(Filter(ls[..i], HasKey(key, k))) + if key(l) == Some(k) then [l.likedBy] else []
    {
      FilterConcat(ls[..i], [l], HasKey(key, k));
      LikerIdsSnoc(Filter(ls[..i], HasKey(key, k)), l);
    }
  }

  lemma LikerIdsSnoc(ls: seq<Like>, l: Like)
    ensures LikerIds(ls + [l]) == LikerIds(ls) + [l.likedBy]
  {
    assert LikerIds(ls + [l])[|ls|] == (ls + [l])[|ls|].likedBy;
  }
}

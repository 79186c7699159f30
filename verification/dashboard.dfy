/** The dashboard controller: the channel counters and the channel's videos. */
module Dashboard {
  import opened Base
  import opened Seqs
  import opened Entities
  import Videos
  import Subscriptions

  /** `$sum` of the views: 0 for no videos. */
  function SumViews(vs: seq<Video>): (n: nat)
    ensures vs == [] ==> n == 0
    ensures forall v :: v in vs ==> v.views <= n
  {
    if |vs| == 0 then 0 else vs[0].views + SumViews(vs[1..])
  }

  lemma {:induction false} SumViewsConcat(a: seq<Video>, b: seq<Video>)
    ensures SumViews(a + b) == SumViews(a) + SumViews(b)
  {
    if |a| == 0 {
      assert a + b == b;
    } else {
      assert (a + b)[1..] == a[1..] + b;
      SumViewsConcat(a[1..], b);
    }
  }

  /** One more view on every video with a given id raises the sum by the
      number of those videos. */
  lemma {:induction false} SumViewsOfBump(vs: seq<Video>, id: Id)
    ensures SumViews(Update(vs, VideoIdIs(id), Videos.BumpViews())) == SumViews(vs) + Count(vs, VideoIdIs(id))
  {
    if |vs| > 0 {
      var u := Update(vs, VideoIdIs(id), Videos.BumpViews());
      assert u[1..] == Update(vs[1..], VideoIdIs(id), Videos.BumpViews());
      SumViewsOfBump(vs[1..], id);
    }
  }

  /** A like on one of the given videos. */
  function LikeOnAnyOf(ids: seq<Id>): Like -> bool { (l: Like) => l.video.Some? && l.video.value in ids }

  datatype ChannelStats = ChannelStats(totalVideoViews: nat, totalSubscribers: nat, totalVideos: nat, totalVideoLikes: nat)

  /** `getChannelStats` for the caller's channel; never an error. */
  function GetChannelStats(s: Store, me: Id): (r: Result<ChannelStats>)
    ensures r.Ok?
    ensures r.value.totalVideoViews == SumViews(Filter(s.videos, VideoOwnedBy(me)))
    ensures (forall v :: v in s.videos ==> v.owner != me) ==> r.value.totalVideoViews == 0
    ensures r.value.totalSubscribers == Count(s.subscriptions, SubscriptionToChannel(me))
    ensures r.value.totalVideos == Count(s.videos, VideoOwnedBy(me))
    ensures r.value.totalVideoLikes == Count(s.likes, LikeOnAnyOf(VideoIds(Filter(s.videos, VideoOwnedBy(me)))))
  {
    var mine := Filter(s.videos, VideoOwnedBy(me));
    assert (forall v :: v in s.videos ==> v.owner != me) ==> mine == [] by {
      if |mine| > 0 { assert mine[0] in mine; }
    }
    Ok(ChannelStats(SumViews(mine), Count(s.subscriptions, SubscriptionToChannel(me)), |mine|,
      Count(s.likes, LikeOnAnyOf(VideoIds(mine)))))
  }

  /** The likes on any one of the channel's videos are among its total. */
  lemma VideoLikesWithinTotal(s: Store, me: Id, v: Video)
    requires v in s.videos && v.owner == me
    ensures Count(s.likes, LikeOnVideo(v.id)) <= GetChannelStats(s, me).value.totalVideoLikes
  {
    var ids := VideoIds(Filter(s.videos, VideoOwnedBy(me)));
    assert v.id in ids;
    CountMono(s.likes, LikeOnVideo(v.id), LikeOnAnyOf(ids));
  }

  /** A view recorded on one of the caller's videos raises the total by one
      per record with that id. */
  lemma ViewRaisesTotal(s: Store, me: Id, videoId: string)
    requires Videos.UpdateVideoViews(s, videoId).result.Ok?
    ensures var t := Videos.UpdateVideoViews(s, videoId).store;
      GetChannelStats(t, me).value.totalVideoViews
        == GetChannelStats(s, me).value.totalVideoViews + Count(Filter(s.videos, VideoOwnedBy(me)), VideoIdIs(Canon(videoId)))
  {
    var id := Canon(videoId);
    var t := Videos.UpdateVideoViews(s, videoId).store;
    var f := Videos.BumpViews();
    assert t.videos == Update(s.videos, VideoIdIs(id), f);
    FilterOfUpdate(s.videos, VideoIdIs(id), f, VideoOwnedBy(me));
    SumViewsOfBump(Filter(s.videos, VideoOwnedBy(me)), id);
  }

  /** A new subscriber to the caller's channel raises the subscriber count by
      one, whatever the case in which the subscriber spelt the channel id. */
  lemma SubscribeRaisesTotal(s: Store, subscriber: Id, channelId: string, newId: Id)
    requires ValidObjectId(channelId) && Canon(channelId) != subscriber
    requires Count(s.subscriptions, Subscriptions.SubscriptionOf(subscriber, Canon(channelId))) == 0
    ensures var me := Canon(channelId);
      var t := Subscriptions.ToggleSubscription(s, subscriber, channelId, newId).store;
      GetChannelStats(t, me).value.totalSubscribers == GetChannelStats(s, me).value.totalSubscribers + 1
  {
    var me := Canon(channelId);
    var x := Subscription(newId, subscriber, me);
    assert Subscriptions.ToggleSubscription(s, subscriber, channelId, newId).store.subscriptions == s.subscriptions + [x];
    FilterConcat(s.subscriptions, [x], SubscriptionToChannel(me));
    assert [x][1..] == [];
  }

  /** `getChannelVideos`: a malformed caller id is a 400; otherwise exactly
      the caller's videos, in store order. */
  function GetChannelVideos(s: Store, me: Id): (r: Result<seq<Video>>)
    ensures !ValidObjectId(me) <==> r == Err(BadRequest)
    ensures r.Ok? ==> forall v :: v in r.value <==> v in s.videos && v.owner == me
    ensures r.Ok? ==> |r.value| == GetChannelStats(s, me).value.totalVideos
  {
    if !ValidObjectId(me) then Err(BadRequest) else Ok(Filter(s.videos, VideoOwnedBy(me)))
  }
}

/** The subscription controller: the subscribe/unsubscribe toggle with its
    self-subscription guard, and the two listings of a channel's subscribers
    and of a user's subscribed channels. */
module Subscriptions {
  import opened Base
  import opened Seqs
  import opened Entities

  /** The filter `{ channel, subscriber }` of the toggle. */
  function SubscriptionOf(subscriber: Id, channel: Id): Subscription -> bool {
    (x: Subscription) => x.subscriber == subscriber && x.channel == channel
  }

  ghost predicate NoSelfSubscription(xs: seq<Subscription>) {
    forall x :: x in xs ==> x.subscriber != x.channel
  }

  datatype Toggled = Subscribed | Unsubscribed

  /** The toggle once its guards have passed, on the cast channel id: the
      first subscription of `me` to `channel` is deleted, or a new one is
      created when there is none. */
  function ToggleOn(s: Store, me: Id, channel: Id, newId: Id): (r: Reply<Toggled>)
    ensures r.result.Ok?
    ensures r.store == s.(subscriptions := r.store.subscriptions)
    ensures forall x :: x in r.store.subscriptions ==> x in s.subscriptions || x == Subscription(newId, me, channel)
    ensures Filter(r.store.subscriptions, Not(SubscriptionOf(me, channel))) == Filter(s.subscriptions, Not(SubscriptionOf(me, channel)))
    ensures Count(s.subscriptions, SubscriptionOf(me, channel)) > 0 ==>
      && r.result.value == Unsubscribed
      && |r.store.subscriptions| == |s.subscriptions| - 1
      && Count(r.store.subscriptions, SubscriptionOf(me, channel)) == Count(s.subscriptions, SubscriptionOf(me, channel)) - 1
    ensures Count(s.subscriptions, SubscriptionOf(me, channel)) == 0 ==>
      && r.result.value == Subscribed
      && r.store.subscriptions == s.subscriptions + [Subscription(newId, me, channel)]
  {
    var p := SubscriptionOf(me, channel);
    if Count(s.subscriptions, p) > 0 then
      Reply(Ok(Unsubscribed), s.(subscriptions := RemoveFirst(s.subscriptions, p)))
    else
      var x := Subscription(newId, me, channel);
      FilterConcat(s.subscriptions, [x], Not(p));
      assert [x][1..] == [];
      Reply(Ok(Subscribed), s.(subscriptions := s.subscriptions + [x]))
  }

  /** `toggleSubscription` as written: a malformed channel id is a 404, and
      the guard against the caller's own channel compares the request's
      spelling of the id with the caller's printed id. The queries and the
      create then use the cast id, so an upper-case spelling of the caller's
      own id passes the guard and names the caller's channel. */
  function ToggleSubscriptionAsWritten(s: Store, me: Id, channelId: string, newId: Id): (r: Reply<Toggled>)
    ensures !ValidObjectId(channelId) ==> r == Reply(Err(NotFound), s)
    ensures ValidObjectId(channelId) && channelId == me ==> r == Reply(Err(Forbidden), s)
    ensures ValidObjectId(channelId) && channelId != me ==> r == ToggleOn(s, me, Canon(channelId), newId)
  {
    if !ValidObjectId(channelId) then Reply(Err(NotFound), s)
    else if channelId == me then Reply(Err(Forbidden), s)
    else ToggleOn(s, me, Canon(channelId), newId)
  }

  /** The caller `aaa…a` asking to subscribe to `AAA…A`, which is their own
      channel spelt in upper case, passes the guard and ends up subscribed to
      themself. */
  lemma SelfSubscriptionAsWritten(s: Store, newId: Id)
    requires NoSelfSubscription(s.subscriptions)
    ensures var me := seq(24, i => 'a');
      var r := ToggleSubscriptionAsWritten(s, me, seq(24, i => 'A'), newId);
      && r.result == Ok(Subscribed)
      && Subscription(newId, me, me) in r.store.subscriptions
      && !NoSelfSubscription(r.store.subscriptions)
  {
    var me := seq(24, i => 'a');
    var upper := seq(24, i => 'A');
    assert upper[0] != me[0];
    assert Canon(upper) == me;
    assert Count(s.subscriptions, SubscriptionOf(me, me)) == 0;
    assert Subscription(newId, me, me) in s.subscriptions + [Subscription(newId, me, me)];
  }

  /** `toggleSubscription` with the guard comparing the cast id, so that no
      spelling of the caller's own id gets past it: a malformed channel id
      is a 404 and the caller's own channel a 403; otherwise the toggle on
      the cast id. */
  function ToggleSubscription(s: Store, me: Id, channelId: string, newId: Id): (r: Reply<Toggled>)
    ensures !ValidObjectId(channelId) ==> r == Reply(Err(NotFound), s)
    ensures ValidObjectId(channelId) && Canon(channelId) == me ==> r == Reply(Err(Forbidden), s)
    ensures r.result.Ok? <==> ValidObjectId(channelId) && Canon(channelId) != me
    ensures r.result.Ok? ==> r == ToggleOn(s, me, Canon(channelId), newId)
    ensures r.store == s.(subscriptions := r.store.subscriptions)
    ensures forall x :: x in r.store.subscriptions ==> x in s.subscriptions || x == Subscription(newId, me, Canon(channelId))
  {
    if !ValidObjectId(channelId) then Reply(Err(NotFound), s)
    else if Canon(channelId) == me then Reply(Err(Forbidden), s)
    else ToggleOn(s, me, Canon(channelId), newId)
  }

  /** The toggle never creates a subscription of a user to their own channel. */
  lemma ToggleKeepsNoSelfSubscription(s: Store, me: Id, channelId: string, newId: Id)
    requires NoSelfSubscription(s.subscriptions)
    ensures NoSelfSubscription(ToggleSubscription(s, me, channelId, newId).store.subscriptions)
  {
    var r := ToggleSubscription(s, me, channelId, newId);
    forall x | x in r.store.subscriptions ensures x.subscriber != x.channel {
      if x !in s.subscriptions {
        assert r.result.Ok?;
      }
    }
  }

  /** Starting unsubscribed, two toggles answer "subscribed" then
      "unsubscribed" and give back the original store. */
  lemma ToggleSubscriptionTwice(s: Store, me: Id, channelId: string, id1: Id, id2: Id)
    requires ValidObjectId(channelId) && Canon(channelId) != me
    requires Count(s.subscriptions, SubscriptionOf(me, Canon(channelId))) == 0
    ensures ToggleSubscription(s, me, channelId, id1).result == Ok(Subscribed)
    ensures var s1 := ToggleSubscription(s, me, channelId, id1).store;
      ToggleSubscription(s1, me, channelId, id2) == Reply(Ok(Unsubscribed), s)
  {
    var p := SubscriptionOf(me, Canon(channelId));
    var x := Subscription(id1, me, Canon(channelId));
    var s1 := ToggleSubscription(s, me, channelId, id1).store;
    assert s1.subscriptions == s.subscriptions + [x];
    assert Count(s1.subscriptions, p) > 0 by { assert x in s1.subscriptions; }
    RemoveFirstOfAppended(s.subscriptions, x, p);
  }

  /** The subscriber of every subscription to `channel`, in store order. */
  function SubscriberIds(s: Store, channel: Id): (r: seq<Id>)
    ensures |r| == Count(s.subscriptions, SubscriptionToChannel(channel))
    ensures forall u :: u in r ==> exists x :: x in s.subscriptions && x.channel == channel && x.subscriber == u
    ensures forall x :: x in s.subscriptions && x.channel == channel ==> x.subscriber in r
  {
    var xs := Filter(s.subscriptions, SubscriptionToChannel(channel));
    var r := Map(xs, (x: Subscription) => x.subscriber);
    assert forall u :: u in r ==> exists i :: 0 <= i < |xs| && r[i] == u && xs[i] in xs;
    assert forall x :: x in xs ==> exists i :: 0 <= i < |xs| && xs[i] == x;
    r
  }

  /** The channel of every subscription by `subscriber`, in store order. */
  function ChannelIds(s: Store, subscriber: Id): (r: seq<Id>)
    ensures |r| == Count(s.subscriptions, SubscriptionBySubscriber(subscriber))
    ensures forall c :: c in r ==> exists x :: x in s.subscriptions && x.subscriber == subscriber && x.channel == c
    ensures forall x :: x in s.subscriptions && x.subscriber == subscriber ==> x.channel in r
  {
    var xs := Filter(s.subscriptions, SubscriptionBySubscriber(subscriber));
    var r := Map(xs, (x: Subscription) => x.channel);
    assert forall c :: c in r ==> exists i :: 0 <= i < |xs| && r[i] == c && xs[i] in xs;
    assert forall x :: x in xs ==> exists i :: 0 <= i < |xs| && xs[i] == x;
    r
  }

  /** `populate`: each id replaced by the user it names, or by nothing when
      that user no longer exists. */
  function Populate(s: Store, ids: seq<Id>): (r: seq<Option<User>>)
    ensures |r| == |ids|
    ensures forall i :: 0 <= i < |ids| ==> r[i] == FindUser(s, ids[i])
    ensures forall i :: 0 <= i < |ids| && r[i].Some? ==> r[i].value in s.users && r[i].value.id == ids[i]
  {
    Map(ids, (id: Id) => FindUser(s, id))
  }

  /** `getUserChannelSubscribers`: a malformed id is a 400, and any spelling
      of a channel id other than the caller's printed id is a 403; otherwise
      the populated subscribers of the channel the cast id names. */
  function GetUserChannelSubscribers(s: Store, me: Id, channelId: string): (r: Result<seq<Option<User>>>)
    ensures !ValidObjectId(channelId) ==> r == Err(BadRequest)
    ensures ValidObjectId(channelId) && channelId != me ==> r == Err(Forbidden)
    ensures r.Ok? <==> ValidObjectId(channelId) && channelId == me
    ensures r.Ok? ==> |r.value| == Count(s.subscriptions, SubscriptionToChannel(Canon(channelId)))
    ensures r.Ok? ==> forall i :: 0 <= i < |r.value| && r.value[i].Some? ==>
      exists x :: x in s.subscriptions && x.channel == Canon(channelId) && x.subscriber == r.value[i].value.id
    ensures r.Ok? ==> forall i :: 0 <= i < |r.value| ==> r.value[i] == FindUser(s, SubscriberIds(s, Canon(channelId))[i])
  {
    if !ValidObjectId(channelId) then Err(BadRequest)
    else if channelId != me then Err(Forbidden)
    else
      var ids := SubscriberIds(s, Canon(channelId));
      var r := Populate(s, ids);
      assert forall i :: 0 <= i < |ids| ==> ids[i] in ids;
      Ok(r)
  }

  /** `getSubscribedChannels`: the id is not checked up front, so a
      malformed one fails the cast inside the `try`, whose `catch` answers
      404; otherwise the populated channels the user subscribes to. */
  function GetSubscribedChannels(s: Store, subscriberId: string): (r: Result<seq<Option<User>>>)
    ensures r.Err? <==> !ValidObjectId(subscriberId)
    ensures r.Err? ==> r.status == NotFound
    ensures r.Ok? ==> |r.value| == Count(s.subscriptions, SubscriptionBySubscriber(Canon(subscriberId)))
    ensures r.Ok? ==> forall i :: 0 <= i < |r.value| && r.value[i].Some? ==>
      exists x :: x in s.subscriptions && x.subscriber == Canon(subscriberId) && x.channel == r.value[i].value.id
    ensures r.Ok? ==> forall i :: 0 <= i < |r.value| ==> r.value[i] == FindUser(s, ChannelIds(s, Canon(subscriberId))[i])
  {
    if !ValidObjectId(subscriberId) then Err(NotFound)
    else
    var ids := ChannelIds(s, Canon(subscriberId));
    var r := Populate(s, ids);
    assert forall i :: 0 <= i < |ids| ==> ids[i] in ids;
    Ok(r)
  }

  /** A new subscription shows up at the end of the channel's subscribers,
      after the earlier entries, which stay as they were. */
  lemma SubscribeAppendsSubscriber(s: Store, me: Id, channelId: string, newId: Id)
    requires ValidObjectId(channelId) && Canon(channelId) != me
    requires Count(s.subscriptions, SubscriptionOf(me, Canon(channelId))) == 0
    ensures var c := Canon(channelId);
      SubscriberIds(ToggleSubscription(s, me, channelId, newId).store, c) == SubscriberIds(s, c) + [me]
  {
    var c := Canon(channelId);
    var x := Subscription(newId, me, c);
    assert ToggleSubscription(s, me, channelId, newId).store.subscriptions == s.subscriptions + [x];
    MapFilterSnoc(s.subscriptions, x, SubscriptionToChannel(c), (y: Subscription) => y.subscriber);
  }

  /** Likewise the subscriber's channels gain the channel at the end. */
  lemma SubscribeAppendsChannel(s: Store, me: Id, channelId: string, newId: Id)
    requires ValidObjectId(channelId) && Canon(channelId) != me
    requires Count(s.subscriptions, SubscriptionOf(me, Canon(channelId))) == 0
    ensures ChannelIds(ToggleSubscription(s, me, channelId, newId).store, me) == ChannelIds(s, me) + [Canon(channelId)]
  {
    var x := Subscription(newId, me, Canon(channelId));
    assert ToggleSubscription(s, me, channelId, newId).store.subscriptions == s.subscriptions + [x];
    MapFilterSnoc(s.subscriptions, x, SubscriptionBySubscriber(me), (y: Subscription) => y.channel);
  }
}

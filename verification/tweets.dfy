/** The tweet controller: creating, editing and deleting a tweet, and the two
    tweet listings with their like counts. */
module Tweets {
  import opened Base
  import opened Seqs
  import opened Entities

  /** `createTweet`: missing or empty content is rejected inside the `try`,
      whose `catch` answers 500; otherwise one tweet owned by the caller is
      appended. */
  function CreateTweet(s: Store, me: Id, content: string, newId: Id, now: int): (r: Reply<Tweet>)
    ensures content == "" ==> r == Reply(Err(ServerError), s)
    ensures content != "" ==> r.result == Ok(Tweet(newId, content, me, now))
    ensures content != "" ==> r.store == s.(tweets := s.tweets + [r.result.value])
  {
    if content == "" then Reply(Err(ServerError), s)
    else
      var t := Tweet(newId, content, me, now);
      Reply(Ok(t), s.(tweets := s.tweets + [t]))
  }

  /** One entry of `getUserTweets`: the tweet, its populated owner, its like
      count and its likers' names. */
  datatype UserTweet = UserTweet(tweet: Tweet, owner: Option<User>, numberOfLikes: nat, likedBy: seq<string>)

  function TweetEntry(s: Store, t: Tweet): (e: UserTweet)
    ensures e.tweet == t && e.owner == FindUser(s, t.owner)
    ensures e.numberOfLikes == Count(s.likes, LikeOnTweet(t.id)) && e.numberOfLikes == |e.likedBy|
    ensures forall i :: 0 <= i < |e.likedBy| ==> e.likedBy[i] == NameOf(s, Filter(s.likes, LikeOnTweet(t.id))[i].likedBy)
  {
    var likes := Filter(s.likes, LikeOnTweet(t.id));
    UserTweet(t, FindUser(s, t.owner), |likes|, Map(likes, (l: Like) => NameOf(s, l.likedBy)))
  }

  /** A like on one of `me`'s tweets whose liker is gone: reading
      `like.likedBy.fullName` on it throws. */
  function BrokenLike(s: Store, me: Id): Like -> bool {
    (l: Like) => l.tweet.Some? && Count(s.tweets, (t: Tweet) => t.id == l.tweet.value && t.owner == me) > 0 && FindUser(s, l.likedBy).None?
  }

  /** The entries for `ts`, in the same order. */
  function Entries(s: Store, ts: seq<Tweet>): (r: seq<UserTweet>)
    ensures |r| == |ts|
    ensures forall i :: 0 <= i < |ts| ==> r[i] == TweetEntry(s, ts[i])
    ensures Map(r, (e: UserTweet) => e.tweet) == ts
    ensures forall e :: e in r ==> e.tweet in ts && e == TweetEntry(s, e.tweet) && e.numberOfLikes == |e.likedBy|
  {
    Map(ts, (t: Tweet) => TweetEntry(s, t))
  }

  /** `getUserTweets`: the caller's tweets in store order, each with as many
      likes as likers' names. A like whose liker is gone makes the handler
      fail with 500. */
  function GetUserTweets(s: Store, me: Id): (r: Result<seq<UserTweet>>)
    ensures r.Err? <==> exists l, t :: l in s.likes && t in s.tweets && t.owner == me && l.tweet == Some(t.id) && FindUser(s, l.likedBy).None?
    ensures r.Err? ==> r.status == ServerError
    ensures r.Ok? ==> Map(r.value, (e: UserTweet) => e.tweet) == Filter(s.tweets, TweetOwnedBy(me))
    ensures r.Ok? ==> forall e, l :: e in r.value && l in s.likes && l.tweet == Some(e.tweet.id) ==> FindUser(s, l.likedBy).Some?
    ensures r.Ok? ==> r.value == Entries(s, Filter(s.tweets, TweetOwnedBy(me)))
  {
    var mine := Filter(s.tweets, TweetOwnedBy(me));
    if Count(s.likes, BrokenLike(s, me)) > 0 then
      var l :| l in s.likes && BrokenLike(s, me)(l);
      assert First(s.tweets, (t: Tweet) => t.id == l.tweet.value && t.owner == me).Some?;
      Err(ServerError)
    else
      Ok(Entries(s, mine))
  }

  /** The entry of a tweet depends only on the likes and the users. */
  lemma TweetEntryFrame(s: Store, s1: Store, t: Tweet)
    requires s1.likes == s.likes && s1.users == s.users
    ensures TweetEntry(s1, t) == TweetEntry(s, t)
  {
    assert FindUser(s1, t.owner) == FindUser(s, t.owner);
    var likes := Filter(s.likes, LikeOnTweet(t.id));
    forall i | 0 <= i < |likes| ensures NameOf(s1, likes[i].likedBy) == NameOf(s, likes[i].likedBy) {
      assert FindUser(s1, likes[i].likedBy) == FindUser(s, likes[i].likedBy);
    }
  }

  /** Creating a tweet no like targets adds no broken like. */
  lemma CreateKeepsLikesIntact(s: Store, me: Id, content: string, newId: Id, now: int)
    requires content != "" && GetUserTweets(s, me).Ok?
    requires forall l :: l in s.likes ==> l.tweet != Some(newId)
    ensures GetUserTweets(CreateTweet(s, me, content, newId, now).store, me).Ok?
  {
    var x := Tweet(newId, content, me, now);
    var t := CreateTweet(s, me, content, newId, now).store;
    forall l, y | l in t.likes && y in t.tweets && y.owner == me && l.tweet == Some(y.id) ensures FindUser(t, l.likedBy).Some? {
      assert y in s.tweets;
      assert FindUser(t, l.likedBy) == FindUser(s, l.likedBy);
    }
  }

  /** A freshly created tweet, which no like targets yet, is listed last among
      the caller's tweets, with no likes. */
  lemma CreatedTweetIsListed(s: Store, me: Id, content: string, newId: Id, now: int)
    requires content != "" && GetUserTweets(s, me).Ok?
    requires forall l :: l in s.likes ==> l.tweet != Some(newId)
    ensures var t := CreateTweet(s, me, content, newId, now).store;
      && GetUserTweets(t, me).Ok?
      && GetUserTweets(t, me).value == GetUserTweets(s, me).value + [UserTweet(Tweet(newId, content, me, now), FindUser(s, me), 0, [])]
  {
    var x := Tweet(newId, content, me, now);
    var t := CreateTweet(s, me, content, newId, now).store;
    CreateKeepsLikesIntact(s, me, content, newId, now);
    var mine := Filter(s.tweets, TweetOwnedBy(me));
    FilterConcat(s.tweets, [x], TweetOwnedBy(me));
    assert [x][1..] == [];
    assert Filter(t.tweets, TweetOwnedBy(me)) == mine + [x];
    EntriesSnoc(t, mine, x);
    EntriesFrame(s, t, mine);
    TweetEntryFrame(s, t, x);
    assert Count(s.likes, LikeOnTweet(newId)) == 0;
  }

  lemma EntriesSnoc(s: Store, ts: seq<Tweet>, x: Tweet)
    ensures Entries(s, ts + [x]) == Entries(s, ts) + [TweetEntry(s, x)]
  {
  }

  lemma EntriesFrame(s: Store, s1: Store, ts: seq<Tweet>)
    requires s1.likes == s.likes && s1.users == s.users
    ensures Entries(s1, ts) == Entries(s, ts)
  {
    forall i | 0 <= i < |ts| ensures Entries(s1, ts)[i] == Entries(s, ts)[i] {
      TweetEntryFrame(s, s1, ts[i]);
    }
  }

  /** `updateTweet`: the checks come in this order, each leaving the store as
      it was: missing content (400), malformed id (400), absent tweet (404),
      another user's tweet (403). Then only the content changes. */
  function UpdateTweet(s: Store, me: Id, tweetId: string, updatedContent: string): (r: Reply<Tweet>)
    ensures updatedContent == "" ==> r == Reply(Err(BadRequest), s)
    ensures updatedContent != "" && !ValidObjectId(tweetId) ==> r == Reply(Err(BadRequest), s)
    ensures updatedContent != "" && ValidObjectId(tweetId) && FindTweet(s, Canon(tweetId)).None? ==> r == Reply(Err(NotFound), s)
    ensures updatedContent != "" && ValidObjectId(tweetId) && FindTweet(s, Canon(tweetId)).Some? && FindTweet(s, Canon(tweetId)).value.owner != me ==>
      r == Reply(Err(Forbidden), s)
    ensures r.result.Ok? <==> updatedContent != "" && ValidObjectId(tweetId) && FindTweet(s, Canon(tweetId)).Some? && FindTweet(s, Canon(tweetId)).value.owner == me
    ensures r.result.Ok? ==> r.result.value == FindTweet(s, Canon(tweetId)).value.(content := updatedContent)
    ensures r.store == s.(tweets := r.store.tweets) && |r.store.tweets| == |s.tweets|
    ensures r.result.Ok? ==> forall i :: 0 <= i < |s.tweets| ==>
      r.store.tweets[i] == if s.tweets[i].id == Canon(tweetId) then s.tweets[i].(content := updatedContent) else s.tweets[i]
  {
    if updatedContent == "" then Reply(Err(BadRequest), s)
    else if !ValidObjectId(tweetId) then Reply(Err(BadRequest), s)
    else
      var id := Canon(tweetId);
      match FindTweet(s, id)
      case None => Reply(Err(NotFound), s)
      case Some(t) =>
        if t.owner != me then Reply(Err(Forbidden), s)
        else Reply(Ok(t.(content := updatedContent)), s.(tweets := Update(s.tweets, TweetIdIs(id), SetContent(updatedContent))))
  }

  function SetContent(content: string): Tweet -> Tweet { (t: Tweet) => t.(content := content) }

  /** Updating a tweet twice with the same content is the same as once. */
  lemma UpdateTweetTwice(s: Store, me: Id, tweetId: string, updatedContent: string)
    requires UpdateTweet(s, me, tweetId, updatedContent).result.Ok?
    ensures var t := UpdateTweet(s, me, tweetId, updatedContent).store;
      UpdateTweet(t, me, tweetId, updatedContent) == Reply(Ok(FindTweet(s, Canon(tweetId)).value.(content := updatedContent)), t)
  {
    var f := SetContent(updatedContent);
    FirstOfUpdate(s.tweets, TweetIdIs(Canon(tweetId)), f, TweetIdIs(Canon(tweetId)));
    UpdateIdempotent(s.tweets, TweetIdIs(Canon(tweetId)), f);
  }

  /** `deleteTweet`: every check sits inside the `try`, whose `catch` answers
      500, so a malformed id (a cast error), an absent tweet and another
      user's tweet all come out as 500 with nothing changed. Otherwise the
      likes on the tweet go first, then the tweet. */
  function DeleteTweet(s: Store, me: Id, tweetId: string): (r: Reply<()>)
    ensures r.result.Err? ==> r == Reply(Err(ServerError), s)
    ensures r.result.Ok? <==> ValidObjectId(tweetId) && FindTweet(s, Canon(tweetId)).Some? && FindTweet(s, Canon(tweetId)).value.owner == me
    ensures r.store == s.(likes := r.store.likes, tweets := r.store.tweets)
    ensures r.result.Ok? ==> forall l :: l in r.store.likes <==> l in s.likes && l.tweet != Some(Canon(tweetId))
    ensures r.result.Ok? ==> forall t :: t in r.store.tweets <==> t in s.tweets && t.id != Canon(tweetId)
  {
    if !ValidObjectId(tweetId) then Reply(Err(ServerError), s)
    else
      var id := Canon(tweetId);
      match FindTweet(s, id)
      case None => Reply(Err(ServerError), s)
      case Some(t) =>
        if t.owner != me then Reply(Err(ServerError), s)
        else
          var likes := Filter(s.likes, Not(LikeOnTweet(id)));
          Reply(Ok(()), s.(likes := likes, tweets := Filter(s.tweets, Not(TweetIdIs(id)))))
  }

  /** After a delete the tweet is gone and no like points at it, so a second
      delete fails. */
  lemma DeleteTweetTwice(s: Store, me: Id, tweetId: string)
    requires DeleteTweet(s, me, tweetId).result.Ok?
    ensures var t := DeleteTweet(s, me, tweetId).store;
      && FindTweet(t, Canon(tweetId)).None?
      && Count(t.likes, LikeOnTweet(Canon(tweetId))) == 0
      && DeleteTweet(t, me, tweetId) == Reply(Err(ServerError), t)
  {
  }

  /** One entry of `getAllTweets`: the tweet, its owner's name (when the
      owner exists), the number of likes, and the users who liked it. */
  datatype TweetListed = TweetListed(tweet: Tweet, ownerName: Option<string>, numberOfLikes: nat, likedBy: seq<User>)

  function LikedTweet(likers: seq<Id>): User -> bool { (u: User) => u.id in likers }

  function OwnerName(s: Store, owner: Id): (r: Option<string>)
    ensures r.None? <==> FindUser(s, owner).None?
    ensures r.Some? ==> r.value == FindUser(s, owner).value.fullName
  {
    match FindUser(s, owner)
    case None => None
    case Some(u) => Some(u.fullName)
  }

  function Listed(s: Store, t: Tweet): (e: TweetListed)
    ensures e.tweet == t && e.ownerName == OwnerName(s, t.owner)
    ensures e.numberOfLikes == Count(s.likes, LikeOnTweet(t.id))
    ensures forall u :: u in e.likedBy <==> u in s.users && exists l :: l in s.likes && l.tweet == Some(t.id) && l.likedBy == u.id
  {
    var likes := Filter(s.likes, LikeOnTweet(t.id));
    var ids := LikerIds(likes);
    assert forall id :: id in ids ==> exists i :: 0 <= i < |likes| && ids[i] == id && likes[i] in likes;
    assert forall l :: l in likes ==> exists i :: 0 <= i < |likes| && likes[i] == l && ids[i] == l.likedBy;
    TweetListed(t, OwnerName(s, t.owner), |likes|, Filter(s.users, LikedTweet(ids)))
  }

  /** `getAllTweets`: every tweet in store order. The count is of the likes
      themselves, while `likedBy` is looked up from the users, one entry per
      existing user however often they appear among the likers. */
  function GetAllTweets(s: Store): (r: Result<seq<TweetListed>>)
    ensures r.Ok?
    ensures Map(r.value, (e: TweetListed) => e.tweet) == s.tweets
    ensures forall e :: e in r.value ==> e == Listed(s, e.tweet)
  {
    var es := Map(s.tweets, (t: Tweet) => Listed(s, t));
    assert Map(es, (e: TweetListed) => e.tweet) == s.tweets;
    assert forall e :: e in es ==> exists i :: 0 <= i < |s.tweets| && e == es[i];
    Ok(es)
  }

  /** A new like on a tweet adds one to its count in the listing. */
  lemma NewTweetLikeIsCounted(s: Store, i: nat, l: Like)
    requires i < |s.tweets| && l.tweet == Some(s.tweets[i].id)
    ensures GetAllTweets(s.(likes := s.likes + [l])).value[i].numberOfLikes == GetAllTweets(s).value[i].numberOfLikes + 1
  {
    FilterConcat(s.likes, [l], LikeOnTweet(s.tweets[i].id));
    assert [l][1..] == [];
  }
}

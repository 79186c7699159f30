/** The comment controller: the two comment listings with their like counts,
    and adding, editing and deleting a comment. */
module Comments {
  import opened Base
  import opened Seqs
  import opened Entities

  /** The liker ids of the likes on a comment name exactly those likes'
      likers. */
  lemma LikerIdsOnComment(s: Store, commentId: Id)
    ensures var ids := LikerIds(Filter(s.likes, LikeOnComment(commentId)));
      && (forall id :: id in ids ==> exists l :: l in s.likes && l.comment == Some(commentId) && l.likedBy == id)
      && (forall l :: l in s.likes && l.comment == Some(commentId) ==> l.likedBy in ids)
      && ((forall l :: l in s.likes && l.comment == Some(commentId) ==> FindUser(s, l.likedBy).Some?) ==>
            forall i :: 0 <= i < |ids| ==> FindUser(s, ids[i]).Some?)
  {
    var ls := Filter(s.likes, LikeOnComment(commentId));
    var ids := LikerIds(ls);
    forall id | id in ids ensures exists l :: l in s.likes && l.comment == Some(commentId) && l.likedBy == id {
      var i :| 0 <= i < |ids| && ids[i] == id;
      assert ls[i] in ls;
    }
    forall l | l in s.likes && l.comment == Some(commentId) ensures l.likedBy in ids {
      assert l in ls;
      var i :| 0 <= i < |ls| && ls[i] == l;
      assert ids[i] == l.likedBy;
    }
    forall i | 0 <= i < |ids| ensures ls[i] in s.likes && ls[i].comment == Some(commentId) && ids[i] == ls[i].likedBy {
      assert ls[i] in ls;
    }
  }

  /** The users who liked a comment and still exist, in store order. */
  function CommentLikers(s: Store, commentId: Id): (r: seq<User>)
    ensures |r| <= Count(s.likes, LikeOnComment(commentId))
    ensures forall u :: u in r ==> u in s.users && exists l :: l in s.likes && l.comment == Some(commentId) && l.likedBy == u.id
    ensures forall l :: l in s.likes && l.comment == Some(commentId) && FindUser(s, l.likedBy).Some? ==> FindUser(s, l.likedBy).value in r
    ensures (forall l :: l in s.likes && l.comment == Some(commentId) ==> FindUser(s, l.likedBy).Some?) ==>
      |r| == Count(s.likes, LikeOnComment(commentId))
  {
    LikerIdsOnComment(s, commentId);
    ResolveUsers(s, LikerIds(Filter(s.likes, LikeOnComment(commentId))))
  }

  /** One entry of `getVideoComments`: the comment, its owner, the users who
      liked it, and their number. */
  datatype VideoComment = VideoComment(comment: Comment, owner: Option<User>, likedBy: seq<User>, numberOfLikes: nat)

  function Entry(s: Store, c: Comment): (e: VideoComment)
    ensures e.comment == c && e.owner == FindUser(s, c.owner)
    ensures e.likedBy == CommentLikers(s, c.id) && e.numberOfLikes == |e.likedBy|
  {
    var likers := CommentLikers(s, c.id);
    VideoComment(c, FindUser(s, c.owner), likers, |likers|)
  }

  function OwnerResolves(s: Store, video: Id): Comment -> bool {
    (c: Comment) => c.video == video && FindUser(s, c.owner).Some?
  }

  function Newest(): Comment -> int { (c: Comment) => -c.createdAt }

  /** Comments sorted on `Newest` come newest first. */
  function SortNewest(cs: seq<Comment>): (r: seq<Comment>)
    ensures forall i, j :: 0 <= i < j < |r| ==> r[i].createdAt >= r[j].createdAt
    ensures multiset(r) == multiset(cs)
    ensures forall c :: c in r <==> c in cs
  {
    var r := SortBy(cs, Newest());
    assert forall i, j :: 0 <= i < j < |r| ==> Newest()(r[i]) <= Newest()(r[j]);
    assert forall c :: c in r <==> c in multiset(r);
    assert forall c :: c in cs <==> c in multiset(cs);
    r
  }

  /** The entries built from a list of comments are those of its members. */
  lemma EntriesOf(s: Store, cs: seq<Comment>)
    ensures forall e :: e in Map(cs, (c: Comment) => Entry(s, c)) ==> e.comment in cs && e == Entry(s, e.comment)
    ensures forall c :: c in cs ==> Entry(s, c) in Map(cs, (c: Comment) => Entry(s, c))
  {
    var es := Map(cs, (c: Comment) => Entry(s, c));
    forall e | e in es ensures e.comment in cs && e == Entry(s, e.comment) {
      var i :| 0 <= i < |es| && es[i] == e;
      assert cs[i] in cs;
    }
    forall c | c in cs ensures Entry(s, c) in es {
      var i :| 0 <= i < |cs| && cs[i] == c;
      assert es[i] == Entry(s, c);
    }
  }

  /** `getVideoComments`, as one page holding every comment. The 400 for a
      malformed id and the 404 for an absent video are thrown inside the
      `try`, whose `catch` answers 500 for both. Comments whose owner is
      gone drop out of the `$unwind`, and so do likes whose liker is gone. */
  function GetVideoComments(s: Store, videoId: string): (r: Result<seq<VideoComment>>)
    ensures r.Err? <==> !ValidObjectId(videoId) || FindVideo(s, Canon(videoId)).None?
    ensures r.Err? ==> r.status == ServerError
    ensures r.Ok? ==> forall i, j :: 0 <= i < j < |r.value| ==> r.value[i].comment.createdAt >= r.value[j].comment.createdAt
    ensures r.Ok? ==> forall e :: e in r.value ==>
      && e.comment in s.comments && e.comment.video == Canon(videoId)
      && e.owner.Some? && e.owner == FindUser(s, e.comment.owner)
      && e.likedBy == CommentLikers(s, e.comment.id)
      && e.numberOfLikes == |e.likedBy|
    ensures r.Ok? ==> forall c :: c in s.comments && c.video == Canon(videoId) && FindUser(s, c.owner).Some? ==>
      Entry(s, c) in r.value
  {
    if !ValidObjectId(videoId) || FindVideo(s, Canon(videoId)).None? then Err(ServerError)
    else
      var cs := Filter(s.comments, OwnerResolves(s, Canon(videoId)));
      var sorted := SortNewest(cs);
      var es := Map(sorted, (c: Comment) => Entry(s, c));
      EntriesOf(s, sorted);
      Ok(es)
  }

  /** One entry of `getAllComments`: the comment with its video and owner
      populated, its like count and the names of its likers. */
  datatype CommentListed = CommentListed(comment: Comment, video: Option<Video>, owner: Option<User>, numberOfLikes: nat, likedBy: seq<string>)

  /** A like on one of the stored comments whose liker is gone: reading
      `like.likedBy.fullName` on it throws. */
  function BrokenLike(s: Store): Like -> bool {
    (l: Like) => l.comment.Some? && FindComment(s, l.comment.value).Some? && FindUser(s, l.likedBy).None?
  }

  function Listing(s: Store, c: Comment): (e: CommentListed)
    ensures e.comment == c && e.video == FindVideo(s, c.video) && e.owner == FindUser(s, c.owner)
    ensures e.numberOfLikes == Count(s.likes, LikeOnComment(c.id))
    ensures e.likedBy == Map(Filter(s.likes, LikeOnComment(c.id)), (l: Like) => NameOf(s, l.likedBy))
  {
    CommentListed(c, FindVideo(s, c.video), FindUser(s, c.owner), Count(s.likes, LikeOnComment(c.id)),
      Map(Filter(s.likes, LikeOnComment(c.id)), (l: Like) => NameOf(s, l.likedBy)))
  }

  /** The entries for `cs`, in the same order. */
  function Listings(s: Store, cs: seq<Comment>): (r: seq<CommentListed>)
    ensures Map(r, (e: CommentListed) => e.comment) == cs
    ensures forall e :: e in r ==> e.comment in cs && e == Listing(s, e.comment)
  {
    var r := Map(cs, (c: Comment) => Listing(s, c));
    assert forall e :: e in r ==> exists i :: 0 <= i < |cs| && e == r[i];
    r
  }

  /** `getAllComments`, as one page holding every comment, newest first. A
      like on a listed comment whose liker is gone makes the handler fail
      with 500. */
  function GetAllComments(s: Store): (r: Result<seq<CommentListed>>)
    ensures r.Err? <==> exists l :: l in s.likes && l.comment.Some? && FindComment(s, l.comment.value).Some? && FindUser(s, l.likedBy).None?
    ensures r.Err? ==> r.status == ServerError
    ensures r.Ok? ==> forall i, j :: 0 <= i < j < |r.value| ==> r.value[i].comment.createdAt >= r.value[j].comment.createdAt
    ensures r.Ok? ==> multiset(Map(r.value, (e: CommentListed) => e.comment)) == multiset(s.comments)
    ensures r.Ok? ==> forall e :: e in r.value ==> e == Listing(s, e.comment)
    ensures r.Ok? ==> forall e, l :: e in r.value && l in s.likes && l.comment == Some(e.comment.id) ==> FindUser(s, l.likedBy).Some?
  {
    if Count(s.likes, BrokenLike(s)) > 0 then
      assert exists l :: l in s.likes && BrokenLike(s)(l);
      Err(ServerError)
    else
      Ok(Listings(s, SortNewest(s.comments)))
  }

  /** When every liker of a listed comment exists, its count is the length of
      its likers' names. */
  lemma AllCommentsCountsLikers(s: Store)
    requires GetAllComments(s).Ok?
    ensures forall e :: e in GetAllComments(s).value ==> e.numberOfLikes == |e.likedBy|
  {
  }

  /** `addComment`: a malformed video id is a 400; otherwise a comment owned
      by the caller is appended, whether or not the video exists. */
  function AddComment(s: Store, me: Id, videoId: string, content: string, newId: Id, now: int): (r: Reply<Comment>)
    ensures !ValidObjectId(videoId) ==> r == Reply(Err(BadRequest), s)
    ensures ValidObjectId(videoId) ==> r.result == Ok(Comment(newId, content, Canon(videoId), me, now))
    ensures ValidObjectId(videoId) ==> r.store == s.(comments := s.comments + [r.result.value])
  {
    if !ValidObjectId(videoId) then Reply(Err(BadRequest), s)
    else
      var c := Comment(newId, content, Canon(videoId), me, now);
      Reply(Ok(c), s.(comments := s.comments + [c]))
  }

  /** A comment added by an existing user to an existing video shows up in
      that video's comments. */
  lemma AddedCommentIsListed(s: Store, me: Id, videoId: string, content: string, newId: Id, now: int)
    requires ValidObjectId(videoId) && FindVideo(s, Canon(videoId)).Some? && FindUser(s, me).Some?
    ensures var t := AddComment(s, me, videoId, content, newId, now).store;
      GetVideoComments(t, videoId).Ok? &&
      exists e :: e in GetVideoComments(t, videoId).value && e.comment == Comment(newId, content, Canon(videoId), me, now)
  {
    var t := AddComment(s, me, videoId, content, newId, now).store;
    assert t.videos == s.videos && t.users == s.users;
    assert FindVideo(t, Canon(videoId)) == FindVideo(s, Canon(videoId));
    assert FindUser(t, me) == FindUser(s, me);
    assert Comment(newId, content, Canon(videoId), me, now) in t.comments;
  }

  /** `$set: { content }`: a request without content leaves the comment as
      it was, since an undefined `$set` key is dropped from the update. */
  function SetContent(content: Option<string>): Comment -> Comment {
    (c: Comment) => if content.Some? then c.(content := content.value) else c
  }

  /** `updateComment`: a malformed id is a 400; an absent comment makes the
      ownership check read a field of `null`, which fails with 500 before the
      `try`; another user's comment is a 403. Otherwise the content the
      request carries replaces the comment's; without one, nothing changes
      and the comment is answered as it is. */
  function UpdateComment(s: Store, me: Id, commentId: string, content: Option<string>): (r: Reply<Comment>)
    ensures !ValidObjectId(commentId) ==> r == Reply(Err(BadRequest), s)
    ensures ValidObjectId(commentId) && FindComment(s, Canon(commentId)).None? ==> r == Reply(Err(ServerError), s)
    ensures ValidObjectId(commentId) && FindComment(s, Canon(commentId)).Some? && FindComment(s, Canon(commentId)).value.owner != me ==> r == Reply(Err(Forbidden), s)
    ensures r.result.Ok? <==> ValidObjectId(commentId) && FindComment(s, Canon(commentId)).Some? && FindComment(s, Canon(commentId)).value.owner == me
    ensures r.result.Ok? ==> r.result.value == FindComment(s, Canon(commentId)).value.(content := r.result.value.content)
    ensures r.result.Ok? && content.Some? ==> r.result.value.content == content.value
    ensures content.None? ==> r.store == s
    ensures content.None? && r.result.Ok? ==> r.result.value == FindComment(s, Canon(commentId)).value
    ensures r.store == s.(comments := r.store.comments) && |r.store.comments| == |s.comments|
    ensures r.result.Ok? && content.Some? ==> forall i :: 0 <= i < |s.comments| ==>
      r.store.comments[i] == if s.comments[i].id == Canon(commentId) then s.comments[i].(content := content.value) else s.comments[i]
  {
    if !ValidObjectId(commentId) then Reply(Err(BadRequest), s)
    else
      var id := Canon(commentId);
      match FindComment(s, id)
      case None => Reply(Err(ServerError), s)
      case Some(c) =>
        if c.owner != me then Reply(Err(Forbidden), s)
        else if content.None? then Reply(Ok(c), s)
        else Reply(Ok(SetContent(content)(c)), s.(comments := Update(s.comments, CommentIdIs(id), SetContent(content))))
  }

  /** Updating a comment twice with the same content is the same as once. */
  lemma UpdateCommentTwice(s: Store, me: Id, commentId: string, content: Option<string>)
    requires UpdateComment(s, me, commentId, content).result.Ok?
    ensures var t := UpdateComment(s, me, commentId, content).store;
      UpdateComment(t, me, commentId, content) == Reply(Ok(SetContent(content)(FindComment(s, Canon(commentId)).value)), t)
  {
    var f := SetContent(content);
    var t := UpdateComment(s, me, commentId, content).store;
    FirstOfUpdate(s.comments, CommentIdIs(Canon(commentId)), f, CommentIdIs(Canon(commentId)));
    UpdateIdempotent(s.comments, CommentIdIs(Canon(commentId)), f);
    assert FindComment(t, Canon(commentId)) == Some(f(FindComment(s, Canon(commentId)).value));
  }

  /** `deleteComment` as written: its ownership check reads `userId`, which
      the handler never declares (for an absent comment it reads a field of
      `null` first). Either way it fails with 500 for every well-formed id,
      before anything is deleted. */
  function DeleteCommentAsWritten(s: Store, me: Id, commentId: string): (r: Reply<()>)
    ensures !ValidObjectId(commentId) ==> r == Reply(Err(BadRequest), s)
    ensures ValidObjectId(commentId) ==> r == Reply(Err(ServerError), s)
  {
    if !ValidObjectId(commentId) then Reply(Err(BadRequest), s)
    else Reply(Err(ServerError), s)
  }

  /** `deleteComment` with the caller's id in the ownership check: the likes
      on the comment go first, then the comment. */
  function DeleteComment(s: Store, me: Id, commentId: string): (r: Reply<()>)
    ensures !ValidObjectId(commentId) ==> r == Reply(Err(BadRequest), s)
    ensures ValidObjectId(commentId) && FindComment(s, Canon(commentId)).None? ==> r == Reply(Err(ServerError), s)
    ensures ValidObjectId(commentId) && FindComment(s, Canon(commentId)).Some? && FindComment(s, Canon(commentId)).value.owner != me ==> r == Reply(Err(Forbidden), s)
    ensures r.result.Ok? <==> ValidObjectId(commentId) && FindComment(s, Canon(commentId)).Some? && FindComment(s, Canon(commentId)).value.owner == me
    ensures r.store == s.(likes := r.store.likes, comments := r.store.comments)
    ensures r.result.Ok? ==> forall l :: l in r.store.likes <==> l in s.likes && l.comment != Some(Canon(commentId))
    ensures r.result.Ok? ==> forall c :: c in r.store.comments <==> c in s.comments && c.id != Canon(commentId)
  {
    if !ValidObjectId(commentId) then Reply(Err(BadRequest), s)
    else
      var id := Canon(commentId);
      match FindComment(s, id)
      case None => Reply(Err(ServerError), s)
      case Some(c) =>
        if c.owner != me then Reply(Err(Forbidden), s)
        else
          var likes := Filter(s.likes, Not(LikeOnComment(id)));
          Reply(Ok(()), s.(likes := likes, comments := Filter(s.comments, Not(CommentIdIs(id)))))
  }

  /** Where the corrected handler deletes the owner's comment, the handler as
      written answers 500 and leaves the comment and its likes in place. */
  lemma DeleteCommentAsWrittenKeepsComment(s: Store, me: Id, commentId: string)
    requires DeleteComment(s, me, commentId).result.Ok?
    ensures DeleteCommentAsWritten(s, me, commentId).result == Err(ServerError)
    ensures FindComment(DeleteCommentAsWritten(s, me, commentId).store, Canon(commentId)).Some?
    ensures FindComment(DeleteComment(s, me, commentId).store, Canon(commentId)).None?
  {
  }

  /** Deleting a comment twice: the second call finds nothing and fails with
      500, changing nothing. */
  lemma DeleteCommentTwice(s: Store, me: Id, commentId: string)
    requires DeleteComment(s, me, commentId).result.Ok?
    ensures var t := DeleteComment(s, me, commentId).store;
      DeleteComment(t, me, commentId) == Reply(Err(ServerError), t)
  {
  }
}

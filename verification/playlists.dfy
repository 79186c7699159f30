/** The playlist controller: creation, the two readers, and the four
    owner-only edits. The up-front id checks only log; a malformed id then
    fails the cast in the first store call that uses it, which answers 500
    whether or not that call sits inside a `try`. */
module Playlists {
  import opened Base
  import opened Seqs
  import opened Entities

  /** A playlist with its videos populated. */
  datatype PlaylistView = PlaylistView(playlist: Playlist, videos: seq<Video>)

  function View(s: Store, p: Playlist): (r: PlaylistView)
    ensures r.playlist == p && r.videos == ResolveVideos(s, p.videos)
  {
    PlaylistView(p, ResolveVideos(s, p.videos))
  }

  /** `createPlaylist`: always creates an empty playlist owned by the caller,
      whatever the name and description. */
  function CreatePlaylist(s: Store, me: Id, name: string, description: string, newId: Id): (r: Reply<Playlist>)
    ensures r.result == Ok(Playlist(newId, name, description, me, []))
    ensures r.store == s.(playlists := s.playlists + [r.result.value])
  {
    var p := Playlist(newId, name, description, me, []);
    Reply(Ok(p), s.(playlists := s.playlists + [p]))
  }

  /** `getUserPlaylists`: a malformed user id fails the cast inside the `try`
      and comes out as 500; otherwise the playlists the user owns, in store
      order, with their videos. */
  function GetUserPlaylists(s: Store, userId: string): (r: Result<seq<PlaylistView>>)
    ensures r.Err? <==> !ValidObjectId(userId)
    ensures r.Err? ==> r.status == ServerError
    ensures r.Ok? ==> |r.value| == Count(s.playlists, PlaylistOwnedBy(Canon(userId)))
    ensures r.Ok? ==> forall i :: 0 <= i < |r.value| ==> r.value[i].playlist in s.playlists && r.value[i].playlist.owner == Canon(userId)
    ensures r.Ok? ==> forall p :: p in s.playlists && p.owner == Canon(userId) ==> exists i :: 0 <= i < |r.value| && r.value[i].playlist == p
    ensures r.Ok? ==> forall i :: 0 <= i < |r.value| ==> r.value[i].videos == ResolveVideos(s, r.value[i].playlist.videos)
  {
    if !ValidObjectId(userId) then Err(ServerError)
    else
      var mine := Filter(s.playlists, PlaylistOwnedBy(Canon(userId)));
      var r := Map(mine, (p: Playlist) => View(s, p));
      assert forall i :: 0 <= i < |mine| ==> mine[i] in mine;
      assert forall p :: p in mine ==> exists i :: 0 <= i < |mine| && mine[i] == p;
      Ok(r)
  }

  /** `getPlaylistById`: a malformed id fails the cast and an absent playlist
      throws 404, both inside the `try`, so both come out as 500. */
  function GetPlaylistById(s: Store, playlistId: string): (r: Result<PlaylistView>)
    ensures !ValidObjectId(playlistId) || FindPlaylist(s, Canon(playlistId)).None? <==> r == Err(ServerError)
    ensures r.Ok? ==> r.value.playlist in s.playlists && r.value.playlist.id == Canon(playlistId)
    ensures r.Ok? ==> r.value.videos == ResolveVideos(s, r.value.playlist.videos)
  {
    if !ValidObjectId(playlistId) then Err(ServerError)
    else
      match FindPlaylist(s, Canon(playlistId))
      case None => Err(ServerError)
      case Some(p) => Ok(View(s, p))
  }

  /** The checks shared by the four edits, made before their `try`: a
      malformed id fails the cast of the owner lookup (500), an absent
      playlist is a 404 and one the caller does not own a 403. */
  function EditRefusal(s: Store, me: Id, playlistId: string): (r: Option<int>)
    ensures !ValidObjectId(playlistId) ==> r == Some(ServerError)
    ensures ValidObjectId(playlistId) && FindPlaylist(s, Canon(playlistId)).None? ==> r == Some(NotFound)
    ensures ValidObjectId(playlistId) && FindPlaylist(s, Canon(playlistId)).Some? && FindPlaylist(s, Canon(playlistId)).value.owner != me ==> r == Some(Forbidden)
    ensures r.None? <==> ValidObjectId(playlistId) && FindPlaylist(s, Canon(playlistId)).Some? && FindPlaylist(s, Canon(playlistId)).value.owner == me
  {
    if !ValidObjectId(playlistId) then Some(ServerError)
    else
      match FindPlaylist(s, Canon(playlistId))
      case None => Some(NotFound)
      case Some(p) => if p.owner != me then Some(Forbidden) else None
  }

  function AddVideo(videoId: Id): Playlist -> Playlist { (p: Playlist) => p.(videos := AddToSet(p.videos, videoId)) }
  function RemoveVideo(videoId: Id): Playlist -> Playlist { (p: Playlist) => p.(videos := Pull(p.videos, videoId)) }

  /** `$set: { name, description }`: a field the request leaves out is
      dropped from the update and keeps its value. */
  function Rename(name: Option<string>, description: Option<string>): Playlist -> Playlist {
    (p: Playlist) => p.(name := if name.Some? then name.value else p.name,
                        description := if description.Some? then description.value else p.description)
  }

  /** `findByIdAndUpdate` on a playlist, answering the updated document. */
  function EditPlaylist(s: Store, playlistId: Id, f: Playlist -> Playlist): (r: Reply<Playlist>)
    requires FindPlaylist(s, playlistId).Some?
    requires forall p :: f(p).id == p.id
    ensures r.result == Ok(f(FindPlaylist(s, playlistId).value))
    ensures r.store == s.(playlists := Update(s.playlists, PlaylistIdIs(playlistId), f))
    ensures r.store == s.(playlists := r.store.playlists) && |r.store.playlists| == |s.playlists|
    ensures forall i :: 0 <= i < |s.playlists| ==>
      r.store.playlists[i] == if s.playlists[i].id == playlistId then f(s.playlists[i]) else s.playlists[i]
  {
    FirstOfUpdate(s.playlists, PlaylistIdIs(playlistId), f, PlaylistIdIs(playlistId));
    var ps := Update(s.playlists, PlaylistIdIs(playlistId), f);
    Reply(Ok(f(FindPlaylist(s, playlistId).value)), s.(playlists := ps))
  }

  /** `addVideoToPlaylist`: after the shared checks, a malformed video id
      fails the cast of the update inside the `try` (500, nothing changes);
      otherwise the video is appended unless the playlist already lists it.
      The video id is not checked against the videos. */
  function AddVideoToPlaylist(s: Store, me: Id, playlistId: string, videoId: string): (r: Reply<Playlist>)
    ensures EditRefusal(s, me, playlistId).Some? ==> r == Reply(Err(EditRefusal(s, me, playlistId).value), s)
    ensures EditRefusal(s, me, playlistId).None? && !ValidObjectId(videoId) ==> r == Reply(Err(ServerError), s)
    ensures r.result.Ok? <==> EditRefusal(s, me, playlistId).None? && ValidObjectId(videoId)
    ensures r.result.Ok? ==> r.store == s.(playlists := r.store.playlists) && |r.store.playlists| == |s.playlists|
    ensures r.result.Ok? ==> forall i :: 0 <= i < |s.playlists| ==>
      r.store.playlists[i] ==
        if s.playlists[i].id == Canon(playlistId) then s.playlists[i].(videos := AddToSet(s.playlists[i].videos, Canon(videoId)))
        else s.playlists[i]
  {
    match EditRefusal(s, me, playlistId)
    case Some(code) => Reply(Err(code), s)
    case None =>
      if !ValidObjectId(videoId) then Reply(Err(ServerError), s)
      else EditPlaylist(s, Canon(playlistId), AddVideo(Canon(videoId)))
  }

  /** `removeVideoFromPlaylist`: shaped like the add; every occurrence of the
      video goes. */
  function RemoveVideoFromPlaylist(s: Store, me: Id, playlistId: string, videoId: string): (r: Reply<Playlist>)
    ensures EditRefusal(s, me, playlistId).Some? ==> r == Reply(Err(EditRefusal(s, me, playlistId).value), s)
    ensures EditRefusal(s, me, playlistId).None? && !ValidObjectId(videoId) ==> r == Reply(Err(ServerError), s)
    ensures r.result.Ok? <==> EditRefusal(s, me, playlistId).None? && ValidObjectId(videoId)
    ensures r.result.Ok? ==> r.store == s.(playlists := r.store.playlists) && |r.store.playlists| == |s.playlists|
    ensures r.result.Ok? ==> forall i :: 0 <= i < |s.playlists| ==>
      r.store.playlists[i] ==
        if s.playlists[i].id == Canon(playlistId) then s.playlists[i].(videos := Pull(s.playlists[i].videos, Canon(videoId)))
        else s.playlists[i]
  {
    match EditRefusal(s, me, playlistId)
    case Some(code) => Reply(Err(code), s)
    case None =>
      if !ValidObjectId(videoId) then Reply(Err(ServerError), s)
      else EditPlaylist(s, Canon(playlistId), RemoveVideo(Canon(videoId)))
  }

  /** `updatePlaylist`: sets the name and the description the request
      carries; a field it leaves out, the owner and the videos stay. */
  function UpdatePlaylist(s: Store, me: Id, playlistId: string, name: Option<string>, description: Option<string>): (r: Reply<Playlist>)
    ensures EditRefusal(s, me, playlistId).Some? ==> r == Reply(Err(EditRefusal(s, me, playlistId).value), s)
    ensures r.result.Ok? <==> EditRefusal(s, me, playlistId).None?
    ensures r.result.Ok? ==> r.store == s.(playlists := r.store.playlists) && |r.store.playlists| == |s.playlists|
    ensures r.result.Ok? ==> forall i :: 0 <= i < |s.playlists| ==>
      && r.store.playlists[i].id == s.playlists[i].id
      && r.store.playlists[i].owner == s.playlists[i].owner
      && r.store.playlists[i].videos == s.playlists[i].videos
      && (s.playlists[i].id == Canon(playlistId) ==>
            && r.store.playlists[i].name == (if name.Some? then name.value else s.playlists[i].name)
            && r.store.playlists[i].description == (if description.Some? then description.value else s.playlists[i].description))
      && (s.playlists[i].id != Canon(playlistId) ==> r.store.playlists[i] == s.playlists[i])
  {
    match EditRefusal(s, me, playlistId)
    case Some(code) => Reply(Err(code), s)
    case None => EditPlaylist(s, Canon(playlistId), Rename(name, description))
  }

  /** `deletePlaylist`: removes the playlist record and nothing else; the
      videos it lists stay. */
  function DeletePlaylist(s: Store, me: Id, playlistId: string): (r: Reply<()>)
    ensures EditRefusal(s, me, playlistId).Some? ==> r == Reply(Err(EditRefusal(s, me, playlistId).value), s)
    ensures r.result.Ok? <==> EditRefusal(s, me, playlistId).None?
    ensures r.result.Ok? ==> r.store == s.(playlists := r.store.playlists)
    ensures r.result.Ok? ==> forall p :: p in r.store.playlists <==> p in s.playlists && p.id != Canon(playlistId)
  {
    match EditRefusal(s, me, playlistId)
    case Some(code) => Reply(Err(code), s)
    case None => Reply(Ok(()), s.(playlists := Filter(s.playlists, Not(PlaylistIdIs(Canon(playlistId))))))
  }

  /** An edit keeps the playlist and its owner findable, so a second edit by
      the same caller passes the same checks. */
  lemma EditKeepsRefusal(s: Store, me: Id, playlistId: string, f: Playlist -> Playlist)
    requires ValidObjectId(playlistId) && FindPlaylist(s, Canon(playlistId)).Some?
    requires forall p :: f(p).id == p.id && f(p).owner == p.owner
    ensures var t := EditPlaylist(s, Canon(playlistId), f).store;
      EditRefusal(t, me, playlistId) == EditRefusal(s, me, playlistId)
  {
    var id := Canon(playlistId);
    var p := FindPlaylist(s, id).value;
    var ps := Update(s.playlists, PlaylistIdIs(id), f);
    FirstOfUpdate(s.playlists, PlaylistIdIs(id), f, PlaylistIdIs(id));
    assert First(ps, PlaylistIdIs(id)) == Some(f(p));
    assert f(p).owner == p.owner;
  }

  /** Adding a video a second time changes nothing. */
  lemma AddVideoTwice(s: Store, me: Id, playlistId: string, videoId: string)
    requires AddVideoToPlaylist(s, me, playlistId, videoId).result.Ok?
    ensures var t := AddVideoToPlaylist(s, me, playlistId, videoId).store;
      AddVideoToPlaylist(t, me, playlistId, videoId).store == t
  {
    var id := Canon(playlistId);
    var v := Canon(videoId);
    var f := AddVideo(v);
    var t := EditPlaylist(s, id, f).store;
    EditKeepsRefusal(s, me, playlistId, f);
    forall x: Playlist ensures f(f(x)) == f(x) {
      AddToSetTwice(x.videos, v);
    }
    UpdateIdempotent(s.playlists, PlaylistIdIs(id), f);
    assert EditPlaylist(t, id, f).store == t;
  }

  /** Adding a video that the playlist did not list and then removing it
      gives back the original store. */
  lemma AddThenRemoveRestores(s: Store, me: Id, playlistId: string, videoId: string)
    requires AddVideoToPlaylist(s, me, playlistId, videoId).result.Ok?
    requires forall p :: p in s.playlists && p.id == Canon(playlistId) ==> Canon(videoId) !in p.videos
    ensures var t := AddVideoToPlaylist(s, me, playlistId, videoId).store;
      RemoveVideoFromPlaylist(t, me, playlistId, videoId).store == s
  {
    var id := Canon(playlistId);
    var v := Canon(videoId);
    var f := AddVideo(v);
    var g := RemoveVideo(v);
    var t := EditPlaylist(s, id, f).store;
    EditKeepsRefusal(s, me, playlistId, f);
    forall x | x in s.playlists && PlaylistIdIs(id)(x) ensures g(f(x)) == x {
      AddThenPull(x.videos, v);
    }
    UpdateUndone(s.playlists, PlaylistIdIs(id), f, g);
    assert EditPlaylist(t, id, g).store == s;
  }

  /** Removing a video keeps the other entries of the playlist in their
      order: when the playlist lists `before` then `after`, the answer lists
      what is left of each, in turn. */
  lemma RemoveKeepsOrder(s: Store, me: Id, playlistId: string, videoId: string, before: seq<Id>, after: seq<Id>)
    requires RemoveVideoFromPlaylist(s, me, playlistId, videoId).result.Ok?
    requires FindPlaylist(s, Canon(playlistId)).value.videos == before + after
    ensures RemoveVideoFromPlaylist(s, me, playlistId, videoId).result.value.videos
      == Pull(before, Canon(videoId)) + Pull(after, Canon(videoId))
  {
    PullConcat(before, after, Canon(videoId));
  }

  /** A playlist the caller creates shows up, empty, among the caller's
      playlists, and the caller now has one playlist more. */
  lemma CreatedPlaylistIsListed(s: Store, me: Id, name: string, description: string, newId: Id)
    requires ValidObjectId(me) && forall i :: 0 <= i < |me| ==> IsLowerHexDigit(me[i])
    ensures var t := CreatePlaylist(s, me, name, description, newId).store;
      && GetUserPlaylists(t, me).Ok?
      && |GetUserPlaylists(t, me).value| == Count(s.playlists, PlaylistOwnedBy(me)) + 1
      && PlaylistView(Playlist(newId, name, description, me, []), []) in GetUserPlaylists(t, me).value
  {
    CanonOfLower(me);
    var p := Playlist(newId, name, description, me, []);
    var t := CreatePlaylist(s, me, name, description, newId).store;
    FilterConcat(s.playlists, [p], PlaylistOwnedBy(me));
    assert [p][1..] == [];
    assert p in t.playlists;
  }
}

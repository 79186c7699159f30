/** The two media helpers: the guard in front of an upload, and the destroy
    request built from a stored media URL (its public id and resource type).
    The media service itself is a parameter or is left out. */
module Cloudinary {
  import opened Base

  /** `url.split("/").pop()`: everything after the last '/', or the whole
      string when it has none. */
  function LastSegment(url: string): (r: string)
    ensures '/' !in r
    ensures |r| <= |url| && r == url[|url| - |r|..]
    ensures |r| < |url| ==> url[|url| - |r| - 1] == '/'
  {
    if |url| == 0 then ""
    else if url[|url| - 1] == '/' then ""
    else
      var init := LastSegment(url[..|url| - 1]);
      assert url[..|url| - 1][|url| - 1 - |init|..] == url[|url| - 1 - |init|..|url| - 1];
      init + [url[|url| - 1]]
  }

  /** `segment.split(".")[0]`: everything before the first '.', or the whole
      string when it has none. */
  function BeforeFirstDot(segment: string): (r: string)
    ensures '.' !in r
    ensures |r| <= |segment| && r == segment[..|r|]
    ensures |r| < |segment| ==> segment[|r|] == '.'
  {
    if |segment| == 0 then ""
    else if segment[0] == '.' then ""
    else
      var rest := BeforeFirstDot(segment[1..]);
      [segment[0]] + rest
  }

  /** The public id of the asset a URL names. */
  function PublicId(url: string): (r: string)
    ensures '/' !in r && '.' !in r
    ensures |r| <= |LastSegment(url)| && r == LastSegment(url)[..|r|]
  {
    BeforeFirstDot(LastSegment(url))
  }

  /** The last segment is fixed by its three properties: no '/', a suffix,
      and preceded by '/' unless it is the whole string. */
  lemma {:induction false} LastSegmentUnique(url: string, seg: string)
    requires '/' !in seg
    requires |seg| <= |url| && seg == url[|url| - |seg|..]
    requires |seg| < |url| ==> url[|url| - |seg| - 1] == '/'
    ensures LastSegment(url) == seg
  {
    var r := LastSegment(url);
    assert |r| == |seg|;
  }

  /** The text before the first dot is fixed in the same way. */
  lemma {:induction false} BeforeFirstDotUnique(segment: string, pre: string)
    requires '.' !in pre
    requires |pre| <= |segment| && pre == segment[..|pre|]
    requires |pre| < |segment| ==> segment[|pre|] == '.'
    ensures BeforeFirstDot(segment) == pre
  {
    var r := BeforeFirstDot(segment);
    assert |r| == |pre|;
  }

  /** A URL of the usual shape `<base>/<id>.<extension>` yields `id`. */
  lemma PublicIdOfAssetUrl(base: string, id: string, extension: string)
    requires '/' !in id && '.' !in id && '/' !in extension
    ensures PublicId(base + "/" + id + "." + extension) == id
  {
    var url := base + "/" + id + "." + extension;
    var seg := id + "." + extension;
    assert url == (base + "/") + seg;
    assert url[|url| - |seg|..] == seg;
    assert url[|url| - |seg| - 1] == '/';
    assert '/' !in seg by {
      assert forall i :: 0 <= i < |seg| ==> seg[i] == (if i < |id| then id[i] else if i == |id| then '.' else extension[i - |id| - 1]);
    }
    LastSegmentUnique(url, seg);
    assert seg[..|id|] == id;
    BeforeFirstDotUnique(seg, id);
  }

  /** A URL whose last segment has no dot yields that whole segment. */
  lemma PublicIdWithoutExtension(base: string, id: string)
    requires '/' !in id && '.' !in id
    ensures PublicId(base + "/" + id) == id
  {
    var url := base + "/" + id;
    assert url[|url| - |id|..] == id;
    if |id| < |url| {
      assert url[|url| - |id| - 1] == '/';
    }
    LastSegmentUnique(url, id);
    assert id[..|id|] == id;
    BeforeFirstDotUnique(id, id);
  }

  /** The resource type passed to `destroy`. */
  function ResourceType(isVideo: bool): (r: string)
    ensures r == "video" <==> isVideo
    ensures r == "image" <==> !isVideo
  {
    if isVideo then "video" else "image"
  }

  /** A request to the media service to destroy one asset. */
  datatype Destroy = Destroy(publicId: string, resourceType: string)

  /** `deleteFileFromCloudinary`: nothing is requested for an absent or empty
      URL; otherwise the asset named by the URL's public id is destroyed. */
  function DeleteFile(url: Option<string>, isVideo: bool): (r: Option<Destroy>)
    ensures r.None? <==> url.None? || url.value == ""
    ensures r.Some? ==> r.value.publicId == PublicId(url.value)
    ensures r.Some? ==> (r.value.resourceType == "video" <==> isVideo)
  {
    match url
    case None => None
    case Some(u) => if u == "" then None else Some(Destroy(PublicId(u), ResourceType(isVideo)))
  }

  /** The destroy requests of a sequence of optional requests, in order. */
  function Requests(rs: seq<Option<Destroy>>): (r: seq<Destroy>)
    ensures |r| <= |rs|
    ensures forall d :: d in r <==> Some(d) in rs
  {
    if |rs| == 0 then []
    else
      var rest := Requests(rs[1..]);
      assert forall d :: Some(d) in rs <==> rs[0] == Some(d) || Some(d) in rs[1..];
      match rs[0]
      case None => rest
      case Some(d) => [d] + rest
  }

  /** `uploadOnCloudinary`, with the media service as the function `service`
      from a local path to the URL of the stored asset (or nothing on
      failure). Answers the URL and the paths actually sent to the service. */
  function Upload(localPath: Option<string>, service: string -> Option<string>): (r: (Option<string>, seq<string>))
    ensures localPath.None? || localPath.value == "" ==> r == (None, [])
    ensures localPath.Some? && localPath.value != "" ==> r == (service(localPath.value), [localPath.value])
  {
    match localPath
    case None => (None, [])
    case Some(p) => if p == "" then (None, []) else (service(p), [p])
  }
}

/** How a post's attachments are shown: the play link and the game id it
    names, the kind of each attachment, and the width of the media grid. */
module PostAttachment {
  import opened Common
  import opened Airtable
  import CreatePost

  /** An attachment as the renderer reads it: `type || contentType` ("" when
      both are missing), the file name ("" when missing), the url (None when it
      is not a string) and the path of `new URL(url, 'https://dummy')` (None
      when that throws) */
  datatype AttachmentView = AttachmentView(
    mimeType: string, filename: string, url: Option<string>, pathname: Option<string>)

  /** attachments.find(a => (a?.type || a?.contentType || "").startsWith("text/")) */
  function FirstText(atts: seq<AttachmentView>): (r: Option<AttachmentView>)
    ensures r.Some? ==> r.value in atts && StartsWith(r.value.mimeType, "text/")
    ensures r.None? ==> forall a :: a in atts ==> !StartsWith(a.mimeType, "text/")
  {
    if atts == [] then None
    else if StartsWith(atts[0].mimeType, "text/") then Some(atts[0])
    else FirstText(atts[1..])
  }

  /** playHref: the trimmed PlayLink when it is a non-blank string, otherwise
      the url of the first text attachment when that url is a string */
  function PlayHref(playLink: JsValue, attachments: Option<seq<AttachmentView>>): Option<string>
  {
    if playLink.Str? && Trim(playLink.s) != "" then Some(Trim(playLink.s))
    else if attachments.None? then None
    else match FirstText(attachments.value)
      case None => None
      case Some(a) => a.url
  }

  /** The link stored on the post wins over any attachment; without one, the
      first text attachment decides, even when its url is not a string. */
  lemma PlayHrefPrefersPlayLink(playLink: JsValue, attachments: Option<seq<AttachmentView>>)
    ensures playLink.Str? && Trim(playLink.s) != "" ==> PlayHref(playLink, attachments) == Some(Trim(playLink.s))
    ensures PlayHref(playLink, attachments).Some? && !(playLink.Str? && Trim(playLink.s) != "") ==>
      attachments.Some? && FirstText(attachments.value).Some?
      && PlayHref(playLink, attachments) == FirstText(attachments.value).value.url
  {
  }

  predicate IsSegmentEnd(c: char)
  {
    c == '/' || c == '?' || c == '#'
  }

  predicate NoSegmentEnd(s: string)
  {
    forall i :: 0 <= i < |s| ==> !IsSegmentEnd(s[i])
  }

  /** The longest prefix without '/', '?' or '#' */
  function SegmentRun(s: string): (r: string)
    ensures |r| <= |s| && r == s[..|r|] && NoSegmentEnd(r)
    ensures |r| < |s| ==> IsSegmentEnd(s[|r|])
  {
    if s == [] || IsSegmentEnd(s[0]) then [] else [s[0]] + SegmentRun(s[1..])
  }

  /** /\/play\/([^\/?#]+)/.exec(path)[1]: the leftmost "/play/" followed by at
      least one segment character, and the run of such characters after it */
  function PlayMatch(path: string): Option<string>
    decreases |path|
  {
    if |path| < 7 then None
    else if StartsWith(path, "/play/") && !IsSegmentEnd(path[6]) then Some(SegmentRun(path[6..]))
    else PlayMatch(path[1..])
  }

  /** `s` occurs in `path` at position i */
  predicate OccursAt(path: string, i: int, s: string)
  {
    0 <= i && i + |s| <= |path| && path[i..i + |s|] == s
  }

  /** What the pattern captures is a non-empty segment that follows "/play/"
      in the path. */
  lemma {:induction false} PlayMatchSound(path: string)
    ensures PlayMatch(path).Some? ==>
      && PlayMatch(path).value != ""
      && NoSegmentEnd(PlayMatch(path).value)
      && exists i :: OccursAt(path, i, "/play/" + PlayMatch(path).value)
    decreases |path|
  {
    if |path| >= 7 {
      if StartsWith(path, "/play/") && !IsSegmentEnd(path[6]) {
        var seg := SegmentRun(path[6..]);
        assert path[6..][0] == path[6];
        assert path[0..6 + |seg|] == "/play/" + seg;
        assert OccursAt(path, 0, "/play/" + seg);
      } else {
        PlayMatchSound(path[1..]);
        var m := PlayMatch(path[1..]);
        if m.Some? {
          var i :| OccursAt(path[1..], i, "/play/" + m.value);
          OccursShift(path, i, "/play/" + m.value);
        }
      }
    }
  }

  /** An occurrence in the path after its first character is one in the
      path, one place further on. */
  lemma OccursShift(path: string, i: int, s: string)
    requires |path| >= 1 && OccursAt(path[1..], i, s)
    ensures OccursAt(path, i + 1, s)
  {
    forall k | 0 <= k < |s|
      ensures path[i + 1..i + 1 + |s|][k] == s[k]
    {
      assert path[1..][i..i + |s|][k] == s[k];
    }
  }

  /** A path that starts with "/play/" and a game id reads back that id. */
  lemma PlayMatchFindsId(id: string, rest: string)
    requires id != "" && NoSegmentEnd(id)
    requires rest == "" || IsSegmentEnd(rest[0])
    ensures PlayMatch("/play/" + id + rest) == Some(id)
  {
    var path := "/play/" + id + rest;
    assert path[..6] == "/play/";
    assert path[6] == id[0];
    assert path[6..] == id + rest;
    SegmentRunStops(id, rest);
  }

  lemma {:induction false} SegmentRunStops(id: string, rest: string)
    requires NoSegmentEnd(id)
    requires rest == "" || IsSegmentEnd(rest[0])
    ensures SegmentRun(id + rest) == id
    decreases |id|
  {
    if id == [] {
      assert id + rest == rest;
    } else {
      assert (id + rest)[1..] == id[1..] + rest;
      SegmentRunStops(id[1..], rest);
    }
  }

  /** gameId: the decoded capture in the play link's path ("" without a link,
      without a match, or when `new URL` or decodeURIComponent throws, each
      given here as None); a link starting with "http" is parsed for its
      path (`hrefPathname`), any other is matched as it is. */
  function GameId(href: Option<string>, hrefPathname: Option<string>, decode: string -> Option<string>): (r: string)
    ensures href.None? || href.value == "" ==> r == ""
  {
    if href.None? || href.value == "" then ""
    else
      var path := if StartsWith(href.value, "http") then hrefPathname else Some(href.value);
      if path.None? then ""
      else match PlayMatch(path.value)
        case None => ""
        case Some(segment) => (match decode(segment) case None => "" case Some(id) => id)
  }

  /** A relative play link "/play/<id>" (with or without a query, fragment
      or further path) gives the decoded id, whatever the URL parser says. */
  lemma GameIdReadsPlayPath(id: string, rest: string, hrefPathname: Option<string>, decode: string -> Option<string>)
    requires id != "" && NoSegmentEnd(id)
    requires rest == "" || IsSegmentEnd(rest[0])
    ensures decode(id).Some? ==> GameId(Some("/play/" + id + rest), hrefPathname, decode) == decode(id).value
    ensures decode(id).None? ==> GameId(Some("/play/" + id + rest), hrefPathname, decode) == ""
  {
    PlayMatchFindsId(id, rest);
    var href := "/play/" + id + rest;
    assert href[0] == '/';
    assert !StartsWith(href, "http");
  }

  // ---------------------------------------------------------------------------
  // Attachment kinds

  datatype Kind = Image | Video | Audio | Other

  /** The extension classifyKind uses: after the last '.' of a dotted file
      name, otherwise after the last '.' of the url's path (for a truthy url
      that parses), lower-cased; "" when there is none */
  function ExtOf(att: AttachmentView): string
  {
    if '.' in att.filename then Lower(CreatePost.LastPiece(att.filename, '.'))
    else if att.url.Some? && att.url.value != "" && att.pathname.Some? && '.' in att.pathname.value then
      Lower(CreatePost.LastPiece(att.pathname.value, '.'))
    else ""
  }

  /** classifyKind, with its second round of extension tests for generic
      types */
  function ClassifyKind(att: AttachmentView): Kind
  {
    var raw := Lower(att.mimeType);
    var ext := ExtOf(att);
    if StartsWith(raw, "image/") || CreatePost.ImageExt(ext) then Image
    else if StartsWith(raw, "video/") || CreatePost.VideoExt(ext) then Video
    else if StartsWith(raw, "audio/") || CreatePost.AudioExt(ext) then Audio
    else if raw == "application/octet-stream" || raw == "" then
      if CreatePost.ImageExt(ext) then Image
      else if CreatePost.VideoExt(ext) then Video
      else if CreatePost.AudioExt(ext) then Audio
      else Other
    else Other
  }

  /** The kind is decided by the type or the extension, image before video
      before audio; the second round for generic types never changes it. */
  lemma KindByTypeOrExtension(att: AttachmentView)
    ensures var raw, ext := Lower(att.mimeType), ExtOf(att);
      && (ClassifyKind(att) == Image <==> StartsWith(raw, "image/") || CreatePost.ImageExt(ext))
      && (ClassifyKind(att) == Video <==>
            !(StartsWith(raw, "image/") || CreatePost.ImageExt(ext))
            && (StartsWith(raw, "video/") || CreatePost.VideoExt(ext)))
      && (ClassifyKind(att) == Audio <==>
            !(StartsWith(raw, "image/") || CreatePost.ImageExt(ext))
            && !(StartsWith(raw, "video/") || CreatePost.VideoExt(ext))
            && (StartsWith(raw, "audio/") || CreatePost.AudioExt(ext)))
  {
  }

  /** A dotted file name decides the extension; the url is not consulted. */
  lemma FilenameExtensionFirst(att: AttachmentView, url: Option<string>, pathname: Option<string>)
    requires '.' in att.filename
    ensures ExtOf(att.(url := url, pathname := pathname)) == ExtOf(att)
  {
  }

  /** The media shown in the grid: the image and video attachments */
  function MediaCount(atts: seq<AttachmentView>): nat
  {
    Count(atts, (a: AttachmentView) => ClassifyKind(a) == Image || ClassifyKind(a) == Video)
  }

  /** Math.max(1, Math.min(mediaCount, 3)) */
  function Columns(mediaCount: nat): (r: nat)
    ensures 1 <= r <= 3
    ensures 1 <= mediaCount <= 3 ==> r == mediaCount
    ensures mediaCount >= 3 ==> r == 3
  {
    if mediaCount < 1 then 1 else if mediaCount > 3 then 3 else mediaCount
  }
}

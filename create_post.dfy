/** Creating a devlog or artlog post: the request checks, the sanitised
    content, the optional play link, the attachment-link list kept on the post,
    and the attachments read back from it with their content types. */
module CreatePost {
  import opened Common
  import opened Airtable

  const MaxContent := 5000
  const MaxPlayLink := 500

  /** s.substring(0, n) */
  function Prefix(s: string, n: nat): (r: string)
    ensures |r| <= n && |r| <= |s| && r == s[..|r|]
    ensures |s| <= n ==> r == s
  {
    if |s| <= n then s else s[..n]
  }

  /** String(content).trim().substring(0, 5000) */
  function Sanitize(content: string): (r: string)
    ensures |r| <= MaxContent && |r| <= |Trim(content)|
    ensures r == Trim(content)[..|r|]
    ensures r == [] <==> Trim(content) == []
    ensures |Trim(content)| <= MaxContent ==> r == Trim(content)
  {
    Prefix(Trim(content), MaxContent)
  }

  /** Content that fits is kept as trimmed, and then sanitising it again
      changes nothing. */
  lemma SanitizeFitsIdempotent(content: string)
    requires |Trim(content)| <= MaxContent
    ensures Sanitize(content) == Trim(content)
    ensures Sanitize(Sanitize(content)) == Sanitize(content)
  {
    TrimIdempotent(content);
  }

  // ---------------------------------------------------------------------------
  // The play link

  /** The trimmed link cut to 500 characters, kept only when it is a string
      that is not blank and parses (`protocolOf`, None when `new URL` throws)
      as an https: URL */
  function PlayLinkOf(playLink: JsValue, protocolOf: string -> Option<string>): (r: Option<string>)
    ensures r.Some? ==> playLink.Str? && Trim(playLink.s) != [] && |r.value| <= MaxPlayLink && |r.value| <= |Trim(playLink.s)|
    ensures r.Some? ==> r.value == Trim(playLink.s)[..|r.value|] && protocolOf(r.value) == Some("https:")
    ensures playLink.Str? && Trim(playLink.s) != [] && protocolOf(Prefix(Trim(playLink.s), MaxPlayLink)) == Some("https:")
            ==> r == Some(Prefix(Trim(playLink.s), MaxPlayLink))
  {
    if playLink.Str? && |Trim(playLink.s)| > 0 then
      var trimmed := Prefix(Trim(playLink.s), MaxPlayLink);
      if protocolOf(trimmed) == Some("https:") then Some(trimmed) else None
    else None
  }

  // ---------------------------------------------------------------------------
  // AttachementLinks: a comma-separated list of URLs

  /** existingLinks ? existingLinks.split(',').map(trim).filter(Boolean) : [] */
  function Links(text: string): seq<string>
  {
    if text == "" then [] else NonEmpty(TrimAll(Split(text, ',')))
  }

  /** Trimming never brings in a character the text did not have. */
  lemma TrimInside(s: string, c: char)
    requires c !in s
    ensures c !in Trim(s)
  {
    var t := TrimStart(s);
    var u := TrimEnd(t);
    forall k | 0 <= k < |u|
      ensures u[k] != c
    {
      assert u[k] == t[k];
      assert t[k] == s[|s| - |t| + k];
    }
  }

  /** Every link read from the text is a plain name: not empty, no comma, no
      surrounding white space. */
  lemma LinksArePlain(text: string)
    ensures forall l :: l in Links(text) ==> PlainName(l)
  {
    if text != "" {
      var parts := Split(text, ',');
      var trimmed := TrimAll(parts);
      forall l | l in NonEmpty(trimmed)
        ensures PlainName(l)
      {
        assert l in trimmed && l != "";
        var k :| 0 <= k < |trimmed| && trimmed[k] == l;
        assert l == Trim(parts[k]) && ',' !in parts[k];
        TrimInside(parts[k], ',');
      }
    }
  }

  /** Writing plain links with ", " and reading them back gives the same list. */
  lemma LinksRoundTrip(links: seq<string>)
    requires forall l :: l in links ==> PlainName(l)
    ensures Links(Join(links, ", ")) == links
  {
    if links != [] {
      var sep := ", ";
      assert links[0] in links;
      assert Join(links, sep) != "" by {
        JoinStartsWithFirst(links, sep);
      }
      SplitJoined([], links, sep);
      assert [] + Join(links, sep) == Join(links, sep);
      var trimmed := TrimAll(Split(Join(links, sep), ','));
      assert trimmed == links;
      NonEmptyKeeps(links);
    }
  }

  lemma JoinStartsWithFirst(links: seq<string>, sep: string)
    requires links != []
    ensures |Join(links, sep)| >= |links[0]|
  {
    if |links| > 1 {
      assert Join(links, sep) == links[0] + sep + Join(links[1..], sep);
    }
  }

  /** The text after one url is merged: added at the end when it is not
      listed yet */
  function MergedLinks(existing: string, url: string): string
  {
    var links := Links(existing);
    Join(if url in links then links else links + [url], ", ")
  }

  /** The merge step of the upload loop: split the existing text, push the url
      when absent, join with ", " */
  method MergeLink(existing: string, url: string) returns (merged: string)
    ensures merged == MergedLinks(existing, url)
    ensures PlainName(url) ==>
      Links(merged) == if url in Links(existing) then Links(existing) else Links(existing) + [url]
  {
    var linksArray := Links(existing);
    if url !in linksArray {
      linksArray := linksArray + [url];
    }
    merged := Join(linksArray, ", ");
    if PlainName(url) {
      LinksArePlain(existing);
      LinksRoundTrip(linksArray);
    }
  }

  /** A list with no repeated element */
  predicate Distinct(s: seq<string>)
  {
    forall i, j :: 0 <= i < j < |s| ==> s[i] != s[j]
  }

  /** After merging a plain url it is listed, every link listed before is
      still listed, a list without repeats stays without repeats, and
      merging the same url again changes nothing. */
  lemma MergeProperties(existing: string, url: string)
    requires PlainName(url)
    ensures url in Links(MergedLinks(existing, url))
    ensures forall l :: l in Links(existing) ==> l in Links(MergedLinks(existing, url))
    ensures Distinct(Links(existing)) ==> Distinct(Links(MergedLinks(existing, url)))
    ensures MergedLinks(MergedLinks(existing, url), url) == MergedLinks(existing, url)
  {
    var links := Links(existing);
    var next := if url in links then links else links + [url];
    LinksArePlain(existing);
    LinksRoundTrip(next);
    assert url in next;
    if url !in links && Distinct(links) {
      forall i, j | 0 <= i < j < |next|
        ensures next[i] != next[j]
      {
        if j == |links| {
          assert next[i] == links[i];
        }
      }
    }
    // A second merge finds the url and writes the same list back.
    assert Links(MergedLinks(existing, url)) == next;
  }

  /** One item of attachmentsUpload; "" stands for a missing property */
  datatype UploadItem = UploadItem(url: string, contentType: string, filename: string)

  /** The items that take the url-link branch */
  predicate LinksUrl(item: UploadItem)
  {
    item.url != "" && item.contentType != "" && item.filename != ""
  }

  /** The links text after the items, each merged onto the text the previous
      one left (the post is re-read before each merge) */
  function LinksAfter(existing: string, items: seq<UploadItem>): string
    decreases |items|
  {
    if items == [] then existing
    else
      var last := items[|items| - 1];
      var before := LinksAfter(existing, items[..|items| - 1]);
      if LinksUrl(last) then MergedLinks(before, last.url) else before
  }

  /** The upload loop of the handler, url branch only */
  method AttachLinks(existing: string, items: seq<UploadItem>) returns (links: string)
    ensures links == LinksAfter(existing, items)
  {
    links := existing;
    var i := 0;
    while i < |items|
      invariant 0 <= i <= |items|
      invariant links == LinksAfter(existing, items[..i])
    {
      assert items[..i + 1][..i] == items[..i];
      if items[i].url != "" && items[i].contentType != "" && items[i].filename != "" {
        links := MergeLink(links, items[i].url);
      }
      i := i + 1;
    }
    assert items[..i] == items;
  }

  /** Starting from a post with no links, every plain url of a qualifying item
      ends up listed exactly once. */
  lemma {:induction false} AttachedLinksDistinct(existing: string, items: seq<UploadItem>)
    requires Distinct(Links(existing))
    requires forall k :: 0 <= k < |items| && LinksUrl(items[k]) ==> PlainName(items[k].url)
    ensures Distinct(Links(LinksAfter(existing, items)))
    ensures forall k :: 0 <= k < |items| && LinksUrl(items[k]) ==> items[k].url in Links(LinksAfter(existing, items))
    decreases |items|
  {
    if items != [] {
      var n := |items| - 1;
      var prefix := items[..n];
      assert forall k :: 0 <= k < |prefix| ==> prefix[k] == items[k];
      AttachedLinksDistinct(existing, prefix);
      var before := LinksAfter(existing, prefix);
      var after := LinksAfter(existing, items);
      LinksAfterLast(existing, items);
      AttachStep(before, after, items[n]);
      forall k | 0 <= k < |items| && LinksUrl(items[k])
        ensures items[k].url in Links(after)
      {
        if k < n {
          assert prefix[k] == items[k];
        }
      }
    }
  }

  lemma LinksAfterLast(existing: string, items: seq<UploadItem>)
    requires items != []
    ensures var last := items[|items| - 1];
      LinksAfter(existing, items)
      == if LinksUrl(last) then MergedLinks(LinksAfter(existing, items[..|items| - 1]), last.url)
         else LinksAfter(existing, items[..|items| - 1])
  {
  }

  lemma AttachStep(before: string, after: string, item: UploadItem)
    requires after == if LinksUrl(item) then MergedLinks(before, item.url) else before
    requires LinksUrl(item) ==> PlainName(item.url)
    requires Distinct(Links(before))
    ensures Distinct(Links(after))
    ensures forall l :: l in Links(before) ==> l in Links(after)
    ensures LinksUrl(item) ==> item.url in Links(after)
  {
    if LinksUrl(item) {
      MergeProperties(before, item.url);
    }
  }

  // ---------------------------------------------------------------------------
  // Content types of linked attachments

  predicate ImageExt(ext: string)
  {
    ext in ["png", "jpg", "jpeg", "gif", "webp", "bmp", "svg"]
  }

  predicate VideoExt(ext: string)
  {
    ext in ["mp4", "webm", "mov", "m4v", "avi", "mkv", "mpg", "mpeg"]
  }

  predicate AudioExt(ext: string)
  {
    ext in ["mp3", "wav", "ogg", "m4a", "aac", "flac"]
  }

  /** The content type chosen for an extension: the media family is the
      list the extension is on, and an extension on no list is sent as
      application/octet-stream */
  function ContentTypeFor(ext: string): (r: string)
    ensures StartsWith(r, "image/") <==> ImageExt(ext)
    ensures StartsWith(r, "video/") <==> VideoExt(ext)
    ensures StartsWith(r, "audio/") <==> AudioExt(ext)
    ensures r == "application/octet-stream" <==> !ImageExt(ext) && !VideoExt(ext) && !AudioExt(ext)
  {
    ExtensionListsDisjoint(ext);
    if ImageExt(ext) then
      var r := "image/" + (if ext == "jpg" then "jpeg" else ext);
      assert r[..6] == "image/";
      r
    else if VideoExt(ext) then
      var r := "video/" + ext;
      assert r[..6] == "video/";
      r
    else if AudioExt(ext) then
      var r := "audio/" + ext;
      assert r[..6] == "audio/";
      r
    else
      var r := "application/octet-stream";
      assert r[..6] == "applic";
      r
  }

  /** The three lists share no extension, so the order of the tests does not matter. */
  lemma ExtensionListsDisjoint(ext: string)
    ensures !(ImageExt(ext) && VideoExt(ext))
    ensures !(ImageExt(ext) && AudioExt(ext))
    ensures !(VideoExt(ext) && AudioExt(ext))
  {
  }

  /** The last piece of a split */
  function LastPiece(s: string, sep: char): string
  {
    var parts := Split(s, sep);
    parts[|parts| - 1]
  }

  /** The file name and lower-cased extension of a linked attachment:
      `url.split('/').pop() || 'attachment'`, the text after its last dot,
      or, with no dot in the name, the last dot-piece of the URL's path
      (`pathname`, None when `new URL(url)` throws) */
  function NameAndExt(url: string, pathname: Option<string>): (r: Option<(string, string)>)
    ensures r.None? ==> pathname.None?
    ensures r.Some? ==> '.' !in r.value.1 || '.' !in r.value.0
  {
    var piece := LastPiece(url, '/');
    var filename := if piece == "" then "attachment" else piece;
    if '.' in filename then
      Some((filename, Lower(LastPiece(filename, '.'))))
    else if pathname.None? then None
    else
      var parts := Split(pathname.value, '.');
      Some((filename, if |parts| > 1 then Lower(parts[|parts| - 1]) else ""))
  }

  datatype Attachment = Attachment(url: string, contentType: string, filename: string)

  /** The attachment object built from one link */
  function LinkedAttachment(url: string, pathname: Option<string>): (r: Option<Attachment>)
    ensures r.Some? ==> r.value.url == url && '.' in r.value.filename
  {
    match NameAndExt(url, pathname)
    case None => None
    case Some((filename, ext)) =>
      Some(Attachment(url, ContentTypeFor(ext), if '.' in filename then filename else "attachment." + ext))
  }

  // ---------------------------------------------------------------------------
  // The handler

  /** The fields of the post record created */
  datatype PostFields = PostFields(
    content: string, game: seq<string>, postId: string,
    artlog: Option<ArtlogFields>, playLink: Option<string>)

  /** Timelapse, Link to Github Asset, TimeScreenshotFile url and HoursSpent
      (None when a number part is not numeric) */
  datatype ArtlogFields = ArtlogFields(timelapse: JsValue, githubAsset: JsValue, screenshotUrl: JsValue, hoursSpent: Option<real>)

  /** parseFloat(hoursSpent) + parseFloat(minutesSpent) / 60 for numbers */
  function HoursOf(hours: JsValue, minutes: JsValue): (r: Option<real>)
    ensures hours.Num? && minutes.Num? ==> r == Some(hours.n + minutes.n / 60.0)
  {
    if hours.Num? && minutes.Num? then Some(hours.n + minutes.n / 60.0) else None
  }

  /** The artlog fields the request must carry: three truthy values and two
      defined ones (0 hours or 0 minutes pass) */
  predicate ArtlogComplete(timelapse: JsValue, githubLink: JsValue, screenshot: JsValue, hours: JsValue, minutes: JsValue)
  {
    Truthy(timelapse) && Truthy(githubLink) && Truthy(screenshot) && !hours.Undefined? && !minutes.Undefined?
  }

  datatype Request = Request(
    token: string, gameId: string, content: string, postType: JsValue, playLink: JsValue,
    timelapse: JsValue, githubLink: JsValue, screenshot: JsValue, hours: JsValue, minutes: JsValue,
    uploads: seq<UploadItem>)

  datatype Reply = Reply(status: int, fields: Option<PostFields>, links: string)

  /** The request fails the body checks: a required field is empty, an artlog
      misses one of its fields, or nothing is left of the content once
      sanitised. */
  predicate BadRequest(req: Request)
  {
    || req.token == "" || req.gameId == "" || req.content == ""
    || (req.postType == Str("artlog")
        && !ArtlogComplete(req.timelapse, req.githubLink, req.screenshot, req.hours, req.minutes))
    || Sanitize(req.content) == ""
  }

  /** handler: 405, 500 without an API key, 400 for missing fields, an
      incomplete artlog or blank content, 401 for an unknown token (`userId`),
      500 when normalising the Owner field throws (the outer catch), 403
      unless the user is among the game's Owner ids; then the post is
      created with `postId` and the url attachments are merged onto it. */
  method Handle(httpMethod: string, apiKey: string, req: Request, userId: Option<string>, owner: JsValue,
                postId: string, protocolOf: string -> Option<string>)
    returns (reply: Reply)
    ensures reply.status == 405 <==> httpMethod != "POST"
    ensures reply.status == 400 <==> httpMethod == "POST" && apiKey != "" && BadRequest(req)
    ensures reply.status == 401 <==> httpMethod == "POST" && apiKey != "" && !BadRequest(req) && userId.None?
    ensures reply.status == 403 ==>
      userId.Some? && NormalizeLinkedIds(owner).Some? && !IncludesId(NormalizeLinkedIds(owner), userId.value)
    ensures reply.status == 500 && apiKey != "" ==> userId.Some? && NormalizeLinkedIds(owner).None?
    ensures (httpMethod == "POST" && apiKey != "" && reply.status != 400 && userId.Some?
             && NormalizeLinkedIds(owner).None?) ==> reply.status == 500
    ensures reply.status == 200 <==>
      httpMethod == "POST" && apiKey != "" && reply.status != 400 && userId.Some?
      && IncludesId(NormalizeLinkedIds(owner), userId.value)
    ensures reply.status == 200 ==>
      && reply.fields.Some?
      && reply.fields.value.content == Sanitize(req.content)
      && reply.fields.value.content != ""
      && reply.fields.value.game == [req.gameId]
      && reply.fields.value.playLink == PlayLinkOf(req.playLink, protocolOf)
      && (reply.fields.value.artlog.Some? <==> req.postType == Str("artlog"))
      && reply.links == LinksAfter("", req.uploads)
    ensures reply.status != 200 ==> reply.fields.None?
    ensures reply.status in {200, 400, 401, 403, 405, 500}
  {
    if httpMethod != "POST" {
      return Reply(405, None, "");
    }
    if apiKey == "" {
      return Reply(500, None, "");
    }
    if req.token == "" || req.gameId == "" || req.content == "" {
      return Reply(400, None, "");
    }
    var isArtlog := req.postType == Str("artlog");
    if isArtlog && !ArtlogComplete(req.timelapse, req.githubLink, req.screenshot, req.hours, req.minutes) {
      return Reply(400, None, "");
    }
    var sanitized := Sanitize(req.content);
    if |sanitized| == 0 {
      return Reply(400, None, "");
    }
    if userId.None? {
      return Reply(401, None, "");
    }
    var ownerIds := NormalizeLinkedIds(owner);
    if ownerIds.None? {
      return Reply(500, None, "");
    }
    if !IncludesId(ownerIds, userId.value) {
      return Reply(403, None, "");
    }
    var artlog := if isArtlog then Some(ArtlogFields(req.timelapse, req.githubLink, Obj(map["url" := req.screenshot]),
                                                     HoursOf(req.hours, req.minutes)))
                  else None;
    var fields := PostFields(sanitized, [req.gameId], postId, artlog, PlayLinkOf(req.playLink, protocolOf));
    var links := AttachLinks("", req.uploads);
    reply := Reply(200, Some(fields), links);
  }
}

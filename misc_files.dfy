/** Miscellaneous uploads kept in the object store: the upload handler that
    files an image, video or sound under "misc-files/<uuid><ext>", and the
    serve handler that finds it again by the uuid alone. */
module MiscFiles {
  import opened Common
  import opened Paths

  const KeyPrefix := "misc-files/"
  const DefaultBucket := "shiba-arcade"
  const PublicBase := "https://tc8ckgo4kskk48s0o8cwc0g8.a.selfhosted.hackclub.com"
  const CacheForAYear := "public, max-age=31536000"
  const OctetStream := "application/octet-stream"

  /** The extensions the upload handler accepts, dot included */
  const AllowedExtensions: set<string> := {".png", ".jpg", ".jpeg", ".mp4", ".gif", ".mov", ".mp3"}

  /** filepath.Ext: the suffix from the final '.' of the final '/'-separated
      element, or "" when that element has no '.' */
  function Ext(name: string): (r: string)
    ensures r == [] || (r[0] == '.' && EndsWith(name, r))
    ensures '/' !in r && (r != [] ==> '.' !in r[1..])
  {
    if name == [] || name[|name| - 1] == '/' then ""
    else if name[|name| - 1] == '.' then "."
    else
      var e := Ext(name[..|name| - 1]);
      if e == [] then "" else e + [name[|name| - 1]]
  }

  /** getContentType */
  function ContentType(ext: string): string
  {
    match ext
    case ".png" => "image/png"
    case ".jpg" => "image/jpeg"
    case ".jpeg" => "image/jpeg"
    case ".mp4" => "video/mp4"
    case ".gif" => "image/gif"
    case ".mov" => "video/quicktime"
    case ".mp3" => "audio/mpeg"
    case _ => OctetStream
  }

  /** Every extension the handler accepts is stored with a real media type,
      and the media type says which family (image, video, audio) the file is. */
  lemma AllowedHaveMediaTypes(ext: string)
    requires ext in AllowedExtensions
    ensures ContentType(ext) != OctetStream
    ensures ext in {".png", ".jpg", ".jpeg", ".gif"} <==> StartsWith(ContentType(ext), "image/")
    ensures ext in {".mp4", ".mov"} <==> StartsWith(ContentType(ext), "video/")
    ensures ext == ".mp3" <==> StartsWith(ContentType(ext), "audio/")
  {
    var t := ContentType(ext);
    if ext == ".png" || ext == ".jpg" || ext == ".jpeg" || ext == ".gif" {
      assert t[..6] == "image/";
    } else if ext == ".mp4" || ext == ".mov" {
      assert t[..6] == "video/";
    } else {
      assert t[..6] == "audio/";
    }
  }

  /** os.Getenv("R2_BUCKET") with its fallback */
  function BucketName(env: string): (r: string)
    ensures r != []
    ensures env != [] ==> r == env
  {
    if env == "" then DefaultBucket else env
  }

  function MiscKey(id: string, ext: string): string
  {
    KeyPrefix + id + ext
  }

  function LookupPrefix(fileId: string): string
  {
    KeyPrefix + fileId
  }

  function FileUrl(id: string): string
  {
    PublicBase + "/misc-file/" + id
  }

  /** The key of an upload starts with the serve handler's lookup prefix for a
      36-character id exactly when the upload used that id: one uuid never
      shadows another. */
  lemma KeyMatchesOnlyItsOwnId(u: string, ext: string, id: string)
    requires IsUuidText(u) && IsUuidText(id)
    ensures StartsWith(MiscKey(u, ext), LookupPrefix(id)) <==> u == id
  {
    var n := |LookupPrefix(id)|;
    assert MiscKey(u, ext)[..n] == KeyPrefix + u;
    if KeyPrefix + u == KeyPrefix + id {
      assert u == (KeyPrefix + u)[|KeyPrefix|..];
      assert id == (KeyPrefix + id)[|KeyPrefix|..];
    }
  }

  /** The keys of a set of uploads, each an (id, extension) pair */
  function UploadKeys(uploads: set<(string, string)>): set<string>
  {
    set p | p in uploads :: MiscKey(p.0, p.1)
  }

  function MatchingKeys(keys: set<string>, prefix: string): (r: set<string>)
    ensures r <= keys
    ensures forall k :: k in r <==> k in keys && StartsWith(k, prefix)
  {
    set k | k in keys && StartsWith(k, prefix)
  }

  /** When every stored misc file came from the upload handler, under distinct
      uuids, the serve lookup for one of those uuids lists exactly that file. */
  lemma LookupFindsTheUpload(uploads: set<(string, string)>, id: string, ext: string)
    requires forall p :: p in uploads ==> IsUuidText(p.0)
    requires forall p, q :: p in uploads && q in uploads && p.0 == q.0 ==> p == q
    requires (id, ext) in uploads
    ensures MatchingKeys(UploadKeys(uploads), LookupPrefix(id)) == {MiscKey(id, ext)}
  {
    var m := MatchingKeys(UploadKeys(uploads), LookupPrefix(id));
    KeyMatchesOnlyItsOwnId(id, ext, id);
    forall k | k in m
      ensures k == MiscKey(id, ext)
    {
      var p :| p in uploads && k == MiscKey(p.0, p.1);
      KeyMatchesOnlyItsOwnId(p.0, p.1, id);
    }
  }

  // ---------------------------------------------------------------------------
  // The object store

  datatype ObjectRef = ObjectRef(bucket: string, key: string)

  datatype StoredObject = StoredObject(body: seq<byte>, contentType: string)

  /** The R2 bucket contents the handlers reach through the S3 client; failures
      of the remote calls are parameters of the handlers. */
  class ObjectStore {
    var objects: map<ObjectRef, StoredObject>

    constructor(initial: map<ObjectRef, StoredObject>)
      ensures objects == initial
    {
      objects := initial;
    }

    function KeysIn(bucket: string): (r: set<string>)
      reads this
      ensures forall k :: k in r <==> ObjectRef(bucket, k) in objects
    {
      set o | o in objects && o.bucket == bucket :: o.key
    }

    /** PutObject */
    method Put(bucket: string, key: string, obj: StoredObject)
      modifies this
      ensures objects == old(objects)[ObjectRef(bucket, key) := obj]
    {
      objects := objects[ObjectRef(bucket, key) := obj];
    }

    /** ListObjectsV2 with a prefix: every matching key once, in an order the
        model leaves open */
    method List(bucket: string, prefix: string) returns (keys: seq<string>)
      ensures forall k :: k in keys <==> k in MatchingKeys(KeysIn(bucket), prefix)
      ensures forall i, j :: 0 <= i < j < |keys| ==> keys[i] != keys[j]
    {
      keys := [];
      var remaining := MatchingKeys(KeysIn(bucket), prefix);
      while remaining != {}
        invariant forall k :: k in keys <==> k in MatchingKeys(KeysIn(bucket), prefix) && k !in remaining
        invariant remaining <= MatchingKeys(KeysIn(bucket), prefix)
        invariant forall i, j :: 0 <= i < j < |keys| ==> keys[i] != keys[j]
        decreases |remaining|
      {
        var k :| k in remaining;
        keys := keys + [k];
        remaining := remaining - {k};
      }
    }

    /** GetObject on a key the listing returned */
    method Get(bucket: string, key: string) returns (obj: Option<StoredObject>)
      ensures obj.Some? <==> ObjectRef(bucket, key) in objects
      ensures obj.Some? ==> obj.value == objects[ObjectRef(bucket, key)]
    {
      if ObjectRef(bucket, key) in objects {
        obj := Some(objects[ObjectRef(bucket, key)]);
      } else {
        obj := None;
      }
    }
  }

  // ---------------------------------------------------------------------------
  // UploadMiscFileHandler

  /** The multipart form as the handler sees it */
  datatype UploadForm =
    | ParseFailed
    | MissingFile
    | WithFile(filename: string, content: seq<byte>, readFails: bool)

  datatype UploadReply =
    | UploadRejected(status: int)
    | UploadAccepted(url: string, fileId: string, message: string)

  /** The status of an upload, decided in the handler's order: method, form,
      file field, extension, uuid, read, store */
  function UploadStatus(httpMethod: string, form: UploadForm, newId: Option<string>, putFails: bool): (r: int)
    ensures r == 200 <==>
      httpMethod == "POST" && form.WithFile? && Lower(Ext(form.filename)) in AllowedExtensions
      && newId.Some? && !form.readFails && !putFails
    ensures httpMethod == "POST" && form.WithFile? && Lower(Ext(form.filename)) !in AllowedExtensions ==> r == 400
  {
    if httpMethod != "POST" then 405
    else if !form.WithFile? then 400
    else if Lower(Ext(form.filename)) !in AllowedExtensions then 400
    else if newId.None? || form.readFails || putFails then 500
    else 200
  }

  /** UploadMiscFileHandler. `newId` is uuid.NewV7's result (None when it
      fails); `putFails` is the PutObject outcome. */
  method UploadMiscFile(store: ObjectStore, httpMethod: string, form: UploadForm, bucketEnv: string,
                        newId: Option<string>, putFails: bool)
    returns (reply: UploadReply)
    modifies store
    ensures reply.UploadRejected? <==> UploadStatus(httpMethod, form, newId, putFails) != 200
    ensures reply.UploadRejected? ==> reply.status == UploadStatus(httpMethod, form, newId, putFails)
    ensures reply.UploadRejected? ==> store.objects == old(store.objects)
    ensures reply.UploadAccepted? ==>
      var ext := Lower(Ext(form.filename));
      && reply.fileId == newId.value
      && reply.url == FileUrl(newId.value)
      && store.objects == old(store.objects)[ObjectRef(BucketName(bucketEnv), MiscKey(newId.value, ext)) :=
                                               StoredObject(form.content, ContentType(ext))]
  {
    if httpMethod != "POST" {
      return UploadRejected(405);
    }
    if form.ParseFailed? || form.MissingFile? {
      return UploadRejected(400);
    }
    var ext := Lower(Ext(form.filename));
    if ext !in AllowedExtensions {
      return UploadRejected(400);
    }
    if newId.None? {
      return UploadRejected(500);
    }
    var id := newId.value;
    var key := MiscKey(id, ext);
    if form.readFails {
      return UploadRejected(500);
    }
    var contentType := ContentType(ext);
    var bucket := BucketName(bucketEnv);
    if putFails {
      return UploadRejected(500);
    }
    store.Put(bucket, key, StoredObject(form.content, contentType));
    reply := UploadAccepted(FileUrl(id), id, "File uploaded successfully");
  }

  /** An accepted upload's url ends in "/misc-file/" followed by its file id, and
      its key carries the allowed extension it was filed under. */
  lemma AcceptedUploadShape(id: string, filename: string)
    requires Lower(Ext(filename)) in AllowedExtensions
    ensures EndsWith(FileUrl(id), "/misc-file/" + id)
    ensures StartsWith(MiscKey(id, Lower(Ext(filename))), LookupPrefix(id))
    ensures EndsWith(MiscKey(id, Lower(Ext(filename))), Lower(Ext(filename)))
  {
    var ext := Lower(Ext(filename));
    assert FileUrl(id) == (PublicBase + "/misc-file/" + id);
    assert FileUrl(id)[|FileUrl(id)| - |"/misc-file/" + id|..] == "/misc-file/" + id;
    assert MiscKey(id, ext)[..|LookupPrefix(id)|] == LookupPrefix(id);
    assert MiscKey(id, ext)[|MiscKey(id, ext)| - |ext|..] == ext;
  }

  // ---------------------------------------------------------------------------
  // ServeMiscFileHandler

  datatype ServeReply =
    | ServeRejected(status: int)
    | Served(key: string, body: seq<byte>, contentType: string, cacheControl: string)

  /** ServeMiscFileHandler. `listFails` and `getFails` are the outcomes of the
      two remote calls. */
  method ServeMiscFile(store: ObjectStore, fileId: string, bucketEnv: string, listFails: bool, getFails: bool)
    returns (reply: ServeReply)
    ensures fileId == "" ==> reply == ServeRejected(400)
    ensures fileId != "" && listFails ==> reply == ServeRejected(500)
    ensures fileId != "" && !listFails && MatchingKeys(store.KeysIn(BucketName(bucketEnv)), LookupPrefix(fileId)) == {} ==>
      reply == ServeRejected(404)
    ensures fileId != "" && !listFails && getFails ==> reply == ServeRejected(404)
    ensures reply.Served? <==>
      fileId != "" && !listFails && !getFails && MatchingKeys(store.KeysIn(BucketName(bucketEnv)), LookupPrefix(fileId)) != {}
    ensures reply.Served? ==>
      && reply.key in MatchingKeys(store.KeysIn(BucketName(bucketEnv)), LookupPrefix(fileId))
      && var o := store.objects[ObjectRef(BucketName(bucketEnv), reply.key)];
         reply.body == o.body && reply.contentType == o.contentType && reply.cacheControl == CacheForAYear
  {
    if fileId == "" {
      return ServeRejected(400);
    }
    var bucket := BucketName(bucketEnv);
    var prefix := LookupPrefix(fileId);
    if listFails {
      return ServeRejected(500);
    }
    var keys := store.List(bucket, prefix);
    if |keys| == 0 {
      assert MatchingKeys(store.KeysIn(bucket), prefix) == {};
      return ServeRejected(404);
    }
    var key := keys[0];
    if getFails {
      return ServeRejected(404);
    }
    // the key was just listed, so the object is there
    var obj := store.Get(bucket, key);
    reply := Served(key, obj.value.body, obj.value.contentType, CacheForAYear);
  }

  /** Serving the uuid an upload returned, from a bucket whose misc files all
      came from uploads under distinct uuids, finds that upload's key. */
  lemma UploadedFileIsServed(uploads: set<(string, string)>, id: string, ext: string, served: string)
    requires forall p :: p in uploads ==> IsUuidText(p.0)
    requires forall p, q :: p in uploads && q in uploads && p.0 == q.0 ==> p == q
    requires (id, ext) in uploads
    requires served in MatchingKeys(UploadKeys(uploads), LookupPrefix(id))
    ensures served == MiscKey(id, ext)
  {
    LookupFindsTheUpload(uploads, id, ext);
  }
}

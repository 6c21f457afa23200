/** The browser-side helper that checks a misc file before posting it to the
    upload endpoint, and the support test the upload widgets call first. */
module UploadClient {
  import opened Common
  import MiscFiles

  const MaxUploadBytes := 50 * 1024 * 1024

  const ClientAllowList: seq<string> := [".png", ".jpg", ".jpeg", ".mp4", ".gif", ".mov", ".mp3"]

  datatype BrowserFile = BrowserFile(name: string, size: nat)

  /** The parsed JSON body of the endpoint's answer (absent fields as None) */
  datatype ReplyBody = ReplyBody(url: Option<string>, fileId: Option<string>, message: Option<string>)

  /** What the fetch produced: a thrown network error, or a status with a body
      that parsed as JSON or did not */
  datatype Answer = NetworkError | Answered(ok: bool, body: Option<ReplyBody>)

  datatype ClientRejection = MissingFile | TypeNotAllowed | TooLarge | InvalidResponse | UploadFailed | NetworkFailure

  datatype ClientResult =
    | ClientOk(url: Option<string>, fileId: Option<string>, message: Option<string>)
    | ClientError(reason: ClientRejection)

  /** fileName.toLowerCase().substring(fileName.lastIndexOf('.')): a name
      without '.' yields the whole lower-cased name */
  function ClientExt(name: string): (r: string)
    ensures '.' in name ==> r != [] && r[0] == '.' && '.' !in r[1..]
    ensures '.' !in name ==> r == Lower(name)
  {
    var lower := Lower(name);
    var i := LastIndexOf(lower, '.');
    if i < 0 then lower else lower[i..]
  }

  predicate TypeAllowed(name: string)
  {
    ClientExt(name) in ClientAllowList
  }

  /** uploadMiscFile: missing file, then type, then size, then the request */
  function UploadMiscFile(file: Option<BrowserFile>, answer: Answer): (r: ClientResult)
    ensures file.None? ==> r == ClientError(MissingFile)
    ensures r.ClientOk? <==>
      && file.Some? && TypeAllowed(file.value.name) && file.value.size <= MaxUploadBytes
      && answer.Answered? && answer.ok && answer.body.Some?
    ensures r.ClientOk? ==>
      r == ClientOk(answer.body.value.url, answer.body.value.fileId, answer.body.value.message)
  {
    if file.None? then ClientError(MissingFile)
    else if !TypeAllowed(file.value.name) then ClientError(TypeNotAllowed)
    else if file.value.size > MaxUploadBytes then ClientError(TooLarge)
    else if answer.NetworkError? then ClientError(NetworkFailure)
    else if answer.body.None? then ClientError(InvalidResponse)
    else if !answer.ok then ClientError(UploadFailed)
    else ClientOk(answer.body.value.url, answer.body.value.fileId, answer.body.value.message)
  }

  /** isSupportedFileType */
  function IsSupportedFileType(file: Option<BrowserFile>): (r: bool)
  {
    file.Some? && TypeAllowed(file.value.name)
  }

  /** The local checks come before the request: a file rejected for its type or
      size gets the same answer whatever the endpoint would have said, and a
      file of exactly 50 MiB is not too large. */
  lemma LocalChecksPrecedeRequest(file: Option<BrowserFile>, a1: Answer, a2: Answer)
    requires file.None? || !TypeAllowed(file.value.name) || file.value.size > MaxUploadBytes
    ensures UploadMiscFile(file, a1) == UploadMiscFile(file, a2)
    ensures UploadMiscFile(file, a1).ClientError?
    ensures UploadMiscFile(file, a1).reason in {MissingFile, TypeNotAllowed, TooLarge}
  {
  }

  lemma FiftyMebibytesIsAccepted(name: string, answer: Answer)
    requires TypeAllowed(name)
    ensures UploadMiscFile(Some(BrowserFile(name, MaxUploadBytes)), answer) != ClientError(TooLarge)
    ensures UploadMiscFile(Some(BrowserFile(name, MaxUploadBytes + 1)), answer) == ClientError(TooLarge)
  {
  }

  /** isSupportedFileType agrees with uploadMiscFile's type check: the upload is
      never refused for its type when the support test said yes, and always
      is when it said no. */
  lemma SupportTestAgrees(file: Option<BrowserFile>, answer: Answer)
    ensures file.Some? ==>
      (IsSupportedFileType(file) <==> UploadMiscFile(file, answer) != ClientError(TypeNotAllowed))
    ensures !IsSupportedFileType(file) ==> UploadMiscFile(file, answer).ClientError?
  {
  }

  /** The client's list is the server's allow-list. */
  lemma AllowListsAgree()
    ensures forall e :: e in ClientAllowList <==> e in MiscFiles.AllowedExtensions
  {
    assert forall e :: e in MiscFiles.AllowedExtensions ==> e in ClientAllowList by {
      assert ClientAllowList == [".png", ".jpg", ".jpeg", ".mp4", ".gif", ".mov", ".mp3"];
    }
  }

  /** Lower-casing a suffix is the suffix of the lower-cased string. */
  lemma LowerSuffix(s: string, k: nat)
    requires k <= |s|
    ensures Lower(s[k..]) == Lower(s)[k..]
  {
  }

  /** For a browser file name (no '/'), the client accepts exactly what the Go
      handler accepts: the client lower-cases before taking the extension, the
      server after, and the two extensions coincide. */
  lemma ClientAndServerAgree(name: string)
    requires '/' !in name
    ensures TypeAllowed(name) <==> Lower(MiscFiles.Ext(name)) in MiscFiles.AllowedExtensions
  {
    if '.' in name {
      DottedNameExtensions(name);
    } else {
      UndottedNameRejected(name);
    }
  }

  lemma DottedNameExtensions(name: string)
    requires '/' !in name && '.' in name
    ensures ClientExt(name) == Lower(MiscFiles.Ext(name))
  {
    ServerExtIsLastDot(name);
    LowerKeepsLastDot(name);
    LowerSuffix(name, LastIndexOf(name, '.'));
  }

  /** Without a '.', neither side finds an allowed extension. */
  lemma UndottedNameRejected(name: string)
    requires '.' !in name
    ensures !TypeAllowed(name) && Lower(MiscFiles.Ext(name)) !in MiscFiles.AllowedExtensions
  {
    ServerExtNoDot(name);
    assert Lower("") == "";
    var e := ClientExt(name);
    assert e == [] || e[0] != '.';
    assert forall x :: x in ClientAllowList ==> x != [] && x[0] == '.';
  }

  lemma {:induction false} ServerExtIsLastDot(name: string)
    requires '/' !in name && '.' in name
    ensures MiscFiles.Ext(name) == name[LastIndexOf(name, '.')..]
  {
    var last := name[|name| - 1];
    var init := name[..|name| - 1];
    if last != '.' {
      assert '.' in init by {
        var j :| 0 <= j < |name| && name[j] == '.';
        assert j < |name| - 1 && init[j] == '.';
      }
      ServerExtIsLastDot(init);
      assert init[LastIndexOf(init, '.')..] + [last] == name[LastIndexOf(name, '.')..];
    }
  }

  lemma {:induction false} ServerExtNoDot(name: string)
    requires '.' !in name
    ensures MiscFiles.Ext(name) == ""
  {
    if name != [] {
      ServerExtNoDot(name[..|name| - 1]);
    }
  }

  /** Lower-casing moves no '.': the last dot sits at the same index. */
  lemma LowerKeepsLastDot(name: string)
    ensures LastIndexOf(Lower(name), '.') == LastIndexOf(name, '.')
  {
    var l := Lower(name);
    var i, j := LastIndexOf(l, '.'), LastIndexOf(name, '.');
    assert forall k :: 0 <= k < |name| ==> (l[k] == '.' <==> name[k] == '.');
  }
}

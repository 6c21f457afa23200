/** Ingestion of an uploaded game archive (api/handlers/gameUpload.go): the
    single-wrapper-folder detection, the per-entry skip / strip / validate /
    write loop, and the response of a successful upload. Zip entry names use
    '/' as separator (section 4.4.17 of the PKWARE .ZIP APPNOTE). */
module ArchiveIngest {
  import opened Common
  import opened Paths
  import opened LocalStore

  const JunkPrefix := "__MACOSX/"
  const StatusBadRequest := 400
  const StatusInternalServerError := 500

  /** What goes wrong, if anything, while one file entry is written: the
      environment's answer to MkdirAll of its parent, f.Open, os.OpenFile and
      io.Copy (which leaves the first `written` bytes behind). */
  datatype EntryFault = Intact | ParentMkdirFails | OpenFails | CreateFails | CopyFails(written: nat)

  datatype ZipEntry = ZipEntry(name: string, isDir: bool, data: seq<byte>, fault: EntryFault)

  /** The disk after some entries, and the HTTP status that ended the request
      early, if one did */
  datatype Progress = Progress(disk: Disk, halt: Option<int>)

  predicate IsJunk(name: string)
  {
    StartsWith(name, JunkPrefix)
  }

  // ---------------------------------------------------------------------------
  // getSingleRootPrefix

  /** parts[0] of strings.SplitN(name, "/", 2) */
  function FirstSegment(name: string): (r: string)
    ensures '/' !in r
    ensures '/' in name ==> StartsWith(name, r + "/")
    ensures '/' !in name ==> r == name
  {
    if name == [] || name[0] == '/' then ""
    else [name[0]] + FirstSegment(name[1..])
  }

  /** The loop of getSingleRootPrefix from position i on, with `root` the
      accumulator so far */
  function ScanRoot(names: seq<string>, root: string): string
  {
    if names == [] then (if root != "" then root + "/" else "")
    else if IsJunk(names[0]) then ScanRoot(names[1..], root)
    else if '/' !in names[0] then ""
    else if root == "" then ScanRoot(names[1..], FirstSegment(names[0]))
    else if FirstSegment(names[0]) != root then ""
    else ScanRoot(names[1..], root)
  }

  function RootPrefixOf(names: seq<string>): string
  {
    ScanRoot(names, "")
  }

  /** getSingleRootPrefix: the folder every non-junk entry sits in, with its
      trailing '/', or "" */
  method SingleRootPrefix(names: seq<string>) returns (prefix: string)
    ensures prefix == RootPrefixOf(names)
  {
    var root := "";
    var i := 0;
    while i < |names|
      invariant 0 <= i <= |names|
      invariant ScanRoot(names[i..], root) == RootPrefixOf(names)
    {
      var name := names[i];
      assert names[i..][1..] == names[i + 1..];
      if IsJunk(name) {
        i := i + 1;
        continue;
      }
      if '/' !in name {
        return "";
      }
      var first := FirstSegment(name);
      if root == "" {
        root := first;
      } else if first != root {
        return "";
      }
      i := i + 1;
    }
    if root != "" {
      return root + "/";
    }
    return "";
  }

  /** A top-level (slash-free) file that is not junk forces "" whatever the
      other entries are. */
  lemma {:induction false} TopLevelFileMeansNoPrefix(names: seq<string>, root: string, k: int)
    requires 0 <= k < |names| && !IsJunk(names[k]) && '/' !in names[k]
    ensures ScanRoot(names, root) == ""
    decreases |names|
  {
    if k > 0 && (IsJunk(names[0]) || ('/' in names[0] && (root == "" || FirstSegment(names[0]) == root))) {
      TopLevelFileMeansNoPrefix(names[1..], if IsJunk(names[0]) || root != "" then root else FirstSegment(names[0]), k - 1);
    }
  }

  /** When every non-junk entry is inside the folder `r` (and there is one),
      the prefix is `r/`. */
  lemma {:induction false} SharedFolderIsPrefix(names: seq<string>, root: string, r: string)
    requires r != "" && '/' !in r
    requires root == "" || root == r
    requires forall k :: 0 <= k < |names| && !IsJunk(names[k]) ==> StartsWith(names[k], r + "/")
    requires root == r || exists k :: 0 <= k < |names| && !IsJunk(names[k])
    ensures ScanRoot(names, root) == r + "/"
    decreases |names|
  {
    if names != [] {
      var n := names[0];
      var next := root;
      if !IsJunk(n) {
        assert StartsWith(n, r + "/");
        assert n[|r|] == '/';
        assert '/' in n;
        FirstSegmentOf(n, r);
        next := r;
      } else if root != r {
        var k :| 0 <= k < |names| && !IsJunk(names[k]);
        assert k > 0 && names[1..][k - 1] == names[k];
      }
      forall k | 0 <= k < |names[1..]| && !IsJunk(names[1..][k])
        ensures StartsWith(names[1..][k], r + "/")
      {
        assert names[1..][k] == names[k + 1];
      }
      SharedFolderIsPrefix(names[1..], next, r);
    }
  }

  lemma {:induction false} FirstSegmentOf(n: string, r: string)
    requires '/' !in r && StartsWith(n, r + "/")
    ensures FirstSegment(n) == r
    decreases |n|
  {
    if r == "" {
      assert n[0] == '/';
    } else {
      assert n[0] == r[0] && r[0] in r;
      assert (r + "/")[1..] == r[1..] + "/";
      assert n[1..][..|r[1..] + "/"|] == n[..|r + "/"|][1..];
      FirstSegmentOf(n[1..], r[1..]);
      assert [r[0]] + r[1..] == r;
    }
  }

  /** A non-empty prefix is `r/` for a folder r such that every non-junk
      entry lies in r or starts with "/" (an empty first segment, which the
      loop lets through while no folder has been seen). */
  lemma {:induction false} PrefixMeansSharedFolder(names: seq<string>, root: string)
    requires '/' !in root
    requires ScanRoot(names, root) != ""
    ensures var p := ScanRoot(names, root); var r := p[..|p| - 1];
      && |p| >= 2 && p[|p| - 1] == '/' && '/' !in r
      && (root == "" || r == root)
      && (forall k :: 0 <= k < |names| && !IsJunk(names[k]) ==>
            '/' in names[k] && FirstSegment(names[k]) in {r, ""})
    decreases |names|
  {
    if names == [] {
      assert ScanRoot(names, root) == root + "/";
      assert (root + "/")[..|root|] == root;
    } else {
      var n := names[0];
      var next := if IsJunk(n) || root != "" then root else FirstSegment(n);
      assert ScanRoot(names, root) == ScanRoot(names[1..], next);
      PrefixMeansSharedFolder(names[1..], next);
      var p := ScanRoot(names, root);
      var r := p[..|p| - 1];
      forall k | 0 <= k < |names| && !IsJunk(names[k])
        ensures '/' in names[k] && FirstSegment(names[k]) in {r, ""}
      {
        if k > 0 {
          assert names[1..][k - 1] == names[k];
        }
      }
    }
  }

  /** No non-junk entry at all: no prefix. */
  lemma {:induction false} OnlyJunkMeansNoPrefix(names: seq<string>)
    requires forall k :: 0 <= k < |names| ==> IsJunk(names[k])
    ensures RootPrefixOf(names) == ""
  {
    OnlyJunkScan(names);
  }

  lemma {:induction false} OnlyJunkScan(names: seq<string>)
    requires forall k :: 0 <= k < |names| ==> IsJunk(names[k])
    ensures ScanRoot(names, "") == ""
  {
    if names != [] {
      OnlyJunkScan(names[1..]);
    }
  }

  /** Two non-junk entries in different named folders: no prefix. */
  lemma DisagreementMeansNoPrefix(names: seq<string>, i: int, j: int)
    requires 0 <= i < |names| && 0 <= j < |names|
    requires !IsJunk(names[i]) && !IsJunk(names[j])
    requires FirstSegment(names[i]) != "" && FirstSegment(names[j]) != ""
    requires FirstSegment(names[i]) != FirstSegment(names[j])
    ensures RootPrefixOf(names) == ""
  {
    if RootPrefixOf(names) != "" {
      PrefixMeansSharedFolder(names, "");
    }
  }

  // ---------------------------------------------------------------------------
  // The per-entry loop of GameUploadHandler

  /** The name an entry is written under after junk skipping and prefix
      stripping; None when the entry is skipped. */
  function StrippedName(name: string, prefix: string): (r: Option<string>)
    ensures IsJunk(name) ==> r == None
    ensures r.Some? ==> r.value != "" || (name == "" && (prefix == "" || !StartsWith(name, prefix)))
  {
    if IsJunk(name) then None
    else if prefix != "" && StartsWith(name, prefix) then
      var stripped := TrimPrefix(name, prefix);
      if stripped == "" then None else Some(stripped)
    else Some(name)
  }

  /** Where a validated entry is written: the path the check accepted,
      filepath.Join(destDir, filepath.Clean(name)) */
  function EntryWritePath(dest: Path, name: string): Path
  {
    JoinUnder(dest, name)
  }

  /** One iteration of the loop */
  function ProcessEntry(e: ZipEntry, prefix: string, dest: Path, d: Disk): Progress
  {
    match StrippedName(e.name, prefix)
    case None => Progress(d, None)
    case Some(name) =>
      if !ValidateZipFilePath(name, dest) then Progress(d, Some(StatusBadRequest))
      else
        var fpath := EntryWritePath(dest, name);
        if e.isDir then Progress(WithDirs(d, fpath), None)
        else if e.fault == ParentMkdirFails then Progress(d, Some(StatusInternalServerError))
        else
          var d1 := WithDirs(d, Dir(fpath));
          match e.fault
          case OpenFails => Progress(d1, Some(StatusInternalServerError))
          case CreateFails => Progress(d1, Some(StatusInternalServerError))
          case CopyFails(n) => Progress(WithFile(d1, fpath, Truncated(e.data, n)), Some(StatusInternalServerError))
          case _ => Progress(WithFile(d1, fpath, e.data), None)
  }

  function IngestFrom(entries: seq<ZipEntry>, prefix: string, dest: Path, d: Disk): Progress
  {
    if entries == [] then Progress(d, None)
    else
      var p := ProcessEntry(entries[0], prefix, dest, d);
      if p.halt.Some? then p else IngestFrom(entries[1..], prefix, dest, p.disk)
  }

  /** The loop over zr.File: returns the status that ended the request early,
      if any, leaving the disk as IngestFrom says. */
  method IngestEntries(disk: LocalDisk, entries: seq<ZipEntry>, prefix: string, dest: Path) returns (halt: Option<int>)
    modifies disk
    ensures Progress(disk.State(), halt) == IngestFrom(entries, prefix, dest, old(disk.State()))
  {
    var i := 0;
    while i < |entries|
      invariant 0 <= i <= |entries|
      invariant IngestFrom(entries[i..], prefix, dest, disk.State()) == IngestFrom(entries, prefix, dest, old(disk.State()))
    {
      var stop := IngestEntry(disk, entries[i], prefix, dest);
      assert entries[i..][1..] == entries[i + 1..];
      if stop.Some? {
        return stop;
      }
      i := i + 1;
    }
    return None;
  }

  /** The body of the loop for one entry: a junk entry, or one that is only
      the prefix, is skipped (`continue`); an invalid path ends the request
      with 400; a directory is created; a file has its parent created and is
      written, whole or, when the copy fails, truncated. The file is written at
      the cleaned name (EntryWritePath), the path that was validated; the
      original joins the raw name, which RootedClimbEscapes shows can leave
      the bundle directory. */
  method IngestEntry(disk: LocalDisk, e: ZipEntry, prefix: string, dest: Path) returns (halt: Option<int>)
    modifies disk
    ensures Progress(disk.State(), halt) == ProcessEntry(e, prefix, dest, old(disk.State()))
  {
    if IsJunk(e.name) {
      return None;
    }
    var name := e.name;
    if prefix != "" && StartsWith(name, prefix) {
      name := TrimPrefix(name, prefix);
      if name == "" {
        return None;
      }
    }
    if !ValidateZipFilePath(name, dest) {
      return Some(StatusBadRequest);
    }
    var fpath := EntryWritePath(dest, name);
    if e.isDir {
      disk.MkdirAll(fpath);
      return None;
    }
    if e.fault == ParentMkdirFails {
      return Some(StatusInternalServerError);
    }
    disk.MkdirAll(Dir(fpath));
    if e.fault == OpenFails || e.fault == CreateFails {
      return Some(StatusInternalServerError);
    }
    if e.fault.CopyFails? {
      disk.WriteFile(fpath, Truncated(e.data, e.fault.written));
      return Some(StatusInternalServerError);
    }
    disk.WriteFile(fpath, e.data);
    return None;
  }

  /** Processing a list in two parts: the second part runs only if the first
      did not end the request. */
  lemma {:induction false} IngestAppend(xs: seq<ZipEntry>, ys: seq<ZipEntry>, prefix: string, dest: Path, d: Disk)
    ensures IngestFrom(xs + ys, prefix, dest, d) ==
      var p := IngestFrom(xs, prefix, dest, d);
      if p.halt.Some? then p else IngestFrom(ys, prefix, dest, p.disk)
  {
    if xs != [] {
      assert (xs + ys)[0] == xs[0] && (xs + ys)[1..] == xs[1..] + ys;
      var p := ProcessEntry(xs[0], prefix, dest, d);
      if p.halt.None? {
        IngestAppend(xs[1..], ys, prefix, dest, p.disk);
      }
    } else {
      assert xs + ys == ys;
    }
  }

  /** The first entry that fails validation ends the request with 400; the
      entries after it are never looked at and the disk is as the entries
      before it left it. */
  lemma FirstInvalidEntryEndsRequest(before: seq<ZipEntry>, e: ZipEntry, after: seq<ZipEntry>,
                                     prefix: string, dest: Path, d: Disk)
    requires IngestFrom(before, prefix, dest, d).halt.None?
    requires StrippedName(e.name, prefix).Some?
    requires !ValidateZipFilePath(StrippedName(e.name, prefix).value, dest)
    ensures IngestFrom(before + [e] + after, prefix, dest, d) ==
      Progress(IngestFrom(before, prefix, dest, d).disk, Some(StatusBadRequest))
  {
    IngestAppend(before + [e], after, prefix, dest, d);
    IngestAppend(before, [e], prefix, dest, d);
  }

  /** Junk entries and the wrapper folder itself change nothing: dropping them
      from the archive gives the same outcome. */
  lemma {:induction false} SkippedEntriesIrrelevant(entries: seq<ZipEntry>, prefix: string, dest: Path, d: Disk)
    ensures IngestFrom(entries, prefix, dest, d) ==
      IngestFrom(Filter(entries, (e: ZipEntry) => StrippedName(e.name, prefix).Some?), prefix, dest, d)
  {
    if entries != [] {
      var p := ProcessEntry(entries[0], prefix, dest, d);
      if p.halt.None? {
        SkippedEntriesIrrelevant(entries[1..], prefix, dest, p.disk);
      }
    }
  }

  /** Every file or directory an archive creates or rewrites lies inside the
      bundle directory (or is that directory or one of its ancestors). */
  lemma {:induction false} IngestConfined(entries: seq<ZipEntry>, prefix: string, dest: Path, d: Disk)
    requires dest != [] && IsCleanAbs(dest)
    ensures Confined(d, IngestFrom(entries, prefix, dest, d).disk, dest)
  {
    if entries != [] {
      var p := ProcessEntry(entries[0], prefix, dest, d);
      EntryConfined(entries[0], prefix, dest, d);
      if p.halt.None? {
        IngestConfined(entries[1..], prefix, dest, p.disk);
        ConfinedTrans(d, p.disk, IngestFrom(entries[1..], prefix, dest, p.disk).disk, dest);
      }
    }
  }

  lemma EntryConfined(e: ZipEntry, prefix: string, dest: Path, d: Disk)
    requires dest != [] && IsCleanAbs(dest)
    ensures Confined(d, ProcessEntry(e, prefix, dest, d).disk, dest)
  {
    var s := StrippedName(e.name, prefix);
    if s.Some? && ValidateZipFilePath(s.value, dest) {
      var fpath := EntryWritePath(dest, s.value);
      ValidateZipFilePathIff(s.value, dest);
      assert StrictlyUnder(fpath, dest);
      DirsConfined(d, fpath, dest);
      DirsConfined(d, Dir(fpath), dest);
    }
  }

  lemma DirsConfined(d: Disk, p: Path, dest: Path)
    requires p <= dest || StrictlyUnder(p, dest)
    ensures Confined(d, WithDirs(d, p), dest)
  {
    forall q | q in Ancestors(p)
      ensures q <= dest || StrictlyUnder(q, dest)
    {
      if |q| > |dest| {
        assert q[..|dest|] == p[..|dest|];
      } else {
        assert q == p[..|q|];
        if !(p <= dest) {
          assert q == dest[..|q|];
        }
      }
    }
  }

  /** An entry inside the wrapper folder, without ".." segments, is written at
      the bundle directory plus its path below the wrapper folder: with prefix
      "game/", "game/assets/a.png" lands at <destDir>/assets/a.png. */
  lemma WrappedEntryLanding(e: ZipEntry, prefix: string, rest: string, dest: Path, d: Disk)
    requires dest != [] && IsCleanAbs(dest)
    requires prefix != "" && e.name == prefix + rest && !IsJunk(e.name) && rest != ""
    requires NoParent(Split(rest, '/')) && HasPlain(Split(rest, '/'))
    requires !e.isDir && e.fault == Intact
    ensures var fpath := dest + Filter(Split(rest, '/'), IsPlain);
      ProcessEntry(e, prefix, dest, d) == Progress(WithFile(WithDirs(d, Dir(fpath)), fpath, e.data), None)
  {
    assert StartsWith(e.name, prefix) && e.name[|prefix|..] == rest;
    PlainNameAccepted(rest, dest);
  }

  // ---------------------------------------------------------------------------
  // The write path as the handler computes it

  /** fpath := filepath.Join(destDir, name): the raw name joined onto the
      bundle directory and cleaned once, without cleaning the name first */
  function WritePathAsWritten(dest: Path, name: string): Path
  {
    Resolve(dest, Split(name, '/'), true)
  }

  lemma {:induction false} ResolveSnoc(stack: Path, segs: seq<string>, s: string, rooted: bool)
    ensures Resolve(stack, segs + [s], rooted) == Step(Resolve(stack, segs, rooted), s, rooted)
    decreases |segs|
  {
    if segs == [] {
      assert [] + [s] == [s];
    } else {
      assert (segs + [s])[1..] == segs[1..] + [s];
      ResolveSnoc(Step(stack, segs[0], rooted), segs[1..], s, rooted);
    }
  }

  /** Resolving segments onto a rooted path equals first cleaning them as a
      relative path and then resolving the result. */
  lemma {:induction false} ResolveThroughRelative(dest: Path, st: Path, segs: seq<string>)
    requires forall k :: 0 <= k < |st| ==> st[k] != "" && st[k] != "."
    ensures Resolve(Resolve(dest, st, true), segs, true) == Resolve(dest, Resolve(st, segs, false), true)
    decreases |segs|
  {
    if segs != [] {
      var s := segs[0];
      var st' := Step(st, s, false);
      StepThroughRelative(dest, st, s);
      ResolveThroughRelative(dest, st', segs[1..]);
    }
  }

  lemma StepThroughRelative(dest: Path, st: Path, s: string)
    requires forall k :: 0 <= k < |st| ==> st[k] != "" && st[k] != "."
    ensures Step(Resolve(dest, st, true), s, true) == Resolve(dest, Step(st, s, false), true)
  {
    if s == ".." {
      if |st| > 0 && st[|st| - 1] != ".." {
        var init := st[..|st| - 1];
        assert init + [st[|st| - 1]] == st;
        ResolveSnoc(dest, init, st[|st| - 1], true);
      } else {
        ResolveSnoc(dest, st, "..", true);
      }
    } else if s != "" && s != "." {
      ResolveSnoc(dest, st, s, true);
    }
  }

  /** For names that do not start with '/', the handler writes exactly where
      it validated. */
  lemma WritePathAgreesForRelativeNames(dest: Path, name: string)
    requires !StartsWith(name, "/")
    ensures WritePathAsWritten(dest, name) == EntryWritePath(dest, name)
  {
    ResolveThroughRelative(dest, [], Split(name, '/'));
  }

  lemma RootedClimbSegments(a: string)
    requires IsName(a)
    ensures Split("/../" + a, '/') == ["", "..", a]
  {
    SplitNoSeparator(a, '/');
    SplitAfterPiece("..", a, '/');
    SplitAfterPiece("", "../" + a, '/');
    assert "/../" + a == "" + "/" + ("../" + a);
    assert "../" + a == ".." + "/" + a;
  }

  /** A rooted name with ".." passes validation, because Clean drops ".." at the
      root, yet the raw Join climbs out: "/../x" is validated as <destDir>/x and
      written to <destDir>/../x. */
  lemma RootedClimbEscapes(dest: Path, a: string)
    requires dest != [] && IsCleanAbs(dest) && IsName(a)
    ensures ValidateZipFilePath("/../" + a, dest)
    ensures EntryWritePath(dest, "/../" + a) == dest + [a]
    ensures WritePathAsWritten(dest, "/../" + a) == Dir(dest) + [a]
    ensures !StrictlyUnder(WritePathAsWritten(dest, "/../" + a), dest)
  {
    var name := "/../" + a;
    RootedClimbSegments(a);
    var segs := ["", "..", a];
    assert segs[1..] == ["..", a] && segs[2..] == [a];
    assert StartsWith(name, "/");
    assert Resolve([], [a], true) == [a];
    assert Resolve([], ["..", a], true) == [a];
    assert CleanSegs(name) == [a];
    assert Step(dest, a, true) == dest + [a];
    assert Resolve(dest, [a], true) == dest + [a];
    assert JoinUnder(dest, name) == dest + [a];
    ValidateZipFilePathIff(name, dest);
    assert (dest + [a])[..|dest|] == dest;
    assert Resolve(dest, segs, true) == Resolve(Dir(dest), [a], true);
  }

  // ---------------------------------------------------------------------------
  // The handler after the archive is open

  datatype UploadResponse = Uploaded(gameId: string, playUrl: string) | Failed(status: int)

  datatype UploadOutcome = UploadOutcome(disk: Disk, response: UploadResponse)

  function UploadSpec(d: Disk, cwd: Path, id: string, entries: seq<ZipEntry>, destMkdirFails: bool): UploadOutcome
  {
    var dest := BundleDir(cwd, id);
    if destMkdirFails then UploadOutcome(d, Failed(StatusInternalServerError))
    else
      var names := seq(|entries|, i requires 0 <= i < |entries| => entries[i].name);
      var p := IngestFrom(entries, RootPrefixOf(names), dest, WithDirs(d, dest));
      if p.halt.Some? then UploadOutcome(p.disk, Failed(p.halt.value))
      else UploadOutcome(p.disk, Uploaded(id, "/play/" + id + "/"))
  }

  /** GameUploadHandler from the freshly minted id on: the bundle directory
      ./games/<id>/ is created, the entries are written, and the play URL is
      returned. `destMkdirFails` is the environment's answer to MkdirAll.
      Entries are written at their cleaned names, the corrected write path of
      IngestEntry. */
  method GameUpload(disk: LocalDisk, cwd: Path, id: string, entries: seq<ZipEntry>, destMkdirFails: bool)
    returns (response: UploadResponse)
    modifies disk
    ensures UploadOutcome(disk.State(), response) == UploadSpec(old(disk.State()), cwd, id, entries, destMkdirFails)
  {
    var dest := BundleDir(cwd, id);
    if destMkdirFails {
      return Failed(StatusInternalServerError);
    }
    disk.MkdirAll(dest);
    var names := seq(|entries|, i requires 0 <= i < |entries| => entries[i].name);
    var prefix := SingleRootPrefix(names);
    var halt := IngestEntries(disk, entries, prefix, dest);
    if halt.Some? {
      return Failed(halt.value);
    }
    return Uploaded(id, "/play/" + id + "/");
  }

  /** An upload either fails and reports a status, or succeeds with the new id
      and its play URL; in both cases everything it wrote is inside
      ./games/<id>/, apart from creating that directory's ancestors. */
  lemma UploadConfined(d: Disk, cwd: Path, id: string, entries: seq<ZipEntry>, destMkdirFails: bool)
    requires IsCleanAbs(cwd) && IsUuidText(id)
    ensures var o := UploadSpec(d, cwd, id, entries, destMkdirFails);
      && Confined(d, o.disk, BundleDir(cwd, id))
      && (o.response.Uploaded? ==> o.response.gameId == id && o.response.playUrl == "/play/" + id + "/")
      && (o.response.Failed? ==> o.response.status in {StatusBadRequest, StatusInternalServerError})
  {
    var dest := BundleDir(cwd, id);
    UuidIsName(id);
    assert IsCleanAbs(dest);
    if !destMkdirFails {
      var names := seq(|entries|, i requires 0 <= i < |entries| => entries[i].name);
      DirsConfined(d, dest, dest);
      IngestConfined(entries, RootPrefixOf(names), dest, WithDirs(d, dest));
      ConfinedTrans(d, WithDirs(d, dest), IngestFrom(entries, RootPrefixOf(names), dest, WithDirs(d, dest)).disk, dest);
      IngestHaltStatus(entries, RootPrefixOf(names), dest, WithDirs(d, dest));
    }
  }

  lemma {:induction false} IngestHaltStatus(entries: seq<ZipEntry>, prefix: string, dest: Path, d: Disk)
    ensures var h := IngestFrom(entries, prefix, dest, d).halt;
      h.Some? ==> h.value in {StatusBadRequest, StatusInternalServerError}
  {
    if entries != [] {
      var p := ProcessEntry(entries[0], prefix, dest, d);
      if p.halt.None? {
        IngestHaltStatus(entries[1..], prefix, dest, p.disk);
      }
    }
  }
}

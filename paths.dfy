/** Lexical path handling of Go's path/filepath on a Unix host (Clean, Join,
    Abs) and the zip-entry containment check of the game upload handler,
    api/handlers/gameUpload.go. A path is the list of its '/'-separated
    segments; an absolute cleaned path is a list of plain names. */
module Paths {
  import opened Common

  type Path = seq<string>

  /** A segment that survives filepath.Clean in an absolute path */
  predicate IsName(seg: string)
  {
    seg != "" && seg != "." && seg != ".." && '/' !in seg
  }

  predicate IsCleanAbs(p: Path)
  {
    forall i :: 0 <= i < |p| ==> IsName(p[i])
  }

  predicate IsHexOrDash(c: char)
  {
    '0' <= c <= '9' || 'a' <= c <= 'f' || c == '-'
  }

  /** The canonical text of a UUID (version 7 here): 36 lower-case hex digits and dashes */
  predicate IsUuidText(id: string)
  {
    |id| == 36 && forall i :: 0 <= i < |id| ==> IsHexOrDash(id[i])
  }

  lemma UuidIsName(id: string)
    requires IsUuidText(id)
    ensures IsName(id)
  {
    assert forall i :: 0 <= i < |id| ==> id[i] != '/';
  }

  /** One segment of filepath.Clean's lexical processing: "" and "." vanish, ".."
      removes the previous name, at the root of an absolute path ".." vanishes,
      and at the start of a relative path it is kept. */
  function Step(stack: Path, seg: string, rooted: bool): Path
  {
    if seg == "" || seg == "." then stack
    else if seg == ".." then
      if |stack| > 0 && stack[|stack| - 1] != ".." then stack[..|stack| - 1]
      else if rooted then stack
      else stack + [".."]
    else stack + [seg]
  }

  function Resolve(stack: Path, segs: seq<string>, rooted: bool): Path
    decreases |segs|
  {
    if segs == [] then stack else Resolve(Step(stack, segs[0], rooted), segs[1..], rooted)
  }

  /** The segments of filepath.Clean(name) */
  function CleanSegs(name: string): Path
  {
    Resolve([], Split(name, '/'), StartsWith(name, "/"))
  }

  /** The absolute, cleaned path of filepath.Join(dir, filepath.Clean(name)) when
      dir is the absolute cleaned path `dir`: Join concatenates with '/', so a
      leading '/' of the cleaned name only adds an empty segment. */
  function JoinUnder(dir: Path, name: string): Path
  {
    Resolve(dir, CleanSegs(name), true)
  }

  /** The bundle directory `filepath.Abs(filepath.Join("./games/" + id + "/"))`
      for the working directory `cwd` */
  function BundleDir(cwd: Path, id: string): Path
  {
    cwd + ["games", id]
  }

  /** The text of an absolute path: "/a/b" for ["a", "b"] */
  function Concat(p: Path): string
  {
    if p == [] then "" else "/" + p[0] + Concat(p[1..])
  }

  function AbsString(p: Path): string
  {
    if p == [] then "/" else Concat(p)
  }

  /** validateZipFilePath(name, destDir): the absolute form of
      Join(destDir, Clean(name)) must start with the absolute destDir plus "/". */
  predicate ValidateZipFilePath(name: string, dest: Path)
  {
    StartsWith(AbsString(JoinUnder(dest, name)), AbsString(dest) + "/")
  }

  predicate StrictlyUnder(p: Path, dir: Path)
  {
    |dir| < |p| && p[..|dir|] == dir
  }

  // ---------------------------------------------------------------------------
  // Resolution keeps absolute paths clean

  lemma {:induction false} ResolveClean(stack: Path, segs: seq<string>)
    requires IsCleanAbs(stack)
    requires forall k :: 0 <= k < |segs| ==> '/' !in segs[k]
    ensures IsCleanAbs(Resolve(stack, segs, true))
    decreases |segs|
  {
    if segs != [] {
      ResolveClean(Step(stack, segs[0], true), segs[1..]);
    }
  }

  lemma JoinUnderClean(dest: Path, name: string)
    requires IsCleanAbs(dest)
    ensures IsCleanAbs(JoinUnder(dest, name))
  {
    var segs := Split(name, '/');
    CleanSegsNoSlash([], segs, StartsWith(name, "/"));
    ResolveClean(dest, CleanSegs(name));
  }

  lemma {:induction false} CleanSegsNoSlash(stack: Path, segs: seq<string>, rooted: bool)
    requires forall k :: 0 <= k < |stack| ==> '/' !in stack[k]
    requires forall k :: 0 <= k < |segs| ==> '/' !in segs[k]
    ensures forall k :: 0 <= k < |Resolve(stack, segs, rooted)| ==> '/' !in Resolve(stack, segs, rooted)[k]
    decreases |segs|
  {
    if segs != [] {
      CleanSegsNoSlash(Step(stack, segs[0], rooted), segs[1..], rooted);
    }
  }

  // ---------------------------------------------------------------------------
  // The string test of validateZipFilePath is a segment-prefix test

  lemma ConcatStartsWithSlash(p: Path)
    requires p != []
    ensures |Concat(p)| > 0 && Concat(p)[0] == '/'
  {
  }

  /** A common prefix does not change whether one string starts with another. */
  lemma StartsWithCancel(c: string, a: string, b: string)
    ensures StartsWith(c + a, c + b) <==> StartsWith(a, b)
  {
    if |b| <= |a| {
      assert (c + a)[..|c + b|] == c + a[..|b|];
      if (c + a)[..|c + b|] == c + b {
        assert a[..|b|] == (c + a)[..|c + b|][|c|..];
      }
    }
  }

  /** Two different names followed by '/' (or by nothing) never start alike. */
  lemma DistinctNamesDiverge(f: string, d: string, x: string, y: string)
    requires f != d && '/' !in f && '/' !in d
    requires x == [] || x[0] == '/'
    requires |y| > 0 && y[0] == '/'
    ensures !StartsWith(f + x, d + y)
  {
    var a, b := f + x, d + y;
    if |b| <= |a| {
      if |f| == |d| {
        assert a[..|b|][..|d|] == f;
        assert b[..|d|] == d;
      } else if |f| < |d| {
        assert d[|f|] in d;
        assert a[..|b|][|f|] == '/' != b[|f|];
      } else {
        assert f[|d|] in f;
        assert a[..|b|][|d|] != '/' == b[|d|];
      }
    }
  }

  lemma {:induction false} ConcatPrefixIff(f: Path, d: Path)
    requires d != []
    requires IsCleanAbs(f) && IsCleanAbs(d)
    ensures StartsWith(Concat(f), Concat(d) + "/") <==> StrictlyUnder(f, d)
    decreases |d|
  {
    var pat := Concat(d) + "/";
    ConcatStartsWithSlash(d);
    if f == [] {
      assert !StartsWith(Concat(f), pat);
    } else {
      var x, y := Concat(f[1..]), Concat(d[1..]) + "/";
      assert Concat(f) == "/" + (f[0] + x);
      assert pat == "/" + (d[0] + y);
      StartsWithCancel("/", f[0] + x, d[0] + y);
      if d[1..] != [] {
        ConcatStartsWithSlash(d[1..]);
      }
      if f[1..] != [] {
        ConcatStartsWithSlash(f[1..]);
      }
      if f[0] == d[0] {
        StartsWithCancel(f[0], x, y);
        if d[1..] == [] {
          assert StrictlyUnder(f, d) <==> f[1..] != [];
        } else {
          ConcatPrefixIff(f[1..], d[1..]);
          assert StrictlyUnder(f, d) <==> StrictlyUnder(f[1..], d[1..]) by {
            if StrictlyUnder(f[1..], d[1..]) {
              assert f[..|d|] == [f[0]] + f[1..][..|d| - 1];
              assert d == [d[0]] + d[1..];
            }
            if StrictlyUnder(f, d) {
              assert f[1..][..|d| - 1] == f[..|d|][1..];
            }
          }
        }
      } else {
        DistinctNamesDiverge(f[0], d[0], x, y);
        if |d| <= |f| {
          assert f[..|d|][0] == f[0];
        }
      }
    }
  }

  /** The containment check accepts an entry exactly when the cleaned entry path,
      joined onto the bundle directory, is a strict descendant of it. */
  lemma ValidateZipFilePathIff(name: string, dest: Path)
    requires dest != [] && IsCleanAbs(dest)
    ensures ValidateZipFilePath(name, dest) <==> StrictlyUnder(JoinUnder(dest, name), dest)
  {
    var f := JoinUnder(dest, name);
    JoinUnderClean(dest, name);
    if f == [] {
      assert AbsString(f) == "/";
      assert !StartsWith("/", AbsString(dest) + "/") by {
        ConcatStartsWithSlash(dest);
      }
    } else {
      ConcatPrefixIff(f, dest);
    }
  }

  // ---------------------------------------------------------------------------
  // Which entry names pass

  /** Without ".." segments, resolution only drops "" and "." segments. */
  lemma {:induction false} ResolveWithoutParent(stack: Path, segs: seq<string>, rooted: bool)
    requires forall k :: 0 <= k < |segs| ==> segs[k] != ".."
    ensures Resolve(stack, segs, rooted) == stack + Filter(segs, IsPlain)
    decreases |segs|
  {
    if segs != [] {
      ResolveWithoutParent(Step(stack, segs[0], rooted), segs[1..], rooted);
      if IsPlain(segs[0]) {
        assert stack + [segs[0]] + Filter(segs[1..], IsPlain) == stack + Filter(segs, IsPlain);
      }
    }
  }

  predicate IsPlain(seg: string)
  {
    seg != "" && seg != "." && seg != ".."
  }

  predicate NoParent(segs: seq<string>)
  {
    forall k :: 0 <= k < |segs| ==> segs[k] != ".."
  }

  predicate HasPlain(segs: seq<string>)
  {
    exists k :: 0 <= k < |segs| && IsPlain(segs[k])
  }

  /** An entry name with no ".." segment and at least one real segment is
      accepted, and lands at the bundle directory plus its real segments. */
  lemma PlainNameAccepted(name: string, dest: Path)
    requires dest != [] && IsCleanAbs(dest)
    requires NoParent(Split(name, '/')) && HasPlain(Split(name, '/'))
    ensures JoinUnder(dest, name) == dest + Filter(Split(name, '/'), IsPlain)
    ensures ValidateZipFilePath(name, dest)
  {
    var segs := Split(name, '/');
    var plain := Filter(segs, IsPlain);
    ResolveWithoutParent([], segs, StartsWith(name, "/"));
    assert CleanSegs(name) == plain;
    assert NoParent(plain) by {
      forall k | 0 <= k < |plain|
        ensures plain[k] != ".."
      {
        assert plain[k] in plain;
      }
    }
    ResolveWithoutParent(dest, plain, true);
    FilterTwice(segs);
    assert JoinUnder(dest, name) == dest + plain;
    var k :| 0 <= k < |segs| && IsPlain(segs[k]);
    assert segs[k] in plain;
    ValidateZipFilePathIff(name, dest);
    assert (dest + plain)[..|dest|] == dest;
  }

  lemma {:induction false} FilterTwice(segs: seq<string>)
    ensures Filter(Filter(segs, IsPlain), IsPlain) == Filter(segs, IsPlain)
  {
    if segs != [] {
      FilterTwice(segs[1..]);
    }
  }

  /** A name made only of "" and "." segments cleans to "." and names the
      bundle directory itself, which is rejected. */
  lemma DotNameRejected(name: string, dest: Path)
    requires dest != [] && IsCleanAbs(dest)
    requires forall k :: 0 <= k < |Split(name, '/')| ==> Split(name, '/')[k] in {"", "."}
    ensures JoinUnder(dest, name) == dest
    ensures !ValidateZipFilePath(name, dest)
  {
    var segs := Split(name, '/');
    ResolveWithoutParent([], segs, StartsWith(name, "/"));
    FilterNone(segs);
    ValidateZipFilePathIff(name, dest);
  }

  lemma {:induction false} FilterNone(segs: seq<string>)
    requires forall k :: 0 <= k < |segs| ==> segs[k] in {"", "."}
    ensures Filter(segs, IsPlain) == []
  {
    if segs != [] {
      FilterNone(segs[1..]);
    }
  }

  lemma ClimbingSegments(a: string, b: string)
    requires IsName(a) && IsName(b)
    ensures CleanSegs("../../" + a + "/" + b) == ["..", "..", a, b]
  {
    var name := "../../" + a + "/" + b;
    ClimbingSplit(a, b);
    assert !StartsWith(name, "/") by {
      assert name[0] == '.';
    }
    ClimbingResolve(a, b);
  }

  lemma ClimbingSplit(a: string, b: string)
    requires IsName(a) && IsName(b)
    ensures Split("../../" + a + "/" + b, '/') == ["..", "..", a, b]
  {
    SplitNoSeparator(b, '/');
    SplitAfterPiece(a, b, '/');
    SplitAfterPiece("..", a + "/" + b, '/');
    SplitAfterPiece("..", "../" + a + "/" + b, '/');
    assert "../" + a + "/" + b == ".." + "/" + (a + "/" + b);
    assert "../../" + a + "/" + b == ".." + "/" + ("../" + a + "/" + b);
  }

  lemma ClimbingResolve(a: string, b: string)
    requires IsName(a) && IsName(b)
    ensures Resolve([], ["..", "..", a, b], false) == ["..", "..", a, b]
  {
    var segs := ["..", "..", a, b];
    assert segs[1..] == ["..", a, b] && segs[2..] == [a, b] && segs[3..] == [b];
    assert Resolve(["..", "..", a], [b], false) == segs;
    assert Step(["..", ".."], a, false) == ["..", "..", a];
    assert Resolve(["..", ".."], [a, b], false) == segs;
    assert Step([".."], "..", false) == ["..", ".."];
    assert Resolve([".."], ["..", a, b], false) == segs;
    assert Step([], "..", false) == [".."];
  }

  /** A traversal entry such as "../../etc/passwd" climbs out of the bundle
      directory and is rejected, whatever the working directory and bundle id. */
  lemma ClimbingEntryRejected(cwd: Path, id: string, a: string, b: string)
    requires IsCleanAbs(cwd) && IsUuidText(id) && IsName(a) && IsName(b)
    ensures JoinUnder(BundleDir(cwd, id), "../../" + a + "/" + b) == cwd + [a, b]
    ensures !ValidateZipFilePath("../../" + a + "/" + b, BundleDir(cwd, id))
  {
    var dest := BundleDir(cwd, id);
    UuidIsName(id);
    assert IsCleanAbs(dest);
    var name := "../../" + a + "/" + b;
    ClimbingSegments(a, b);
    var f := JoinUnder(dest, name);
    assert Resolve(cwd + [a], [b], true) == cwd + [a, b];
    assert Resolve(cwd, [a, b], true) == cwd + [a, b];
    assert Step(cwd + ["games"], "..", true) == cwd;
    assert ["..", a, b][1..] == [a, b];
    assert Resolve(cwd + ["games"], ["..", a, b], true) == cwd + [a, b];
    assert Step(dest, "..", true) == cwd + ["games"];
    assert f == cwd + [a, b];
    ValidateZipFilePathIff(name, dest);
  }

  /** Join does not treat a leading '/' as the root: an absolute entry name such
      as "/etc/passwd" stays inside the bundle directory and is accepted. */
  lemma AbsoluteEntryStaysInside(dest: Path, a: string, b: string)
    requires dest != [] && IsCleanAbs(dest) && IsName(a) && IsName(b)
    ensures JoinUnder(dest, "/" + a + "/" + b) == dest + [a, b]
    ensures ValidateZipFilePath("/" + a + "/" + b, dest)
  {
    var name := "/" + a + "/" + b;
    SplitNoSeparator(b, '/');
    SplitAfterPiece(a, b, '/');
    SplitAfterPiece("", a + "/" + b, '/');
    assert name == "" + "/" + (a + "/" + b);
    var segs := ["", a, b];
    assert Split(name, '/') == segs;
    assert IsPlain(segs[1]);
    assert segs[1..] == [a, b] && segs[2..] == [b];
    assert Filter([b], IsPlain) == [b];
    assert Filter([a, b], IsPlain) == [a, b];
    assert Filter(segs, IsPlain) == [a, b];
    PlainNameAccepted(name, dest);
  }
}

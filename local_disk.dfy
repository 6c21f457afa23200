/** The local file system the Go API writes game bundles to: regular files
    with their bytes and the set of existing directories, both keyed by
    absolute cleaned paths. */
module LocalStore {
  import opened Common
  import opened Paths

  datatype Disk = Disk(files: map<Path, seq<byte>>, dirs: set<Path>)

  /** os.Stat succeeds */
  predicate Exists(d: Disk, p: Path)
  {
    p in d.files || p in d.dirs
  }

  /** Every non-empty prefix of p: the directories os.MkdirAll(p) leaves behind */
  function Ancestors(p: Path): (r: set<Path>)
    ensures p != [] ==> p in r
    ensures forall q :: q in r ==> q != [] && q <= p
  {
    var r := set k | 1 <= k <= |p| :: p[..k];
    assert p[..|p|] == p;
    assert p != [] ==> p[..|p|] in r;
    assert forall q :: q in r ==> |q| >= 1 && q == p[..|q|];
    r
  }

  /** filepath.Dir on an absolute cleaned path */
  function Dir(p: Path): (r: Path)
    ensures p != [] ==> r + [p[|p| - 1]] == p
  {
    if p == [] then [] else p[..|p| - 1]
  }

  function WithDirs(d: Disk, p: Path): (r: Disk)
    ensures r.files == d.files && r.dirs == d.dirs + Ancestors(p)
  {
    d.(dirs := d.dirs + Ancestors(p))
  }

  function WithFile(d: Disk, p: Path, data: seq<byte>): (r: Disk)
    ensures r.dirs == d.dirs && p in r.files && r.files[p] == data
    ensures forall q :: q != p ==> (q in r.files <==> q in d.files)
    ensures forall q :: q != p && q in d.files ==> r.files[q] == d.files[q]
  {
    d.(files := d.files[p := data])
  }

  /** The first `written` bytes of data: what a failed io.Copy leaves behind */
  function Truncated(data: seq<byte>, written: nat): (r: seq<byte>)
    ensures r <= data
  {
    if written < |data| then data[..written] else data
  }

  /** `after` keeps every file of `before` with its bytes and every directory:
      nothing is overwritten or removed. */
  predicate Grows(before: Disk, after: Disk)
  {
    && before.files.Keys <= after.files.Keys
    && (forall p :: p in before.files ==> after.files[p] == before.files[p])
    && before.dirs <= after.dirs
  }

  lemma GrowsTrans(a: Disk, b: Disk, c: Disk)
    requires Grows(a, b) && Grows(b, c)
    ensures Grows(a, c)
  {
  }

  lemma GrowsKeepsExisting(a: Disk, b: Disk, p: Path)
    requires Grows(a, b) && Exists(a, p)
    ensures Exists(b, p)
  {
  }

  /** `before` only grows into `after`, and every file or directory that is new or
      rewritten lies inside `dir` (a directory may also be one of dir's own
      ancestors or dir itself). */
  predicate Confined(before: Disk, after: Disk, dir: Path)
  {
    && before.files.Keys <= after.files.Keys
    && before.dirs <= after.dirs
    && (forall p :: p in after.files && (p !in before.files || after.files[p] != before.files[p]) ==> StrictlyUnder(p, dir))
    && (forall p :: p in after.dirs && p !in before.dirs ==> p <= dir || StrictlyUnder(p, dir))
  }

  lemma ConfinedTrans(a: Disk, b: Disk, c: Disk, dir: Path)
    requires Confined(a, b, dir) && Confined(b, c, dir)
    ensures Confined(a, c, dir)
  {
    forall p | p in c.files && (p !in a.files || c.files[p] != a.files[p])
      ensures StrictlyUnder(p, dir)
    {
      if p in a.files && b.files[p] == a.files[p] {
        assert c.files[p] != b.files[p];
      } else if p !in a.files && p in b.files {
        assert StrictlyUnder(p, dir);
      }
    }
  }

  /** The disk as a mutable object: methods perform the effects the handlers
      perform, each stated by the function of the old state it computes. */
  class LocalDisk {
    var files: map<Path, seq<byte>>
    var dirs: set<Path>

    function State(): Disk
      reads this
    {
      Disk(files, dirs)
    }

    constructor(d: Disk)
      ensures State() == d
    {
      files := d.files;
      dirs := d.dirs;
    }

    /** os.Stat(p) == nil */
    method Stat(p: Path) returns (found: bool)
      ensures found <==> Exists(State(), p)
    {
      found := p in files || p in dirs;
    }

    /** os.MkdirAll(p, mode) */
    method MkdirAll(p: Path)
      modifies this
      ensures State() == WithDirs(old(State()), p)
    {
      dirs := dirs + Ancestors(p);
    }

    /** os.Create / os.OpenFile(p, O_WRONLY|O_CREATE|O_TRUNC) followed by a copy
        of `data` */
    method WriteFile(p: Path, data: seq<byte>)
      modifies this
      ensures State() == WithFile(old(State()), p, data)
    {
      files := files[p := data];
    }
  }
}

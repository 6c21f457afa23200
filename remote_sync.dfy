/** The remote-backed mirror of game bundles (api/sync/syncFromR2.go and
    api/sync/syncIndividualGame.go): the object store holds keys
    "games/<id>/<file>", the bulk reconcile copies every admitted bundle's
    missing files to /games, and the lazy hydrate copies one object to
    ./games/<id>. The object store is a map from keys to bytes; listing pages,
    download failures and local write failures are inputs. */
module RemoteSync {
  import opened Common
  import opened Paths
  import opened LocalStore

  const GamesPrefix := "games/"
  const IndexFile := "index.html"
  /** localFolder "/games" of the bulk reconcile */
  const SyncRoot: Path := ["games"]

  // ---------------------------------------------------------------------------
  // ListR2Objects

  /** One answer of the ListObjectsV2 paginator */
  datatype Page = Page(keys: seq<string>) | PageError

  datatype Listing = Listed(keys: seq<string>) | ListFailed

  /** The keys of all pages, in page order */
  function Flatten(pages: seq<Page>): seq<string>
  {
    if pages == [] then []
    else (if pages[0].Page? then pages[0].keys else []) + Flatten(pages[1..])
  }

  lemma {:induction false} FlattenSnoc(pages: seq<Page>, p: Page)
    ensures Flatten(pages + [p]) == Flatten(pages) + (if p.Page? then p.keys else [])
  {
    if pages == [] {
      assert [] + [p] == [p];
    } else {
      assert (pages + [p])[1..] == pages[1..] + [p];
      FlattenSnoc(pages[1..], p);
    }
  }

  predicate AnyPageError(pages: seq<Page>)
  {
    exists j :: 0 <= j < |pages| && pages[j].PageError?
  }

  /** ListR2Objects: every page's keys in order, or a failure as soon as one
      page cannot be fetched. */
  method ListR2Objects(pages: seq<Page>) returns (r: Listing)
    ensures AnyPageError(pages) <==> r.ListFailed?
    ensures r.Listed? ==> r.keys == Flatten(pages)
  {
    var keys: seq<string> := [];
    var i := 0;
    while i < |pages|
      invariant 0 <= i <= |pages|
      invariant !AnyPageError(pages[..i])
      invariant keys == Flatten(pages[..i])
    {
      if pages[i].PageError? {
        return ListFailed;
      }
      FlattenSnoc(pages[..i], pages[i]);
      assert pages[..i + 1] == pages[..i] + [pages[i]];
      keys := keys + pages[i].keys;
      i := i + 1;
    }
    assert pages[..i] == pages;
    return Listed(keys);
  }

  // ---------------------------------------------------------------------------
  // Grouping keys by bundle id

  /** strings.Split(strings.TrimPrefix(key, "games/"), "/") */
  function Parts(key: string): seq<string>
  {
    Split(TrimPrefix(key, GamesPrefix), '/')
  }

  /** A key with at least two parts after the prefix; others are ignored */
  predicate WellFormed(key: string)
  {
    |Parts(key)| >= 2
  }

  function GameIdOf(key: string): string
  {
    Parts(key)[0]
  }

  function FileNameOf(key: string): string
  {
    Parts(key)[|Parts(key)| - 1]
  }

  predicate InGroup(key: string, id: string)
  {
    WellFormed(key) && GameIdOf(key) == id
  }

  /** The keys of bundle `id`, in listing order */
  function GroupOf(keys: seq<string>, id: string): (r: seq<string>)
    ensures forall k :: k in r <==> k in keys && InGroup(k, id)
  {
    if keys == [] then []
    else (if InGroup(keys[0], id) then [keys[0]] else []) + GroupOf(keys[1..], id)
  }

  lemma {:induction false} GroupOfSnoc(keys: seq<string>, k: string, id: string)
    ensures GroupOf(keys + [k], id) == GroupOf(keys, id) + (if InGroup(k, id) then [k] else [])
  {
    if keys == [] {
      assert [] + [k] == [k];
    } else {
      assert (keys + [k])[1..] == keys[1..] + [k];
      GroupOfSnoc(keys[1..], k, id);
    }
  }

  /** A bundle is admitted when one of its keys ends in index.html, at any depth */
  predicate Admitted(keys: seq<string>, id: string)
  {
    exists k :: k in keys && InGroup(k, id) && FileNameOf(k) == IndexFile
  }

  function GroupIds(keys: seq<string>): set<string>
  {
    set k | k in keys && WellFormed(k) :: GameIdOf(k)
  }

  predicate IsAdmittedKey(keys: seq<string>, k: string)
  {
    k in keys && WellFormed(k) && Admitted(keys, GameIdOf(k))
  }

  lemma GroupIdsSnoc(keys: seq<string>, key: string)
    ensures GroupIds(keys + [key]) == GroupIds(keys) + (if WellFormed(key) then {GameIdOf(key)} else {})
  {
    var l, r := GroupIds(keys + [key]), GroupIds(keys) + (if WellFormed(key) then {GameIdOf(key)} else {});
    forall id | id in l
      ensures id in r
    {
      var k :| k in keys + [key] && WellFormed(k) && GameIdOf(k) == id;
      if k != key {
        assert k in keys;
      }
    }
    forall id | id in r
      ensures id in l
    {
      if id in GroupIds(keys) {
        var k :| k in keys && WellFormed(k) && GameIdOf(k) == id;
        assert k in keys + [key];
      } else {
        assert key in keys + [key];
      }
    }
  }

  lemma AdmittedSnoc(keys: seq<string>, key: string, id: string)
    ensures Admitted(keys + [key], id) <==> Admitted(keys, id) || (InGroup(key, id) && FileNameOf(key) == IndexFile)
  {
    if Admitted(keys + [key], id) && !Admitted(keys, id) {
      var k :| k in keys + [key] && InGroup(k, id) && FileNameOf(k) == IndexFile;
      assert k !in keys;
    }
    if Admitted(keys, id) {
      var k :| k in keys && InGroup(k, id) && FileNameOf(k) == IndexFile;
      assert k in keys + [key];
    }
    if InGroup(key, id) && FileNameOf(key) == IndexFile {
      assert key in keys + [key];
    }
  }

  lemma {:induction false} GroupOfEmpty(keys: seq<string>, id: string)
    requires id !in GroupIds(keys)
    ensures GroupOf(keys, id) == []
  {
    if keys != [] {
      assert GroupIds(keys[1..]) <= GroupIds(keys);
      assert !InGroup(keys[0], id);
      GroupOfEmpty(keys[1..], id);
    }
  }

  ghost predicate Grouped(keys: seq<string>, groups: map<string, seq<string>>, valid: set<string>)
  {
    && groups.Keys == GroupIds(keys)
    && (forall id :: id in groups ==> groups[id] == GroupOf(keys, id))
    && (forall id :: id in valid <==> Admitted(keys, id))
    && valid <= groups.Keys
  }

  /** The body of the grouping loop for one key: a key with at least two
      segments after "games/" is appended to its bundle's group, and admits
      the bundle when its last segment is index.html. */
  method GroupKey(key: string, groups: map<string, seq<string>>, valid: set<string>)
    returns (groups': map<string, seq<string>>, valid': set<string>)
    ensures !WellFormed(key) ==> groups' == groups && valid' == valid
    ensures WellFormed(key) ==> var id := GameIdOf(key);
      && valid' == (if FileNameOf(key) == IndexFile then valid + {id} else valid)
      && groups' == groups[id := (if id in groups then groups[id] else []) + [key]]
  {
    groups', valid' := groups, valid;
    var parts := Parts(key);
    if |parts| >= 2 {
      var gameId := parts[0];
      var fileName := parts[|parts| - 1];
      if fileName == IndexFile {
        valid' := valid' + {gameId};
      }
      if gameId !in groups' {
        groups' := groups'[gameId := []];
      }
      groups' := groups'[gameId := groups'[gameId] + [key]];
    }
  }

  /** The grouping loop: gameFiles (all keys of each bundle, in order) and
      validGames (the bundles with an index.html). */
  method GroupKeys(keys: seq<string>) returns (groups: map<string, seq<string>>, valid: set<string>)
    ensures groups.Keys == GroupIds(keys)
    ensures forall id :: id in groups ==> groups[id] == GroupOf(keys, id)
    ensures forall id :: id in valid <==> Admitted(keys, id)
    ensures valid <= groups.Keys
  {
    groups := map[];
    valid := {};
    var i := 0;
    while i < |keys|
      invariant 0 <= i <= |keys|
      invariant Grouped(keys[..i], groups, valid)
    {
      ghost var groups0, valid0 := groups, valid;
      groups, valid := GroupKey(keys[i], groups, valid);
      GroupStep(keys, i, groups0, valid0, groups, valid);
      i := i + 1;
    }
    assert keys[..i] == keys;
  }

  /** One iteration of the grouping loop, on key i, keeps the grouping of the
      keys seen so far. */
  lemma GroupStep(keys: seq<string>, i: nat,
                  groups: map<string, seq<string>>, valid: set<string>,
                  groups': map<string, seq<string>>, valid': set<string>)
    requires i < |keys|
    requires Grouped(keys[..i], groups, valid)
    requires !WellFormed(keys[i]) ==> groups' == groups && valid' == valid
    requires WellFormed(keys[i]) ==>
      var id := GameIdOf(keys[i]);
      && valid' == (if FileNameOf(keys[i]) == IndexFile then valid + {id} else valid)
      && groups' == groups[id := (if id in groups then groups[id] else []) + [keys[i]]]
    ensures Grouped(keys[..i + 1], groups', valid')
  {
    var prev, key, next := keys[..i], keys[i], keys[..i + 1];
    assert next == prev + [key];
    GroupFilesStep(prev, key, next, groups, groups');
    ValidStep(prev, key, next, valid, valid');
  }

  /** The file lists after one more key */
  lemma GroupFilesStep(prev: seq<string>, key: string, next: seq<string>,
                       groups: map<string, seq<string>>, groups': map<string, seq<string>>)
    requires next == prev + [key]
    requires groups.Keys == GroupIds(prev)
    requires forall id :: id in groups ==> groups[id] == GroupOf(prev, id)
    requires !WellFormed(key) ==> groups' == groups
    requires WellFormed(key) ==>
      groups' == groups[GameIdOf(key) := (if GameIdOf(key) in groups then groups[GameIdOf(key)] else []) + [key]]
    ensures groups'.Keys == GroupIds(next)
    ensures forall id :: id in groups' ==> groups'[id] == GroupOf(next, id)
  {
    GroupIdsSnoc(prev, key);
    forall id | id in groups'
      ensures groups'[id] == GroupOf(next, id)
    {
      GroupOfSnoc(prev, key, id);
      if WellFormed(key) && id == GameIdOf(key) && id !in groups {
        GroupOfEmpty(prev, id);
      }
    }
  }

  /** The admitted bundles after one more key */
  lemma ValidStep(prev: seq<string>, key: string, next: seq<string>, valid: set<string>, valid': set<string>)
    requires next == prev + [key]
    requires forall id :: id in valid <==> Admitted(prev, id)
    requires !WellFormed(key) ==> valid' == valid
    requires WellFormed(key) ==>
      valid' == (if FileNameOf(key) == IndexFile then valid + {GameIdOf(key)} else valid)
    ensures forall id :: id in valid' <==> Admitted(next, id)
  {
    forall id
      ensures id in valid' <==> Admitted(next, id)
    {
      AdmittedSnoc(prev, key, id);
    }
  }

  // ---------------------------------------------------------------------------
  // Downloading one bundle's missing files

  /** What goes wrong, if anything, while one key is copied: MkdirAll of the
      parent, GetObject, os.Create, io.Copy (leaving `written` bytes). */
  datatype FileFault = Intact | MkdirFails | GetFails | CreateFails | CopyFails(written: nat)

  function FaultOf(faults: map<string, FileFault>, key: string): FileFault
  {
    if key in faults then faults[key] else Intact
  }

  /** filepath.Join("/games", strings.TrimPrefix(key, "games/")) */
  function LocalPathOf(key: string): Path
  {
    Resolve(SyncRoot, Parts(key), true)
  }

  /** The disk after some keys, and the keys whose object was requested */
  datatype Run = Run(disk: Disk, fetched: set<string>)

  /** One iteration of the inner loop: an existing local path is left alone;
      otherwise the parent is created, the object fetched and written. A key
      missing from the store fails like any GetObject error. */
  function SyncKey(key: string, remote: map<string, seq<byte>>, faults: map<string, FileFault>, d: Disk): Run
  {
    var p := LocalPathOf(key);
    var fault := FaultOf(faults, key);
    if Exists(d, p) || fault == MkdirFails then Run(d, {})
    else
      var d1 := WithDirs(d, Dir(p));
      if fault == GetFails || key !in remote || fault == CreateFails then Run(d1, {key})
      else if fault.CopyFails? then Run(WithFile(d1, p, Truncated(remote[key], fault.written)), {key})
      else Run(WithFile(d1, p, remote[key]), {key})
  }

  function SyncKeys(keys: seq<string>, remote: map<string, seq<byte>>, faults: map<string, FileFault>, d: Disk): Run
  {
    if keys == [] then Run(d, {})
    else
      var first := SyncKey(keys[0], remote, faults, d);
      var rest := SyncKeys(keys[1..], remote, faults, first.disk);
      Run(rest.disk, first.fetched + rest.fetched)
  }

  /** Every file the disk gained came from the object store under a key of
      `from` that names that local path: its bytes are a prefix of the
      object's (all of it unless the copy failed). */
  predicate FromRemote(before: Disk, after: Disk, from: set<string>, remote: map<string, seq<byte>>)
  {
    forall p :: p in after.files && p !in before.files ==>
      exists k :: k in from && k in remote && LocalPathOf(k) == p && after.files[p] <= remote[k]
  }

  lemma SyncKeyEffect(key: string, remote: map<string, seq<byte>>, faults: map<string, FileFault>, d: Disk)
    ensures var r := SyncKey(key, remote, faults, d);
      && Grows(d, r.disk)
      && FromRemote(d, r.disk, {key}, remote)
      && (FaultOf(faults, key) == Intact && key in remote ==> Exists(r.disk, LocalPathOf(key)))
      && (forall k :: k in r.fetched ==> k == key && !Exists(d, LocalPathOf(k)))
  {
  }

  /** Downloading a bundle never overwrites or removes anything, only adds
      files fetched from the bundle's own keys, requests only keys whose
      local path is missing, and leaves every intact key's path present. */
  lemma {:induction false} SyncKeysEffect(keys: seq<string>, remote: map<string, seq<byte>>, faults: map<string, FileFault>, d: Disk)
    ensures var r := SyncKeys(keys, remote, faults, d);
      && Grows(d, r.disk)
      && FromRemote(d, r.disk, (set k | k in keys), remote)
      && (forall k :: k in keys && FaultOf(faults, k) == Intact && k in remote ==> Exists(r.disk, LocalPathOf(k)))
      && (forall k :: k in r.fetched ==> k in keys && !Exists(d, LocalPathOf(k)))
  {
    if keys != [] {
      var first := SyncKey(keys[0], remote, faults, d);
      var rest := SyncKeys(keys[1..], remote, faults, first.disk);
      SyncKeyEffect(keys[0], remote, faults, d);
      SyncKeysEffect(keys[1..], remote, faults, first.disk);
      GrowsTrans(d, first.disk, rest.disk);
      forall p | p in rest.disk.files && p !in d.files
        ensures exists k :: k in keys && k in remote && LocalPathOf(k) == p && rest.disk.files[p] <= remote[k]
      {
        if p in first.disk.files {
          var k :| k in {keys[0]} && k in remote && LocalPathOf(k) == p && first.disk.files[p] <= remote[k];
          assert rest.disk.files[p] == first.disk.files[p];
        } else {
          var k :| k in (set k | k in keys[1..]) && k in remote && LocalPathOf(k) == p && rest.disk.files[p] <= remote[k];
          assert k in keys;
        }
      }
      forall k | k in keys && FaultOf(faults, k) == Intact && k in remote
        ensures Exists(rest.disk, LocalPathOf(k))
      {
        if k == keys[0] {
          GrowsKeepsExisting(first.disk, rest.disk, LocalPathOf(k));
        } else {
          assert k in keys[1..];
        }
      }
      forall k | k in first.fetched + rest.fetched
        ensures k in keys && !Exists(d, LocalPathOf(k))
      {
        if k in rest.fetched && Exists(d, LocalPathOf(k)) {
          GrowsKeepsExisting(d, first.disk, LocalPathOf(k));
        }
      }
    }
  }

  // ---------------------------------------------------------------------------
  // SyncFromR2

  /** One iteration of the inner loop: the effects for one key, with an
      early `continue` where the source gives up on it; `got` is {key} once
      the object has been requested. */
  method DownloadKey(disk: LocalDisk, key: string, remote: map<string, seq<byte>>, faults: map<string, FileFault>)
    returns (got: set<string>)
    modifies disk
    ensures Run(disk.State(), got) == SyncKey(key, remote, faults, old(disk.State()))
  {
    var p := LocalPathOf(key);
    var fault := FaultOf(faults, key);
    var exists_ := disk.Stat(p);
    if exists_ {
      return {};
    }
    if fault == MkdirFails {
      return {};
    }
    disk.MkdirAll(Dir(p));
    got := {key};
    if fault == GetFails || key !in remote || fault == CreateFails {
      return;
    }
    if fault.CopyFails? {
      disk.WriteFile(p, Truncated(remote[key], fault.written));
    } else {
      disk.WriteFile(p, remote[key]);
    }
  }

  /** The inner loop over one bundle's keys */
  method DownloadGroup(disk: LocalDisk, files: seq<string>, remote: map<string, seq<byte>>, faults: map<string, FileFault>)
    returns (fetched: set<string>)
    modifies disk
    ensures Run(disk.State(), fetched) == SyncKeys(files, remote, faults, old(disk.State()))
  {
    fetched := {};
    var j := 0;
    while j < |files|
      invariant 0 <= j <= |files|
      invariant var r := SyncKeys(files[j..], remote, faults, disk.State());
        SyncKeys(files, remote, faults, old(disk.State())) == Run(r.disk, fetched + r.fetched)
    {
      ghost var before := disk.State();
      var got := DownloadKey(disk, files[j], remote, faults);
      DownloadStep(files, j, remote, faults, before, disk.State(), got, fetched);
      fetched := fetched + got;
      j := j + 1;
    }
  }

  /** Downloading key j moves the loop on by one key: what is left to do is
      SyncKeys on the keys after j, from the disk key j left. */
  lemma DownloadStep(files: seq<string>, j: nat, remote: map<string, seq<byte>>, faults: map<string, FileFault>,
                     d: Disk, d': Disk, got: set<string>, fetched: set<string>)
    requires j < |files|
    requires Run(d', got) == SyncKey(files[j], remote, faults, d)
    ensures var r := SyncKeys(files[j..], remote, faults, d);
      var r' := SyncKeys(files[j + 1..], remote, faults, d');
      Run(r.disk, fetched + r.fetched) == Run(r'.disk, fetched + got + r'.fetched)
  {
    assert files[j..][1..] == files[j + 1..];
  }

  datatype SyncReport = SyncDone(synced: nat, skipped: nat) | SyncFailed

  /** What the reconcile loop guarantees once the bundles in `done` are
      handled, relative to the disk `d0` it started from */
  ghost predicate Reconciled(keys: seq<string>, d0: Disk, d: Disk, done: set<string>, fetched: set<string>,
                             remote: map<string, seq<byte>>, faults: map<string, FileFault>)
  {
    && Grows(d0, d)
    && FromRemote(d0, d, (set k | k in keys && IsAdmittedKey(keys, k)), remote)
    && (forall k :: IsAdmittedKey(keys, k) && GameIdOf(k) in done && FaultOf(faults, k) == Intact && k in remote ==>
          Exists(d, LocalPathOf(k)))
    && (forall k :: k in fetched ==> IsAdmittedKey(keys, k) && !Exists(d0, LocalPathOf(k)))
  }

  /** What the grouping loop established about bundle `id` */
  ghost predicate GroupFact(keys: seq<string>, groups: map<string, seq<string>>, valid: set<string>, id: string)
    requires id in groups
  {
    groups[id] == GroupOf(keys, id) && (id in valid <==> Admitted(keys, id))
  }

  /** The loop over gameFiles, in an order the model leaves open */
  method ReconcileGroups(disk: LocalDisk, keys: seq<string>, groups: map<string, seq<string>>, valid: set<string>,
                         remote: map<string, seq<byte>>, faults: map<string, FileFault>)
    returns (synced: nat, skipped: nat, fetched: set<string>)
    requires valid <= groups.Keys
    requires forall id {:trigger GroupFact(keys, groups, valid, id)} :: id in groups ==> GroupFact(keys, groups, valid, id)
    modifies disk
    ensures synced == |valid| && skipped == |groups.Keys - valid|
    ensures Reconciled(keys, old(disk.State()), disk.State(), groups.Keys, fetched, remote, faults)
  {
    ghost var d0 := disk.State();
    synced, skipped, fetched := 0, 0, {};
    var remaining := groups.Keys;
    ghost var skippedIds := groups.Keys - valid;
    ghost var done: set<string> := {};
    while remaining != {}
      invariant remaining <= groups.Keys
      invariant done !! remaining && done + remaining == groups.Keys
      invariant Reconciled(keys, d0, disk.State(), done, fetched, remote, faults)
      invariant synced == |valid - remaining| && skipped == |skippedIds - remaining|
      decreases |remaining|
    {
      var id :| id in remaining;
      assert GroupFact(keys, groups, valid, id);
      var got := ReconcileGroup(disk, keys, id, id in valid, groups[id], remote, faults, d0, done, fetched);
      fetched := fetched + got;
      ghost var synced0, skipped0 := synced, skipped;
      if id !in valid {
        skipped := skipped + 1;
      } else {
        synced := synced + 1;
      }
      CountersStep(valid, skippedIds, groups.Keys, remaining, done, id, synced0, skipped0, synced, skipped);
      remaining := remaining - {id};
      done := done + {id};
    }
    assert valid - remaining == valid;
    assert skippedIds - remaining == skippedIds;
    assert done == groups.Keys;
  }

  /** One bundle of the loop: a bundle without index.html is skipped, any
      other has its files downloaded. */
  method ReconcileGroup(disk: LocalDisk, keys: seq<string>, id: string, isValid: bool, files: seq<string>,
                        remote: map<string, seq<byte>>, faults: map<string, FileFault>,
                        ghost d0: Disk, ghost done: set<string>, ghost fetched: set<string>)
    returns (got: set<string>)
    requires isValid <==> Admitted(keys, id)
    requires files == GroupOf(keys, id)
    requires Reconciled(keys, d0, disk.State(), done, fetched, remote, faults)
    modifies disk
    ensures !isValid ==> got == {} && disk.State() == old(disk.State())
    ensures Reconciled(keys, d0, disk.State(), done + {id}, fetched + got, remote, faults)
  {
    if !isValid {
      SkipKeepsInvariants(keys, id, d0, disk.State(), done, fetched, remote, faults);
      return {};
    }
    ghost var before := disk.State();
    got := DownloadGroup(disk, files, remote, faults);
    GroupStepKeepsInvariants(keys, id, files, remote, faults, d0, before, disk.State(), got, done, fetched);
  }

  /** Moving `id` from the ids still to visit to the visited ones keeps the
      partition and the two counters. */
  lemma CountersStep(valid: set<string>, skippedIds: set<string>, all: set<string>, remaining: set<string>,
                     done: set<string>, id: string, synced: nat, skipped: nat, synced': nat, skipped': nat)
    requires remaining <= all && done !! remaining && done + remaining == all && id in remaining
    requires skippedIds == all - valid
    requires synced == |valid - remaining| && skipped == |skippedIds - remaining|
    requires id in valid ==> synced' == synced + 1 && skipped' == skipped
    requires id !in valid ==> synced' == synced && skipped' == skipped + 1
    ensures remaining - {id} <= all
    ensures (done + {id}) !! (remaining - {id}) && (done + {id}) + (remaining - {id}) == all
    ensures synced' == |valid - (remaining - {id})| && skipped' == |skippedIds - (remaining - {id})|
  {
    CountStep(valid, remaining, id);
    MoveStep(done, remaining, all, id);
    CountStep(skippedIds, remaining, id);
  }

  lemma MoveStep(done: set<string>, remaining: set<string>, all: set<string>, id: string)
    requires done !! remaining && done + remaining == all && id in remaining
    ensures (done + {id}) !! (remaining - {id}) && (done + {id}) + (remaining - {id}) == all
  {
  }

  /** Taking `id` out of the ids still to visit adds one to the visited part of
      `s` exactly when id belongs to s. */
  lemma CountStep(s: set<string>, remaining: set<string>, id: string)
    requires id in remaining
    ensures |s - (remaining - {id})| == |s - remaining| + (if id in s then 1 else 0)
  {
    if id in s {
      assert s - (remaining - {id}) == (s - remaining) + {id};
    } else {
      assert s - (remaining - {id}) == s - remaining;
    }
  }

  /** SyncFromR2: with DEBUG_ENV "true" nothing happens; a listing failure is
      the only error; otherwise every admitted bundle's missing files are
      downloaded, nothing is overwritten, and the counters split the bundles
      into admitted (synced) and the rest (skipped). The map iteration order
      of the Go loop is left open. */
  method SyncFromR2(disk: LocalDisk, debugEnv: string, pages: seq<Page>,
                    remote: map<string, seq<byte>>, faults: map<string, FileFault>)
    returns (report: SyncReport, fetched: set<string>)
    modifies disk
    ensures debugEnv == "true" ==> report == SyncDone(0, 0) && fetched == {} && disk.State() == old(disk.State())
    ensures debugEnv != "true" && AnyPageError(pages) ==>
      report == SyncFailed && fetched == {} && disk.State() == old(disk.State())
    ensures debugEnv != "true" && !AnyPageError(pages) ==>
      var keys := Flatten(pages);
      && report.SyncDone?
      && report.synced == |set id | id in GroupIds(keys) && Admitted(keys, id)|
      && report.skipped == |set id | id in GroupIds(keys) && !Admitted(keys, id)|
      && report.synced + report.skipped == |GroupIds(keys)|
      && Grows(old(disk.State()), disk.State())
      && FromRemote(old(disk.State()), disk.State(), (set k | k in keys && IsAdmittedKey(keys, k)), remote)
      && (forall k :: IsAdmittedKey(keys, k) && FaultOf(faults, k) == Intact && k in remote ==>
            Exists(disk.State(), LocalPathOf(k)))
      && (forall k :: k in fetched ==> IsAdmittedKey(keys, k) && !Exists(old(disk.State()), LocalPathOf(k)))
  {
    if debugEnv == "true" {
      return SyncDone(0, 0), {};
    }
    var listing := ListR2Objects(pages);
    if listing.ListFailed? {
      return SyncFailed, {};
    }
    var keys := listing.keys;
    var groups, valid := GroupKeys(keys);
    var synced, skipped;
    ghost var d0 := disk.State();
    synced, skipped, fetched := ReconcileGroups(disk, keys, groups, valid, remote, faults);
    SyncSummary(keys, groups, valid, d0, disk.State(), fetched, remote, faults);
    return SyncDone(synced, skipped), fetched;
  }

  /** A set and its complement in a superset add up to the superset. */
  lemma SplitCount(all: set<string>, part: set<string>)
    requires part <= all
    ensures |part| + |all - part| == |all|
  {
    assert all == part + (all - part);
  }

  /** The grouping facts and the reconcile loop's guarantee, restated over the
      listing alone */
  lemma SyncSummary(keys: seq<string>, groups: map<string, seq<string>>, valid: set<string>,
                    d0: Disk, d: Disk, fetched: set<string>,
                    remote: map<string, seq<byte>>, faults: map<string, FileFault>)
    requires groups.Keys == GroupIds(keys) && forall id :: id in valid <==> Admitted(keys, id)
    requires Reconciled(keys, d0, d, groups.Keys, fetched, remote, faults)
    ensures valid == set id | id in GroupIds(keys) && Admitted(keys, id)
    ensures groups.Keys - valid == set id | id in GroupIds(keys) && !Admitted(keys, id)
    ensures |valid| + |groups.Keys - valid| == |GroupIds(keys)|
    ensures forall k :: IsAdmittedKey(keys, k) && FaultOf(faults, k) == Intact && k in remote ==>
              Exists(d, LocalPathOf(k))
  {
    assert valid <= groups.Keys;
    SplitCount(groups.Keys, valid);
    forall k | IsAdmittedKey(keys, k)
      ensures GameIdOf(k) in groups.Keys
    {
      assert GameIdOf(k) in GroupIds(keys);
    }
  }

  lemma SkipKeepsInvariants(keys: seq<string>, id: string, d0: Disk, d: Disk, done: set<string>, fetched: set<string>,
                            remote: map<string, seq<byte>>, faults: map<string, FileFault>)
    requires !Admitted(keys, id)
    requires Reconciled(keys, d0, d, done, fetched, remote, faults)
    ensures Reconciled(keys, d0, d, done + {id}, fetched, remote, faults)
  {
  }

  lemma GroupStepKeepsInvariants(keys: seq<string>, id: string, files: seq<string>,
                                 remote: map<string, seq<byte>>, faults: map<string, FileFault>,
                                 d0: Disk, before: Disk, after: Disk, got: set<string>,
                                 done: set<string>, fetched: set<string>)
    requires Admitted(keys, id) && files == GroupOf(keys, id)
    requires Run(after, got) == SyncKeys(files, remote, faults, before)
    requires Reconciled(keys, d0, before, done, fetched, remote, faults)
    ensures Reconciled(keys, d0, after, done + {id}, fetched + got, remote, faults)
  {
    var admittedKeys := set k | k in keys && IsAdmittedKey(keys, k);
    SyncKeysEffect(files, remote, faults, before);
    GrowsTrans(d0, before, after);
    forall p | p in after.files && p !in d0.files
      ensures exists k :: k in admittedKeys && k in remote && LocalPathOf(k) == p && after.files[p] <= remote[k]
    {
      if p in before.files {
        var k :| k in admittedKeys && k in remote && LocalPathOf(k) == p && before.files[p] <= remote[k];
        assert after.files[p] == before.files[p];
      } else {
        var k :| k in (set k | k in files) && k in remote && LocalPathOf(k) == p && after.files[p] <= remote[k];
        assert IsAdmittedKey(keys, k);
      }
    }
    forall k | IsAdmittedKey(keys, k) && GameIdOf(k) in done + {id} && FaultOf(faults, k) == Intact && k in remote
      ensures Exists(after, LocalPathOf(k))
    {
      if GameIdOf(k) in done {
        GrowsKeepsExisting(before, after, LocalPathOf(k));
      } else {
        assert k in files;
      }
    }
    forall k | k in got
      ensures IsAdmittedKey(keys, k) && !Exists(d0, LocalPathOf(k))
    {
      if Exists(d0, LocalPathOf(k)) {
        GrowsKeepsExisting(d0, before, LocalPathOf(k));
      }
    }
  }

  /** Bulk reconcile writes below /games while ingestion writes below
      <cwd>/games: a file of bundle id lands in the same place only when the
      working directory is the file-system root. */
  lemma SyncRootDiffersFromBundleRoot(cwd: Path, id: string, f: string)
    requires IsName(id) && IsName(f)
    ensures LocalPathOf(GamesPrefix + id + "/" + f) == ["games", id, f]
    ensures LocalPathOf(GamesPrefix + id + "/" + f) == BundleDir(cwd, id) + [f] <==> cwd == []
  {
    var key := GamesPrefix + id + "/" + f;
    assert StartsWith(key, GamesPrefix) && key[|GamesPrefix|..] == id + "/" + f;
    SplitNoSeparator(f, '/');
    SplitAfterPiece(id, f, '/');
    assert Parts(key) == [id, f];
    assert Resolve(SyncRoot + [id], [f], true) == ["games", id, f];
    if ["games", id, f] == BundleDir(cwd, id) + [f] {
      assert |cwd| == 0;
    }
  }

  // ---------------------------------------------------------------------------
  // FetchGameFromR2

  /** What goes wrong, if anything, after the existence check: MkdirAll of
      the parent, os.Create, io.Copy. A key missing from the store is the
      GetObject failure. */
  datatype HydrateFault = Fine | ParentFails | FileFails | WriteFails(written: nat)

  datatype HydrateOutcome = HydrateOutcome(disk: Disk, failed: bool, calledRemote: bool)

  /** filepath.Join("./games", gameID), made absolute against cwd */
  function HydratePath(cwd: Path, gameId: string): Path
  {
    Resolve(cwd + ["games"], Split(gameId, '/'), true)
  }

  function HydrateKey(gameId: string): string
  {
    GamesPrefix + gameId
  }

  function HydrateSpec(d: Disk, cwd: Path, gameId: string, remote: map<string, seq<byte>>, fault: HydrateFault): HydrateOutcome
  {
    var p := HydratePath(cwd, gameId);
    var key := HydrateKey(gameId);
    if Exists(d, p) then HydrateOutcome(d, false, false)
    else if fault == ParentFails then HydrateOutcome(d, true, false)
    else
      var d1 := WithDirs(d, Dir(p));
      if key !in remote || fault == FileFails then HydrateOutcome(d1, true, true)
      else if fault.WriteFails? then HydrateOutcome(WithFile(d1, p, Truncated(remote[key], fault.written)), true, true)
      else HydrateOutcome(WithFile(d1, p, remote[key]), false, true)
  }

  /** FetchGameFromR2: returns whether it failed and whether it asked the
      object store. */
  method FetchGameFromR2(disk: LocalDisk, cwd: Path, gameId: string, remote: map<string, seq<byte>>, fault: HydrateFault)
    returns (failed: bool, calledRemote: bool)
    modifies disk
    ensures HydrateOutcome(disk.State(), failed, calledRemote) == HydrateSpec(old(disk.State()), cwd, gameId, remote, fault)
  {
    var key := GamesPrefix + gameId;
    var localPath := HydratePath(cwd, gameId);
    var present := disk.Stat(localPath);
    if present {
      return false, false;
    }
    if fault == ParentFails {
      return true, false;
    }
    disk.MkdirAll(Dir(localPath));
    if key !in remote {
      return true, true;
    }
    if fault == FileFails {
      return true, true;
    }
    if fault.WriteFails? {
      disk.WriteFile(localPath, Truncated(remote[key], fault.written));
      return true, true;
    }
    disk.WriteFile(localPath, remote[key]);
    return false, true;
  }

  /** The hydrate target of a bundle id is the bundle directory ingestion
      creates, and the whole object is written there as one file. */
  lemma HydrateWritesBundleFile(d: Disk, cwd: Path, gameId: string, remote: map<string, seq<byte>>)
    requires IsName(gameId) && !Exists(d, BundleDir(cwd, gameId))
    requires HydrateKey(gameId) in remote
    ensures HydratePath(cwd, gameId) == BundleDir(cwd, gameId)
    ensures var o := HydrateSpec(d, cwd, gameId, remote, Fine);
      && !o.failed && o.calledRemote
      && o.disk.files == d.files[BundleDir(cwd, gameId) := remote[HydrateKey(gameId)]]
  {
    SplitNoSeparator(gameId, '/');
    assert Resolve(cwd + ["games"], [gameId], true) == cwd + ["games", gameId];
  }

  /** A present bundle short-circuits: no remote call and no change. After a
      successful hydrate the next call is such a no-op. */
  lemma HydrateIdempotent(d: Disk, cwd: Path, gameId: string, remote: map<string, seq<byte>>,
                          fault: HydrateFault, fault2: HydrateFault)
    ensures var o := HydrateSpec(d, cwd, gameId, remote, fault);
      !o.failed ==> HydrateSpec(o.disk, cwd, gameId, remote, fault2) == HydrateOutcome(o.disk, false, false)
  {
  }

  /** Failures before the copy create no file: a failed GetObject leaves the
      files as they were. */
  lemma HydrateGetFailureWritesNothing(d: Disk, cwd: Path, gameId: string, remote: map<string, seq<byte>>, fault: HydrateFault)
    requires HydrateKey(gameId) !in remote
    ensures var o := HydrateSpec(d, cwd, gameId, remote, fault);
      o.disk.files == d.files && (!Exists(d, HydratePath(cwd, gameId)) ==> o.failed)
  {
  }
}

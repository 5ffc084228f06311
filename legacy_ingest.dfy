/** The first generation's ingest: the chokidar event filter of the entry
    point, `fileWatcher` (an event becomes a 'new' or 'removed' file
    record) and `changeWatcher` (a 'new' record whose dataset hashes
    becomes 'queued'). Both run over the file-record store. */
module LegacyIngest {
  import opened Wrappers
  import opened Text
  import opened Classify
  import opened FileDb
  import opened FsTree
  import Scanner
  import Sweeps

  const RASTER_EXTENSIONS := [".jpg", ".jpeg"]
  const POINTS_EXTENSIONS := [".geojson", ".shp", ".kml", ".kmz"]
  const ANALYSIS_EXTENSIONS := [".tif", ".geotiff", ".tiff"]
  /** Every extension the service publishes. */
  const ALL_EXTENSIONS := RASTER_EXTENSIONS + POINTS_EXTENSIONS + ANALYSIS_EXTENSIONS

  const FILE_WATCHER_LOCK := "fileWatcher"
  const FILE_WATCHER_LOCK_TTL: nat := 20 * 60
  const CHANGE_WATCHER_LOCK := "changeWatcher"
  const CHANGE_WATCHER_LOCK_TTL: nat := 60 * 60

  // ---------------------------------------------------------------------
  // src/index.ts

  /** The events chokidar reports on the "all" channel. */
  datatype WatchEvent = Add | AddDir | Change | Unlink | UnlinkDir

  /** The event `fileWatcher` receives for a chokidar event it accepts. */
  function FileEventOf(e: WatchEvent): Option<Scanner.EventKind>
  {
    match e
    case Add => Some(Scanner.Add)
    case Change => Some(Scanner.Change)
    case Unlink => Some(Scanner.Unlink)
    case _ => None
  }

  /** `"." + s.split(".").pop()`: a dot and the text after the last '.'
      (all of `s` when it has none). */
  function DotExtension(s: string): (r: string)
    ensures |r| >= 1 && r[0] == '.'
  {
    "." + LastPiece(s, '.')
  }

  /** The entry point's filter: a file event, no "_output" anywhere in the
      path, and a dot extension (compared as written, case-sensitively) in
      one of the three lists. */
  predicate Forwarded(e: WatchEvent, path: string)
  {
    FileEventOf(e).Some? && !Contains(path, "_output") && DotExtension(path) in ALL_EXTENSIONS
  }

  /** A path that ends in ".sld" has ".sld" as its dot extension. */
  lemma DotExtensionOfSuffix(path: string)
    requires EndsWith(path, ".sld")
    ensures DotExtension(path) == ".sld"
  {
    var n := |path|;
    assert path[n - 4..] == ".sld";
    assert path[n - 4] == '.';
    var i := LastIndexOf(path, '.');
    assert path[n - 3..] == "sld";
    assert i == n - 4;
    assert path[i + 1..] == "sld";
  }

  /** Style files (".sld") never reach `fileWatcher`, whatever the event. */
  lemma StylesNeverForwarded(e: WatchEvent, path: string)
    requires EndsWith(path, ".sld")
    ensures !Forwarded(e, path)
  {
    DotExtensionOfSuffix(path);
  }

  /** Directory events never reach `fileWatcher`. */
  lemma DirectoryEventsDropped(path: string)
    ensures !Forwarded(AddDir, path) && !Forwarded(UnlinkDir, path)
  {
  }

  // ---------------------------------------------------------------------
  // src/watcher/fileWatcher.ts

  /** What one event does to the file records (once the lock is held). An
      'add' or 'change' of a tracked path marks it 'new' and keeps its
      other fields; of an untracked path that classifies, creates a 'new'
      record with an empty hash, the dataset directory as its basepath and
      no structure. An 'unlink' of a tracked path that classifies marks it
      'removed'. `saveFile` stamps `ts`. */
  function FileEvent(files: map<string, FileRecord>, event: Scanner.EventKind, path: string, now: int)
    : map<string, FileRecord>
  {
    var key := Normalize(path);
    if event == Scanner.Unlink then
      if CheckStructureLegacy(path, false).Some? && key in files then files[key := files[key].(status := Removed, ts := now)]
      else files
    else if key in files then files[key := files[key].(status := New, ts := now)]
    else
      match CheckStructureLegacy(path, false)
      case None => files
      case Some(s) => files[key := FileRecord(key, s.dir, "", New, now, None)]
  }

  /** An event touches at most the record of its own path: 'add' and
      'change' leave it 'new' (created when the path classifies), 'unlink'
      only marks an existing record 'removed'. */
  lemma FileEventMeaning(files: map<string, FileRecord>, event: Scanner.EventKind, path: string, now: int)
    ensures var r := FileEvent(files, event, path, now);
      forall k :: k != Normalize(path) ==> (k in r <==> k in files) && (k in r ==> r[k] == files[k])
    ensures var r := FileEvent(files, event, path, now);
      event != Scanner.Unlink ==>
        (Normalize(path) in r <==> Normalize(path) in files || CheckStructureLegacy(path, false).Some?)
        && (Normalize(path) in r ==> r[Normalize(path)].status == New && r[Normalize(path)].ts == now)
        && (Normalize(path) in files ==> r[Normalize(path)].(status := files[Normalize(path)].status, ts := files[Normalize(path)].ts)
                                         == files[Normalize(path)])
        && (Normalize(path) !in files && Normalize(path) in r ==>
              r[Normalize(path)].hash == "" && r[Normalize(path)].basepath == CheckStructureLegacy(path, false).value.dir)
    ensures var r := FileEvent(files, event, path, now);
      event == Scanner.Unlink ==>
        r.Keys == files.Keys
        && (Normalize(path) in files ==>
              r[Normalize(path)] == if CheckStructureLegacy(path, false).Some?
                                    then files[Normalize(path)].(status := Removed, ts := now)
                                    else files[Normalize(path)])
  {
  }

  /** The unlink branch as written: the path is classified from its last
      five segments, and the record looked up is the dataset directory's,
      not the file's. */
  function UnlinkAsWritten(files: map<string, FileRecord>, path: string, now: int): map<string, FileRecord>
  {
    match CheckStructureLegacy(path, true)
    case None => files
    case Some(s) =>
      var key := Normalize(s.dir);
      if key in files then files[key := files[key].(status := Removed, ts := now)] else files
  }

  /** As written, an unlink of a file inside a dataset folder
      ("files/<customer>/<year>/<type>/<dataset>/<file>", or deeper) is
      classified by the folder above the file, which is not a type, so the
      record is never marked removed. */
  lemma UnlinkAsWrittenMissesDatasetFiles(files: map<string, FileRecord>, path: string, now: int)
    requires var segs := Split(path, '/');
      |segs| >= 6 && Lower(segs[|segs| - 2]) != RASTER && Lower(segs[|segs| - 2]) != POINTS
      && Lower(segs[|segs| - 2]) != ANALYSIS
    ensures UnlinkAsWritten(files, path, now) == files
  {
    var segs := Split(path, '/');
    var last := segs[|segs| - 5..];
    assert LegacySegments(path, true) == last;
    assert last[3] == segs[|segs| - 2];
  }

  /** With the corrected unlink, a tracked file of a dataset folder is
      marked removed. */
  lemma UnlinkMarksDatasetFile(files: map<string, FileRecord>, path: string, now: int)
    requires Normalize(path) in files && CheckStructureLegacy(path, false).Some?
    ensures FileEvent(files, Scanner.Unlink, path, now)[Normalize(path)].status == Removed
  {
  }

  /** `fileWatcher(event, path)`, corrected: one attempt on the 'fileWatcher' lock (a
      held lock drops the event), then the record update; the lock is
      released in `finally`. The unlink branch uses the file's own path
      (see `UnlinkAsWritten` for the source's). An absent record read by
      `getFile` throws, which is caught. */
  method FileWatcher(db: Store, event: Scanner.EventKind, path: string, now: int)
    requires db.Valid()
    modifies db
    ensures db.Valid() && db.locks == old(db.locks) && db.snapshot == old(db.snapshot)
    ensures db.files == if Normalize(FILE_WATCHER_LOCK) in old(db.locks) then old(db.files)
                        else FileEvent(old(db.files), event, path, now)
  {
    var lock := db.AcquireLock(FILE_WATCHER_LOCK, FILE_WATCHER_LOCK_TTL);
    if !lock {
      return;
    }
    if event == Scanner.Add || event == Scanner.Change {
      var exists_ := db.CheckIfFileAlreadyExists(path);
      if exists_ {
        var file := db.GetFile(path);
        Sweeps.NormalizeKeeps(file.value.path);
        db.SaveFile(file.value.(status := New), now);
      } else {
        var structure := CheckStructureLegacy(path, false);
        if structure.Some? {
          db.SaveFile(FileRecord(path, structure.value.dir, "", New, now, None), now);
        }
      }
    } else {
      var structure := CheckStructureLegacy(path, false);
      if structure.Some? {
        var file := db.GetFile(path);
        if file.Returned? {
          Sweeps.NormalizeKeeps(file.value.path);
          db.SaveFile(file.value.(status := Removed), now);
        }
      }
    }
    db.ReleaseLock(FILE_WATCHER_LOCK);
  }

  // ---------------------------------------------------------------------
  // src/watcher/changeWatcher.ts

  /** The text `hashDirectory` returns when it is truthy: the hex digest
      (`hex`) of a non-empty file list. */
  function DigestText(h: DirHash, hex: seq<string> -> string): (r: Option<string>)
    ensures r.Some? ==> r.value != ""
  {
    if h.Digest? && hex(h.input) != "" then Some(hex(h.input)) else None
  }

  /** One record after the watcher: unchanged, or a 'new' record whose
      dataset hashes now holds the digest, is 'queued' and is stamped. */
  predicate Rehashed(before: FileRecord, after: FileRecord, hashDir: string -> DirHash, hex: seq<string> -> string,
                     now: int)
  {
    after == before
    || (before.status == New && DigestText(hashDir(before.basepath), hex).Some?
        && after == before.(hash := DigestText(hashDir(before.basepath), hex).value, status := Queued, ts := now))
  }

  /** The watcher's effect on the records, record by record. */
  predicate ChangeWatched(before: map<string, FileRecord>, after: map<string, FileRecord>, hashDir: string -> DirHash,
                          hex: seq<string> -> string, now: int)
  {
    before.Keys == after.Keys && forall k :: k in before ==> Rehashed(before[k], after[k], hashDir, hex, now)
  }

  /** No 'new' record's dataset makes `hashDirectory` throw. */
  predicate NoHashThrows(files: map<string, FileRecord>, hashDir: string -> DirHash)
  {
    forall k :: k in files && files[k].status == New ==> !hashDir(files[k].basepath).HashThrew?
  }

  /** Every 'new' record whose dataset hashes has been queued. */
  predicate AllHashableQueued(before: map<string, FileRecord>, after: map<string, FileRecord>,
                              hashDir: string -> DirHash, hex: seq<string> -> string, now: int)
    requires before.Keys == after.Keys
  {
    forall k :: k in before && before[k].status == New && DigestText(hashDir(before[k].basepath), hex).Some? ==>
      after[k] == before[k].(hash := DigestText(hashDir(before[k].basepath), hex).value, status := Queued, ts := now)
  }

  /** The records `list` names, as they are stored. */
  predicate Listing(files: map<string, FileRecord>, list: seq<FileRecord>)
  {
    forall i :: 0 <= i < |list| ==> list[i].path in files && files[list[i].path] == list[i]
  }

  /** The loop over the 'new' records: each is hashed by its basepath; a
      `null` (or empty) hash skips it, a thrown error ends the loop, a
      digest queues it. The source's "unchanged and done" skip tests a
      record already known to be 'new', so it never applies and is not
      modelled. */
  method RehashEach(db: Store, list: seq<FileRecord>, hashDir: string -> DirHash, hex: seq<string> -> string, now: int)
    returns (threw: bool)
    requires db.Valid() && Listing(db.files, list) && DistinctRecords(list)
    requires forall i :: 0 <= i < |list| ==> list[i].status == New
    modifies db
    ensures db.Valid() && db.locks == old(db.locks) && db.snapshot == old(db.snapshot)
    ensures ChangeWatched(old(db.files), db.files, hashDir, hex, now)
    ensures !threw ==> forall i :: 0 <= i < |list| && DigestText(hashDir(list[i].basepath), hex).Some? ==>
      db.files[list[i].path] == list[i].(hash := DigestText(hashDir(list[i].basepath), hex).value, status := Queued, ts := now)
    ensures threw ==> exists i :: 0 <= i < |list| && hashDir(list[i].basepath).HashThrew?
  {
    threw := false;
    var i := 0;
    while i < |list|
      invariant 0 <= i <= |list|
      invariant db.Valid() && db.locks == old(db.locks) && db.snapshot == old(db.snapshot)
      invariant ChangeWatched(old(db.files), db.files, hashDir, hex, now)
      invariant forall j :: i <= j < |list| ==> db.files[list[j].path] == list[j]
      invariant forall j :: 0 <= j < i && DigestText(hashDir(list[j].basepath), hex).Some? ==>
        db.files[list[j].path] == list[j].(hash := DigestText(hashDir(list[j].basepath), hex).value, status := Queued, ts := now)
    {
      var file := list[i];
      var h := hashDir(file.basepath);
      if h.HashThrew? {
        return true;
      }
      var text := DigestText(h, hex);
      if text.Some? {
        Sweeps.NormalizeKeeps(file.path);
        db.SaveFile(file.(hash := text.value, status := Queued), now);
      }
      i := i + 1;
    }
  }

  /** `changeWatcher()`, with `hashDir(basepath)` the result of
      `hashDirectory(basepath, extensions)`. The lock is taken inside the
      `try`, so a held lock is still deleted by the `finally`. */
  method ChangeWatcher(db: Store, hashDir: string -> DirHash, hex: seq<string> -> string, now: int)
    requires db.Valid()
    modifies db
    ensures db.Valid() && db.snapshot == old(db.snapshot)
    ensures db.locks == old(db.locks) - {Normalize(CHANGE_WATCHER_LOCK)}
    ensures Normalize(CHANGE_WATCHER_LOCK) in old(db.locks) ==> db.files == old(db.files)
    ensures ChangeWatched(old(db.files), db.files, hashDir, hex, now)
    ensures Normalize(CHANGE_WATCHER_LOCK) !in old(db.locks) && NoHashThrows(old(db.files), hashDir) ==>
      AllHashableQueued(old(db.files), db.files, hashDir, hex, now)
  {
    var lock := db.AcquireLock(CHANGE_WATCHER_LOCK, CHANGE_WATCHER_LOCK_TTL);
    if lock {
      var newFiles := db.GetFilesByStatus(New);
      var threw := false;
      if |newFiles| > 0 {
        threw := RehashEach(db, newFiles, hashDir, hex, now);
      }
      if threw {
        var i :| 0 <= i < |newFiles| && hashDir(newFiles[i].basepath).HashThrew?;
        assert old(db.files)[newFiles[i].path] == newFiles[i];
      } else {
        forall k | k in old(db.files) && old(db.files)[k].status == New
                   && DigestText(hashDir(old(db.files)[k].basepath), hex).Some?
          ensures db.files[k] ==
            old(db.files)[k].(hash := DigestText(hashDir(old(db.files)[k].basepath), hex).value, status := Queued, ts := now)
        {
          assert k in Paths(newFiles);
          var r :| r in newFiles && r.path == k;
          var i :| 0 <= i < |newFiles| && newFiles[i] == r;
        }
      }
    }
    db.ReleaseLock(CHANGE_WATCHER_LOCK);
  }

  /** `hashDirectory(path, undefined)`: the source hashes with
      `environments.extensions`, which the environment does not define.
      Testing any file's extension then calls `map` on `undefined` and
      throws; a tree without files hashes to `null`; so no digest is ever
      produced. */
  function HashWithoutExtensions(target: Option<Entry>): (r: DirHash)
    ensures !r.Digest?
  {
    if target.None? then NullHash
    else
      match target.value
      case File(_, regular, _, _) => if regular then HashThrew else NullHash
      case Dir(_, readable, cs) => if !readable || WalkThrows(cs) then HashThrew else NullHash
  }

  /** The walk without an extension list throws at the first file or
      unreadable folder. */
  predicate WalkThrows(es: seq<Entry>)
    decreases es
  {
    es != [] &&
    match es[0]
    case File(_, _, _, _) => true
    case Dir(_, readable, cs) => !readable || WalkThrows(cs) || WalkThrows(es[1..])
  }

  /** As written, the watcher queues nothing: with every hash `null` or
      thrown, each record keeps its state. */
  lemma UndefinedExtensionsQueueNothing(before: map<string, FileRecord>, after: map<string, FileRecord>,
                                        tree: string -> Option<Entry>, hex: seq<string> -> string, now: int)
    requires ChangeWatched(before, after, p => HashWithoutExtensions(tree(p)), hex, now)
    ensures after == before
  {
    forall k | k in before ensures after[k] == before[k] {
      assert Rehashed(before[k], after[k], p => HashWithoutExtensions(tree(p)), hex, now);
      assert !HashWithoutExtensions(tree(before[k].basepath)).Digest?;
    }
  }

  /** A dataset folder holding any file makes the hash throw as written,
      which ends the whole pass. */
  lemma DatasetWithFileThrows(name: string, children: seq<Entry>, i: nat)
    requires i < |children| && children[i].File?
    ensures HashWithoutExtensions(Some(Dir(name, true, children))) == HashThrew
  {
    WalkThrowsAt(children, i);
  }

  lemma {:induction false} WalkThrowsAt(es: seq<Entry>, i: nat)
    requires i < |es| && es[i].File?
    ensures WalkThrows(es)
    decreases i
  {
    if i > 0 && !es[0].File? {
      WalkThrowsAt(es[1..], i - 1);
    }
  }

  /** A walk only adds to what it has collected. */
  lemma {:induction false} WalkGrows(dir: string, es: seq<Entry>, exts: seq<string>, acc: seq<Found>)
    ensures WalkSpec(dir, es, exts, acc).Some? ==> |WalkSpec(dir, es, exts, acc).value| >= |acc|
    decreases es
  {
    if es != [] {
      var full := PathJoin(dir, es[0].name);
      match es[0]
      case Dir(_, readable, cs) =>
        if readable {
          WalkGrows(full, cs, exts, acc);
          var inner := WalkSpec(full, cs, exts, acc);
          if inner.Some? {
            WalkGrows(dir, es[1..], exts, inner.value);
          }
        }
      case File(name, _, _, content) =>
        WalkGrows(dir, es[1..], exts, if ExtensionMatches(name, exts) then acc + [Found(full, content)] else acc);
    }
  }

  /** A walk that meets a matching file collects at least one file. */
  lemma {:induction false} WalkFindsMatch(dir: string, es: seq<Entry>, exts: seq<string>, acc: seq<Found>, i: nat)
    requires i < |es| && es[i].File? && ExtensionMatches(es[i].name, exts)
    ensures WalkSpec(dir, es, exts, acc).Some? ==> |WalkSpec(dir, es, exts, acc).value| > 0
    decreases i
  {
    var full := PathJoin(dir, es[0].name);
    if i == 0 {
      WalkGrows(dir, es[1..], exts, acc + [Found(full, es[0].content)]);
    } else {
      match es[0]
      case Dir(_, readable, cs) =>
        if readable {
          var inner := WalkSpec(full, cs, exts, acc);
          if inner.Some? {
            WalkFindsMatch(dir, es[1..], exts, inner.value, i - 1);
          }
        }
      case File(name, _, _, content) =>
        WalkFindsMatch(dir, es[1..], exts, if ExtensionMatches(name, exts) then acc + [Found(full, content)] else acc, i - 1);
    }
  }

  /** With the publishable extensions, a readable dataset folder that holds
      a matching file and can be walked hashes to a digest. */
  lemma DatasetWithMatchDigests(path: string, name: string, children: seq<Entry>, i: nat)
    requires i < |children| && children[i].File? && ExtensionMatches(children[i].name, ALL_EXTENSIONS)
    requires WalkSpec(path, children, ALL_EXTENSIONS, []).Some?
    ensures HashSpec(Some(Dir(name, true, children)), path, ALL_EXTENSIONS).Digest?
  {
    WalkFindsMatch(path, children, ALL_EXTENSIONS, [], i);
  }

  // ---------------------------------------------------------------------
  // The process state of src/index.ts

  /** The entry point's state: whether chokidar has reported 'ready'. */
  class Control {
    var isChokidarReady: bool

    constructor()
      ensures !isChokidarReady
    {
      isChokidarReady := false;
    }

    /** The 'ready' listener. */
    method OnReady()
      modifies this
      ensures isChokidarReady
    {
      isChokidarReady := true;
    }

    /** The "all" listener: a forwarded event runs `fileWatcher`, in its
        corrected form (`FileWatcher`, whose unlink marks the file's own
        record). The ready flag is passed only as the logging switch. */
    method OnEvent(db: Store, e: WatchEvent, path: string, now: int)
      requires db.Valid()
      modifies db
      ensures db.Valid() && db.locks == old(db.locks) && db.snapshot == old(db.snapshot)
      ensures db.files ==
        if Forwarded(e, path) && Normalize(FILE_WATCHER_LOCK) !in old(db.locks)
        then FileEvent(old(db.files), FileEventOf(e).value, path, now)
        else old(db.files)
    {
      if !(e == Add || e == Change || e == Unlink) {
        return;
      }
      if Contains(path, "_output") {
        return;
      }
      var ext := DotExtension(path);
      if !(ext in ANALYSIS_EXTENSIONS || ext in POINTS_EXTENSIONS || ext in RASTER_EXTENSIONS) {
        return;
      }
      FileWatcher(db, FileEventOf(e).value, path, now);
    }

    /** The five-second timer of `changeWatcher`, which runs only once
        chokidar is ready. Corrected: hashing uses every publishable
        extension, where the source passes the undefined
        `environments.extensions` (see `HashWithoutExtensions`). */
    method OnChangeTick(db: Store, tree: string -> Option<Entry>, hex: seq<string> -> string, now: int)
      requires db.Valid()
      modifies db
      ensures db.Valid() && db.snapshot == old(db.snapshot)
      ensures !isChokidarReady ==> db.files == old(db.files) && db.locks == old(db.locks)
      ensures isChokidarReady ==>
        db.locks == old(db.locks) - {Normalize(CHANGE_WATCHER_LOCK)}
        && ChangeWatched(old(db.files), db.files, p => HashSpec(tree(p), p, ALL_EXTENSIONS), hex, now)
      ensures isChokidarReady && Normalize(CHANGE_WATCHER_LOCK) !in old(db.locks)
              && NoHashThrows(old(db.files), p => HashSpec(tree(p), p, ALL_EXTENSIONS)) ==>
        AllHashableQueued(old(db.files), db.files, p => HashSpec(tree(p), p, ALL_EXTENSIONS), hex, now)
    {
      if isChokidarReady {
        ChangeWatcher(db, p => HashSpec(tree(p), p, ALL_EXTENSIONS), hex, now);
      }
    }
  }

  /** Once chokidar is ready and nothing throws, a 'new' record whose
      dataset folder holds a publishable file is queued with its digest. */
  lemma ReadyTickQueuesDatasetWithFile(before: map<string, FileRecord>, after: map<string, FileRecord>,
                                       tree: string -> Option<Entry>, hex: seq<string> -> string, now: int,
                                       k: string, name: string, children: seq<Entry>, i: nat)
    requires before.Keys == after.Keys
    requires AllHashableQueued(before, after, p => HashSpec(tree(p), p, ALL_EXTENSIONS), hex, now)
    requires k in before && before[k].status == New && tree(before[k].basepath) == Some(Dir(name, true, children))
    requires i < |children| && children[i].File? && ExtensionMatches(children[i].name, ALL_EXTENSIONS)
    requires WalkSpec(before[k].basepath, children, ALL_EXTENSIONS, []).Some?
    requires forall x :: hex(x) != ""
    ensures HashSpec(tree(before[k].basepath), before[k].basepath, ALL_EXTENSIONS).Digest?
    ensures after[k].status == Queued
      && after[k].hash == hex(HashSpec(tree(before[k].basepath), before[k].basepath, ALL_EXTENSIONS).input)
  {
    var b := before[k].basepath;
    DatasetWithMatchDigests(b, name, children, i);
    QueuedWithDigest(before, after, p => HashSpec(tree(p), p, ALL_EXTENSIONS), hex, now, k);
  }

  lemma QueuedWithDigest(before: map<string, FileRecord>, after: map<string, FileRecord>, hashDir: string -> DirHash,
                         hex: seq<string> -> string, now: int, k: string)
    requires before.Keys == after.Keys
    requires AllHashableQueued(before, after, hashDir, hex, now)
    requires k in before && before[k].status == New && hashDir(before[k].basepath).Digest?
    requires hex(hashDir(before[k].basepath).input) != ""
    ensures after[k].status == Queued && after[k].hash == hex(hashDir(before[k].basepath).input)
  {
  }
}

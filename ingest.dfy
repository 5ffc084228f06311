/** How a file change enters the current generation's store: the start-up
    sequence and event filter of uploader/src/index.ts, the analysis job
    (`fileAnalysisProcessor`), and the four per-type watchers of
    uploader/src/watcher, which all make the same hash-compare decision. */
module Ingest {
  import opened Wrappers
  import opened Text
  import opened Classify
  import opened FsTree
  import opened FileDb
  import opened Jobs
  import Scanner

  const WATCHER_LOCK_TTL: nat := 60 * 60
  const MAX_LOCK_ATTEMPTS: nat := 10

  // ---------------------------------------------------------------------
  // The hash-compare decision. `hashFile` either resolves to the MD5 digest
  // of the file or rejects (missing file, not a regular file, read error);
  // the empty string stands for a falsy digest, which the callers test for.

  /** The record handed to `saveFile` for a path with structure `s` and a
      truthy hash: nothing for a record already `done` with that hash, the
      existing record with the new hash and `queued` otherwise, and a fresh
      `queued` record under the dataset directory for an unknown path. */
  function Decision(files: map<string, FileRecord>, path: string, s: Structure, hash: string, now: int): Option<FileRecord>
  {
    var key := Normalize(path);
    if key in files then
      if hash == files[key].hash && files[key].status == Done then None
      else Some(files[key].(hash := hash, status := Queued))
    else Some(FileRecord(path, s.dir, hash, Queued, now, Some(s)))
  }

  /** The records after `saveFile(r)` at time `now`. */
  function Saved(files: map<string, FileRecord>, r: FileRecord, now: int): map<string, FileRecord>
  {
    files[Normalize(r.path) := r.(path := Normalize(r.path), ts := now)]
  }

  /** Whether the decision writes a record: a valid structure, a hash that
      resolved truthy, and no `done` record with the same hash. */
  predicate Writes(files: map<string, FileRecord>, path: string, hash: Outcome<string>)
  {
    CheckStructure(path, false).Some? && hash.Returned? && hash.value != "" &&
    Decision(files, path, CheckStructure(path, false).value, hash.value, 0).Some?
  }

  /** The records after the hash-compare step for `path`. */
  function Ingested(files: map<string, FileRecord>, path: string, hash: Outcome<string>, now: int): map<string, FileRecord>
  {
    if Writes(files, path, hash) then
      Saved(files, Decision(files, path, CheckStructure(path, false).value, hash.value, now).value, now)
    else files
  }

  /** Records stored under their own paths. */
  predicate Keyed(files: map<string, FileRecord>)
  {
    forall k :: k in files ==> files[k].path == k
  }

  /** What the step promises: only the path's own record can change; it is
      written exactly when the path is valid, the hash truthy and the stored
      record not already `done` with that hash; a written record is `queued`
      with the new hash, keeps the fields of an existing record and, for a
      new path, points at the dataset directory. */
  lemma IngestedMeaning(files: map<string, FileRecord>, path: string, hash: Outcome<string>, now: int)
    requires Keyed(files)
    ensures Keyed(Ingested(files, path, hash, now))
    ensures forall k :: k != Normalize(path) ==>
      (k in Ingested(files, path, hash, now) <==> k in files) &&
      (k in files ==> Ingested(files, path, hash, now)[k] == files[k])
    ensures Writes(files, path, hash) <==>
      CheckStructure(path, false).Some? && hash.Returned? && hash.value != "" &&
      !(Normalize(path) in files && files[Normalize(path)].hash == hash.value && files[Normalize(path)].status == Done)
    ensures !Writes(files, path, hash) ==> Ingested(files, path, hash, now) == files
    ensures Writes(files, path, hash) ==>
      var key := Normalize(path);
      var r := Ingested(files, path, hash, now)[key];
      r.status == Queued && r.hash == hash.value && r.ts == now && r.path == key &&
      (key in files ==> r.basepath == files[key].basepath && r.structure == files[key].structure) &&
      (key !in files ==> r.basepath == CheckStructure(path, false).value.dir &&
                         r.structure == CheckStructure(path, false))
  {
    assert Normalize(Normalize(path)) == Normalize(path);
  }

  /** A written record, once its dataset has been processed (`done`), is
      left alone when the same content is seen again: the decision is
      stable. */
  lemma ProcessedThenSkipped(files: map<string, FileRecord>, path: string, hash: Outcome<string>, now: int, later: int)
    requires Keyed(files)
    requires Writes(files, path, hash)
    ensures var after := Ingested(files, path, hash, now);
      var key := Normalize(path);
      key in after &&
      var processed := after[key := after[key].(status := Done)];
      !Writes(processed, path, hash) && Ingested(processed, path, hash, later) == processed
  {
    IngestedMeaning(files, path, hash, now);
  }

  /** A new hash for a processed file requeues it. */
  lemma ChangedContentRequeues(files: map<string, FileRecord>, path: string, hash: string)
    requires CheckStructure(path, false).Some? && hash != ""
    requires Normalize(path) in files && files[Normalize(path)].hash != hash
    ensures Writes(files, path, Returned(hash))
  {
  }

  /** The hash-compare body shared by the per-type watchers, in their order:
      classify, ask whether the record exists, hash, then write. `threw`
      reports the rejected hash, which the watchers catch and log. */
  method HashCompareWrite(db: Store, path: string, hash: Outcome<string>, now: int) returns (threw: bool)
    requires db.Valid()
    modifies db
    ensures db.Valid()
    ensures db.files == Ingested(old(db.files), path, hash, now)
    ensures threw <==> CheckStructure(path, false).Some? && hash.Threw?
    ensures db.locks == old(db.locks) && db.snapshot == old(db.snapshot)
  {
    var structure := CheckStructure(path, false);
    if structure.None? {
      return false;
    }
    var exists_ := db.CheckIfFileAlreadyExists(path);
    if hash.Threw? {
      return true;
    }
    if hash.value == "" {
      return false;
    }
    if exists_ {
      var file := db.GetFile(path);
      if file.Threw? {
        assert false;
        return false;
      }
      if hash.value == file.value.hash && file.value.status == Done {
        return false;
      }
      db.SaveFile(file.value.(hash := hash.value, status := Queued), now);
    } else {
      db.SaveFile(FileRecord(path, structure.value.dir, hash.value, Queued, now, structure), now);
    }
    return false;
  }

  // ---------------------------------------------------------------------
  // fileAnalysisProcessor

  /** The processing jobs that follow the step: one for the dataset of a
      written record, none otherwise. */
  function FollowUp(files: map<string, FileRecord>, path: string, hash: Outcome<string>): multiset<ProcessingJob>
  {
    if Writes(files, path, hash) then multiset{ProcessingJobFor(CheckStructure(path, false).value)}
    else multiset{}
  }

  /** `fileAnalysisProcessor(path)`: classify, hash, look the record up,
      then write and enqueue. A rejected hash is rethrown to the worker
      (`threw`). */
  method FileAnalysisProcessor(db: Store, queues: Queues, path: string, hash: Outcome<string>, now: int)
    returns (threw: bool)
    requires db.Valid()
    modifies db, queues
    ensures db.Valid()
    ensures threw <==> CheckStructure(path, false).Some? && hash.Threw?
    ensures db.files == Ingested(old(db.files), path, hash, now)
    ensures queues.processing == old(queues.processing) + FollowUp(old(db.files), path, hash)
    ensures queues.analysis == old(queues.analysis)
    ensures db.locks == old(db.locks) && db.snapshot == old(db.snapshot)
  {
    var structure := CheckStructure(path, false);
    if structure.None? {
      return false;
    }
    if hash.Threw? {
      return true;
    }
    if hash.value == "" {
      return false;
    }
    var exists_ := db.CheckIfFileAlreadyExists(path);
    if exists_ {
      var file := db.GetFile(path);
      if file.Threw? {
        assert false;
        return false;
      }
      if hash.value == file.value.hash && file.value.status == Done {
        return false;
      }
      db.SaveFile(file.value.(hash := hash.value, status := Queued), now);
      queues.EnqueueForFileProcessing(structure.value);
    } else {
      db.SaveFile(FileRecord(path, structure.value.dir, hash.value, Queued, now, structure), now);
      queues.EnqueueForFileProcessing(structure.value);
    }
    return false;
  }

  // ---------------------------------------------------------------------
  // The per-type watchers

  /** The bounded retry loop on the watcher's per-path lock succeeds. */
  predicate PathLockObtained(locks: map<string, nat>, key: string, releasedDuring: seq<bool>)
  {
    RetryOutcome(Normalize(key) in locks, releasedDuring, MAX_LOCK_ATTEMPTS).Some?
  }

  /** `rasterWatcher(path)`: under 'rasterWatcher::<path>', the
      hash-compare write; a rejected hash is logged and swallowed. */
  method RasterWatcher(db: Store, path: string, hash: Outcome<string>, now: int, releasedDuring: seq<bool>)
    requires db.Valid()
    modifies db
    ensures db.Valid() && db.snapshot == old(db.snapshot)
    ensures PathLockObtained(old(db.locks), "rasterWatcher::" + path, releasedDuring) ==>
      db.files == Ingested(old(db.files), path, hash, now) &&
      db.locks == old(db.locks) - {Normalize("rasterWatcher::" + path)}
    ensures !PathLockObtained(old(db.locks), "rasterWatcher::" + path, releasedDuring) ==>
      db.files == old(db.files)
  {
    var key := "rasterWatcher::" + path;
    var locked, tries := db.AcquireWithRetry(key, WATCHER_LOCK_TTL, MAX_LOCK_ATTEMPTS, releasedDuring);
    if !locked {
      return;
    }
    var threw := HashCompareWrite(db, path, hash, now);
    db.ReleaseLock(key);
  }

  /** The records after an 'unlink' reaches `pointsWatcher`: a path the
      full-path classifier accepts has its record marked `removed`, keeping
      its other fields; an unknown path makes `getFile` throw, which is
      logged, so nothing is created. */
  function Unlinked(files: map<string, FileRecord>, path: string, now: int): map<string, FileRecord>
  {
    var key := Normalize(path);
    if CheckStructure(path, true).None? || key !in files then files
    else files[key := files[key].(status := Removed, ts := now)]
  }

  /** An unlink only ever marks an existing record `removed`. */
  lemma UnlinkOnlyMarksRemoved(files: map<string, FileRecord>, path: string, now: int)
    ensures Unlinked(files, path, now).Keys == files.Keys
    ensures forall k :: k in files && k != Normalize(path) ==> Unlinked(files, path, now)[k] == files[k]
    ensures Normalize(path) in files && CheckStructure(path, true).Some? ==>
      Unlinked(files, path, now)[Normalize(path)] == files[Normalize(path)].(status := Removed, ts := now)
  {
  }

  /** `pointsWatcher(event, path)`: the hash-compare write for 'add' and
      'change', the removal mark for 'unlink', under
      'pointsWatcher::<path>'. */
  method PointsWatcher(db: Store, event: Scanner.EventKind, path: string, hash: Outcome<string>, now: int,
                       releasedDuring: seq<bool>)
    requires db.Valid()
    modifies db
    ensures db.Valid() && db.snapshot == old(db.snapshot)
    ensures PathLockObtained(old(db.locks), "pointsWatcher::" + path, releasedDuring) ==>
      db.locks == old(db.locks) - {Normalize("pointsWatcher::" + path)} &&
      db.files == if event == Scanner.Unlink then Unlinked(old(db.files), path, now)
                  else Ingested(old(db.files), path, hash, now)
    ensures !PathLockObtained(old(db.locks), "pointsWatcher::" + path, releasedDuring) ==>
      db.files == old(db.files)
  {
    var key := "pointsWatcher::" + path;
    var locked, tries := db.AcquireWithRetry(key, WATCHER_LOCK_TTL, MAX_LOCK_ATTEMPTS, releasedDuring);
    if !locked {
      return;
    }
    if event == Scanner.Add || event == Scanner.Change {
      var threw := HashCompareWrite(db, path, hash, now);
    }
    if event == Scanner.Unlink {
      var structure := CheckStructure(path, true);
      if structure.Some? {
        var file := db.GetFile(path);
        if file.Returned? {
          assert Normalize(Normalize(path)) == Normalize(path);
          db.SaveFile(file.value.(status := Removed), now);
        }
      }
    }
    db.ReleaseLock(key);
  }

  /** `analysisWatcher(event, path)`: like `pointsWatcher`, except that its
      unlink branch is commented out, so an 'unlink' changes nothing. */
  method AnalysisWatcher(db: Store, event: Scanner.EventKind, path: string, hash: Outcome<string>, now: int,
                         releasedDuring: seq<bool>)
    requires db.Valid()
    modifies db
    ensures db.Valid() && db.snapshot == old(db.snapshot)
    ensures PathLockObtained(old(db.locks), "analysisWatcher::" + path, releasedDuring) ==>
      db.locks == old(db.locks) - {Normalize("analysisWatcher::" + path)} &&
      db.files == if event == Scanner.Unlink then old(db.files) else Ingested(old(db.files), path, hash, now)
    ensures !PathLockObtained(old(db.locks), "analysisWatcher::" + path, releasedDuring) ==>
      db.files == old(db.files)
  {
    var key := "analysisWatcher::" + path;
    var locked, tries := db.AcquireWithRetry(key, WATCHER_LOCK_TTL, MAX_LOCK_ATTEMPTS, releasedDuring);
    if !locked {
      return;
    }
    if event == Scanner.Add || event == Scanner.Change {
      var threw := HashCompareWrite(db, path, hash, now);
    }
    db.ReleaseLock(key);
  }

  /** `stylesWatcher(path, shouldLog)` as written: its first statement logs
      `${event}`, a name declared nowhere in the module, so with `shouldLog`
      it throws a ReferenceError that the catch swallows, and no record is
      ever written. */
  method StylesWatcherAsWritten(db: Store, path: string, hash: Outcome<string>, now: int,
                                releasedDuring: seq<bool>, shouldLog: bool)
    requires db.Valid()
    modifies db
    ensures db.Valid() && db.snapshot == old(db.snapshot)
    ensures PathLockObtained(old(db.locks), "stylesWatcher::" + path, releasedDuring) ==>
      db.locks == old(db.locks) - {Normalize("stylesWatcher::" + path)}
    ensures shouldLog ==> db.files == old(db.files)
    ensures !shouldLog && PathLockObtained(old(db.locks), "stylesWatcher::" + path, releasedDuring) ==>
      db.files == Ingested(old(db.files), path, hash, now)
    ensures !PathLockObtained(old(db.locks), "stylesWatcher::" + path, releasedDuring) ==>
      db.files == old(db.files)
  {
    var key := "stylesWatcher::" + path;
    var locked, tries := db.AcquireWithRetry(key, WATCHER_LOCK_TTL, MAX_LOCK_ATTEMPTS, releasedDuring);
    if !locked {
      return;
    }
    if !shouldLog {
      var threw := HashCompareWrite(db, path, hash, now);
    }
    db.ReleaseLock(key);
  }

  /** Any valid path seen for the first time with a truthy hash: the
      as-written watcher with `shouldLog` leaves the store as it was, where
      the decision stores a `queued` record for it. */
  lemma StylesLogDropsWrite(path: string, hash: string, now: int)
    requires CheckStructure(path, false).Some? && hash != ""
    ensures Writes(map[], path, Returned(hash))
    ensures Normalize(path) in Ingested(map[], path, Returned(hash), now)
    ensures Ingested(map[], path, Returned(hash), now) != map[]
  {
  }

  /** `stylesWatcher(path)` with the log line that names no event: the
      hash-compare write under 'stylesWatcher::<path>'. */
  method StylesWatcher(db: Store, path: string, hash: Outcome<string>, now: int, releasedDuring: seq<bool>)
    requires db.Valid()
    modifies db
    ensures db.Valid() && db.snapshot == old(db.snapshot)
    ensures PathLockObtained(old(db.locks), "stylesWatcher::" + path, releasedDuring) ==>
      db.files == Ingested(old(db.files), path, hash, now) &&
      db.locks == old(db.locks) - {Normalize("stylesWatcher::" + path)}
    ensures !PathLockObtained(old(db.locks), "stylesWatcher::" + path, releasedDuring) ==>
      db.files == old(db.files)
  {
    var key := "stylesWatcher::" + path;
    var locked, tries := db.AcquireWithRetry(key, WATCHER_LOCK_TTL, MAX_LOCK_ATTEMPTS, releasedDuring);
    if !locked {
      return;
    }
    var threw := HashCompareWrite(db, path, hash, now);
    db.ReleaseLock(key);
  }

  // ---------------------------------------------------------------------
  // uploader/src/index.ts

  /** `watcherHandler`'s filter: output files and Finder metadata are
      dropped; the extension guard only tests that the configured list
      exists, which it always does. */
  predicate Forwarded(path: string)
  {
    !Contains(path, "_output") && !Contains(path, ".DS_Store")
  }

  /** `watcherHandler(path)`. */
  method WatcherHandler(queues: Queues, path: string)
    modifies queues
    ensures queues.analysis ==
      old(queues.analysis) + if Forwarded(path) then multiset{AnalysisJob(ANALYSIS_JOB, path)} else multiset{}
    ensures queues.processing == old(queues.processing)
  {
    if Contains(path, "_output") {
      return;
    }
    if Contains(path, ".DS_Store") {
      return;
    }
    queues.EnqueueForFileAnalysis(path);
  }

  /** The analysis jobs a sequence of watcher events leads to: one per
      'add' or 'change' of a forwarded path; 'unlink' has no listener. */
  function AnalysisJobs(events: seq<Scanner.Event>): multiset<AnalysisJob>
    decreases |events|
  {
    if events == [] then multiset{}
    else
      var e := events[|events| - 1];
      AnalysisJobs(events[..|events| - 1]) +
      if e.kind != Scanner.Unlink && Forwarded(e.path) then multiset{AnalysisJob(ANALYSIS_JOB, e.path)} else multiset{}
  }

  /** The number of 'add' events in a sequence. */
  function Adds(events: seq<Scanner.Event>): nat
    decreases |events|
  {
    if events == [] then 0
    else Adds(events[..|events| - 1]) + if events[|events| - 1].kind == Scanner.Add then 1 else 0
  }

  /** Every job comes from a forwarded 'add' or 'change' event. */
  lemma {:induction false} JobsComeFromForwardedEvents(events: seq<Scanner.Event>, j: AnalysisJob)
    requires j in AnalysisJobs(events)
    ensures j.name == ANALYSIS_JOB && Forwarded(j.path)
    ensures exists i :: 0 <= i < |events| && events[i].path == j.path && events[i].kind != Scanner.Unlink
    decreases |events|
  {
    var e := events[|events| - 1];
    var init := events[..|events| - 1];
    if j in AnalysisJobs(init) {
      JobsComeFromForwardedEvents(init, j);
      var i :| 0 <= i < |init| && init[i].path == j.path && init[i].kind != Scanner.Unlink;
      assert events[i] == init[i];
    } else {
      assert events[|events| - 1] == e;
    }
  }

  /** The state `main` keeps in closures: the progress counter, and whether
      the watcher has reported 'ready'. */
  class Control {
    const totalFiles: nat
    var processedFiles: nat
    var isFileWatcherReady: bool

    constructor(totalFiles: nat)
      ensures this.totalFiles == totalFiles && processedFiles == 0 && !isFileWatcherReady
    {
      this.totalFiles := totalFiles;
      processedFiles := 0;
      isFileWatcherReady := false;
    }

    /** The listeners of one watcher event: the progress counter counts an
        'add' before 'ready', and 'add' and 'change' go to `watcherHandler`. */
    method OnEvent(queues: Queues, e: Scanner.Event)
      modifies this, queues
      ensures isFileWatcherReady == old(isFileWatcherReady)
      ensures processedFiles == old(processedFiles) + if e.kind == Scanner.Add && !isFileWatcherReady then 1 else 0
      ensures queues.analysis == old(queues.analysis) +
        if e.kind != Scanner.Unlink && Forwarded(e.path) then multiset{AnalysisJob(ANALYSIS_JOB, e.path)} else multiset{}
      ensures queues.processing == old(queues.processing)
    {
      if e.kind == Scanner.Add {
        if !isFileWatcherReady {
          processedFiles := processedFiles + 1;
        }
        WatcherHandler(queues, e.path);
      } else if e.kind == Scanner.Change {
        WatcherHandler(queues, e.path);
      }
    }

    /** The 'ready' listener. */
    method OnReady()
      modifies this
      ensures isFileWatcherReady && processedFiles == old(processedFiles)
    {
      isFileWatcherReady := true;
    }
  }

  /** `main` up to the first scan: locks and interrupted work are recovered
      before the watcher exists, the tree is counted, the watcher's first
      run emits its events, then 'ready'. `root` is the tree at './files',
      `extensions` the configured list. The workers and the later timer
      ticks are not part of this sequence. */
  method StartUp(db: Store, queues: Queues, root: Option<Entry>, extensions: seq<string>, releasedDuring: seq<bool>)
    returns (control: Control, emitted: seq<Scanner.Event>)
    requires db.Valid()
    modifies db, queues
    ensures db.Valid()
    ensures db.files == RevertAll(old(db.files))
    ensures db.locks == map[]
    ensures control.totalFiles == CountSpec(root, None)
    ensures control.isFileWatcherReady
    ensures control.processedFiles == Adds(emitted)
    ensures queues.analysis == old(queues.analysis) + AnalysisJobs(emitted)
    ensures queues.processing == old(queues.processing)
    ensures Scanner.ScanSpec("./files", root, Some(extensions)).None? ==>
      emitted == [] && db.snapshot == old(db.snapshot)
    ensures Scanner.ScanSpec("./files", root, Some(extensions)).Some? ==>
      var cur := Scanner.ScanSpec("./files", root, Some(extensions)).value;
      db.snapshot == cur &&
      (forall e :: e in emitted <==> Scanner.Called(old(db.snapshot), cur, e)) &&
      Scanner.OnePerPath(emitted) && Scanner.UnlinksLast(emitted)
  {
    db.ReleaseAllLocks();
    db.RevertProcessingStatusToQueued();
    var totalFiles := CountTotalFiles(root, None);
    control := new Control(totalFiles);
    var watcher := new Scanner.FileWatcher("./files", extensions);
    emitted := watcher.DetectChanges(db, root, releasedDuring);
    var i := 0;
    while i < |emitted|
      invariant 0 <= i <= |emitted|
      invariant !control.isFileWatcherReady && control.totalFiles == totalFiles
      invariant control.processedFiles == Adds(emitted[..i])
      invariant queues.analysis == old(queues.analysis) + AnalysisJobs(emitted[..i])
      invariant queues.processing == old(queues.processing)
      modifies control, queues
    {
      assert emitted[..i + 1][..i] == emitted[..i];
      control.OnEvent(queues, emitted[i]);
      i := i + 1;
    }
    assert emitted[..|emitted|] == emitted;
    control.OnReady();
  }
}

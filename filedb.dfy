/** The current generation's Redis store: one hash per file under
    "file:::<path>", one string per lock under "lock:::<key>" with a TTL,
    and the persisted watcher snapshot. Keys are kept without their
    prefix; Redis glob patterns become plain prefix tests (keys hold no
    glob metacharacters). */
module FileDb {
  import opened Wrappers
  import opened Text
  import opened Classify

  datatype Status = New | Queued | Processing | Done | Removed | Ignored

  /** A file record; `structure` is `None` where a writer leaves it out. */
  datatype FileRecord = FileRecord(path: string, basepath: string, hash: string, status: Status,
                                   ts: int, structure: Option<Structure>)

  const FILE_PREFIX := "file:::"

  /** What startup recovery does to one record. */
  function Revert(r: FileRecord): FileRecord
  {
    if r.status == Processing then r.(status := Queued) else r
  }

  /** The records after `revertProcessingStatusToQueued`. */
  function RevertAll(files: map<string, FileRecord>): map<string, FileRecord>
  {
    map k | k in files :: Revert(files[k])
  }

  /** The records after `changeFileStatusByBasepath(prefix, status)`: every
      record whose key starts with `prefix` gets the status. */
  function WithStatusUnder(files: map<string, FileRecord>, prefix: string, status: Status): map<string, FileRecord>
  {
    map k | k in files :: if StartsWith(k, prefix) then files[k].(status := status) else files[k]
  }

  /** The records left by `removeFilesByBasepath(basepath)`. */
  function WithoutUnder(files: map<string, FileRecord>, basepath: string): map<string, FileRecord>
  {
    map k | k in files && !StartsWith(k, basepath + "/") :: files[k]
  }

  function Paths(rs: seq<FileRecord>): set<string>
  {
    set r | r in rs :: r.path
  }

  predicate DistinctRecords(rs: seq<FileRecord>)
  {
    forall i, j :: 0 <= i < j < |rs| ==> rs[i].path != rs[j].path
  }

  /** Startup recovery leaves no record in `processing`. */
  lemma RevertLeavesNoProcessing(files: map<string, FileRecord>)
    ensures forall k :: k in RevertAll(files) ==> RevertAll(files)[k].status != Processing
  {
  }

  /** Startup recovery changes only the status of `processing` records, to
      `queued`, and is idempotent. */
  lemma RevertChangesOnlyProcessing(files: map<string, FileRecord>)
    ensures RevertAll(files).Keys == files.Keys
    ensures forall k :: k in files && files[k].status != Processing ==> RevertAll(files)[k] == files[k]
    ensures forall k :: k in files && files[k].status == Processing ==>
      RevertAll(files)[k] == files[k].(status := Queued)
    ensures RevertAll(RevertAll(files)) == RevertAll(files)
  {
  }

  /** A status update that matches nothing changes nothing; otherwise it
      changes the status of exactly the matching records. The match is a
      plain prefix: "a/b" also matches "a/bc/x". */
  lemma StatusUpdateIsPrefixed(files: map<string, FileRecord>, prefix: string, status: Status)
    ensures (forall k :: k in files ==> !StartsWith(k, prefix)) ==> WithStatusUnder(files, prefix, status) == files
    ensures WithStatusUnder(files, prefix, status).Keys == files.Keys
    ensures forall k :: k in files ==>
      WithStatusUnder(files, prefix, status)[k].status == (if StartsWith(k, prefix) then status else files[k].status)
    ensures forall k :: k in files ==>
      WithStatusUnder(files, prefix, status)[k].(status := files[k].status) == files[k]
  {
  }

  /** The Redis instance of the current generation. */
  class Store {
    var files: map<string, FileRecord>
    var locks: map<string, nat>
    var snapshot: map<string, int>

    /** Every record is stored under its own normalised path. */
    ghost predicate Valid()
      reads this
    {
      forall k :: k in files ==> files[k].path == k && '\\' !in k
    }

    constructor()
      ensures Valid() && files == map[] && locks == map[] && snapshot == map[]
    {
      files, locks, snapshot := map[], map[], map[];
    }

    /** `checkIfFileAlreadyExists`. */
    method CheckIfFileAlreadyExists(path: string) returns (exists_: bool)
      ensures exists_ <==> Normalize(path) in files
    {
      exists_ := Normalize(path) in files;
    }

    /** `getFile`: an absent path reads back an empty hash whose missing
        structure fails to parse, so the call throws. */
    method GetFile(path: string) returns (r: Outcome<FileRecord>)
      requires Valid()
      ensures r.Returned? <==> Normalize(path) in files
      ensures r.Returned? ==> r.value == files[Normalize(path)] && r.value.path == Normalize(path)
    {
      var key := Normalize(path);
      if key !in files {
        return Threw;
      }
      return Returned(files[key]);
    }

    /** `saveFile`: writes the record under its normalised path and stamps
        `ts` with the current time, whatever the caller passed. */
    method SaveFile(file: FileRecord, now: int)
      requires Valid()
      modifies this
      ensures Valid()
      ensures files == old(files)[Normalize(file.path) := file.(path := Normalize(file.path), ts := now)]
      ensures locks == old(locks) && snapshot == old(snapshot)
    {
      var key := Normalize(file.path);
      files := files[key := file.(path := key, ts := now)];
    }

    /** `removeFile`. */
    method RemoveFile(path: string)
      requires Valid()
      modifies this
      ensures Valid()
      ensures files == old(files) - {Normalize(path)}
      ensures locks == old(locks) && snapshot == old(snapshot)
    {
      files := files - {Normalize(path)};
    }

    /** `removeFilesByBasepath`: deletes every record under `basepath + "/"`
        (the basepath is not normalised) and returns the deleted keys. */
    method RemoveFilesByBasepath(basepath: string) returns (keys: seq<string>)
      requires Valid()
      modifies this
      ensures Valid()
      ensures files == WithoutUnder(old(files), basepath)
      ensures (set x | x in keys) ==
        (set k | k in old(files) && StartsWith(k, basepath + "/") :: FILE_PREFIX + k)
      ensures locks == old(locks) && snapshot == old(snapshot)
    {
      var todo := files.Keys;
      ghost var done: set<string> := {};
      keys := [];
      while todo != {}
        invariant todo + done == old(files).Keys && todo !! done
        invariant files == map k | k in old(files) && !(k in done && StartsWith(k, basepath + "/")) :: old(files)[k]
        invariant (set x | x in keys) ==
          (set k | k in done && StartsWith(k, basepath + "/") :: FILE_PREFIX + k)
        invariant locks == old(locks) && snapshot == old(snapshot)
        decreases todo
      {
        var k :| k in todo;
        ghost var before := set d | d in done && StartsWith(d, basepath + "/") :: FILE_PREFIX + d;
        ghost var after := set d | d in done + {k} && StartsWith(d, basepath + "/") :: FILE_PREFIX + d;
        if StartsWith(k, basepath + "/") {
          assert after == before + {FILE_PREFIX + k};
          files := files - {k};
          keys := keys + [FILE_PREFIX + k];
        } else {
          assert after == before;
        }
        todo := todo - {k};
        done := done + {k};
      }
    }

    /** `getFilesByPattern`: exactly the records whose key contains the
        pattern, each once, in scan order. */
    method GetFilesByPattern(pattern: string) returns (result: seq<FileRecord>)
      requires Valid()
      ensures forall i :: 0 <= i < |result| ==> result[i].path in files && files[result[i].path] == result[i]
      ensures Paths(result) == set k | k in files && Contains(FILE_PREFIX + k, pattern)
      ensures DistinctRecords(result)
    {
      var todo := files.Keys;
      result := [];
      while todo != {}
        invariant todo <= files.Keys
        invariant forall i :: 0 <= i < |result| ==> result[i].path in files && files[result[i].path] == result[i]
        invariant forall i :: 0 <= i < |result| ==> result[i].path !in todo
        invariant Paths(result) == set k | k in files.Keys - todo && Contains(FILE_PREFIX + k, pattern)
        invariant DistinctRecords(result)
        decreases todo
      {
        var k :| k in todo;
        if Contains(FILE_PREFIX + k, pattern) {
          assert Paths(result + [files[k]]) == Paths(result) + {k};
          result := result + [files[k]];
        }
        todo := todo - {k};
      }
    }

    /** `getFilesByStatus`: exactly the records with that status, each once,
        in scan order. */
    method GetFilesByStatus(status: Status) returns (result: seq<FileRecord>)
      requires Valid()
      ensures forall i :: 0 <= i < |result| ==> result[i].path in files && files[result[i].path] == result[i]
      ensures forall i :: 0 <= i < |result| ==> result[i].status == status
      ensures Paths(result) == set k | k in files && files[k].status == status
      ensures DistinctRecords(result)
    {
      var todo := files.Keys;
      result := [];
      while todo != {}
        invariant todo <= files.Keys
        invariant forall i :: 0 <= i < |result| ==> result[i].path in files && files[result[i].path] == result[i]
        invariant forall i :: 0 <= i < |result| ==> result[i].status == status && result[i].path !in todo
        invariant Paths(result) == set k | k in files.Keys - todo && files[k].status == status
        invariant DistinctRecords(result)
        decreases todo
      {
        var k :| k in todo;
        if files[k].status == status {
          assert Paths(result + [files[k]]) == Paths(result) + {k};
          result := result + [files[k]];
        }
        todo := todo - {k};
      }
    }

    /** `acquireLock`: SET NX with a TTL. */
    method AcquireLock(key: string, ttl: nat) returns (acquired: bool)
      modifies this
      ensures acquired <==> Normalize(key) !in old(locks)
      ensures locks == if acquired then old(locks)[Normalize(key) := ttl] else old(locks)
      ensures Normalize(key) in locks
      ensures files == old(files) && snapshot == old(snapshot)
    {
      var k := Normalize(key);
      if k in locks {
        return false;
      }
      locks := locks[k := ttl];
      return true;
    }

    /** `releaseLock`: deletes the lock whoever holds it. */
    method ReleaseLock(key: string)
      modifies this
      ensures locks == old(locks) - {Normalize(key)}
      ensures files == old(files) && snapshot == old(snapshot)
    {
      locks := locks - {Normalize(key)};
    }

    /** A lock's TTL running out; an action of the environment. */
    method ExpireLock(key: string)
      modifies this
      ensures locks == old(locks) - {key}
      ensures files == old(files) && snapshot == old(snapshot)
    {
      locks := locks - {key};
    }

    /** `releaseAllLocks`: deletes every lock, one key at a time, and touches
        no file record. */
    method ReleaseAllLocks()
      modifies this
      ensures locks == map[]
      ensures files == old(files) && snapshot == old(snapshot)
    {
      var todo := locks.Keys;
      while todo != {}
        invariant locks.Keys == todo
        invariant files == old(files) && snapshot == old(snapshot)
        decreases todo
      {
        var k :| k in todo;
        locks := locks - {k};
        todo := todo - {k};
      }
    }

    /** `revertProcessingStatusToQueued`, one key at a time. */
    method RevertProcessingStatusToQueued()
      requires Valid()
      modifies this
      ensures Valid()
      ensures files == RevertAll(old(files))
      ensures locks == old(locks) && snapshot == old(snapshot)
    {
      var todo := files.Keys;
      while todo != {}
        invariant todo <= files.Keys == old(files).Keys
        invariant forall k :: k in files ==> files[k] == if k in todo then old(files)[k] else Revert(old(files)[k])
        invariant locks == old(locks) && snapshot == old(snapshot)
        decreases todo
      {
        var k :| k in todo;
        if files[k].status == Processing {
          files := files[k := files[k].(status := Queued)];
        }
        todo := todo - {k};
      }
    }

    /** `changeFileStatusByBasepath`: a plain prefix match on the normalised
        basepath; with no match it only warns. */
    method ChangeFileStatusByBasepath(basepath: string, status: Status)
      requires Valid()
      modifies this
      ensures Valid()
      ensures files == WithStatusUnder(old(files), Normalize(basepath), status)
      ensures locks == old(locks) && snapshot == old(snapshot)
    {
      var prefix := Normalize(basepath);
      var todo := files.Keys;
      while todo != {}
        invariant todo <= files.Keys == old(files).Keys
        invariant forall k :: k in files ==>
          files[k] == (if k !in todo && StartsWith(k, prefix) then old(files)[k].(status := status) else old(files)[k])
        invariant locks == old(locks) && snapshot == old(snapshot)
        decreases todo
      {
        var k :| k in todo;
        if StartsWith(k, prefix) {
          files := files[k := files[k].(status := status)];
        }
        todo := todo - {k};
      }
    }

    /** `checkRasterWatcherLock`: some lock key starts with "rasterWatcher". */
    method CheckRasterWatcherLock() returns (held: bool)
      ensures held <==> exists k :: k in locks && StartsWith(k, "rasterWatcher")
    {
      held := exists k :: k in locks && StartsWith(k, "rasterWatcher");
    }

    /** The persisted snapshot cell read by the file watcher. */
    method GetSnapshot() returns (s: map<string, int>)
      ensures s == snapshot
    {
      s := snapshot;
    }

    method SaveSnapshot(s: map<string, int>)
      modifies this
      ensures snapshot == s && files == old(files) && locks == old(locks)
    {
      snapshot := s;
    }

    /** The bounded retry loop every workflow wraps around `acquireLock`:
        at most `maxRetries` attempts with a random back-off between them.
        `releasedDuring[i]` says whether the holder gave the lock up during
        the back-off after failed attempt `i` (the delays themselves are not
        modelled). `tries` counts the `acquireLock` calls. */
    method AcquireWithRetry(key: string, ttl: nat, maxRetries: nat, releasedDuring: seq<bool>)
      returns (locked: bool, tries: nat)
      modifies this
      ensures RetryOutcome(Normalize(key) in old(locks), releasedDuring, maxRetries) ==
        if locked then Some(tries - 1) else None
      ensures !locked ==> tries == maxRetries
      ensures locked ==> locks == old(locks)[Normalize(key) := ttl]
      ensures !locked ==> locks == old(locks) || locks == old(locks) - {Normalize(key)}
      ensures files == old(files) && snapshot == old(snapshot)
    {
      var k := Normalize(key);
      var attempts := 0;
      tries := 0;
      while attempts < maxRetries
        invariant attempts <= maxRetries && tries == attempts
        invariant attempts == 0 ==> locks == old(locks)
        invariant attempts > 0 ==> k in old(locks)
        invariant attempts > 0 ==>
          RetryOutcome(true, releasedDuring, maxRetries) == RetryFrom(releasedDuring, attempts, maxRetries)
        invariant attempts > 0 ==>
          locks == (if ReleasedAfter(releasedDuring, attempts - 1) then old(locks) - {k} else old(locks))
        invariant files == old(files) && snapshot == old(snapshot)
        decreases maxRetries - attempts
      {
        var lock := AcquireLock(key, ttl);
        tries := tries + 1;
        if lock {
          assert locks == old(locks)[k := ttl];
          return true, tries;
        }
        if ReleasedAfter(releasedDuring, attempts) {
          ExpireLock(k);
        }
        attempts := attempts + 1;
      }
      return false, tries;
    }
  }

  /** Which attempt of the retry loop obtains the lock (counting from 0), if
      any: the first one when the lock is free, otherwise the one after the
      first back-off during which the holder released it. */
  function RetryOutcome(heldAtStart: bool, releasedDuring: seq<bool>, maxRetries: nat): (r: Option<nat>)
    ensures r.Some? ==> r.value < maxRetries
  {
    if maxRetries == 0 then None
    else if !heldAtStart then Some(0)
    else RetryFrom(releasedDuring, 1, maxRetries)
  }

  /** Whether the holder released the lock during the back-off after
      failed attempt `i`. */
  predicate ReleasedAfter(releasedDuring: seq<bool>, i: nat)
  {
    i < |releasedDuring| && releasedDuring[i]
  }

  /** The outcome from attempt `i` on, given that attempt `i - 1` failed. */
  function RetryFrom(releasedDuring: seq<bool>, i: nat, maxRetries: nat): (r: Option<nat>)
    requires i >= 1
    ensures r.Some? ==> i <= r.value < maxRetries
    decreases maxRetries - i
  {
    if i >= maxRetries then None
    else if ReleasedAfter(releasedDuring, i - 1) then Some(i)
    else RetryFrom(releasedDuring, i + 1, maxRetries)
  }
}

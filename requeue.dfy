/** Requeueing the style records of a customer's year after one of its
    layers was (re)published: every record whose key contains the pattern
    has the records under its basepath set to `queued`. */
module Requeue {
  import opened Text
  import opened Classify
  import opened FileDb
  import opened Jobs

  /** The pattern the workflows look for: the workspace name with its first
      '_' turned into '/', then "/styles/" and the layer type. */
  function StylePattern(ws: string, kind: string): (p: string)
    ensures EndsWith(p, "/styles/" + kind)
  {
    var p := ReplaceFirst(ws, '_', '/') + "/styles/" + kind;
    assert p[|p| - |"/styles/" + kind|..] == "/styles/" + kind;
    p
  }

  /** Whether `k` lies under the basepath of some record matching `pattern`. */
  predicate UnderMatch(files: map<string, FileRecord>, pattern: string, k: string)
  {
    exists j :: j in files && Contains(FILE_PREFIX + j, pattern) && StartsWith(k, Normalize(files[j].basepath))
  }

  /** The records after requeueing by the records that match `pattern`. */
  function RequeueUnder(files: map<string, FileRecord>, pattern: string): map<string, FileRecord>
  {
    map k | k in files :: if UnderMatch(files, pattern, k) then files[k].(status := Queued) else files[k]
  }

  /** Requeueing keeps every record and changes at most its status, to
      `queued`; records under no matching basepath are untouched. */
  lemma RequeueOnlyQueues(files: map<string, FileRecord>, pattern: string)
    ensures RequeueUnder(files, pattern).Keys == files.Keys
    ensures forall k :: k in files ==>
      RequeueUnder(files, pattern)[k] == files[k] || RequeueUnder(files, pattern)[k] == files[k].(status := Queued)
    ensures forall k :: k in files && !UnderMatch(files, pattern, k) ==> RequeueUnder(files, pattern)[k] == files[k]
  {
  }

  /** One `changeFileStatusByBasepath(basepath, 'queued')` per record, in
      the order given. */
  function RequeueBy(files: map<string, FileRecord>, recs: seq<FileRecord>): map<string, FileRecord>
    decreases |recs|
  {
    if recs == [] then files
    else WithStatusUnder(RequeueBy(files, recs[..|recs| - 1]), Normalize(recs[|recs| - 1].basepath), Queued)
  }

  predicate UnderSome(recs: seq<FileRecord>, k: string)
  {
    exists i :: 0 <= i < |recs| && StartsWith(k, Normalize(recs[i].basepath))
  }

  /** The order of the status updates does not matter: the outcome is that
      every record under one of the basepaths is `queued`. */
  lemma {:induction false} RequeueByMeaning(files: map<string, FileRecord>, recs: seq<FileRecord>)
    ensures RequeueBy(files, recs) ==
      map k | k in files :: if UnderSome(recs, k) then files[k].(status := Queued) else files[k]
    decreases |recs|
  {
    if recs != [] {
      var init := recs[..|recs| - 1];
      RequeueByMeaning(files, init);
      forall k | k in files
        ensures UnderSome(recs, k) <==> UnderSome(init, k) || StartsWith(k, Normalize(recs[|recs| - 1].basepath))
      {
        if UnderSome(recs, k) {
          var i :| 0 <= i < |recs| && StartsWith(k, Normalize(recs[i].basepath));
          if i < |recs| - 1 {
            assert init[i] == recs[i];
          }
        }
        if UnderSome(init, k) {
          var i :| 0 <= i < |init| && StartsWith(k, Normalize(init[i].basepath));
          assert recs[i] == init[i];
        }
      }
    }
  }

  function JobsFor(recs: seq<FileRecord>): multiset<ProcessingJob>
    requires forall i :: 0 <= i < |recs| ==> recs[i].structure.Some?
    decreases |recs|
  {
    if recs == [] then multiset{}
    else JobsFor(recs[..|recs| - 1]) + multiset{ProcessingJobFor(recs[|recs| - 1].structure.value)}
  }

  /** One processing job per requeued record. */
  lemma {:induction false} JobsForCount(recs: seq<FileRecord>)
    requires forall i :: 0 <= i < |recs| ==> recs[i].structure.Some?
    ensures |JobsFor(recs)| == |recs|
    ensures forall i :: 0 <= i < |recs| ==> ProcessingJobFor(recs[i].structure.value) in JobsFor(recs)
    decreases |recs|
  {
    if recs != [] {
      var init := recs[..|recs| - 1];
      JobsForCount(init);
      forall i | 0 <= i < |recs| - 1
        ensures ProcessingJobFor(recs[i].structure.value) in JobsFor(recs)
      {
        assert recs[i] == init[i];
      }
    }
  }

  /** Every record matching the pattern carries a structure. */
  predicate AllHaveStructure(files: map<string, FileRecord>, pattern: string)
  {
    forall j :: j in files && Contains(FILE_PREFIX + j, pattern) ==> files[j].structure.Some?
  }

  /** The requeue step of the points and analysis workflows: list the
      records matching the pattern; the log line that follows reads every
      record's structure, so a record without one makes the step throw
      before any update; otherwise set each record's basepath to `queued`. */
  method RequeueStyles(db: Store, pattern: string) returns (ok: bool, styles: seq<FileRecord>)
    requires db.Valid()
    modifies db
    ensures db.Valid()
    ensures Paths(styles) == set j | j in old(db.files) && Contains(FILE_PREFIX + j, pattern)
    ensures forall i :: 0 <= i < |styles| ==> styles[i].path in old(db.files) && old(db.files)[styles[i].path] == styles[i]
    ensures ok <==> AllHaveStructure(old(db.files), pattern)
    ensures ok <==> forall i :: 0 <= i < |styles| ==> styles[i].structure.Some?
    ensures db.files == if ok then RequeueUnder(old(db.files), pattern) else old(db.files)
    ensures db.locks == old(db.locks) && db.snapshot == old(db.snapshot)
  {
    styles := db.GetFilesByPattern(pattern);
    ok := forall i :: 0 <= i < |styles| ==> styles[i].structure.Some?;
    MatchedStructures(db.files, pattern, styles);
    if ok {
      MatchedRequeue(db.files, pattern, styles);
      RequeueEach(db, styles);
    }
  }

  /** As `RequeueStyles`, with one processing job enqueued for each
      requeued record's structure right after its status update. */
  method RequeueAndEnqueueStyles(db: Store, queues: Queues, pattern: string) returns (ok: bool, styles: seq<FileRecord>)
    requires db.Valid()
    modifies db, queues
    ensures db.Valid()
    ensures Paths(styles) == set j | j in old(db.files) && Contains(FILE_PREFIX + j, pattern)
    ensures forall i :: 0 <= i < |styles| ==> styles[i].path in old(db.files) && old(db.files)[styles[i].path] == styles[i]
    ensures ok <==> AllHaveStructure(old(db.files), pattern)
    ensures ok <==> forall i :: 0 <= i < |styles| ==> styles[i].structure.Some?
    ensures db.files == if ok then RequeueUnder(old(db.files), pattern) else old(db.files)
    ensures queues.processing == if ok then old(queues.processing) + JobsFor(styles) else old(queues.processing)
    ensures queues.analysis == old(queues.analysis)
    ensures db.locks == old(db.locks) && db.snapshot == old(db.snapshot)
  {
    styles := db.GetFilesByPattern(pattern);
    ok := forall i :: 0 <= i < |styles| ==> styles[i].structure.Some?;
    MatchedStructures(db.files, pattern, styles);
    if ok {
      MatchedRequeue(db.files, pattern, styles);
      RequeueEachAndEnqueue(db, queues, styles);
    }
  }

  /** The status updates of `RequeueStyles`, one record at a time. */
  method RequeueEach(db: Store, styles: seq<FileRecord>)
    requires db.Valid()
    modifies db
    ensures db.Valid()
    ensures db.files == RequeueBy(old(db.files), styles)
    ensures db.locks == old(db.locks) && db.snapshot == old(db.snapshot)
  {
    var i := 0;
    while i < |styles|
      invariant 0 <= i <= |styles|
      invariant db.Valid()
      invariant db.files == RequeueBy(old(db.files), styles[..i])
      invariant db.locks == old(db.locks) && db.snapshot == old(db.snapshot)
    {
      assert styles[..i + 1][..i] == styles[..i];
      db.ChangeFileStatusByBasepath(styles[i].basepath, Queued);
      i := i + 1;
    }
    assert styles[..i] == styles;
  }

  /** The status updates and enqueues of `RequeueAndEnqueueStyles`. */
  method RequeueEachAndEnqueue(db: Store, queues: Queues, styles: seq<FileRecord>)
    requires db.Valid()
    requires forall i :: 0 <= i < |styles| ==> styles[i].structure.Some?
    modifies db, queues
    ensures db.Valid()
    ensures db.files == RequeueBy(old(db.files), styles)
    ensures queues.processing == old(queues.processing) + JobsFor(styles)
    ensures queues.analysis == old(queues.analysis)
    ensures db.locks == old(db.locks) && db.snapshot == old(db.snapshot)
  {
    var i := 0;
    while i < |styles|
      invariant 0 <= i <= |styles|
      invariant db.Valid()
      invariant db.files == RequeueBy(old(db.files), styles[..i])
      invariant queues.processing == old(queues.processing) + JobsFor(styles[..i])
      invariant queues.analysis == old(queues.analysis)
      invariant db.locks == old(db.locks) && db.snapshot == old(db.snapshot)
    {
      assert styles[..i + 1][..i] == styles[..i];
      db.ChangeFileStatusByBasepath(styles[i].basepath, Queued);
      queues.EnqueueForFileProcessing(styles[i].structure.value);
      i := i + 1;
    }
    assert styles[..i] == styles;
  }

  /** The listed records carry structures exactly when all matching records
      do. */
  lemma MatchedStructures(files: map<string, FileRecord>, pattern: string, styles: seq<FileRecord>)
    requires Paths(styles) == set j | j in files && Contains(FILE_PREFIX + j, pattern)
    requires forall i :: 0 <= i < |styles| ==> styles[i].path in files && files[styles[i].path] == styles[i]
    ensures (forall i :: 0 <= i < |styles| ==> styles[i].structure.Some?) <==> AllHaveStructure(files, pattern)
  {
    if forall i :: 0 <= i < |styles| ==> styles[i].structure.Some? {
      forall j | j in files && Contains(FILE_PREFIX + j, pattern)
        ensures files[j].structure.Some?
      {
        assert j in Paths(styles);
        var r :| r in styles && r.path == j;
        var i :| 0 <= i < |styles| && styles[i] == r;
      }
    }
    if AllHaveStructure(files, pattern) {
      forall i | 0 <= i < |styles|
        ensures styles[i].structure.Some?
      {
        assert styles[i].path in Paths(styles);
      }
    }
  }

  /** Requeueing by the listed matching records is requeueing by the
      pattern. */
  lemma MatchedRequeue(files: map<string, FileRecord>, pattern: string, styles: seq<FileRecord>)
    requires Paths(styles) == set j | j in files && Contains(FILE_PREFIX + j, pattern)
    requires forall i :: 0 <= i < |styles| ==> styles[i].path in files && files[styles[i].path] == styles[i]
    ensures RequeueBy(files, styles) == RequeueUnder(files, pattern)
  {
    RequeueByMeaning(files, styles);
    forall k | k in files
      ensures UnderSome(styles, k) <==> UnderMatch(files, pattern, k)
    {
      if UnderSome(styles, k) {
        var i :| 0 <= i < |styles| && StartsWith(k, Normalize(styles[i].basepath));
        assert styles[i].path in Paths(styles);
      }
      if UnderMatch(files, pattern, k) {
        var j :| j in files && Contains(FILE_PREFIX + j, pattern) && StartsWith(k, Normalize(files[j].basepath));
        assert j in Paths(styles);
        var r :| r in styles && r.path == j;
        var i :| 0 <= i < |styles| && styles[i] == r;
        assert StartsWith(k, Normalize(styles[i].basepath));
      }
    }
  }
}

/** The polling `FileWatcher` of the uploader, in its current form
    (uploader/src/watchers/fileWatcher.ts: extension filter, persisted
    snapshot, one-minute lock) and its earlier form
    (uploader/src/watcher/fileWatcher.ts: no filter, in-memory snapshot only,
    one-hour lock). A run scans the watched tree into a snapshot of
    modification times, diffs it against the previous snapshot and emits
    'add', 'change' and 'unlink' events. */
module Scanner {
  import opened Wrappers
  import opened Text
  import opened Classify
  import opened FsTree
  import opened FileDb

  /** A snapshot: path to `mtimeMs`. */
  type Snapshot = map<string, int>

  const LOCK_KEY := "fileWatcher::all"
  const LOCK_TTL: nat := 60
  const EARLIER_LOCK_TTL: nat := 60 * 60
  const MAX_LOCK_ATTEMPTS: nat := 10

  // ---------------------------------------------------------------------
  // scanFiles

  /** Which files enter a snapshot: with an extension list (current form),
      those whose lower-cased `path.extname` is in the list as configured;
      without one (earlier form), every non-directory entry. */
  predicate Kept(path: string, filter: Option<seq<string>>)
  {
    filter.None? || Lower(ExtName(path)) in filter.value
  }

  /** `scan(subdir)` from a snapshot `snap` filled so far: a directory is
      scanned recursively (one that cannot be listed makes the whole scan
      throw, `None`); any other entry is recorded under its full path when it
      is kept and `stat` succeeds, and skipped otherwise. */
  function ScanInto(dir: string, es: seq<Entry>, filter: Option<seq<string>>, snap: Snapshot): Option<Snapshot>
    decreases es
  {
    if es == [] then Some(snap)
    else
      var e := es[0];
      var full := PathJoin(dir, e.name);
      match e
      case Dir(_, readable, cs) =>
        if !readable then None
        else
          (match ScanInto(full, cs, filter, snap)
           case None => None
           case Some(snap') => ScanInto(dir, es[1..], filter, snap'))
      case File(_, _, mtime, _) =>
        ScanInto(dir, es[1..], filter,
                 if Kept(full, filter) && mtime.Some? then snap[full := mtime.value] else snap)
  }

  /** `scanFiles(dir)`, where `root` is what is found at `dir`. */
  function ScanSpec(dir: string, root: Option<Entry>, filter: Option<seq<string>>): Option<Snapshot>
  {
    if root.None? || root.value.File? || !root.value.readable then None
    else ScanInto(dir, root.value.children, filter, map[])
  }

  /** The inner `scan`: a loop over the listed entries that recurses into
      directories. */
  method Scan(dir: string, entries: seq<Entry>, filter: Option<seq<string>>, snapshot: Snapshot)
    returns (r: Option<Snapshot>)
    ensures r == ScanInto(dir, entries, filter, snapshot)
    decreases entries
  {
    var snap := snapshot;
    var i := 0;
    while i < |entries|
      invariant 0 <= i <= |entries|
      invariant ScanInto(dir, entries, filter, snapshot) == ScanInto(dir, entries[i..], filter, snap)
    {
      var entry := entries[i];
      var fullPath := PathJoin(dir, entry.name);
      assert entries[i..][1..] == entries[i + 1..];
      if entry.Dir? {
        if !entry.readable {
          return None;
        }
        var sub := Scan(fullPath, entry.children, filter, snap);
        if sub.None? {
          return None;
        }
        snap := sub.value;
      } else if Kept(fullPath, filter) && entry.mtime.Some? {
        snap := snap[fullPath := entry.mtime.value];
      }
      i := i + 1;
    }
    return Some(snap);
  }

  /** `scanFiles`: `None` when the scan throws. */
  method ScanFiles(dir: string, root: Option<Entry>, filter: Option<seq<string>>) returns (r: Option<Snapshot>)
    ensures r == ScanSpec(dir, root, filter)
  {
    if root.None? || root.value.File? || !root.value.readable {
      return None;
    }
    r := Scan(dir, root.value.children, filter, map[]);
  }

  // A flat reading of the tree, to say what a snapshot holds.

  /** A non-directory entry below the watched folder, with its full path and
      what `stat` reports. */
  datatype Listed = Listed(path: string, mtime: Option<int>)

  /** Every non-directory entry below `dir`, depth first in listing order. */
  function Listing(dir: string, es: seq<Entry>): seq<Listed>
    decreases es
  {
    if es == [] then []
    else
      var full := PathJoin(dir, es[0].name);
      match es[0]
      case Dir(_, _, cs) => Listing(full, cs) + Listing(dir, es[1..])
      case File(_, _, mtime, _) => [Listed(full, mtime)] + Listing(dir, es[1..])
  }

  /** Every directory below can be listed. */
  predicate Listable(es: seq<Entry>)
    decreases es
  {
    es == [] ||
    ((es[0].Dir? ==> es[0].readable && Listable(es[0].children)) && Listable(es[1..]))
  }

  /** The listed file `l` enters the snapshot. */
  predicate Taken(l: Listed, filter: Option<seq<string>>)
  {
    Kept(l.path, filter) && l.mtime.Some?
  }

  /** Recording the listed files one after the other. */
  function Record(ls: seq<Listed>, filter: Option<seq<string>>, snap: Snapshot): Snapshot
    decreases |ls|
  {
    if ls == [] then snap
    else Record(ls[1..], filter, if Taken(ls[0], filter) then snap[ls[0].path := ls[0].mtime.value] else snap)
  }

  lemma {:induction false} RecordAppend(a: seq<Listed>, b: seq<Listed>, filter: Option<seq<string>>, snap: Snapshot)
    ensures Record(a + b, filter, snap) == Record(b, filter, Record(a, filter, snap))
    decreases |a|
  {
    if a == [] {
      assert a + b == b;
    } else {
      assert (a + b)[0] == a[0] && (a + b)[1..] == a[1..] + b;
      var snap' := if Taken(a[0], filter) then snap[a[0].path := a[0].mtime.value] else snap;
      RecordAppend(a[1..], b, filter, snap');
    }
  }

  /** The recursive scan records exactly the flat listing, and throws exactly
      when some directory below cannot be listed. */
  lemma {:induction false} ScanIsRecord(dir: string, es: seq<Entry>, filter: Option<seq<string>>, snap: Snapshot)
    ensures ScanInto(dir, es, filter, snap) ==
      if Listable(es) then Some(Record(Listing(dir, es), filter, snap)) else None
    decreases es
  {
    if es != [] {
      var e := es[0];
      var full := PathJoin(dir, e.name);
      match e
      case Dir(_, readable, cs) =>
        if readable {
          ScanIsRecord(full, cs, filter, snap);
          if Listable(cs) {
            var snap' := Record(Listing(full, cs), filter, snap);
            ScanIsRecord(dir, es[1..], filter, snap');
            RecordAppend(Listing(full, cs), Listing(dir, es[1..]), filter, snap);
          }
        }
      case File(_, _, mtime, _) =>
        var snap' := if Kept(full, filter) && mtime.Some? then snap[full := mtime.value] else snap;
        ScanIsRecord(dir, es[1..], filter, snap');
        assert ([Listed(full, mtime)] + Listing(dir, es[1..]))[1..] == Listing(dir, es[1..]);
    }
  }

  /** Some taken file of `ls` has path `k` and `mtimeMs` `v`. */
  predicate TakenWith(ls: seq<Listed>, filter: Option<seq<string>>, k: string, v: int)
  {
    exists i :: 0 <= i < |ls| && Taken(ls[i], filter) && ls[i].path == k && ls[i].mtime == Some(v)
  }

  lemma TakenWithCons(ls: seq<Listed>, filter: Option<seq<string>>, k: string, v: int)
    requires ls != []
    ensures TakenWith(ls, filter, k, v) <==>
      (Taken(ls[0], filter) && ls[0].path == k && ls[0].mtime == Some(v)) || TakenWith(ls[1..], filter, k, v)
  {
    if TakenWith(ls[1..], filter, k, v) {
      var i :| 0 <= i < |ls[1..]| && Taken(ls[1..][i], filter) && ls[1..][i].path == k && ls[1..][i].mtime == Some(v);
      assert ls[i + 1] == ls[1..][i];
    }
    if TakenWith(ls, filter, k, v) {
      var i :| 0 <= i < |ls| && Taken(ls[i], filter) && ls[i].path == k && ls[i].mtime == Some(v);
      if i > 0 {
        assert ls[1..][i - 1] == ls[i];
      }
    }
  }

  /** What recording puts into a snapshot: a key is there iff it was there
      already or some taken file has that path, and its value is the old one
      or the `mtimeMs` of such a file. */
  lemma {:induction false} RecordContents(ls: seq<Listed>, filter: Option<seq<string>>, snap: Snapshot, k: string)
    ensures k in Record(ls, filter, snap) <==>
      k in snap || exists v :: TakenWith(ls, filter, k, v)
    ensures k in Record(ls, filter, snap) ==>
      (k in snap && Record(ls, filter, snap)[k] == snap[k]) || TakenWith(ls, filter, k, Record(ls, filter, snap)[k])
    decreases |ls|
  {
    if ls != [] {
      var snap' := if Taken(ls[0], filter) then snap[ls[0].path := ls[0].mtime.value] else snap;
      RecordContents(ls[1..], filter, snap', k);
      var m := Record(ls, filter, snap);
      assert m == Record(ls[1..], filter, snap');
      forall v ensures TakenWith(ls, filter, k, v) <==>
        (Taken(ls[0], filter) && ls[0].path == k && ls[0].mtime == Some(v)) || TakenWith(ls[1..], filter, k, v)
      {
        TakenWithCons(ls, filter, k, v);
      }
      if k in m {
        TakenWithCons(ls, filter, k, m[k]);
      }
    }
  }

  /** A successful scan holds exactly the kept, `stat`-able, non-directory
      files below the folder, each with its own `mtimeMs`; the scan fails
      exactly when the folder or a directory below it cannot be listed. */
  lemma SnapshotHoldsKeptFiles(dir: string, root: Option<Entry>, filter: Option<seq<string>>, k: string)
    ensures ScanSpec(dir, root, filter).None? <==>
      root.None? || root.value.File? || !root.value.readable || !Listable(root.value.children)
    ensures ScanSpec(dir, root, filter).Some? ==>
      var ls := Listing(dir, root.value.children);
      var m := ScanSpec(dir, root, filter).value;
      (k in m <==> exists v :: TakenWith(ls, filter, k, v)) &&
      (k in m ==> TakenWith(ls, filter, k, m[k]))
  {
    if root.Some? && root.value.Dir? && root.value.readable {
      ScanIsRecord(dir, root.value.children, filter, map[]);
      RecordContents(Listing(dir, root.value.children), filter, map[], k);
    }
  }

  // ---------------------------------------------------------------------
  // The diff

  datatype EventKind = Add | Change | Unlink

  datatype Event = Event(kind: EventKind, path: string)

  /** The event a path calls for when the snapshot moves from `prev` to
      `cur`: 'add' for a new path, 'change' for a path whose `mtimeMs`
      differs, 'unlink' for a path that is gone. */
  predicate Called(prev: Snapshot, cur: Snapshot, e: Event)
  {
    match e.kind
    case Add => e.path in cur && e.path !in prev
    case Change => e.path in cur && e.path in prev && prev[e.path] != cur[e.path]
    case Unlink => e.path in prev && e.path !in cur
  }

  predicate OnePerPath(events: seq<Event>)
  {
    forall i, j :: 0 <= i < j < |events| ==> events[i].path != events[j].path
  }

  predicate UnlinksLast(events: seq<Event>)
  {
    forall i, j :: 0 <= i < j < |events| && events[i].kind == Unlink ==> events[j].kind == Unlink
  }

  /** The two loops of `detectChanges` that build the event list: the
      current snapshot's paths first ('add' or 'change'), then the previous
      snapshot's ('unlink'). Object key order is not modelled: each loop
      takes its paths in an arbitrary order. */
  method DiffSnapshots(prev: Snapshot, cur: Snapshot) returns (events: seq<Event>)
    ensures forall e :: e in events <==> Called(prev, cur, e)
    ensures OnePerPath(events)
    ensures UnlinksLast(events)
  {
    events := [];
    var todo := cur.Keys;
    while todo != {}
      invariant todo <= cur.Keys
      invariant forall e :: e in events <==> Called(prev, cur, e) && e.kind != Unlink && e.path !in todo
      invariant forall i :: 0 <= i < |events| ==> events[i].path in cur && events[i].path !in todo
      invariant OnePerPath(events)
      invariant forall i :: 0 <= i < |events| ==> events[i].kind != Unlink
      decreases todo
    {
      var filePath :| filePath in todo;
      if filePath !in prev {
        events := events + [Event(Add, filePath)];
      } else if prev[filePath] != cur[filePath] {
        events := events + [Event(Change, filePath)];
      }
      todo := todo - {filePath};
    }
    var gone := prev.Keys;
    while gone != {}
      invariant gone <= prev.Keys
      invariant forall e :: e in events <==> Called(prev, cur, e) && (e.kind == Unlink ==> e.path !in gone)
      invariant forall i :: 0 <= i < |events| && events[i].kind == Unlink ==> events[i].path !in gone
      invariant forall i :: 0 <= i < |events| && events[i].kind != Unlink ==> events[i].path in cur
      invariant OnePerPath(events)
      invariant UnlinksLast(events)
      decreases gone
    {
      var filePath :| filePath in gone;
      if filePath !in cur {
        events := events + [Event(Unlink, filePath)];
      }
      gone := gone - {filePath};
    }
  }

  /** Applying events to a snapshot, taking the new `mtimeMs` of an added or
      changed path from `cur`. */
  function Apply(snap: Snapshot, events: seq<Event>, cur: Snapshot): Snapshot
    decreases |events|
  {
    if events == [] then snap
    else
      var e := events[0];
      var snap' :=
        if e.kind == Unlink then snap - {e.path}
        else if e.path in cur then snap[e.path := cur[e.path]]
        else snap;
      Apply(snap', events[1..], cur)
  }

  lemma {:induction false} ApplyAt(snap: Snapshot, events: seq<Event>, cur: Snapshot, p: string)
    requires OnePerPath(events)
    requires forall i :: 0 <= i < |events| && events[i].kind != Unlink ==> events[i].path in cur
    ensures (forall i :: 0 <= i < |events| ==> events[i].path != p) ==>
      (p in Apply(snap, events, cur) <==> p in snap) &&
      (p in snap ==> Apply(snap, events, cur)[p] == snap[p])
    ensures forall i :: 0 <= i < |events| && events[i].path == p ==>
      (p in Apply(snap, events, cur) <==> events[i].kind != Unlink) &&
      (p in Apply(snap, events, cur) ==> Apply(snap, events, cur)[p] == cur[p])
    decreases |events|
  {
    if events != [] {
      var e := events[0];
      var snap' :=
        if e.kind == Unlink then snap - {e.path}
        else if e.path in cur then snap[e.path := cur[e.path]]
        else snap;
      var rest := events[1..];
      assert OnePerPath(rest) by {
        forall i, j | 0 <= i < j < |rest| ensures rest[i].path != rest[j].path {
          assert rest[i] == events[i + 1] && rest[j] == events[j + 1];
        }
      }
      forall i | 0 <= i < |rest| && rest[i].kind != Unlink ensures rest[i].path in cur {
        assert rest[i] == events[i + 1];
      }
      ApplyAt(snap', rest, cur, p);
      assert Apply(snap, events, cur) == Apply(snap', rest, cur);
      if e.path == p {
        forall i | 0 <= i < |rest| ensures rest[i].path != p {
          assert rest[i] == events[i + 1];
        }
        forall i | 0 <= i < |events| && events[i].path == p ensures i == 0 {
        }
      } else {
        forall i | 0 <= i < |events| && events[i].path == p
          ensures (p in Apply(snap, events, cur) <==> events[i].kind != Unlink) &&
            (p in Apply(snap, events, cur) ==> Apply(snap, events, cur)[p] == cur[p])
        {
          assert i > 0 && rest[i - 1] == events[i];
        }
        if forall i :: 0 <= i < |events| ==> events[i].path != p {
          forall i | 0 <= i < |rest| ensures rest[i].path != p {
            assert rest[i] == events[i + 1];
          }
        }
      }
    }
  }

  /** The events of a diff are exactly the difference: applied to the
      previous snapshot, in the order emitted, they give the current one. */
  lemma DiffReplays(prev: Snapshot, cur: Snapshot, events: seq<Event>)
    requires forall e :: e in events <==> Called(prev, cur, e)
    requires OnePerPath(events)
    ensures Apply(prev, events, cur) == cur
  {
    var a := Apply(prev, events, cur);
    forall i | 0 <= i < |events| && events[i].kind != Unlink ensures events[i].path in cur {
      assert Called(prev, cur, events[i]);
    }
    forall p ensures (p in a <==> p in cur) && (p in cur ==> a[p] == cur[p]) {
      ApplyAt(prev, events, cur, p);
      if i :| 0 <= i < |events| && events[i].path == p {
        assert Called(prev, cur, events[i]);
      } else {
        assert Event(Add, p) !in events && Event(Change, p) !in events && Event(Unlink, p) !in events;
        assert !Called(prev, cur, Event(Add, p)) && !Called(prev, cur, Event(Change, p));
        assert !Called(prev, cur, Event(Unlink, p));
      }
    }
  }

  /** An unchanged tree after a run emits nothing; a first run against an
      empty snapshot emits one 'add' per file and nothing else. */
  lemma DiffOfEqualAndEmpty(m: Snapshot, e: Event)
    ensures !Called(m, m, e)
    ensures Called(map[], m, e) <==> e.kind == Add && e.path in m
  {
  }

  // ---------------------------------------------------------------------
  // The watchers

  /** The bounded retry loop on 'fileWatcher::all' succeeds. */
  predicate WatcherLockObtained(locks: map<string, nat>, releasedDuring: seq<bool>)
  {
    RetryOutcome(Normalize(LOCK_KEY) in locks, releasedDuring, MAX_LOCK_ATTEMPTS).Some?
  }

  /** uploader/src/watchers/fileWatcher.ts */
  class FileWatcher {
    const watchFolder: string
    const extensions: seq<string>
    var previousSnapshot: Snapshot

    constructor(watchFolder: string, extensions: seq<string>)
      ensures this.watchFolder == watchFolder && this.extensions == extensions
      ensures previousSnapshot == map[]
    {
      this.watchFolder := watchFolder;
      this.extensions := extensions;
      previousSnapshot := map[];
    }

    /** `detectChanges`: `root` is the tree found at `watchFolder`,
        `releasedDuring` the lock-retry oracle; the result is the events
        emitted, in order. An empty in-memory snapshot is first replaced by
        the persisted one; after a successful scan the new snapshot is kept
        and persisted; the lock is released whatever happens once held. */
    method DetectChanges(db: Store, root: Option<Entry>, releasedDuring: seq<bool>)
      returns (emitted: seq<Event>)
      modifies this, db
      ensures db.files == old(db.files)
      ensures !WatcherLockObtained(old(db.locks), releasedDuring) ==>
        emitted == [] && previousSnapshot == old(previousSnapshot) && db.snapshot == old(db.snapshot) &&
        (db.locks == old(db.locks) || db.locks == old(db.locks) - {Normalize(LOCK_KEY)})
      ensures WatcherLockObtained(old(db.locks), releasedDuring) ==>
        db.locks == old(db.locks) - {Normalize(LOCK_KEY)}
      ensures (!WatcherLockObtained(old(db.locks), releasedDuring) ||
               ScanSpec(watchFolder, root, Some(extensions)).None?) ==>
        emitted == [] && previousSnapshot == old(previousSnapshot) && db.snapshot == old(db.snapshot)
      ensures (WatcherLockObtained(old(db.locks), releasedDuring) &&
               ScanSpec(watchFolder, root, Some(extensions)).Some?) ==>
        var cur := ScanSpec(watchFolder, root, Some(extensions)).value;
        var base := if old(previousSnapshot) == map[] then old(db.snapshot) else old(previousSnapshot);
        previousSnapshot == cur && db.snapshot == cur &&
        (forall e :: e in emitted <==> Called(base, cur, e)) &&
        OnePerPath(emitted) && UnlinksLast(emitted)
    {
      var locked, tries := db.AcquireWithRetry(LOCK_KEY, LOCK_TTL, MAX_LOCK_ATTEMPTS, releasedDuring);
      if !locked {
        return [];
      }
      emitted := [];
      var currentSnapshot := ScanFiles(watchFolder, root, Some(extensions));
      if currentSnapshot.Some? {
        if previousSnapshot == map[] {
          previousSnapshot := db.GetSnapshot();
        }
        var events := DiffSnapshots(previousSnapshot, currentSnapshot.value);
        previousSnapshot := currentSnapshot.value;
        db.SaveSnapshot(previousSnapshot);
        emitted := events;
      }
      db.ReleaseLock(LOCK_KEY);
    }
  }

  /** uploader/src/watcher/fileWatcher.ts */
  class EarlierFileWatcher {
    const watchFolder: string
    var previousSnapshot: Snapshot

    constructor(watchFolder: string)
      ensures this.watchFolder == watchFolder
      ensures previousSnapshot == map[]
    {
      this.watchFolder := watchFolder;
      previousSnapshot := map[];
    }

    /** `detectChanges` of the earlier watcher: every file counts, and the
        previous snapshot lives only in memory, so a first run reports every
        file as added. */
    method DetectChanges(db: Store, root: Option<Entry>, releasedDuring: seq<bool>)
      returns (emitted: seq<Event>)
      modifies this, db
      ensures db.files == old(db.files) && db.snapshot == old(db.snapshot)
      ensures !WatcherLockObtained(old(db.locks), releasedDuring) ==>
        emitted == [] && previousSnapshot == old(previousSnapshot) &&
        (db.locks == old(db.locks) || db.locks == old(db.locks) - {Normalize(LOCK_KEY)})
      ensures WatcherLockObtained(old(db.locks), releasedDuring) ==>
        db.locks == old(db.locks) - {Normalize(LOCK_KEY)}
      ensures (!WatcherLockObtained(old(db.locks), releasedDuring) ||
               ScanSpec(watchFolder, root, None).None?) ==>
        emitted == [] && previousSnapshot == old(previousSnapshot)
      ensures (WatcherLockObtained(old(db.locks), releasedDuring) &&
               ScanSpec(watchFolder, root, None).Some?) ==>
        var cur := ScanSpec(watchFolder, root, None).value;
        previousSnapshot == cur &&
        (forall e :: e in emitted <==> Called(old(previousSnapshot), cur, e)) &&
        OnePerPath(emitted) && UnlinksLast(emitted)
    {
      var locked, tries := db.AcquireWithRetry(LOCK_KEY, EARLIER_LOCK_TTL, MAX_LOCK_ATTEMPTS, releasedDuring);
      if !locked {
        return [];
      }
      emitted := [];
      var currentSnapshot := ScanFiles(watchFolder, root, None);
      if currentSnapshot.Some? {
        var events := DiffSnapshots(previousSnapshot, currentSnapshot.value);
        previousSnapshot := currentSnapshot.value;
        emitted := events;
      }
      db.ReleaseLock(LOCK_KEY);
    }
  }
}

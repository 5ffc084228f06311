/** The periodic sweeps of both generations: the current queue watcher,
    which drives settled datasets through their workflows; the remove
    watchers, which clean GeoServer up after deleted files; and the
    empty-workspace sweeps. Each takes a store lock first where the
    source does. */
module Sweeps {
  import opened Wrappers
  import opened Text
  import opened Classify
  import opened Naming
  import opened FileDb
  import opened GeoServer
  import opened LayerGroups
  import opened Workflows
  import LegacyPublish
  import FsTree

  const QUEUE_LOCK := "queueWatcher"
  const QUEUE_LOCK_TTL: nat := 12 * 60 * 60
  const DATASET_LOCK_TTL: nat := 60 * 60
  const REMOVE_LOCK := "removeWatcher"
  const REMOVE_LOCK_TTL: nat := 60 * 60
  const GEOSERVER_LOCK := "geoserverWatcher"
  const GEOSERVER_LOCK_TTL: nat := 60 * 60
  const LEGACY_GEOSERVER_LOCK_TTL: nat := 1800

  /** A stored key has no '\' in it, so normalising it changes nothing. */
  lemma NormalizeKeeps(k: string)
    requires '\\' !in k
    ensures Normalize(k) == k
  {
    assert forall i :: 0 <= i < |k| ==> k[i] in k;
  }

  /** A later status update under a prefix overrides an earlier one under
      the same prefix. */
  lemma StatusUpdateOverrides(files: map<string, FileRecord>, prefix: string, a: Status, b: Status)
    ensures WithStatusUnder(WithStatusUnder(files, prefix, a), prefix, b) == WithStatusUnder(files, prefix, b)
  {
  }

  /** The records of `rs` that satisfy `keep`, in order (`Array.filter`). */
  function FilterRecords(rs: seq<FileRecord>, keep: FileRecord -> bool): (r: seq<FileRecord>)
    ensures |r| <= |rs|
    ensures forall x :: x in r <==> x in rs && keep(x)
  {
    if rs == [] then []
    else if keep(rs[0]) then [rs[0]] + FilterRecords(rs[1..], keep)
    else FilterRecords(rs[1..], keep)
  }

  /** A backend call whose error the caller catches and ignores: the run
      goes on whether it succeeded or not. */
  function Attempt(t: Trace, failing: set<Call>, c: Call): Trace
  {
    if !t.ok then t else Step(t, failing, c).(ok := true)
  }

  method SendIgnoringErrors(gs: Backend, c: Call)
    modifies gs
    ensures Trace(gs.server, gs.log, true) == Attempt(Trace(old(gs.server), old(gs.log), true), gs.failing, c)
  {
    var ok := gs.Send(c);
  }

  // ---------------------------------------------------------------------
  // The current queue watcher

  /** The types the queue watcher hands to a workflow; the comparison is
      exact, so "Raster" is not one of them. */
  predicate Published(kind: string)
  {
    kind == RASTER || kind == POINTS || kind == STYLES
  }

  /** The structure of the first queued record of a basepath, if that
      record has one (`find(...)?.structure`). */
  function FirstStructure(queued: seq<FileRecord>, basepath: string): (r: Option<Structure>)
    ensures (forall i :: 0 <= i < |queued| ==> queued[i].basepath != basepath) ==> r.None?
    ensures forall i :: (0 <= i < |queued| && queued[i].basepath == basepath
      && (forall j :: 0 <= j < i ==> queued[j].basepath != basepath)) ==> r == queued[i].structure
    ensures r.Some? ==> exists i :: 0 <= i < |queued| && queued[i].basepath == basepath && queued[i].structure == r
    ensures ((exists i :: 0 <= i < |queued| && queued[i].basepath == basepath)
      && (forall i :: 0 <= i < |queued| && queued[i].basepath == basepath ==> queued[i].structure.Some?)) ==> r.Some?
    decreases |queued|
  {
    if queued == [] then None
    else if queued[0].basepath == basepath then queued[0].structure
    else FirstStructure(queued[1..], basepath)
  }

  /** The backend calls of the workflow the queue watcher runs for a
      published type, once its lock is held: the earlier `services` copies
      of the workflows. */
  function EarlierWork(t: Trace, failing: set<Call>, s: Structure, n: Names, out: Outputs): Trace
    requires Published(s.kind)
  {
    if s.kind == RASTER then RasterWork(t, failing, s, n, out.raster)
    else if s.kind == POINTS then VectorWork(t, failing, s, n, out.points, true)
    else StyleWork(t, failing, s, n, true)
  }

  /** One settled group of the queue watcher. With the basepath lock (one
      attempt) and a structure on the group's first queued record, a
      published type goes to `processing`, runs its workflow and ends
      `done`, or `queued` again when the workflow threw; "analysis" only
      goes to `processing`; any other type is left alone. The basepath
      lock is released whenever it was taken. `examined` says whether the
      lock and a structure were there; `result` is the workflow's. */
  method HandleGroup(db: Store, gs: Backend, queued: seq<FileRecord>, basepath: string, out: Outputs,
                     releasedDuring: seq<bool>)
    returns (examined: bool, result: Option<RunResult>)
    requires db.Valid()
    modifies db, gs
    ensures db.Valid() && db.locks.Keys <= old(db.locks).Keys
    ensures examined <==> Normalize(basepath) !in old(db.locks) && FirstStructure(queued, basepath).Some?
    ensures Normalize(basepath) !in old(db.locks) ==> Normalize(basepath) !in db.locks
    ensures !examined ==>
      db.files == old(db.files) && db.locks == old(db.locks) && gs.server == old(gs.server) && gs.log == old(gs.log)
    ensures result.Some? <==> examined && Published(FirstStructure(queued, basepath).value.kind)
    ensures examined && result.None? ==>
      gs.server == old(gs.server) && gs.log == old(gs.log)
      && db.files == if FirstStructure(queued, basepath).value.kind == ANALYSIS
                     then WithStatusUnder(old(db.files), Normalize(basepath), Processing) else old(db.files)
    ensures result.Some? ==>
      db.files == WithStatusUnder(old(db.files), Normalize(basepath), if result.value == Failed then Queued else Done)
    ensures result.Some? && NamesFor(FirstStructure(queued, basepath).value).None? ==>
      result.value == Failed && gs.server == old(gs.server) && gs.log == old(gs.log)
    ensures result.Some? && NamesFor(FirstStructure(queued, basepath).value).Some? ==>
      var s := FirstStructure(queued, basepath).value;
      var n := NamesFor(s).value;
      (result.value == NotLocked <==>
        !LockObtained(old(db.locks)[Normalize(basepath) := DATASET_LOCK_TTL], n.layerGroupName, releasedDuring))
      && (result.value == NotLocked ==> gs.server == old(gs.server) && gs.log == old(gs.log))
      && (result.value != NotLocked ==>
            var w := EarlierWork(Trace(old(gs.server), old(gs.log), true), gs.failing, s, n, out);
            gs.server == w.server && gs.log == w.calls && (result.value == Finished <==> w.ok))
  {
    examined, result := false, None;
    var acquired := db.AcquireLock(basepath, DATASET_LOCK_TTL);
    if !acquired {
      return;
    }
    var structure := FirstStructure(queued, basepath);
    if structure.None? {
      db.ReleaseLock(basepath);
      return;
    }
    examined := true;
    var s := structure.value;
    ghost var before := db.files;
    if s.kind == RASTER || s.kind == POINTS || s.kind == STYLES {
      db.ChangeFileStatusByBasepath(basepath, Processing);
      var r;
      if s.kind == RASTER {
        r := ProcessRasterDataset(db, gs, s, out.raster, releasedDuring);
      } else if s.kind == POINTS {
        r := ProcessVectorDataset(db, gs, s, out.points, releasedDuring, true);
      } else {
        r := ProcessStyleDataset(db, gs, s, releasedDuring, true);
      }
      db.ChangeFileStatusByBasepath(basepath, if r == Failed then Queued else Done);
      StatusUpdateOverrides(before, Normalize(basepath), Processing, if r == Failed then Queued else Done);
      result := Some(r);
    } else if s.kind == ANALYSIS {
      db.ChangeFileStatusByBasepath(basepath, Processing);
    }
    db.ReleaseLock(basepath);
  }

  /** `after` holds the records of `before`, where only the statuses of
      records under `prefix` may differ. */
  predicate StatusChangedUnder(before: map<string, FileRecord>, after: map<string, FileRecord>, prefix: string)
  {
    after.Keys == before.Keys
    && (forall k :: k in after ==> after[k].(status := before[k].status) == before[k])
    && (forall k :: k in after && !StartsWith(k, prefix) ==> after[k] == before[k])
  }

  lemma StatusUpdateChangesUnder(files: map<string, FileRecord>, prefix: string, status: Status)
    ensures StatusChangedUnder(files, WithStatusUnder(files, prefix, status), prefix)
  {
    StatusUpdateIsPrefixed(files, prefix, status);
  }

  /** One settled group, seen from the queue watcher's loop: the group is
      examined when its lock was free and it has a structure, and then only
      statuses under its basepath change; otherwise nothing changes. */
  method HandleGroupStep(db: Store, gs: Backend, queued: seq<FileRecord>, basepath: string, out: Outputs,
                         releasedDuring: seq<bool>)
    returns (examined: bool)
    requires db.Valid()
    modifies db, gs
    ensures db.Valid() && db.locks.Keys <= old(db.locks).Keys
    ensures examined <==> Normalize(basepath) !in old(db.locks) && FirstStructure(queued, basepath).Some?
    ensures !examined ==>
      db.files == old(db.files) && gs.server == old(gs.server) && gs.log == old(gs.log)
    ensures examined ==> StatusChangedUnder(old(db.files), db.files, Normalize(basepath))
  {
    ghost var before := db.files;
    var r;
    examined, r := HandleGroup(db, gs, queued, basepath, out, releasedDuring);
    if examined {
      StatusUpdateChangesUnder(before, Normalize(basepath), Processing);
      StatusUpdateChangesUnder(before, Normalize(basepath), Queued);
      StatusUpdateChangesUnder(before, Normalize(basepath), Done);
    }
  }

  /** Some queued record of the basepath carries a structure. */
  predicate SomeStructured(files: map<string, FileRecord>, basepath: string)
  {
    exists k :: k in files && files[k].status == Queued && files[k].basepath == basepath && files[k].structure.Some?
  }

  /** Every queued record of the basepath carries a structure. */
  predicate AllStructured(files: map<string, FileRecord>, basepath: string)
  {
    forall k :: k in files && files[k].status == Queued && files[k].basepath == basepath ==> files[k].structure.Some?
  }

  /** The record `k` lies under none of the basepaths. */
  predicate OutsideAll(k: string, basepaths: seq<string>)
  {
    forall b :: b in basepaths ==> !StartsWith(k, Normalize(b))
  }

  /** `queued` lists exactly the queued records of `files`. */
  predicate QueuedListing(files: map<string, FileRecord>, queued: seq<FileRecord>)
  {
    (forall i :: 0 <= i < |queued| ==> queued[i].path in files && files[queued[i].path] == queued[i])
    && Paths(queued) == set k | k in files && files[k].status == Queued
  }

  /** One basepath of the queue watcher's loop: a settled group goes to
      `HandleGroup`. `files0` is the store the queued listing was read
      from. The group is examined only when it was settled and structured,
      and then only statuses under its basepath change; a settled group
      whose records all carry a structure and whose lock was free is
      examined. */
  method VisitGroup(db: Store, gs: Backend, ghost files0: map<string, FileRecord>, queued: seq<FileRecord>,
                    basepath: string, now: int, out: Outputs, releasedDuring: seq<bool>)
    returns (examined: bool)
    requires db.Valid() && QueuedListing(files0, queued)
    requires exists r :: r in queued && r.basepath == basepath
    modifies db, gs
    ensures db.Valid() && db.locks.Keys <= old(db.locks).Keys
    ensures examined ==> LegacyPublish.Settled(files0, basepath, now) && SomeStructured(files0, basepath)
    ensures examined ==> StatusChangedUnder(old(db.files), db.files, Normalize(basepath))
    ensures !examined ==> db.files == old(db.files) && gs.server == old(gs.server) && gs.log == old(gs.log)
    ensures (LegacyPublish.Settled(files0, basepath, now) && AllStructured(files0, basepath)
             && Normalize(basepath) !in old(db.locks)) ==> examined
  {
    examined := false;
    var some :| some in queued && some.basepath == basepath;
    var oldest := LegacyPublish.OldestTs(queued, basepath);
    LegacyPublish.SettledIsOldest(files0, queued, basepath, now, oldest);
    if now - oldest <= LegacyPublish.SETTLE_MS {
      return;
    }
    if AllStructured(files0, basepath) {
      forall i | 0 <= i < |queued| && queued[i].basepath == basepath ensures queued[i].structure.Some? {
        assert queued[i].path in Paths(queued);
      }
    }
    examined := HandleGroupStep(db, gs, queued, basepath, out, releasedDuring);
    if examined {
      var i :| 0 <= i < |queued| && queued[i].basepath == basepath && queued[i].structure == FirstStructure(queued, basepath);
      assert files0[queued[i].path] == queued[i];
      assert queued[i].path in Paths(queued);
    }
  }

  /** What the queue watcher's loop keeps after visiting the basepaths
      `done`: keys and every field but the status are kept, records under
      no examined basepath are untouched, the examined basepaths are
      settled and structured, and every settled, fully structured group
      whose lock was free in `locks0` was examined, once. */
  predicate Visited(files0: map<string, FileRecord>, files: map<string, FileRecord>, examined: seq<string>,
                    done: set<string>, now: int, locks0: map<string, nat>)
  {
    files.Keys == files0.Keys
    && (forall k :: k in files ==> files[k].(status := files0[k].status) == files0[k])
    && (forall k :: k in files && OutsideAll(k, examined) ==> files[k] == files0[k])
    && (forall b :: b in examined ==>
          b in done && LegacyPublish.Settled(files0, b, now) && SomeStructured(files0, b))
    && (forall b ::
          (b in done && LegacyPublish.Settled(files0, b, now) && AllStructured(files0, b)
           && Normalize(b) !in locks0) ==> b in examined)
    && (forall i, j :: 0 <= i < j < |examined| ==> examined[i] != examined[j])
  }

  lemma VisitedStep(files0: map<string, FileRecord>, prev: map<string, FileRecord>, files: map<string, FileRecord>,
                    examined: seq<string>, done: set<string>, bp: string, ex: bool, now: int,
                    locks0: map<string, nat>)
    requires Visited(files0, prev, examined, done, now, locks0) && bp !in done
    requires ex ==> LegacyPublish.Settled(files0, bp, now) && SomeStructured(files0, bp)
                    && StatusChangedUnder(prev, files, Normalize(bp))
    requires !ex ==> files == prev
    requires (LegacyPublish.Settled(files0, bp, now) && AllStructured(files0, bp) && Normalize(bp) !in locks0) ==> ex
    ensures Visited(files0, files, if ex then examined + [bp] else examined, done + {bp}, now, locks0)
  {
    if ex {
      var e := examined + [bp];
      forall k | k in files && OutsideAll(k, e) ensures files[k] == files0[k] {
        assert bp in e;
        assert OutsideAll(k, examined);
      }
    }
  }

  /** The queue watcher's loop over the queued basepaths `groups`. */
  method VisitGroups(db: Store, gs: Backend, queued: seq<FileRecord>, groups: set<string>, now: int,
                     out: string -> Outputs, releasedDuring: string -> seq<bool>)
    returns (examined: seq<string>)
    requires db.Valid() && QueuedListing(db.files, queued)
    requires groups == set r | r in queued :: r.basepath
    modifies db, gs
    ensures db.Valid() && db.locks.Keys <= old(db.locks).Keys
    ensures Visited(old(db.files), db.files, examined, groups, now, old(db.locks))
    ensures examined == [] ==> gs.server == old(gs.server) && gs.log == old(gs.log)
  {
    ghost var files0 := db.files;
    examined := [];
    var todo := groups;
    while todo != {}
      invariant todo <= groups
      invariant db.Valid() && db.locks.Keys <= old(db.locks).Keys
      invariant Visited(files0, db.files, examined, groups - todo, now, old(db.locks))
      invariant examined == [] ==> gs.server == old(gs.server) && gs.log == old(gs.log)
      decreases todo
    {
      var bp :| bp in todo;
      ghost var prev := db.files;
      var ex := VisitGroup(db, gs, files0, queued, bp, now, out(bp), releasedDuring(bp));
      VisitedStep(files0, prev, db.files, examined, groups - todo, bp, ex, now, old(db.locks));
      if ex {
        examined := examined + [bp];
      }
      assert groups - (todo - {bp}) == (groups - todo) + {bp};
      todo := todo - {bp};
    }
  }

  /** The current `queueWatcher`. Under its own lock (one attempt), the
      queued records are grouped by basepath and every settled group is
      handled as `HandleGroup` says. Records keep their keys and every field
      but the status, and a record under none of the examined basepaths is
      untouched. Every examined group was queued, settled and structured;
      a settled group whose records all carry a structure and whose lock was
      free is examined. The watcher lock is released at the end. */
  method QueueWatcher(db: Store, gs: Backend, now: int, out: string -> Outputs, releasedDuring: string -> seq<bool>)
    returns (locked: bool, examined: seq<string>)
    requires db.Valid()
    modifies db, gs
    ensures db.Valid()
    ensures locked <==> Normalize(QUEUE_LOCK) !in old(db.locks)
    ensures !locked ==>
      db.files == old(db.files) && db.locks == old(db.locks) && gs.server == old(gs.server) && gs.log == old(gs.log)
    ensures locked ==> Normalize(QUEUE_LOCK) !in db.locks && db.locks.Keys <= old(db.locks).Keys
    ensures db.files.Keys == old(db.files).Keys
    ensures forall k :: k in db.files ==> db.files[k].(status := old(db.files)[k].status) == old(db.files)[k]
    ensures forall k :: k in db.files && OutsideAll(k, examined) ==> db.files[k] == old(db.files)[k]
    ensures forall b :: b in examined ==>
      b in LegacyPublish.QueuedBasepaths(old(db.files)) && LegacyPublish.Settled(old(db.files), b, now)
      && SomeStructured(old(db.files), b)
    ensures locked ==> forall b ::
      (b in LegacyPublish.QueuedBasepaths(old(db.files)) && LegacyPublish.Settled(old(db.files), b, now)
       && AllStructured(old(db.files), b) && Normalize(b) !in old(db.locks) && Normalize(b) != Normalize(QUEUE_LOCK))
      ==> b in examined
    ensures forall i, j :: 0 <= i < j < |examined| ==> examined[i] != examined[j]
    ensures examined == [] ==> gs.server == old(gs.server) && gs.log == old(gs.log)
  {
    examined := [];
    locked := db.AcquireLock(QUEUE_LOCK, QUEUE_LOCK_TTL);
    if !locked {
      return;
    }
    var queued := db.GetFilesByStatus(Queued);
    ghost var files0 := db.files;
    var groups := set r | r in queued :: r.basepath;
    assert groups == LegacyPublish.QueuedBasepaths(files0) by {
      forall b | b in LegacyPublish.QueuedBasepaths(files0) ensures b in groups {
        var k :| k in files0 && files0[k].status == Queued && files0[k].basepath == b;
        assert k in Paths(queued);
        var r :| r in queued && r.path == k;
      }
    }
    if |queued| == 0 {
      assert groups == {};
      db.ReleaseLock(QUEUE_LOCK);
      return;
    }
    examined := VisitGroups(db, gs, queued, groups, now, out, releasedDuring);
    db.ReleaseLock(QUEUE_LOCK);
  }

  // ---------------------------------------------------------------------
  // The current remove watcher

  /** The GeoServer clean-up after one removed record: drop the layer group
      and the layer, both with their errors ignored, then rebuild the group
      from what the workspace still holds. The source hands the workspace
      and group names to `removeLayerGroup` in each other's positions; the
      two names are equal, so the same group is dropped. */
  function CleanupWork(t: Trace, failing: set<Call>, n: Names): Trace
  {
    var t1 := Attempt(t, failing, RemoveLayerGroup(n.layerGroupName, n.workspaceName));
    var t2 := Attempt(t1, failing, RemoveLayer(n.workspaceName, n.layerName));
    GroupFromWorkspace(t2, failing, n.workspaceName, n.layerGroupName)
  }

  /** When none of its calls fails, the clean-up takes the layer out of the
      workspace; the group is gone if nothing is left, and otherwise holds
      exactly the remaining raster layers, so not the removed one. */
  lemma CleanupOutcome(t: Trace, failing: set<Call>, n: Names)
    requires t.ok && n.layerGroupName == n.workspaceName && n.workspaceName in t.server.workspaces
    requires forall c :: c in failing ==> !c.RemoveLayerGroup? && !c.RemoveLayer? && !c.GetLayers? && !c.CreateLayerGroup?
    ensures var r := CleanupWork(t, failing, n);
      var ws := n.workspaceName;
      var rest := Without(t.server.workspaces[ws], n.layerName);
      r.ok && r.server.workspaces == t.server.workspaces[ws := rest]
      && (rest == [] ==> (ws, ws) !in r.server.groups)
      && (rest != [] ==> (ws, ws) in r.server.groups && r.server.groups[(ws, ws)] == RasterGroup(rest)
                         && n.layerName !in r.server.groups[(ws, ws)].layers)
  {
    var ws := n.workspaceName;
    var t1 := Attempt(t, failing, RemoveLayerGroup(n.layerGroupName, n.workspaceName));
    assert t1.ok && t1.server == t.server.(groups := t.server.groups - {(ws, ws)});
    var t2 := Attempt(t1, failing, RemoveLayer(n.workspaceName, n.layerName));
    var rest := Without(t.server.workspaces[ws], n.layerName);
    assert t2.ok && t2.server.workspaces == t.server.workspaces[ws := rest];
    assert (ws, ws) !in t2.server.groups;
    var t3 := Step(t2, failing, GetLayers(ws));
    assert t3.ok && t3.server == t2.server;
  }

  /** `after` keeps some of the records of `before`, each unchanged but for
      a status that may have turned to `queued`. */
  predicate RequeuedOrDeleted(before: map<string, FileRecord>, after: map<string, FileRecord>)
  {
    after.Keys <= before.Keys
    && forall k :: k in after ==> after[k] == before[k] || after[k] == before[k].(status := Queued)
  }

  lemma RequeuedOrDeletedTransitive(a: map<string, FileRecord>, b: map<string, FileRecord>, c: map<string, FileRecord>)
    requires RequeuedOrDeleted(a, b) && RequeuedOrDeleted(b, c)
    ensures RequeuedOrDeleted(a, c)
  {
  }

  /** One record of the current remove watcher. A record without a
      structure is skipped and kept; a structure `getGeoserverNames` throws
      on ends the sweep. Otherwise the clean-up runs; if it throws, the
      sweep ends with the record kept; else a raster record's directory is
      queued again and the record is deleted. `ok` is false when the sweep
      must end. */
  method RemoveRecord(db: Store, gs: Backend, file: FileRecord) returns (ok: bool)
    requires db.Valid()
    modifies db, gs
    ensures db.Valid() && db.locks == old(db.locks) && db.snapshot == old(db.snapshot)
    ensures file.structure.None? ==>
      ok && db.files == old(db.files) && gs.server == old(gs.server) && gs.log == old(gs.log)
    ensures file.structure.Some? && NamesFor(file.structure.value).None? ==>
      !ok && db.files == old(db.files) && gs.server == old(gs.server) && gs.log == old(gs.log)
    ensures file.structure.Some? && NamesFor(file.structure.value).Some? ==>
      var s := file.structure.value;
      var w := CleanupWork(Trace(old(gs.server), old(gs.log), true), gs.failing, NamesFor(s).value);
      gs.server == w.server && gs.log == w.calls && ok == w.ok
      && db.files == if !w.ok then old(db.files)
                     else if s.kind == RASTER then WithStatusUnder(old(db.files), Normalize(s.dir), Queued) - {Normalize(file.path)}
                     else old(db.files) - {Normalize(file.path)}
    ensures RequeuedOrDeleted(old(db.files), db.files)
    ensures forall k :: k in old(db.files) && k !in db.files ==> k == Normalize(file.path) && file.structure.Some?
    ensures ok && file.structure.Some? ==> Normalize(file.path) !in db.files
  {
    if file.structure.None? {
      return true;
    }
    var s := file.structure.value;
    var names := NamesFor(s);
    if names.None? {
      return false;
    }
    var n := names.value;
    SendIgnoringErrors(gs, RemoveLayerGroup(n.layerGroupName, n.workspaceName));
    SendIgnoringErrors(gs, RemoveLayer(n.workspaceName, n.layerName));
    ok := CreateLayerGroupFromWorkspace(gs, n.workspaceName, n.layerGroupName);
    if !ok {
      return;
    }
    if s.kind == RASTER {
      StatusUpdateIsPrefixed(db.files, Normalize(s.dir), Queued);
      db.ChangeFileStatusByBasepath(s.dir, Queued);
    }
    db.RemoveFile(file.path);
  }

  /** A record the current remove watcher deletes: `removed`, with a path
      and a structure. */
  predicate Removable(r: FileRecord)
  {
    r.status == Removed && r.path != "" && r.structure.Some?
  }

  /** One record of the sweep, seen from the loop: the record may be
      deleted, other records may only be requeued, and a clean-up that did
      not end the sweep deleted a structured record. */
  method RemoveRecordStep(db: Store, gs: Backend, file: FileRecord) returns (ok: bool)
    requires db.Valid()
    modifies db, gs
    ensures db.Valid() && db.locks == old(db.locks)
    ensures RequeuedOrDeleted(old(db.files), db.files)
    ensures forall k :: k in old(db.files) && k !in db.files ==> k == Normalize(file.path) && file.structure.Some?
    ensures ok && file.structure.Some? ==> Normalize(file.path) !in db.files
  {
    ok := RemoveRecord(db, gs, file);
  }

  /** Cleans up the records of `list` in order, stopping at the first one
      whose clean-up throws. */
  method RemoveEach(db: Store, gs: Backend, list: seq<FileRecord>) returns (ok: bool)
    requires db.Valid()
    requires forall r :: r in list ==>
      r.path in db.files && db.files[r.path] == r && Normalize(r.path) == r.path && r.status == Removed && r.path != ""
    modifies db, gs
    ensures db.Valid() && db.locks == old(db.locks)
    ensures RequeuedOrDeleted(old(db.files), db.files)
    ensures forall k :: k in old(db.files) && k !in db.files ==> Removable(old(db.files)[k])
    ensures ok ==> forall r :: r in list && r.structure.Some? ==> r.path !in db.files
  {
    ghost var files0 := db.files;
    var i := 0;
    ok := true;
    while i < |list| && ok
      invariant 0 <= i <= |list|
      invariant db.Valid() && db.locks == old(db.locks)
      invariant RequeuedOrDeleted(files0, db.files)
      invariant forall k :: k in files0 && k !in db.files ==> Removable(files0[k])
      invariant ok ==> forall j :: 0 <= j < i && list[j].structure.Some? ==> list[j].path !in db.files
    {
      var file := list[i];
      assert file in list;
      ghost var prev := db.files;
      ok := RemoveRecordStep(db, gs, file);
      RequeuedOrDeletedTransitive(files0, prev, db.files);
      i := i + 1;
    }
    if ok {
      forall r | r in list && r.structure.Some? ensures r.path !in db.files {
        var j :| 0 <= j < |list| && list[j] == r;
      }
    }
  }

  /** The current `removeWatcher`. Under its own lock (one attempt), the
      `removed` records with a path are cleaned up one by one until one
      throws. Records keep every field but the status, which may only turn
      to `queued`; only removed records with a structure are deleted, and
      when the sweep completes every one of them is. The lock is released
      at the end. */
  method RemoveWatcher(db: Store, gs: Backend) returns (locked: bool, completed: bool)
    requires db.Valid()
    modifies db, gs
    ensures db.Valid() && db.locks == old(db.locks)
    ensures locked <==> Normalize(REMOVE_LOCK) !in old(db.locks)
    ensures !locked ==> !completed && db.files == old(db.files) && gs.server == old(gs.server) && gs.log == old(gs.log)
    ensures RequeuedOrDeleted(old(db.files), db.files)
    ensures forall k :: k in old(db.files) && k !in db.files ==> Removable(old(db.files)[k])
    ensures completed ==> forall k :: k in old(db.files) && Removable(old(db.files)[k]) ==> k !in db.files
  {
    completed := false;
    locked := db.AcquireLock(REMOVE_LOCK, REMOVE_LOCK_TTL);
    if !locked {
      return;
    }
    ghost var locks1 := db.locks;
    var removed := db.GetFilesByStatus(Removed);
    ghost var files0 := db.files;
    var toBeRemoved := FilterRecords(removed, (e: FileRecord) => e.path != "");
    forall r | r in toBeRemoved
      ensures r.path in files0 && files0[r.path] == r && Normalize(r.path) == r.path && r.status == Removed && r.path != ""
    {
      var j :| 0 <= j < |removed| && removed[j] == r;
      NormalizeKeeps(r.path);
    }
    forall k | k in files0 && Removable(files0[k]) ensures files0[k] in toBeRemoved {
      assert k in Paths(removed);
      var r :| r in removed && r.path == k;
      assert r in toBeRemoved;
    }
    if |toBeRemoved| == 0 {
      db.ReleaseLock(REMOVE_LOCK);
      completed := true;
      return;
    }
    var ok := RemoveEach(db, gs, toBeRemoved);
    completed := ok;
    db.ReleaseLock(REMOVE_LOCK);
  }

  // ---------------------------------------------------------------------
  // The first-generation remove watcher

  /** The first generation's clean-up of a dataset whose directory holds no
      more files: names as this sweep derives them (workspace and group
      `<customer>_<year>`, layer with a `_<type>` suffix unless raster),
      then the first-generation group rebuild. */
  function LegacyCleanupWork(t: Trace, failing: set<Call>, s: Structure): Trace
  {
    var ws := WorkspaceOf(s);
    var t1 := Attempt(t, failing, RemoveLayerGroup(ws, ws));
    var t2 := Attempt(t1, failing, RemoveLayer(ws, LegacyPublish.LegacyLayerName(s)));
    GroupFromWorkspaceLegacy(t2, failing, ws, ws)
  }

  /** The store keys of a group's records. */
  function GroupKeys(list: seq<FileRecord>, basepath: string): set<string>
  {
    set r | r in list && r.basepath == basepath :: Normalize(r.path)
  }

  /** Deletes every record of the list that belongs to the group. */
  method RemoveGroupFiles(db: Store, list: seq<FileRecord>, basepath: string)
    requires db.Valid()
    modifies db
    ensures db.Valid() && db.locks == old(db.locks) && db.snapshot == old(db.snapshot)
    ensures db.files == old(db.files) - GroupKeys(list, basepath)
  {
    var i := 0;
    while i < |list|
      invariant 0 <= i <= |list|
      invariant db.Valid() && db.locks == old(db.locks) && db.snapshot == old(db.snapshot)
      invariant db.files == old(db.files) - set j | 0 <= j < i && list[j].basepath == basepath :: Normalize(list[j].path)
    {
      if list[i].basepath == basepath {
        db.RemoveFile(list[i].path);
      }
      i := i + 1;
    }
    assert GroupKeys(list, basepath) == set j | 0 <= j < |list| && list[j].basepath == basepath :: Normalize(list[j].path) by {
      forall x | x in GroupKeys(list, basepath)
        ensures x in set j | 0 <= j < |list| && list[j].basepath == basepath :: Normalize(list[j].path)
      {
        var r :| r in list && r.basepath == basepath && x == Normalize(r.path);
        var j :| 0 <= j < |list| && list[j] == r;
      }
    }
  }

  /** One group of the first-generation `removeWatcher`. The files left in
      the group's directory are counted (a missing directory throws and
      ends the sweep). With none left, a basepath that does not parse skips
      the group and keeps its records; one that parses has its layer and
      group dropped and the group rebuilt, and a throwing rebuild ends the
      sweep with the records kept. With files left, every record under the
      basepath is queued again. Either way the group's records are then
      deleted. `ok` is false when the sweep must end. */
  method RemoveGroupLegacy(db: Store, gs: Backend, list: seq<FileRecord>, basepath: string, root: Option<FsTree.Entry>)
    returns (ok: bool)
    requires db.Valid()
    modifies db, gs
    ensures db.Valid() && db.locks == old(db.locks) && db.snapshot == old(db.snapshot)
    ensures FsTree.LegacyCountSpec(root).None? ==>
      !ok && db.files == old(db.files) && gs.server == old(gs.server) && gs.log == old(gs.log)
    ensures FsTree.LegacyCountSpec(root) == Some(0) && CheckStructureLegacy(basepath, false).None? ==>
      ok && db.files == old(db.files) && gs.server == old(gs.server) && gs.log == old(gs.log)
    ensures FsTree.LegacyCountSpec(root) == Some(0) && CheckStructureLegacy(basepath, false).Some? ==>
      var w := LegacyCleanupWork(Trace(old(gs.server), old(gs.log), true), gs.failing,
                                 CheckStructureLegacy(basepath, false).value);
      gs.server == w.server && gs.log == w.calls && ok == w.ok
      && db.files == if w.ok then old(db.files) - GroupKeys(list, basepath) else old(db.files)
    ensures FsTree.LegacyCountSpec(root).Some? && FsTree.LegacyCountSpec(root).value > 0 ==>
      ok && gs.server == old(gs.server) && gs.log == old(gs.log)
      && db.files == WithStatusUnder(old(db.files), Normalize(basepath), Queued) - GroupKeys(list, basepath)
    ensures RequeuedOrDeleted(old(db.files), db.files)
    ensures old(db.files).Keys - db.files.Keys <= GroupKeys(list, basepath)
    ensures ok && !(FsTree.LegacyCountSpec(root) == Some(0) && CheckStructureLegacy(basepath, false).None?) ==>
      GroupKeys(list, basepath) !! db.files.Keys
  {
    var count := FsTree.CountTotalFilesLegacy(root);
    if count.None? {
      return false;
    }
    if count.value == 0 {
      var structure := CheckStructureLegacy(basepath, false);
      if structure.None? {
        return true;
      }
      var s := structure.value;
      var ws := WorkspaceOf(s);
      SendIgnoringErrors(gs, RemoveLayerGroup(ws, ws));
      SendIgnoringErrors(gs, RemoveLayer(ws, LegacyPublish.LegacyLayerName(s)));
      ok := CreateLayerGroupFromWorkspaceLegacy(gs, ws, ws);
      if !ok {
        return;
      }
    } else {
      StatusUpdateIsPrefixed(db.files, Normalize(basepath), Queued);
      db.ChangeFileStatusByBasepath(basepath, Queued);
    }
    RemoveGroupFiles(db, list, basepath);
    ok := true;
  }

  /** A group the first-generation sweep keeps: its directory is empty and
      its basepath does not parse. */
  predicate KeptByLegacySweep(basepath: string, tree: string -> Option<FsTree.Entry>)
  {
    FsTree.LegacyCountSpec(tree("/" + basepath)) == Some(0) && CheckStructureLegacy(basepath, false).None?
  }

  /** A record the first-generation remove watcher deletes: `removed`, with
      a basepath, in a group it does not keep. */
  predicate RemovableLegacy(r: FileRecord, tree: string -> Option<FsTree.Entry>)
  {
    r.status == Removed && r.basepath != "" && !KeptByLegacySweep(r.basepath, tree)
  }

  /** The groups of `list`, by basepath, each handled as
      `RemoveGroupLegacy` says, until one throws. */
  method RemoveGroupsLegacy(db: Store, gs: Backend, list: seq<FileRecord>, tree: string -> Option<FsTree.Entry>)
    returns (ok: bool)
    requires db.Valid()
    requires forall r :: r in list ==>
      r.path in db.files && db.files[r.path] == r && Normalize(r.path) == r.path && r.status == Removed && r.basepath != ""
    modifies db, gs
    ensures db.Valid() && db.locks == old(db.locks)
    ensures RequeuedOrDeleted(old(db.files), db.files)
    ensures forall k :: k in old(db.files) && k !in db.files ==> RemovableLegacy(old(db.files)[k], tree)
    ensures ok ==> forall r :: r in list && !KeptByLegacySweep(r.basepath, tree) ==> r.path !in db.files
  {
    ghost var files0 := db.files;
    var groups := set r | r in list :: r.basepath;
    var todo := groups;
    ok := true;
    while todo != {} && ok
      invariant todo <= groups
      invariant db.Valid() && db.locks == old(db.locks)
      invariant RequeuedOrDeleted(files0, db.files)
      invariant forall k :: k in files0 && k !in db.files ==> RemovableLegacy(files0[k], tree)
      invariant ok ==> forall r :: r in list && r.basepath !in todo && !KeptByLegacySweep(r.basepath, tree)
                                   ==> r.path !in db.files
      decreases todo
    {
      var bp :| bp in todo;
      ghost var prev := db.files;
      assert !KeptByLegacySweep(bp, tree) ==>
        forall k :: k in GroupKeys(list, bp) ==> k in files0 && RemovableLegacy(files0[k], tree);
      ok := RemoveGroupLegacy(db, gs, list, bp, tree("/" + bp));
      RequeuedOrDeletedTransitive(files0, prev, db.files);
      todo := todo - {bp};
    }
  }

  /** The first-generation `removeWatcher`. `tree` gives what the file
      system holds at a directory. Under the lock (one attempt), the
      `removed` records with a basepath are grouped by basepath and each
      group is handled as `RemoveGroupLegacy` says, until one throws.
      Records keep every field but the status, which may only turn to
      `queued`; only removed records with a basepath are deleted, never
      those of a kept group, and when the sweep completes all the others
      are. The lock is released at the end. */
  method RemoveWatcherLegacy(db: Store, gs: Backend, tree: string -> Option<FsTree.Entry>)
    returns (locked: bool, completed: bool)
    requires db.Valid()
    modifies db, gs
    ensures db.Valid() && db.locks == old(db.locks)
    ensures locked <==> Normalize(REMOVE_LOCK) !in old(db.locks)
    ensures !locked ==> !completed && db.files == old(db.files) && gs.server == old(gs.server) && gs.log == old(gs.log)
    ensures RequeuedOrDeleted(old(db.files), db.files)
    ensures forall k :: k in old(db.files) && k !in db.files ==> RemovableLegacy(old(db.files)[k], tree)
    ensures completed ==> forall k :: k in old(db.files) && RemovableLegacy(old(db.files)[k], tree) ==> k !in db.files
  {
    completed := false;
    locked := db.AcquireLock(REMOVE_LOCK, REMOVE_LOCK_TTL);
    if !locked {
      return;
    }
    ghost var locks1 := db.locks;
    var removed := db.GetFilesByStatus(Removed);
    ghost var files0 := db.files;
    var toBeRemoved := FilterRecords(removed, (e: FileRecord) => e.basepath != "");
    forall r | r in toBeRemoved
      ensures r.path in files0 && files0[r.path] == r && Normalize(r.path) == r.path && r.status == Removed
    {
      var j :| 0 <= j < |removed| && removed[j] == r;
      NormalizeKeeps(r.path);
    }
    forall k | k in files0 && files0[k].status == Removed && files0[k].basepath != "" ensures files0[k] in toBeRemoved {
      assert k in Paths(removed);
      var r :| r in removed && r.path == k;
    }
    if |toBeRemoved| == 0 {
      db.ReleaseLock(REMOVE_LOCK);
      completed := true;
      return;
    }
    var ok := RemoveGroupsLegacy(db, gs, toBeRemoved, tree);
    completed := ok;
    db.ReleaseLock(REMOVE_LOCK);
  }

  // ---------------------------------------------------------------------
  // The empty-workspace sweeps

  /** The sweep over a list of workspaces: each one's layers are listed
      (an error ends the sweep), and one without layers is removed, with
      the removal's own errors ignored. */
  function SweepWork(t: Trace, failing: set<Call>, workspaces: seq<string>): Trace
    decreases |workspaces|
  {
    if workspaces == [] || !t.ok then t
    else
      var ws := workspaces[0];
      var t1 := Step(t, failing, GetLayers(ws));
      if !t1.ok then t1
      else if LayerList(t.server, ws).None? then SweepWork(Attempt(t1, failing, RemoveWorkspace(ws)), failing, workspaces[1..])
      else SweepWork(t1, failing, workspaces[1..])
  }

  /** What a sweep may do to the server: only workspaces without layers
      disappear, with their stores, groups and styles; everything else
      stays. */
  predicate SweepKeeps(before: Server, after: Server)
  {
    after.workspaces.Keys <= before.workspaces.Keys
    && (forall w :: w in after.workspaces ==> after.workspaces[w] == before.workspaces[w])
    && (forall w :: w in before.workspaces && before.workspaces[w] != [] ==> w in after.workspaces)
    && (forall g :: g in after.groups ==> g in before.groups && after.groups[g] == before.groups[g])
    && (forall g :: g in before.groups && g.0 in after.workspaces ==> g in after.groups)
    && after.stores <= before.stores
    && (forall st :: st in before.stores && st.0 in after.workspaces ==> st in after.stores)
    && after.styles <= before.styles
    && (forall st :: st in before.styles && st.0 in after.workspaces ==> st in after.styles)
  }

  /** The workspaces that hold at least one layer. */
  function NonEmptyWorkspaces(ws: map<string, seq<string>>): map<string, seq<string>>
  {
    map w | w in ws && ws[w] != [] :: ws[w]
  }

  /** None of the calls a sweep makes fails. */
  predicate SweepCallsSucceed(failing: set<Call>)
  {
    GetWorkspaces !in failing && forall c :: c in failing ==> !c.GetLayers? && !c.RemoveWorkspace?
  }

  /** Whatever fails, a sweep removes only workspaces without layers. */
  lemma {:induction false} SweepOnlyRemovesEmpty(t: Trace, failing: set<Call>, workspaces: seq<string>)
    ensures SweepKeeps(t.server, SweepWork(t, failing, workspaces).server)
    decreases |workspaces|
  {
    if workspaces != [] && t.ok {
      var ws := workspaces[0];
      var t1 := Step(t, failing, GetLayers(ws));
      if t1.ok {
        if LayerList(t.server, ws).None? {
          var t2 := Attempt(t1, failing, RemoveWorkspace(ws));
          SweepOnlyRemovesEmpty(t2, failing, workspaces[1..]);
          assert SweepKeeps(t.server, t2.server);
        } else {
          SweepOnlyRemovesEmpty(t1, failing, workspaces[1..]);
        }
      }
    }
  }

  /** When none of its calls fails, a sweep over distinct existing
      workspaces removes exactly those of them without layers. */
  lemma {:induction false} SweepRemovesEveryEmpty(t: Trace, failing: set<Call>, workspaces: seq<string>)
    requires t.ok && SweepCallsSucceed(failing)
    requires forall w :: w in workspaces ==> w in t.server.workspaces
    requires forall i, j :: 0 <= i < j < |workspaces| ==> workspaces[i] != workspaces[j]
    ensures var r := SweepWork(t, failing, workspaces);
      r.ok && r.server.workspaces ==
        map w | w in t.server.workspaces && !(w in workspaces && t.server.workspaces[w] == []) :: t.server.workspaces[w]
    decreases |workspaces|
  {
    if workspaces != [] {
      var ws := workspaces[0];
      var rest := workspaces[1..];
      assert forall w :: w in workspaces <==> w == ws || w in rest;
      assert ws !in rest;
      var t1 := Step(t, failing, GetLayers(ws));
      var t2 := if LayerList(t.server, ws).None? then Attempt(t1, failing, RemoveWorkspace(ws)) else t1;
      SweepRemovesEveryEmpty(t2, failing, rest);
    }
  }

  /** Lists the layers of every workspace in order, removing the empty ones. */
  method Sweep(gs: Backend, workspaces: seq<string>) returns (ok: bool)
    modifies gs
    ensures Trace(gs.server, gs.log, ok) == SweepWork(Trace(old(gs.server), old(gs.log), true), gs.failing, workspaces)
  {
    ok := true;
    var i := 0;
    while i < |workspaces| && ok
      invariant 0 <= i <= |workspaces|
      invariant SweepWork(Trace(old(gs.server), old(gs.log), true), gs.failing, workspaces) ==
                SweepWork(Trace(gs.server, gs.log, ok), gs.failing, workspaces[i..])
    {
      assert workspaces[i..][0] == workspaces[i] && workspaces[i..][1..] == workspaces[i + 1..];
      var layers := gs.FetchLayers(workspaces[i]);
      if layers.Threw? {
        ok := false;
      } else if layers.value.None? {
        SendIgnoringErrors(gs, RemoveWorkspace(workspaces[i]));
      }
      i := i + 1;
    }
  }

  /** Fetches the workspace list (an error ends it) and sweeps it: only
      empty workspaces go, and when no call fails every empty one does. */
  method SweepAll(gs: Backend)
    modifies gs
    ensures SweepKeeps(old(gs.server), gs.server)
    ensures SweepCallsSucceed(gs.failing) ==> gs.server.workspaces == NonEmptyWorkspaces(old(gs.server.workspaces))
  {
    var workspaces := gs.FetchWorkspaces();
    if workspaces.Threw? {
      return;
    }
    ghost var t1 := Trace(gs.server, gs.log, true);
    var ok := Sweep(gs, workspaces.value);
    SweepOnlyRemovesEmpty(t1, gs.failing, workspaces.value);
    if SweepCallsSucceed(gs.failing) {
      SweepRemovesEveryEmpty(t1, gs.failing, workspaces.value);
    }
  }

  /** The current `geoserverWatcher`: if its lock is held it returns
      without releasing it; otherwise it sweeps and releases the lock. */
  method GeoserverWatcher(db: Store, gs: Backend) returns (locked: bool)
    modifies db, gs
    ensures db.files == old(db.files) && db.snapshot == old(db.snapshot) && db.locks == old(db.locks)
    ensures locked <==> Normalize(GEOSERVER_LOCK) !in old(db.locks)
    ensures !locked ==> gs.server == old(gs.server) && gs.log == old(gs.log)
    ensures SweepKeeps(old(gs.server), gs.server)
    ensures locked && SweepCallsSucceed(gs.failing) ==>
      gs.server.workspaces == NonEmptyWorkspaces(old(gs.server.workspaces))
  {
    locked := db.AcquireLock(GEOSERVER_LOCK, GEOSERVER_LOCK_TTL);
    if !locked {
      return;
    }
    SweepAll(gs);
    db.ReleaseLock(GEOSERVER_LOCK);
  }

  /** The first-generation `geoserverWatcher` takes its lock inside the
      `try`, so even when the lock is held by another run, the `finally`
      deletes it. */
  method GeoserverWatcherLegacy(db: Store, gs: Backend) returns (locked: bool)
    modifies db, gs
    ensures db.files == old(db.files) && db.snapshot == old(db.snapshot)
    ensures db.locks == old(db.locks) - {Normalize(GEOSERVER_LOCK)}
    ensures locked <==> Normalize(GEOSERVER_LOCK) !in old(db.locks)
    ensures !locked ==> gs.server == old(gs.server) && gs.log == old(gs.log)
    ensures SweepKeeps(old(gs.server), gs.server)
    ensures locked && SweepCallsSucceed(gs.failing) ==>
      gs.server.workspaces == NonEmptyWorkspaces(old(gs.server.workspaces))
  {
    locked := db.AcquireLock(GEOSERVER_LOCK, LEGACY_GEOSERVER_LOCK_TTL);
    if locked {
      SweepAll(gs);
    }
    db.ReleaseLock(GEOSERVER_LOCK);
  }

  /** `geoserverController`: the same sweep with no lock. */
  method GeoserverController(gs: Backend)
    modifies gs
    ensures SweepKeeps(old(gs.server), gs.server)
    ensures SweepCallsSucceed(gs.failing) ==> gs.server.workspaces == NonEmptyWorkspaces(old(gs.server.workspaces))
  {
    SweepAll(gs);
  }
}

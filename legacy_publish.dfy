/** The first generation's publishing: `processDataset`, one workflow for
    every type under a single lock, and the queue watcher that runs it for
    every settled group of queued records. Its `getGeoserverNames` yields
    only a workspace and a store name, so every other name it reads,
    the lock key included, is undefined. */
module LegacyPublish {
  import opened Wrappers
  import opened Text
  import opened Classify
  import opened Naming
  import opened FileDb
  import opened GeoServer
  import opened LayerGroups
  import opened Workflows

  /** How a missing name renders in a call or a lock key. */
  const UNDEFINED := TemplateText(None)

  /** The lock TTL used when the caller gives none. */
  const DEFAULT_LOCK_TTL: nat := 600

  /** A group of queued records is handled once its oldest record is more
      than this old. */
  const SETTLE_MS := 10 * 1000

  /** The layer name this generation's remove sweep derives for a
      structure: `<customer>_<year>` for a raster dataset, with `_<type>`
      appended for any other type. */
  function LegacyLayerName(s: Structure): (r: string)
    ensures StartsWith(r, WorkspaceOf(s))
    ensures s.kind == RASTER ==> r == WorkspaceOf(s)
  {
    WorkspaceOf(s) + (if s.kind == RASTER then "" else "_" + s.kind)
  }

  /** Calls that create workspaces, stores, layers and styles leave the
      layer groups alone. */
  lemma {:induction false} StepsKeepsGroups(t: Trace, failing: set<Call>, plan: seq<Call>)
    requires forall i :: 0 <= i < |plan| ==>
      !plan[i].CreateLayerGroup? && !plan[i].CreateRasterLayerGroup? && !plan[i].RemoveLayerGroup? && !plan[i].RemoveWorkspace?
    ensures Steps(t, failing, plan).server.groups == t.server.groups
    decreases |plan|
  {
    if plan != [] {
      StepsKeepsGroups(Step(t, failing, plan[0]), failing, plan[1..]);
    }
  }

  /** The per-type publish calls of `processDataset` with the names this
      generation evidently intends: the layer named as the remove sweep
      names it, the points style named after the layer, and the group
      named `<customer>_<year>`. Types are compared exactly; an unknown
      type publishes nothing. The analysis output is not checked: a missing
      one reaches the store as "undefined". */
  function LegacyTypeWork(t: Trace, failing: set<Call>, s: Structure, out: Outputs): Trace
  {
    var n := GetGeoserverNamesLegacy(s);
    var ws, store, layer := n.workspaceName, n.storeName, LegacyLayerName(s);
    if s.kind == RASTER then
      Steps(t, failing, [Transform(RASTER, s.dir), CreateWorkspace(ws), CreateStore(ws, store, out.raster),
                         CreateLayer(ws, store, layer)])
    else if s.kind == POINTS then
      var t1 := Step(t, failing, Transform(POINTS, s.dir));
      if !t1.ok || out.points.None? then t1
      else Steps(t1, failing, [CreateWorkspace(ws), CreateShapefileStore(ws, store, out.points.value),
                               CreateStyle(ws, layer), CreateVectorLayer(ws, store, layer, layer, UNDEFINED)])
    else if s.kind == ANALYSIS then
      Steps(t, failing, [Transform(ANALYSIS, s.dir), CreateWorkspace(ws), CreateStore(ws, store, TemplateText(out.analysis)),
                         CreateLayer(ws, store, layer)])
    else t
  }

  /** `processDataset`'s calls once its lock is held, with the intended
      names: the type's publish calls, then the group rebuild for every
      type, unless a points dataset produced no output (it returns before
      the rebuild). */
  function LegacyWork(t: Trace, failing: set<Call>, s: Structure, out: Outputs): Trace
  {
    var t1 := LegacyTypeWork(t, failing, s, out);
    if s.kind == POINTS && t1.ok && out.points.None? then t1
    else GroupFromWorkspaceLegacy(t1, failing, WorkspaceOf(s), WorkspaceOf(s))
  }

  /** A points dataset without output calls only the transform. */
  lemma LegacyPointsWithoutOutput(t: Trace, failing: set<Call>, s: Structure, out: Outputs)
    requires t.ok && s.kind == POINTS && out.points.None? && Transform(POINTS, s.dir) !in failing
    ensures LegacyWork(t, failing, s, out) == Trace(t.server, t.calls + [Transform(POINTS, s.dir)], true)
  {
  }

  /** An unknown type publishes nothing but still rebuilds the group. */
  lemma LegacyUnknownTypeRebuildsGroup(t: Trace, failing: set<Call>, s: Structure, out: Outputs)
    requires s.kind != RASTER && s.kind != POINTS && s.kind != ANALYSIS
    ensures LegacyWork(t, failing, s, out) == GroupFromWorkspaceLegacy(t, failing, WorkspaceOf(s), WorkspaceOf(s))
  {
  }

  /** A group rebuild that succeeds leaves a group holding every layer of
      the workspace, each once per occurrence. The group is filed under the
      workspace named by the group argument, since the two names reach
      `createLayerGroup` in each other's place. */
  lemma LegacyGroupHoldsWorkspace(t: Trace, failing: set<Call>, ws: string, group: string)
    requires t.ok
    ensures var r := GroupFromWorkspaceLegacy(t, failing, ws, group);
      r.ok ==> (ws in r.server.workspaces && (group, ws) in r.server.groups
                && multiset(r.server.groups[(group, ws)].layers) == multiset(r.server.workspaces[ws])
                && r.server.workspaces == t.server.workspaces)
  {
    var t1 := Step(t, failing, GetLayers(ws));
    if t1.ok && t.server.workspaces[ws] != [] {
      var layers := t.server.workspaces[ws];
      LegacyGroupPermutes(layers);
      var c := CreateRasterLayerGroup(ws, group, LegacyGroupLayers(layers));
      var e := Effect(t.server, c);
      assert e == t.server.(groups := t.server.groups[(group, ws) := Group(LegacyGroupLayers(layers), Repeat("raster", |LegacyGroupLayers(layers)|))]);
    }
  }

  /** A successful run of any type other than an output-less points
      dataset ends with the workspace's group holding all its layers. */
  lemma LegacySuccessRebuildsGroup(t: Trace, failing: set<Call>, s: Structure, out: Outputs)
    requires t.ok
    requires !(s.kind == POINTS && out.points.None?)
    ensures var w := LegacyWork(t, failing, s, out); var ws := WorkspaceOf(s);
      w.ok ==> (ws in w.server.workspaces && (ws, ws) in w.server.groups
                && multiset(w.server.groups[(ws, ws)].layers) == multiset(w.server.workspaces[ws]))
  {
    var t1 := LegacyTypeWork(t, failing, s, out);
    if t1.ok {
      LegacyGroupHoldsWorkspace(t1, failing, WorkspaceOf(s), WorkspaceOf(s));
    } else {
      assert !GroupFromWorkspaceLegacy(t1, failing, WorkspaceOf(s), WorkspaceOf(s)).ok;
    }
  }

  /** A raster run that succeeds made exactly: transform, workspace, store,
      layer, layer list, group. */
  lemma LegacyRasterOrder(t: Trace, failing: set<Call>, s: Structure, out: Outputs)
    requires t.ok && s.kind == RASTER
    ensures var w := LegacyWork(t, failing, s, out); var ws := WorkspaceOf(s);
      w.ok ==> (|w.calls| == |t.calls| + 6
                && w.calls[..|t.calls| + 5] == t.calls + [Transform(RASTER, s.dir), CreateWorkspace(ws),
                                                         CreateStore(ws, ws, out.raster), CreateLayer(ws, ws, ws), GetLayers(ws)]
                && w.calls[|t.calls| + 5].CreateRasterLayerGroup?)
  {
    var ws := WorkspaceOf(s);
    var p := [Transform(RASTER, s.dir), CreateWorkspace(ws), CreateStore(ws, ws, out.raster), CreateLayer(ws, ws, ws)];
    var t1 := Steps(t, failing, p);
    StepsCallPrefix(t, failing, p);
    if t1.ok {
      assert t1.calls == t.calls + p;
    }
  }

  /** The calls under the lock, as one method. */
  method PublishLegacy(gs: Backend, s: Structure, out: Outputs) returns (ok: bool)
    modifies gs
    ensures Trace(gs.server, gs.log, ok) == LegacyWork(Trace(old(gs.server), old(gs.log), true), gs.failing, s, out)
  {
    var n := GetGeoserverNamesLegacy(s);
    var ws, store, layer := n.workspaceName, n.storeName, LegacyLayerName(s);
    ok := true;
    if s.kind == RASTER {
      ok := gs.RunPlan([Transform(RASTER, s.dir), CreateWorkspace(ws), CreateStore(ws, store, out.raster),
                        CreateLayer(ws, store, layer)]);
    } else if s.kind == POINTS {
      ok := gs.Send(Transform(POINTS, s.dir));
      if ok && out.points.None? {
        return;
      }
      if ok {
        ok := gs.RunPlan([CreateWorkspace(ws), CreateShapefileStore(ws, store, out.points.value),
                          CreateStyle(ws, layer), CreateVectorLayer(ws, store, layer, layer, UNDEFINED)]);
      }
    } else if s.kind == ANALYSIS {
      ok := gs.RunPlan([Transform(ANALYSIS, s.dir), CreateWorkspace(ws), CreateStore(ws, store, TemplateText(out.analysis)),
                        CreateLayer(ws, store, layer)]);
    }
    if ok {
      ok := CreateLayerGroupFromWorkspaceLegacy(gs, ws, ws);
    }
  }

  /** `processDataset`, given the lock key its names yield. `acquireLock`
      calls `replace` on the key, so an undefined key throws at the first
      attempt, before the `try`: nothing is locked, transformed or
      published. A defined key is tried ten times with TTL 60; once it is
      held the publish calls run with the intended names, and the lock is
      released whatever they did. */
  method ProcessDatasetLegacy(db: Store, gs: Backend, s: Structure, out: Outputs, key: Option<string>,
                              releasedDuring: seq<bool>)
    returns (r: Outcome<RunResult>)
    requires db.Valid()
    modifies db, gs
    ensures db.Valid() && db.files == old(db.files) && db.snapshot == old(db.snapshot)
    ensures db.locks.Keys <= old(db.locks).Keys
    ensures r.Threw? <==> key.None?
    ensures key.None? ==> db.locks == old(db.locks) && gs.server == old(gs.server) && gs.log == old(gs.log)
    ensures key.Some? ==> db.locks - {Normalize(key.value)} == old(db.locks) - {Normalize(key.value)}
    ensures key.Some? ==> (r == Returned(NotLocked) <==> !LockObtained(old(db.locks), key.value, releasedDuring))
    ensures r == Returned(NotLocked) ==> gs.server == old(gs.server) && gs.log == old(gs.log)
    ensures key.Some? && r != Returned(NotLocked) ==>
      var w := LegacyWork(Trace(old(gs.server), old(gs.log), true), gs.failing, s, out);
      Normalize(key.value) !in db.locks && gs.server == w.server && gs.log == w.calls
      && (r == Returned(Finished) <==> w.ok)
  {
    if key.None? {
      return Threw;
    }
    var locked, tries := db.AcquireWithRetry(key.value, GROUP_LOCK_TTL, MAX_RETRIES, releasedDuring);
    if !locked {
      return Returned(NotLocked);
    }
    var ok := PublishLegacy(gs, s, out);
    db.ReleaseLock(key.value);
    r := Returned(if ok then Finished else Failed);
  }

  /** `processDataset` as written. It passes `acquireLock` the `layerGroupName`
      of its names, a field this generation's `getGeoserverNames` does not
      return, so the key is undefined for every dataset: the run throws
      at its first lock attempt, and nothing is locked, transformed,
      published or written. */
  method ProcessDatasetAsWritten(db: Store, gs: Backend, s: Structure, out: Outputs, releasedDuring: seq<bool>)
    returns (r: Outcome<RunResult>)
    requires db.Valid()
    modifies db, gs
    ensures r.Threw?
    ensures db.Valid() && db.files == old(db.files) && db.locks == old(db.locks) && db.snapshot == old(db.snapshot)
    ensures gs.server == old(gs.server) && gs.log == old(gs.log)
  {
    var layerGroupName: Option<string> := None;
    r := ProcessDatasetLegacy(db, gs, s, out, layerGroupName, releasedDuring);
  }

  // The queue watcher

  /** The per-dataset lock of the queue watcher. */
  function LockKeyFor(basepath: string): string
  {
    "lock::" + basepath
  }

  /** The basepaths that have at least one queued record. */
  function QueuedBasepaths(files: map<string, FileRecord>): set<string>
  {
    set k | k in files && files[k].status == Queued :: files[k].basepath
  }

  /** A group is settled when its oldest queued record is more than
      `SETTLE_MS` old, that is, when some queued record of it is. */
  predicate Settled(files: map<string, FileRecord>, basepath: string, now: int)
  {
    exists k :: k in files && files[k].status == Queued && files[k].basepath == basepath && now - files[k].ts > SETTLE_MS
  }

  /** What the queue watcher hands to `processDataset` as written: the
      basepath string itself, whose customer, year, type and directory all
      read as undefined. */
  function DatasetArgAsWritten(basepath: string): (s: Structure)
    ensures WorkspaceOf(s) == UNDEFINED + "_" + UNDEFINED
    ensures s.kind != RASTER && s.kind != POINTS && s.kind != ANALYSIS
  {
    Structure(UNDEFINED, UNDEFINED, UNDEFINED, None, UNDEFINED)
  }

  /** As written, whatever dataset the basepath names, the run publishes
      nothing of it: no transform, and only the layer list and group of the
      workspace "undefined_undefined" are touched. */
  lemma AsWrittenArgumentPublishesNothing(t: Trace, failing: set<Call>, basepath: string, out: Outputs)
    requires t.ok
    ensures var w := LegacyWork(t, failing, DatasetArgAsWritten(basepath), out);
      var ws := UNDEFINED + "_" + UNDEFINED;
      |t.calls| <= |w.calls| <= |t.calls| + 2 && w.calls[..|t.calls|] == t.calls
      && forall i :: |t.calls| <= i < |w.calls| ==>
           w.calls[i] == GetLayers(ws) || (w.calls[i].CreateRasterLayerGroup? && w.calls[i].ws == ws)
  {
  }

  /** The smallest timestamp among the queued records of one basepath: the
      head of the group once sorted by timestamp. */
  method OldestTs(queued: seq<FileRecord>, basepath: string) returns (oldest: int)
    requires exists i :: 0 <= i < |queued| && queued[i].basepath == basepath
    ensures exists i :: 0 <= i < |queued| && queued[i].basepath == basepath && queued[i].ts == oldest
    ensures forall i :: 0 <= i < |queued| && queued[i].basepath == basepath ==> oldest <= queued[i].ts
  {
    var first :| 0 <= first < |queued| && queued[first].basepath == basepath;
    oldest := queued[first].ts;
    var i := 0;
    while i < |queued|
      invariant 0 <= i <= |queued|
      invariant exists j :: 0 <= j < |queued| && queued[j].basepath == basepath && queued[j].ts == oldest
      invariant forall j :: 0 <= j < i && queued[j].basepath == basepath ==> oldest <= queued[j].ts
      invariant oldest <= queued[first].ts
    {
      if queued[i].basepath == basepath && queued[i].ts < oldest {
        oldest := queued[i].ts;
      }
      i := i + 1;
    }
  }

  /** One settled group: take its lock (one attempt), recompute the
      structure from the basepath, run `processDataset` on it (its errors
      are caught) and release the lock on every path. `handled` says
      whether `processDataset` ran. */
  method HandleGroupLegacy(db: Store, gs: Backend, basepath: string, out: Outputs, releasedDuring: seq<bool>)
    returns (handled: bool)
    requires db.Valid()
    modifies db, gs
    ensures db.Valid() && db.files == old(db.files)
    ensures db.locks.Keys <= old(db.locks).Keys
    ensures handled <==> Normalize(LockKeyFor(basepath)) !in old(db.locks) && CheckStructureLegacy(basepath, false).Some?
    ensures !handled ==> gs.server == old(gs.server) && gs.log == old(gs.log) && db.locks == old(db.locks)
    ensures handled ==>
      var s := CheckStructureLegacy(basepath, false).value;
      var w := LegacyWork(Trace(old(gs.server), old(gs.log), true), gs.failing, s, out);
      (gs.server == w.server && gs.log == w.calls)
      || (gs.server == old(gs.server) && gs.log == old(gs.log))
  {
    var key := LockKeyFor(basepath);
    var acquired := db.AcquireLock(key, DEFAULT_LOCK_TTL);
    if !acquired {
      return false;
    }
    var structure := CheckStructureLegacy(basepath, false);
    if structure.None? {
      db.ReleaseLock(key);
      return false;
    }
    var r := ProcessDatasetLegacy(db, gs, structure.value, out, Some(WorkspaceOf(structure.value)), releasedDuring);
    db.ReleaseLock(key);
    handled := true;
  }

  /** The first generation's `queueWatcher`: group the queued records by
      basepath and hand every settled group whose lock is free and whose
      basepath parses to `processDataset`. It never changes a record, and
      every lock it or the workflows take is released again. `handled`
      lists the basepaths processed, in order. */
  method QueueWatcherLegacy(db: Store, gs: Backend, now: int, out: string -> Outputs, releasedDuring: string -> seq<bool>)
    returns (handled: seq<string>)
    requires db.Valid()
    modifies db, gs
    ensures db.Valid() && db.files == old(db.files)
    ensures db.locks.Keys <= old(db.locks).Keys
    ensures forall b :: b in handled ==>
      b in QueuedBasepaths(old(db.files)) && Settled(old(db.files), b, now) && CheckStructureLegacy(b, false).Some?
    ensures forall b ::
      (b in QueuedBasepaths(old(db.files)) && Settled(old(db.files), b, now)
       && CheckStructureLegacy(b, false).Some? && Normalize(LockKeyFor(b)) !in old(db.locks)) ==> b in handled
    ensures forall i, j :: 0 <= i < j < |handled| ==> handled[i] != handled[j]
    ensures handled == [] ==> gs.server == old(gs.server) && gs.log == old(gs.log)
  {
    handled := [];
    var queued := db.GetFilesByStatus(Queued);
    var groups := set r | r in queued :: r.basepath;
    assert groups == QueuedBasepaths(db.files) by {
      forall b | b in QueuedBasepaths(db.files) ensures b in groups {
        var k :| k in db.files && db.files[k].status == Queued && db.files[k].basepath == b;
        assert k in Paths(queued);
        var r :| r in queued && r.path == k;
      }
    }
    var todo := groups;
    while todo != {}
      invariant todo <= groups
      invariant db.Valid() && db.files == old(db.files)
      invariant db.locks.Keys <= old(db.locks).Keys
      invariant forall b :: b in handled ==>
        b in groups - todo && Settled(old(db.files), b, now) && CheckStructureLegacy(b, false).Some?
      invariant forall b ::
        (b in groups - todo && Settled(old(db.files), b, now)
         && CheckStructureLegacy(b, false).Some? && Normalize(LockKeyFor(b)) !in old(db.locks)) ==> b in handled
      invariant forall i, j :: 0 <= i < j < |handled| ==> handled[i] != handled[j]
      invariant handled == [] ==> gs.server == old(gs.server) && gs.log == old(gs.log)
      decreases todo
    {
      var bp :| bp in todo;
      var oldest := OldestTs(queued, bp);
      SettledIsOldest(db.files, queued, bp, now, oldest);
      if now - oldest > SETTLE_MS {
        var h := HandleGroupLegacy(db, gs, bp, out(bp), releasedDuring(bp));
        if h {
          handled := handled + [bp];
        }
      }
      todo := todo - {bp};
    }
  }

  /** A group is settled exactly when its oldest queued record is. */
  lemma SettledIsOldest(files: map<string, FileRecord>, queued: seq<FileRecord>, basepath: string, now: int, oldest: int)
    requires forall i :: 0 <= i < |queued| ==> queued[i].path in files && files[queued[i].path] == queued[i]
    requires Paths(queued) == set k | k in files && files[k].status == Queued
    requires exists i :: 0 <= i < |queued| && queued[i].basepath == basepath && queued[i].ts == oldest
    requires forall i :: 0 <= i < |queued| && queued[i].basepath == basepath ==> oldest <= queued[i].ts
    ensures Settled(files, basepath, now) <==> now - oldest > SETTLE_MS
  {
    if Settled(files, basepath, now) {
      var k :| k in files && files[k].status == Queued && files[k].basepath == basepath && now - files[k].ts > SETTLE_MS;
      assert k in Paths(queued);
      var r :| r in queued && r.path == k;
      var i :| 0 <= i < |queued| && queued[i] == r;
    }
    if now - oldest > SETTLE_MS {
      var i :| 0 <= i < |queued| && queued[i].basepath == basepath && queued[i].ts == oldest;
      assert files[queued[i].path] == queued[i];
      assert queued[i].path in Paths(queued);
    }
  }
}

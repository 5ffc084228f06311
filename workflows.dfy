/** The publishing workflows of the current generation: one per dataset
    type, each under the layer-group lock, plus the dispatcher that brackets
    a workflow with the `processing` and `done` status updates. Each
    workflow is specified by a function over the backend trace. */
module Workflows {
  import opened Wrappers
  import opened Text
  import opened Classify
  import opened Naming
  import opened FileDb
  import opened Jobs
  import opened GeoServer
  import opened LayerGroups
  import opened Requeue

  const GROUP_LOCK_TTL: nat := 60
  const MAX_RETRIES: nat := 10

  /** How a workflow ends: it never obtained its lock, it returned, or it
      threw. */
  datatype RunResult = NotLocked | Finished | Failed

  /** What the GDAL transforms produce for a dataset: the raster transform
      always yields a path; the points and analysis transforms may yield
      nothing. Whether a transform throws is the backend's `failing` set. */
  datatype Outputs = Outputs(raster: string, points: Option<string>, analysis: Option<string>)

  /** `getGeoserverNames`, which throws on a "styles" structure without a
      dataset. */
  function NamesFor(s: Structure): (r: Option<Names>)
    ensures r.None? <==> s.kind == STYLES && s.dataset.None?
    ensures r.Some? ==> r.value == GetGeoserverNames(s)
  {
    if s.kind == STYLES && s.dataset.None? then None else Some(GetGeoserverNames(s))
  }

  /** Whether the bounded retry loop obtains the lock `key`. */
  predicate LockObtained(locks: map<string, nat>, key: string, releasedDuring: seq<bool>)
  {
    RetryOutcome(Normalize(key) in locks, releasedDuring, MAX_RETRIES).Some?
  }

  /** The records differ at most by statuses set to `queued`. */
  predicate OnlyRequeued(before: map<string, FileRecord>, after: map<string, FileRecord>)
  {
    after.Keys == before.Keys
    && forall k :: k in before ==> after[k] == before[k] || after[k] == before[k].(status := Queued)
  }

  lemma RequeueUnderOnlyRequeues(files: map<string, FileRecord>, pattern: string)
    ensures OnlyRequeued(files, RequeueUnder(files, pattern))
  {
    RequeueOnlyQueues(files, pattern);
  }

  /** A group rebuild only appends calls. */
  lemma GroupExtends(u: Trace, failing: set<Call>, ws: string, group: string)
    ensures var r := GroupFromWorkspace(u, failing, ws, group);
      |u.calls| <= |r.calls| && r.calls[..|u.calls|] == u.calls
  {
  }

  // Raster

  function RasterPlan(s: Structure, n: Names, output: string): seq<Call>
  {
    [Transform(RASTER, s.dir), CreateWorkspace(n.workspaceName), CreateStore(n.workspaceName, n.storeName, output),
     CreateLayer(n.workspaceName, n.storeName, n.layerName)]
  }

  /** The raster workflow's calls once the lock is held. */
  function RasterWork(t: Trace, failing: set<Call>, s: Structure, n: Names, output: string): Trace
  {
    GroupFromWorkspace(Steps(t, failing, RasterPlan(s, n, output)), failing, n.workspaceName, n.layerGroupName)
  }

  /** A failing raster transform is the only call: nothing is published. */
  lemma RasterTransformFailure(t: Trace, failing: set<Call>, s: Structure, n: Names, output: string)
    requires t.ok && Transform(RASTER, s.dir) in failing
    ensures RasterWork(t, failing, s, n, output) == Trace(t.server, t.calls + [Transform(RASTER, s.dir)], false)
  {
    FirstFailureStopsRun(t, failing, RasterPlan(s, n, output));
  }

  /** The raster workflow makes a prefix of transform, workspace, store,
      layer in that order; if it stops inside that prefix it failed, and
      only a complete prefix is followed by the group rebuild. */
  lemma RasterCallOrder(t: Trace, failing: set<Call>, s: Structure, n: Names, output: string)
    requires t.ok
    ensures var w := RasterWork(t, failing, s, n, output); var p := RasterPlan(s, n, output);
      exists k :: 0 <= k <= |p| && |t.calls| + k <= |w.calls| && w.calls[..|t.calls| + k] == t.calls + p[..k]
        && (k < |p| ==> w.calls == t.calls + p[..k] && !w.ok)
  {
    var p := RasterPlan(s, n, output);
    var u := Steps(t, failing, p);
    StepsCallPrefix(t, failing, p);
    var k :| 0 <= k <= |p| && u.calls == t.calls + p[..k] && (u.ok ==> k == |p|);
    GroupExtends(u, failing, n.workspaceName, n.layerGroupName);
    var w := RasterWork(t, failing, s, n, output);
    assert w.calls[..|t.calls| + k] == t.calls + p[..k];
  }

  /** `processRasterDataset` (the `processors` and `services` copies are
      the same): take the layer-group lock with bounded retries, then
      transform, create workspace, store and layer, rebuild the group, and
      release the lock whatever happened. */
  method ProcessRasterDataset(db: Store, gs: Backend, s: Structure, output: string, releasedDuring: seq<bool>)
    returns (r: RunResult)
    requires db.Valid()
    modifies db, gs
    ensures db.Valid() && db.files == old(db.files)
    ensures db.locks.Keys <= old(db.locks).Keys
    ensures NamesFor(s).None? ==> r == Failed && gs.server == old(gs.server) && gs.log == old(gs.log)
    ensures NamesFor(s).Some? ==>
      (r == NotLocked <==> !LockObtained(old(db.locks), NamesFor(s).value.layerGroupName, releasedDuring))
    ensures r == NotLocked ==> gs.server == old(gs.server) && gs.log == old(gs.log)
    ensures NamesFor(s).Some? && r != NotLocked ==>
      var n := NamesFor(s).value;
      var w := RasterWork(Trace(old(gs.server), old(gs.log), true), gs.failing, s, n, output);
      Normalize(n.layerGroupName) !in db.locks && gs.server == w.server && gs.log == w.calls && (r == Finished <==> w.ok)
  {
    var names := NamesFor(s);
    if names.None? {
      return Failed;
    }
    var n := names.value;
    var locked, tries := db.AcquireWithRetry(n.layerGroupName, GROUP_LOCK_TTL, MAX_RETRIES, releasedDuring);
    if !locked {
      return NotLocked;
    }
    var ok := gs.RunPlan(RasterPlan(s, n, output));
    if ok {
      ok := CreateLayerGroupFromWorkspace(gs, n.workspaceName, n.layerGroupName);
    }
    db.ReleaseLock(n.layerGroupName);
    r := if ok then Finished else Failed;
  }

  // Points

  /** The points publish calls: the earlier copy also creates a default
      style before the layer. */
  function VectorPlan(n: Names, points: string, earlier: bool): seq<Call>
  {
    var ws, store := n.workspaceName, n.storeName;
    var layer := CreateVectorLayer(ws, store, n.layerName, n.styleName, n.nativeName);
    if earlier then [CreateWorkspace(ws), CreateShapefileStore(ws, store, points), CreateDefaultStyle(ws, n.styleName), layer]
    else [CreateWorkspace(ws), CreateShapefileStore(ws, store, points), layer]
  }

  /** The points workflow's calls once the lock is held: no output from the
      transform means nothing is published. */
  function VectorWork(t: Trace, failing: set<Call>, s: Structure, n: Names, points: Option<string>, earlier: bool): Trace
  {
    var t1 := Step(t, failing, Transform(POINTS, s.dir));
    if !t1.ok || points.None? then t1 else Steps(t1, failing, VectorPlan(n, points.value, earlier))
  }

  /** No output from the points transform: the transform was the only call
      and the server is unchanged. */
  lemma VectorNoOutput(t: Trace, failing: set<Call>, s: Structure, n: Names, earlier: bool)
    requires t.ok
    ensures var w := VectorWork(t, failing, s, n, None, earlier);
      w.calls == t.calls + [Transform(POINTS, s.dir)] && w.server == t.server
  {
  }

  /** With output and no failure, the points workflow makes exactly its
      plan's calls after the transform. */
  lemma VectorCallOrder(t: Trace, failing: set<Call>, s: Structure, n: Names, points: string, earlier: bool)
    requires t.ok
    ensures var w := VectorWork(t, failing, s, n, Some(points), earlier);
      w.ok ==> w.calls == t.calls + [Transform(POINTS, s.dir)] + VectorPlan(n, points, earlier)
  {
    var t1 := Step(t, failing, Transform(POINTS, s.dir));
    if t1.ok {
      StepsCallPrefix(t1, failing, VectorPlan(n, points, earlier));
    }
  }

  /** `processVectorDataset`. The current copy then requeues the points
      style records of the customer's year (status only, no job); the
      earlier copy creates a default style and requeues nothing. */
  method ProcessVectorDataset(db: Store, gs: Backend, s: Structure, points: Option<string>,
                              releasedDuring: seq<bool>, earlier: bool)
    returns (r: RunResult)
    requires db.Valid()
    modifies db, gs
    ensures db.Valid() && OnlyRequeued(old(db.files), db.files)
    ensures db.locks.Keys <= old(db.locks).Keys
    ensures NamesFor(s).None? ==>
      r == Failed && gs.server == old(gs.server) && gs.log == old(gs.log) && db.files == old(db.files)
    ensures NamesFor(s).Some? ==>
      (r == NotLocked <==> !LockObtained(old(db.locks), NamesFor(s).value.layerGroupName, releasedDuring))
    ensures r == NotLocked ==> gs.server == old(gs.server) && gs.log == old(gs.log) && db.files == old(db.files)
    ensures NamesFor(s).Some? && r != NotLocked ==>
      var n := NamesFor(s).value;
      var w := VectorWork(Trace(old(gs.server), old(gs.log), true), gs.failing, s, n, points, earlier);
      var requeues := w.ok && points.Some? && !earlier;
      var pattern := StylePattern(n.workspaceName, POINTS);
      Normalize(n.layerGroupName) !in db.locks && gs.server == w.server && gs.log == w.calls
      && (r == Finished <==> w.ok && (!requeues || AllHaveStructure(old(db.files), pattern)))
      && db.files == (if requeues && AllHaveStructure(old(db.files), pattern)
                      then RequeueUnder(old(db.files), pattern) else old(db.files))
  {
    var names := NamesFor(s);
    if names.None? {
      return Failed;
    }
    var n := names.value;
    var locked, tries := db.AcquireWithRetry(n.layerGroupName, GROUP_LOCK_TTL, MAX_RETRIES, releasedDuring);
    if !locked {
      return NotLocked;
    }
    var ok := gs.Send(Transform(POINTS, s.dir));
    if ok && points.Some? {
      ok := gs.RunPlan(VectorPlan(n, points.value, earlier));
      if ok && !earlier {
        RequeueUnderOnlyRequeues(db.files, StylePattern(n.workspaceName, POINTS));
        var styles;
        ok, styles := RequeueStyles(db, StylePattern(n.workspaceName, POINTS));
      }
    }
    db.ReleaseLock(n.layerGroupName);
    r := if ok then Finished else Failed;
  }

  // Analysis

  function AnalysisPlan(n: Names, analysis: string): seq<Call>
  {
    [CreateWorkspace(n.workspaceName), CreateStore(n.workspaceName, n.storeName, analysis),
     CreateLayer(n.workspaceName, n.storeName, n.layerName)]
  }

  /** The analysis workflow's calls once the lock is held. */
  function AnalysisWork(t: Trace, failing: set<Call>, s: Structure, n: Names, analysis: Option<string>): Trace
  {
    var t1 := Step(t, failing, Transform(ANALYSIS, s.dir));
    if !t1.ok || analysis.None? then t1 else Steps(t1, failing, AnalysisPlan(n, analysis.value))
  }

  /** A failing analysis transform is the only call: nothing is published. */
  lemma AnalysisTransformFailure(t: Trace, failing: set<Call>, s: Structure, n: Names, analysis: Option<string>)
    requires t.ok && Transform(ANALYSIS, s.dir) in failing
    ensures AnalysisWork(t, failing, s, n, analysis) == Trace(t.server, t.calls + [Transform(ANALYSIS, s.dir)], false)
  {
  }

  /** The part of `processAnalysisDataset` that runs under the lock:
      transform, publish, then requeue the analysis style records (and, with
      `enqueue`, one processing job per record). */
  method PublishAnalysis(db: Store, gs: Backend, queues: Queues, s: Structure, n: Names, analysis: Option<string>,
                         enqueue: bool)
    returns (ok: bool, requeued: seq<FileRecord>)
    requires db.Valid()
    modifies db, gs, queues
    ensures db.Valid() && OnlyRequeued(old(db.files), db.files)
    ensures db.locks == old(db.locks) && queues.analysis == old(queues.analysis)
    ensures var w := AnalysisWork(Trace(old(gs.server), old(gs.log), true), gs.failing, s, n, analysis);
      var requeues := w.ok && analysis.Some?;
      var pattern := StylePattern(n.workspaceName, ANALYSIS);
      gs.server == w.server && gs.log == w.calls
      && (ok <==> w.ok && (!requeues || AllHaveStructure(old(db.files), pattern)))
      && db.files == (if requeues && AllHaveStructure(old(db.files), pattern)
                      then RequeueUnder(old(db.files), pattern) else old(db.files))
      && (requeues ==> Paths(requeued) == set j | j in old(db.files) && Contains(FILE_PREFIX + j, pattern))
      && (!requeues ==> requeued == [])
    ensures ok ==> forall i :: 0 <= i < |requeued| ==> requeued[i].structure.Some?
    ensures queues.processing == if ok && enqueue then old(queues.processing) + JobsFor(requeued)
                                 else old(queues.processing)
  {
    requeued := [];
    ok := gs.Send(Transform(ANALYSIS, s.dir));
    if ok && analysis.Some? {
      ok := gs.RunPlan(AnalysisPlan(n, analysis.value));
      if ok {
        RequeueUnderOnlyRequeues(db.files, StylePattern(n.workspaceName, ANALYSIS));
        if enqueue {
          ok, requeued := RequeueAndEnqueueStyles(db, queues, StylePattern(n.workspaceName, ANALYSIS));
        } else {
          ok, requeued := RequeueStyles(db, StylePattern(n.workspaceName, ANALYSIS));
        }
      }
    }
  }

  /** `processAnalysisDataset`: after publishing, the analysis style records
      of the customer's year are requeued; the current copy also enqueues
      one processing job per requeued record (`enqueue`), the earlier copy
      and the stray copy under `uploader/processors` do not. `requeued` is
      the list of style records the workflow found. */
  method ProcessAnalysisDataset(db: Store, gs: Backend, queues: Queues, s: Structure, analysis: Option<string>,
                                releasedDuring: seq<bool>, enqueue: bool)
    returns (r: RunResult, requeued: seq<FileRecord>)
    requires db.Valid()
    modifies db, gs, queues
    ensures db.Valid() && OnlyRequeued(old(db.files), db.files)
    ensures db.locks.Keys <= old(db.locks).Keys
    ensures queues.analysis == old(queues.analysis)
    ensures NamesFor(s).None? ==>
      r == Failed && gs.server == old(gs.server) && gs.log == old(gs.log) && db.files == old(db.files)
    ensures NamesFor(s).Some? ==>
      (r == NotLocked <==> !LockObtained(old(db.locks), NamesFor(s).value.layerGroupName, releasedDuring))
    ensures r == NotLocked ==> gs.server == old(gs.server) && gs.log == old(gs.log) && db.files == old(db.files)
    ensures NamesFor(s).Some? && r != NotLocked ==>
      var n := NamesFor(s).value;
      var w := AnalysisWork(Trace(old(gs.server), old(gs.log), true), gs.failing, s, n, analysis);
      var requeues := w.ok && analysis.Some?;
      var pattern := StylePattern(n.workspaceName, ANALYSIS);
      Normalize(n.layerGroupName) !in db.locks && gs.server == w.server && gs.log == w.calls
      && (r == Finished <==> w.ok && (!requeues || AllHaveStructure(old(db.files), pattern)))
      && db.files == (if requeues && AllHaveStructure(old(db.files), pattern)
                      then RequeueUnder(old(db.files), pattern) else old(db.files))
      && (requeues ==> Paths(requeued) == set j | j in old(db.files) && Contains(FILE_PREFIX + j, pattern))
    ensures r == Finished ==> forall i :: 0 <= i < |requeued| ==> requeued[i].structure.Some?
    ensures queues.processing == if r == Finished && enqueue then old(queues.processing) + JobsFor(requeued)
                                 else old(queues.processing)
  {
    requeued := [];
    var names := NamesFor(s);
    if names.None? {
      return Failed, requeued;
    }
    var n := names.value;
    var locked, tries := db.AcquireWithRetry(n.layerGroupName, GROUP_LOCK_TTL, MAX_RETRIES, releasedDuring);
    if !locked {
      return NotLocked, requeued;
    }
    var ok;
    ok, requeued := PublishAnalysis(db, gs, queues, s, n, analysis, enqueue);
    db.ReleaseLock(n.layerGroupName);
    r := if ok then Finished else Failed;
  }

  // Styles

  /** The group a style dataset rebuilds: the workspace's layers whose name
      passes `keep`, each drawn with the style just created. An undefined
      layer list throws (it is filtered); an empty selection stops quietly. */
  function StyleGroup(t: Trace, failing: set<Call>, n: Names, created: string, keep: string -> bool): Trace
    requires t.ok
  {
    var t1 := Step(t, failing, GetLayers(n.workspaceName));
    if !t1.ok then t1
    else match LayerList(t.server, n.workspaceName)
      case None => t1.(ok := false)
      case Some(layers) =>
        var sel := Filter(layers, keep);
        if sel == [] then t1
        else Step(t1, failing, CreateLayerGroup(n.layerGroupName, n.workspaceName, sel, Repeat(created, |sel|)))
  }

  /** A style rebuild either changes nothing, or leaves a group holding
      exactly the workspace's layers that pass the filter, every one of them
      drawn with the new style; when no layer passes, the server is
      untouched. A rebuild that fails before posting the group changes
      nothing; one whose group post fails has already deleted the old group
      of that name (`createLayerGroup` deletes before it posts), and that
      is its only change. */
  lemma StyleGroupSelects(t: Trace, failing: set<Call>, n: Names, created: string, keep: string -> bool)
    requires t.ok
    ensures var r := StyleGroup(t, failing, n, created, keep); var ws := n.workspaceName;
      |r.calls| > |t.calls|
      && (!r.ok ==> r.server == if r.calls[|r.calls| - 1].CreateLayerGroup?
                               then t.server.(groups := t.server.groups - {(ws, n.layerGroupName)})
                               else t.server)
      && (r.ok ==> ws in t.server.workspaces)
      && (r.ok && ws in t.server.workspaces && (forall x :: x in t.server.workspaces[ws] ==> !keep(x)) ==>
            r.server == t.server)
      && (r.ok && ws in t.server.workspaces && (exists x :: x in t.server.workspaces[ws] && keep(x)) ==>
            (ws, n.layerGroupName) in r.server.groups
            && var g := r.server.groups[(ws, n.layerGroupName)];
            (forall x :: x in g.layers <==> x in t.server.workspaces[ws] && keep(x))
            && |g.styles| == |g.layers| && forall i :: 0 <= i < |g.styles| ==> g.styles[i] == created)
  {
    var ws := n.workspaceName;
    var t1 := Step(t, failing, GetLayers(ws));
    if t1.ok {
      var layers := t.server.workspaces[ws];
      var sel := Filter(layers, keep);
      if sel == [] {
        forall x | x in layers ensures !keep(x) {
          assert x !in sel;
        }
      } else {
        assert sel[0] in layers && keep(sel[0]);
      }
    }
  }

  /** `processStyleDataset`'s calls once the lock is held: read the style,
      create it, then rebuild the points group (a dataset naming "points")
      or, in the current copy only, the analysis group (a dataset naming
      "analysis"). The current copy matches the dataset name in lower case,
      the earlier copy as written. */
  function StyleWork(t: Trace, failing: set<Call>, s: Structure, n: Names, earlier: bool): Trace
  {
    var t1 := Steps(t, failing, [ReadStyle(s.dir), CreateStyle(n.workspaceName, n.styleName)]);
    if !t1.ok then t1
    else if s.dataset.None? then t1.(ok := false)
    else
      var d := if earlier then s.dataset.value else Lower(s.dataset.value);
      var created := StyleName(n.styleName);
      if Contains(d, "points") then StyleGroup(t1, failing, n, created, MentionsPoints)
      else if !earlier && Contains(d, "analysis") then StyleGroup(t1, failing, n, created, MentionsAnalysis)
      else t1
  }

  /** A style dataset whose name mentions neither type only creates the
      style; the earlier copy also ignores analysis styles and upper-case
      spellings. */
  lemma StyleWithoutGroup(t: Trace, failing: set<Call>, s: Structure, n: Names, earlier: bool)
    requires t.ok && s.dataset.Some?
    requires var d := if earlier then s.dataset.value else Lower(s.dataset.value);
      !Contains(d, "points") && (earlier || !Contains(d, "analysis"))
    ensures var w := StyleWork(t, failing, s, n, earlier);
      w == Steps(t, failing, [ReadStyle(s.dir), CreateStyle(n.workspaceName, n.styleName)])
      && (w.ok ==> w.server.groups == t.server.groups)
  {
    var p := [ReadStyle(s.dir), CreateStyle(n.workspaceName, n.styleName)];
    var t1 := Step(t, failing, p[0]);
    assert p[1..] == [p[1]];
    assert Steps(t, failing, p) == Steps(t1, failing, [p[1]]);
    assert Steps(t1, failing, [p[1]]) == Steps(Step(t1, failing, p[1]), failing, []);
  }

  /** The calls under the lock, as one method. */
  method PublishStyle(gs: Backend, s: Structure, n: Names, earlier: bool) returns (ok: bool)
    modifies gs
    ensures Trace(gs.server, gs.log, ok) == StyleWork(Trace(old(gs.server), old(gs.log), true), gs.failing, s, n, earlier)
  {
    ok := gs.RunPlan([ReadStyle(s.dir), CreateStyle(n.workspaceName, n.styleName)]);
    if !ok {
      return;
    }
    if s.dataset.None? {
      return false;
    }
    var d := if earlier then s.dataset.value else Lower(s.dataset.value);
    var created := StyleName(n.styleName);
    if Contains(d, "points") {
      ok := RebuildStyleGroup(gs, n, created, MentionsPoints);
    } else if !earlier && Contains(d, "analysis") {
      ok := RebuildStyleGroup(gs, n, created, MentionsAnalysis);
    }
  }

  method RebuildStyleGroup(gs: Backend, n: Names, created: string, keep: string -> bool) returns (ok: bool)
    modifies gs
    ensures Trace(gs.server, gs.log, ok) == StyleGroup(Trace(old(gs.server), old(gs.log), true), gs.failing, n, created, keep)
  {
    var layers := gs.FetchLayers(n.workspaceName);
    if layers.Threw? || layers.value.None? {
      return false;
    }
    var sel := Filter(layers.value.value, keep);
    if sel == [] {
      return true;
    }
    ok := gs.Send(CreateLayerGroup(n.layerGroupName, n.workspaceName, sel, Repeat(created, |sel|)));
  }

  /** `processStyleDataset`: under the layer-group lock, create the style
      and rebuild the matching group; the lock is released however the
      work ends. */
  method ProcessStyleDataset(db: Store, gs: Backend, s: Structure, releasedDuring: seq<bool>, earlier: bool)
    returns (r: RunResult)
    requires db.Valid()
    modifies db, gs
    ensures db.Valid() && db.files == old(db.files)
    ensures db.locks.Keys <= old(db.locks).Keys
    ensures NamesFor(s).None? ==> r == Failed && gs.server == old(gs.server) && gs.log == old(gs.log)
    ensures NamesFor(s).Some? ==>
      (r == NotLocked <==> !LockObtained(old(db.locks), NamesFor(s).value.layerGroupName, releasedDuring))
    ensures r == NotLocked ==> gs.server == old(gs.server) && gs.log == old(gs.log)
    ensures NamesFor(s).Some? && r != NotLocked ==>
      var n := NamesFor(s).value;
      var w := StyleWork(Trace(old(gs.server), old(gs.log), true), gs.failing, s, n, earlier);
      Normalize(n.layerGroupName) !in db.locks && gs.server == w.server && gs.log == w.calls && (r == Finished <==> w.ok)
  {
    var names := NamesFor(s);
    if names.None? {
      return Failed;
    }
    var n := names.value;
    var locked, tries := db.AcquireWithRetry(n.layerGroupName, GROUP_LOCK_TTL, MAX_RETRIES, releasedDuring);
    if !locked {
      return NotLocked;
    }
    var ok := PublishStyle(gs, s, n, earlier);
    db.ReleaseLock(n.layerGroupName);
    r := if ok then Finished else Failed;
  }

  // Dispatch

  /** The dataset types `fileProcessingProcessor` recognises, after
      lower-casing. */
  predicate KnownType(kind: string)
  {
    kind == RASTER || kind == POINTS || kind == ANALYSIS || kind == STYLES
  }

  /** The backend calls of the workflow a type selects, once its lock is
      held: exactly one workflow per type. */
  function WorkFor(kind: string, t: Trace, failing: set<Call>, s: Structure, n: Names, out: Outputs): Trace
    requires KnownType(kind)
  {
    if kind == RASTER then RasterWork(t, failing, s, n, out.raster)
    else if kind == POINTS then VectorWork(t, failing, s, n, out.points, false)
    else if kind == ANALYSIS then AnalysisWork(t, failing, s, n, out.analysis)
    else StyleWork(t, failing, s, n, false)
  }

  /** The workflow a known type selects, with its lock. */
  method RunWorkflow(db: Store, gs: Backend, queues: Queues, s: Structure, kind: string, out: Outputs,
                     releasedDuring: seq<bool>)
    returns (r: RunResult)
    requires db.Valid() && KnownType(kind)
    modifies db, gs, queues
    ensures db.Valid() && OnlyRequeued(old(db.files), db.files)
    ensures db.locks.Keys <= old(db.locks).Keys
    ensures r != Finished ==> db.files == old(db.files)
    ensures queues.analysis == old(queues.analysis)
    ensures NamesFor(s).None? ==> r == Failed && gs.server == old(gs.server) && gs.log == old(gs.log)
    ensures NamesFor(s).Some? ==>
      (r == NotLocked <==> !LockObtained(old(db.locks), NamesFor(s).value.layerGroupName, releasedDuring))
    ensures r == NotLocked ==> gs.server == old(gs.server) && gs.log == old(gs.log)
    ensures NamesFor(s).Some? && r != NotLocked ==>
      var w := WorkFor(kind, Trace(old(gs.server), old(gs.log), true), gs.failing, s, NamesFor(s).value, out);
      gs.server == w.server && gs.log == w.calls && (r == Finished ==> w.ok)
  {
    if kind == RASTER {
      r := ProcessRasterDataset(db, gs, s, out.raster, releasedDuring);
    } else if kind == POINTS {
      r := ProcessVectorDataset(db, gs, s, out.points, releasedDuring, false);
    } else if kind == ANALYSIS {
      var requeued;
      r, requeued := ProcessAnalysisDataset(db, gs, queues, s, out.analysis, releasedDuring, true);
    } else {
      r := ProcessStyleDataset(db, gs, s, releasedDuring, false);
    }
  }

  /** The records after `fileProcessingProcessor` ran a workflow that did
      not throw: every record under the prefix is `done`, every other one
      kept its status or was requeued, and no other field changed. */
  ghost predicate FinishedUnder(before: map<string, FileRecord>, after: map<string, FileRecord>, prefix: string,
                                status: Status)
  {
    && after.Keys == before.Keys
    && (forall k :: k in after && StartsWith(k, prefix) ==> after[k].status == status)
    && (forall k :: k in after ==> after[k].(status := before[k].status) == before[k])
    && (forall k :: k in after && !StartsWith(k, prefix) ==>
          after[k].status == before[k].status || after[k].status == Queued)
  }

  lemma ProcessingThenDone(f0: map<string, FileRecord>, f2: map<string, FileRecord>, prefix: string)
    requires OnlyRequeued(WithStatusUnder(f0, prefix, Processing), f2)
    ensures FinishedUnder(f0, WithStatusUnder(f2, prefix, Done), prefix, Done)
  {
    var f1 := WithStatusUnder(f0, prefix, Processing);
    StatusUpdateIsPrefixed(f0, prefix, Processing);
    StatusUpdateIsPrefixed(f2, prefix, Done);
  }

  lemma ProcessingOnly(f0: map<string, FileRecord>, prefix: string)
    ensures FinishedUnder(f0, WithStatusUnder(f0, prefix, Processing), prefix, Processing)
  {
    StatusUpdateIsPrefixed(f0, prefix, Processing);
  }

  /** `fileProcessingProcessor`: for a known type, the records under the
      dataset's directory go to `processing`, the selected workflow runs,
      and they go to `done` unless it threw (then they stay `processing`
      and the error propagates). A workflow that returns early, for want
      of its lock or of a transform output, is still followed by `done`.
      An unknown type changes nothing. `outcome` is the workflow's result,
      `None` for an unknown type. */
  method FileProcessingProcessor(db: Store, gs: Backend, queues: Queues, s: Structure, out: Outputs,
                                 releasedDuring: seq<bool>)
    returns (outcome: Option<RunResult>)
    requires db.Valid()
    modifies db, gs, queues
    ensures db.Valid() && db.files.Keys == old(db.files).Keys
    ensures db.locks.Keys <= old(db.locks).Keys
    ensures queues.analysis == old(queues.analysis)
    ensures outcome.Some? <==> KnownType(Lower(s.kind))
    ensures outcome.None? ==>
      db.files == old(db.files) && gs.server == old(gs.server) && gs.log == old(gs.log)
      && queues.processing == old(queues.processing)
    ensures outcome.Some? && outcome.value != Failed ==>
      forall k :: k in db.files && StartsWith(k, Normalize(s.dir)) ==> db.files[k].status == Done
    ensures outcome == Some(Failed) ==>
      forall k :: k in db.files && StartsWith(k, Normalize(s.dir)) ==> db.files[k].status == Processing
    ensures forall k :: k in db.files ==> db.files[k].(status := old(db.files)[k].status) == old(db.files)[k]
    ensures forall k :: k in db.files && !StartsWith(k, Normalize(s.dir)) ==>
      db.files[k].status == old(db.files)[k].status || db.files[k].status == Queued
    ensures outcome.Some? && NamesFor(s).Some? && outcome.value != NotLocked ==>
      var w := WorkFor(Lower(s.kind), Trace(old(gs.server), old(gs.log), true), gs.failing, s, NamesFor(s).value, out);
      gs.server == w.server && gs.log == w.calls && (outcome.value == Finished ==> w.ok)
    ensures outcome == Some(NotLocked) ==> gs.server == old(gs.server) && gs.log == old(gs.log)
  {
    var kind := Lower(s.kind);
    if !KnownType(kind) {
      return None;
    }
    db.ChangeFileStatusByBasepath(s.dir, Processing);
    ProcessingOnly(old(db.files), Normalize(s.dir));
    var r := RunWorkflow(db, gs, queues, s, kind, out, releasedDuring);
    outcome := Some(r);
    if r != Failed {
      ProcessingThenDone(old(db.files), db.files, Normalize(s.dir));
      db.ChangeFileStatusByBasepath(s.dir, Done);
      assert FinishedUnder(old(db.files), db.files, Normalize(s.dir), Done);
    } else {
      assert FinishedUnder(old(db.files), db.files, Normalize(s.dir), Processing);
    }
  }
}

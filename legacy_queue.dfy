/** The first generation's dataset pipeline over the dataset store:
    `fileChangeController` hashes a changed file's dataset and hands it to
    the in-memory modification queue; `processQueue` writes the datasets
    whose hash is new as 'added'; `queueController` promotes ready datasets
    to 'queued' and publishes the first queued one as a raster under a
    per-dataset lock. */
module LegacyQueue {
  import opened Wrappers
  import opened Text
  import opened Classify
  import opened Naming
  import opened FsTree
  import opened GeoServer
  import opened DatasetDb
  import opened LegacyIngest

  /** The folder every dataset lives under, as the controller hashes it. */
  const FILES_DIR := "./files"
  const DATASET_LOCK_PREFIX := "lock:dataset:"
  const DATASET_LOCK_VALUE := "locked"

  // ---------------------------------------------------------------------
  // src/services/modificationQueue.ts

  /** What `checkIfDatasetIsNew` answers for an item. */
  predicate IsNew(datasets: map<string, Dataset>, item: QueueItem)
  {
    item.structure.dir !in datasets || datasets[item.structure.dir].hash != Some(item.hash)
  }

  /** The items of a batch whose dataset is new, in order. */
  function NewItems(batch: seq<QueueItem>, datasets: map<string, Dataset>): (r: seq<QueueItem>)
    ensures forall x :: x in r <==> x in batch && IsNew(datasets, x)
    decreases |batch|
  {
    if batch == [] then []
    else
      var init := NewItems(batch[..|batch| - 1], datasets);
      var last := batch[|batch| - 1];
      assert forall x :: x in batch <==> x in batch[..|batch| - 1] || x == last by {
        assert batch == batch[..|batch| - 1] + [last];
      }
      if IsNew(datasets, last) then init + [last] else init
  }

  /** Writing `xs + [x]` is writing `xs`, then `x`. */
  lemma AddedAllSnoc(datasets: map<string, Dataset>, strings: set<string>, xs: seq<QueueItem>, x: QueueItem,
                     stamp: string)
    ensures AddedAll(datasets, strings, xs + [x], stamp) ==
      var before := AddedAll(datasets, strings, xs, stamp);
      if x.structure.dir in strings then before else before[x.structure.dir := AddedRecord(x, stamp)]
  {
    assert (xs + [x])[..|xs + [x]| - 1] == xs;
  }

  /** After a batch is written, a dataset holds the record of its last new
      item. */
  lemma {:induction false} BatchLastWins(datasets: map<string, Dataset>, strings: set<string>, batch: seq<QueueItem>,
                                         stamp: string, i: int)
    requires 0 <= i < |batch| && IsNew(datasets, batch[i]) && batch[i].structure.dir !in strings
    requires forall j :: i < j < |batch| && IsNew(datasets, batch[j]) ==> batch[j].structure.dir != batch[i].structure.dir
    ensures var r := AddedAll(datasets, strings, NewItems(batch, datasets), stamp);
      batch[i].structure.dir in r && r[batch[i].structure.dir] == AddedRecord(batch[i], stamp)
    decreases |batch|
  {
    var init := batch[..|batch| - 1];
    var last := batch[|batch| - 1];
    var dir := batch[i].structure.dir;
    if i == |batch| - 1 {
      AddedAllSnoc(datasets, strings, NewItems(init, datasets), last, stamp);
    } else {
      assert init[i] == batch[i];
      forall j | i < j < |init| && IsNew(datasets, init[j])
        ensures init[j].structure.dir != dir
      {
        assert init[j] == batch[j];
      }
      BatchLastWins(datasets, strings, init, stamp, i);
      if IsNew(datasets, last) {
        AddedAllSnoc(datasets, strings, NewItems(init, datasets), last, stamp);
      }
    }
  }

  /** A dataset no new item of the batch names keeps its record, so an
      unchanged hash never sends a dataset back to 'added'. */
  lemma {:induction false} BatchKeepsOthers(datasets: map<string, Dataset>, strings: set<string>, batch: seq<QueueItem>,
                                            stamp: string, k: string)
    requires k in datasets
    requires forall i :: 0 <= i < |batch| && batch[i].structure.dir == k ==> !IsNew(datasets, batch[i])
    ensures var r := AddedAll(datasets, strings, NewItems(batch, datasets), stamp);
      k in r && r[k] == datasets[k]
    decreases |batch|
  {
    if batch != [] {
      var init := batch[..|batch| - 1];
      var last := batch[|batch| - 1];
      forall i | 0 <= i < |init| && init[i].structure.dir == k
        ensures !IsNew(datasets, init[i])
      {
        assert init[i] == batch[i];
      }
      BatchKeepsOthers(datasets, strings, init, stamp, k);
      if IsNew(datasets, last) {
        AddedAllSnoc(datasets, strings, NewItems(init, datasets), last, stamp);
      }
    }
  }

  /** The module's state: the pending items and the re-entrancy flag. The
      five-second debounce timer that calls `ProcessQueue` is not modelled. */
  class ModificationQueue {
    var queue: seq<QueueItem>
    var processing: bool

    constructor()
      ensures queue == [] && !processing
    {
      queue := [];
      processing := false;
    }

    /** `enqueueDataset(structure, hash)`. */
    method EnqueueDataset(structure: Structure, hash: string)
      modifies this
      ensures queue == old(queue) + [QueueItem(structure, hash)] && processing == old(processing)
    {
      queue := queue + [QueueItem(structure, hash)];
    }

    /** `processQueue()`: unless a run is in progress, takes the whole
        queue, asks the store which items are new (any failure abandons the
        batch), and writes the new ones as one pipeline, with the corrected
        decimal stamp of `AddDatasetsToProcessingQueue`. */
    method ProcessQueue(ds: DatasetStore, now: nat) returns (written: seq<QueueItem>)
      requires ds.Valid()
      modifies this, ds
      ensures ds.Valid() && ds.strings == old(ds.strings)
      ensures old(processing) ==>
        queue == old(queue) && processing && ds.datasets == old(ds.datasets) && written == []
      ensures !old(processing) ==> queue == [] && !processing
      ensures !old(processing) && (exists i :: 0 <= i < |old(queue)| && old(queue)[i].structure.dir in old(ds.strings))
        ==> ds.datasets == old(ds.datasets) && written == []
      ensures !old(processing) && (forall i :: 0 <= i < |old(queue)| ==> old(queue)[i].structure.dir !in old(ds.strings))
        ==> written == NewItems(old(queue), old(ds.datasets))
            && ds.datasets == AddedAll(old(ds.datasets), old(ds.strings).Keys, written, Stamp(now))
    {
      written := [];
      if processing {
        return;
      }
      processing := true;
      var batch := queue;
      queue := [];
      var toAdd: seq<QueueItem> := [];
      var i := 0;
      while i < |batch|
        invariant 0 <= i <= |batch|
        invariant ds.Valid() && ds.datasets == old(ds.datasets) && ds.strings == old(ds.strings)
        invariant queue == [] && processing
        invariant forall j :: 0 <= j < i ==> batch[j].structure.dir !in ds.strings
        invariant toAdd == NewItems(batch[..i], ds.datasets)
      {
        assert batch[..i + 1][..i] == batch[..i];
        var isNew := ds.CheckIfDatasetIsNew(batch[i].structure.dir, batch[i].hash);
        if isNew.Threw? {
          processing := false;
          return;
        }
        if isNew.value {
          toAdd := toAdd + [batch[i]];
        }
        i := i + 1;
      }
      assert batch[..i] == batch;
      if |toAdd| > 0 {
        var ok := ds.AddDatasetsToProcessingQueue(toAdd, now);
      }
      written := toAdd;
      processing := false;
    }
  }

  // ---------------------------------------------------------------------
  // src/controllers/fileChangeController.ts

  /** The extension list of a dataset type. */
  function ExtensionsFor(kind: string): seq<string>
  {
    if kind == RASTER then RASTER_EXTENSIONS
    else if kind == POINTS then POINTS_EXTENSIONS
    else if kind == ANALYSIS then ANALYSIS_EXTENSIONS
    else []
  }

  /** The extension the controller tests: a dot and the text after the last
      '.' of the file name. */
  function FileExtension(path: string): string
  {
    DotExtension(LastPiece(path, '/'))
  }

  /** `fileChangeController(path)`. A path that does not classify, or whose
      file extension is not one of its type's, does nothing. Otherwise the
      dataset directory is hashed with its type's extensions: no matching
      file removes the dataset from the store, a digest enqueues the dataset
      with it, and a thrown error is caught. */
  method FileChangeController(ds: DatasetStore, mq: ModificationQueue, tree: string -> Option<Entry>,
                              hex: seq<string> -> string, path: string)
    requires ds.Valid()
    modifies ds, mq
    ensures ds.Valid() && mq.processing == old(mq.processing)
    ensures var s := CheckStructureLegacy(path, false);
      if s.None? || FileExtension(path) !in ExtensionsFor(s.value.kind)
         || HashSpec(tree(s.value.dir), s.value.dir, ExtensionsFor(s.value.kind)).HashThrew?
      then ds.datasets == old(ds.datasets) && ds.strings == old(ds.strings) && mq.queue == old(mq.queue)
      else
        var h := DigestText(HashSpec(tree(s.value.dir), s.value.dir, ExtensionsFor(s.value.kind)), hex);
        if h.None? then
          ds.datasets == old(ds.datasets) - {s.value.dir} && ds.strings == old(ds.strings) - {s.value.dir}
          && mq.queue == old(mq.queue)
        else
          ds.datasets == old(ds.datasets) && ds.strings == old(ds.strings)
          && mq.queue == old(mq.queue) + [QueueItem(s.value, h.value)]
  {
    var structure := CheckStructureLegacy(path, false);
    if structure.None? {
      return;
    }
    var s := structure.value;
    var extensions := ExtensionsFor(s.kind);
    if FileExtension(path) in extensions {
      var datasetHash := HashDirectory(tree(s.dir), s.dir, extensions);
      if datasetHash.HashThrew? {
        return;
      }
      var text := DigestText(datasetHash, hex);
      if text.None? {
        ds.Del(s.dir);
        return;
      }
      mq.EnqueueDataset(s, text.value);
    }
  }

  // ---------------------------------------------------------------------
  // src/controllers/queueController.ts

  /** The datasets the readiness scan finds at `now`. */
  function ReadyKeys(datasets: map<string, Dataset>, now: int): set<string>
  {
    set k | k in datasets && Ready(datasets[k], now)
  }

  /** The datasets after the listed keys are set to 'queued'. */
  function Promoted(datasets: map<string, Dataset>, keys: set<string>): map<string, Dataset>
  {
    map k | k in datasets :: if k in keys then datasets[k].(status := Some(QUEUED)) else datasets[k]
  }

  /** Promotion leaves no dataset ready: each ready one is 'queued', every
      other keeps its record. */
  lemma PromotionLeavesNoneReady(datasets: map<string, Dataset>, now: int)
    ensures var p := Promoted(datasets, ReadyKeys(datasets, now));
      p.Keys == datasets.Keys
      && (forall k :: k in p ==> !Ready(p[k], now))
      && (forall k :: k in datasets && Ready(datasets[k], now) ==> IsQueued(p[k]))
      && (forall k :: k in datasets && !Ready(datasets[k], now) ==> p[k] == datasets[k])
  {
  }

  /** The lock key of a dataset. */
  function LockKey(s: Structure): (r: string)
    ensures r != INITIAL_STATE && r != s.dir
  {
    DATASET_LOCK_PREFIX + s.dir
  }

  /** The names the controller publishes under: workspace and layer group
      `<customer>_<year>`, store and layer `<customer>_<year>_<dataset>`. */
  function StoreOf(s: Structure): string
  {
    WorkspaceOf(s) + "_" + TemplateText(s.dataset)
  }

  /** The calls of one publish, stopping at the first failure: the raster
      transform, the workspace, the store of the transformed file, the
      layer, the workspace's layer list, and the layer group over that
      list (`createLayerGroup` receives workspace and group name swapped;
      both are `<customer>_<year>`). A missing layer list makes the source
      throw on `layers.map`. */
  function ControllerWork(t: Trace, failing: set<Call>, s: Structure, rasterOut: string): Trace
  {
    var ws := WorkspaceOf(s);
    var store := StoreOf(s);
    var t1 := Step(t, failing, Transform(RASTER, s.dir));
    var t2 := Step(t1, failing, CreateWorkspace(ws));
    var t3 := Step(t2, failing, CreateStore(ws, store, rasterOut));
    var t4 := Step(t3, failing, CreateLayer(ws, store, store));
    var t5 := Step(t4, failing, GetLayers(ws));
    if !t5.ok || ws !in t5.server.workspaces then t5
    else
      match LayerList(t5.server, ws)
      case None => t5.(ok := false)
      case Some(layers) => Step(t5, failing, CreateRasterLayerGroup(ws, ws, layers))
  }

  /** A completed publish leaves the workspace's layer group holding the
      new layer, every layer styled "raster", after exactly the six calls
      in order. */
  lemma ControllerWorkPublishes(t: Trace, failing: set<Call>, s: Structure, rasterOut: string)
    requires ControllerWork(t, failing, s, rasterOut).ok
    ensures var r := ControllerWork(t, failing, s, rasterOut);
      var ws := WorkspaceOf(s);
      && (ws, ws) in r.server.groups
      && StoreOf(s) in r.server.groups[(ws, ws)].layers
      && (forall i :: 0 <= i < |r.server.groups[(ws, ws)].styles| ==> r.server.groups[(ws, ws)].styles[i] == "raster")
      && |r.calls| == |t.calls| + 6
      && r.calls[..|t.calls| + 5] == t.calls + [Transform(RASTER, s.dir), CreateWorkspace(ws),
                                               CreateStore(ws, StoreOf(s), rasterOut), CreateLayer(ws, StoreOf(s), StoreOf(s)),
                                               GetLayers(ws)]
      && r.calls[|t.calls| + 5].CreateRasterLayerGroup?
  {
    var ws := WorkspaceOf(s);
    var store := StoreOf(s);
    var t1 := Step(t, failing, Transform(RASTER, s.dir));
    var t2 := Step(t1, failing, CreateWorkspace(ws));
    var t3 := Step(t2, failing, CreateStore(ws, store, rasterOut));
    var t4 := Step(t3, failing, CreateLayer(ws, store, store));
    var t5 := Step(t4, failing, GetLayers(ws));
    assert t5.ok && t4.ok && t3.ok;
    assert ws in t3.server.workspaces;
    assert store in t4.server.workspaces[ws];
    assert t5.server == t4.server;
    var r := ControllerWork(t, failing, s, rasterOut);
    assert r.calls[..|t.calls| + 5] == t5.calls;
  }

  /** With no failing call, a publish completes and leaves the dataset's
      store in place, whether or not it existed before. This rests on
      `createStore` creating a store that does not exist yet, which the
      first generation's copy as written does not do
      (`ControllerWorkAsWritten`). */
  lemma ControllerWorkCompletes(t: Trace, s: Structure, rasterOut: string)
    requires t.ok
    ensures var r := ControllerWork(t, {}, s, rasterOut);
      r.ok && (WorkspaceOf(s), StoreOf(s)) in r.server.stores
  {
    var ws := WorkspaceOf(s);
    var store := StoreOf(s);
    var t1 := Step(t, {}, Transform(RASTER, s.dir));
    var t2 := Step(t1, {}, CreateWorkspace(ws));
    var t3 := Step(t2, {}, CreateStore(ws, store, rasterOut));
    var t4 := Step(t3, {}, CreateLayer(ws, store, store));
    var t5 := Step(t4, {}, GetLayers(ws));
    assert ws in t2.server.workspaces;
    assert ws in t3.server.workspaces;
    assert store in t4.server.workspaces[ws];
    assert t5.server == t4.server;
  }

  /** The publish with the first generation's `createStore` as written. Its
      existence check GETs the store; the axios client rejects the 404 of a
      store that does not exist yet, and both catches rethrow it, so the
      run ends there. A store that exists is deleted and posted again, as
      in `ControllerWork`. */
  function ControllerWorkAsWritten(t: Trace, failing: set<Call>, s: Structure, rasterOut: string): Trace
  {
    var ws := WorkspaceOf(s);
    var store := StoreOf(s);
    var t2 := Step(Step(t, failing, Transform(RASTER, s.dir)), failing, CreateWorkspace(ws));
    if t2.ok && (ws, store) !in t2.server.stores then Trace(t2.server, t2.calls + [CreateStore(ws, store, rasterOut)], false)
    else ControllerWork(t, failing, s, rasterOut)
  }

  /** As written, a dataset whose store does not exist yet is never
      published, whichever calls succeed: the run fails, no layer group
      changes, the store is still missing afterwards, and the dataset goes
      back to 'queued', so the next tick fails the same way. */
  lemma NewStoreNeverPublishes(t: Trace, failing: set<Call>, s: Structure, rasterOut: string,
                               datasets: map<string, Dataset>)
    requires t.ok && (WorkspaceOf(s), StoreOf(s)) !in t.server.stores && s.dir in datasets
    ensures var r := ControllerWorkAsWritten(t, failing, s, rasterOut);
      !r.ok && (WorkspaceOf(s), StoreOf(s)) !in r.server.stores && r.server.groups == t.server.groups
      && Finished(datasets, s.dir, r.ok)[s.dir].status == Some(QUEUED)
  {
    var ws := WorkspaceOf(s);
    var t1 := Step(t, failing, Transform(RASTER, s.dir));
    var t2 := Step(t1, failing, CreateWorkspace(ws));
    assert t2.server.stores == t.server.stores && t2.server.groups == t.server.groups;
  }

  /** The first publish of `files/acme/2024/raster/d1` on a server that has
      nothing yet: as written it fails although no call fails, while the
      publish with `createStore` creating the missing store completes. */
  lemma FirstPublishAsWritten()
    ensures var s := Structure("acme", "2024", RASTER, Some("d1"), "files/acme/2024/raster/d1");
      var t := Trace(Server(map[], {}, map[], {}), [], true);
      !ControllerWorkAsWritten(t, {}, s, "d1.tif").ok && ControllerWork(t, {}, s, "d1.tif").ok
  {
    var s := Structure("acme", "2024", RASTER, Some("d1"), "files/acme/2024/raster/d1");
    var t := Trace(Server(map[], {}, map[], {}), [], true);
    ControllerWorkCompletes(t, s, "d1.tif");
  }

  /** The text `saveInitialState` receives: the digest of the whole tree,
      or "" when there is none. */
  function InitialText(h: DirHash, hex: seq<string> -> string): string
  {
    if DigestText(h, hex).Some? then DigestText(h, hex).value else ""
  }

  /** The status a processed dataset ends with. */
  function Finished(datasets: map<string, Dataset>, key: string, ok: bool): map<string, Dataset>
    requires key in datasets
  {
    datasets[key := datasets[key].(status := Some(if ok then PROCESSED else QUEUED))]
  }

  /** The GeoServer side of one publish. */
  method Publish(gs: Backend, s: Structure, rasterOut: string) returns (ok: bool)
    modifies gs
    ensures Trace(gs.server, gs.log, ok) == ControllerWork(Trace(old(gs.server), old(gs.log), true), gs.failing, s, rasterOut)
  {
    var ws := WorkspaceOf(s);
    var store := StoreOf(s);
    ok := gs.Send(Transform(RASTER, s.dir));
    if ok {
      ok := gs.Send(CreateWorkspace(ws));
    }
    if ok {
      ok := gs.Send(CreateStore(ws, store, rasterOut));
    }
    if ok {
      ok := gs.Send(CreateLayer(ws, store, store));
    }
    if !ok {
      return;
    }
    var layers := gs.FetchLayers(ws);
    if layers.Threw? || layers.value.None? {
      return false;
    }
    ok := gs.Send(CreateRasterLayerGroup(ws, ws, layers.value.value));
  }

  /** The body of the controller's inner `try`: the dataset goes to
      'processing', is published, and ends 'processed', or 'queued' after a
      failure. */
  method PublishLocked(ds: DatasetStore, gs: Backend, s: Structure, rasterOut: string) returns (ok: bool)
    requires ds.Valid() && s.dir in ds.datasets
    modifies ds, gs
    ensures ds.Valid() && ds.strings == old(ds.strings)
    ensures Trace(gs.server, gs.log, ok) == ControllerWork(Trace(old(gs.server), old(gs.log), true), gs.failing, s, rasterOut)
    ensures ds.datasets == Finished(old(ds.datasets), s.dir, ok)
  {
    var changed := ds.ChangeDatasetStatus(s.dir, PROCESSING);
    ok := Publish(gs, s, rasterOut);
    changed := ds.ChangeDatasetStatus(s.dir, if ok then PROCESSED else QUEUED);
  }

  /** The controller once a dataset is selected: the lock is set if absent
      (a held lock returns with nothing changed); the dataset is published;
      the `finally` saves the tree's hash as the initial state and deletes
      the lock. A throw while hashing in the `finally` skips both, and the
      lock stays until it expires. */
  method ProcessSelected(ds: DatasetStore, gs: Backend, tree: string -> Option<Entry>, hex: seq<string> -> string,
                         s: Structure, rasterOut: string) returns (acquired: bool)
    requires ds.Valid() && s.dir in ds.datasets
    modifies ds, gs
    ensures ds.Valid()
    ensures acquired <==> LockKey(s) !in old(ds.datasets) && LockKey(s) !in old(ds.strings)
    ensures !acquired ==>
      ds.datasets == old(ds.datasets) && ds.strings == old(ds.strings) && gs.server == old(gs.server) && gs.log == old(gs.log)
    ensures var w := ControllerWork(Trace(old(gs.server), old(gs.log), true), gs.failing, s, rasterOut);
      var root := HashSpec(tree(FILES_DIR), FILES_DIR, ALL_EXTENSIONS);
      acquired ==>
        gs.server == w.server && gs.log == w.calls
        && (root.HashThrew? ==>
              ds.datasets == Finished(old(ds.datasets), s.dir, w.ok)
              && ds.strings == old(ds.strings)[LockKey(s) := DATASET_LOCK_VALUE])
        && (!root.HashThrew? ==>
              ds.datasets == Finished(old(ds.datasets), s.dir, w.ok) - {INITIAL_STATE}
              && ds.strings == old(ds.strings)[INITIAL_STATE := InitialText(root, hex)])
  {
    acquired := ds.SetIfAbsent(LockKey(s), DATASET_LOCK_VALUE);
    if !acquired {
      return;
    }
    var ok := PublishLocked(ds, gs, s, rasterOut);
    ReleaseAfterRun(ds, tree, hex, LockKey(s));
    ghost var root := HashSpec(tree(FILES_DIR), FILES_DIR, ALL_EXTENSIONS);
    if !root.HashThrew? {
      LockRoundTrip(old(ds.strings), LockKey(s), InitialText(root, hex));
    }
  }

  /** Setting a lock that was absent, saving the initial state and deleting
      the lock leave only the saved state. */
  lemma LockRoundTrip(strings: map<string, string>, lock: string, text: string)
    requires lock !in strings && lock != INITIAL_STATE
    ensures strings[lock := DATASET_LOCK_VALUE][INITIAL_STATE := text] - {lock} == strings[INITIAL_STATE := text]
  {
  }

  /** The controller's `finally`: the tree's hash saved as the initial
      state, then the lock deleted; a throw while hashing skips both. */
  method ReleaseAfterRun(ds: DatasetStore, tree: string -> Option<Entry>, hex: seq<string> -> string, lock: string)
    requires ds.Valid() && lock != INITIAL_STATE && lock !in ds.datasets
    modifies ds
    ensures ds.Valid()
    ensures var root := HashSpec(tree(FILES_DIR), FILES_DIR, ALL_EXTENSIONS);
      if root.HashThrew? then ds.datasets == old(ds.datasets) && ds.strings == old(ds.strings)
      else ds.datasets == old(ds.datasets) - {INITIAL_STATE}
           && ds.strings == old(ds.strings)[INITIAL_STATE := InitialText(root, hex)] - {lock}
  {
    var root := HashDirectory(tree(FILES_DIR), FILES_DIR, ALL_EXTENSIONS);
    if root.HashThrew? {
      return;
    }
    ds.SaveInitialState(InitialText(root, hex));
    ds.Del(lock);
  }

  /** The keys of a scan's results. */
  function KeysOf(listed: seq<Listed>): (r: set<string>)
    ensures forall k :: k in r <==> exists x :: x in listed && x.key == k
    decreases |listed|
  {
    if listed == [] then {}
    else
      assert listed == listed[..|listed| - 1] + [listed[|listed| - 1]];
      KeysOf(listed[..|listed| - 1]) + {listed[|listed| - 1].key}
  }

  /** Promoting one more key is one status change. */
  lemma PromoteOne(datasets: map<string, Dataset>, keys: set<string>, k: string)
    requires k in datasets
    ensures Promoted(datasets, keys + {k}) == Promoted(datasets, keys)[k := Promoted(datasets, keys)[k].(status := Some(QUEUED))]
  {
    var p := Promoted(datasets, keys);
    var q := Promoted(datasets, keys + {k});
    assert q.Keys == p[k := p[k].(status := Some(QUEUED))].Keys;
    forall j | j in q
      ensures q[j] == p[k := p[k].(status := Some(QUEUED))][j]
    {
    }
  }

  /** The promotion loop: each ready dataset is set to 'queued' under its
      structure's directory, which is its own key. */
  method PromoteReady(ds: DatasetStore, ready: seq<Listed>)
    requires ds.Valid()
    requires forall x :: x in ready ==> x.key in ds.datasets && ds.datasets[x.key].structure == Some(x.structure)
    modifies ds
    ensures ds.Valid() && ds.strings == old(ds.strings)
    ensures ds.datasets == Promoted(old(ds.datasets), KeysOf(ready))
  {
    var i := 0;
    while i < |ready|
      invariant 0 <= i <= |ready|
      invariant ds.Valid() && ds.strings == old(ds.strings)
      invariant ds.datasets == Promoted(old(ds.datasets), KeysOf(ready[..i]))
    {
      var x := ready[i];
      assert x in ready;
      assert ready[..i + 1][..i] == ready[..i];
      PromoteOne(old(ds.datasets), KeysOf(ready[..i]), x.key);
      var changed := ds.ChangeDatasetStatus(x.structure.dir, QUEUED);
      i := i + 1;
    }
    assert ready[..i] == ready;
  }

  /** `queueController()`. `selected` is the dataset chosen for publishing,
      the first of the queued scan; `acquired` says whether its lock was
      obtained. A failed readiness scan returns at once. */
  method QueueController(ds: DatasetStore, gs: Backend, tree: string -> Option<Entry>, hex: seq<string> -> string,
                         now: int, rasterOut: string) returns (selected: Option<Structure>, acquired: bool)
    requires ds.Valid()
    modifies ds, gs
    ensures ds.Valid()
    ensures selected.None? ==> !acquired && gs.server == old(gs.server) && gs.log == old(gs.log)
    ensures selected.None? ==> ds.strings == old(ds.strings)
    ensures selected.None? ==>
      ds.datasets == old(ds.datasets) || ds.datasets == Promoted(old(ds.datasets), ReadyKeys(old(ds.datasets), now))
    ensures var p := Promoted(old(ds.datasets), ReadyKeys(old(ds.datasets), now));
      selected.Some? ==>
        selected.value.dir in p && IsQueued(p[selected.value.dir]) && p[selected.value.dir].structure == selected
    ensures var p := Promoted(old(ds.datasets), ReadyKeys(old(ds.datasets), now));
      selected.Some? && !acquired ==>
        ds.datasets == p && ds.strings == old(ds.strings) && gs.server == old(gs.server) && gs.log == old(gs.log)
    ensures var p := Promoted(old(ds.datasets), ReadyKeys(old(ds.datasets), now));
      selected.Some? && acquired ==>
        var w := ControllerWork(Trace(old(gs.server), old(gs.log), true), gs.failing, selected.value, rasterOut);
        gs.server == w.server && gs.log == w.calls
        && selected.value.dir in p
        && (ds.datasets == Finished(p, selected.value.dir, w.ok)
            || ds.datasets == Finished(p, selected.value.dir, w.ok) - {INITIAL_STATE})
  {
    selected, acquired := None, false;
    var readyDatasets := ds.CheckForReadyToQueueDatasets(now);
    if readyDatasets.None? {
      return;
    }
    assert KeysOf(readyDatasets.value) == ReadyKeys(old(ds.datasets), now);
    PromoteReady(ds, readyDatasets.value);
    var queuedDatasets := ds.CheckForQueuedDatasets();
    if queuedDatasets.None? || |queuedDatasets.value| == 0 {
      return;
    }
    var first := queuedDatasets.value[0];
    assert first in queuedDatasets.value;
    selected := Some(first.structure);
    acquired := ProcessSelected(ds, gs, tree, hex, first.structure, rasterOut);
  }
}

# geoserver-uploader, modelled in Dafny

The uploader watches a folder tree of customer data laid out as
`<root>/<customer>/<year>/<type>/<dataset>/…`. It notices new, changed and
removed files, converts them with GDAL and publishes them to GeoServer:
one workspace per customer and year, with a store and layer per dataset and a
layer group that gathers the workspace's layers. The repository holds two
generations of this pipeline, and both are modelled.

- **Current generation (`uploader/`).** Each file has its own record in the
  Redis store (`file:::<path>`) with a status: new, queued, processing,
  done, removed or ignored. A polling scanner diffs snapshots of the
  folder. Jobs go through bullmq queues. Per-type watchers hash files and
  queue them. The queue watcher settles groups of files per basepath. The
  `process*Dataset` workflows publish under a lock on the layer group.
  Sweeps remove deleted datasets and empty workspaces.
- **First generation (`src/`).** Records are kept per dataset. chokidar
  events go through a debounced modification queue. Directories are
  hashed. A queue controller promotes "added" datasets to "queued" and
  publishes one dataset per tick.

Module layout, one file each:

| Module | Covers |
|---|---|
| `Wrappers` | `Option` and the `Outcome` of a call that may throw |
| `Text` | The JavaScript string operations the code relies on |
| `Classify` | Path classification (`checkStructure`) |
| `Naming` | GeoServer names (`getGeoserverNames`) |
| `FsTree` | A folder tree and its walks (`countTotalFiles`, sorted listings) |
| `FileDb` | The current generation's Redis store: a class holding the file records, the locks and the persisted snapshot |
| `Jobs` | The bullmq queues, as a class holding the submitted jobs |
| `GeoServer` | The REST calls: a class over an abstract server state with a call log, plus a pure trace semantics |
| `LayerGroups` | `createLayerGroupFromWorkspace` in both generations |
| `Requeue` | Style-record requeueing after a publish |
| `Workflows` | The current `process*Dataset` workflows and `fileProcessingProcessor` |
| `Scanner` | Both `FileWatcher` classes |
| `Ingest` | The current entry filter, `fileAnalysisProcessor` and the four per-type watchers |
| `Sweeps` | The queue, remove and GeoServer watchers and the GeoServer controller |
| `LegacyPublish` | The first generation's `processDataset` and queue watcher |
| `Numbers` | `parseInt` and ISO-8601 timestamps |
| `DatasetDb` | The first generation's dataset store |
| `LegacyIngest` | The first generation's entry filter, file watcher, change watcher, directory hash, file-change controller and modification queue |
| `LegacyQueue` | The first generation's queue controller |

Conventions:

- A call into something outside the model is a parameter, either of a
  method or of the `Backend` class. This covers GDAL, GeoServer, digests,
  clocks and the random back-off.
  - `now` is passed in.
  - A lock retry loop is driven by `releasedDuring`, which says whether
    the lock was released while each attempt waited.
  - A GeoServer call fails when it is in the backend's `failing` set, or
    when the workspace or store it addresses does not exist. A failed call
    leaves the server state unchanged, except in the wrappers that delete
    an existing store or layer group before posting its replacement
    (`createStore`, `createShapefileStore`, `createLayerGroup`): there a
    failure leaves the old one deleted and not recreated.
- JavaScript `undefined` interpolated into a template string is modelled
  as the text `"undefined"`.
- A thrown exception is `Threw`.

Where the code imports something its own repository does not provide, the
model substitutes a definition:

- The first-generation watchers import `acquireLock`, `releaseLock`,
  `getFilesByStatus`, `saveFile` and `changeFileStatusByBasepath` from
  `src/repositories/db.ts`, which does not export them. As written, each of
  these calls would fail. The model substitutes the semantics of the
  current generation's store.
- `uploader/src/watchers/fileWatcher.ts` imports `getSnapshot` and
  `saveSnapshot`, which `uploader/src/repositories/db.ts` does not define.
  They are modelled as one persisted snapshot cell of the store.
- The current generation's `createStore` is not part of this model. Both
  generations' store creation is modelled as the first generation's
  `createStore` with the 404 of a missing store read as "absent": a missing
  store is created, an existing one deleted and posted again. As written,
  the first generation's copy throws on that 404 (the seventh finding).
- `createLayerGroupFromWorkspace` (current generation) passes the workspace
  and group names in each other's positions. This is harmless, because both
  names are `<customer>_<year>`; `LayerGroups` states it.

## Model

| member | source | states |
|---|---|---|
| Text.Lower | uploader/src/utils/checkStructure.ts:22 | `toLowerCase` keeps the length and lower-cases character by character |
| Text.ReplaceChar | uploader/src/utils/checkStructure.ts:10-13 | a global one-character replace keeps the length and swaps exactly the matching characters |
| Text.IndexOf | uploader/src/services/getGeoserverNames.ts:32 | the first position of the character, or none iff it does not occur |
| Text.ReplaceFirst | uploader/src/services/getGeoserverNames.ts:32 | `replace` with a string pattern swaps only the first occurrence, and changes nothing when there is none |
| Text.Split | uploader/src/utils/checkStructure.ts:11-13 | `split` never returns an empty list, no piece holds the separator, a text without it is one piece, and the first piece is the text before the first separator (followed by it or by the end) |
| Text.JoinSplit | uploader/src/utils/checkStructure.ts:13-28 | joining the pieces of a split with the same separator gives the text back |
| Text.SplitAtOnlySeparator | uploader/src/utils/checkStructure.ts:35 | a text with one separator splits into its two sides |
| Text.JoinPrefix | uploader/src/utils/checkStructure.ts:28 | joining the first pieces gives a prefix of joining them all |
| Text.FindFrom | uploader/src/utils/checkStructure.ts:10 | the first occurrence of a separator at or after a position, or none when there is none |
| Text.SecondPiece | uploader/src/utils/checkStructure.ts:10 | `split(sep)[1]` is undefined iff the separator does not occur; otherwise it is the text right after the first occurrence, up to the next occurrence or the end, and never contains the separator |
| Text.LastPiece | uploader/src/utils/countTotalFiles.ts:21 | `split(c).pop()` is the whole text when `c` does not occur; otherwise the suffix that follows the last `c` |
| Text.LastIndexOf | uploader/src/utils/countTotalFiles.ts:21 | the last position of the character |
| Text.ExtName | uploader/src/watchers/fileWatcher.ts:43 | `path.extname` is empty iff the last segment has no '.' after its first character; otherwise it is the suffix of that segment from its last '.', shorter than the segment |
| Classify.Normalize | uploader/src/utils/checkStructure.ts:10-13 | Windows separators become '/': same length, no backslash left |
| Classify.LegacySegments | src/utils/checkStructure.ts:9-13 | in full-path mode at most the last five segments are read |
| Classify.FromSegments | uploader/src/utils/checkStructure.ts:16-52 | an accepted structure has type raster, points or analysis (segment 3, lower-cased), customer and year from segments 1 and 2, and the first five segments joined as `dir`; the dataset is segment 4 verbatim (absent with four segments) for rasters and for the first generation, and segment 4 up to its first '.' for current points and analysis |
| Classify.CheckStructure | uploader/src/utils/checkStructure.ts:3-53 | accepted types are the three dataset types; customer, year, type and `dir` come from the path's segments; a raster dataset is segment 4 verbatim and a points or analysis dataset is segment 4 up to its first '.' |
| Classify.CheckStructureLegacy | src/utils/checkStructure.ts:3-52 | accepted types are the three dataset types; the dataset is segment 4 untrimmed, absent when the path is shorter |
| Classify.AcceptedExactly | uploader/src/utils/checkStructure.ts:17-48 | a path is accepted iff it has a type segment that lower-cases to raster, points or analysis |
| Classify.SeparatorInsensitive | uploader/src/utils/checkStructure.ts:10-13 | a path and its backslash-to-slash rewrite classify the same |
| Classify.DirIsPathPrefix | uploader/src/utils/checkStructure.ts:28-44 | the dataset directory is a prefix of the normalised path |
| Classify.FullPathNeedsFilesRoot | uploader/src/utils/checkStructure.ts:8-11 | in full-path mode a path without "files/" is rejected |
| Classify.FullPathAgreesAtRoot | uploader/src/utils/checkStructure.ts:8-14 | for a path rooted at "files/" that does not repeat it, both modes agree |
| Classify.GenerationsAgree | src/utils/checkStructure.ts:9-13 | on a five-segment path without '.' in the dataset, both generations and both legacy modes give the same structure |
| Naming.GetGeoserverNames | uploader/src/services/getGeoserverNames.ts:3-53 | workspace and layer group are `<customer>_<year>`, the store adds `_<dataset>`, the layer name starts with the store name and carries the type suffix for points and analysis; the style name per type |
| Naming.GetGeoserverNamesLegacy | src/services/getGeoserverNames.ts:3-8 | workspace and store are both `<customer>_<year>` |
| Naming.GenerationsShareWorkspace | src/services/getGeoserverNames.ts:5 | both generations publish a dataset in the same workspace |
| Naming.NamesSeparateDatasets | uploader/src/services/getGeoserverNames.ts:11-39 | two datasets of one type in one workspace get distinct store and layer names |
| Naming.TypeSuffixes | uploader/src/services/getGeoserverNames.ts:12-21 | points layers end in "_points" and analysis layers in "_analysis" |
| FsTree.CountTotalFiles | uploader/src/utils/countTotalFiles.ts:4-35 | the count equals the recursive specification: regular files at the top level filtered by extension, every regular file below, 0 when the directory cannot be listed |
| FsTree.CountListed | uploader/src/utils/countTotalFiles.ts:9-31 | the loop over a listing adds up the per-entry counts |
| FsTree.CountTotalFilesLegacy | src/services/countTotalFiles.ts:4-20 | the count equals the recursive specification, and the call throws (None) when any directory cannot be listed |
| FsTree.LegacyCountListed | src/services/countTotalFiles.ts:5-19 | the loop over a listing adds up the per-entry counts, and fails when one entry fails |
| FsTree.CountGenerationsAgree | src/services/countTotalFiles.ts:4-20 | on a fully readable tree both generations count the same files when no extension filter is given; otherwise the first generation throws |
| FsTree.ChildrenAgree | src/services/countTotalFiles.ts:9-17 | the same agreement for a listing |
| FsTree.FilterNarrowsCount | uploader/src/utils/countTotalFiles.ts:20-27 | an extension filter never increases the count |
| FsTree.Walk | src/utils/hashDirectory.ts:31-45 | the walk pushes exactly the matching non-directory entries below the directory, in listing order, or throws on an unreadable directory |
| FsTree.SortByPath | src/utils/hashDirectory.ts:63 | sorting yields a permutation ordered by path |
| FsTree.SortedPermutationUnique | src/utils/hashDirectory.ts:62-63 | two sorted permutations of files with distinct paths are equal, so the order is deterministic |
| FsTree.HashDirectory | src/utils/hashDirectory.ts:14-78 | the result is the specification: null for a missing path or no matching file, otherwise the digest of the sorted path/content-hash sequence |
| FsTree.HashFiles | src/utils/hashDirectory.ts:57-77 | after the walk: null for no files, else the digest of the sorted files |
| FsTree.Feed | src/utils/hashDirectory.ts:68-75 | the digest input is each sorted file's path followed by its content hash |
| FsTree.Updates | src/utils/hashDirectory.ts:73-74 | two entries per file |
| FsTree.UpdatesInjective | src/utils/hashDirectory.ts:68-75 | the digest input determines the file list |
| FsTree.DigestIgnoresEnumerationOrder | src/utils/hashDirectory.ts:62-63 | files listed in any order give the same digest input |
| FsTree.RenameChangesDigest | src/utils/hashDirectory.ts:73 | renaming one file changes the digest input even if no content changes |
| FileDb.RevertLeavesNoProcessing | uploader/src/repositories/db.ts:242-258 | after startup recovery no record is `processing` |
| FileDb.RevertChangesOnlyProcessing | uploader/src/repositories/db.ts:249-253 | recovery changes only the status of `processing` records, to `queued`, and running it twice is running it once |
| FileDb.StatusUpdateIsPrefixed | uploader/src/repositories/db.ts:260-284 | a bulk status update keeps the keys, sets the status exactly on keys with the prefix, changes no other field, and is a no-op when nothing matches |
| FileDb.Store.CheckIfFileAlreadyExists | uploader/src/repositories/db.ts:48-64 | true iff a record is stored under the normalised path |
| FileDb.Store.GetFile | uploader/src/repositories/db.ts:66-80 | the stored record of the normalised path; an absent path throws when its missing structure is parsed |
| FileDb.Store.SaveFile | uploader/src/repositories/db.ts:82-96 | the record is stored under its normalised path with the current time as `ts`; nothing else changes |
| FileDb.Store.RemoveFile | uploader/src/repositories/db.ts:98-108 | exactly the record of the normalised path is removed |
| FileDb.Store.RemoveFilesByBasepath | uploader/src/repositories/db.ts:110-125 | every record under `basepath/` is removed and its key returned; no other record changes |
| FileDb.Store.GetFilesByPattern | uploader/src/repositories/db.ts:127-155 | exactly the stored records whose key contains the pattern, each once |
| FileDb.Store.GetFilesByStatus | uploader/src/repositories/db.ts:157-186 | exactly the stored records with that status, each once |
| FileDb.Store.AcquireLock | uploader/src/repositories/db.ts:201-215 | set-if-absent: acquired iff no lock was held on the normalised key, and then the lock holds the TTL; the lock is held afterwards either way |
| FileDb.Store.ReleaseLock | uploader/src/repositories/db.ts:217-227 | the lock on the normalised key is gone, whoever held it |
| FileDb.Store.ReleaseAllLocks | uploader/src/repositories/db.ts:229-240 | no lock is left; records untouched |
| FileDb.Store.RevertProcessingStatusToQueued | uploader/src/repositories/db.ts:242-258 | the records become the recovery function of the old records |
| FileDb.Store.ChangeFileStatusByBasepath | uploader/src/repositories/db.ts:260-284 | every record whose key starts with the normalised basepath gets the status; others are untouched |
| FileDb.Store.CheckRasterWatcherLock | uploader/src/repositories/db.ts:33-46 | true iff some lock key starts with "rasterWatcher" |
| FileDb.Store.AcquireWithRetry | uploader/src/processors/processRasterDataset.ts:18-29 | the lock is obtained at the attempt the retry specification names (at once when free, else after the first back-off in which the holder released it), with one `acquireLock` per attempt and at most `maxRetries` attempts |
| FileDb.RetryOutcome | uploader/src/processors/processRasterDataset.ts:19-28 | the obtaining attempt is below the retry bound |
| FileDb.Store.ExpireLock | uploader/src/repositories/db.ts:205-210 | a lock whose TTL has run out is gone and nothing else in the store changes (the moment of expiry is left to the caller) |
| FileDb.Store.GetSnapshot | uploader/src/watchers/fileWatcher.ts:87-89 | returns the persisted watcher snapshot as last saved |
| FileDb.Store.SaveSnapshot | uploader/src/watchers/fileWatcher.ts:114 | the persisted snapshot becomes the given one; file records and locks are unchanged |
| Jobs.ProcessingJobOptions | uploader/src/queues/queueManager.ts:21-33 | two processing jobs share a deduplication id iff their datasets share a directory; delay five minutes, three attempts, payload the structure |
| Jobs.Queues.EnqueueForFileAnalysis | uploader/src/queues/queueManager.ts:17-19 | one more "file-analysis" job for the path; the processing queue is untouched |
| Jobs.Queues.EnqueueForFileProcessing | uploader/src/queues/queueManager.ts:21-33 | one more "file-processing" job with the dataset's options; the analysis queue is untouched |
| GeoServer.StyleName | uploader/src/services/createLayerGroup.ts:16-20 | GeoServer names are lower-cased with spaces as '_': same length, no space left |
| GeoServer.Step | uploader/src/processors/processRasterDataset.ts:40-49 | after a thrown call nothing more is called; otherwise the call is logged and succeeds iff it is not failing and the workspace and store it addresses exist; a failed call leaves the state `Failed` gives |
| GeoServer.Failed | src/services/createLayerGroup.ts:20-63 | a failed call never touches workspaces or styles; a failed store or group creation in an existing workspace has deleted the store or group of that name and changed nothing else; any other failed call changes nothing |
| GeoServer.StepsCallPrefix | uploader/src/processors/processRasterDataset.ts:40-49 | an awaited sequence of calls makes the calls of its plan in order up to and including the first failure, and all of them when it succeeds |
| GeoServer.StepsFailed | uploader/src/processors/processRasterDataset.ts:48-49 | after a throw the rest of the sequence changes nothing |
| GeoServer.FirstFailureStopsRun | uploader/src/processors/processRasterDataset.ts:41-44 | when the first call fails it is the only call made and the server is as that failure leaves it (for a transform, untouched): nothing is published after a failed transform |
| GeoServer.StepsAppend | uploader/src/processors/processRasterDataset.ts:41-47 | running a plan and then one call is running the longer plan |
| GeoServer.StepsSplit | uploader/src/processors/processRasterDataset.ts:41-47 | running two plans in turn is running their concatenation |
| GeoServer.Backend.Send | uploader/src/services/createWorkspace.ts:7-38 | one backend call: the new state and log are one step of the call semantics |
| GeoServer.Backend.RunPlan | uploader/src/processors/processRasterDataset.ts:41-45 | the loop over a plan stops at the first failure and equals the plan's semantics |
| GeoServer.Backend.FetchLayers | uploader/src/services/getLayersFromWorkspace.ts:3-22 | the workspace's layer list, `undefined` for a workspace without layers; a failed request throws |
| GeoServer.Backend.FetchWorkspaces | src/services/getWorkspaces.ts:3-19 | every workspace name, each once; a failed request throws |
| GeoServer.LayerList | uploader/src/services/getLayersFromWorkspace.ts:15 | no list exactly when the workspace has no layers, otherwise its layers |
| LayerGroups.Filter | uploader/src/services/createLayerGroupFromWorkspace.ts:18-21 | the kept layers are exactly those satisfying the test, no more of them than the input |
| LayerGroups.FilterConcat | src/services/createLayerGroupFromWorkspace.ts:18-25 | filtering a concatenation filters each part in turn |
| LayerGroups.RasterGroup | uploader/src/services/createLayerGroupFromWorkspace.ts:18-32 | the group holds exactly the layers mentioning neither "_points" nor "_analysis", with one "raster" style per layer |
| LayerGroups.LegacyGroupStyles | src/services/createLayerGroupFromWorkspace.ts:31-41 | one style per grouped layer: "raster" for the raster and analysis layers, `<workspace>:<layer>` for the points layers |
| LayerGroups.NotBothSuffixes | src/services/createLayerGroupFromWorkspace.ts:18-25 | no name ends both in "_points" and "_analysis" |
| LayerGroups.LegacyGroupPermutes | src/services/createLayerGroupFromWorkspace.ts:18-30 | raster, then analysis, then points layers: a permutation of the workspace's layers |
| LayerGroups.RasterGroupOutcome | uploader/src/services/createLayerGroupFromWorkspace.ts:9-32 | a workspace without layers gets no group; otherwise the group is created from the raster layers |
| LayerGroups.LegacyEmptyWorkspaceThrows | src/services/createLayerGroupFromWorkspace.ts:9-11 | in the first generation a workspace without layers throws on the undefined list's length |
| LayerGroups.CreateLayerGroupFromWorkspace | uploader/src/services/createLayerGroupFromWorkspace.ts:5-33 | the calls made and the new state are the current group-building specification |
| LayerGroups.CreateLayerGroupFromWorkspaceLegacy | src/services/createLayerGroupFromWorkspace.ts:5-43 | the calls made and the new state are the first-generation group-building specification |
| Requeue.StylePattern | uploader/src/processors/processVectorDataset.ts:72-74 | the pattern ends in "/styles/<type>" |
| Requeue.RequeueOnlyQueues | uploader/src/processors/processVectorDataset.ts:80-82 | requeueing keeps every record and changes at most its status, to `queued`; records under no matching basepath are untouched |
| Requeue.RequeueByMeaning | uploader/src/processors/processVectorDataset.ts:80-82 | the per-record status updates, in any order, set exactly the records under one of the basepaths to `queued` |
| Requeue.JobsForCount | uploader/src/processors/processAnalysisDataset.ts:67-70 | one processing job per requeued style record, carrying its structure |
| Requeue.RequeueStyles | uploader/src/processors/processVectorDataset.ts:72-82 | lists exactly the records whose key contains the pattern; if all carry a structure the records under their basepaths become `queued`, otherwise the log line throws first and nothing changes |
| Requeue.RequeueAndEnqueueStyles | uploader/src/processors/processAnalysisDataset.ts:59-70 | as the points requeue, plus one processing job per listed record |
| Requeue.RequeueEach | uploader/src/processors/processVectorDataset.ts:80-82 | the loop's records are the fold of the per-record status updates |
| Requeue.RequeueEachAndEnqueue | uploader/src/processors/processAnalysisDataset.ts:67-70 | the loop's records and jobs are the folds of its updates and enqueues |
| Requeue.MatchedStructures | uploader/src/processors/processVectorDataset.ts:76-78 | the listed records all carry a structure iff all matching records do |
| Requeue.MatchedRequeue | uploader/src/processors/processVectorDataset.ts:72-82 | requeueing by the listed records is requeueing by the pattern |
| LegacyPublish.LegacyLayerName | src/watcher/removeWatcher.ts:60-62 | the layer name starts with `<customer>_<year>` and equals it for a raster dataset |
| LegacyPublish.ProcessDatasetAsWritten | src/services/processDataset.ts:18-47 | as written, `processDataset` locks the undefined `layerGroupName`: for every dataset it throws, and the locks, records, snapshot, server state and call log are all unchanged |
| LegacyPublish.StepsKeepsGroups | src/services/processDataset.ts:50-84 | workspace, store, layer and style calls never touch the layer groups |
| LegacyPublish.LegacyPointsWithoutOutput | src/services/processDataset.ts:56-66 | a points dataset without output calls only the transform and succeeds |
| LegacyPublish.LegacyUnknownTypeRebuildsGroup | src/services/processDataset.ts:50-86 | an unknown type publishes nothing but still rebuilds the group |
| LegacyPublish.LegacyGroupHoldsWorkspace | src/services/createLayerGroupFromWorkspace.ts:5-43 | a successful rebuild leaves a group holding every layer of the workspace, and the workspaces unchanged |
| LegacyPublish.LegacySuccessRebuildsGroup | src/services/processDataset.ts:49-86 | corrected: a successful run ends with the workspace's group holding all its layers |
| LegacyPublish.LegacyRasterOrder | src/services/processDataset.ts:50-86 | corrected (createStore): a successful raster run makes exactly transform, workspace, store, layer, layer list and group, in that order |
| LegacyPublish.PublishLegacy | src/services/processDataset.ts:49-86 | corrected (createStore): the calls under the lock follow the publish specification |
| LegacyPublish.ProcessDatasetLegacy | src/services/processDataset.ts:15-92 | throws iff the lock key is undefined, and then no lock, record or server state changes; with a defined key (corrected: `<customer>_<year>`), not locked iff ten attempts fail, and then nothing is called; otherwise the publish runs, the lock is released, and the run finishes iff every call succeeded; no other lock and no record changes |
| LegacyPublish.DatasetArgAsWritten | src/watcher/queueWatcher.ts:58 | as written, the basepath handed over as a structure names the workspace "undefined_undefined" and no known type |
| LegacyPublish.AsWrittenArgumentPublishesNothing | src/watcher/queueWatcher.ts:58 | as written, a run publishes nothing of the dataset: at most a layer list and a group of "undefined_undefined" |
| LegacyPublish.OldestTs | src/watcher/queueWatcher.ts:43-44 | the smallest timestamp of the group's queued records, as the head of the sorted group |
| LegacyPublish.HandleGroupLegacy | src/watcher/queueWatcher.ts:47-64 | corrected: handled iff the lock was free and the basepath parses; the publish runs on the parsed structure; the lock is released on every path; no record changes |
| LegacyPublish.QueueWatcherLegacy | src/watcher/queueWatcher.ts:22-76 | no record changes and every lock taken is released; only queued, settled, parsable groups are handled, each once; every such group with a free lock is handled |
| LegacyPublish.SettledIsOldest | src/watcher/queueWatcher.ts:43-47 | a group is settled exactly when its oldest queued record is more than ten seconds old |
| Workflows.NamesFor | uploader/src/services/getGeoserverNames.ts:25-33 | the names of a structure; a styles structure without a dataset throws on `dataset.replace` |
| Workflows.RasterTransformFailure | uploader/src/processors/processRasterDataset.ts:40-49 | a failing raster transform is the only call made: nothing is published |
| Workflows.RasterCallOrder | uploader/src/processors/processRasterDataset.ts:41-47 | the calls are a prefix of transform, workspace, store, layer in that order; stopping inside the prefix means failure, and only the full prefix is followed by the group rebuild |
| Workflows.ProcessRasterDataset | uploader/src/processors/processRasterDataset.ts:10-53 | not locked iff the retry loop never obtains the layer-group lock, and then nothing is called; otherwise the calls are the raster specification, the lock is released on every path, and the run finishes iff every call succeeded; the copy in uploader/src/services/processRasterDataset.ts makes the same calls under the same lock |
| Workflows.VectorNoOutput | uploader/src/processors/processVectorDataset.ts:51-60 | no output from the points transform: the transform is the only call and the server is unchanged |
| Workflows.VectorCallOrder | uploader/src/processors/processVectorDataset.ts:51-70 | a successful points run makes exactly transform, workspace, shapefile store and vector layer (the earlier copy adds the default style before the layer) |
| Workflows.ProcessVectorDataset | uploader/src/processors/processVectorDataset.ts:14-88 | lock as for rasters; the calls are the points specification; after a successful publish the points style records of the customer's year are requeued, and nothing is requeued otherwise; the lock is released on every path; a flag selects the copy in uploader/src/services/processVectorDataset.ts, which creates a default style and requeues nothing |
| Workflows.AnalysisTransformFailure | uploader/src/processors/processAnalysisDataset.ts:43-53 | a failing analysis transform is the only call made: nothing is published |
| Workflows.PublishAnalysis | uploader/src/processors/processAnalysisDataset.ts:43-70 | the calls are the analysis specification; after a successful publish the analysis style records are requeued and, in the current copy, one processing job is enqueued per record |
| Workflows.ProcessAnalysisDataset | uploader/src/processors/processAnalysisDataset.ts:15-76 | lock as for rasters; the publish, requeue and enqueue of the analysis specification; the lock is released on every path; a flag selects the copies in uploader/src/services/processAnalysisDataset.ts and uploader/processors/processAnalysisDataset.ts, which requeue without enqueueing |
| Workflows.StyleGroupSelects | uploader/src/processors/processStyleDataset.ts:53-77 | a failed style rebuild changes nothing if it failed before the group post, and otherwise has only deleted the old group of that name; a successful one changes nothing when no layer matches, or leaves a group of exactly the matching layers, each drawn with the new style |
| Workflows.StyleWithoutGroup | uploader/src/processors/processStyleDataset.ts:53-103 | a style dataset naming neither type only creates the style; the earlier copy also ignores analysis styles and upper-case spellings |
| Workflows.PublishStyle | uploader/src/processors/processStyleDataset.ts:43-103 | the calls under the lock are the style specification |
| Workflows.RebuildStyleGroup | uploader/src/processors/processStyleDataset.ts:54-77 | the group rebuild is the style-group specification |
| Workflows.ProcessStyleDataset | uploader/src/processors/processStyleDataset.ts:9-109 | lock as for rasters; the calls are the style specification; the lock is released on every path; a flag selects the copy in uploader/src/services/processStyleDataset.ts, which matches "points" case-sensitively and has no analysis branch |
| Workflows.RunWorkflow | uploader/src/processors/fileProcessingProcessor.ts:16-58 | each known type runs exactly its own workflow, with that workflow's guarantees |
| Workflows.FileProcessingProcessor | uploader/src/processors/fileProcessingProcessor.ts:8-67 | for a known type the dataset's records go to `processing`, the workflow runs, and they end `done` unless it threw (then they stay `processing`); an unknown type changes nothing; no other field changes |
| Scanner.Scan | uploader/src/watchers/fileWatcher.ts:33-55 | the loop over the listed entries computes the recursive scan specification: it throws iff some directory below cannot be listed, and otherwise records the kept files it can `stat` |
| Scanner.ScanFiles | uploader/src/watchers/fileWatcher.ts:30-59 | `scanFiles` equals the scan specification from an empty snapshot, and throws when the watched folder cannot be listed |
| Scanner.RecordAppend | uploader/src/watchers/fileWatcher.ts:36-54 | recording two listings one after the other is recording their concatenation |
| Scanner.ScanIsRecord | uploader/src/watchers/fileWatcher.ts:33-55 | the recursive scan fails exactly when some directory is unlistable, and otherwise records the flat depth-first listing of files |
| Scanner.TakenWithCons | uploader/src/watchers/fileWatcher.ts:42-49 | a taken file with a given path and time is the first listed entry or a taken file of the rest |
| Scanner.RecordContents | uploader/src/watchers/fileWatcher.ts:42-49 | a key is in the recorded snapshot iff it was there before or some kept, `stat`-able file has that path, and then its value is the time of the last such file |
| Scanner.SnapshotHoldsKeptFiles | uploader/src/watchers/fileWatcher.ts:30-59 | a scan fails iff the folder or a directory below cannot be listed; a successful one holds exactly the paths of the kept, `stat`-able files, each with the time of the last listed file of that path; the same holds for the earlier scan in uploader/src/watcher/fileWatcher.ts:24-48, which keeps every file |
| Scanner.DiffSnapshots | uploader/src/watchers/fileWatcher.ts:92-111 | an event is in the list iff its path is new (add), has a new time (change) or has gone (unlink); one event per path; every unlink comes after every add and change |
| Scanner.ApplyAt | uploader/src/watchers/fileWatcher.ts:92-111 | applying one-per-path events leaves a path no event names as it was, and puts the event's path in or out of the snapshot by its kind |
| Scanner.DiffReplays | uploader/src/watchers/fileWatcher.ts:92-113 | the events are exactly the difference: applied to the previous snapshot they give the current one |
| Scanner.DiffOfEqualAndEmpty | uploader/src/watchers/fileWatcher.ts:92-111 | an unchanged tree emits no event; against an empty previous snapshot every file is reported as added and nothing else |
| Scanner.FileWatcher.DetectChanges | uploader/src/watchers/fileWatcher.ts:61-126 | without the lock nothing is scanned or emitted; with it the lock is released on every path; after a successful scan the events are the diff against the in-memory snapshot, or the persisted one when that is empty, and the new snapshot is kept and persisted; a failed scan changes nothing |
| Scanner.EarlierFileWatcher.DetectChanges | uploader/src/watcher/fileWatcher.ts:50-111 | the same without an extension filter and without persistence, so a first run reports every file as added |
| Ingest.IngestedMeaning | uploader/src/processors/fileAnalysisProcessor.ts:13-80 | only the path's own record can change; it is written iff the path is valid, the hash resolved truthy and the stored record is not `done` with that hash; a written record is `queued` with the new hash, keeps an existing record's fields, and for a new path points at the dataset directory |
| Ingest.ProcessedThenSkipped | uploader/src/processors/fileAnalysisProcessor.ts:53-57 | once a written record is `done`, seeing the same content again writes nothing |
| Ingest.ChangedContentRequeues | uploader/src/processors/fileAnalysisProcessor.ts:53-64 | a new hash for a known valid path is always written back as `queued` |
| Ingest.HashCompareWrite | uploader/src/watcher/rasterWatcher.ts:42-100 | the watchers' shared body: the records become the hash-compare result, it reports a rejected hash iff the path was valid, and locks and the snapshot are untouched |
| Ingest.FileAnalysisProcessor | uploader/src/processors/fileAnalysisProcessor.ts:7-84 | the records become the hash-compare result; exactly one processing job is enqueued, for the dataset, iff a record was written; a rejected hash of a valid path is rethrown |
| Ingest.RasterWatcher | uploader/src/watcher/rasterWatcher.ts:13-106 | with the per-path lock: the hash-compare write, then the lock is released; without it the records are unchanged |
| Ingest.UnlinkOnlyMarksRemoved | uploader/src/watcher/pointsWatcher.ts:116-130 | an unlink keeps the key set, touches no other record, and marks an existing record of a full-path-valid path `removed` |
| Ingest.PointsWatcher | uploader/src/watcher/pointsWatcher.ts:13-136 | under the per-path lock: the hash-compare write for 'add' and 'change', the removal mark for 'unlink'; the lock is released; without the lock nothing changes |
| Ingest.AnalysisWatcher | uploader/src/watcher/analysisWatcher.ts:13-136 | as for points, but 'unlink' changes nothing because its branch is commented out |
| Ingest.StylesWatcherAsWritten | uploader/src/watcher/stylesWatcher.ts:13-109 | as written: with `shouldLog` the undefined `event` throws first and no record is ever written; the lock is still released |
| Ingest.StylesLogDropsWrite | uploader/src/watcher/stylesWatcher.ts:41 | for any valid new path with a truthy hash the decision stores a record, which the as-written watcher with logging drops |
| Ingest.StylesWatcher | uploader/src/watcher/stylesWatcher.ts:13-109 | corrected: the hash-compare write under the per-path lock, as for rasters |
| Ingest.WatcherHandler | uploader/src/index.ts:55-63 | exactly one analysis job for the path iff it contains neither "_output" nor ".DS_Store"; the processing queue is untouched |
| Ingest.JobsComeFromForwardedEvents | uploader/src/index.ts:65-92 | every analysis job names a forwarded path that some 'add' or 'change' event reported |
| Ingest.Control.OnEvent | uploader/src/index.ts:65-92 | an 'add' before 'ready' advances the progress counter; 'add' and 'change' reach the handler; 'unlink' has no listener |
| Ingest.Control.OnReady | uploader/src/index.ts:83-90 | 'ready' sets the flag and leaves the counter |
| Ingest.StartUp | uploader/src/index.ts:18-92 | locks are cleared and `processing` records reverted to `queued` before the first scan; the counter ends at the number of 'add' events; the analysis jobs are those of the forwarded events; the events are the first diff against the persisted snapshot, which is replaced by the scan |
| Sweeps.StatusUpdateOverrides | uploader/src/repositories/db.ts:260-284 | two status updates under the same basepath: the later one wins |
| Sweeps.FilterRecords | uploader/src/watcher/removeWatcher.ts:20-22 | the filtered list holds exactly the records that pass, and is no longer than the input |
| Sweeps.SendIgnoringErrors | uploader/src/watcher/removeWatcher.ts:40-41 | a call whose error is caught: the server and log are those of the call, and the run goes on |
| Sweeps.FirstStructure | uploader/src/watcher/queueWatcher.ts:60-62 | the structure of the first queued record of the basepath; none when no record has the basepath; some when every such record carries one |
| Sweeps.HandleGroup | uploader/src/watcher/queueWatcher.ts:55-125 | examined iff the basepath lock was free and a structure was found; raster, points and styles go to `processing`, run the workflow's calls, and end `done`, or `queued` when it threw; analysis only goes to `processing`; other types are left alone; the lock is released |
| Sweeps.StatusUpdateChangesUnder | uploader/src/watcher/queueWatcher.ts:75-121 | only statuses under the basepath change: a status update keeps keys and every other field |
| Sweeps.HandleGroupStep | uploader/src/watcher/queueWatcher.ts:55-125 | seen from the loop: an examined group changes only statuses under its basepath, and an unexamined one changes nothing |
| Sweeps.VisitGroup | uploader/src/watcher/queueWatcher.ts:49-132 | a group is examined only when its oldest record is more than ten seconds old and it has a structure; a settled, fully structured group whose lock is free is examined |
| Sweeps.VisitedStep | uploader/src/watcher/queueWatcher.ts:48-136 | one more visited group keeps the loop's summary: statuses only, groups examined once, and every eligible group of the visited set examined |
| Sweeps.VisitGroups | uploader/src/watcher/queueWatcher.ts:48-136 | the loop over the queued basepaths establishes that summary for every queued basepath |
| Sweeps.QueueWatcher | uploader/src/watcher/queueWatcher.ts:18-143 | locked iff its own lock was free, and then it is released; only statuses change, and only under examined basepaths; every examined basepath was queued, settled and structured, and is examined once; every settled, fully structured group with a free lock is examined |
| Sweeps.CleanupOutcome | uploader/src/watcher/removeWatcher.ts:37-42 | with no failing call the layer leaves the workspace; the group is gone if the workspace is empty, and otherwise holds exactly the remaining layers, not the removed one |
| Sweeps.RequeuedOrDeletedTransitive | uploader/src/watcher/removeWatcher.ts:29-52 | "records only requeued or deleted" composes over successive records |
| Sweeps.RemoveRecord | uploader/src/watcher/removeWatcher.ts:29-52 | a record without a structure is skipped; names that throw end the sweep; otherwise the clean-up runs and, if it succeeds, a raster record's dataset is requeued and the record deleted; if it fails the sweep ends and the record is kept |
| Sweeps.RemoveRecordStep | uploader/src/watcher/removeWatcher.ts:29-52 | seen from the loop: only this record may be deleted, the others may only be requeued |
| Sweeps.RemoveEach | uploader/src/watcher/removeWatcher.ts:29-52 | the records in order until one throws: only removed structured records are deleted; if none throws, every such record of the list is |
| Sweeps.RemoveWatcher | uploader/src/watcher/removeWatcher.ts:15-58 | locked iff its lock was free; records change only to `queued` or are deleted; only `removed` records with a structure are deleted; when the sweep completes every such record is |
| Sweeps.RemoveGroupFiles | src/watcher/removeWatcher.ts:77-79 | the group's records are deleted and nothing else |
| Sweeps.RemoveGroupLegacy | src/watcher/removeWatcher.ts:42-79 | a missing directory ends the sweep; an empty directory with an unparsable basepath keeps the group; one that parses is cleaned up and its records deleted unless the rebuild throws; files left requeue the basepath and then the records are deleted |
| Sweeps.RemoveGroupsLegacy | src/watcher/removeWatcher.ts:42-80 | group by group until one throws: only deletable records go, and if none throws all records of unkept groups are deleted |
| Sweeps.RemoveWatcherLegacy | src/watcher/removeWatcher.ts:18-86 | locked iff its lock was free; records change only to `queued` or are deleted; only removed records of unkept groups are deleted, and all of them when the sweep completes |
| Sweeps.SweepOnlyRemovesEmpty | uploader/src/watcher/geoserverWatcher.ts:20-28 | whatever fails, a sweep removes only workspaces without layers, with their stores, groups and styles, and keeps every other workspace, store, group and style as it was |
| Sweeps.SweepRemovesEveryEmpty | uploader/src/watcher/geoserverWatcher.ts:20-28 | with no failing call, a sweep over distinct workspaces removes exactly those of them without layers |
| Sweeps.Sweep | uploader/src/watcher/geoserverWatcher.ts:20-28 | the loop over the workspaces makes the sweep's calls and reaches its server state |
| Sweeps.SweepAll | uploader/src/watcher/geoserverWatcher.ts:16-28 | only empty workspaces go; with no failing call every empty one goes |
| Sweeps.GeoserverWatcher | uploader/src/watcher/geoserverWatcher.ts:8-34 | locked iff the lock was free; without it nothing happens; with it the sweep runs and the lock is released |
| Sweeps.GeoserverWatcherLegacy | src/watcher/geoserverWatcher.ts:6-29 | the sweep under the lock, but the `finally` deletes the lock even when another run held it |
| Sweeps.GeoserverController | src/controllers/geoserverController.ts:5-25 | the same sweep with no lock |
| Numbers.DigitRoundTrip | src/repositories/db.ts:69 | a digit written as a character reads back as the same digit |
| Numbers.Padded | src/repositories/db.ts:174 | the zero-padded fields of `toISOString` are exactly `width` digits long |
| Numbers.Decimal | src/repositories/db.ts:69 | a decimal millisecond count is a non-empty run of digits without a leading zero |
| Numbers.PaddedValue | src/repositories/db.ts:174 | a padded field reads back as the number it was written from |
| Numbers.DecimalValue | src/repositories/db.ts:69 | decimal text reads back as the number it was written from |
| Numbers.LeadingDigits | src/repositories/db.ts:69 | `parseInt` reads the longest prefix of digits, and the character after it is not a digit |
| Numbers.LeadingDigitsOf | src/repositories/db.ts:69 | digits followed by a non-digit: the digits are exactly what `parseInt` reads |
| Numbers.TrimStart | src/repositories/db.ts:69 | JavaScript white space at the start is dropped, and the result is no longer than the input |
| Numbers.ParseInt | src/repositories/db.ts:69 | `parseInt(s, 10)`: when it reads a number, that number is the value of some non-empty run of digits, with its sign |
| Numbers.ParseDigitsThen | src/repositories/db.ts:69 | digits followed by a non-digit parse as the value of the digits |
| Numbers.ParseDecimal | src/repositories/db.ts:69 | `parseInt` inverts the decimal writing of a millisecond count |
| Numbers.YearFrom | src/repositories/db.ts:174 | the calendar year reached from a day count lies between the start year and start plus days, and the day lies inside that year |
| Numbers.MonthFrom | src/repositories/db.ts:174 | the month lies in 1..12 and the day of the month is at least 1 |
| Numbers.IsoAfterYear | src/repositories/db.ts:174 | what `toISOString` writes after the year starts with '-' |
| Numbers.YearFromBound | src/repositories/db.ts:174 | every year has at least 365 days, so the year grows by at most days/365 |
| Numbers.ParseYearText | src/repositories/db.ts:69-174 | a year as `toISOString` writes it, followed by '-', parses as that year |
| Numbers.ParseIsoReadsYear | src/repositories/db.ts:69-174 | `parseInt` of an ISO timestamp is the year of that timestamp, and nothing more |
| Numbers.YearBound | src/repositories/db.ts:174 | the year of any time a `Date` can hold lies between 1970 and 275 942 |
| DatasetDb.AddedAllKeys | src/repositories/db.ts:164-183 | after the pipeline the keys are the old ones plus the directory of every item not held by a string key |
| DatasetDb.AddedAllKeeps | src/repositories/db.ts:164-183 | a key that no item writes, or that holds a string, keeps its record |
| DatasetDb.AddedAllLastWins | src/repositories/db.ts:169-176 | a directory written by several items holds the record of the last of them: hash, structure, status "added" and the stamp |
| DatasetDb.IsoStampReadyAtOnce | src/repositories/db.ts:66-174 | as written: every "added" dataset is ready once the clock passes a few minutes into 1970, whenever it was written |
| DatasetDb.IsoStampReadyAtOnceExample | src/repositories/db.ts:66-174 | a dataset added at 1 700 000 000 000 ms is ready at that same instant |
| DatasetDb.StampedReadyAfterTwoMinutes | src/repositories/db.ts:66-70 | corrected: with a decimal stamp an "added" dataset is ready iff it was written more than two minutes before now |
| DatasetDb.InitialStateRoundTrip | src/repositories/db.ts:185-203 | reading the initial state after saving `s` returns `s` |
| DatasetDb.StructuresOf | src/repositories/db.ts:151-157 | exactly the listed structures of the customer and year |
| DatasetDb.DatasetStore.constructor | src/repositories/db.ts:5 | an empty store, both key spaces empty |
| DatasetDb.DatasetStore.CheckIfDatasetIsNew | src/repositories/db.ts:22-39 | new iff the key is absent or its hash differs; a string key throws |
| DatasetDb.DatasetStore.AddDatasetsToProcessingQueue | src/repositories/db.ts:164-183 | corrected: the records become the pipeline's result, stamped with the decimal millisecond count instead of an ISO date; strings untouched; it fails iff some directory holds a string |
| DatasetDb.DatasetStore.ScanDatasets | src/repositories/db.ts:45-100 | lists each selected hash once, with its parsed structure; a selected record without a structure fails the whole scan |
| DatasetDb.DatasetStore.CheckForReadyToQueueDatasets | src/repositories/db.ts:41-78 | exactly the "added" records older than two minutes by `parseInt` of their stamp, each once; undefined when one lacks a structure |
| DatasetDb.DatasetStore.CheckForQueuedDatasets | src/repositories/db.ts:80-111 | exactly the "queued" records, each once; undefined when one lacks a structure |
| DatasetDb.DatasetStore.ChangeDatasetStatus | src/repositories/db.ts:124-133 | sets the status field alone, creating the hash if needed; fails on a string key |
| DatasetDb.DatasetStore.Del | src/repositories/db.ts:113-122 | the key is gone from both key spaces and nothing else changes |
| DatasetDb.DatasetStore.SetIfAbsent | src/controllers/queueController.ts:41-45 | written iff the key was free; hashes untouched |
| DatasetDb.DatasetStore.SaveInitialState | src/repositories/db.ts:185-193 | the initial-state key holds `s` as a string, whatever it held before |
| DatasetDb.DatasetStore.GetInitialState | src/repositories/db.ts:195-203 | the saved text, null when absent, an error when the key holds a hash |
| DatasetDb.DatasetStore.GetAllDatasetsForYearAndCustomer | src/repositories/db.ts:135-162 | throws iff some string key exists or a record lacks a structure; otherwise exactly the structures of the customer's datasets of that year |
| LegacyIngest.DotExtension | src/index.ts:42 | the extension the entry point tests always starts with a dot |
| LegacyIngest.DotExtensionOfSuffix | src/index.ts:42 | a path ending in ".sld" has ".sld" as its extension |
| LegacyIngest.StylesNeverForwarded | src/index.ts:41-50 | no event on a style file reaches the file watcher, because ".sld" is in none of the three lists |
| LegacyIngest.DirectoryEventsDropped | src/index.ts:35-36 | 'addDir' and 'unlinkDir' never reach the file watcher |
| LegacyIngest.FileEventMeaning | src/watcher/fileWatcher.ts:20-54 | an event touches at most its own path's record; 'add' and 'change' leave it 'new', creating it with an empty hash under the dataset directory when the path classifies; 'unlink' only marks an existing classifying record 'removed' |
| LegacyIngest.UnlinkAsWrittenMissesDatasetFiles | src/watcher/fileWatcher.ts:44-53 | as written, unlinking a file inside a dataset folder is classified by the folder above the file and changes no record |
| LegacyIngest.UnlinkMarksDatasetFile | src/watcher/fileWatcher.ts:44-53 | corrected: unlinking a tracked dataset file marks its record 'removed' |
| LegacyIngest.FileWatcher | src/watcher/fileWatcher.ts:12-60 | corrected: a held lock drops the event and changes nothing; otherwise the records become the event's result (an unlink marks the file's own record) and the lock is released |
| LegacyIngest.DigestText | src/utils/hashDirectory.ts:57-60 | a truthy digest is never the empty string |
| LegacyIngest.RehashEach | src/watcher/changeWatcher.ts:29-56 | each 'new' record either stays as it was or takes its dataset's digest and becomes 'queued'; if nothing throws, every record whose dataset hashes is queued with that digest; a thrown hash names a record of the list |
| LegacyIngest.ChangeWatcher | src/watcher/changeWatcher.ts:12-62 | the lock is deleted whatever happens; a held lock changes no record; records are only rehashed and queued; with the lock and no throwing hash every hashable 'new' record is queued |
| LegacyIngest.HashWithoutExtensions | src/watcher/changeWatcher.ts:33 | as written, `hashDirectory` with an undefined extension list never returns a digest |
| LegacyIngest.UndefinedExtensionsQueueNothing | src/watcher/changeWatcher.ts:33-44 | as written, the watcher leaves every record as it was |
| LegacyIngest.DatasetWithFileThrows | src/watcher/changeWatcher.ts:33 | as written, a dataset folder holding any file makes the hash throw |
| LegacyIngest.WalkGrows | src/utils/hashDirectory.ts:31-45 | a walk only adds to the files it has collected |
| LegacyIngest.WalkFindsMatch | src/utils/hashDirectory.ts:36-43 | a walk that meets a matching file collects at least one file |
| LegacyIngest.DatasetWithMatchDigests | src/utils/hashDirectory.ts:14-60 | with the publishable extensions, a readable dataset folder holding a matching file hashes to a digest |
| LegacyIngest.Control.constructor | src/index.ts:24 | chokidar starts not ready |
| LegacyIngest.Control.OnReady | src/index.ts:27-32 | 'ready' sets the flag |
| LegacyIngest.Control.OnEvent | src/index.ts:33-52 | corrected: a forwarded event under a free lock applies the file watcher's update; anything else changes nothing |
| LegacyIngest.Control.OnChangeTick | src/index.ts:54-56 | corrected: before 'ready' nothing happens; after it the change watcher runs with every publishable extension instead of the undefined `environments.extensions` |
| LegacyIngest.ReadyTickQueuesDatasetWithFile | src/index.ts:54-56 | corrected: once ready and with nothing throwing, a 'new' record whose dataset folder holds a publishable file is queued with its digest |
| LegacyQueue.NewItems | src/services/modificationQueue.ts:36-44 | exactly the batch items whose dataset is new: an absent key or a different stored hash |
| LegacyQueue.AddedAllSnoc | src/repositories/db.ts:169-176 | writing one more item is one more `hSet` after the others |
| LegacyQueue.BatchLastWins | src/services/modificationQueue.ts:32-49 | after a batch, a dataset holds the record of its last new item |
| LegacyQueue.BatchKeepsOthers | src/services/modificationQueue.ts:32-49 | a dataset that no new item names keeps its record, so an unchanged hash never sends a dataset back to "added" |
| LegacyQueue.ModificationQueue.constructor | src/services/modificationQueue.ts:8-9 | an empty queue, not processing |
| LegacyQueue.ModificationQueue.EnqueueDataset | src/services/modificationQueue.ts:11-14 | the item is appended and the flag is unchanged |
| LegacyQueue.ModificationQueue.ProcessQueue | src/services/modificationQueue.ts:25-61 | corrected: a run in progress changes nothing; otherwise the queue empties and the flag ends false; a failing newness check abandons the batch; else exactly the new items are written as "added" |
| LegacyQueue.FileChangeController | src/controllers/fileChangeController.ts:7-48 | an unclassified path, a foreign extension or a throwing hash does nothing; no matching file deletes the dataset; a digest enqueues the dataset with it |
| LegacyQueue.PromotionLeavesNoneReady | src/controllers/queueController.ts:19-29 | after promotion the keys are unchanged, no dataset is ready, every ready one is "queued", and every other keeps its record |
| LegacyQueue.LockKey | src/controllers/queueController.ts:45 | the dataset lock key never clashes with the initial-state key or the dataset's own key |
| LegacyQueue.ControllerWorkPublishes | src/controllers/queueController.ts:64-76 | corrected (createStore): a completed publish makes exactly the six calls in order and leaves the workspace's group holding the new layer, every layer styled "raster" |
| LegacyQueue.ControllerWorkCompletes | src/controllers/queueController.ts:69-76 | corrected: with no failing call a publish completes and the dataset's store exists afterwards, whether or not it existed before |
| LegacyQueue.NewStoreNeverPublishes | src/services/createStore.ts:16-30 | as written: a dataset whose store does not exist yet fails at `createStore` whichever calls succeed, leaves the groups alone and the store still missing, and is set back to "queued", so every later tick fails the same way |
| LegacyQueue.FirstPublishAsWritten | src/controllers/queueController.ts:69-80 | the first publish of `files/acme/2024/raster/d1` on an empty server fails as written with no failing call, and completes with the corrected `createStore` |
| LegacyQueue.Publish | src/controllers/queueController.ts:64-76 | corrected (createStore): the backend calls and the server state are those of the publish specification |
| LegacyQueue.PublishLocked | src/controllers/queueController.ts:61-81 | corrected (createStore): the dataset ends "processed" after a completed publish and "queued" otherwise, with the publish's calls |
| LegacyQueue.ProcessSelected | src/controllers/queueController.ts:45-98 | corrected (createStore): acquired iff the lock key was free; a held lock changes nothing; otherwise it publishes, and saves the tree's hash and deletes the lock unless hashing threw, in which case the lock stays |
| LegacyQueue.LockRoundTrip | src/controllers/queueController.ts:49-91 | taking a free lock, saving the initial state and deleting the lock leaves only the saved state |
| LegacyQueue.ReleaseAfterRun | src/controllers/queueController.ts:82-92 | the initial state is saved and the lock deleted; a throw while hashing skips both |
| LegacyQueue.KeysOf | src/controllers/queueController.ts:26-28 | exactly the keys of the listed datasets |
| LegacyQueue.PromoteOne | src/controllers/queueController.ts:27 | promoting one more key is one status change |
| LegacyQueue.PromoteReady | src/controllers/queueController.ts:25-29 | the listed datasets are set to "queued" and nothing else changes |
| LegacyQueue.QueueController | src/controllers/queueController.ts:18-99 | corrected (createStore): ready datasets are promoted; the first queued one is selected, and is queued after promotion; without its lock nothing more changes; with it the publish runs and the dataset ends processed or queued |

## Left out

- File-system I/O, logging and the `isChokidarReady` / `shouldLog` switches. Only their effect on what gets written is kept.
- Timers: `setInterval` scheduling, the debounce timer in `src/services/modificationQueue.ts:16-23`, the ten-second start-up wait and the `Math.random` back-off delays. Each tick is one method call, and the back-off is the `releasedDuring` parameter.
- Lock TTLs as durations: a lock is held until it is released or until an explicit `FileDb.Store.ExpireLock` step.
- Concurrency: `p-limit`, `Promise.all` and interleaved `await`s. Every tick runs to completion before the next one starts.
- Iteration order of JavaScript objects, sets and Redis key lists: the loops visit keys in an arbitrary order, and their contracts hold for every order.
- Text handling: lower-casing is ASCII-only, glob patterns are prefix or substring tests, and `path.join` normalisation is limited to joining with "/".
- GDAL and OGR commands (`processRaster`, `processVector`, `processAnalysis`, `processVectorFile`): a transform either fails, yields no output, or yields an output path that is a parameter.
- GeoServer REST over axios: an abstract server state (workspaces with their layers, stores, groups and styles) with a call log. The SLD rewrite in `createStyle` depends on xml-js and is not modelled.
- GeoServer name normalisation: `createWorkspace`, `createLayerGroup`, `createStyle`, `createShapefileStore` and `createVectorLayer` lower-case workspace, store, group and layer names and turn spaces into '_' (e.g. `uploader/src/services/createWorkspace.ts:8`, `src/services/createLayerGroup.ts:15-18`); `createStore` and `createLayer` do not. The backend keys workspaces, stores, layers and groups by the names as passed, and normalises only style names. A customer or dataset folder with capitals or spaces is therefore filed under a different name in the model than on the server.
- DatasetDb.DatasetStore.AddDatasetsToProcessingQueue: stamps `lastUpdated` with the decimal millisecond count, the correction of the third finding; the source writes `toISOString()` (`DatasetDb.StampAsWritten`). `LegacyQueue.ModificationQueue.ProcessQueue` inherits it.
- LegacyIngest.Control.OnChangeTick: hashes with every publishable extension, the correction of the sixth finding; the source passes the undefined `environments.extensions`, modelled by `LegacyIngest.HashWithoutExtensions`.
- LegacyIngest.FileWatcher: its unlink marks the file's own record, the correction of the fifth finding; `LegacyIngest.Control.OnEvent` inherits it.
- FsTree.SortByPath: compares paths character by character, while JavaScript's default sort compares UTF-16 code units; the two orders agree on the Basic Multilingual Plane.
- The MD5 and SHA-256 digests are a `hex` parameter. What the model states is which inputs are digested and in which order.
- Jobs.Queues.EnqueueForFileProcessing: the queue keeps every submitted job. bullmq's de-duplication by job id and the consumption of jobs by workers are not modelled.
- The bullmq workers, the Redis client set-up, zod environment parsing, the express server, `testRedis`, `getLocks` and `getAllFiles`: these are plumbing with no decisions of their own.
- `uploader/src/services/removeLayerGroup.ts`, `uploader/src/services/getWorkspaces.ts` and `src/services/processRaster.ts` are not part of this model; their calls are `Backend` operations or a transform.
- The first generation's queue controller takes the raster output path as a parameter.
- The UI (`shipyard/`) and the proxy (`colossus/`) are outside the pipeline.
- LegacyPublish.QueueWatcherLegacy: states which groups are handled, and that GeoServer is untouched when none is. The GeoServer effect of each handled group is stated only per group, by `LegacyPublish.HandleGroupLegacy`, and not across the loop.
- LegacyPublish.HandleGroupLegacy: when `processDataset` cannot get its lock, the "handled" case also allows an unchanged store and server.
- Sweeps.RemoveEach: states which records may be requeued or deleted, and that every record with a structure is deleted when none throws. It does not state the GeoServer calls made for each record, nor exactly which records are requeued.
- Sweeps.RemoveWatcher: stated at the same strength as `Sweeps.RemoveEach`.
- Sweeps.RemoveWatcherLegacy: states which records may be requeued or deleted, but not the GeoServer calls made for each group.
- LegacyQueue.ControllerWorkPublishes, LegacyQueue.Publish, LegacyQueue.PublishLocked, LegacyQueue.ProcessSelected, LegacyQueue.QueueController, LegacyPublish.PublishLegacy and LegacyPublish.LegacyRasterOrder: publish through `createStore` as corrected in the seventh finding, which creates a store that does not exist yet. As written, the first generation's copy throws there for every new store (`LegacyQueue.NewStoreNeverPublishes`).
- LegacyQueue.QueueController: when the lock is acquired, the dataset map is stated only up to whether an entry under the initial-state key survives. That depends on whether hashing the root threw, which the contract does not say.
- GeoServer.Step: a failing call is modelled as its last request failing. For `createStore`, `createShapefileStore` and `createLayerGroup`, that is the post after the old store or group was deleted. A failure of the existence check or of the delete, which leaves the old one in place, is not modelled separately.
- GeoServer.Step: the store deletion uses `?recurse=true`, which also deletes the layers published from that store. The model does not record which store a layer came from, so those layers stay in their workspace until a later call replaces or removes them.
- GeoServer.Step: `createVectorLayer` posts the layer and then PUTs its default style. A failed PUT leaves the layer published, but the model treats every failing `createVectorLayer` as publishing nothing.
- Workflows.StyleGroupSelects: because of the `GeoServer.Step` simplification above, a failed group post is stated as always deleting the old group. A failure that struck before the delete would leave it in place.
- Sweeps.QueueWatcher: states which groups are examined, that only statuses under examined basepaths change, and that GeoServer is untouched when none is examined. It does not state, across the loop, each examined group's end status or GeoServer calls. Those are stated only per group, by `Sweeps.HandleGroup`: raster, points and styles end `done`, or `queued` when the workflow threw, and analysis stays `processing`.
- The `done` branch of the change watcher (`src/watcher/changeWatcher.ts:45-55`) can never run, because every examined record is "new". The model leaves it out and proves that every hashable record becomes "queued".

## Findings

| source | as written | input that shows it | evidently intended | confidence | as-written member | corrected member |
|---|---|---|---|---|---|---|
| src/services/processDataset.ts:18-47 | `getGeoserverNames` returns only the workspace and store names, so `layerGroupName` is undefined. The first `acquireLock(layerGroupName, 60)` calls `replace` on it and throws before the `try`: no dataset is ever transformed or published. | any dataset, e.g. `files/acme/2024/raster/d1` | lock and name the group `<customer>_<year>`, and name layers as the first-generation remove watcher derives them (`<customer>_<year>[_<type>]`) | not executed | LegacyPublish.ProcessDatasetAsWritten | LegacyPublish.LegacySuccessRebuildsGroup |
| src/watcher/queueWatcher.ts:58 | `processDataset(basepath, structure)` passes the basepath string where the structure belongs, so nothing is published | any settled group of queued files | pass the checked structure | not executed | LegacyPublish.AsWrittenArgumentPublishesNothing | LegacyPublish.HandleGroupLegacy |
| src/repositories/db.ts:69-174 | `lastUpdated` is written as an ISO string, and `parseInt` of it reads only the year, so every "added" dataset is ready at once | a dataset added at 1 700 000 000 000 ms and checked at the same instant | ready only two minutes after it was written | not executed | DatasetDb.IsoStampReadyAtOnce | DatasetDb.StampedReadyAfterTwoMinutes |
| uploader/src/watcher/stylesWatcher.ts:41 | the log line interpolates the undeclared `event`. With `shouldLog`, the ReferenceError is swallowed by the catch, and the record is never written | a new, valid style file with `shouldLog` set | log without the event and write the record | not executed | Ingest.StylesLogDropsWrite | Ingest.StylesWatcher |
| src/watcher/fileWatcher.ts:44-53 | unlink classifies the last five segments and then reads the record of `structure.dir`, not of the file | unlink of `files/acme/2024/raster/d1/a.jpg` | mark the file's own record "removed" | not executed | LegacyIngest.UnlinkAsWrittenMissesDatasetFiles | LegacyIngest.UnlinkMarksDatasetFile |
| src/watcher/changeWatcher.ts:33 | `environments.extensions` is undefined, so hashing throws at the first file and no dataset is queued | a "new" record whose dataset folder holds `a.jpg` | hash with the publishable extensions | not executed | LegacyIngest.UndefinedExtensionsQueueNothing | LegacyIngest.ReadyTickQueuesDatasetWithFile |
| src/services/createStore.ts:16-30 | the existence check GETs the coverage store. The axios client rejects the 404 of a store that does not exist yet, and both catches rethrow it, so `createStore` throws for every new store: `queueController` sets the dataset back to "queued" and fails the same way on every later tick | the first publish of `files/acme/2024/raster/d1`, with no request failing | read the 404 as "absent" and create the store, as `uploader/src/services/createWorkspace.ts:18-25` does for workspaces | not executed | LegacyQueue.NewStoreNeverPublishes | LegacyQueue.ControllerWorkCompletes |

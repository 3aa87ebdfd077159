# CustomTerrain tile bookkeeping

A Dafny model of the tile bookkeeping in osgEarth's `osgterrain` engine: the
`CustomTerrain` node, as `src/osgEarthDrivers/engine_osgterrain/CustomTerrain.cpp`
implements it. The model covers:

- the tile table: a map from tile key to tile, with a queue of newly added tiles;
- the family refresh: for each tile, its parent and its four neighbours. Each
  gets an "expected" flag and LOD data looked up in the table;
- the update traversal. It reaps dead tiles into a shutdown list and retries
  their cancellation every frame. For each cancelled tile it erases the table
  entry under that tile's key and, when quick release is on and its draw hook
  is installed, queues the tile for quick GL release. Then it stamps the task services and
  refreshes and services the live tiles;
- the release queue and the one-shot install of the quick-release draw hook;
- the on-demand redraw counter of the event traversal;
- the map of task services: get-or-create by id, with reserved ids for
  elevation (9999) and tile generation (10000);
- the loading-thread count and its split over the layers by loading weight.

Everything runs sequentially. The terrain is a class whose fields the methods
update in place (`Terrain.CustomTerrain`). Tiles and task services are classes
too, reduced to the fields the terrain reads or writes. Calls into tiles or the
viewer whose effect cannot be seen are appended to an `events` log.

Files:
- `grid.dfy`: tile keys, directions, the grid profile and the expected rules.
- `tiles.dfy`: tiles, family slots and `FamilyOf`, the family a refresh must
  produce.
- `loading.dfy`: the loading policy, thread counts, weights and the thread plan.
- `on_demand.dfy`: the redraw counter.
- `task_service.dfy`: task services and the request total.
- `terrain.dfy`: the terrain node.

## Model

All sources are in `src/osgEarthDrivers/engine_osgterrain/CustomTerrain.cpp` unless the path says otherwise.

| member | source | states |
|---|---|---|
| Grid.ExpectedFlags | src/osgEarthDrivers/engine_osgterrain/CustomTerrain.cpp:225-327 | The parent is always expected. West iff x > 0 or X wraps; east iff x < countX - 1 or X wraps; north iff y < countY - 1; south iff y > 0. North and south ignore the wrap. |
| Grid.ExpectedWithZeroCount | src/osgEarthDrivers/engine_osgterrain/CustomTerrain.cpp:279-303 | With a tile count of zero the unsigned `count - 1` wraps, so north (and east) are expected for every coordinate below the maximum. |
| Grid.CornerOfFourByFour | src/osgEarthDrivers/engine_osgterrain/CustomTerrain.cpp:225-327 | Corner tile (0, 0) of a 4 by 4 level: parent, north and east are expected; west and south are not; west is when X wraps. |
| Tiles.ImageLODsKeys | src/osgEarthDrivers/engine_osgterrain/CustomTerrain.cpp:242-249 | The image-LOD map built from a relative's colour layers holds exactly the uids of its transparent layers. |
| Tiles.ImageLODsValues | src/osgEarthDrivers/engine_osgterrain/CustomTerrain.cpp:242-249 | Each uid maps to the LOD of the last transparent layer carrying it. |
| Tiles.FamilySlots | src/osgEarthDrivers/engine_osgterrain/CustomTerrain.cpp:231-347 | Each family slot holds the relative's key and the expected flag. If the relative is absent from the table: elevation LOD -1 and an empty image map. Otherwise: that tile's elevation LOD and its transparent-layer LODs. |
| Terrain.CustomTerrain.FillSlot | src/osgEarthDrivers/engine_osgterrain/CustomTerrain.cpp:232-250 | One slot is reset, then looked up in the table in a loop over the colour layers. It ends equal to the table lookup; the other slots are unchanged. |
| Terrain.CustomTerrain.FillDirection | src/osgEarthDrivers/engine_osgterrain/CustomTerrain.cpp:225-299 | The slot of one direction ends equal to that direction's relative in the table (grid counts, wrap and key functions as the profile gives them). Other slots are unchanged. |
| Terrain.CustomTerrain.RefreshFamily | src/osgEarthDrivers/engine_osgterrain/CustomTerrain.cpp:218-348 | The five-slot array ends equal to `FamilyOf` of the key over the current table, whichever lock flag is given. |
| Terrain.CustomTerrain.GetCustomTile | src/osgEarthDrivers/engine_osgterrain/CustomTerrain.cpp:183-198 | Returns the entry under the key when there is one and null otherwise, whatever the lock flag. |
| Terrain.CustomTerrain.GetCustomTiles | src/osgEarthDrivers/engine_osgterrain/CustomTerrain.cpp:201-208 | The output is a snapshot of the table: exactly its tiles, one per entry, no repeats. |
| Terrain.CustomTerrain.RegisterTile | src/osgEarthDrivers/engine_osgterrain/CustomTerrain.cpp:364-372 | The table maps the new tile's key to it, replacing an old entry, and other keys are unchanged. The tile is appended to the add-queue. |
| TaskServices.SumRequestsTake | src/osgEarthDrivers/engine_osgterrain/CustomTerrain.cpp:375-384 | The request total over the services does not depend on the order the services are visited in. |
| Terrain.CustomTerrain.NumTasksRemaining | src/osgEarthDrivers/engine_osgterrain/CustomTerrain.cpp:375-384 | The accumulation loop returns the sum of the outstanding requests of all services. |
| Terrain.CustomTerrain.constructor | src/osgEarthDrivers/engine_osgterrain/CustomTerrain.cpp:115-161 | The terrain keeps the map info, policy and quick-release flag it is given. Empty table, queues and service map; hook not installed; redraw counter 2; loading threads as `LoadingThreadCount` chooses. |
| Loading.PerCoreThreads | src/osgEarthDrivers/engine_osgterrain/CustomTerrain.cpp:148 | `(int) max(1.0, perCore * processors)` is at least one and the floor of the product when that is at least one. |
| Loading.LoadingThreadCount | src/osgEarthDrivers/engine_osgterrain/CustomTerrain.cpp:123-150 | Standard mode gets 0. Otherwise the environment override exactly; failing that, the configured count, raised to 1 if it is below 1; failing that, `PerCoreThreads` of the per-processor factor and the processor count. |
| Loading.DefaultCounts | src/osgEarth/TerrainOptions.cpp:28-33 | With the policy defaults: 4 loading threads per processor, and half a compile thread per processor but at least one. |
| Loading.CompileThreadCount | src/osgEarthDrivers/engine_osgterrain/CustomTerrain.cpp:786-788 | The tile-generation thread count is the configured compile count, raised to 1 if it is below 1; failing that, `PerCoreThreads` of the per-processor compile factor and the processor count. |
| Terrain.CustomTerrain.InstallQuickReleaseCallback | src/osgEarthDrivers/engine_osgterrain/CustomTerrain.cpp:393-401 | The hook goes in front of the camera's hooks only if quick release is on, it is not yet installed and a camera exists. The flag then records it, so it is installed at most once. |
| Terrain.DeadLiveCount | src/osgEarthDrivers/engine_osgterrain/CustomTerrain.cpp:412-422 | The dead and live parts of a snapshot hold each tile exactly as often as the snapshot does. |
| Terrain.DeadLiveSound | src/osgEarthDrivers/engine_osgterrain/CustomTerrain.cpp:412-422 | The dead part holds only tiles with reference count 1 that have been traversed; the live part holds only the others. |
| Terrain.DeadLiveComplete | src/osgEarthDrivers/engine_osgterrain/CustomTerrain.cpp:415-421 | A snapshot tile goes to the shutdown list iff it is dead, and stays in the working copy iff it is not. |
| Terrain.DeadLiveDistinct | src/osgEarthDrivers/engine_osgterrain/CustomTerrain.cpp:412-422 | A snapshot without repeats splits into two parts without repeats. |
| Terrain.CustomTerrain.CollectDeadTiles | src/osgEarthDrivers/engine_osgterrain/CustomTerrain.cpp:412-422 | The loop appends the snapshot's dead tiles to the shutdown list and returns its live tiles, both in snapshot order. |
| Terrain.RetainedCancelledPartition | src/osgEarthDrivers/engine_osgterrain/CustomTerrain.cpp:431-448 | The sweep splits the shutdown list: a tile stays iff its cancellation fails and leaves iff it succeeds, each exactly as often as it was listed. |
| Terrain.EraseByKeyDropsReplacement | src/osgEarthDrivers/engine_osgterrain/CustomTerrain.cpp:442 | Erasing by key (as written) removes a tile registered under the same key while the stale tile waited on the shutdown list. |
| Terrain.EraseKeysDropsReplacement | src/osgEarthDrivers/engine_osgterrain/CustomTerrain.cpp:442 | The sweep as written leaves no cancelled tile in the table and changes no entry it keeps. But it also drops a tile that is not on the list, when that tile was filed under a cancelled tile's key. |
| Terrain.EraseTileKeepsOthers | src/osgEarthDrivers/engine_osgterrain/CustomTerrain.cpp:442 | The corrected erase removes the cancelled tile's own entry and keeps every other entry as it was. |
| Terrain.EraseTilesKeepsOthers | src/osgEarthDrivers/engine_osgterrain/CustomTerrain.cpp:442 | The corrected sweep leaves no cancelled tile in the table and keeps every entry whose tile is not on the list, unchanged. |
| Terrain.SweepsAgreeWithoutReplacement | src/osgEarthDrivers/engine_osgterrain/CustomTerrain.cpp:442 | When no cancelled tile's key has been refiled with another tile, erasing by key and erasing by tile give the same table. |
| Terrain.EraseByKeyStep | src/osgEarthDrivers/engine_osgterrain/CustomTerrain.cpp:431-448 | Erasing one more cancelled tile's key equals erasing the keys of the enlarged set of cancelled tiles. |
| Terrain.EraseTileStep | src/osgEarthDrivers/engine_osgterrain/CustomTerrain.cpp:431-448 | Erasing one more cancelled tile equals erasing the enlarged set of cancelled tiles. |
| Terrain.Sweep | src/osgEarthDrivers/engine_osgterrain/CustomTerrain.cpp:431-448 | One pass over the shutdown list, as the update traversal runs it. It keeps the tiles that fail to cancel and collects those that cancel, both in order. The table loses every entry under a cancelled tile's key. |
| Terrain.SweepCorrected | src/osgEarthDrivers/engine_osgterrain/CustomTerrain.cpp:431-448 | The same pass with the corrected erase: the same kept and collected tiles, and the table loses only the entries that hold a cancelled tile. |
| Terrain.CustomTerrain.ShutDownDeadTiles | src/osgEarthDrivers/engine_osgterrain/CustomTerrain.cpp:427-449 | After the sweep the shutdown list holds the uncancelled tiles. The table has lost every entry under a cancelled tile's key. Cancelled tiles join the release queue iff quick release is on and its hook is installed. |
| Terrain.CustomTerrain.ReleaseGLObjectsForTiles | src/osgEarthDrivers/engine_osgterrain/CustomTerrain.cpp:104-113 | The drain releases the queued tiles oldest first, once each, and leaves the queue empty. |
| Terrain.CustomTerrain.BroadcastFrameStamp | src/osgEarthDrivers/engine_osgterrain/CustomTerrain.cpp:453-459 | Every task service gets the frame number as its stamp; thread counts and request counts are unchanged. |
| Terrain.ServiceEventsOnlyFor | src/osgEarthDrivers/engine_osgterrain/CustomTerrain.cpp:474-483 | Exactly the live tiles that use layer requests are serviced: elevation requests with the frame's stamp, then completed requests. |
| Terrain.CustomTerrain.UpdateLiveTile | src/osgEarthDrivers/engine_osgterrain/CustomTerrain.cpp:469-483 | One live tile gets its family refreshed from the table and, when it uses layer requests, its requests serviced. |
| Terrain.CustomTerrain.RefreshLiveTiles | src/osgEarthDrivers/engine_osgterrain/CustomTerrain.cpp:463-485 | Every live tile's family equals `FamilyOf` over the table, and the service calls are logged in order. Any other family array handed in, none of them a live tile's, is left untouched. |
| Terrain.CustomTerrain.LiveTilesOwnFamilies | src/osgEarthDrivers/engine_osgterrain/CustomTerrain.cpp:467-472 | The live tiles of a snapshot have five-slot family arrays of the table, no two of them shared, so refreshing one family leaves the others alone. |
| Terrain.CustomTerrain.ReapDeadTiles | src/osgEarthDrivers/engine_osgterrain/CustomTerrain.cpp:389-449 | Hook install, snapshot, collection and sweep together. Returns the snapshot's live tiles. The shutdown list and release queue are the old list plus the dead tiles, swept against the cancellations. The table loses the entries under the cancelled tiles' keys. No live tile shares its family array with a dead table tile. |
| Terrain.CustomTerrain.UpdateTraversal | src/osgEarthDrivers/engine_osgterrain/CustomTerrain.cpp:389-497 | The update traversal reaps dead tiles as ReapDeadTiles states. It stamps every service and leaves the service map and counts unchanged. Each live tile's family then equals `FamilyOf` over the swept table, and the requests of the layer-request tiles are serviced. The family arrays of the dead table tiles are left untouched. |
| Terrain.CustomTerrain.CullTraversal | src/osgEarthDrivers/engine_osgterrain/CustomTerrain.cpp:499-516 | Outside standard mode every snapshot tile services its image requests with the frame's stamp; in standard mode nothing happens. |
| OnDemand.StepBounds | src/osgEarthDrivers/engine_osgterrain/CustomTerrain.cpp:527-539 | The counter stays within 0..2. With tasks outstanding a redraw is asked for and the counter is left at 1. With none, a redraw is asked for iff the counter is positive, and it then counts down. |
| OnDemand.IdleDecay | src/osgEarthDrivers/engine_osgterrain/CustomTerrain.cpp:527-539 | From counter value d, n idle traversals ask for min(d, n) redraws and leave max(d - n, 0). |
| OnDemand.TwoMoreRedraws | src/osgEarthDrivers/engine_osgterrain/CustomTerrain.cpp:527-539 | From the initial or reset value 2 with no tasks, exactly two more redraws happen, then none. |
| Terrain.CustomTerrain.EventTraversal | src/osgEarthDrivers/engine_osgterrain/CustomTerrain.cpp:518-540 | A redraw is requested iff the counter, reset to 2 when requests are outstanding, is positive. The counter then moves as `DelayAfter` says and the redraw is logged. |
| Terrain.CustomTerrain.CreateTaskService | src/osgEarthDrivers/engine_osgterrain/CustomTerrain.cpp:723-737 | An existing id returns its service and leaves the map unchanged. A missing id gets exactly one new entry: a fresh service with the given name and thread count. |
| Terrain.CustomTerrain.GetTaskService | src/osgEarthDrivers/engine_osgterrain/CustomTerrain.cpp:739-749 | Returns the service under the id, or null iff there is none. |
| Terrain.CustomTerrain.GetOrCreate | src/osgEarthDrivers/engine_osgterrain/CustomTerrain.cpp:757-761 | The lookup-then-create pattern is idempotent: an existing service is returned as is, otherwise one is created. |
| Terrain.CustomTerrain.GetElevationTaskService | src/osgEarthDrivers/engine_osgterrain/CustomTerrain.cpp:754-763 | The elevation service lives under id 9999 and is created as "elevation" with one thread. |
| Terrain.CustomTerrain.GetImageryTaskService | src/osgEarthDrivers/engine_osgterrain/CustomTerrain.cpp:766-778 | A layer's service lives under its uid and is created as "layer <uid>" with one thread. |
| Terrain.CustomTerrain.GetTileGenerationTaskService | src/osgEarthDrivers/engine_osgterrain/CustomTerrain.cpp:780-793 | The tile-generation service lives under id 10000 and is created as "tilegen" with the policy's compile thread count. |
| Terrain.MaxElevationWeight | src/osgEarthDrivers/engine_osgterrain/CustomTerrain.cpp:799-805 | The loop computes the elevation weight, the maximum (not the sum) of the elevation-layer weights, starting from zero. |
| Loading.ElevationWeight | src/osgEarthDrivers/engine_osgterrain/CustomTerrain.cpp:799-805 | The elevation weight is at least zero and every layer's weight. It is zero or one of the weights. |
| Terrain.SumImageWeights | src/osgEarthDrivers/engine_osgterrain/CustomTerrain.cpp:807-811 | The loop computes the sum of the image-layer weights. |
| Loading.Round | src/osgEarthDrivers/engine_osgterrain/CustomTerrain.cpp:818 | Rounding lands within one half of its argument and keeps its sign. It lands strictly less than one half towards zero, so an exact half goes away from zero. |
| Loading.ShareBounds | src/osgEarthDrivers/engine_osgterrain/CustomTerrain.cpp:826 | A layer of weight zero gets no thread. A share is within half a thread of its exact proportion N * w / total. |
| Loading.ThreadPlanShares | src/osgEarthDrivers/engine_osgterrain/CustomTerrain.cpp:815-829 | With distinct layer uids the plan covers the elevation service (when its weight is positive) and every image layer. Each gets round(N * w / total). |
| Loading.ThreadPlanSplit | src/osgEarthDrivers/engine_osgterrain/CustomTerrain.cpp:815-829 | The plan is the elevation entry overridden by the image-layer entries, as the two phases apply them. |
| Loading.ThreadPlanStep | src/osgEarthDrivers/engine_osgterrain/CustomTerrain.cpp:823-829 | The plan for one more layer gives that layer its share. |
| Loading.RoundedSharesCanExceedBudget | src/osgEarthDrivers/engine_osgterrain/CustomTerrain.cpp:826 | With two threads and three layers of equal weight, each layer gets one thread: three in all, more than the budget. |
| Loading.OneToThreeSplit | src/osgEarthDrivers/engine_osgterrain/CustomTerrain.cpp:826 | Eight threads over weights one and three give two and six. |
| Terrain.CustomTerrain.ResizeElevationService | src/osgEarthDrivers/engine_osgterrain/CustomTerrain.cpp:815-821 | Only when the elevation weight is positive is the elevation service (created if missing) set to its share. Other services keep their counts. Every service keeps its stamp and request count; a created one is "elevation" with no stamp and no requests. |
| Terrain.CustomTerrain.ResizeImageryService | src/osgEarthDrivers/engine_osgterrain/CustomTerrain.cpp:828 | The layer's service, created if missing, gets the given count. Every other entry keeps its service and count. Every service keeps its stamp and request count; a created one is "layer <uid>" with no stamp and no requests. |
| Terrain.CustomTerrain.ApplyShare | src/osgEarthDrivers/engine_osgterrain/CustomTerrain.cpp:823-829 | One layer step keeps the plan invariant: the services are the original ones with the plan-so-far, plus this layer's share, applied. Stamps and request counts are kept, and each service added is a new image-layer service. |
| Terrain.CustomTerrain.ResizeImageryServices | src/osgEarthDrivers/engine_osgterrain/CustomTerrain.cpp:823-829 | After the loop over the image layers, every layer's service (created if missing) has its share, the last layer winning on a repeated uid. No other count changes. Stamps and request counts are kept; every created service is "layer <uid>" with no stamp and no requests. |
| Terrain.CustomTerrain.UpdateTaskServiceThreads | src/osgEarthDrivers/engine_osgterrain/CustomTerrain.cpp:796-830 | The services gain the ids of the thread plan, and existing ids keep their services. Every planned id has its planned count, and every other service keeps its count. Stamps and request counts are kept. A created service is a fresh object: "elevation" (id 9999 with a positive elevation weight) or "layer <uid>", with no stamp and no requests. |

## Left out

- Locks (`_tilesMutex`, `_taskServiceMutex`) and all concurrency: every operation is one sequential step.
- The base `osgTerrain::Terrain::traverse` call, the scene graph and the `dynamic_cast`s of the visitor.
- The draw callback's dispatch through `NestingDrawCallback`. The callback chain is a list of hooks with the quick-release hook in front, and running it is not modelled.
- The camera lookup `findFirstParentOfType` is an optional camera passed in.
- Tile internals (`cancelRequests`, `servicePending*Requests`, `serviceCompletedRequests`, `releaseGLObjects`): cancellation is a parameter, the set of tiles whose cancellation succeeds this frame. The service and release calls are logged events.
- The null test on a shutdown-list entry (line 434): tiles in the model are never null.
- TileKey internals (`createParentKey`, `createNeighborKey`) and the profile's `getNumTiles`: these are functions carried by the grid profile.
- TaskService internals: a service is its name, thread count, stamp and request count. `getNumRequests` reads the request count.
- Reference counting is an integer field on the tile, changed only by the scene graph, which is not part of this model. The count ignores the terrain's own references: the working copy, the shutdown list, the add-queue and the release queue. In the source these hold reference-counted handles (`i->get()` at lines 414 and 433, `.get()` at 620) and may raise the count, but the header that declares them is not part of this model. So in the model a dead tile whose cancellation fails is collected again at every update; the shutdown list holds it more than once, and it reaches the release queue once per copy.
- Terrain.CustomTerrain.ShutDownDeadTiles: cancellation outcomes are per tile, not per list entry. `cancelOk` is one set for the whole sweep (also for `ReapDeadTiles` and `UpdateTraversal`), so every copy of a tile listed more than once gets the same answer. The source calls `cancelRequests()` once per entry (line 434), and calls on one tile could differ.
- `getenv`/`atoi` of the thread override and `GetNumberOfProcessors` are parameters of the constructor. The processor count is also a parameter of `GetTileGenerationTaskService`, because the source asks for it again at line 788.
- Iteration order of the table and of the service map: snapshots and service loops take the keys in an unspecified order. The snapshot is specified by its contents.
- Floating point: weights and per-core factors are reals, and `osg::round` rounds halves away from zero.
- Terrain.CustomTerrain.UpdateTaskServiceThreads: requires a nonzero total weight whenever a share is computed. With every weight zero the source divides zero by zero.
- Terrain.CustomTerrain.NumTasksRemaining: the unsigned 32-bit total and its conversion to `int` in the event traversal are unbounded here. A wrapped or negative total is not modelled.
- No claim that the shares sum to at most the thread budget: `RoundedSharesCanExceedBudget` shows they can exceed it.
- The erase-while-iterating loops over the working copy and the shutdown list are written as building the sequence that remains: `CollectDeadTiles` and `Sweep`.
- Some loop steps of `traverse` and `updateTaskServiceThreads` are separate methods: the dead-tile sweep (`Sweep`), the weight loops, the per-direction family fill and the per-layer share. Each keeps the source's order.
- The five direction blocks of `refreshFamily` are one method, `FillDirection`, called for parent, west, north, east and south in turn.
- A tile's `useLayerRequests`, key and family array are fixed for the tile's life. Terrain.CustomTerrain.RegisterTile requires the new tile's family array to be its own: five slots, and not held by an entry under another key. In the source every tile embeds its own family array.
- The revision counter (`incrementRevision`/`getRevision`), the `OE_INFO` logging and the `#if 0` code (the old `traverse` and the terrain callbacks) are not modelled.
- TerrainOptions.cpp beyond the loading-policy defaults at lines 28-33: it only wraps a configuration class that is not part of this model. The defaults of 4 loading threads and 2 compile threads are taken as unset optional values, so only the per-core factors apply.
- The add-queue is only appended to (`RegisterTile`). The only code in this file that drains `_tilesToAdd` is the disabled old `traverse` (lines 616-622), so in the active code the queue is never drained.

## Findings

| source | as written | input that shows it | evidently intended | confidence | as-written member | corrected member |
|---|---|---|---|---|---|---|
| src/osgEarthDrivers/engine_osgterrain/CustomTerrain.cpp:442 | `_tiles.erase( tile->getKey() )` erases whatever entry sits under the cancelled tile's key | Tile A is dead and on the shutdown list, but its cancellation fails. A new tile B is registered under A's key. A later update cancels A and erases B from the table | Erase the entry only while it still holds the cancelled tile | medium, not executed | Terrain.EraseKeysDropsReplacement | Terrain.EraseTilesKeepsOthers |

The update traversal follows the code as written: `Terrain.Sweep`, and through it `ShutDownDeadTiles`, `ReapDeadTiles` and `UpdateTraversal`, erase by key. `Terrain.EraseByKeyDropsReplacement` shows the same loss for a single erase. `Terrain.SweepCorrected` is the sweep with the corrected erase. `Terrain.SweepsAgreeWithoutReplacement` shows that the two differ only when a cancelled tile's key has been refiled with another tile.

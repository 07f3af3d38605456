# Endless terrain streaming, modelled in Dafny

This project models the core of a Unity procedural-terrain generator:

- the chunk streamer (`EndlessTerrain`). It keeps a dictionary of terrain chunks keyed by chunk coordinate. When the viewer has moved far enough, it hides the chunks shown last time. It then visits the square window of chunk coordinates around the viewer, updating each stored chunk or creating a missing one.
- the per-chunk level-of-detail (LOD) state machine (`TerrainChunk`, `LODMesh`). A chunk does nothing until its map data arrives. It is shown exactly when it is within the last level's distance. It picks the first level whose distance threshold the viewer does not exceed. It swaps to that level's cached mesh, or requests the mesh once. At the finest level it binds or requests the collision mesh the same way.
- the map generator (`MapGenerator`):
  - the chunk size it announces;
  - the falloff and region classification that turn a noise grid into a height grid and a row-major colour array;
  - the frame update that drains the two result queues filled by worker threads.
- the noise settings asset (`NoiseData`), whose editor hook clamps `lacunarity` and `octaves`.

Layout (one module per file):

| file | module | contents |
|---|---|---|
| `wrappers.dfy` | `Wrappers` | `Option` |
| `classification.dfy` | `Classification` | clamp, falloff adjustment, the early-stopping region scan and its properties |
| `map_generator.dfy` | `MapGen` | `mapChunkSize`, row-major indexing, the queue drain, and class `MapGenerator` |
| `noise_data.dfy` | `NoiseSettings` | class `NoiseData` and its `OnValidate` |
| `chunk_logic.dfy` | `ChunkLogic` | the move gate, LOD choice, collider level, and one chunk update as functions on a `ChunkState` value |
| `chunk_properties.dfy` | `ChunkProperties` | idempotence of an update; each level's mesh is requested at most once over any run of events |
| `streamer_logic.dfy` | `StreamerLogic` | one refresh pass as a function on a `World` value (chunk states by coordinate, visible list, request log), and its properties |
| `endless_terrain.dfy` | `Terrain` | classes `TerrainChunk` and `EndlessTerrain`, their methods and loops |

How the imperative code is tied to the value-level specification:
- A `TerrainChunk` holds the chunk's fields, and its ghost `State()` reads them as a `ChunkState`.
- `EndlessTerrain` holds the dictionary as a `map<Coord, TerrainChunk>`, the visible list as a `seq<TerrainChunk>`, and a log of requests made to the map generator.
- A ghost map `chunkStates` records each stored chunk's state. `Valid()` ties it to the objects.
- `Abstract()` reads the streamer as a `World`. The methods that make a whole pass or handle a callback state the new `Abstract()` as a function of the old one. The small helper methods state the fields they change instead: `HideListedChunks`, `HideChunk`, `StoreState`, `Enlist` and `LogMeshRequests`.
- The lemmas of `StreamerLogic` and `ChunkProperties` state what those functions guarantee.

## Model

| member | source | states |
|---|---|---|
| `ChunkLogic.SmallMoveNeverRefreshes` | Assets/Scripts/EndlessTerrain.cs:44 | a viewer that moved at most 17.5 units on each axis since the last refresh does not pass the squared-distance gate of 25² |
| `ChunkLogic.LargeMoveRefreshes` | Assets/Scripts/EndlessTerrain.cs:44 | a move of more than 25 units along either axis always passes the gate |
| `Terrain.EndlessTerrain.Update` | Assets/Scripts/EndlessTerrain.cs:40-49 | stores the new viewer position; refreshes exactly when the squared move since `viewerPositionOld` exceeds 25·25 = 625, and only then sets `viewerPositionOld`; otherwise the streamer is unchanged; every stored coordinate keeps its chunk object |
| `ChunkLogic.RoundToInt` | Assets/Scripts/EndlessTerrain.cs:34 | the result is within 0.5 of the argument, and a tie goes to the even integer (Unity's `Mathf.RoundToInt`) |
| `Terrain.EndlessTerrain.Start` | Assets/Scripts/EndlessTerrain.cs:29-38 | chunk size is `mapChunkSize - 1`; window radius is the rounded last-level threshold divided by the chunk size; the first refresh runs around chunk (0, 0) on an empty streamer |
| `Terrain.EndlessTerrain.UpdateVisibleChunks` | Assets/Scripts/EndlessTerrain.cs:51-73 | the new streamer is exactly `Refresh` of the old one around the viewer's chunk; every coordinate stored before keeps the same chunk object; viewer positions untouched |
| `Terrain.EndlessTerrain.HideVisibleChunks` | Assets/Scripts/EndlessTerrain.cs:53-56 | every chunk on the visible list is hidden (and nothing else), then the list is empty; dictionary and request log unchanged |
| `Terrain.EndlessTerrain.HideListedChunks` | Assets/Scripts/EndlessTerrain.cs:53-55 | the loop hides the listed chunks in order: the chunk states become `HideListed` of the old states and the listed coordinates |
| `Terrain.EndlessTerrain.HideChunk` | Assets/Scripts/EndlessTerrain.cs:54 | only the given chunk's state changes, to the same state with `visible` false |
| `Terrain.EndlessTerrain.ClearVisibleList` | Assets/Scripts/EndlessTerrain.cs:56 | the visible list becomes empty and nothing else changes |
| `StreamerLogic.HideListedSpec` | Assets/Scripts/EndlessTerrain.cs:53-55 | after the hide pass a stored chunk is hidden exactly when its coordinate is on the list, and is otherwise unchanged, whatever the list's order or repetitions |
| `StreamerLogic.HideListedHidesAll` | Assets/Scripts/EndlessTerrain.cs:53-56 | when every showing chunk is listed, hiding the listed chunks and clearing the list is the same as hiding every chunk |
| `StreamerLogic.HideAll` | Assets/Scripts/EndlessTerrain.cs:53-56 | the first half of a refresh keeps every key and the request log; every chunk ends hidden, and no other part of a chunk changes; the list is empty, so a chunk is showing iff it is listed |
| `StreamerLogic.HideListed` | Assets/Scripts/EndlessTerrain.cs:53-55 | the hide pass never adds or removes a dictionary key |
| `Terrain.EndlessTerrain.ScanWindow` | Assets/Scripts/EndlessTerrain.cs:61-72 | the outer loop's effect is `Scan` of the window cells in row order; no chunk object leaves the dictionary |
| `Terrain.EndlessTerrain.ScanRow` | Assets/Scripts/EndlessTerrain.cs:62-71 | the inner loop extends the scan by row `yOffset`, left to right |
| `Terrain.EndlessTerrain.ScanCell` | Assets/Scripts/EndlessTerrain.cs:63-69 | one inner-loop pass extends the scan by cell (cx + xOffset, cy + yOffset) |
| `Terrain.EndlessTerrain.VisitCell` | Assets/Scripts/EndlessTerrain.cs:65-69 | a stored coordinate's chunk is updated, a missing one is created: the result is `Visit` of the old streamer; existing keys keep their objects and any new object is fresh |
| `Terrain.EndlessTerrain.UpdateStoredChunk` | Assets/Scripts/EndlessTerrain.cs:66 | the stored chunk runs its update; the streamer becomes `Visit` of the old one and the dictionary is unchanged |
| `Terrain.EndlessTerrain.CreateChunk` | Assets/Scripts/EndlessTerrain.cs:68 | a fresh chunk in the initial state is stored under the new coordinate, the visible list is unchanged, and exactly one map-data request for that coordinate is logged |
| `Terrain.EndlessTerrain.AddChunk` | Assets/Scripts/EndlessTerrain.cs:68 | the dictionary gains exactly the new key; its state is `InitialState`; one `MapDataRequest` is appended to the log |
| `Terrain.EndlessTerrain.FinishUpdate` | Assets/Scripts/EndlessTerrain.cs:150-173 | after a chunk update, its new state is recorded, it joins the visible list iff the update listed it, and its mesh requests are logged in order |
| `Terrain.EndlessTerrain.Enlist` | Assets/Scripts/EndlessTerrain.cs:170 | the visible list gains the chunk at its end iff `listed`, and only stored chunks are on it |
| `Terrain.EndlessTerrain.LogMeshRequests` | Assets/Scripts/EndlessTerrain.cs:212 | one `MeshDataRequest` per requested level, in order, is appended to the log |
| `Terrain.EndlessTerrain.OnChunkMapData` | Assets/Scripts/EndlessTerrain.cs:123-132 | the map-data callback of a stored chunk yields `DeliverMapData` of the old streamer and keeps every showing chunk listed |
| `Terrain.EndlessTerrain.OnChunkMesh` | Assets/Scripts/EndlessTerrain.cs:203-208 | a level's mesh callback yields `DeliverMesh` of the old streamer and keeps every showing chunk listed |
| `StreamerLogic.RefreshSpec` | Assets/Scripts/EndlessTerrain.cs:51-73 | after a refresh every window coordinate is stored and no key is removed; a chunk stored before is hidden and, inside the window, updated once; a new chunk is in the initial state with exactly one map-data request; a chunk is showing iff it is on the visible list; the log only grows, by exactly those requests |
| `StreamerLogic.WindowCellsSpec` | Assets/Scripts/EndlessTerrain.cs:61-63 | the nested loops visit exactly the cells with \|dx\|, \|dy\| ≤ radius, each once |
| `StreamerLogic.RowsSpec` | Assets/Scripts/EndlessTerrain.cs:61-63 | the first m rows hold exactly the cells of rows -k .. -k+m-1 inside the window, without repetition |
| `StreamerLogic.ScanChunks` | Assets/Scripts/EndlessTerrain.cs:61-72 | scanning distinct cells stores a chunk at each of them and keeps all other keys; each stored chunk in the scan is updated once, each new one is in the initial state, others are unchanged |
| `StreamerLogic.ScanListed` | Assets/Scripts/EndlessTerrain.cs:170 | only scanned chunks join the visible list |
| `StreamerLogic.ScanLogGrows` | Assets/Scripts/EndlessTerrain.cs:61-72 | the scan only appends to the request log |
| `StreamerLogic.ScanMapRequests` | Assets/Scripts/EndlessTerrain.cs:65-69 | the scan logs exactly one map-data request per newly created chunk and no other |
| `StreamerLogic.ScanMeshRequests` | Assets/Scripts/EndlessTerrain.cs:65-66 | the scan logs, for each stored chunk, exactly the mesh requests of its one update |
| `StreamerLogic.ScanKeepsShownIffListed` | Assets/Scripts/EndlessTerrain.cs:170-173 | starting from a state where showing ⟺ listed, a scan of unlisted distinct cells keeps showing ⟺ listed |
| `StreamerLogic.MeshRequestsCounts` | Assets/Scripts/EndlessTerrain.cs:210-213 | the logged mesh requests name the chunk and each requested level as often as it was requested, and no map data |
| `StreamerLogic.RefreshOutcome` | Assets/Scripts/EndlessTerrain.cs:53-69 | a chunk outside the window ends hidden and requests nothing |
| `StreamerLogic.RefreshOutcomeIsChunkUpdate` | Assets/Scripts/EndlessTerrain.cs:53-69 | inside the window a refresh requests exactly what the chunk's own update requests and leaves its mesh slots the same, so the per-chunk request lemmas cover refreshes |
| `StreamerLogic.AfterUpdateKeepsShownAreListed` | Assets/Scripts/EndlessTerrain.cs:170-173 | an update that lists a chunk whenever it leaves it showing keeps every showing chunk listed |
| `StreamerLogic.VisitKeepsShownAreListed` | Assets/Scripts/EndlessTerrain.cs:65-69 | one window cell keeps every showing chunk listed |
| `StreamerLogic.MapDataKeepsShownAreListed` | Assets/Scripts/EndlessTerrain.cs:123-132 | the map-data callback keeps every showing chunk listed |
| `StreamerLogic.MeshKeepsShownAreListed` | Assets/Scripts/EndlessTerrain.cs:203-208 | a mesh callback keeps every showing chunk listed |
| `StreamerLogic.Visit` | Assets/Scripts/EndlessTerrain.cs:65-69 | every stored chunk keeps one mesh slot per detail level |
| `StreamerLogic.Scan` | Assets/Scripts/EndlessTerrain.cs:61-72 | same invariant over a sequence of cells |
| `StreamerLogic.Refresh` | Assets/Scripts/EndlessTerrain.cs:51-73 | same invariant over a whole refresh |
| `StreamerLogic.DeliverMapData` | Assets/Scripts/EndlessTerrain.cs:123-132 | same invariant for the map-data callback |
| `StreamerLogic.DeliverMesh` | Assets/Scripts/EndlessTerrain.cs:203-208 | same invariant for a mesh callback |
| `Terrain.TerrainChunk.constructor` | Assets/Scripts/EndlessTerrain.cs:93-121 | a new chunk is hidden, has no map data, `previousLODIndex` -1, one empty, unrequested mesh slot per detail level, and its collision slot is the last level flagged `useForCollider` |
| `ChunkLogic.InitialState` | Assets/Scripts/EndlessTerrain.cs:109-118 | the initial state has one mesh slot per detail level |
| `ChunkLogic.LastColliderIndex` | Assets/Scripts/EndlessTerrain.cs:113-118 | the chosen collision level exists and is flagged `useForCollider` |
| `ChunkLogic.LastColliderIndexIsLast` | Assets/Scripts/EndlessTerrain.cs:113-118 | no later level is flagged; `None` exactly when no level is flagged |
| `Terrain.TerrainChunk.SetVisible` | Assets/Scripts/EndlessTerrain.cs:178-180 | only the visibility changes |
| `Terrain.TerrainChunk.RequestMesh` | Assets/Scripts/EndlessTerrain.cs:210-213 | only slot i's `hasRequestedMesh` becomes true |
| `Terrain.TerrainChunk.UpdateTerrainChunk` | Assets/Scripts/EndlessTerrain.cs:134-176 | the fields change exactly as `UpdateStep` says, and the method returns the mesh requests it issued and whether the chunk joined the visible list |
| `Terrain.TerrainChunk.OnMapDataReceived` | Assets/Scripts/EndlessTerrain.cs:123-132 | stores the map data, sets the flag, then updates: the result is `ReceiveMapData` |
| `Terrain.TerrainChunk.OnLODMeshReceived` | Assets/Scripts/EndlessTerrain.cs:203-208 | caches the mesh in its slot, sets `hasMesh`, then updates the chunk: the result is `ReceiveMesh` |
| `Terrain.SelectLOD` | Assets/Scripts/EndlessTerrain.cs:140-148 | the loop's result is `LODIndex` of the distance |
| `ChunkLogic.ShouldRefresh` | Assets/Scripts/EndlessTerrain.cs:44 | the refresh gate itself: the squared move exceeds 25². What it means for small and large moves is stated by `SmallMoveNeverRefreshes` and `LargeMoveRefreshes` |
| `Terrain.EndlessTerrain.ViewerChunk` | Assets/Scripts/EndlessTerrain.cs:58-59 | the viewer's chunk is the nearest chunk coordinate on each axis: each component is within half a chunk of the viewer position divided by the chunk size |
| `ChunkLogic.DisplayStep` | Assets/Scripts/EndlessTerrain.cs:150-159 | the shown level changes iff the chosen level differs from the previous one and has a cached mesh, and then that mesh is shown. A request is made iff the level differs, has no mesh and was not requested, and then exactly that level is marked and requested. Otherwise the displayed mesh and slots are unchanged, and no other field changes |
| `ChunkLogic.ColliderStep` | Assets/Scripts/EndlessTerrain.cs:161-167 | with a cached collision mesh the collider is bound to it. Without one the collider is unchanged and the collision level ends up requested; a request is made iff it had not been requested before. No other field changes |
| `ChunkLogic.ExceededPrefix` | Assets/Scripts/EndlessTerrain.cs:140-148 | every threshold before the result is strictly exceeded, and the one at the result (if any) is not |
| `ChunkLogic.LODIndex` | Assets/Scripts/EndlessTerrain.cs:140-148 | 0 ≤ index ≤ len−1; all earlier thresholds are exceeded; below len−1 the threshold at the index is not |
| `ChunkLogic.LODIndexMonotone` | Assets/Scripts/EndlessTerrain.cs:140-148 | a larger distance never yields a smaller index |
| `ChunkLogic.AscendingPrefixCountsExceeded` | Assets/Scripts/EndlessTerrain.cs:140-148 | with ascending thresholds the early-stopping scan counts every exceeded threshold |
| `ChunkLogic.AscendingLODIndexCountsExceeded` | Assets/Scripts/EndlessTerrain.cs:140-148 | with ascending thresholds the index is the number of exceeded thresholds among the first len−1 |
| `ChunkLogic.UpdateStep` | Assets/Scripts/EndlessTerrain.cs:134-176 | before map data nothing changes and nothing is requested. Afterwards the chunk is visible iff dst ≤ maxViewDst, and listed iff visible. Out of range, only the visibility changes. In range, with k the chosen level: a level change to a level with a cached mesh shows that mesh and sets `previousLODIndex` to k; a level change to a level with no mesh and no request yet requests k. At k = 0 the collider is bound to the collision level's cached mesh, or the collision level is left requested (and requested now if it was not before). Map data is never touched |
| `ChunkLogic.UpdateKeepsCachedMeshes` | Assets/Scripts/EndlessTerrain.cs:134-176 | an update never changes a slot's `hasMesh` or cached mesh |
| `ChunkLogic.ReceiveMapData` | Assets/Scripts/EndlessTerrain.cs:123-132 | after receipt the flag is set and the data stored |
| `ChunkLogic.ReceiveMesh` | Assets/Scripts/EndlessTerrain.cs:203-208 | after receipt the slot holds the mesh and `hasMesh` is set |
| `ChunkProperties.UpdateIdempotent` | Assets/Scripts/EndlessTerrain.cs:134-176 | a second update at the same distance changes nothing and requests nothing |
| `ChunkProperties.SwapOnlyToCachedLevel` | Assets/Scripts/EndlessTerrain.cs:150-159 | the displayed mesh or `previousLODIndex` changes only when the chosen level differs from the previous one and has a cached mesh; the new mesh is that cached mesh |
| `ChunkProperties.ColliderOnlyAtFinestLevel` | Assets/Scripts/EndlessTerrain.cs:150-167 | the collider changes only at LOD 0, to the collision level's cached mesh; every request is for the chosen level, or for the collision level at LOD 0 |
| `ChunkProperties.DisplayStepMatchesFlips` | Assets/Scripts/EndlessTerrain.cs:150-159 | the display step requests a level exactly when it flips that level's `hasRequestedMesh` from false to true |
| `ChunkProperties.ColliderStepMatchesFlips` | Assets/Scripts/EndlessTerrain.cs:161-167 | the same for the collider step |
| `ChunkProperties.RequestsMatchFlipsCompose` | Assets/Scripts/EndlessTerrain.cs:150-167 | the display and collider steps together request exactly their combined flag flips |
| `ChunkProperties.UpdateRequestsAreFlagFlips` | Assets/Scripts/EndlessTerrain.cs:150-167 | one update requests each level exactly when it flips that level's flag, never clears a flag, and only names valid levels |
| `ChunkProperties.ApplyRequestsAreFlagFlips` | Assets/Scripts/EndlessTerrain.cs:123-213 | the same for a map-data delivery and a mesh delivery, which update after storing their payload |
| `ChunkProperties.EachLevelRequestedAtMostOnce` | Assets/Scripts/EndlessTerrain.cs:210-213 | over any sequence of chunk updates and deliveries a level is requested once if its flag went from false to true, never otherwise; flags stay set |
| `ChunkProperties.FreshChunkRequestsEachLevelAtMostOnce` | Assets/Scripts/EndlessTerrain.cs:150-167 | from a new chunk no level's mesh is ever requested twice |
| `ChunkProperties.UpdatesBeforeMapDataDoNothing` | Assets/Scripts/EndlessTerrain.cs:135 | any number of updates before the map data arrives leave the chunk unchanged and request nothing |
| `ChunkProperties.OccurrencesAppend` | Assets/Scripts/EndlessTerrain.cs:157-165 | the count of a level in two request lists put together is the sum of the counts |
| `MapGen.MapChunkSize` | Assets/Scripts/MapGenerator.cs:49-61 | 95 with flat shading and 239 without; size − 1 is even. It also proves the bordered (size+2)² grid and a flat-shaded mesh of 6·(size−1)² vertices stay under Unity's 65000-vertex cap. That vertex count is assumed: the mesh builder is not part of this model |
| `MapGen.MapGenerator.ChunkSize` | Assets/Scripts/MapGenerator.cs:49-61 | the size this generator announces is 95 when its terrain settings use flat shading and 239 otherwise |
| `MapGen.MapGenerator.Awake` | Assets/Scripts/MapGenerator.cs:35-37 | the generator starts with a size×size falloff grid, two empty queues and nothing queued or run yet, so the FIFO invariant `InOrder` holds: the items run so far followed by the items still queued are exactly the items ever queued, in queueing order |
| `MapGen.MapGenerator.EnqueueMapData` | Assets/Scripts/MapGenerator.cs:88-94 | a worker's result is appended to the map-data queue and to the record of queued items; the other queue and the invocation log are unchanged; `InOrder` is kept |
| `MapGen.MapGenerator.EnqueueMeshData` | Assets/Scripts/MapGenerator.cs:105-111 | the same for the mesh-data queue; `InOrder` is kept |
| `MapGen.DrainQueue` | Assets/Scripts/MapGenerator.cs:115-127 | on n queued items the loop invokes ⌈n/2⌉ of them and leaves ⌊n/2⌋; the invoked items followed by the remaining ones are the queue, so the oldest go first in FIFO order and the rest keep their order |
| `MapGen.MapGenerator.DrainMapDataQueue` | Assets/Scripts/MapGenerator.cs:115-120 | the oldest ⌈n/2⌉ map-data items are invoked in order with their own payloads and join the record of run items; the newest ⌊n/2⌋ stay queued; the mesh queue is untouched; `InOrder` is kept, so across any sequence of queueing and frames each item runs at most once and never before an item queued earlier |
| `MapGen.MapGenerator.DrainMeshDataQueue` | Assets/Scripts/MapGenerator.cs:122-127 | the same for the mesh queue; the map queue is untouched |
| `MapGen.MapGenerator.Update` | Assets/Scripts/MapGenerator.cs:113-128 | the map-data invocations come before the mesh-data invocations in the log; each queue keeps its newest half, so it at least halves every frame; no item moves between queues; both FIFO invariants (`InOrder`) are kept; settings untouched |
| `MapGen.RowMajorDistinct` | Assets/Scripts/MapGenerator.cs:146 | distinct cells write distinct entries of the colour array |
| `MapGen.RowMajorBefore` | Assets/Scripts/MapGenerator.cs:136-146 | every cell of an earlier row comes before every cell of a later row in the colour array |
| `MapGen.MapGenerator.GenerateMapData` | Assets/Scripts/MapGenerator.cs:130-157 | the colour array is fresh with size² entries; each inner cell's height is the falloff-adjusted noise and its colour, at index y·size + x, is the region scan's colour (default when no region is met); border cells of the (size+2)² grid are untouched |
| `MapGen.MapGenerator.GenerateRow` | Assets/Scripts/MapGenerator.cs:137-152 | one row of the nested loops: that row's cells get adjusted heights and colours, nothing outside the row changes |
| `MapGen.MapGenerator.ColorCell` | Assets/Scripts/MapGenerator.cs:142-151 | the cell's colour entry becomes the colour of the last region in the accepted prefix, or keeps its value when no region is accepted; no other entry changes |
| `Classification.Clamp01` | Assets/Scripts/MapGenerator.cs:139 | the result lies in [0, 1] and values already there are kept |
| `Classification.Clamp01Monotone` | Assets/Scripts/MapGenerator.cs:139 | clamping preserves order |
| `Classification.AdjustedHeight` | Assets/Scripts/MapGenerator.cs:138-140 | with falloff the height is in [0, 1] (exactly noise − falloff when that is in range); without falloff it is the noise value |
| `Classification.CellColor` | Assets/Scripts/MapGenerator.cs:144-151 | a colour that differs from the unset one comes from a region whose threshold the cell reaches; once the first threshold is reached, the colour is such a region's colour |
| `Classification.MetPrefix` | Assets/Scripts/MapGenerator.cs:144-151 | every region before the result has threshold ≤ h, and the one at the result (if any) has threshold > h |
| `Classification.MetPrefixMonotone` | Assets/Scripts/MapGenerator.cs:144-151 | a higher cell never gets an earlier region |
| `Classification.NoRegionBelowFirst` | Assets/Scripts/MapGenerator.cs:134-151 | with no regions, or a height below the first threshold, no region is accepted and the colour entry keeps its value |
| `Classification.AscendingScanCountsAllMet` | Assets/Scripts/MapGenerator.cs:144-151 | with ascending thresholds the early-stopping scan accepts exactly the thresholds h reaches |
| `Classification.AscendingPicksHighestMet` | Assets/Scripts/MapGenerator.cs:144-151 | with ascending thresholds the chosen region is met and every later region is above h |
| `NoiseSettings.NoiseData.constructor` | Assets/Scripts/Data/NoiseData.cs:9-20 | every field holds the given value |
| `NoiseSettings.NoiseData.OnValidate` | Assets/Scripts/Data/NoiseData.cs:23-33 | afterwards `lacunarity` ≥ 1 and `octaves` ≥ 0; values already in range are kept, so a second call changes nothing; the other fields are unchanged |

## Left out

- Noise generation (`Noise.GenerateNoiseMap`, Assets/Scripts/Noise.cs) is floating-point fractal numerics over `Mathf.PerlinNoise` and `System.Random`. Its output grid is an input to `MapGen.MapGenerator.GenerateMapData`.
- Worker threads and locks are not modelled: `RequestMapData`, `RequestMeshData`, `MapDataThread` and `MeshDataThread`. A worker's hand-off is the sequential `EnqueueMapData`/`EnqueueMeshData`, and requests made by the streamer are recorded as `Request` values in its log. Interleavings of workers with the drain are not modelled.
- The drain: the comment at Assets/Scripts/MapGenerator.cs:114 says the consumer runs the buffered callbacks and empties the queue. The loops at :116-125 compare their counter with a `Count` that shrinks at each dequeue, so each runs only ⌈n/2⌉ callbacks. The model follows the code, and `MapGen.DrainQueue` states the ⌈n/2⌉ / ⌊n/2⌋ split.
- Callbacks run by the drain are recorded in an invocation log as (callback id, payload). Their effect on chunks is modelled separately by `OnChunkMapData` and `OnChunkMesh`, which are not wired to the log.
- Unity plumbing is not modelled:
  - `GameObject`, `MeshRenderer`, `MeshFilter`, `MeshCollider`, transforms, materials and textures;
  - `FindObjectOfType`;
  - `DrawMapInEditor` and `OnValueUpdated`;
  - the event resubscription in `MapGenerator.OnValidate`;
  - the notification in `UpdatableData`, which `NoiseData.OnValidate` calls last.

  Visibility is a boolean field. The displayed mesh and the collider mesh are fields holding an opaque mesh token.
- `MeshGenerator`, `FalloffGenerator` and `TextureGenerator` are not part of this model. Meshes are opaque `MeshData` tokens, and the falloff grid is given to `Awake`.
- Terrain.EndlessTerrain.Update: takes the viewer position already divided by `uniformScale`. The transform it is read from is not modelled.
- Terrain.EndlessTerrain.UpdateVisibleChunks: takes each chunk's distance from the viewer to its bounds as a function `dst` from chunk coordinate to distance. It does not compute `Mathf.Sqrt(bounds.SqrDistance(viewerPosition))`.
- Terrain.TerrainChunk.UpdateTerrainChunk: takes the viewer's distance to the chunk's bounds as a parameter, for the same reason.
- Chunk coordinates are integer pairs. The source keys the dictionary by a float `Vector2` whose components are always integral.
- `LODMesh` is a value `(hasRequestedMesh, hasMesh, mesh)` in the chunk's slot sequence, not a separate object. `collisionLODMesh`, which aliases one of those objects, is the slot index `collisionIndex`.
- Terrain.TerrainChunk.RequestMesh: only sets the flag. The request itself is logged by the owner as a `MeshDataRequest` naming the slot index, not the slot's `lod` and the map data. Slot i's `lod` is `detailLevels[i].lod`.
- Terrain.TerrainChunk.constructor: the map-data request is logged by `AddChunk` as a `MapDataRequest` naming the chunk coordinate. The source passes the world position `coord * size`.
- Configured: a detail table with no level flagged `useForCollider` leaves `collisionLODMesh` null, and the source throws a `NullReferenceException` once a chunk reaches LOD 0. The streamer's methods require at least one collider level instead of modelling the exception.
- `maxViewDst`, `viewerPosition`, the visible list and the `MapGenerator` instance are static in the source. Here they are fields of the one `EndlessTerrain` object, and `maxViewDst` is `MaxViewDst(detailLevels)`.
- `TerrainChunk.IsVisible` is never called in the source and is not modelled.
- `Vector2` float arithmetic and `float` widths are not modelled: heights, distances and thresholds are `real`.

/**
 * The map generator (Assets/Scripts/MapGenerator.cs): the chunk size it
 * announces, the per-chunk height and colour grids it produces, and the two
 * result queues through which worker threads hand map data and mesh data back
 * to the frame loop.
 */
module MapGen {
  import opened Classification

  /**
   * Vertices per side of a chunk mesh. Unity caps a mesh at 65000 vertices:
   * the grid with its one-cell border stays under the cap, and with flat
   * shading, where each of the 2(size-1)^2 triangles gets its own three
   * vertices, so does the flat-shaded mesh.
   */
  function MapChunkSize(useFlatShading: bool): (size: nat)
    ensures size == 95 || size == 239
    ensures useFlatShading <==> size == 95
    ensures (size + 2) * (size + 2) <= 65000
    ensures useFlatShading ==> 6 * (size - 1) * (size - 1) <= 65000
    ensures (size - 1) % 2 == 0
  {
    if useFlatShading then 95 else 239
  }

  /** The result of the mesh builder, which this model treats as an opaque token. */
  datatype MeshData = MeshData(id: nat)

  /** A height grid and its colour grid, produced together for one chunk. */
  datatype MapData = MapData(heightMap: array2<real>, colorMap: array<Color>)

  /** Identity of a registered callback; the callbacks themselves run elsewhere. */
  type CallbackId = nat

  /** A result waiting on a queue, paired with the callback it is due to. */
  datatype MapThreadInfo<T> = MapThreadInfo(callback: CallbackId, parameter: T)

  /** One callback run by the frame loop, with the payload it received. */
  datatype Invocation =
    | MapDataCallback(mapInfo: MapThreadInfo<MapData>)
    | MeshDataCallback(meshInfo: MapThreadInfo<MeshData>)

  /** Index of cell (x, y) in a row-major size*size array. */
  function RowMajor(x: nat, y: nat, size: nat): (k: nat)
    requires x < size && y < size
    ensures k < size * size
  {
    RowMajorBound(x, y, size);
    y * size + x
  }

  lemma RowMajorBound(x: nat, y: nat, size: nat)
    requires x < size && y < size
    ensures y * size + x < size * size
  {
    MulMonotone(y, size - 1, size);
  }

  lemma MulMonotone(a: nat, b: nat, c: nat)
    requires a <= b
    ensures a * c <= b * c
  {
    assert b * c == a * c + (b - a) * c;
  }

  /** A cell of an earlier row comes before every cell of a later row. */
  lemma RowMajorBefore(x1: nat, y1: nat, x2: nat, y2: nat, size: nat)
    requires x1 < size && y1 < size && x2 < size && y2 < size
    requires y1 < y2
    ensures RowMajor(x1, y1, size) < RowMajor(x2, y2, size)
  {
    MulMonotone(y1 + 1, y2, size);
  }

  /** Distinct cells have distinct row-major indices. */
  lemma RowMajorDistinct(x: nat, y: nat, size: nat)
    requires x < size && y < size
    ensures forall xx: nat, yy: nat :: xx < size && yy < size && (xx != x || yy != y) ==>
      RowMajor(xx, yy, size) != RowMajor(x, y, size)
  {
    forall xx: nat, yy: nat | xx < size && yy < size && (xx != x || yy != y)
      ensures RowMajor(xx, yy, size) != RowMajor(x, y, size)
    {
      if yy < y {
        RowMajorBefore(xx, yy, x, y, size);
      } else if y < yy {
        RowMajorBefore(x, y, xx, yy, size);
      }
    }
  }

  /**
   * One drain loop of the frame update. Its guard compares the step counter
   * with the queue's current count, which shrinks at every dequeue, so a call
   * runs only the oldest half (rounded up) of the queued results, in enqueue
   * order, and leaves the newest half queued in order.
   */
  method DrainQueue<T>(queue: seq<MapThreadInfo<T>>)
    returns (invoked: seq<MapThreadInfo<T>>, remaining: seq<MapThreadInfo<T>>)
    ensures |invoked| == (|queue| + 1) / 2
    ensures |remaining| == |queue| / 2
    ensures invoked + remaining == queue
  {
    invoked, remaining := [], queue;
    var i := 0;
    while i < |remaining|
      invariant i <= (|queue| + 1) / 2
      invariant invoked == queue[..i]
      invariant remaining == queue[i..]
    {
      var threadInfo := remaining[0];
      remaining := remaining[1..];
      invoked := invoked + [threadInfo];
      i := i + 1;
    }
  }

  /** The callbacks run for the given queue items, in order, each with its own payload. */
  function MapInvocations(infos: seq<MapThreadInfo<MapData>>): seq<Invocation>
  {
    seq(|infos|, k requires 0 <= k < |infos| => MapDataCallback(infos[k]))
  }

  /** The same for mesh-data items. */
  function MeshInvocations(infos: seq<MapThreadInfo<MeshData>>): seq<Invocation>
  {
    seq(|infos|, k requires 0 <= k < |infos| => MeshDataCallback(infos[k]))
  }

  class MapGenerator {
    /** terrainData.useFlatShading and terrainData.useFalloff. */
    var useFlatShading: bool
    var useFalloff: bool
    var regions: seq<TerrainType>
    /** The falloff mask, a size*size grid built by a generator outside this model. */
    var falloffMap: array2<real>
    var mapDataThreadInfoQueue: seq<MapThreadInfo<MapData>>
    var meshDataThreadInfoQueue: seq<MapThreadInfo<MeshData>>
    /** Every callback the frame loop has run, in order. */
    var invocations: seq<Invocation>
    /** Every map-data item ever queued, and every one the frame loop has run, in order. */
    ghost var mapEnqueued: seq<MapThreadInfo<MapData>>
    ghost var mapRun: seq<MapThreadInfo<MapData>>
    /** The same for mesh-data items. */
    ghost var meshEnqueued: seq<MapThreadInfo<MeshData>>
    ghost var meshRun: seq<MapThreadInfo<MeshData>>

    /**
     * Each queue is a FIFO hand-off: the items run so far, followed by the
     * items still queued, are exactly the items queued, in queueing order.
     * So no item runs twice, none is lost, and none overtakes an earlier one.
     */
    ghost predicate InOrder()
      reads this
    {
      mapRun + mapDataThreadInfoQueue == mapEnqueued && meshRun + meshDataThreadInfoQueue == meshEnqueued
    }

    ghost predicate Valid()
      reads this
    {
      falloffMap.Length0 == MapChunkSize(useFlatShading) && falloffMap.Length1 == MapChunkSize(useFlatShading)
    }

    /** Unity's Awake with the configuration assets already in place. */
    constructor Awake(useFlatShading: bool, useFalloff: bool, regions: seq<TerrainType>, falloffMap: array2<real>)
      requires falloffMap.Length0 == MapChunkSize(useFlatShading) && falloffMap.Length1 == MapChunkSize(useFlatShading)
      ensures Valid()
      ensures this.useFlatShading == useFlatShading && this.useFalloff == useFalloff
      ensures this.regions == regions && this.falloffMap == falloffMap
      ensures mapDataThreadInfoQueue == [] && meshDataThreadInfoQueue == [] && invocations == []
      ensures InOrder() && mapEnqueued == [] && meshEnqueued == []
    {
      this.useFlatShading := useFlatShading;
      this.useFalloff := useFalloff;
      this.regions := regions;
      this.falloffMap := falloffMap;
      mapDataThreadInfoQueue, meshDataThreadInfoQueue, invocations := [], [], [];
      mapEnqueued, mapRun, meshEnqueued, meshRun := [], [], [], [];
    }

    /** The mapChunkSize property as seen with this generator's terrain settings. */
    function ChunkSize(): (size: nat)
      reads this
      ensures useFlatShading ==> size == 95
      ensures !useFlatShading ==> size == 239
    {
      MapChunkSize(useFlatShading)
    }

    /** A worker's hand-off of finished map data (taken under the queue's lock in the source). */
    method EnqueueMapData(callback: CallbackId, mapData: MapData)
      requires InOrder()
      modifies this
      ensures InOrder()
      ensures mapEnqueued == old(mapEnqueued) + [MapThreadInfo(callback, mapData)] && mapRun == old(mapRun)
      ensures meshEnqueued == old(meshEnqueued) && meshRun == old(meshRun)
      ensures mapDataThreadInfoQueue == old(mapDataThreadInfoQueue) + [MapThreadInfo(callback, mapData)]
      ensures meshDataThreadInfoQueue == old(meshDataThreadInfoQueue) && invocations == old(invocations)
      ensures unchanged(this`useFlatShading, this`useFalloff, this`regions, this`falloffMap)
    {
      mapDataThreadInfoQueue := mapDataThreadInfoQueue + [MapThreadInfo(callback, mapData)];
      mapEnqueued := mapEnqueued + [MapThreadInfo(callback, mapData)];
    }

    /** A worker's hand-off of a finished mesh (taken under the queue's lock in the source). */
    method EnqueueMeshData(callback: CallbackId, meshData: MeshData)
      requires InOrder()
      modifies this
      ensures InOrder()
      ensures meshEnqueued == old(meshEnqueued) + [MapThreadInfo(callback, meshData)] && meshRun == old(meshRun)
      ensures mapEnqueued == old(mapEnqueued) && mapRun == old(mapRun)
      ensures meshDataThreadInfoQueue == old(meshDataThreadInfoQueue) + [MapThreadInfo(callback, meshData)]
      ensures mapDataThreadInfoQueue == old(mapDataThreadInfoQueue) && invocations == old(invocations)
      ensures unchanged(this`useFlatShading, this`useFalloff, this`regions, this`falloffMap)
    {
      meshDataThreadInfoQueue := meshDataThreadInfoQueue + [MapThreadInfo(callback, meshData)];
      meshEnqueued := meshEnqueued + [MapThreadInfo(callback, meshData)];
    }

    /**
     * The frame update: drains the map-data queue, then the mesh-data queue.
     * Each drain runs the oldest half (rounded up) of its queue in FIFO order,
     * each callback with the payload it was queued with; the rest stays
     * queued; items never move between the queues.
     */
    method Update()
      requires InOrder()
      modifies this
      ensures InOrder()
      ensures mapEnqueued == old(mapEnqueued) && meshEnqueued == old(meshEnqueued)
      ensures var n := |old(mapDataThreadInfoQueue)|; mapRun == old(mapRun) + old(mapDataThreadInfoQueue)[..(n + 1) / 2]
      ensures var m := |old(meshDataThreadInfoQueue)|; meshRun == old(meshRun) + old(meshDataThreadInfoQueue)[..(m + 1) / 2]
      ensures var n := |old(mapDataThreadInfoQueue)|;
        mapDataThreadInfoQueue == old(mapDataThreadInfoQueue)[(n + 1) / 2..]
      ensures var m := |old(meshDataThreadInfoQueue)|;
        meshDataThreadInfoQueue == old(meshDataThreadInfoQueue)[(m + 1) / 2..]
      ensures var n, m := |old(mapDataThreadInfoQueue)|, |old(meshDataThreadInfoQueue)|;
        invocations == old(invocations)
          + MapInvocations(old(mapDataThreadInfoQueue)[..(n + 1) / 2])
          + MeshInvocations(old(meshDataThreadInfoQueue)[..(m + 1) / 2])
      ensures unchanged(this`useFlatShading, this`useFalloff, this`regions, this`falloffMap)
    {
      DrainMapDataQueue();
      DrainMeshDataQueue();
    }

    /** The map-data half of the frame update. */
    method DrainMapDataQueue()
      requires InOrder()
      modifies this
      ensures InOrder()
      ensures mapEnqueued == old(mapEnqueued) && meshEnqueued == old(meshEnqueued) && meshRun == old(meshRun)
      ensures var n := |old(mapDataThreadInfoQueue)|; mapRun == old(mapRun) + old(mapDataThreadInfoQueue)[..(n + 1) / 2]
      ensures var n := |old(mapDataThreadInfoQueue)|;
        && mapDataThreadInfoQueue == old(mapDataThreadInfoQueue)[(n + 1) / 2..]
        && invocations == old(invocations) + MapInvocations(old(mapDataThreadInfoQueue)[..(n + 1) / 2])
      ensures meshDataThreadInfoQueue == old(meshDataThreadInfoQueue)
      ensures unchanged(this`useFlatShading, this`useFalloff, this`regions, this`falloffMap)
    {
      var invoked: seq<MapThreadInfo<MapData>> := [];
      if |mapDataThreadInfoQueue| > 0 {
        invoked, mapDataThreadInfoQueue := DrainQueue(mapDataThreadInfoQueue);
      } else {
        assert mapDataThreadInfoQueue[..0] == [] && mapDataThreadInfoQueue[0..] == mapDataThreadInfoQueue;
      }
      invocations := invocations + MapInvocations(invoked);
      mapRun := mapRun + invoked;
    }

    /** The mesh-data half of the frame update. */
    method DrainMeshDataQueue()
      requires InOrder()
      modifies this
      ensures InOrder()
      ensures mapEnqueued == old(mapEnqueued) && meshEnqueued == old(meshEnqueued) && mapRun == old(mapRun)
      ensures var m := |old(meshDataThreadInfoQueue)|; meshRun == old(meshRun) + old(meshDataThreadInfoQueue)[..(m + 1) / 2]
      ensures var m := |old(meshDataThreadInfoQueue)|;
        && meshDataThreadInfoQueue == old(meshDataThreadInfoQueue)[(m + 1) / 2..]
        && invocations == old(invocations) + MeshInvocations(old(meshDataThreadInfoQueue)[..(m + 1) / 2])
      ensures mapDataThreadInfoQueue == old(mapDataThreadInfoQueue)
      ensures unchanged(this`useFlatShading, this`useFalloff, this`regions, this`falloffMap)
    {
      var invoked: seq<MapThreadInfo<MeshData>> := [];
      if |meshDataThreadInfoQueue| > 0 {
        invoked, meshDataThreadInfoQueue := DrainQueue(meshDataThreadInfoQueue);
      } else {
        assert meshDataThreadInfoQueue[..0] == [] && meshDataThreadInfoQueue[0..] == meshDataThreadInfoQueue;
      }
      invocations := invocations + MeshInvocations(invoked);
      meshRun := meshRun + invoked;
    }

    /**
     * The inner region scan for one cell: walks the regions in order,
     * writing each accepted region's colour into colorMap[idx], and stops at
     * the first threshold the height does not reach.
     */
    method ColorCell(colorMap: array<Color>, idx: nat, currentHeight: real)
      requires idx < colorMap.Length
      modifies colorMap
      ensures colorMap[idx] == CellColor(currentHeight, regions, old(colorMap[idx]))
      ensures forall k :: 0 <= k < colorMap.Length && k != idx ==> colorMap[k] == old(colorMap[k])
    {
      var i := 0;
      while i < |regions|
        invariant i <= MetPrefix(currentHeight, regions)
        invariant colorMap[idx] == if i == 0 then old(colorMap[idx]) else regions[i - 1].color
        invariant forall k :: 0 <= k < colorMap.Length && k != idx ==> colorMap[k] == old(colorMap[k])
      {
        if currentHeight >= regions[i].height {
          colorMap[idx] := regions[i].color;
        } else {
          break;
        }
        i := i + 1;
      }
    }

    /**
     * Falloff and classification over a chunk's noise grid, which is
     * (size + 2) cells a side. Each cell of the top-left size*size block gets
     * the falloff-adjusted height (clamped to [0, 1] when falloff is on) and
     * its colour is written at row-major index y * size + x of a fresh colour
     * array; border cells keep their noise value.
     */
    method GenerateMapData(noiseMap: array2<real>) returns (mapData: MapData)
      requires Valid()
      requires noiseMap.Length0 == ChunkSize() + 2 && noiseMap.Length1 == ChunkSize() + 2
      requires noiseMap != falloffMap
      modifies noiseMap
      ensures mapData.heightMap == noiseMap && fresh(mapData.colorMap)
      ensures mapData.colorMap.Length == ChunkSize() * ChunkSize()
      ensures forall x: nat, y: nat :: x < ChunkSize() && y < ChunkSize() ==>
        noiseMap[x, y] == AdjustedHeight(old(noiseMap[x, y]), falloffMap[x, y], useFalloff)
      ensures forall x: nat, y: nat :: x < ChunkSize() && y < ChunkSize() ==>
        mapData.colorMap[RowMajor(x, y, ChunkSize())] == CellColor(noiseMap[x, y], regions, DefaultColor)
      ensures forall x, y ::
        0 <= x < noiseMap.Length0 && 0 <= y < noiseMap.Length1 && (x >= ChunkSize() || y >= ChunkSize())
        ==> noiseMap[x, y] == old(noiseMap[x, y])
    {
      var size := ChunkSize();
      var colorMap := new Color[size * size](_ => DefaultColor);

      var y := 0;
      while y < size
        invariant y <= size
        invariant forall xx: nat, yy: nat :: xx < size && yy < y ==>
          noiseMap[xx, yy] == AdjustedHeight(old(noiseMap[xx, yy]), falloffMap[xx, yy], useFalloff)
          && colorMap[RowMajor(xx, yy, size)] == CellColor(noiseMap[xx, yy], regions, DefaultColor)
        invariant forall xx: nat, yy: nat :: xx < size && y <= yy < size ==>
          noiseMap[xx, yy] == old(noiseMap[xx, yy]) && colorMap[RowMajor(xx, yy, size)] == DefaultColor
        invariant forall xx, yy ::
          0 <= xx < noiseMap.Length0 && 0 <= yy < noiseMap.Length1 && (xx >= size || yy >= size)
          ==> noiseMap[xx, yy] == old(noiseMap[xx, yy])
      {
        GenerateRow(noiseMap, colorMap, y);
        y := y + 1;
      }
      mapData := MapData(noiseMap, colorMap);
    }

    /** The inner x loop of GenerateMapData: falloff and classification of row y. */
    method GenerateRow(noiseMap: array2<real>, colorMap: array<Color>, y: nat)
      requires Valid()
      requires noiseMap.Length0 == ChunkSize() + 2 && noiseMap.Length1 == ChunkSize() + 2
      requires noiseMap != falloffMap
      requires colorMap.Length == ChunkSize() * ChunkSize() && y < ChunkSize()
      modifies noiseMap, colorMap
      ensures forall xx: nat :: xx < ChunkSize() ==>
        noiseMap[xx, y] == AdjustedHeight(old(noiseMap[xx, y]), falloffMap[xx, y], useFalloff)
        && colorMap[RowMajor(xx, y, ChunkSize())]
           == CellColor(noiseMap[xx, y], regions, old(colorMap[RowMajor(xx, y, ChunkSize())]))
      ensures forall xx, yy ::
        0 <= xx < noiseMap.Length0 && 0 <= yy < noiseMap.Length1 && (xx >= ChunkSize() || yy != y)
        ==> noiseMap[xx, yy] == old(noiseMap[xx, yy])
      ensures forall xx: nat, yy: nat :: xx < ChunkSize() && yy < ChunkSize() && yy != y ==>
        colorMap[RowMajor(xx, yy, ChunkSize())] == old(colorMap[RowMajor(xx, yy, ChunkSize())])
    {
      var size := ChunkSize();
      var x := 0;
      while x < size
        invariant x <= size
        invariant forall xx: nat :: xx < x ==>
          noiseMap[xx, y] == AdjustedHeight(old(noiseMap[xx, y]), falloffMap[xx, y], useFalloff)
          && colorMap[RowMajor(xx, y, size)] == CellColor(noiseMap[xx, y], regions, old(colorMap[RowMajor(xx, y, size)]))
        invariant forall xx, yy ::
          0 <= xx < noiseMap.Length0 && 0 <= yy < noiseMap.Length1 && (xx >= x || yy != y)
          ==> noiseMap[xx, yy] == old(noiseMap[xx, yy])
        invariant forall xx: nat, yy: nat :: xx < size && yy < size && (yy != y || xx >= x) ==>
          colorMap[RowMajor(xx, yy, size)] == old(colorMap[RowMajor(xx, yy, size)])
      {
        if useFalloff {
          noiseMap[x, y] := Clamp01(noiseMap[x, y] - falloffMap[x, y]);
        }
        var currentHeight := noiseMap[x, y];
        RowMajorDistinct(x, y, size);
        ColorCell(colorMap, RowMajor(x, y, size), currentHeight);
        x := x + 1;
      }
    }
  }
}

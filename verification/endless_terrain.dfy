/**
 * The chunk streamer (Assets/Scripts/EndlessTerrain.cs): a dictionary of
 * terrain chunks keyed by integer chunk coordinate that only ever grows, the
 * list of chunks made visible since the last refresh, and per chunk one mesh
 * slot per level of detail with its request flags.
 *
 * Geometry is not modelled: the viewer's chunk coordinate and each chunk's
 * distance from the viewer to its bounds are parameters. Calls into the map
 * generator are recorded as Request values.
 */
module Terrain {
  import opened Wrappers
  import opened MapGen
  import opened ChunkLogic
  import opened StreamerLogic

  /**
   * The level-of-detail scan: walks the thresholds of all levels but the last
   * and stops at the first one the distance does not exceed.
   */
  method SelectLOD(viewerDstFromNearestEdge: real, detailLevels: seq<LODInfo>) returns (lodIndex: nat)
    requires |detailLevels| > 0
    ensures lodIndex == LODIndex(viewerDstFromNearestEdge, detailLevels)
  {
    lodIndex := 0;
    var i := 0;
    while i < |detailLevels| - 1
      invariant i <= |detailLevels| - 1
      invariant lodIndex == i
      invariant forall j :: 0 <= j < i ==> viewerDstFromNearestEdge > detailLevels[j].visibleDstThreshold
    {
      if viewerDstFromNearestEdge > detailLevels[i].visibleDstThreshold {
        lodIndex := i + 1;
      } else {
        break;
      }
      i := i + 1;
    }
  }

  /** One terrain chunk: its detail levels, their mesh slots, and what it shows. */
  class TerrainChunk {
    const coord: Coord
    const detailLevels: seq<LODInfo>
    /** The slot of collisionLODMesh among lodMeshes. */
    const collisionIndex: nat

    var mapData: Option<MapData>
    var mapDataReceived: bool
    var previousLODIndex: int
    /** Whether the chunk's game object is active. */
    var visible: bool
    var lodMeshes: seq<LODMesh>
    /** The mesh filter's mesh and the collider's shared mesh. */
    var displayedMesh: Option<MeshData>
    var colliderMesh: Option<MeshData>

    ghost predicate Valid()
      reads this
    {
      Fits(State(), detailLevels) && collisionIndex < |detailLevels|
    }

    ghost function State(): ChunkState
      reads this
    {
      ChunkState(mapData, mapDataReceived, visible, previousLODIndex, lodMeshes, displayedMesh, colliderMesh)
    }

    /**
     * A new chunk: hidden, one empty mesh slot per detail level, the
     * collision slot being the last level flagged for the collider. The
     * map-data request it issues is logged by its owner.
     */
    constructor (coord: Coord, detailLevels: seq<LODInfo>)
      requires |detailLevels| > 0 && LastColliderIndex(detailLevels).Some?
      ensures Valid()
      ensures this.coord == coord && this.detailLevels == detailLevels
      ensures LastColliderIndex(detailLevels) == Some(collisionIndex)
      ensures State() == InitialState(detailLevels)
    {
      this.coord := coord;
      this.detailLevels := detailLevels;
      var meshes: seq<LODMesh> := [];
      var collision: Option<nat> := None;
      for i := 0 to |detailLevels|
        invariant |meshes| == i
        invariant forall j :: 0 <= j < i ==> meshes[j] == LODMesh(false, false, None)
        invariant collision == LastColliderIndex(detailLevels[..i])
      {
        meshes := meshes + [LODMesh(false, false, None)];
        if detailLevels[i].useForCollider {
          collision := Some(i);
        }
        assert detailLevels[..i + 1][..i] == detailLevels[..i];
      }
      assert detailLevels[..|detailLevels|] == detailLevels;
      lodMeshes := meshes;
      collisionIndex := collision.value;
      mapData, mapDataReceived, previousLODIndex := None, false, -1;
      visible, displayedMesh, colliderMesh := false, None, None;
    }

    method SetVisible(visible: bool)
      modifies this
      ensures State() == old(State()).(visible := visible)
    {
      this.visible := visible;
    }

    /** LODMesh.RequestMesh for slot i: mark it requested; the caller issues the request. */
    method RequestMesh(i: nat)
      requires i < |lodMeshes|
      modifies this
      ensures State() == MarkRequested(old(State()), i)
    {
      lodMeshes := lodMeshes[i := lodMeshes[i].(hasRequestedMesh := true)];
    }

    /**
     * The chunk update with the viewer at the given distance from the
     * chunk's bounds; follows UpdateStep, returning the levels whose meshes
     * it requested and whether the chunk joins the visible list.
     */
    method UpdateTerrainChunk(viewerDstFromNearestEdge: real) returns (requested: seq<nat>, listed: bool)
      requires Valid()
      modifies this
      ensures Valid()
      ensures var r := UpdateStep(old(State()), detailLevels, collisionIndex, viewerDstFromNearestEdge);
        State() == r.next && requested == r.requested && listed == r.listed
    {
      ghost var s := State();
      requested, listed := [], false;
      if mapDataReceived {
        var visible := viewerDstFromNearestEdge <= MaxViewDst(detailLevels);
        if visible {
          var lodIndex := SelectLOD(viewerDstFromNearestEdge, detailLevels);
          if lodIndex != previousLODIndex {
            var lodMesh := lodMeshes[lodIndex];
            if lodMesh.hasMesh {
              previousLODIndex := lodIndex;
              displayedMesh := lodMesh.mesh;
            } else if !lodMesh.hasRequestedMesh {
              RequestMesh(lodIndex);
              requested := requested + [lodIndex];
            }
          }
          ghost var s1 := State();
          assert s1 == DisplayStep(s, lodIndex).0 && requested == DisplayStep(s, lodIndex).1;
          if lodIndex == 0 {
            var collisionLODMesh := lodMeshes[collisionIndex];
            if collisionLODMesh.hasMesh {
              colliderMesh := collisionLODMesh.mesh;
            } else if !collisionLODMesh.hasRequestedMesh {
              RequestMesh(collisionIndex);
              requested := requested + [collisionIndex];
            }
          }
          listed := true;
        }
        SetVisible(visible);
      }
    }

    /** The map-data callback: store the data, set the flag, then update. */
    method OnMapDataReceived(mapData: MapData, viewerDstFromNearestEdge: real) returns (requested: seq<nat>, listed: bool)
      requires Valid()
      modifies this
      ensures Valid()
      ensures var r := ReceiveMapData(old(State()), detailLevels, collisionIndex, mapData, viewerDstFromNearestEdge);
        State() == r.next && requested == r.requested && listed == r.listed
    {
      this.mapData := Some(mapData);
      mapDataReceived := true;
      requested, listed := UpdateTerrainChunk(viewerDstFromNearestEdge);
    }

    /** LODMesh.OnMeshDataReceived for slot i: keep the mesh, mark it present, then update the chunk. */
    method OnLODMeshReceived(levelIndex: nat, meshData: MeshData, viewerDstFromNearestEdge: real)
      returns (requested: seq<nat>, listed: bool)
      requires Valid() && levelIndex < |detailLevels|
      modifies this
      ensures Valid()
      ensures var r := ReceiveMesh(old(State()), detailLevels, collisionIndex, levelIndex, meshData, viewerDstFromNearestEdge);
        State() == r.next && requested == r.requested && listed == r.listed
    {
      lodMeshes := lodMeshes[levelIndex := lodMeshes[levelIndex].(hasMesh := true, mesh := Some(meshData))];
      requested, listed := UpdateTerrainChunk(viewerDstFromNearestEdge);
    }
  }

  /** The coordinates of a list of chunks, in order. */
  function CoordsOf(chunks: seq<TerrainChunk>): seq<Coord>
  {
    if chunks == [] then [] else CoordsOf(chunks[..|chunks| - 1]) + [chunks[|chunks| - 1].coord]
  }

  lemma {:induction false} CoordsOfAppend(chunks: seq<TerrainChunk>, more: seq<TerrainChunk>)
    ensures CoordsOf(chunks + more) == CoordsOf(chunks) + CoordsOf(more)
    decreases |more|
  {
    if more == [] {
      assert chunks + more == chunks;
    } else {
      var init := more[..|more| - 1];
      assert (chunks + more)[..|chunks + more| - 1] == chunks + init;
      assert (chunks + more)[|chunks + more| - 1] == more[|more| - 1];
      CoordsOfAppend(chunks, init);
    }
  }

  /** Every chunk on the list is the one stored under its coordinate. */
  ghost predicate Stored(list: seq<TerrainChunk>, dictionary: map<Coord, TerrainChunk>)
  {
    forall i :: 0 <= i < |list| ==> list[i].coord in dictionary && dictionary[list[i].coord] == list[i]
  }

  /** Every coordinate of before is still a key of after, holding the same chunk. */
  ghost predicate Kept(before: map<Coord, TerrainChunk>, after: map<Coord, TerrainChunk>)
  {
    forall c :: c in before ==> c in after && after[c] == before[c]
  }

  /** Every chunk of the dictionary is stored under its own coordinate. */
  ghost predicate Keyed(dictionary: map<Coord, TerrainChunk>)
  {
    forall c :: c in dictionary ==> dictionary[c].coord == c
  }

  /** A dictionary keyed by coordinate that keeps every chunk keeps every chunk under its key. */
  lemma KeptChunks(before: map<Coord, TerrainChunk>, after: map<Coord, TerrainChunk>)
    requires Keyed(before) && Keyed(after) && before.Values <= after.Values
    ensures Kept(before, after)
  {
    forall c | c in before ensures c in after && after[c] == before[c] {
      assert before[c] in before.Values;
      var c' :| c' in after && after[c'] == before[c];
    }
  }

  lemma CoordsOfPrefix(chunks: seq<TerrainChunk>, i: nat)
    requires i < |chunks|
    ensures CoordsOf(chunks[..i + 1]) == CoordsOf(chunks[..i]) + [chunks[i].coord]
  {
    assert chunks[..i + 1][..i] == chunks[..i];
  }

  /**
   * The streamer: every chunk ever created, by coordinate, and the chunks
   * listed as visible since the last refresh. requests logs every call made
   * into the map generator, in order.
   */
  class EndlessTerrain {
    const detailLevels: seq<LODInfo>
    const chunkSize: int
    const chunksVisibleInViewDst: int
    var viewerPosition: (real, real)
    var viewerPositionOld: (real, real)
    var terrainChunkDictionary: map<Coord, TerrainChunk>
    var terrainChunksVisibleLastUpdate: seq<TerrainChunk>
    var requests: seq<Request>
    /** The state of each stored chunk, by coordinate. */
    ghost var chunkStates: map<Coord, ChunkState>
    /** The slot every chunk binds to its collider: the last level flagged for the collider. */
    ghost const collisionLevel: nat

    /** chunk is well formed, sits at c, shares the detail levels and is in state s. */
    ghost predicate Represents(chunk: TerrainChunk, c: Coord, s: ChunkState)
      reads chunk
    {
      && chunk.Valid() && chunk.coord == c && chunk.detailLevels == detailLevels
      && chunk.collisionIndex == collisionLevel && chunk.State() == s
    }

    /** The streamer's state as a value. */
    ghost function Abstract(): World
      reads this
    {
      World(chunkStates, CoordsOf(terrainChunksVisibleLastUpdate), requests)
    }

    /**
     * Every stored chunk is well formed and in its recorded state, and the
     * visible list only holds stored chunks.
     */
    ghost predicate Valid()
      reads this, terrainChunkDictionary.Values
    {
      && LastColliderIndex(detailLevels) == Some(collisionLevel)
      && chunkStates.Keys == terrainChunkDictionary.Keys
      && (forall c :: c in terrainChunkDictionary ==> Represents(terrainChunkDictionary[c], c, chunkStates[c]))
      && Stored(terrainChunksVisibleLastUpdate, terrainChunkDictionary)
      && WorldFits(Abstract(), detailLevels)
    }

    /** Valid, and every chunk showing is in the visible list. */
    ghost predicate Consistent()
      reads this, terrainChunkDictionary.Values
    {
      Valid() && ShownAreListed(Abstract())
    }

    /**
     * Start: the chunk size is one less than the map chunk size, the window
     * radius is the maximum view distance in chunks, rounded, and the first
     * refresh runs with the viewer at the origin, whose chunk is (0, 0).
     * dst gives each chunk's distance from the viewer.
     */
    constructor Start(detailLevels: seq<LODInfo>, useFlatShading: bool, dst: Coord -> real)
      requires Configured(detailLevels)
      ensures Consistent()
      ensures this.detailLevels == detailLevels
      ensures chunkSize == MapChunkSize(useFlatShading) - 1
      ensures chunksVisibleInViewDst == RoundToInt(MaxViewDst(detailLevels) / chunkSize as real)
      ensures viewerPosition == (0.0, 0.0) && viewerPositionOld == (0.0, 0.0)
      ensures Abstract() == Refresh(World(map[], [], []), (0, 0), chunksVisibleInViewDst, detailLevels, dst)
    {
      this.detailLevels := detailLevels;
      var size := MapChunkSize(useFlatShading) - 1;
      chunkSize := size;
      collisionLevel := LastColliderIndex(detailLevels).value;
      chunksVisibleInViewDst := RoundToInt(MaxViewDst(detailLevels) / size as real);
      viewerPosition, viewerPositionOld := (0.0, 0.0), (0.0, 0.0);
      terrainChunkDictionary, terrainChunksVisibleLastUpdate, requests := map[], [], [];
      chunkStates := map[];
      new;
      RoundZero(size as real);
      assert ViewerChunk() == (0, 0);
      assert Abstract() == World(map[], [], []);
      UpdateVisibleChunks(dst);
    }

    /** The viewer's chunk: its position divided by the chunk size, rounded on each axis. */
    function ViewerChunk(): (chunk: Coord)
      reads this
      requires chunkSize > 0
      ensures -0.5 <= viewerPosition.0 / chunkSize as real - chunk.0 as real <= 0.5
      ensures -0.5 <= viewerPosition.1 / chunkSize as real - chunk.1 as real <= 0.5
    {
      (RoundToInt(viewerPosition.0 / chunkSize as real), RoundToInt(viewerPosition.1 / chunkSize as real))
    }

    /**
     * One frame: take the viewer's new position and refresh the window only
     * if the viewer moved more than the threshold since the last refresh.
     */
    method Update(newViewerPosition: (real, real), dst: Coord -> real)
      requires Consistent() && chunkSize > 0
      modifies this, terrainChunkDictionary.Values
      ensures Consistent()
      ensures viewerPosition == newViewerPosition
      ensures var refresh := ShouldRefresh(old(viewerPositionOld).0, old(viewerPositionOld).1,
                                           newViewerPosition.0, newViewerPosition.1);
        && viewerPositionOld == (if refresh then newViewerPosition else old(viewerPositionOld))
        && Abstract() == if refresh then Refresh(old(Abstract()), ViewerChunk(), chunksVisibleInViewDst, detailLevels, dst)
                         else old(Abstract())
      ensures Kept(old(terrainChunkDictionary), terrainChunkDictionary)
    {
      viewerPosition := newViewerPosition;
      if ShouldRefresh(viewerPositionOld.0, viewerPositionOld.1, viewerPosition.0, viewerPosition.1) {
        viewerPositionOld := viewerPosition;
        UpdateVisibleChunks(dst);
      }
    }

    /**
     * The refresh: hide the chunks listed last time and empty the list, then
     * visit every cell of the window around the viewer's chunk, row by row.
     */
    method UpdateVisibleChunks(dst: Coord -> real)
      requires Consistent() && chunkSize > 0
      modifies this, terrainChunkDictionary.Values
      ensures Consistent()
      ensures Abstract() == Refresh(old(Abstract()), old(ViewerChunk()), chunksVisibleInViewDst, detailLevels, dst)
      ensures viewerPosition == old(viewerPosition) && viewerPositionOld == old(viewerPositionOld)
      ensures Kept(old(terrainChunkDictionary), terrainChunkDictionary)
    {
      ghost var w := Abstract();
      ghost var stored := terrainChunkDictionary;
      assert Keyed(stored);
      HideVisibleChunks();
      HideListedHidesAll(w);
      var center := ViewerChunk();
      ScanWindow(center, dst);
      RefreshSpec(w, center, chunksVisibleInViewDst, detailLevels, dst);
      KeptChunks(stored, terrainChunkDictionary);
    }

    /** The two nested loops of the refresh: the rows of the window top to bottom. */
    method ScanWindow(center: Coord, dst: Coord -> real)
      requires Valid()
      modifies this, terrainChunkDictionary.Values
      ensures Valid()
      ensures Abstract() == Scan(old(Abstract()), WindowCells(center, chunksVisibleInViewDst), detailLevels, dst)
      ensures viewerPosition == old(viewerPosition) && viewerPositionOld == old(viewerPositionOld)
      ensures old(terrainChunkDictionary).Values <= terrainChunkDictionary.Values
    {
      ghost var h := Abstract();
      var yOffset := -chunksVisibleInViewDst;
      while yOffset <= chunksVisibleInViewDst
        invariant -chunksVisibleInViewDst <= yOffset && yOffset + chunksVisibleInViewDst <= Width(chunksVisibleInViewDst)
        invariant Valid()
        invariant Abstract() == Scan(h, Rows(center, chunksVisibleInViewDst, yOffset + chunksVisibleInViewDst), detailLevels, dst)
        invariant viewerPosition == old(viewerPosition) && viewerPositionOld == old(viewerPositionOld)
        invariant forall c :: c in terrainChunkDictionary ==>
          (c in old(terrainChunkDictionary) && terrainChunkDictionary[c] == old(terrainChunkDictionary)[c]) || fresh(terrainChunkDictionary[c])
        invariant old(terrainChunkDictionary).Values <= terrainChunkDictionary.Values
      {
        ScanRow(h, center, yOffset, dst);
        yOffset := yOffset + 1;
      }
      assert yOffset + chunksVisibleInViewDst == Width(chunksVisibleInViewDst);
    }

    /**
     * The inner loop of the refresh: row yOffset of the window, left to
     * right, after the rows above it.
     */
    method ScanRow(ghost h: World, center: Coord, yOffset: int, dst: Coord -> real)
      requires Valid() && WorldFits(h, detailLevels) && -chunksVisibleInViewDst <= yOffset
      requires Abstract() == Scan(h, Rows(center, chunksVisibleInViewDst, yOffset + chunksVisibleInViewDst), detailLevels, dst)
      modifies this, terrainChunkDictionary.Values
      ensures Valid()
      ensures Abstract() == Scan(h, Rows(center, chunksVisibleInViewDst, yOffset + 1 + chunksVisibleInViewDst), detailLevels, dst)
      ensures viewerPosition == old(viewerPosition) && viewerPositionOld == old(viewerPositionOld)
      ensures forall c :: c in terrainChunkDictionary ==>
        (c in old(terrainChunkDictionary) && terrainChunkDictionary[c] == old(terrainChunkDictionary)[c]) || fresh(terrainChunkDictionary[c])
      ensures old(terrainChunkDictionary).Values <= terrainChunkDictionary.Values
    {
      ghost var above := Rows(center, chunksVisibleInViewDst, yOffset + chunksVisibleInViewDst);
      NoCellYet(above, center, chunksVisibleInViewDst, yOffset);
      var xOffset := -chunksVisibleInViewDst;
      while xOffset <= chunksVisibleInViewDst
        invariant -chunksVisibleInViewDst <= xOffset && xOffset + chunksVisibleInViewDst <= Width(chunksVisibleInViewDst)
        invariant Valid()
        invariant Abstract() == Scan(h, above + Row(center, chunksVisibleInViewDst, yOffset, xOffset + chunksVisibleInViewDst), detailLevels, dst)
        invariant viewerPosition == old(viewerPosition) && viewerPositionOld == old(viewerPositionOld)
        invariant forall c :: c in terrainChunkDictionary ==>
          (c in old(terrainChunkDictionary) && terrainChunkDictionary[c] == old(terrainChunkDictionary)[c]) || fresh(terrainChunkDictionary[c])
        invariant old(terrainChunkDictionary).Values <= terrainChunkDictionary.Values
      {
        ScanCell(h, above, center, yOffset, xOffset, dst);
        xOffset := xOffset + 1;
      }
      assert xOffset + chunksVisibleInViewDst == Width(chunksVisibleInViewDst);
      RowsAppend(center, chunksVisibleInViewDst, yOffset);
    }

    /** One pass of the inner loop: visit cell xOffset of row yOffset after the cells before it. */
    method ScanCell(ghost h: World, ghost above: seq<Coord>, center: Coord, yOffset: int, xOffset: int, dst: Coord -> real)
      requires Valid() && WorldFits(h, detailLevels) && -chunksVisibleInViewDst <= xOffset
      requires Abstract() == Scan(h, above + Row(center, chunksVisibleInViewDst, yOffset, xOffset + chunksVisibleInViewDst), detailLevels, dst)
      modifies this, terrainChunkDictionary.Values
      ensures Valid()
      ensures Abstract() == Scan(h, above + Row(center, chunksVisibleInViewDst, yOffset, xOffset + 1 + chunksVisibleInViewDst), detailLevels, dst)
      ensures viewerPosition == old(viewerPosition) && viewerPositionOld == old(viewerPositionOld)
      ensures forall c :: c in terrainChunkDictionary ==>
        (c in old(terrainChunkDictionary) && terrainChunkDictionary[c] == old(terrainChunkDictionary)[c]) || fresh(terrainChunkDictionary[c])
      ensures old(terrainChunkDictionary).Values <= terrainChunkDictionary.Values
    {
      var viewedChunkCoord := (center.0 + xOffset, center.1 + yOffset);
      ghost var done := above + Row(center, chunksVisibleInViewDst, yOffset, xOffset + chunksVisibleInViewDst);
      VisitCell(viewedChunkCoord, dst);
      CellAppend(above, center, chunksVisibleInViewDst, yOffset, xOffset);
      ScanAppend(h, done, viewedChunkCoord, detailLevels, dst);
    }

    /** One cell of the window scan: update the chunk stored there, or create one. */
    method VisitCell(viewedChunkCoord: Coord, dst: Coord -> real)
      requires Valid()
      modifies this, terrainChunkDictionary.Values
      ensures Valid()
      ensures Abstract() == Visit(old(Abstract()), viewedChunkCoord, detailLevels, dst(viewedChunkCoord))
      ensures viewerPosition == old(viewerPosition) && viewerPositionOld == old(viewerPositionOld)
      ensures forall c :: c in terrainChunkDictionary ==>
        (c in old(terrainChunkDictionary) && terrainChunkDictionary[c] == old(terrainChunkDictionary)[c]) || fresh(terrainChunkDictionary[c])
      ensures old(terrainChunkDictionary).Values <= terrainChunkDictionary.Values
    {
      if viewedChunkCoord in terrainChunkDictionary {
        UpdateStoredChunk(viewedChunkCoord, dst(viewedChunkCoord));
      } else {
        CreateChunk(viewedChunkCoord);
      }
    }

    /** The first half of a refresh: hide every listed chunk, then empty the list. */
    method HideVisibleChunks()
      requires Valid()
      modifies this, terrainChunkDictionary.Values
      ensures Valid()
      ensures Abstract() == World(HideListed(old(chunkStates), old(Abstract()).listed), [], old(requests))
      ensures terrainChunkDictionary == old(terrainChunkDictionary)
      ensures viewerPosition == old(viewerPosition) && viewerPositionOld == old(viewerPositionOld)
    {
      HideListedChunks();
      ClearVisibleList();
    }

    /** Empties the visible list once every chunk on it is hidden. */
    method ClearVisibleList()
      requires LastColliderIndex(detailLevels) == Some(collisionLevel)
      requires chunkStates.Keys == terrainChunkDictionary.Keys
      requires forall c :: c in terrainChunkDictionary ==> Represents(terrainChunkDictionary[c], c, chunkStates[c])
      modifies this
      ensures Valid()
      ensures Abstract() == World(old(chunkStates), [], old(requests))
      ensures terrainChunkDictionary == old(terrainChunkDictionary)
      ensures viewerPosition == old(viewerPosition) && viewerPositionOld == old(viewerPositionOld)
    {
      terrainChunksVisibleLastUpdate := [];
    }

    /** The hide loop over the visible list. */
    method HideListedChunks()
      requires chunkStates.Keys == terrainChunkDictionary.Keys && Stored(terrainChunksVisibleLastUpdate, terrainChunkDictionary)
      requires forall c :: c in terrainChunkDictionary ==> Represents(terrainChunkDictionary[c], c, chunkStates[c])
      modifies this, terrainChunkDictionary.Values
      ensures chunkStates == HideListed(old(chunkStates), CoordsOf(terrainChunksVisibleLastUpdate))
      ensures chunkStates.Keys == terrainChunkDictionary.Keys
      ensures forall c :: c in terrainChunkDictionary ==> Represents(terrainChunkDictionary[c], c, chunkStates[c])
      ensures terrainChunkDictionary == old(terrainChunkDictionary)
      ensures terrainChunksVisibleLastUpdate == old(terrainChunksVisibleLastUpdate) && requests == old(requests)
      ensures viewerPosition == old(viewerPosition) && viewerPositionOld == old(viewerPositionOld)
    {
      var i := 0;
      while i < |terrainChunksVisibleLastUpdate|
        invariant 0 <= i <= |terrainChunksVisibleLastUpdate|
        invariant terrainChunkDictionary == old(terrainChunkDictionary)
        invariant terrainChunksVisibleLastUpdate == old(terrainChunksVisibleLastUpdate)
        invariant requests == old(requests)
        invariant viewerPosition == old(viewerPosition) && viewerPositionOld == old(viewerPositionOld)
        invariant Stored(terrainChunksVisibleLastUpdate, terrainChunkDictionary) && chunkStates.Keys == terrainChunkDictionary.Keys
        invariant forall c :: c in terrainChunkDictionary ==> Represents(terrainChunkDictionary[c], c, chunkStates[c])
        invariant chunkStates == HideListed(old(chunkStates), CoordsOf(terrainChunksVisibleLastUpdate[..i]))
      {
        HideChunk(terrainChunksVisibleLastUpdate[i]);
        CoordsOfPrefix(terrainChunksVisibleLastUpdate, i);
        i := i + 1;
      }
      assert terrainChunksVisibleLastUpdate[..i] == terrainChunksVisibleLastUpdate;
    }

    /** Hides one stored chunk. */
    method HideChunk(chunk: TerrainChunk)
      requires chunk.coord in terrainChunkDictionary && terrainChunkDictionary[chunk.coord] == chunk
      requires chunkStates.Keys == terrainChunkDictionary.Keys
      requires forall c :: c in terrainChunkDictionary ==> Represents(terrainChunkDictionary[c], c, chunkStates[c])
      modifies this, chunk
      ensures chunkStates == old(chunkStates)[chunk.coord := Hidden(old(chunkStates)[chunk.coord])]
      ensures chunkStates.Keys == terrainChunkDictionary.Keys
      ensures forall c :: c in terrainChunkDictionary ==> Represents(terrainChunkDictionary[c], c, chunkStates[c])
      ensures terrainChunkDictionary == old(terrainChunkDictionary)
      ensures terrainChunksVisibleLastUpdate == old(terrainChunksVisibleLastUpdate) && requests == old(requests)
      ensures viewerPosition == old(viewerPosition) && viewerPositionOld == old(viewerPositionOld)
    {
      assert Represents(chunk, chunk.coord, chunkStates[chunk.coord]);
      chunk.SetVisible(false);
      StoreState(chunk);
    }

    /** The cell of the window scan at a coordinate that already holds a chunk: update that chunk. */
    method UpdateStoredChunk(viewedChunkCoord: Coord, viewerDstFromNearestEdge: real)
      requires Valid() && viewedChunkCoord in terrainChunkDictionary
      modifies this, terrainChunkDictionary[viewedChunkCoord]
      ensures Valid()
      ensures Abstract() == Visit(old(Abstract()), viewedChunkCoord, detailLevels, viewerDstFromNearestEdge)
      ensures viewerPosition == old(viewerPosition) && viewerPositionOld == old(viewerPositionOld)
      ensures terrainChunkDictionary == old(terrainChunkDictionary)
    {
      ghost var w := Abstract();
      var chunk := terrainChunkDictionary[viewedChunkCoord];
      ghost var r := ChunkStep(w.chunks[viewedChunkCoord], detailLevels, viewerDstFromNearestEdge);
      var requested, listed := chunk.UpdateTerrainChunk(viewerDstFromNearestEdge);
      FinishUpdate(chunk, requested, listed);
    }

    /**
     * The map-data callback of the chunk stored at coord, run when the map
     * generator's queue is drained, with the viewer at distance
     * viewerDstFromNearestEdge from the chunk.
     */
    method OnChunkMapData(coord: Coord, mapData: MapData, viewerDstFromNearestEdge: real)
      requires Consistent() && coord in terrainChunkDictionary
      modifies this, terrainChunkDictionary[coord]
      ensures Consistent()
      ensures Abstract() == DeliverMapData(old(Abstract()), coord, detailLevels, mapData, viewerDstFromNearestEdge)
      ensures viewerPosition == old(viewerPosition) && viewerPositionOld == old(viewerPositionOld)
      ensures terrainChunkDictionary == old(terrainChunkDictionary)
    {
      ghost var w := Abstract();
      var chunk := terrainChunkDictionary[coord];
      ghost var r := ReceiveMapData(w.chunks[coord], detailLevels, collisionLevel, mapData, viewerDstFromNearestEdge);
      var requested, listed := chunk.OnMapDataReceived(mapData, viewerDstFromNearestEdge);
      FinishUpdate(chunk, requested, listed);
      MapDataKeepsShownAreListed(w, coord, detailLevels, mapData, viewerDstFromNearestEdge);
    }

    /**
     * The callback of level levelIndex's mesh of the chunk stored at coord,
     * run when the map generator's queue is drained, with the viewer at
     * distance viewerDstFromNearestEdge from the chunk.
     */
    method OnChunkMesh(coord: Coord, levelIndex: nat, meshData: MeshData, viewerDstFromNearestEdge: real)
      requires Consistent() && coord in terrainChunkDictionary && levelIndex < |detailLevels|
      modifies this, terrainChunkDictionary[coord]
      ensures Consistent()
      ensures Abstract() == DeliverMesh(old(Abstract()), coord, detailLevels, levelIndex, meshData, viewerDstFromNearestEdge)
      ensures viewerPosition == old(viewerPosition) && viewerPositionOld == old(viewerPositionOld)
      ensures terrainChunkDictionary == old(terrainChunkDictionary)
    {
      ghost var w := Abstract();
      var chunk := terrainChunkDictionary[coord];
      ghost var r := ReceiveMesh(w.chunks[coord], detailLevels, collisionLevel, levelIndex, meshData, viewerDstFromNearestEdge);
      var requested, listed := chunk.OnLODMeshReceived(levelIndex, meshData, viewerDstFromNearestEdge);
      FinishUpdate(chunk, requested, listed);
      MeshKeepsShownAreListed(w, coord, detailLevels, levelIndex, meshData, viewerDstFromNearestEdge);
    }

    /**
     * After the stored chunk at chunk.coord has run an update: record its new
     * state, list it if the update says so, and log its mesh requests.
     */
    method FinishUpdate(chunk: TerrainChunk, requested: seq<nat>, listed: bool)
      requires chunk.coord in terrainChunkDictionary && terrainChunkDictionary[chunk.coord] == chunk
      requires Represents(chunk, chunk.coord, chunk.State())
      requires LastColliderIndex(detailLevels) == Some(collisionLevel)
      requires chunkStates.Keys == terrainChunkDictionary.Keys
      requires forall c :: c in terrainChunkDictionary && c != chunk.coord ==>
        Represents(terrainChunkDictionary[c], c, chunkStates[c])
      requires Stored(terrainChunksVisibleLastUpdate, terrainChunkDictionary) && WorldFits(Abstract(), detailLevels)
      modifies this
      ensures Valid()
      ensures Abstract() == AfterUpdate(old(Abstract()), chunk.coord, StepResult(chunk.State(), requested, listed))
      ensures terrainChunkDictionary == old(terrainChunkDictionary)
      ensures viewerPosition == old(viewerPosition) && viewerPositionOld == old(viewerPositionOld)
    {
      StoreState(chunk);
      Enlist(chunk, listed);
      LogMeshRequests(chunk.coord, requested);
    }

    /** Records the new state of the stored chunk at chunk.coord after it changed. */
    method StoreState(chunk: TerrainChunk)
      requires chunk.coord in terrainChunkDictionary && terrainChunkDictionary[chunk.coord] == chunk
      requires chunk.Valid() && chunk.detailLevels == detailLevels && chunk.collisionIndex == collisionLevel
      requires chunkStates.Keys == terrainChunkDictionary.Keys
      requires forall c :: c in terrainChunkDictionary && c != chunk.coord ==>
        Represents(terrainChunkDictionary[c], c, chunkStates[c])
      modifies this
      ensures chunkStates == old(chunkStates)[chunk.coord := chunk.State()]
      ensures chunkStates.Keys == terrainChunkDictionary.Keys
      ensures forall c :: c in terrainChunkDictionary ==> Represents(terrainChunkDictionary[c], c, chunkStates[c])
      ensures terrainChunkDictionary == old(terrainChunkDictionary)
      ensures terrainChunksVisibleLastUpdate == old(terrainChunksVisibleLastUpdate) && requests == old(requests)
      ensures viewerPosition == old(viewerPosition) && viewerPositionOld == old(viewerPositionOld)
    {
      chunkStates := chunkStates[chunk.coord := chunk.State()];
    }

    /** Puts a stored chunk on the visible list if its update says so. */
    method Enlist(chunk: TerrainChunk, listed: bool)
      requires chunk.coord in terrainChunkDictionary && terrainChunkDictionary[chunk.coord] == chunk
      requires Stored(terrainChunksVisibleLastUpdate, terrainChunkDictionary)
      modifies this
      ensures Stored(terrainChunksVisibleLastUpdate, terrainChunkDictionary)
      ensures CoordsOf(terrainChunksVisibleLastUpdate) ==
        CoordsOf(old(terrainChunksVisibleLastUpdate)) + if listed then [chunk.coord] else []
      ensures terrainChunkDictionary == old(terrainChunkDictionary) && chunkStates == old(chunkStates)
      ensures requests == old(requests)
      ensures viewerPosition == old(viewerPosition) && viewerPositionOld == old(viewerPositionOld)
    {
      if listed {
        CoordsOfAppend(terrainChunksVisibleLastUpdate, [chunk]);
        terrainChunksVisibleLastUpdate := terrainChunksVisibleLastUpdate + [chunk];
      }
    }

    /** Logs the mesh requests a chunk's update made. */
    method LogMeshRequests(coord: Coord, requested: seq<nat>)
      modifies this
      ensures requests == old(requests) + MeshRequests(coord, requested)
      ensures terrainChunkDictionary == old(terrainChunkDictionary) && chunkStates == old(chunkStates)
      ensures terrainChunksVisibleLastUpdate == old(terrainChunksVisibleLastUpdate)
      ensures viewerPosition == old(viewerPosition) && viewerPositionOld == old(viewerPositionOld)
    {
      requests := requests + MeshRequests(coord, requested);
    }

    /** The cell of the window scan at a new coordinate: create the chunk, which requests its map data. */
    method CreateChunk(viewedChunkCoord: Coord)
      requires Valid() && viewedChunkCoord !in terrainChunkDictionary
      modifies this
      ensures Valid()
      ensures Abstract() == World(old(chunkStates)[viewedChunkCoord := InitialState(detailLevels)],
                                  old(Abstract()).listed, old(requests) + [MapDataRequest(viewedChunkCoord)])
      ensures viewerPosition == old(viewerPosition) && viewerPositionOld == old(viewerPositionOld)
      ensures terrainChunkDictionary == old(terrainChunkDictionary)[viewedChunkCoord := terrainChunkDictionary[viewedChunkCoord]]
      ensures fresh(terrainChunkDictionary[viewedChunkCoord])
    {
      var chunk := new TerrainChunk(viewedChunkCoord, detailLevels);
      AddChunk(chunk);
    }

    /** Stores a new chunk under its coordinate and logs its map-data request. */
    method AddChunk(chunk: TerrainChunk)
      requires Valid() && chunk.coord !in terrainChunkDictionary
      requires Represents(chunk, chunk.coord, InitialState(detailLevels))
      modifies this
      ensures Valid()
      ensures Abstract() == World(old(chunkStates)[chunk.coord := InitialState(detailLevels)],
                                  old(Abstract()).listed, old(requests) + [MapDataRequest(chunk.coord)])
      ensures viewerPosition == old(viewerPosition) && viewerPositionOld == old(viewerPositionOld)
      ensures terrainChunkDictionary == old(terrainChunkDictionary)[chunk.coord := chunk]
    {
      terrainChunkDictionary := terrainChunkDictionary[chunk.coord := chunk];
      requests := requests + [MapDataRequest(chunk.coord)];
      chunkStates := chunkStates[chunk.coord := chunk.State()];
    }
  }
}

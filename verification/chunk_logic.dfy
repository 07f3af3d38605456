/**
 * The decisions EndlessTerrain (Assets/Scripts/EndlessTerrain.cs) makes, as
 * functions on values: the viewer-movement gate, the level-of-detail choice,
 * and the effect of one chunk update on a chunk's state. The classes in
 * module Terrain are proved to follow these functions.
 */
module ChunkLogic {
  import opened Wrappers
  import opened MapGen

  /** One row of the detail-level table: the mesh LOD, its distance limit, whether it feeds the collider. */
  datatype LODInfo = LODInfo(lod: int, visibleDstThreshold: real, useForCollider: bool)

  /** The viewer must move more than 25 units before the chunk window is refreshed. */
  const ViewerMoveThresholdForChunkUpdate: real := 25.0
  const SqrViewerMoveThresholdForChunkUpdate: real :=
    ViewerMoveThresholdForChunkUpdate * ViewerMoveThresholdForChunkUpdate

  /** The refresh gate: squared distance between the last refresh position and the current one exceeds 25^2. */
  predicate ShouldRefresh(oldX: real, oldY: real, newX: real, newY: real)
  {
    (oldX - newX) * (oldX - newX) + (oldY - newY) * (oldY - newY) > SqrViewerMoveThresholdForChunkUpdate
  }

  lemma SquareBound(d: real, b: real)
    requires 0.0 <= b && -b <= d <= b
    ensures d * d <= b * b
  {
    if d >= 0.0 {
      assert d * d <= d * b <= b * b;
    } else {
      assert d * d == (-d) * (-d) <= (-d) * b <= b * b;
    }
  }

  /** A viewer that stays within 17.5 units on both axes never triggers a refresh. */
  lemma SmallMoveNeverRefreshes(oldX: real, oldY: real, newX: real, newY: real)
    requires -17.5 <= oldX - newX <= 17.5 && -17.5 <= oldY - newY <= 17.5
    ensures !ShouldRefresh(oldX, oldY, newX, newY)
  {
    SquareBound(oldX - newX, 17.5);
    SquareBound(oldY - newY, 17.5);
  }

  lemma SquareExceeds(d: real)
    requires d > ViewerMoveThresholdForChunkUpdate || d < -ViewerMoveThresholdForChunkUpdate
    ensures d * d > SqrViewerMoveThresholdForChunkUpdate
  {
    var a := if d > 0.0 then d else -d;
    assert d * d == a * a;
    assert a * a > a * 25.0 > 25.0 * 25.0;
  }

  lemma SquareNonNegative(d: real)
    ensures d * d >= 0.0
  {
    if d < 0.0 {
      assert d * d == (-d) * (-d);
    }
  }

  /** A move of more than 25 units along either axis always triggers a refresh. */
  lemma LargeMoveRefreshes(oldX: real, oldY: real, newX: real, newY: real)
    requires oldX - newX > 25.0 || newX - oldX > 25.0 || oldY - newY > 25.0 || newY - oldY > 25.0
    ensures ShouldRefresh(oldX, oldY, newX, newY)
  {
    if oldX - newX > 25.0 || newX - oldX > 25.0 {
      SquareExceeds(oldX - newX);
      SquareNonNegative(oldY - newY);
    } else {
      SquareExceeds(oldY - newY);
      SquareNonNegative(oldX - newX);
    }
  }

  /** Unity's Mathf.RoundToInt: the nearest integer, a tie going to the even neighbour. */
  function RoundToInt(x: real): (n: int)
    ensures -0.5 <= x - n as real <= 0.5
    ensures (x - n as real == 0.5 || n as real - x == 0.5) ==> n % 2 == 0
  {
    var f := x.Floor;
    var frac := x - f as real;
    if frac < 0.5 then f
    else if frac > 0.5 then f + 1
    else if f % 2 == 0 then f
    else f + 1
  }

  /** The largest distance at which any chunk is shown: the last level's threshold. */
  function MaxViewDst(levels: seq<LODInfo>): real
    requires |levels| > 0
  {
    levels[|levels| - 1].visibleDstThreshold
  }

  /**
   * How many leading thresholds the distance strictly exceeds: the LOD scan
   * walks the thresholds in order and stops at the first one not exceeded.
   */
  function ExceededPrefix(dst: real, levels: seq<LODInfo>): (n: nat)
    ensures n <= |levels|
    ensures forall j :: 0 <= j < n ==> dst > levels[j].visibleDstThreshold
    ensures n < |levels| ==> dst <= levels[n].visibleDstThreshold
  {
    if levels == [] || !(dst > levels[0].visibleDstThreshold) then 0
    else 1 + ExceededPrefix(dst, levels[1..])
  }

  /**
   * The level chosen for a chunk at distance dst: the scan covers all levels
   * but the last, so a distance beyond every threshold falls back to the
   * coarsest level.
   */
  function LODIndex(dst: real, levels: seq<LODInfo>): (k: nat)
    requires |levels| > 0
    ensures k <= |levels| - 1
    ensures forall j :: 0 <= j < k ==> dst > levels[j].visibleDstThreshold
    ensures k < |levels| - 1 ==> dst <= levels[k].visibleDstThreshold
  {
    ExceededPrefix(dst, levels[..|levels| - 1])
  }

  /** Thresholds in non-decreasing order, the detail table's intended invariant. */
  ghost predicate AscendingThresholds(levels: seq<LODInfo>)
  {
    forall i, j :: 0 <= i <= j < |levels| ==> levels[i].visibleDstThreshold <= levels[j].visibleDstThreshold
  }

  /** A farther chunk never gets a finer level, whatever the table's order. */
  lemma LODIndexMonotone(d1: real, d2: real, levels: seq<LODInfo>)
    requires |levels| > 0 && d1 <= d2
    ensures LODIndex(d1, levels) <= LODIndex(d2, levels)
  {
  }

  /** Reference definition: how many thresholds the distance strictly exceeds, with no early stop. */
  function CountExceeded(dst: real, levels: seq<LODInfo>): (n: nat)
    ensures n <= |levels|
  {
    if levels == [] then 0
    else (if dst > levels[0].visibleDstThreshold then 1 else 0) + CountExceeded(dst, levels[1..])
  }

  lemma {:induction false} NoneExceeded(dst: real, levels: seq<LODInfo>)
    requires forall j :: 0 <= j < |levels| ==> dst <= levels[j].visibleDstThreshold
    ensures CountExceeded(dst, levels) == 0
  {
    if levels != [] {
      NoneExceeded(dst, levels[1..]);
    }
  }

  lemma {:induction false} AscendingPrefixCountsExceeded(dst: real, levels: seq<LODInfo>)
    requires AscendingThresholds(levels)
    ensures ExceededPrefix(dst, levels) == CountExceeded(dst, levels)
  {
    if levels != [] {
      if dst > levels[0].visibleDstThreshold {
        AscendingPrefixCountsExceeded(dst, levels[1..]);
      } else {
        NoneExceeded(dst, levels);
      }
    }
  }

  /**
   * With ascending thresholds the chosen level is the number of levels (all
   * but the last) whose threshold the distance exceeds.
   */
  lemma AscendingLODIndexCountsExceeded(dst: real, levels: seq<LODInfo>)
    requires |levels| > 0 && AscendingThresholds(levels)
    ensures LODIndex(dst, levels) == CountExceeded(dst, levels[..|levels| - 1])
  {
    AscendingPrefixCountsExceeded(dst, levels[..|levels| - 1]);
  }

  /**
   * The level whose mesh becomes the collision mesh: the last one flagged
   * useForCollider, or None when no level is flagged.
   */
  function LastColliderIndex(levels: seq<LODInfo>): (r: Option<nat>)
    ensures r.Some? ==> r.value < |levels| && levels[r.value].useForCollider
  {
    if levels == [] then None
    else if levels[|levels| - 1].useForCollider then Some(|levels| - 1)
    else LastColliderIndex(levels[..|levels| - 1])
  }

  /** No level after the collision level is flagged for the collider, and None means no level is. */
  lemma {:induction false} LastColliderIndexIsLast(levels: seq<LODInfo>)
    ensures var r := LastColliderIndex(levels);
      && (r.Some? ==> forall j :: r.value < j < |levels| ==> !levels[j].useForCollider)
      && (r.None? ==> forall j :: 0 <= j < |levels| ==> !levels[j].useForCollider)
    decreases |levels|
  {
    if levels != [] && !levels[|levels| - 1].useForCollider {
      var init := levels[..|levels| - 1];
      LastColliderIndexIsLast(init);
      assert forall j :: 0 <= j < |init| ==> levels[j] == init[j];
    }
  }

  /** The origin rounds to chunk 0. */
  lemma RoundZero(d: real)
    requires d > 0.0
    ensures RoundToInt(0.0 / d) == 0
  {
    assert 0.0 / d == 0.0;
  }

  /** One level's mesh slot of a chunk: whether its mesh was requested, whether it arrived, and the mesh. */
  datatype LODMesh = LODMesh(hasRequestedMesh: bool, hasMesh: bool, mesh: Option<MeshData>)

  /** Everything about a chunk that its updates change. */
  datatype ChunkState = ChunkState(
    mapData: Option<MapData>,
    mapDataReceived: bool,
    visible: bool,
    previousLODIndex: int,
    lodMeshes: seq<LODMesh>,
    displayedMesh: Option<MeshData>,
    colliderMesh: Option<MeshData>)

  /** A chunk state that fits a detail table of |levels| levels. */
  predicate Fits(s: ChunkState, levels: seq<LODInfo>)
  {
    |levels| > 0 && |s.lodMeshes| == |levels|
  }

  /** A freshly built chunk: hidden, no map data, nothing requested, nothing shown. */
  function InitialState(levels: seq<LODInfo>): (s: ChunkState)
    requires |levels| > 0
    ensures Fits(s, levels)
  {
    ChunkState(None, false, false, -1,
      seq(|levels|, _ => LODMesh(false, false, None)), None, None)
  }

  /** Outcome of one chunk update: the new state, the levels whose meshes it requested (in order), whether the chunk went on the visible list. */
  datatype StepResult = StepResult(next: ChunkState, requested: seq<nat>, listed: bool)

  /** Marks level i's mesh as requested. */
  function MarkRequested(s: ChunkState, i: nat): ChunkState
    requires i < |s.lodMeshes|
  {
    s.(lodMeshes := s.lodMeshes[i := s.lodMeshes[i].(hasRequestedMesh := true)])
  }

  /** The display step: on a level change, show a cached mesh or request it once. */
  function DisplayStep(s: ChunkState, k: nat): (r: (ChunkState, seq<nat>))
    requires k < |s.lodMeshes|
    ensures r.0.(previousLODIndex := s.previousLODIndex, displayedMesh := s.displayedMesh, lodMeshes := s.lodMeshes) == s
    ensures r.0.previousLODIndex != s.previousLODIndex <==> k != s.previousLODIndex && s.lodMeshes[k].hasMesh
    ensures r.0.previousLODIndex != s.previousLODIndex ==>
      r.0.previousLODIndex == k && r.0.displayedMesh == s.lodMeshes[k].mesh
    ensures r.0.previousLODIndex == s.previousLODIndex ==> r.0.displayedMesh == s.displayedMesh
    ensures r.1 != [] <==> k != s.previousLODIndex && !s.lodMeshes[k].hasMesh && !s.lodMeshes[k].hasRequestedMesh
    ensures r.1 != [] ==> r.1 == [k] && r.0.lodMeshes == s.lodMeshes[k := s.lodMeshes[k].(hasRequestedMesh := true)]
    ensures r.1 == [] ==> r.0.lodMeshes == s.lodMeshes
  {
    if k == s.previousLODIndex then (s, [])
    else if s.lodMeshes[k].hasMesh then (s.(previousLODIndex := k, displayedMesh := s.lodMeshes[k].mesh), [])
    else if !s.lodMeshes[k].hasRequestedMesh then (MarkRequested(s, k), [k])
    else (s, [])
  }

  /** The collider step at the finest level: bind the cached collision mesh or request it once. */
  function ColliderStep(s: ChunkState, c: nat): (r: (ChunkState, seq<nat>))
    requires c < |s.lodMeshes|
    ensures r.0.(colliderMesh := s.colliderMesh, lodMeshes := s.lodMeshes) == s
    ensures |r.0.lodMeshes| == |s.lodMeshes|
    ensures s.lodMeshes[c].hasMesh ==> r.0.colliderMesh == s.lodMeshes[c].mesh
    ensures !s.lodMeshes[c].hasMesh ==> r.0.colliderMesh == s.colliderMesh && r.0.lodMeshes[c].hasRequestedMesh
    ensures r.1 != [] <==> !s.lodMeshes[c].hasMesh && !s.lodMeshes[c].hasRequestedMesh
    ensures r.1 != [] ==> r.1 == [c] && r.0.lodMeshes == s.lodMeshes[c := s.lodMeshes[c].(hasRequestedMesh := true)]
    ensures r.1 == [] ==> r.0.lodMeshes == s.lodMeshes
  {
    if s.lodMeshes[c].hasMesh then (s.(colliderMesh := s.lodMeshes[c].mesh), [])
    else if !s.lodMeshes[c].hasRequestedMesh then (MarkRequested(s, c), [c])
    else (s, [])
  }

  /**
   * One chunk update with the viewer at distance dst from the chunk's bounds;
   * c is the index of the collision level. Nothing happens before map data
   * has arrived; afterwards the chunk is shown exactly when dst is within the
   * last level's threshold, and only then is a level chosen and the chunk
   * listed as visible.
   */
  function UpdateStep(s: ChunkState, levels: seq<LODInfo>, c: nat, dst: real): (r: StepResult)
    requires Fits(s, levels) && c < |levels|
    ensures Fits(r.next, levels)
    ensures !s.mapDataReceived ==> r == StepResult(s, [], false)
    ensures s.mapDataReceived ==> r.next.visible == (dst <= MaxViewDst(levels)) && r.listed == r.next.visible
    ensures r.next.mapDataReceived == s.mapDataReceived && r.next.mapData == s.mapData
    ensures s.mapDataReceived && !(dst <= MaxViewDst(levels)) ==> r.next == s.(visible := false) && r.requested == []
    ensures s.mapDataReceived && dst <= MaxViewDst(levels) ==> var k := LODIndex(dst, levels);
      && (k != s.previousLODIndex && s.lodMeshes[k].hasMesh ==>
            r.next.previousLODIndex == k && r.next.displayedMesh == s.lodMeshes[k].mesh)
      && (k != s.previousLODIndex && !s.lodMeshes[k].hasMesh && !s.lodMeshes[k].hasRequestedMesh ==>
            k in r.requested && r.next.lodMeshes[k].hasRequestedMesh)
      && (k == 0 && s.lodMeshes[c].hasMesh ==> r.next.colliderMesh == s.lodMeshes[c].mesh)
      && (k == 0 && !s.lodMeshes[c].hasMesh ==> r.next.lodMeshes[c].hasRequestedMesh)
      && (k == 0 && !s.lodMeshes[c].hasMesh && !s.lodMeshes[c].hasRequestedMesh ==> c in r.requested)
  {
    if !s.mapDataReceived then StepResult(s, [], false)
    else if !(dst <= MaxViewDst(levels)) then StepResult(s.(visible := false), [], false)
    else
      var k := LODIndex(dst, levels);
      var (s1, r1) := DisplayStep(s, k);
      var (s2, r2) := if k == 0 then ColliderStep(s1, c) else (s1, []);
      StepResult(s2.(visible := true), r1 + r2, true)
  }

  /** An update never touches the cached meshes. */
  lemma UpdateKeepsCachedMeshes(s: ChunkState, levels: seq<LODInfo>, c: nat, dst: real)
    requires Fits(s, levels) && c < |levels|
    ensures var r := UpdateStep(s, levels, c, dst);
      forall i :: 0 <= i < |levels| ==>
        r.next.lodMeshes[i].hasMesh == s.lodMeshes[i].hasMesh && r.next.lodMeshes[i].mesh == s.lodMeshes[i].mesh
  {
    if s.mapDataReceived && dst <= MaxViewDst(levels) {
      var k := LODIndex(dst, levels);
      var s1 := DisplayStep(s, k).0;
      assert forall i :: 0 <= i < |levels| ==>
        s1.lodMeshes[i].hasMesh == s.lodMeshes[i].hasMesh && s1.lodMeshes[i].mesh == s.lodMeshes[i].mesh;
    }
  }

  /** What the map-data callback does: store the data, set the flag, then update. */
  function ReceiveMapData(s: ChunkState, levels: seq<LODInfo>, c: nat, data: MapData, dst: real): (r: StepResult)
    requires Fits(s, levels) && c < |levels|
    ensures Fits(r.next, levels)
    ensures r.next.mapDataReceived && r.next.mapData == Some(data)
  {
    UpdateStep(s.(mapData := Some(data), mapDataReceived := true), levels, c, dst)
  }

  /** What a level's mesh callback does: cache the mesh, set hasMesh, then update the chunk. */
  function ReceiveMesh(s: ChunkState, levels: seq<LODInfo>, c: nat, i: nat, mesh: MeshData, dst: real): (r: StepResult)
    requires Fits(s, levels) && c < |levels| && i < |levels|
    ensures Fits(r.next, levels)
    ensures r.next.lodMeshes[i].hasMesh && r.next.lodMeshes[i].mesh == Some(mesh)
  {
    var cached := s.(lodMeshes := s.lodMeshes[i := s.lodMeshes[i].(hasMesh := true, mesh := Some(mesh))]);
    UpdateKeepsCachedMeshes(cached, levels, c, dst);
    UpdateStep(cached, levels, c, dst)
  }
}

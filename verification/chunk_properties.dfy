/**
 * What the chunk update promises: re-running it changes nothing, a level's
 * mesh is requested at most once over any run of updates and deliveries,
 * the displayed mesh only changes to a cached mesh of the newly chosen
 * level, and the collider is only touched at the finest level.
 */
module ChunkProperties {
  import opened Wrappers
  import opened MapGen
  import opened ChunkLogic

  /** Running the same update again, with the viewer where it was, changes nothing and requests nothing. */
  lemma UpdateIdempotent(s: ChunkState, levels: seq<LODInfo>, c: nat, dst: real)
    requires Fits(s, levels) && c < |levels|
    ensures var r1 := UpdateStep(s, levels, c, dst);
      var r2 := UpdateStep(r1.next, levels, c, dst);
      r2.next == r1.next && r2.requested == [] && r2.listed == r1.listed
  {
    if s.mapDataReceived && dst <= MaxViewDst(levels) {
      var k := LODIndex(dst, levels);
      var t := UpdateStep(s, levels, c, dst).next;
      assert t.previousLODIndex == k || (!t.lodMeshes[k].hasMesh && t.lodMeshes[k].hasRequestedMesh);
      assert DisplayStep(t, k) == (t, []);
      if k == 0 {
        assert (t.lodMeshes[c].hasMesh && t.colliderMesh == t.lodMeshes[c].mesh)
          || (!t.lodMeshes[c].hasMesh && t.lodMeshes[c].hasRequestedMesh);
        assert ColliderStep(t, c) == (t, []);
      }
    }
  }

  /** How often level i appears in a request list. */
  function Occurrences(i: nat, xs: seq<nat>): (n: nat)
    ensures n <= |xs|
    ensures n == 0 <==> i !in xs
  {
    if xs == [] then 0 else (if xs[0] == i then 1 else 0) + Occurrences(i, xs[1..])
  }

  lemma {:induction false} OccurrencesAppend(i: nat, xs: seq<nat>, ys: seq<nat>)
    ensures Occurrences(i, xs + ys) == Occurrences(i, xs) + Occurrences(i, ys)
  {
    if xs == [] {
      assert xs + ys == ys;
    } else {
      assert (xs + ys)[1..] == xs[1..] + ys;
      OccurrencesAppend(i, xs[1..], ys);
    }
  }

  /** Whether level i went from not requested to requested between two states. */
  predicate NewlyRequested(s: ChunkState, t: ChunkState, i: nat)
    requires i < |s.lodMeshes| && i < |t.lodMeshes|
  {
    !s.lodMeshes[i].hasRequestedMesh && t.lodMeshes[i].hasRequestedMesh
  }

  /**
   * Going from s to t with the request list req: only valid levels are
   * requested, no flag is cleared, and each level appears in req exactly when
   * its hasRequestedMesh flag went from false to true.
   */
  ghost predicate RequestsMatchFlips(s: ChunkState, t: ChunkState, req: seq<nat>)
    requires |s.lodMeshes| == |t.lodMeshes|
  {
    && (forall i :: i in req ==> i < |s.lodMeshes|)
    && (forall i :: 0 <= i < |s.lodMeshes| && s.lodMeshes[i].hasRequestedMesh ==> t.lodMeshes[i].hasRequestedMesh)
    && (forall i: nat :: i < |s.lodMeshes| ==> Occurrences(i, req) == if NewlyRequested(s, t, i) then 1 else 0)
  }

  lemma DisplayStepMatchesFlips(s: ChunkState, k: nat)
    requires k < |s.lodMeshes|
    ensures |DisplayStep(s, k).0.lodMeshes| == |s.lodMeshes|
    ensures RequestsMatchFlips(s, DisplayStep(s, k).0, DisplayStep(s, k).1)
  {
  }

  lemma ColliderStepMatchesFlips(s: ChunkState, c: nat)
    requires c < |s.lodMeshes|
    ensures |ColliderStep(s, c).0.lodMeshes| == |s.lodMeshes|
    ensures RequestsMatchFlips(s, ColliderStep(s, c).0, ColliderStep(s, c).1)
  {
  }

  /** Two steps that each request exactly their flag flips together request exactly the overall flips. */
  lemma RequestsMatchFlipsCompose(s: ChunkState, t: ChunkState, u: ChunkState, r1: seq<nat>, r2: seq<nat>)
    requires |s.lodMeshes| == |t.lodMeshes| == |u.lodMeshes|
    requires RequestsMatchFlips(s, t, r1) && RequestsMatchFlips(t, u, r2)
    ensures RequestsMatchFlips(s, u, r1 + r2)
  {
    forall i: nat | i < |s.lodMeshes|
      ensures Occurrences(i, r1 + r2) == if NewlyRequested(s, u, i) then 1 else 0
    {
      OccurrencesAppend(i, r1, r2);
    }
  }

  /**
   * One update requests a level exactly when it flips that level's
   * hasRequestedMesh flag from false to true; flags are never cleared, and
   * only valid level indices are requested.
   */
  lemma UpdateRequestsAreFlagFlips(s: ChunkState, levels: seq<LODInfo>, c: nat, dst: real)
    requires Fits(s, levels) && c < |levels|
    ensures RequestsMatchFlips(s, UpdateStep(s, levels, c, dst).next, UpdateStep(s, levels, c, dst).requested)
  {
    if s.mapDataReceived && dst <= MaxViewDst(levels) {
      var k := LODIndex(dst, levels);
      var (s1, r1) := DisplayStep(s, k);
      DisplayStepMatchesFlips(s, k);
      if k == 0 {
        var (s2, r2) := ColliderStep(s1, c);
        ColliderStepMatchesFlips(s1, c);
        RequestsMatchFlipsCompose(s, s1, s2, r1, r2);
        assert RequestsMatchFlips(s, s2.(visible := true), r1 + r2);
      } else {
        assert r1 + [] == r1;
        assert RequestsMatchFlips(s, s1.(visible := true), r1);
      }
    }
  }

  /** The display only changes to the cached mesh of the newly chosen level. */
  lemma SwapOnlyToCachedLevel(s: ChunkState, levels: seq<LODInfo>, c: nat, dst: real)
    requires Fits(s, levels) && c < |levels|
    requires var r := UpdateStep(s, levels, c, dst);
      r.next.previousLODIndex != s.previousLODIndex || r.next.displayedMesh != s.displayedMesh
    ensures var r := UpdateStep(s, levels, c, dst); var k := LODIndex(dst, levels);
      && s.mapDataReceived && dst <= MaxViewDst(levels)
      && s.previousLODIndex != k && r.next.previousLODIndex == k
      && s.lodMeshes[k].hasMesh && r.next.displayedMesh == s.lodMeshes[k].mesh
  {
  }

  /**
   * The collision mesh is only bound, and the collision level only requested
   * on its own account, when the chunk is at the finest level; any other
   * request is for the chosen level.
   */
  lemma ColliderOnlyAtFinestLevel(s: ChunkState, levels: seq<LODInfo>, c: nat, dst: real)
    requires Fits(s, levels) && c < |levels|
    ensures var r := UpdateStep(s, levels, c, dst); var k := LODIndex(dst, levels);
      && (r.next.colliderMesh != s.colliderMesh ==>
            k == 0 && s.lodMeshes[c].hasMesh && r.next.colliderMesh == s.lodMeshes[c].mesh)
      && (forall i :: i in r.requested ==> i == k || (i == c && k == 0))
  {
  }

  /**
   * Something that can happen to a chunk: an update during a window refresh
   * (the update itself; the hide that precedes it does not touch the mesh
   * slots), or the arrival of its map data or of one level's mesh.
   */
  datatype Event =
    | Update(dst: real)
    | MapDataArrives(data: MapData, dst: real)
    | MeshArrives(level: nat, mesh: MeshData, dst: real)

  /** The effect of one event; a mesh for a level the chunk does not have changes nothing. */
  function Apply(s: ChunkState, levels: seq<LODInfo>, c: nat, e: Event): (r: StepResult)
    requires Fits(s, levels) && c < |levels|
    ensures Fits(r.next, levels)
  {
    match e
    case Update(dst) => UpdateStep(s, levels, c, dst)
    case MapDataArrives(data, dst) => ReceiveMapData(s, levels, c, data, dst)
    case MeshArrives(i, mesh, dst) =>
      if i < |levels| then ReceiveMesh(s, levels, c, i, mesh, dst) else StepResult(s, [], false)
  }

  /** A chunk's history: the final state and every level requested along the way, in order. */
  function Run(s: ChunkState, levels: seq<LODInfo>, c: nat, events: seq<Event>): (r: (ChunkState, seq<nat>))
    requires Fits(s, levels) && c < |levels|
    ensures Fits(r.0, levels)
    decreases |events|
  {
    if events == [] then (s, [])
    else
      var step := Apply(s, levels, c, events[0]);
      var (final, later) := Run(step.next, levels, c, events[1..]);
      (final, step.requested + later)
  }

  /** Matching flag flips only depends on the request flags of the starting state. */
  lemma SameFlagsSameFlips(s: ChunkState, s': ChunkState, t: ChunkState, req: seq<nat>)
    requires |s.lodMeshes| == |s'.lodMeshes| == |t.lodMeshes|
    requires forall i :: 0 <= i < |s.lodMeshes| ==> s.lodMeshes[i].hasRequestedMesh == s'.lodMeshes[i].hasRequestedMesh
    requires RequestsMatchFlips(s', t, req)
    ensures RequestsMatchFlips(s, t, req)
  {
    assert forall i: nat :: i < |s.lodMeshes| ==> NewlyRequested(s, t, i) == NewlyRequested(s', t, i);
  }

  lemma ApplyRequestsAreFlagFlips(s: ChunkState, levels: seq<LODInfo>, c: nat, e: Event)
    requires Fits(s, levels) && c < |levels|
    ensures RequestsMatchFlips(s, Apply(s, levels, c, e).next, Apply(s, levels, c, e).requested)
  {
    match e
    case Update(dst) =>
      UpdateRequestsAreFlagFlips(s, levels, c, dst);
    case MapDataArrives(data, dst) =>
      var s' := s.(mapData := Some(data), mapDataReceived := true);
      var r := UpdateStep(s', levels, c, dst);
      UpdateRequestsAreFlagFlips(s', levels, c, dst);
      SameFlagsSameFlips(s, s', r.next, r.requested);
    case MeshArrives(i, mesh, dst) =>
      if i < |levels| {
        var s' := s.(lodMeshes := s.lodMeshes[i := s.lodMeshes[i].(hasMesh := true, mesh := Some(mesh))]);
        var r := UpdateStep(s', levels, c, dst);
        UpdateRequestsAreFlagFlips(s', levels, c, dst);
        SameFlagsSameFlips(s, s', r.next, r.requested);
      }
  }

  /**
   * Over any sequence of refreshes and deliveries, a level's mesh is
   * requested once if its flag went from false to true and never otherwise,
   * so no level is ever requested twice.
   */
  lemma {:induction false} EachLevelRequestedAtMostOnce(s: ChunkState, levels: seq<LODInfo>, c: nat, events: seq<Event>, i: nat)
    requires Fits(s, levels) && c < |levels| && i < |levels|
    ensures var (final, requested) := Run(s, levels, c, events);
      Occurrences(i, requested) == if NewlyRequested(s, final, i) then 1 else 0
    ensures var (final, requested) := Run(s, levels, c, events);
      s.lodMeshes[i].hasRequestedMesh ==> final.lodMeshes[i].hasRequestedMesh
    decreases |events|
  {
    if events != [] {
      var step := Apply(s, levels, c, events[0]);
      ApplyRequestsAreFlagFlips(s, levels, c, events[0]);
      EachLevelRequestedAtMostOnce(step.next, levels, c, events[1..], i);
      var (final, later) := Run(step.next, levels, c, events[1..]);
      OccurrencesAppend(i, step.requested, later);
    }
  }

  /** From a freshly built chunk, no level is ever requested more than once. */
  lemma FreshChunkRequestsEachLevelAtMostOnce(levels: seq<LODInfo>, c: nat, events: seq<Event>, i: nat)
    requires |levels| > 0 && c < |levels| && i < |levels|
    ensures Occurrences(i, Run(InitialState(levels), levels, c, events).1) <= 1
  {
    EachLevelRequestedAtMostOnce(InitialState(levels), levels, c, events, i);
  }

  /** Until its map data arrives a chunk ignores every update. */
  lemma {:induction false} UpdatesBeforeMapDataDoNothing(s: ChunkState, levels: seq<LODInfo>, c: nat, events: seq<Event>)
    requires Fits(s, levels) && c < |levels| && !s.mapDataReceived
    requires forall j :: 0 <= j < |events| ==> events[j].Update?
    ensures Run(s, levels, c, events) == (s, [])
    decreases |events|
  {
    if events != [] {
      var step := Apply(s, levels, c, events[0]);
      assert step == StepResult(s, [], false);
      UpdatesBeforeMapDataDoNothing(s, levels, c, events[1..]);
      var later: seq<nat> := Run(s, levels, c, events[1..]).1;
      assert later == [];
      assert step.requested + later == [];
    }
  }
}

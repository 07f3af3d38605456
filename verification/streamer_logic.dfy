/**
 * The chunk streamer of Assets/Scripts/EndlessTerrain.cs as values: what one
 * refresh pass does to the stored chunks, the visible list and the requests
 * sent to the map generator. The classes in module Terrain are proved to
 * follow these functions.
 */
module StreamerLogic {
  import opened MapGen
  import opened ChunkLogic

  /** An integer chunk coordinate. */
  type Coord = (int, int)

  /** A call into the map generator: map data for a chunk, or the mesh of one level of a chunk. */
  datatype Request =
    | MapDataRequest(coord: Coord)
    | MeshDataRequest(coord: Coord, levelIndex: nat)

  /**
   * The streamer's state: the state of each stored chunk by coordinate, the
   * coordinates of the chunks on the visible list in order, and every
   * request made so far in order.
   */
  datatype World = World(chunks: map<Coord, ChunkState>, listed: seq<Coord>, requests: seq<Request>)

  /** A detail table the streamer can run with: at least one level, and one of them feeds the collider. */
  predicate Configured(levels: seq<LODInfo>)
  {
    |levels| > 0 && LastColliderIndex(levels).Some?
  }

  /** Every stored chunk has one mesh slot per detail level. */
  ghost predicate WorldFits(w: World, levels: seq<LODInfo>)
  {
    Configured(levels) && forall c :: c in w.chunks ==> Fits(w.chunks[c], levels)
  }

  /** Every stored chunk is showing exactly when it is on the visible list. */
  ghost predicate ShownIffListed(w: World)
  {
    forall c :: c in w.chunks ==> (w.chunks[c].visible <==> c in w.listed)
  }

  ghost predicate Distinct(cells: seq<Coord>)
  {
    forall i, j :: 0 <= i < j < |cells| ==> cells[i] != cells[j]
  }

  /** Whether c lies in the square of Chebyshev radius k around center. */
  predicate InWindow(c: Coord, center: Coord, k: int)
  {
    -k <= c.0 - center.0 <= k && -k <= c.1 - center.1 <= k
  }

  /** A chunk state with the chunk hidden. */
  function Hidden(s: ChunkState): (t: ChunkState)
    ensures !t.visible
  {
    s.(visible := false)
  }

  /** The update a chunk of a terrain with these detail levels performs. */
  function ChunkStep(s: ChunkState, levels: seq<LODInfo>, dst: real): (r: StepResult)
    requires Fits(s, levels) && Configured(levels)
    ensures Fits(r.next, levels)
  {
    UpdateStep(s, levels, LastColliderIndex(levels).value, dst)
  }

  /**
   * What one refresh does to a chunk that existed before it: hide it, then,
   * inside the window, update it.
   */
  function RefreshOutcome(s: ChunkState, levels: seq<LODInfo>, inWindow: bool, dst: real): (r: StepResult)
    requires Fits(s, levels) && Configured(levels)
    ensures Fits(r.next, levels)
    ensures !inWindow ==> r.requested == [] && !r.next.visible
  {
    if inWindow then ChunkStep(Hidden(s), levels, dst) else StepResult(Hidden(s), [], false)
  }

  /**
   * Inside the window, a refresh requests exactly what the chunk's own update
   * requests and leaves its mesh slots as that update does: hiding it first
   * changes neither. So what is proved of sequences of updates holds of
   * sequences of refreshes.
   */
  lemma RefreshOutcomeIsChunkUpdate(s: ChunkState, levels: seq<LODInfo>, dst: real)
    requires Fits(s, levels) && Configured(levels)
    ensures RefreshOutcome(s, levels, true, dst).requested == ChunkStep(s, levels, dst).requested
    ensures RefreshOutcome(s, levels, true, dst).next.lodMeshes == ChunkStep(s, levels, dst).next.lodMeshes
  {
  }

  /** The mesh requests a chunk at coord issues for the given level indices. */
  function MeshRequests(coord: Coord, levels: seq<nat>): (r: seq<Request>)
    ensures |r| == |levels|
  {
    if levels == [] then []
    else [MeshDataRequest(coord, levels[0])] + MeshRequests(coord, levels[1..])
  }

  /** The mesh requests name coord and each listed level as often as it is listed, and no map data. */
  lemma {:induction false} MeshRequestsCounts(coord: Coord, levels: seq<nat>)
    ensures forall c, i :: multiset(MeshRequests(coord, levels))[MeshDataRequest(c, i)] ==
                          if c == coord then multiset(levels)[i] else 0
    ensures forall c :: multiset(MeshRequests(coord, levels))[MapDataRequest(c)] == 0
    decreases |levels|
  {
    if levels != [] {
      MeshRequestsCounts(coord, levels[1..]);
      assert levels == [levels[0]] + levels[1..];
    }
  }

  /**
   * A stored chunk at c has run an update with outcome r: its new state is
   * stored, it joins the visible list if the update says so, and its mesh
   * requests are logged.
   */
  function AfterUpdate(w: World, c: Coord, r: StepResult): World
    requires c in w.chunks
  {
    World(w.chunks[c := r.next], w.listed + (if r.listed then [c] else []), w.requests + MeshRequests(c, r.requested))
  }

  /**
   * One cell of the window scan: a stored chunk is updated; a missing one is
   * created hidden and its map data requested.
   */
  function Visit(w: World, c: Coord, levels: seq<LODInfo>, dst: real): (v: World)
    requires WorldFits(w, levels)
    ensures WorldFits(v, levels)
  {
    if c in w.chunks then AfterUpdate(w, c, ChunkStep(w.chunks[c], levels, dst))
    else
      World(w.chunks[c := InitialState(levels)], w.listed, w.requests + [MapDataRequest(c)])
  }

  /** The cells visited in order, dst giving each chunk's distance from the viewer. */
  function Scan(w: World, cells: seq<Coord>, levels: seq<LODInfo>, dst: Coord -> real): (v: World)
    requires WorldFits(w, levels)
    ensures WorldFits(v, levels)
    decreases |cells|
  {
    if cells == [] then w
    else
      var last := cells[|cells| - 1];
      Visit(Scan(w, cells[..|cells| - 1], levels, dst), last, levels, dst(last))
  }

  /** Every stored chunk that is showing is on the visible list. */
  ghost predicate ShownAreListed(w: World)
  {
    forall c :: c in w.chunks && w.chunks[c].visible ==> c in w.listed
  }

  /** The map-data callback of the chunk at c, with the viewer at distance dst from it. */
  function DeliverMapData(w: World, c: Coord, levels: seq<LODInfo>, data: MapData, dst: real): (v: World)
    requires WorldFits(w, levels) && c in w.chunks
    ensures WorldFits(v, levels)
  {
    AfterUpdate(w, c, ReceiveMapData(w.chunks[c], levels, LastColliderIndex(levels).value, data, dst))
  }

  /** The mesh callback of level i of the chunk at c, with the viewer at distance dst from it. */
  function DeliverMesh(w: World, c: Coord, levels: seq<LODInfo>, i: nat, mesh: MeshData, dst: real): (v: World)
    requires WorldFits(w, levels) && c in w.chunks && i < |levels|
    ensures WorldFits(v, levels)
  {
    AfterUpdate(w, c, ReceiveMesh(w.chunks[c], levels, LastColliderIndex(levels).value, i, mesh, dst))
  }

  /** The hide pass over a list of chunks, in order: each listed chunk that is stored is hidden. */
  function HideListed(chunks: map<Coord, ChunkState>, cs: seq<Coord>): (m: map<Coord, ChunkState>)
    ensures m.Keys == chunks.Keys
    decreases |cs|
  {
    if cs == [] then chunks
    else
      var m := HideListed(chunks, cs[..|cs| - 1]);
      var c := cs[|cs| - 1];
      if c in m then m[c := Hidden(m[c])] else m
  }

  /** The first half of a refresh: every chunk hidden, the visible list emptied. */
  function HideAll(w: World): (v: World)
    ensures v.chunks.Keys == w.chunks.Keys && v.listed == [] && v.requests == w.requests
    ensures forall c :: c in v.chunks ==>
      !v.chunks[c].visible && v.chunks[c].(visible := w.chunks[c].visible) == w.chunks[c]
    ensures ShownIffListed(v)
  {
    World(map c | c in w.chunks :: Hidden(w.chunks[c]), [], w.requests)
  }

  /** The side of the window: 2k + 1 cells, none when k is negative. */
  function Width(k: int): nat
  {
    if k < 0 then 0 else 2 * k + 1
  }

  /** The first n cells of row y of the window, left to right. */
  function Row(center: Coord, k: int, y: int, n: nat): (r: seq<Coord>)
    ensures |r| == n
  {
    seq(n, j => (center.0 - k + j, center.1 + y))
  }

  /** The first m rows of the window, top to bottom, each left to right. */
  function Rows(center: Coord, k: int, m: nat): seq<Coord>
  {
    if m == 0 then [] else Rows(center, k, m - 1) + Row(center, k, -k + m - 1, Width(k))
  }

  /** The window in the order the scan visits it. */
  function WindowCells(center: Coord, k: int): seq<Coord>
  {
    Rows(center, k, Width(k))
  }

  /** One refresh pass with the viewer in chunk center and a window of radius k. */
  function Refresh(w: World, center: Coord, k: int, levels: seq<LODInfo>, dst: Coord -> real): (v: World)
    requires WorldFits(w, levels)
    ensures WorldFits(v, levels)
  {
    Scan(HideAll(w), WindowCells(center, k), levels, dst)
  }

  // ---------------------------------------------------------------------
  // The visible list

  /** Hiding the listed chunks hides exactly those, whatever the order or repetitions of the list. */
  lemma {:induction false} HideListedSpec(chunks: map<Coord, ChunkState>, cs: seq<Coord>)
    ensures forall c :: c in chunks ==>
      HideListed(chunks, cs)[c] == if c in cs then Hidden(chunks[c]) else chunks[c]
    decreases |cs|
  {
    if cs != [] {
      var prefix := cs[..|cs| - 1];
      HideListedSpec(chunks, prefix);
      assert forall c :: c in cs <==> c in prefix || c == cs[|cs| - 1] by {
        assert cs == prefix + [cs[|cs| - 1]];
      }
    }
  }

  /**
   * When every showing chunk is listed, hiding the listed chunks and
   * emptying the list is the first half of a refresh.
   */
  lemma HideListedHidesAll(w: World)
    requires ShownAreListed(w)
    ensures World(HideListed(w.chunks, w.listed), [], w.requests) == HideAll(w)
  {
    HideListedSpec(w.chunks, w.listed);
    var m := HideListed(w.chunks, w.listed);
    forall c | c in w.chunks ensures m[c] == Hidden(w.chunks[c]) {
      if c !in w.listed {
        assert !w.chunks[c].visible;
      }
    }
  }

  /**
   * An update that lists the chunk whenever it leaves it showing, or leaves a
   * chunk that was already showing, keeps every showing chunk listed.
   */
  lemma AfterUpdateKeepsShownAreListed(w: World, c: Coord, r: StepResult)
    requires c in w.chunks && ShownAreListed(w)
    requires r.next.visible ==> r.listed || w.chunks[c].visible
    ensures ShownAreListed(AfterUpdate(w, c, r))
  {
  }

  /** A cell of the window scan keeps every showing chunk listed. */
  lemma VisitKeepsShownAreListed(w: World, c: Coord, levels: seq<LODInfo>, dst: real)
    requires WorldFits(w, levels) && ShownAreListed(w)
    ensures ShownAreListed(Visit(w, c, levels, dst))
  {
    if c in w.chunks {
      AfterUpdateKeepsShownAreListed(w, c, ChunkStep(w.chunks[c], levels, dst));
    }
  }

  /** The map-data callback keeps every showing chunk listed. */
  lemma MapDataKeepsShownAreListed(w: World, c: Coord, levels: seq<LODInfo>, data: MapData, dst: real)
    requires WorldFits(w, levels) && ShownAreListed(w) && c in w.chunks
    ensures ShownAreListed(DeliverMapData(w, c, levels, data, dst))
  {
    AfterUpdateKeepsShownAreListed(w, c, ReceiveMapData(w.chunks[c], levels, LastColliderIndex(levels).value, data, dst));
  }

  /** A mesh callback keeps every showing chunk listed. */
  lemma MeshKeepsShownAreListed(w: World, c: Coord, levels: seq<LODInfo>, i: nat, mesh: MeshData, dst: real)
    requires WorldFits(w, levels) && ShownAreListed(w) && c in w.chunks && i < |levels|
    ensures ShownAreListed(DeliverMesh(w, c, levels, i, mesh, dst))
  {
    AfterUpdateKeepsShownAreListed(w, c, ReceiveMesh(w.chunks[c], levels, LastColliderIndex(levels).value, i, mesh, dst));
  }

  // ---------------------------------------------------------------------
  // The window

  lemma {:induction false} RowsSpec(center: Coord, k: int, m: nat)
    requires m <= Width(k)
    ensures forall c :: c in Rows(center, k, m) <==>
      -k <= c.0 - center.0 <= k && -k <= c.1 - center.1 < -k + m
    ensures Distinct(Rows(center, k, m))
  {
    if m > 0 {
      RowsSpec(center, k, m - 1);
      var prev := Rows(center, k, m - 1);
      var row := Row(center, k, -k + m - 1, Width(k));
      assert Rows(center, k, m) == prev + row;
      forall c: Coord | -k <= c.0 - center.0 <= k && c.1 - center.1 == -k + m - 1
        ensures c in row
      {
        assert row[c.0 - center.0 + k] == c;
      }
      forall i, j | 0 <= i < j < |prev + row|
        ensures (prev + row)[i] != (prev + row)[j]
      {
        if j >= |prev| && i < |prev| {
          assert prev[i] in prev;
        }
      }
    }
  }

  /** The scan visits each cell of the window exactly once, and nothing else. */
  lemma WindowCellsSpec(center: Coord, k: int)
    ensures forall c :: c in WindowCells(center, k) <==> InWindow(c, center, k)
    ensures Distinct(WindowCells(center, k))
  {
    RowsSpec(center, k, Width(k));
  }

  /** Scanning one more cell is one more visit. */
  lemma ScanAppend(w: World, cells: seq<Coord>, c: Coord, levels: seq<LODInfo>, dst: Coord -> real)
    requires WorldFits(w, levels)
    ensures Scan(w, cells + [c], levels, dst) == Visit(Scan(w, cells, levels, dst), c, levels, dst(c))
  {
    assert (cells + [c])[..|cells|] == cells;
  }

  /** The next cell of a row extends the row by one. */
  lemma RowAppend(center: Coord, k: int, y: int, n: nat)
    ensures Row(center, k, y, n + 1) == Row(center, k, y, n) + [(center.0 - k + n, center.1 + y)]
  {
  }

  /** Row y of the window follows the rows above it. */
  lemma RowsAppend(center: Coord, k: int, y: int)
    requires -k <= y
    ensures Rows(center, k, y + 1 + k) == Rows(center, k, y + k) + Row(center, k, y, Width(k))
  {
    assert y + 1 + k - k - 1 == y;
  }

  /** Cell x of row y follows the cells before it. */
  lemma CellAppend(above: seq<Coord>, center: Coord, k: int, y: int, x: int)
    requires -k <= x
    ensures above + Row(center, k, y, x + 1 + k) == (above + Row(center, k, y, x + k)) + [(center.0 + x, center.1 + y)]
  {
    RowAppend(center, k, y, x + k);
  }

  /** No cell of a row done yet. */
  lemma NoCellYet(above: seq<Coord>, center: Coord, k: int, y: int)
    ensures above + Row(center, k, y, 0) == above
  {
  }

  // ---------------------------------------------------------------------
  // What a scan does

  /** The last cell of a list of distinct cells is not among the others. */
  lemma LastIsNew(cells: seq<Coord>)
    requires Distinct(cells) && cells != []
    ensures Distinct(cells[..|cells| - 1]) && cells[|cells| - 1] !in cells[..|cells| - 1]
    ensures forall c :: c in cells <==> c in cells[..|cells| - 1] || c == cells[|cells| - 1]
  {
    assert cells == cells[..|cells| - 1] + [cells[|cells| - 1]];
    var prefix := cells[..|cells| - 1];
    forall j | 0 <= j < |prefix| ensures prefix[j] != cells[|cells| - 1] {
      assert cells[j] == prefix[j];
    }
  }

  /**
   * Scanning distinct cells stores a chunk at each of them and leaves the
   * others as they were: each stored chunk is updated once and each missing
   * one is created hidden.
   */
  lemma {:induction false} ScanChunks(w: World, cells: seq<Coord>, levels: seq<LODInfo>, dst: Coord -> real)
    requires WorldFits(w, levels) && Distinct(cells)
    ensures var v := Scan(w, cells, levels, dst);
      && (forall c :: c in v.chunks <==> c in w.chunks || c in cells)
      && (forall c :: c in w.chunks ==>
            v.chunks[c] == if c in cells then ChunkStep(w.chunks[c], levels, dst(c)).next else w.chunks[c])
      && (forall c :: c !in w.chunks && c in cells ==> v.chunks[c] == InitialState(levels))
    decreases |cells|
  {
    if cells != [] {
      var prefix := cells[..|cells| - 1];
      LastIsNew(cells);
      ScanChunks(w, prefix, levels, dst);
    }
  }

  /** Only scanned chunks join the visible list. */
  lemma {:induction false} ScanListed(w: World, cells: seq<Coord>, levels: seq<LODInfo>, dst: Coord -> real)
    requires WorldFits(w, levels)
    ensures forall c :: c in Scan(w, cells, levels, dst).listed ==> c in w.listed || c in cells
    decreases |cells|
  {
    if cells != [] {
      var prefix := cells[..|cells| - 1];
      ScanListed(w, prefix, levels, dst);
      assert cells == prefix + [cells[|cells| - 1]];
    }
  }

  /** Scanning only appends to the log. */
  lemma {:induction false} ScanLogGrows(w: World, cells: seq<Coord>, levels: seq<LODInfo>, dst: Coord -> real)
    requires WorldFits(w, levels)
    ensures var v := Scan(w, cells, levels, dst);
      |w.requests| <= |v.requests| && v.requests[..|w.requests|] == w.requests
    decreases |cells|
  {
    if cells != [] {
      var prefix := cells[..|cells| - 1];
      ScanLogGrows(w, prefix, levels, dst);
      var u := Scan(w, prefix, levels, dst);
      var v := Scan(w, cells, levels, dst);
      assert v.requests[..|w.requests|] == u.requests[..|w.requests|];
    }
  }

  /** Scanning distinct cells logs exactly one map-data request per created chunk. */
  lemma {:induction false} ScanMapRequests(w: World, cells: seq<Coord>, levels: seq<LODInfo>, dst: Coord -> real)
    requires WorldFits(w, levels) && Distinct(cells)
    ensures
      forall c :: multiset(Scan(w, cells, levels, dst).requests)[MapDataRequest(c)] ==
        multiset(w.requests)[MapDataRequest(c)] + (if c in cells && c !in w.chunks then 1 else 0)
    decreases |cells|
  {
    if cells != [] {
      var prefix := cells[..|cells| - 1];
      var last := cells[|cells| - 1];
      LastIsNew(cells);
      ScanMapRequests(w, prefix, levels, dst);
      ScanChunks(w, prefix, levels, dst);
      var u := Scan(w, prefix, levels, dst);
      assert last in u.chunks <==> last in w.chunks;
      if last in u.chunks {
        MeshRequestsCounts(last, ChunkStep(u.chunks[last], levels, dst(last)).requested);
      }
    }
  }

  /** Scanning distinct cells logs, per stored chunk, the mesh requests of its one update. */
  lemma {:induction false} ScanMeshRequests(w: World, cells: seq<Coord>, levels: seq<LODInfo>, dst: Coord -> real)
    requires WorldFits(w, levels) && Distinct(cells)
    ensures
      forall c, i :: multiset(Scan(w, cells, levels, dst).requests)[MeshDataRequest(c, i)] ==
        multiset(w.requests)[MeshDataRequest(c, i)] +
        (if c in cells && c in w.chunks then multiset(ChunkStep(w.chunks[c], levels, dst(c)).requested)[i] else 0)
    decreases |cells|
  {
    if cells != [] {
      var prefix := cells[..|cells| - 1];
      var last := cells[|cells| - 1];
      LastIsNew(cells);
      ScanMeshRequests(w, prefix, levels, dst);
      ScanChunks(w, prefix, levels, dst);
      var u := Scan(w, prefix, levels, dst);
      assert last in u.chunks <==> last in w.chunks;
      if last in u.chunks {
        MeshRequestsCounts(last, ChunkStep(u.chunks[last], levels, dst(last)).requested);
      }
    }
  }

  /**
   * Scanning distinct cells that are not on the visible list keeps every
   * chunk showing exactly when it is listed.
   */
  lemma {:induction false} ScanKeepsShownIffListed(w: World, cells: seq<Coord>, levels: seq<LODInfo>, dst: Coord -> real)
    requires WorldFits(w, levels) && Distinct(cells) && ShownIffListed(w)
    requires forall c :: c in cells ==> c !in w.listed
    ensures ShownIffListed(Scan(w, cells, levels, dst))
    decreases |cells|
  {
    if cells != [] {
      var prefix := cells[..|cells| - 1];
      var last := cells[|cells| - 1];
      LastIsNew(cells);
      ScanKeepsShownIffListed(w, prefix, levels, dst);
      ScanChunks(w, prefix, levels, dst);
      ScanListed(w, prefix, levels, dst);
      var u := Scan(w, prefix, levels, dst);
      assert last !in u.listed;
      if last in u.chunks {
        var r := ChunkStep(u.chunks[last], levels, dst(last));
        if !u.chunks[last].mapDataReceived {
          assert !u.chunks[last].visible;
        }
      }
    }
  }

  // ---------------------------------------------------------------------
  // What a refresh does

  /**
   * One refresh pass: the window around center is stored afterwards and
   * nothing is removed; a chunk stored before is hidden and, inside the
   * window, updated once; a chunk new to the dictionary is created hidden
   * with exactly one map-data request; the visible list holds exactly the
   * showing chunks; and the log grows by the requests of those updates and
   * creations.
   */
  lemma RefreshSpec(w: World, center: Coord, k: int, levels: seq<LODInfo>, dst: Coord -> real)
    requires WorldFits(w, levels)
    ensures var v := Refresh(w, center, k, levels, dst);
      && (forall c :: c in v.chunks <==> c in w.chunks || InWindow(c, center, k))
      && (forall c :: c in w.chunks ==>
            v.chunks[c] == RefreshOutcome(w.chunks[c], levels, InWindow(c, center, k), dst(c)).next)
      && (forall c :: c in v.chunks && c !in w.chunks ==> v.chunks[c] == InitialState(levels))
      && ShownIffListed(v)
      && |w.requests| <= |v.requests| && v.requests[..|w.requests|] == w.requests
      && (forall c :: multiset(v.requests)[MapDataRequest(c)] ==
            multiset(w.requests)[MapDataRequest(c)] + (if c in v.chunks && c !in w.chunks then 1 else 0))
      && (forall c, i :: multiset(v.requests)[MeshDataRequest(c, i)] ==
            multiset(w.requests)[MeshDataRequest(c, i)] +
            (if c in w.chunks then
               multiset(RefreshOutcome(w.chunks[c], levels, InWindow(c, center, k), dst(c)).requested)[i]
             else 0))
  {
    var h := HideAll(w);
    var cells := WindowCells(center, k);
    WindowCellsSpec(center, k);
    ScanChunks(h, cells, levels, dst);
    ScanLogGrows(h, cells, levels, dst);
    ScanMapRequests(h, cells, levels, dst);
    ScanMeshRequests(h, cells, levels, dst);
    ScanKeepsShownIffListed(h, cells, levels, dst);
  }
}

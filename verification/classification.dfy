/**
 * Per-cell height adjustment and region classification used by
 * MapGenerator.GenerateMapData (Assets/Scripts/MapGenerator.cs): the falloff
 * subtraction clamped to [0, 1], and the ordered region scan that stops at the
 * first threshold the height does not reach.
 */
module Classification {

  /** An RGBA colour; only copied, never computed. */
  datatype Color = Color(r: real, g: real, b: real, a: real)

  /** The value a fresh colour array holds (all channels zero). */
  const DefaultColor := Color(0.0, 0.0, 0.0, 0.0)

  /** One entry of the region table: a name, the minimum height, the colour. */
  datatype TerrainType = TerrainType(name: string, height: real, color: Color)

  /** Clamps v into [0, 1]. */
  function Clamp01(v: real): (r: real)
    ensures 0.0 <= r <= 1.0
    ensures 0.0 <= v <= 1.0 ==> r == v
  {
    if v < 0.0 then 0.0 else if v > 1.0 then 1.0 else v
  }

  /** Clamping never reverses the order of two values. */
  lemma Clamp01Monotone(a: real, b: real)
    requires a <= b
    ensures Clamp01(a) <= Clamp01(b)
  {
  }

  /** The height a cell has after the optional falloff subtraction. */
  function AdjustedHeight(noise: real, falloff: real, useFalloff: bool): (h: real)
    ensures useFalloff ==> 0.0 <= h <= 1.0
    ensures !useFalloff ==> h == noise
    ensures useFalloff && 0.0 <= noise - falloff <= 1.0 ==> h == noise - falloff
  {
    if useFalloff then Clamp01(noise - falloff) else noise
  }

  /**
   * How many leading regions the scan accepts for height h: the scan walks
   * the regions in order and stops at the first whose threshold h does not
   * reach. Every accepted region has threshold <= h and the one that stopped
   * the scan (if any) has threshold > h.
   */
  function MetPrefix(h: real, regions: seq<TerrainType>): (n: nat)
    ensures n <= |regions|
    ensures forall j :: 0 <= j < n ==> regions[j].height <= h
    ensures n < |regions| ==> regions[n].height > h
  {
    if regions == [] || !(h >= regions[0].height) then 0
    else 1 + MetPrefix(h, regions[1..])
  }

  /**
   * The colour the scan leaves in a cell whose slot held `unset`: the colour of
   * the last accepted region, or `unset` when no region was accepted.
   */
  function CellColor(h: real, regions: seq<TerrainType>, unset: Color): (c: Color)
    ensures c != unset ==> exists i :: 0 <= i < |regions| && regions[i].height <= h && regions[i].color == c
    ensures |regions| > 0 && regions[0].height <= h ==>
      exists i :: 0 <= i < |regions| && regions[i].height <= h && regions[i].color == c
  {
    var n := MetPrefix(h, regions);
    if n == 0 then unset else regions[n - 1].color
  }

  /** Thresholds in non-decreasing order, the region table's intended invariant. */
  ghost predicate Ascending(regions: seq<TerrainType>)
  {
    forall i, j :: 0 <= i <= j < |regions| ==> regions[i].height <= regions[j].height
  }

  /** Reference definition: how many thresholds of the whole table h reaches, with no early stop. */
  function CountMet(h: real, regions: seq<TerrainType>): (n: nat)
    ensures n <= |regions|
  {
    if regions == [] then 0
    else (if regions[0].height <= h then 1 else 0) + CountMet(h, regions[1..])
  }

  /** A higher cell never gets a region earlier in the table, whatever the table's order. */
  lemma MetPrefixMonotone(h1: real, h2: real, regions: seq<TerrainType>)
    requires h1 <= h2
    ensures MetPrefix(h1, regions) <= MetPrefix(h2, regions)
  {
  }

  /** No region is accepted when the table is empty or h is below the first threshold. */
  lemma NoRegionBelowFirst(h: real, regions: seq<TerrainType>)
    requires regions == [] || h < regions[0].height
    ensures MetPrefix(h, regions) == 0
    ensures forall unset :: CellColor(h, regions, unset) == unset
  {
  }

  lemma {:induction false} NoneMetAbove(h: real, regions: seq<TerrainType>)
    requires forall j :: 0 <= j < |regions| ==> regions[j].height > h
    ensures CountMet(h, regions) == 0
  {
    if regions != [] {
      NoneMetAbove(h, regions[1..]);
    }
  }

  /**
   * With ascending thresholds the early-stopping scan accepts exactly the
   * thresholds h reaches, so the chosen region is the one with the highest
   * threshold not above h.
   */
  lemma {:induction false} AscendingScanCountsAllMet(h: real, regions: seq<TerrainType>)
    requires Ascending(regions)
    ensures MetPrefix(h, regions) == CountMet(h, regions)
  {
    if regions != [] {
      if h >= regions[0].height {
        AscendingScanCountsAllMet(h, regions[1..]);
      } else {
        NoneMetAbove(h, regions);
      }
    }
  }

  /**
   * With ascending thresholds the chosen colour belongs to a region h reaches,
   * and every later region of the table is above h.
   */
  lemma AscendingPicksHighestMet(h: real, regions: seq<TerrainType>)
    requires Ascending(regions)
    requires MetPrefix(h, regions) > 0
    ensures regions[MetPrefix(h, regions) - 1].height <= h
    ensures forall j :: MetPrefix(h, regions) <= j < |regions| ==> regions[j].height > h
  {
  }
}

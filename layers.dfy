/**
 * The tabular data the AccessViz core works on: grid cells with their
 * geometry, rows of a travel-time table, and spatial layers (GeoDataFrames)
 * made of features. Travel times are whole minutes; -1 marks "no data".
 */
module Layers {
  import opened Wrappers

  /** Cell geometry; the core only carries it from the grid to its outputs. */
  type Geom(==)

  /** One row of the YKR grid: an identifier and the polygon of its cell. */
  datatype Cell = Cell(id: int, geom: Geom)

  /** One row of a spatial layer: its geometry and its other columns' values. */
  datatype Feature = Feature(geom: Geom, values: map<string, int>)

  /** A GeoDataFrame: its non-geometry column labels, in order, and its rows. */
  datatype Layer = Layer(columns: seq<string>, features: seq<Feature>)

  /** The "no data" value of the travel-time tables. */
  const Sentinel: int := -1

  /** `grid["YKR_ID"].tolist()`. */
  function GridIds(grid: seq<Cell>): (ids: seq<int>)
    ensures |ids| == |grid|
    ensures forall k :: 0 <= k < |grid| ==> ids[k] == grid[k].id
  {
    if grid == [] then [] else [grid[0].id] + GridIds(grid[1..])
  }

  /** The grid's invariant: no identifier names two cells. */
  predicate UniqueIds(grid: seq<Cell>)
  {
    forall i, j :: 0 <= i < j < |grid| ==> grid[i].id != grid[j].id
  }

  /** A feature's value in a column; None where pandas would hold NaN. */
  function Value(f: Feature, column: string): Option<int>
  {
    if column in f.values then Some(f.values[column]) else None
  }

  /**
   * The test `data[column] >= 0`: true of a real travel time, false of the
   * sentinel -1 and of a missing value (NaN compares false).
   */
  predicate IsTravelTime(v: Option<int>)
  {
    v.Some? && v.value >= 0
  }
}

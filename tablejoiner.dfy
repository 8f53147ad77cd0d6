/**
 * `tablejoiner` (AccessViz.py:78-130): each travel-time table has its
 * `from_id` column renamed to `YKR_ID` and is inner-joined onto the grid,
 * grid on the left, and the joined layer is written under a name cut from
 * the table's path.
 */
module TableJoiner {
  import opened Wrappers
  import opened Decimal
  import opened PathNames
  import opened Layers
  import opened FileFinder

  const FromId := "from_id"
  const KeyColumn := "YKR_ID"
  const GeoPackageName := "TravelMatrix.gpkg"

  /**
   * A travel-time table as `pd.read_csv` gives it: column labels in order and
   * rows mapping labels to values (an absent label is a missing value).
   */
  datatype Table = Table(columns: seq<string>, rows: seq<map<string, int>>)

  /** A table is rectangular: no row holds a label that is not a column. */
  predicate WellFormed(t: Table)
  {
    forall k, c :: 0 <= k < |t.rows| && c in t.rows[k] ==> c in t.columns
  }

  datatype JoinError =
    | EmptyPathList   // AssertionError at AccessViz.py:97
    | MissingKey      // merge on a label the renamed table lacks: KeyError
    | DuplicateKey    // the renamed table has two YKR_ID columns: ValueError

  function RenameLabel(c: string): string
  {
    if c == FromId then KeyColumn else c
  }

  /** One row under `rename(columns={"from_id": "YKR_ID"})`. */
  function RenameRow(row: map<string, int>): (r: map<string, int>)
    ensures FromId !in row ==> r == row
    ensures FromId in row ==> FromId !in r && KeyColumn in r && r[KeyColumn] == row[FromId]
    ensures forall c :: c in row && c != FromId && c != KeyColumn ==> c in r && r[c] == row[c]
    ensures forall c :: c in r ==> c == KeyColumn || (c in row && c != FromId)
  {
    if FromId in row then (row - {FromId})[KeyColumn := row[FromId]] else row
  }

  function RenameRows(rows: seq<map<string, int>>): (r: seq<map<string, int>>)
    ensures |r| == |rows|
    ensures forall k :: 0 <= k < |rows| ==> r[k] == RenameRow(rows[k])
  {
    if rows == [] then [] else [RenameRow(rows[0])] + RenameRows(rows[1..])
  }

  function RenameLabels(cols: seq<string>): (r: seq<string>)
    ensures |r| == |cols|
    ensures forall k :: 0 <= k < |cols| ==> r[k] == RenameLabel(cols[k])
  {
    if cols == [] then [] else [RenameLabel(cols[0])] + RenameLabels(cols[1..])
  }

  /** AccessViz.py:110-112: only the label `from_id` changes, everywhere it occurs. */
  function Rename(t: Table): (r: Table)
    ensures |r.columns| == |t.columns| && |r.rows| == |t.rows|
    ensures FromId !in r.columns
    ensures forall c :: c in t.columns && c != FromId ==> c in r.columns
    ensures FromId in t.columns ==> KeyColumn in r.columns
    ensures forall c :: c in r.columns ==> c == KeyColumn || c in t.columns
    ensures forall k :: 0 <= k < |t.rows| ==> r.rows[k] == RenameRow(t.rows[k])
  {
    var cols := RenameLabels(t.columns);
    assert forall c :: c in t.columns && c != FromId ==> c in cols by {
      forall c | c in t.columns && c != FromId ensures c in cols {
        var k :| 0 <= k < |t.columns| && t.columns[k] == c;
        assert cols[k] == c;
      }
    }
    assert FromId in t.columns ==> KeyColumn in cols by {
      if FromId in t.columns {
        var k :| 0 <= k < |t.columns| && t.columns[k] == FromId;
        assert cols[k] == KeyColumn;
      }
    }
    Table(cols, RenameRows(t.rows))
  }

  /** A rectangular table without `from_id` comes back as it was. */
  lemma RenameWithoutFromId(t: Table)
    requires WellFormed(t) && FromId !in t.columns
    ensures Rename(t) == t
  {
  }

  /** The merge condition `on="YKR_ID"`: the row's key equals the cell's identifier. */
  predicate KeyMatches(cell: Cell, row: map<string, int>)
  {
    KeyColumn in row && row[KeyColumn] == cell.id
  }

  /** The joined rows for one grid cell: one per matching table row, in table order. */
  function MatchesOf(cell: Cell, rows: seq<map<string, int>>): (fs: seq<Feature>)
    ensures |fs| <= |rows|
    ensures forall f :: f in fs ==> f.geom == cell.geom && KeyMatches(cell, f.values) && f.values in rows
  {
    if rows == [] then []
    else (if KeyMatches(cell, rows[0]) then [Feature(cell.geom, rows[0])] else []) + MatchesOf(cell, rows[1..])
  }

  /** `grid.merge(table, on="YKR_ID")`: grid order first, then table order within a cell. */
  function InnerJoin(grid: seq<Cell>, rows: seq<map<string, int>>): (fs: seq<Feature>)
    ensures forall f :: f in fs ==> f.values in rows && exists c :: c in grid && f.geom == c.geom && KeyMatches(c, f.values)
  {
    if grid == [] then [] else MatchesOf(grid[0], rows) + InnerJoin(grid[1..], rows)
  }

  function Without(cols: seq<string>, c: string): (r: seq<string>)
    ensures c !in r
    ensures forall x :: x in r <==> x in cols && x != c
  {
    if cols == [] then []
    else (if cols[0] == c then [] else [cols[0]]) + Without(cols[1..], c)
  }

  /**
   * One iteration's rename and merge (AccessViz.py:110-117). The join
   * succeeds exactly when the table has one of `from_id` and `YKR_ID`; the
   * result has the grid's key and geometry followed by the table's columns.
   */
  function Join(grid: seq<Cell>, t: Table): (r: Result<Layer, JoinError>)
    ensures r.Success? <==> (FromId in t.columns) != (KeyColumn in t.columns)
    ensures r.Failure? && FromId in t.columns ==> r.error == DuplicateKey
    ensures r.Failure? && FromId !in t.columns ==> r.error == MissingKey
    ensures r.Success? ==> r.value.features == InnerJoin(grid, Rename(t).rows)
    ensures r.Success? ==> |r.value.columns| >= 1 && r.value.columns[0] == KeyColumn
    ensures r.Success? ==> forall c :: c in t.columns && c != FromId ==> c in r.value.columns
  {
    if FromId in t.columns && KeyColumn in t.columns then Failure(DuplicateKey)
    else
      var rt := Rename(t);
      if KeyColumn !in rt.columns then Failure(MissingKey)
      else Success(Layer([KeyColumn] + Without(rt.columns, KeyColumn), InnerJoin(grid, rt.rows)))
  }

  lemma {:induction false} MatchesSound(cell: Cell, rows: seq<map<string, int>>, k: int)
    requires 0 <= k < |MatchesOf(cell, rows)|
    ensures exists j :: 0 <= j < |rows| && KeyMatches(cell, rows[j]) && MatchesOf(cell, rows)[k] == Feature(cell.geom, rows[j])
  {
    var head := if KeyMatches(cell, rows[0]) then [Feature(cell.geom, rows[0])] else [];
    if k >= |head| {
      MatchesSound(cell, rows[1..], k - |head|);
      var j :| 0 <= j < |rows[1..]| && KeyMatches(cell, rows[1..][j]) && MatchesOf(cell, rows[1..])[k - |head|] == Feature(cell.geom, rows[1..][j]);
      assert rows[1..][j] == rows[j + 1];
    }
  }

  /** Every joined row pairs a grid cell with a table row of the same identifier. */
  lemma {:induction false} JoinSound(grid: seq<Cell>, rows: seq<map<string, int>>, k: int)
    requires 0 <= k < |InnerJoin(grid, rows)|
    ensures exists i, j :: (0 <= i < |grid| && 0 <= j < |rows| && KeyMatches(grid[i], rows[j]) &&
                            InnerJoin(grid, rows)[k] == Feature(grid[i].geom, rows[j]))
  {
    var head := MatchesOf(grid[0], rows);
    if k < |head| {
      MatchesSound(grid[0], rows, k);
      var j :| 0 <= j < |rows| && KeyMatches(grid[0], rows[j]) && head[k] == Feature(grid[0].geom, rows[j]);
      assert KeyMatches(grid[0], rows[j]) && InnerJoin(grid, rows)[k] == Feature(grid[0].geom, rows[j]);
    } else {
      JoinSound(grid[1..], rows, k - |head|);
      var i, j :| 0 <= i < |grid[1..]| && 0 <= j < |rows| && KeyMatches(grid[1..][i], rows[j]) &&
        InnerJoin(grid[1..], rows)[k - |head|] == Feature(grid[1..][i].geom, rows[j]);
      assert grid[1..][i] == grid[i + 1];
      assert KeyMatches(grid[i + 1], rows[j]) && InnerJoin(grid, rows)[k] == Feature(grid[i + 1].geom, rows[j]);
    }
  }

  lemma {:induction false} MatchesComplete(cell: Cell, rows: seq<map<string, int>>, j: int)
    requires 0 <= j < |rows| && KeyMatches(cell, rows[j])
    ensures Feature(cell.geom, rows[j]) in MatchesOf(cell, rows)
  {
    if j > 0 {
      MatchesComplete(cell, rows[1..], j - 1);
    }
  }

  /** Every pair of a grid cell and a table row with the same identifier is joined. */
  lemma {:induction false} JoinComplete(grid: seq<Cell>, rows: seq<map<string, int>>, i: int, j: int)
    requires 0 <= i < |grid| && 0 <= j < |rows| && KeyMatches(grid[i], rows[j])
    ensures Feature(grid[i].geom, rows[j]) in InnerJoin(grid, rows)
  {
    if i == 0 {
      MatchesComplete(grid[0], rows, j);
    } else {
      JoinComplete(grid[1..], rows, i - 1, j);
    }
  }

  /** Each table row matching a cell gives that cell exactly one joined row, repeats included. */
  lemma {:induction false} MatchesMultiplicity(cell: Cell, rows: seq<map<string, int>>, row: map<string, int>)
    ensures multiset(MatchesOf(cell, rows))[Feature(cell.geom, row)] ==
              if KeyMatches(cell, row) then multiset(rows)[row] else 0
  {
    if rows != [] {
      MatchesMultiplicity(cell, rows[1..], row);
      assert rows == [rows[0]] + rows[1..];
    }
  }

  /** A row that matches no grid cell is not in the join. */
  lemma NoMatchNotJoined(grid: seq<Cell>, rows: seq<map<string, int>>, f: Feature)
    requires forall c :: c in grid ==> !KeyMatches(c, f.values)
    ensures multiset(InnerJoin(grid, rows))[f] == 0
  {
  }

  /**
   * With unique grid identifiers, a table row whose `YKR_ID` is a grid cell's
   * appears in the join with that cell's geometry exactly as often as it
   * appears in the table: two rows with one identifier give two joined rows.
   */
  lemma {:induction false} JoinMultiplicity(grid: seq<Cell>, rows: seq<map<string, int>>, i: int, row: map<string, int>)
    requires UniqueIds(grid)
    requires 0 <= i < |grid| && KeyMatches(grid[i], row)
    ensures multiset(InnerJoin(grid, rows))[Feature(grid[i].geom, row)] == multiset(rows)[row]
  {
    var f := Feature(grid[i].geom, row);
    var rest := grid[1..];
    assert UniqueIds(rest) by {
      forall a, b | 0 <= a < b < |rest| ensures rest[a].id != rest[b].id {
        assert rest[a] == grid[a + 1] && rest[b] == grid[b + 1];
      }
    }
    if i == 0 {
      MatchesMultiplicity(grid[0], rows, row);
      forall c | c in rest ensures !KeyMatches(c, f.values) {
        var b :| 0 <= b < |rest| && rest[b] == c;
        assert grid[b + 1] == c;
      }
      NoMatchNotJoined(rest, rows, f);
    } else {
      assert grid[0].id != grid[i].id;
      MatchesMultiplicity(grid[0], rows, row);
      assert f !in MatchesOf(grid[0], rows);
      assert rest[i - 1] == grid[i];
      JoinMultiplicity(rest, rows, i - 1, row);
    }
  }

  /**
   * Inner-join property: every joined row's identifier is in the grid and in
   * the table, and the row carries the geometry of the grid cell with that
   * identifier.
   */
  lemma JoinKeys(grid: seq<Cell>, rows: seq<map<string, int>>, k: int)
    requires UniqueIds(grid)
    requires 0 <= k < |InnerJoin(grid, rows)|
    ensures var f := InnerJoin(grid, rows)[k];
      KeyColumn in f.values && f.values[KeyColumn] in GridIds(grid) && f.values in rows &&
      forall i :: 0 <= i < |grid| && grid[i].id == f.values[KeyColumn] ==> f.geom == grid[i].geom
  {
  }

  /** The join is empty exactly when no grid identifier occurs in the table. */
  lemma JoinNonEmpty(grid: seq<Cell>, rows: seq<map<string, int>>)
    ensures |InnerJoin(grid, rows)| > 0 <==>
      exists i, j :: 0 <= i < |grid| && 0 <= j < |rows| && KeyMatches(grid[i], rows[j])
  {
    if |InnerJoin(grid, rows)| > 0 {
      JoinSound(grid, rows, 0);
    }
    if exists i, j :: 0 <= i < |grid| && 0 <= j < |rows| && KeyMatches(grid[i], rows[j]) {
      var i, j :| 0 <= i < |grid| && 0 <= j < |rows| && KeyMatches(grid[i], rows[j]);
      JoinComplete(grid, rows, i, j);
    }
  }

  /** Joined rows follow grid order: the join of a split grid is the concatenation of the joins. */
  lemma {:induction false} JoinFollowsGrid(g1: seq<Cell>, g2: seq<Cell>, rows: seq<map<string, int>>)
    ensures InnerJoin(g1 + g2, rows) == InnerJoin(g1, rows) + InnerJoin(g2, rows)
  {
    if g1 == [] {
      assert g1 + g2 == g2;
    } else {
      assert (g1 + g2)[1..] == g1[1..] + g2;
      JoinFollowsGrid(g1[1..], g2, rows);
    }
  }

  /** Where one joined layer goes, by `output_format` (AccessViz.py:119-130). */
  datatype Destination =
    | ShapeFile(path: seq<string>)
    | GeoPackageLayer(path: seq<string>, layer: string)
    | NotWritten

  function DestinationOf(folder: string, format: string, path: seq<string>): (d: Destination)
    ensures d.NotWritten? <==> format != "shp" && format != "gpk"
    ensures d.ShapeFile? ==> |d.path| == 2 && d.path[0] == folder && d.path[1] == LayerName(path)
    ensures d.GeoPackageLayer? ==> d.path == [folder, GeoPackageName] && d.layer == LayerName(path)
  {
    if format == "shp" then ShapeFile([folder, LayerName(path)])
    else if format == "gpk" then GeoPackageLayer([folder, GeoPackageName], LayerName(path))
    else NotWritten
  }

  datatype Output = Output(dest: Destination, layer: Layer)

  /** The outputs produced, in path order, and the error that stopped the batch, if any. */
  datatype BatchOutcome = BatchOutcome(outputs: seq<Output>, failure: Option<JoinError>)

  /**
   * The loop of AccessViz.py:102-130 over (path, parsed table) pairs: each
   * table is joined and its output produced in turn; the first failing join
   * raises, so the outputs before it stand and no later path is processed.
   */
  function RunBatch(grid: seq<Cell>, folder: string, format: string, inputs: seq<(seq<string>, Table)>): (o: BatchOutcome)
    ensures |o.outputs| <= |inputs|
  {
    if inputs == [] then BatchOutcome([], None)
    else match Join(grid, inputs[0].1)
      case Failure(e) => BatchOutcome([], Some(e))
      case Success(layer) =>
        var rest := RunBatch(grid, folder, format, inputs[1..]);
        BatchOutcome([Output(DestinationOf(folder, format, inputs[0].0), layer)] + rest.outputs, rest.failure)
  }

  /**
   * The batch produces, in path order, the output of every path up to the
   * first failing join, and stops with that join's error; with no failing
   * join every path has its output.
   */
  lemma {:induction false} RunBatchOutcome(grid: seq<Cell>, folder: string, format: string, inputs: seq<(seq<string>, Table)>)
    ensures var o := RunBatch(grid, folder, format, inputs);
      (o.failure.None? ==> |o.outputs| == |inputs|) &&
      (o.failure.Some? ==> |o.outputs| < |inputs| && Join(grid, inputs[|o.outputs|].1) == Failure(o.failure.value)) &&
      forall k :: 0 <= k < |o.outputs| ==>
        Join(grid, inputs[k].1).Success? &&
        o.outputs[k] == Output(DestinationOf(folder, format, inputs[k].0), Join(grid, inputs[k].1).value)
  {
    if inputs != [] && Join(grid, inputs[0].1).Success? {
      var rest := inputs[1..];
      RunBatchOutcome(grid, folder, format, rest);
      var o := RunBatch(grid, folder, format, inputs);
      var r := RunBatch(grid, folder, format, rest);
      assert o.outputs[1..] == r.outputs && o.failure == r.failure;
      forall k | 1 <= k < |o.outputs|
        ensures Join(grid, inputs[k].1).Success? &&
          o.outputs[k] == Output(DestinationOf(folder, format, inputs[k].0), Join(grid, inputs[k].1).value)
      {
        assert inputs[k] == rest[k - 1];
      }
      if o.failure.Some? {
        assert inputs[|o.outputs|] == rest[|r.outputs|];
      }
    }
  }

  /** `tablejoiner`: an empty list of paths fails before anything is joined. */
  function TableJoiner(grid: seq<Cell>, folder: string, format: string, inputs: seq<(seq<string>, Table)>): (o: BatchOutcome)
    ensures inputs == [] ==> o == BatchOutcome([], Some(EmptyPathList))
    ensures inputs != [] ==> o == RunBatch(grid, folder, format, inputs)
  {
    if inputs == [] then BatchOutcome([], Some(EmptyPathList)) else RunBatch(grid, folder, format, inputs)
  }

  /**
   * For the paths `filefinder` resolves from seven-digit identifiers, each
   * output is named by its identifier's text, the name reads back as that
   * identifier, and two outputs share a name only when their identifiers are equal.
   */
  lemma ResolvedNames(folder: string, ids: seq<int>)
    requires forall id :: id in ids ==> SevenDigit(id)
    ensures var paths := PathsFor(folder, ids);
      forall k :: 0 <= k < |ids| ==>
        LayerName(paths[k]) == IntToString(ids[k]) && ParseInt(LayerName(paths[k])) == Some(ids[k])
    ensures var paths := PathsFor(folder, ids);
      forall k, m :: 0 <= k < |ids| && 0 <= m < |ids| ==>
        (LayerName(paths[k]) == LayerName(paths[m]) <==> ids[k] == ids[m])
  {
    var paths := PathsFor(folder, ids);
    forall k | 0 <= k < |ids|
      ensures LayerName(paths[k]) == IntToString(ids[k]) && ParseInt(LayerName(paths[k])) == Some(ids[k])
    {
      LayerNameOfSevenDigit(folder, ids[k]);
    }
    forall k, m | 0 <= k < |ids| && 0 <= m < |ids| && LayerName(paths[k]) == LayerName(paths[m])
      ensures ids[k] == ids[m]
    {
      IntToStringInjective(ids[k], ids[m]);
    }
  }
}

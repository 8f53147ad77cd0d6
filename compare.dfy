/**
 * `compare` (AccessViz.py:260-289): the rows of a joined layer where both
 * named travel modes hold real travel times, projected to those two columns
 * and the geometry, with `diff` = first mode minus second mode.
 */
module Compare {
  import opened Wrappers
  import opened Layers

  datatype CompareError =
    | TooFewModes                    // `list[0]` or `list[1]` past the end of the list: IndexError
    | MissingColumn(column: string)  // `data[column]` on an absent label: KeyError
    | DuplicateMode(column: string)  // `selection['diff'] = ...` from a two-column frame: ValueError

  /** One row of the selection: geometry, the two modes' values and their difference. */
  datatype ComparedRow = ComparedRow(geom: Geom, first: int, second: int, diff: int)

  /** The in-memory `selection` with the labels of its two mode columns. */
  datatype Comparison = Comparison(first: string, second: string, rows: seq<ComparedRow>)

  /** The row filter of AccessViz.py:287: both values are travel times (>= 0). */
  predicate BothValid(f: Feature, a: string, b: string)
  {
    IsTravelTime(Value(f, a)) && IsTravelTime(Value(f, b))
  }

  function Project(f: Feature, a: string, b: string): ComparedRow
    requires BothValid(f, a, b)
  {
    ComparedRow(f.geom, f.values[a], f.values[b], f.values[a] - f.values[b])
  }

  /** AccessViz.py:287-289 on the rows of a layer, in row order. */
  function SelectBoth(fs: seq<Feature>, a: string, b: string): (rows: seq<ComparedRow>)
    ensures |rows| <= |fs|
    ensures forall r :: r in rows ==> r.first >= 0 && r.second >= 0 && r.diff == r.first - r.second
  {
    if fs == [] then []
    else (if BothValid(fs[0], a, b) then [Project(fs[0], a, b)] else []) + SelectBoth(fs[1..], a, b)
  }

  /**
   * `compare` on an already read layer, failing where Python does: the
   * filter at AccessViz.py:287 reads `list[0]`, its column, then `list[1]`
   * and its column, in that order; the same mode listed twice makes
   * `selection[mode]` two columns wide, which cannot be assigned to `diff`
   * at AccessViz.py:289. Otherwise the selection for the first two modes,
   * first minus second.
   */
  function Compare(layer: Layer, modes: seq<string>): (r: Result<Comparison, CompareError>)
    ensures r.Success? <==>
              |modes| >= 2 && modes[0] in layer.columns && modes[1] in layer.columns && modes[0] != modes[1]
    ensures |modes| == 0 ==> r == Failure(TooFewModes)
    ensures |modes| >= 1 && modes[0] !in layer.columns ==> r == Failure(MissingColumn(modes[0]))
    ensures |modes| == 1 && modes[0] in layer.columns ==> r == Failure(TooFewModes)
    ensures |modes| >= 2 && modes[0] in layer.columns && modes[1] !in layer.columns ==>
              r == Failure(MissingColumn(modes[1]))
    ensures |modes| >= 2 && modes[0] in layer.columns && modes[0] == modes[1] ==>
              r == Failure(DuplicateMode(modes[0]))
    ensures r.Success? ==>
              r.value.first == modes[0] && r.value.second == modes[1] &&
              r.value.rows == SelectBoth(layer.features, modes[0], modes[1])
  {
    if |modes| == 0 then Failure(TooFewModes)
    else if modes[0] !in layer.columns then Failure(MissingColumn(modes[0]))
    else if |modes| == 1 then Failure(TooFewModes)
    else if modes[1] !in layer.columns then Failure(MissingColumn(modes[1]))
    else if modes[0] == modes[1] then Failure(DuplicateMode(modes[0]))
    else Success(Comparison(modes[0], modes[1], SelectBoth(layer.features, modes[0], modes[1])))
  }

  /** Every selected row is the projection of a layer row where both modes are valid. */
  lemma {:induction false} SelectSound(fs: seq<Feature>, a: string, b: string, k: int)
    requires 0 <= k < |SelectBoth(fs, a, b)|
    ensures exists i :: 0 <= i < |fs| && BothValid(fs[i], a, b) && SelectBoth(fs, a, b)[k] == Project(fs[i], a, b)
  {
    var head := if BothValid(fs[0], a, b) then [Project(fs[0], a, b)] else [];
    if k >= |head| {
      SelectSound(fs[1..], a, b, k - |head|);
      var i :| 0 <= i < |fs[1..]| && BothValid(fs[1..][i], a, b) && SelectBoth(fs[1..], a, b)[k - |head|] == Project(fs[1..][i], a, b);
      assert fs[1..][i] == fs[i + 1];
    }
  }

  /** Every layer row where both modes are valid is selected. */
  lemma {:induction false} SelectComplete(fs: seq<Feature>, a: string, b: string, i: int)
    requires 0 <= i < |fs| && BothValid(fs[i], a, b)
    ensures Project(fs[i], a, b) in SelectBoth(fs, a, b)
  {
    if i > 0 {
      SelectComplete(fs[1..], a, b, i - 1);
    }
  }

  lemma {:induction false} SelectAppend(fs: seq<Feature>, gs: seq<Feature>, a: string, b: string)
    ensures SelectBoth(fs + gs, a, b) == SelectBoth(fs, a, b) + SelectBoth(gs, a, b)
  {
    if fs == [] {
      assert fs + gs == gs;
    } else {
      var head := if BothValid(fs[0], a, b) then [Project(fs[0], a, b)] else [];
      assert (fs + gs)[0] == fs[0];
      assert (fs + gs)[1..] == fs[1..] + gs;
      calc {
        SelectBoth(fs + gs, a, b);
        head + SelectBoth(fs[1..] + gs, a, b);
        { SelectAppend(fs[1..], gs, a, b); }
        head + (SelectBoth(fs[1..], a, b) + SelectBoth(gs, a, b));
        (head + SelectBoth(fs[1..], a, b)) + SelectBoth(gs, a, b);
      }
    }
  }

  /**
   * A row whose first or second mode is negative (the -1 sentinel) or
   * missing contributes nothing: the selection is that of the other rows.
   */
  lemma SentinelRowDropped(fs: seq<Feature>, a: string, b: string, i: int)
    requires 0 <= i < |fs| && !BothValid(fs[i], a, b)
    ensures SelectBoth(fs, a, b) == SelectBoth(fs[..i], a, b) + SelectBoth(fs[i + 1..], a, b)
  {
    assert fs == fs[..i] + ([fs[i]] + fs[i + 1..]);
    SelectAppend(fs[..i], [fs[i]] + fs[i + 1..], a, b);
    SelectAppend([fs[i]], fs[i + 1..], a, b);
  }

  /** The same row with its two modes exchanged: `diff` changes sign. */
  predicate Swapped(r: ComparedRow, s: ComparedRow)
  {
    s.geom == r.geom && s.first == r.second && s.second == r.first && s.diff == -r.diff
  }

  lemma {:induction false} SelectAntisymmetric(fs: seq<Feature>, a: string, b: string)
    ensures |SelectBoth(fs, b, a)| == |SelectBoth(fs, a, b)|
    ensures forall k :: 0 <= k < |SelectBoth(fs, a, b)| ==> Swapped(SelectBoth(fs, a, b)[k], SelectBoth(fs, b, a)[k])
  {
    if fs != [] {
      SelectAntisymmetric(fs[1..], a, b);
    }
  }

  /**
   * Listing the modes the other way round keeps the same rows, in the same
   * order, and negates every `diff`: the first listed mode is always the minuend.
   */
  lemma CompareAntisymmetric(layer: Layer, a: string, b: string)
    ensures Compare(layer, [a, b]).Success? <==> Compare(layer, [b, a]).Success?
    ensures Compare(layer, [a, b]).Success? ==>
              var ab := Compare(layer, [a, b]).value.rows;
              var ba := Compare(layer, [b, a]).value.rows;
              |ab| == |ba| && forall k :: 0 <= k < |ab| ==> Swapped(ab[k], ba[k])
  {
    SelectAntisymmetric(layer.features, a, b);
  }

  /** A row with a real travel time for one mode and the sentinel for the other is dropped; a full row gives the difference. */
  lemma CompareExample(g: Geom)
    ensures var layer := Layer(["YKR_ID", "car_t", "pt_t"], [Feature(g, map["YKR_ID" := 100, "car_t" := 15, "pt_t" := Sentinel])]);
      Compare(layer, ["car_t", "pt_t"]) == Success(Comparison("car_t", "pt_t", []))
    ensures var layer := Layer(["YKR_ID", "car_t", "pt_t"], [Feature(g, map["YKR_ID" := 100, "car_t" := 15, "pt_t" := 25])]);
      Compare(layer, ["car_t", "pt_t"]) == Success(Comparison("car_t", "pt_t", [ComparedRow(g, 15, 25, -10)])) &&
      Compare(layer, ["pt_t", "car_t"]) == Success(Comparison("pt_t", "car_t", [ComparedRow(g, 25, 15, 10)]))
  {
    var full := Feature(g, map["YKR_ID" := 100, "car_t" := 15, "pt_t" := 25]);
    assert [full][1..] == [];
    assert BothValid(full, "car_t", "pt_t") && BothValid(full, "pt_t", "car_t");
    assert SelectBoth([full], "car_t", "pt_t") == [ComparedRow(g, 15, 25, -10)];
    assert SelectBoth([full], "pt_t", "car_t") == [ComparedRow(g, 25, 15, 10)];
    var cols := ["YKR_ID", "car_t", "pt_t"];
    assert cols[1] == "car_t" && cols[2] == "pt_t";
  }
}

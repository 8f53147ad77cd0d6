# AccessViz core, modelled in Dafny

AccessViz is a small toolbox for the Helsinki Region travel-time matrix. It
turns YKR grid-cell identifiers into the paths of their travel-time files
(`filefinder`), joins each travel-time table onto the YKR grid's geometry
and writes the result under a seven-character name (`tablejoiner`), compares
two travel modes as a `diff` column (`compare`), and picks the rows and the
title of a single-mode map (`visualiser`). This project models the rules
under those library calls and proves what they guarantee:

- `decimal.dfy` — `Decimal`: Python's `str(int)` and its inverse parser.
- `pathnames.dfy` — `PathNames`: the matrix path built for an identifier.
  It also models `s[0:4]`, `Path.stem` and `stem[-7:]`.
- `layers.dfy` — `Layers`: grid cells, features and layers. Geometry is an opaque type `Geom`.
- `filefinder.dfy` — `FileFinder`: the resolution loop, an imperative method.
  Its specification functions are `Found`, `Missed` and `PathsFor`.
- `tablejoiner.dfy` — `TableJoiner`: the `from_id` → `YKR_ID` rename and the
  inner join with the grid on the left. It also models the batch loop and
  where each output goes.
- `compare.dfy` — `Compare`: the filter that drops the -1 sentinel and the signed `diff`.
- `visualiser.dfy` — `Visualiser`: the single-mode filter and the closed mode → title table.
- `wrappers.dfy` — `Wrappers`: `Option` and `Result`.

Travel times are whole minutes (`int`), and -1 means "no data". A value
missing from a row is `None`, which plays the part of pandas' NaN: the
comparison `>= 0` is false for it, so the row is dropped. An exception the
code raises (an `assert`, `KeyError`, `IndexError`, `ValueError`) becomes
the `Failure` case of a `Result`.

The matrix file name keeps the space that AccessViz.py:63 writes:
`"travel_times_to_ " + str(ID) + ".txt"`. The progress message at
AccessViz.py:65 and the docstring example at AccessViz.py:94 have no space.
The output name is the last seven characters of the stem, so it is
`str(ID)` for a seven-character identifier text (`LayerNameOfSevenDigit`)
and the last seven digits for a longer one (`LayerNameOfMatrixPath`). For a
text shorter than seven characters the name takes in the end of
"travel_times_to_ ", space included, and is never `str(ID)`
(`LayerNameOfShortId`).

Three behaviours of the code matter here:
- A table that fails to join raises, and that stops the `tablejoiner` batch
  (`RunBatch`). Outputs already produced stay; later paths are not processed.
- `filefinder` only prints the identifiers it cannot resolve. The model
  returns them in `Resolution.missing`, in the printed order.
- An unrecognised mode code is not rejected by `visualiser`. It only selects
  the error title, and only when the layer has a column of that name.
  Otherwise `data[mode]` raises first.

## Model

| member | source | states |
|---|---|---|
| `Decimal.IntToString` | AccessViz.py:62-63 | `str(ID)`: a minus sign exactly for negative identifiers, digits elsewhere, and no leading zero except for zero itself |
| `Decimal.IntRoundTrip` | AccessViz.py:62-63 | reading back `str(i)` gives `i` again, so the text identifies the identifier |
| `Decimal.IntToStringInjective` | AccessViz.py:62-63 | distinct identifiers have distinct decimal texts |
| `Decimal.ThousandsPrefix` | AccessViz.py:62 | for a seven-digit identifier, `str(ID)[0:4]` is `str(ID // 1000)` |
| `PathNames.Take` | AccessViz.py:62 | `s[0:n]` is a prefix of `s` of length `min(n, len(s))` |
| `PathNames.TakeLast` | AccessViz.py:122 | `s[-n:]` is a suffix of `s` of length `min(n, len(s))` |
| `PathNames.MatrixPath` | AccessViz.py:60-63 | the path has three segments: the folder, the first four characters of `str(ID)` then "xxx", and "travel_times_to_ " + `str(ID)` + ".txt" |
| `PathNames.RFind` | AccessViz.py:122 | the index of the last dot of the file name, or -1 when it has none; `Path.stem` cuts there |
| `PathNames.Stem` | AccessViz.py:122 | `Path.stem` is the path's last segment, or that segment cut before its last dot when the dot is neither its first nor its last character |
| `PathNames.LayerName` | AccessViz.py:122 | `Path(path).stem[-7:]` is the last seven characters of the stem, or the whole stem when it is shorter |
| `PathNames.StemOfMatrixPath` | AccessViz.py:63 | the stem of a matrix path is "travel_times_to_ " + `str(ID)`; the identifier text holds no dot |
| `PathNames.LayerNameOfMatrixPath` | AccessViz.py:119-130 | the output/layer name of a matrix path has seven characters; they are the last seven of `str(ID)`, or the whole text preceded by the tail of "travel_times_to_ " |
| `PathNames.LayerNameOfSevenDigit` | AccessViz.py:119-130 | for a seven-digit identifier the output and layer name is exactly `str(ID)` and parses back to the identifier |
| `PathNames.LayerNameOfShortId` | AccessViz.py:119-130 | for an identifier text shorter than seven characters the name contains the space and differs from `str(ID)` |
| `PathNames.GroupDirOfSevenDigit` | AccessViz.py:62 | a seven-digit identifier's folder is `str(ID // 1000)` + "xxx": identifiers are grouped by thousands |
| `Layers.GridIds` | AccessViz.py:44 | `grid["YKR_ID"].tolist()` lists the cells' identifiers position by position |
| `FileFinder.FileFinder` | AccessViz.py:39-67 | fails exactly on an empty request; otherwise returns the paths of the requested identifiers found in the grid's identifier list, in request order, and the identifiers not found |
| `FileFinder.Resolve` | AccessViz.py:54-67 | the loop leaves the matrix paths of the requested identifiers in the grid, in request order, and the identifiers not in it |
| `FileFinder.Found` | AccessViz.py:54-64 | every resolved identifier was requested and is in the grid |
| `FileFinder.Missed` | AccessViz.py:66-67 | every reported identifier was requested and is not in the grid |
| `FileFinder.PathsFor` | AccessViz.py:60-64 | one matrix path per resolved identifier, position by position |
| `FileFinder.Returned` | AccessViz.py:69-75 | the paths are returned only for output 'list'; 'text' and any other value return nothing |
| `FileFinder.PartitionCount` | AccessViz.py:54-67 | resolved count + skipped count = number of requested identifiers |
| `FileFinder.FoundMembers` | AccessViz.py:56-64 | an identifier is resolved iff it was requested and is in the grid |
| `FileFinder.MissedMembers` | AccessViz.py:66-67 | an identifier is reported missing iff it was requested and is not in the grid |
| `FileFinder.FoundMultiplicity` | AccessViz.py:54-64 | a grid identifier requested n times is resolved n times; a non-grid one never |
| `FileFinder.FoundAppend` | AccessViz.py:54-67 | resolution goes request by request: a concatenated request gives the concatenated results, so input order is kept and a miss never stops the batch |
| `FileFinder.ResolveExample` | AccessViz.py:54-67 | requesting 100, 200, 300 against grid 100, 200 resolves 100, 200 and reports 300 |
| `TableJoiner.RenameRow` | AccessViz.py:110-112 | `from_id` becomes `YKR_ID` with the same value; every other column and value is unchanged; a row without `from_id` is unchanged |
| `TableJoiner.Rename` | AccessViz.py:110-112 | the renamed table has no `from_id`, keeps every other label, gains `YKR_ID` when `from_id` was there, and renames every row |
| `TableJoiner.RenameWithoutFromId` | AccessViz.py:110-112 | a table without a `from_id` column comes back unchanged |
| `TableJoiner.Join` | AccessViz.py:110-117 | the merge succeeds iff the table has exactly one of `from_id` and `YKR_ID`. Its rows are the inner join of the grid with the renamed rows. Its columns start with `YKR_ID` and keep every other table column |
| `TableJoiner.InnerJoin` | AccessViz.py:114-117 | every joined row is a table row carrying the geometry of a grid cell whose identifier is that row's `YKR_ID` |
| `TableJoiner.MatchesMultiplicity` | AccessViz.py:114-117 | for one grid cell, each matching table row gives exactly one joined row per occurrence in the table; a non-matching row gives none |
| `TableJoiner.JoinMultiplicity` | AccessViz.py:114-117 | with unique grid identifiers, a table row whose `YKR_ID` is in the grid appears in the join, with that cell's geometry, as often as it appears in the table |
| `TableJoiner.JoinSound` | AccessViz.py:114-117 | every joined row is a grid cell's geometry paired with a table row whose `YKR_ID` equals that cell's identifier |
| `TableJoiner.JoinComplete` | AccessViz.py:114-117 | every grid cell and table row with equal identifiers appear joined in the result |
| `TableJoiner.JoinKeys` | AccessViz.py:114-117 | every joined row's `YKR_ID` is in the grid and in the table, and its geometry is that of the grid cell with that identifier |
| `TableJoiner.JoinNonEmpty` | AccessViz.py:114-117 | the join is non-empty iff some grid identifier occurs in the table |
| `TableJoiner.JoinFollowsGrid` | AccessViz.py:114-117 | joined rows follow grid order: joining a split grid concatenates the two joins |
| `TableJoiner.DestinationOf` | AccessViz.py:119-130 | 'shp' writes a file named `stem[-7:]` in the output folder; 'gpk' writes layer `stem[-7:]` of TravelMatrix.gpkg there; any other format writes nothing |
| `TableJoiner.RunBatch` | AccessViz.py:102-130 | the batch never produces more outputs than it has paths |
| `TableJoiner.RunBatchOutcome` | AccessViz.py:102-130 | one output per path in order, each the path's join sent to its shapefile or GeoPackage layer named by `stem[-7:]`; the first failing join stops the batch with its error, and with no failing join every path has an output |
| `TableJoiner.TableJoiner` | AccessViz.py:97-130 | an empty path list fails with nothing produced; otherwise the batch runs |
| `TableJoiner.ResolvedNames` | AccessViz.py:60-130 | the outputs for paths resolved from seven-digit identifiers are named `str(ID)`, parse back to the identifiers, and share a name only for equal identifiers |
| `Compare.SelectBoth` | AccessViz.py:287-289 | every selected row has both values >= 0 and `diff` = first - second |
| `Compare.Compare` | AccessViz.py:287-289 | succeeds iff `list[0]` and `list[1]` exist, are columns and differ. Failures come in Python's evaluation order: `list[0]` missing, then its column, then `list[1]`, then its column, then the same mode twice (the `diff` assignment fails). On success it selects the rows for `list[0]` minus `list[1]` |
| `Compare.SelectSound` | AccessViz.py:287-289 | every selected row is the projection of a layer row where both modes are >= 0 |
| `Compare.SelectComplete` | AccessViz.py:287-289 | every layer row where both modes are >= 0 is selected |
| `Compare.SentinelRowDropped` | AccessViz.py:287 | a row negative or missing in either mode contributes nothing: the selection is that of the other rows |
| `Compare.CompareAntisymmetric` | AccessViz.py:271-289 | swapping the modes keeps the same rows in the same order, swaps the two values and negates every `diff` |
| `Compare.CompareExample` | AccessViz.py:287-289 | car 15 / pt -1 gives no row; car 15 / pt 25 gives `diff` -10, and 10 with the modes swapped |
| `Visualiser.Lookup` | AccessViz.py:178 | the mode found has the code looked up; when none is found, no listed mode has that code |
| `Visualiser.ModeOfCode` | AccessViz.py:178 | each of the four codes names its mode, and a recognised code is that mode's code |
| `Visualiser.Title` | AccessViz.py:178 | the title is the error text exactly when the code is none of `pt_m_t`, `car_sl_t`, `walk_t`, `bike_f_t`, and is always one of the four labels or that text |
| `Visualiser.TitleCases` | AccessViz.py:178 | the table gives 'Public transport ', 'Car ', 'Walking ', 'Biking ' for `pt_m_t`, `car_sl_t`, `walk_t`, `bike_f_t` and the error text for anything else |
| `Visualiser.TitleIdentifiesMode` | AccessViz.py:178 | a recognised code never gets the error text, and distinct recognised codes get distinct titles |
| `Visualiser.SelectMode` | AccessViz.py:164-165 | every selected row has a travel time >= 0 in the chosen mode |
| `Visualiser.Visualise` | AccessViz.py:164-178 | fails iff the mode is not a column; otherwise it gives the mode's selection and its title |
| `Visualiser.SelectModeSound` | AccessViz.py:164-165 | every selected row is the geometry and mode value of a layer row with a value >= 0 |
| `Visualiser.SelectModeComplete` | AccessViz.py:164-165 | every layer row with a mode value >= 0 is selected |

## Left out

- File and table I/O is left out: `gpd.read_file`, `pd.read_csv`, `to_file`, `to_csv` and the manifest file of `filefinder`'s 'text' output. The grid identifiers, the grid and the parsed tables are inputs; a missing or unreadable file is not modelled.
- Rendering with matplotlib and folium (AccessViz.py:181-257) is left out: it is plotting only.
- Geometry is left out: reprojection, centroids and the marker position (AccessViz.py:169-175, :209). Geometry is the opaque type `Geom`.
- Progress and miss messages (AccessViz.py:65, :67) and the `count` counter are left out: they only print.
- `compare`'s writes (AccessViz.py:292-297) are left out. They save `data`, not the `selection`, so `diff` is never persisted; only the in-memory selection is modelled.
- The reload of the grid in every iteration (AccessViz.py:104) is left out: it has no logical effect, and the grid is one read-only input.
- The `__main__` block (AccessViz.py:300-301) is left out: it calls `filefinder()` without arguments.
- The `file` argument of `visualiser` and `compare` is left out. It chooses how the layer is read (AccessViz.py:158-161, :281-284) and, in `compare`, how it is written (AccessViz.py:292-297). Any value other than 'shp' or 'gpkg' leaves `data` unbound, so the call raises `UnboundLocalError` at AccessViz.py:164 or :287. The model starts from an already read layer and does not capture that failure.
- `pathlib` normalisation is left out: separators inside `folder_path`, an empty folder, and Windows backslashes. A path is the sequence of its segments.
- pandas dtypes are left out: every cell and identifier is an integer, so a key of another type cannot arise. On an int/str key mismatch, pandas' merge raises `ValueError`.
- The grid's columns other than `YKR_ID` and `geometry` (`x`, `y`) are left out, and so is the `_x`/`_y` suffixing pandas applies to overlapping non-key columns.
- Duplicate labels in a table header are left out: pandas renames them on read. A rectangular table whose header holds both `from_id` and `YKR_ID` is a `DuplicateKey` failure.
- Label clashes in the comparison (a mode named `diff` or `geometry`) are left out: the selection is a row datatype with fields for the two values and `diff`.
- Compare.Compare: a mode named `geometry` counts as an absent column, whereas pandas would try `geometry >= 0` and fail differently.
- Visualiser.Visualise: a mode named `geometry` counts as an absent column (`MissingColumn`). In pandas `data['geometry']` exists, and `data['geometry'] >= 0` at AccessViz.py:164 fails with a TypeError instead.

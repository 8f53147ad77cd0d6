/**
 * The data preparation of `visualiser` (AccessViz.py:163-178): the rows of
 * a layer with a real travel time in the chosen mode, projected to that mode
 * and the geometry, and the map title chosen from the mode's code.
 */
module Visualiser {
  import opened Wrappers
  import opened Layers

  /** The four travel modes the title recognises, in the order it tests them. */
  datatype Mode = PublicTransport | Car | Walking | Biking

  const Modes: seq<Mode> := [PublicTransport, Car, Walking, Biking]

  /** The column code of a mode. */
  function Code(m: Mode): string
  {
    match m
    case PublicTransport => "pt_m_t"
    case Car => "car_sl_t"
    case Walking => "walk_t"
    case Biking => "bike_f_t"
  }

  /** The title text of a mode. */
  function Label(m: Mode): string
  {
    match m
    case PublicTransport => "Public transport "
    case Car => "Car "
    case Walking => "Walking "
    case Biking => "Biking "
  }

  const UnknownModeTitle := "Please enter a correct value for mode"

  /** The first mode of `ms` whose code is `code`. */
  function Lookup(code: string, ms: seq<Mode>): (r: Option<Mode>)
    ensures r.Some? ==> r.value in ms && Code(r.value) == code
    ensures r.None? ==> forall m :: m in ms ==> Code(m) != code
  {
    if ms == [] then None
    else if Code(ms[0]) == code then Some(ms[0])
    else Lookup(code, ms[1..])
  }

  /** The mode a column code names, if it names one. */
  function ModeOf(code: string): Option<Mode>
  {
    Lookup(code, Modes)
  }

  /** The title of AccessViz.py:178: a mode's label, or the error text for any other code. */
  function Title(code: string): (t: string)
    ensures t == UnknownModeTitle <==> code !in {"pt_m_t", "car_sl_t", "walk_t", "bike_f_t"}
    ensures t in {"Public transport ", "Car ", "Walking ", "Biking ", UnknownModeTitle}
  {
    match ModeOf(code)
    case Some(m) => Label(m)
    case None => UnknownModeTitle
  }

  /** Mode codes and modes correspond one to one. */
  lemma ModeOfCode(m: Mode, code: string)
    ensures ModeOf(Code(m)) == Some(m)
    ensures ModeOf(code).Some? ==> Code(ModeOf(code).value) == code
  {
  }

  /** The table gives the same titles as the chain of conditionals at AccessViz.py:178. */
  lemma TitleCases(code: string)
    ensures Title(code) ==
      if code == "pt_m_t" then "Public transport "
      else if code == "car_sl_t" then "Car "
      else if code == "walk_t" then "Walking "
      else if code == "bike_f_t" then "Biking "
      else "Please enter a correct value for mode"
  {
  }

  /** Different recognised codes give different titles, none of them the error text. */
  lemma TitleIdentifiesMode(c1: string, c2: string)
    requires ModeOf(c1).Some?
    ensures Title(c1) != UnknownModeTitle
    ensures Title(c1) == Title(c2) ==> c1 == c2
  {
  }

  datatype VisualiseError = MissingColumn(column: string)  // `data[mode]` on an absent label: KeyError

  /** One row of the selection: geometry and the chosen mode's travel time. */
  datatype ModeRow = ModeRow(geom: Geom, time: int)

  /** What the rendering receives: the selection and the title text. */
  datatype View = View(rows: seq<ModeRow>, title: string)

  /** AccessViz.py:164-165: the rows whose `mode` value is a travel time, projected. */
  function SelectMode(fs: seq<Feature>, mode: string): (rows: seq<ModeRow>)
    ensures |rows| <= |fs|
    ensures forall r :: r in rows ==> r.time >= 0
  {
    if fs == [] then []
    else
      var head := if IsTravelTime(Value(fs[0], mode)) then [ModeRow(fs[0].geom, fs[0].values[mode])] else [];
      head + SelectMode(fs[1..], mode)
  }

  /**
   * `visualiser` up to the rendering: the selection fails like pandas when the
   * mode is not a column; otherwise it comes with the mode's title.
   */
  function Visualise(layer: Layer, mode: string): (r: Result<View, VisualiseError>)
    ensures r.Success? <==> mode in layer.columns
    ensures r.Failure? ==> r.error == MissingColumn(mode)
    ensures r.Success? ==> r.value.rows == SelectMode(layer.features, mode) && r.value.title == Title(mode)
  {
    if mode !in layer.columns then Failure(MissingColumn(mode))
    else Success(View(SelectMode(layer.features, mode), Title(mode)))
  }

  /** Every selected row comes from a layer row with a travel time in the mode. */
  lemma {:induction false} SelectModeSound(fs: seq<Feature>, mode: string, k: int)
    requires 0 <= k < |SelectMode(fs, mode)|
    ensures exists i :: 0 <= i < |fs| && IsTravelTime(Value(fs[i], mode)) &&
                        SelectMode(fs, mode)[k] == ModeRow(fs[i].geom, fs[i].values[mode])
  {
    var head := if IsTravelTime(Value(fs[0], mode)) then [ModeRow(fs[0].geom, fs[0].values[mode])] else [];
    if k >= |head| {
      SelectModeSound(fs[1..], mode, k - |head|);
      var i :| 0 <= i < |fs[1..]| && IsTravelTime(Value(fs[1..][i], mode)) &&
               SelectMode(fs[1..], mode)[k - |head|] == ModeRow(fs[1..][i].geom, fs[1..][i].values[mode]);
      assert fs[1..][i] == fs[i + 1];
    }
  }

  /** Every layer row with a travel time in the mode is selected. */
  lemma {:induction false} SelectModeComplete(fs: seq<Feature>, mode: string, i: int)
    requires 0 <= i < |fs| && IsTravelTime(Value(fs[i], mode))
    ensures ModeRow(fs[i].geom, fs[i].values[mode]) in SelectMode(fs, mode)
  {
    if i > 0 {
      SelectModeComplete(fs[1..], mode, i - 1);
    }
  }
}

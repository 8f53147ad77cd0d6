/**
 * Names derived from travel-time matrix file paths: the path `filefinder`
 * builds for an identifier (AccessViz.py:60-63) and the seven-character
 * output/layer name `tablejoiner` cuts from a path's stem (AccessViz.py:122, :130).
 * A path is the sequence of its segments, as `pathlib.Path(a, b, c)` joins them.
 */
module PathNames {
  import opened Wrappers
  import opened Decimal

  /** Python's `s[0:n]`: the first `n` characters, or all of `s` when it is shorter. */
  function Take(s: string, n: nat): (r: string)
    ensures r <= s
    ensures |r| == if |s| < n then |s| else n
  {
    if |s| <= n then s else s[..n]
  }

  /** Python's `s[-n:]` for `n >= 1`: the last `n` characters, or all of `s` when it is shorter. */
  function TakeLast(s: string, n: nat): (r: string)
    requires n >= 1
    ensures |r| == if |s| < n then |s| else n
    ensures s == s[..|s| - |r|] + r
  {
    if |s| <= n then s else s[|s| - n..]
  }

  const GroupSuffix := "xxx"
  const FilePrefix := "travel_times_to_ "
  const FileExtension := ".txt"
  /** How many trailing characters of a stem name an output file or layer. */
  const NameWidth: nat := 7

  /** The folder holding an identifier's matrix file: its first four characters then "xxx". */
  function GroupDir(id: int): string
  {
    Take(IntToString(id), 4) + GroupSuffix
  }

  /** The matrix file name as the path at AccessViz.py:63 writes it, space included. */
  function FileName(id: int): string
  {
    FilePrefix + IntToString(id) + FileExtension
  }

  /** The three-segment path `filefinder` builds for an identifier found in the grid. */
  function MatrixPath(folder: string, id: int): (p: seq<string>)
    ensures |p| == 3 && p[0] == folder
    ensures |p[1]| >= 3 && p[1][..|p[1]| - 3] == Take(IntToString(id), 4) && p[1][|p[1]| - 3..] == "xxx"
    ensures p[2] == "travel_times_to_ " + IntToString(id) + ".txt"
  {
    var dir := GroupDir(id);
    assert dir[..|dir| - 3] == Take(IntToString(id), 4);
    [folder, dir, FileName(id)]
  }

  /** `Path.name`: the last segment, empty for an empty path. */
  function Name(p: seq<string>): string
  {
    if p == [] then "" else p[|p| - 1]
  }

  /** Python's `str.rfind(c)`: the index of the last `c` in `s`, or -1. */
  function RFind(s: string, c: char): (i: int)
    ensures -1 <= i < |s|
    ensures i >= 0 ==> s[i] == c
    ensures forall k :: i < k < |s| ==> s[k] != c
  {
    if s == [] then -1
    else if s[|s| - 1] == c then |s| - 1
    else RFind(s[..|s| - 1], c)
  }

  /**
   * `Path.stem`: the name without its final suffix, where a suffix is a dot
   * that is neither the first nor the last character of the name, and what follows it.
   */
  function Stem(p: seq<string>): (stem: string)
    ensures stem <= Name(p)
    ensures stem == Name(p) ||
            (0 < |stem| < |Name(p)| - 1 && Name(p)[|stem|] == '.' && '.' !in Name(p)[|stem| + 1..])
    ensures stem == Name(p) ==> RFind(Name(p), '.') <= 0 || RFind(Name(p), '.') == |Name(p)| - 1
  {
    var name := Name(p);
    var i := RFind(name, '.');
    if 0 < i < |name| - 1 then name[..i] else name
  }

  /** `Path(path).stem[-7:]`: the output file name and GeoPackage layer name of a matrix path. */
  function LayerName(p: seq<string>): (name: string)
    ensures |name| == if |Stem(p)| < NameWidth then |Stem(p)| else NameWidth
    ensures Stem(p) == Stem(p)[..|Stem(p)| - |name|] + name
  {
    TakeLast(Stem(p), NameWidth)
  }

  lemma NoDotInDecimal(id: int)
    ensures '.' !in IntToString(id)
  {
  }

  /** The stem of a matrix path is the file name without ".txt". */
  lemma StemOfMatrixPath(folder: string, id: int)
    ensures Stem(MatrixPath(folder, id)) == FilePrefix + IntToString(id)
  {
    var name := FileName(id);
    var digits := IntToString(id);
    var cut := |FilePrefix| + |digits|;
    assert name[cut] == '.' && name[cut + 1..] == "txt";
    assert RFind(name, '.') == cut by {
      NoDotInDecimal(id);
      assert forall k :: 0 <= k < |digits| ==> name[|FilePrefix| + k] == digits[k];
    }
    assert name[..cut] == FilePrefix + digits;
  }

  /**
   * The output name of a matrix path ends with the identifier's text: it is
   * the last seven characters of that text when the text has seven or more, and
   * otherwise the whole text preceded by the tail of "travel_times_to_ ".
   */
  lemma LayerNameOfMatrixPath(folder: string, id: int)
    ensures var s := IntToString(id);
      var name := LayerName(MatrixPath(folder, id));
      |name| == NameWidth &&
      (|s| >= NameWidth ==> name == s[|s| - NameWidth..]) &&
      (|s| < NameWidth ==> name == FilePrefix[|FilePrefix| - (NameWidth - |s|)..] + s)
  {
    StemOfMatrixPath(folder, id);
    var s := IntToString(id);
    var stem := FilePrefix + s;
    if |s| >= NameWidth {
      assert stem[|stem| - NameWidth..] == s[|s| - NameWidth..];
    } else {
      assert stem[|stem| - NameWidth..] == FilePrefix[|FilePrefix| - (NameWidth - |s|)..] + s;
    }
  }

  /** For a seven-digit grid identifier the output name is exactly `str(id)`. */
  lemma LayerNameOfSevenDigit(folder: string, id: int)
    requires SevenDigit(id)
    ensures LayerName(MatrixPath(folder, id)) == IntToString(id)
    ensures ParseInt(LayerName(MatrixPath(folder, id))) == Some(id)
  {
    SevenDigitLength(id);
    LayerNameOfMatrixPath(folder, id);
    IntRoundTrip(id);
  }

  /**
   * For a text shorter than seven characters the output name carries the
   * space of the file name, so it is never the identifier's text.
   */
  lemma LayerNameOfShortId(folder: string, id: int)
    requires |IntToString(id)| < NameWidth
    ensures ' ' in LayerName(MatrixPath(folder, id))
    ensures LayerName(MatrixPath(folder, id)) != IntToString(id)
  {
    LayerNameOfMatrixPath(folder, id);
    var s := IntToString(id);
    var name := LayerName(MatrixPath(folder, id));
    assert name[NameWidth - |s| - 1] == ' ';
  }

  /** Seven-digit identifiers are grouped into folders by their number of thousands. */
  lemma GroupDirOfSevenDigit(id: int)
    requires SevenDigit(id)
    ensures GroupDir(id) == IntToString(id / 1000) + "xxx"
  {
    ThousandsPrefix(id);
  }
}

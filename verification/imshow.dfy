// The static image view: the suitability grid painted as an RGB stack.

module Imshow {
  import opened Wrappers
  import opened Text
  import opened Reader
  import App

  // ---------------------------------------------------------------------
  // Choosing the file
  // ---------------------------------------------------------------------

  /** `os.path.join(COMPILED_DIR, fpaths[0])`: only the first matched path is
      drawn, and an empty match list raises IndexError. */
  function TifPath(compiledDir: string, fpaths: seq<string>): (r: Result<string, App.Failure>)
    ensures r.Ok? <==> fpaths != []
    ensures !r.Ok? ==> r.error == App.IndexError
    ensures r.Ok? ==> r.value == PathJoin([compiledDir, fpaths[0]])
  {
    if fpaths == [] then Err(App.IndexError) else Ok(PathJoin([compiledDir, fpaths[0]]))
  }

  /** Paths after the first never influence the chosen file. */
  lemma TifPathFirstOnly(compiledDir: string, fpaths: seq<string>, extra: seq<string>)
    requires fpaths != []
    ensures TifPath(compiledDir, fpaths + extra) == TifPath(compiledDir, fpaths)
    ensures TifPath(compiledDir, fpaths[..1]) == TifPath(compiledDir, fpaths)
  {
    assert (fpaths + extra)[0] == fpaths[0];
  }

  // ---------------------------------------------------------------------
  // Colours
  // ---------------------------------------------------------------------

  datatype Rgb = Rgb(red: real, green: real, blue: real)

  /** The fill for missing cells (including the cells equal to 1 that the
      reader turned into NaN). */
  const PaleBlue := Rgb(176.0, 233.0, 235.0)
  const Black := Rgb(0.0, 0.0, 0.0)

  function Grey(v: real): Rgb {
    Rgb(v, v, v)
  }

  /** What one cell looks like: pale blue when missing, its value on all three
      channels otherwise (so a 0 is black). */
  function Colour(c: Cell): Rgb {
    match c
    case NaN => PaleBlue
    case Val(v) => Grey(v)
  }

  type Grid = seq<seq<real>>

  predicate SameShape(a: seq<seq<Cell>>, m: Grid) {
    |m| == |a| && forall i :: 0 <= i < |a| ==> |m[i]| == |a[i]|
  }

  /** `np.where(np.isnan(array), fill, array)`. */
  function FillMissing(a: seq<seq<Cell>>, fill: real): (m: Grid)
    ensures SameShape(a, m)
  {
    seq(|a|, i requires 0 <= i < |a| =>
      seq(|a[i]|, j requires 0 <= j < |a[i]| => if a[i][j].NaN? then fill else a[i][j].v))
  }

  /** `np.where(array == 0, 0, m)`: NaN is not equal to 0. */
  function BlackenZeros(a: seq<seq<Cell>>, m: Grid): (z: Grid)
    requires SameShape(a, m)
    ensures SameShape(a, z)
  {
    seq(|a|, i requires 0 <= i < |a| =>
      seq(|a[i]|, j requires 0 <= j < |a[i]| => if a[i][j] == Val(0.0) then 0.0 else m[i][j]))
  }

  /** `np.stack((R, G, B), axis=-1)`: three grids of one shape become a grid of triples. */
  function Stack(a: seq<seq<Cell>>, r: Grid, g: Grid, b: Grid): (s: seq<seq<Rgb>>)
    requires SameShape(a, r) && SameShape(a, g) && SameShape(a, b)
  {
    seq(|a|, i requires 0 <= i < |a| =>
      seq(|a[i]|, j requires 0 <= j < |a[i]| => Rgb(r[i][j], g[i][j], b[i][j])))
  }

  /** The channel masks and their stack, pass by pass. Each pixel has the
      colour of its cell, and the image has the grid's shape. */
  function RgbStack(a: seq<seq<Cell>>): (s: seq<seq<Rgb>>)
    ensures |s| == |a|
    ensures forall i :: 0 <= i < |a| ==> |s[i]| == |a[i]|
    ensures forall i, j :: 0 <= i < |a| && 0 <= j < |a[i]| ==> s[i][j] == Colour(a[i][j])
  {
    var red := BlackenZeros(a, FillMissing(a, PaleBlue.red));
    var green := BlackenZeros(a, FillMissing(a, PaleBlue.green));
    var blue := BlackenZeros(a, FillMissing(a, PaleBlue.blue));
    Stack(a, red, green, blue)
  }

  /** Missing cells are pale blue, zero cells black, and any other value grey
      at its own level. */
  lemma ColourCases(c: Cell)
    ensures c.NaN? <==> Colour(c) == PaleBlue
    ensures c == Val(0.0) <==> Colour(c) == Black
    ensures c.Val? ==> Colour(c) == Grey(c.v)
  {
  }

  /** Different cells are painted differently: the image loses nothing. */
  lemma ColourInjective(c: Cell, d: Cell)
    ensures Colour(c) == Colour(d) <==> c == d
  {
  }

  predicate OnlyZeroOrMissing(a: seq<seq<Cell>>) {
    forall i, j :: 0 <= i < |a| && 0 <= j < |a[i]| ==> a[i][j] == NaN || a[i][j] == Val(0.0)
  }

  /** A grid holding only 0 and NaN becomes a two-colour picture. */
  lemma TwoColours(a: seq<seq<Cell>>)
    requires OnlyZeroOrMissing(a)
    ensures var s := RgbStack(a);
      forall i, j :: 0 <= i < |s| && 0 <= j < |s[i]| ==> s[i][j] == Black || s[i][j] == PaleBlue
  {
  }

  // ---------------------------------------------------------------------
  // The view
  // ---------------------------------------------------------------------

  /** `plot_imshow_map`: the raster behind the first path is opened without
      reprojection and painted. The file system is the parameter `raster`,
      the contents of the file `TifPath` names. */
  function PlotImshow(compiledDir: string, fpaths: seq<string>, raster: Raster): (r: Result<seq<seq<Rgb>>, App.Failure>)
    requires Valid(raster)
    ensures r.Ok? <==> fpaths != []
    ensures r.Ok? ==> (|r.value| == |raster.bands| * |raster.ys|
      && forall i :: 0 <= i < |r.value| ==> |r.value[i]| == |raster.xs|)
  {
    var _ :- TifPath(compiledDir, fpaths);
    var file := OpenAsRaster(raster, false, false, Identity, raster);
    Ok(RgbStack(file.values))
  }

  /** Pixel `j` of row `b * height + i` is painted from cell `(i, j)` of band
      `b` of the first matched file, after the reader has masked 1 to NaN. */
  lemma PlotImshowCell(compiledDir: string, fpaths: seq<string>, raster: Raster, b: nat, i: nat, j: nat)
    requires Valid(raster) && fpaths != []
    requires b < |raster.bands| && i < |raster.ys| && j < |raster.xs|
    ensures var s := PlotImshow(compiledDir, fpaths, raster).value;
      b * |raster.ys| + i < |s| && j < |s[b * |raster.ys| + i]|
      && s[b * |raster.ys| + i][j] == Colour(MaskCell(raster.bands[b][i][j]))
  {
    ReturnedCell(raster, b, i, j);
  }

  /** No pixel is the grey of the value 1: unsuitable cells were masked to
      NaN by the reader, so they share the pale blue of missing data, and
      every pixel is pale blue or the grey of a value other than 1. */
  lemma ImshowNoOnes(compiledDir: string, fpaths: seq<string>, raster: Raster)
    requires Valid(raster) && fpaths != []
    ensures var s := PlotImshow(compiledDir, fpaths, raster).value;
      forall i, j :: 0 <= i < |s| && 0 <= j < |s[i]| ==>
        s[i][j] != Grey(1.0) && (s[i][j] == PaleBlue || exists v :: v != 1.0 && s[i][j] == Grey(v))
  {
    var a := OpenAsRaster(raster, false, false, Identity, raster).values;
    assert NoOnes(a);
    var s := PlotImshow(compiledDir, fpaths, raster).value;
    assert s == RgbStack(a);
    forall i, j | 0 <= i < |s| && 0 <= j < |s[i]|
      ensures s[i][j] != Grey(1.0) && (s[i][j] == PaleBlue || exists v :: v != 1.0 && s[i][j] == Grey(v))
    {
      assert s[i][j] == Colour(a[i][j]);
      assert a[i][j] != One;
      if a[i][j].Val? {
        assert s[i][j] == Grey(a[i][j].v);
      }
    }
  }
}

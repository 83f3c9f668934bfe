/** Raster cell bookkeeping of the GeoTIFF reader: the long-form (melted)
    point table, its bounding boxes, the feasibility filter, the band
    flattening and the 1 -> NaN masking of the returned array.

    The geo libraries are abstracted: decoding yields a `Raster` value, the
    coordinate transformer is a function parameter, and the reprojected
    raster produced by the library is a parameter too. */
module Reader {
  import opened Seqs
  import opened Wrappers

  /** A cell of a raster opened with masked=True: nodata reads as NaN. */
  datatype Cell = NaN | Val(v: real)

  /** Value 1 marks an unsuitable cell. NaN is never equal to it. */
  const One: Cell := Val(1.0)

  /** A decoded raster: `bands[b][i][j]` is band `b` at row `i` (coordinate
      `ys[i]`) and column `j` (coordinate `xs[j]`). */
  datatype Raster = Raster(bands: seq<seq<seq<Cell>>>, xs: seq<real>, ys: seq<real>)

  /** A decoded GeoTIFF has at least one band and at least one row and column,
      and every band is a full `|ys|` by `|xs|` grid. */
  predicate Valid(r: Raster) {
    |r.bands| >= 1 && |r.xs| >= 1 && |r.ys| >= 1 &&
    (forall b :: 0 <= b < |r.bands| ==> |r.bands[b]| == |r.ys|) &&
    (forall b, i :: 0 <= b < |r.bands| && 0 <= i < |r.ys| ==> |r.bands[b][i]| == |r.xs|)
  }

  /** A labelled 2-D table: rows indexed by y coordinates, columns by x coordinates. */
  datatype Frame = Frame(columns: seq<real>, index: seq<real>, values: seq<seq<Cell>>)

  predicate Shaped(f: Frame) {
    |f.values| == |f.index| &&
    forall i :: 0 <= i < |f.values| ==> |f.values[i]| == |f.columns|
  }

  /** The data frame of band 0, with the x coordinates as columns and the
      y coordinates as index. */
  function FrameOf(r: Raster): (f: Frame)
    requires Valid(r)
    ensures Shaped(f) && |f.columns| >= 1 && |f.index| >= 1
  {
    Frame(r.xs, r.ys, r.bands[0])
  }

  // ---------------------------------------------------------------------
  // Bounding boxes
  // ---------------------------------------------------------------------

  /** The library's bounds tuple `(minx, miny, maxx, maxy)`. */
  datatype Bounds = Bounds(minx: real, miny: real, maxx: real, maxy: real)

  datatype LatLon = LatLon(lat: real, lon: real)

  /** A box as the map components take it: `[[lower lat, lower lon], [upper lat, upper lon]]`. */
  datatype BBox = BBox(lower: LatLon, upper: LatLon)

  /** Reading a box back as a bounds tuple (x is longitude, y is latitude). */
  function BoundsOf(box: BBox): Bounds {
    Bounds(box.lower.lon, box.lower.lat, box.upper.lon, box.upper.lat)
  }

  predicate Ordered(box: BBox) {
    box.lower.lat <= box.upper.lat && box.lower.lon <= box.upper.lon
  }

  /** The source box: bounds reordered latitude first. */
  function SourceBBox(b: Bounds): (box: BBox)
    ensures BoundsOf(box) == b
    ensures Ordered(box) <==> b.minx <= b.maxx && b.miny <= b.maxy
  {
    BBox(LatLon(b.miny, b.minx), LatLon(b.maxy, b.maxx))
  }

  /** Reordering loses nothing: every box is the source box of its own bounds. */
  lemma SourceBBoxRoundTrip(box: BBox)
    ensures SourceBBox(BoundsOf(box)) == box
  {
  }

  /** The fixed extent used when the raster is not reprojected: the
      continental United States, offshore excluded. */
  const UsExtent: BBox := BBox(LatLon(24.9493, -125.00165), LatLon(49.59037, -66.93457))

  lemma UsExtentOrdered()
    ensures Ordered(UsExtent)
    ensures UsExtent.lower.lon < 0.0 && UsExtent.upper.lon < 0.0
    ensures 0.0 < UsExtent.lower.lat < UsExtent.upper.lat
  {
  }

  /** The least key over a non-empty sequence (pandas' column min). */
  function Least<T>(s: seq<T>, key: T -> real): (m: real)
    requires s != []
    ensures exists x :: x in s && key(x) == m
    ensures forall x :: x in s ==> m <= key(x)
  {
    if |s| == 1 then key(s[0])
    else
      var rest := Least(s[1..], key);
      assert forall x :: x in s ==> x == s[0] || x in s[1..];
      if key(s[0]) <= rest then key(s[0]) else rest
  }

  /** The greatest key over a non-empty sequence (pandas' column max). */
  function Greatest<T>(s: seq<T>, key: T -> real): (m: real)
    requires s != []
    ensures exists x :: x in s && key(x) == m
    ensures forall x :: x in s ==> key(x) <= m
  {
    if |s| == 1 then key(s[0])
    else
      var rest := Greatest(s[1..], key);
      assert forall x :: x in s ==> x == s[0] || x in s[1..];
      if rest <= key(s[0]) then key(s[0]) else rest
  }

  lemma MulMono(a: int, b: int, n: nat)
    requires a >= b
    ensures a * n >= b * n
  {
    assert a * n - b * n == (a - b) * n;
  }

  lemma MulPositive(a: nat, b: nat)
    requires a >= 1 && b >= 1
    ensures a * b >= 1
  {
    MulMono(a, 1, b);
  }

  // ---------------------------------------------------------------------
  // Long-form table
  // ---------------------------------------------------------------------

  /** One melted record: the row's y coordinate, the column's x coordinate and the cell. */
  datatype Record = Record(latitude: real, longitude: real, isFeasible: Cell)

  /** The records of column `j`, top to bottom. */
  function Column(f: Frame, j: nat): (col: seq<Record>)
    requires Shaped(f) && j < |f.columns|
    ensures |col| == |f.index|
  {
    seq(|f.index|, i requires 0 <= i < |f.index| => Record(f.index[i], f.columns[j], f.values[i][j]))
  }

  function Columns(f: Frame): (cols: seq<seq<Record>>)
    requires Shaped(f)
    ensures |cols| == |f.columns|
    ensures forall j :: 0 <= j < |cols| ==> |cols[j]| == |f.index|
  {
    seq(|f.columns|, j requires 0 <= j < |f.columns| => Column(f, j))
  }

  /** pandas melt with the index as id column: one record per cell, column by column. */
  function Melt(f: Frame): (r: seq<Record>)
    requires Shaped(f)
    ensures |r| == |f.columns| * |f.index|
  {
    Concat(Columns(f), |f.index|)
  }

  /** Cell `(i, j)` becomes record `j * rows + i`. */
  lemma MeltCell(f: Frame, i: nat, j: nat)
    requires Shaped(f) && i < |f.index| && j < |f.columns|
    ensures j * |f.index| + i < |Melt(f)|
    ensures Melt(f)[j * |f.index| + i] == Record(f.index[i], f.columns[j], f.values[i][j])
  {
    ConcatIndex(Columns(f), |f.index|, j, i);
  }

  /** The position of cell `(i, j)` in the melted table, as a witness. */
  lemma MeltHasCell(f: Frame, i: nat, j: nat) returns (k: nat)
    requires Shaped(f) && i < |f.index| && j < |f.columns|
    ensures k < |Melt(f)| && Melt(f)[k] == Record(f.index[i], f.columns[j], f.values[i][j])
  {
    MeltCell(f, i, j);
    k := j * |f.index| + i;
  }

  lemma DivBound(k: nat, n: nat, m: nat)
    requires k < m * n
    ensures n > 0 && k / n < m && k == (k / n) * n + k % n
  {
    if n > 0 && k / n >= m {
      MulMono(k / n, m, n);
    }
  }

  /** Conversely every record is the cell at row `k % rows`, column `k / rows`. */
  lemma MeltRecord(f: Frame, k: nat)
    requires Shaped(f) && k < |Melt(f)|
    ensures |f.index| > 0 && k / |f.index| < |f.columns|
    ensures var i, j := k % |f.index|, k / |f.index|;
      Melt(f)[k] == Record(f.index[i], f.columns[j], f.values[i][j])
  {
    var n := |f.index|;
    DivBound(k, n, |f.columns|);
    MeltCell(f, k % n, k / n);
  }

  /** Coordinates from the source CRS to the web CRS, x (longitude) first. */
  type Transform = (real, real) -> (real, real)

  /** A melted record with its projected coordinates. */
  datatype Point = Point(latitude: real, longitude: real, isFeasible: Cell,
                         longitudeProj: real, latitudeProj: real)

  function Unprojected(p: Point): Record {
    Record(p.latitude, p.longitude, p.isFeasible)
  }

  /** Adds the projected coordinates of each record, computed from its own coordinates. */
  function Project(records: seq<Record>, proj: Transform): (r: seq<Point>)
    ensures |r| == |records|
    ensures forall k :: 0 <= k < |r| ==> Unprojected(r[k]) == records[k]
    ensures forall k :: 0 <= k < |r| ==>
      (r[k].longitudeProj, r[k].latitudeProj) == proj(records[k].longitude, records[k].latitude)
  {
    seq(|records|, k requires 0 <= k < |records| =>
      var xy := proj(records[k].longitude, records[k].latitude);
      Point(records[k].latitude, records[k].longitude, records[k].isFeasible, xy.0, xy.1))
  }

  function LatProj(p: Point): real { p.latitudeProj }
  function LonProj(p: Point): real { p.longitudeProj }

  predicate Within(p: Point, box: BBox) {
    box.lower.lat <= p.latitudeProj <= box.upper.lat &&
    box.lower.lon <= p.longitudeProj <= box.upper.lon
  }

  /** The projected box: extremes of the projected coordinates over all points. */
  function ProjBBox(points: seq<Point>): (box: BBox)
    requires points != []
    ensures Ordered(box)
    ensures forall p :: p in points ==> Within(p, box)
    ensures exists p :: p in points && p.latitudeProj == box.lower.lat
    ensures exists p :: p in points && p.latitudeProj == box.upper.lat
    ensures exists p :: p in points && p.longitudeProj == box.lower.lon
    ensures exists p :: p in points && p.longitudeProj == box.upper.lon
  {
    BBox(LatLon(Least(points, LatProj), Least(points, LonProj)),
         LatLon(Greatest(points, LatProj), Greatest(points, LonProj)))
  }

  /** The feasible points: those whose value is not 1, in their original order. */
  function Feasible(points: seq<Point>): (r: seq<Point>)
    ensures forall p :: p in r <==> p in points && p.isFeasible != One
    ensures forall p :: p in points && p.isFeasible.NaN? ==> p in r
    ensures forall p :: multiset(r)[p] == if p.isFeasible != One then multiset(points)[p] else 0
    ensures IsSubsequence(r, points)
  {
    Filter(points, (p: Point) => p.isFeasible != One)
  }

  predicate NotOne(r: Record) {
    r.isFeasible != One
  }

  /** Projection keeps the values, so it keeps the number of records that are not 1. */
  lemma {:induction false} ProjectCount(records: seq<Record>, proj: Transform)
    ensures Count(Project(records, proj), (p: Point) => p.isFeasible != One) == Count(records, NotOne)
  {
    if records != [] {
      assert Project(records, proj)[1..] == Project(records[1..], proj);
      ProjectCount(records[1..], proj);
    }
  }

  /** One feasible point per record whose value is not 1. */
  lemma FeasibleCount(records: seq<Record>, proj: Transform)
    ensures |Feasible(Project(records, proj))| == Count(records, NotOne)
  {
    FilterCount(Project(records, proj), (p: Point) => p.isFeasible != One);
    ProjectCount(records, proj);
  }

  /** The point a cell of band 0 becomes: its own coordinates and value, and
      its coordinates through the transformer. */
  function CellPoint(source: Raster, proj: Transform, i: nat, j: nat): (p: Point)
    requires Valid(source) && i < |source.ys| && j < |source.xs|
    ensures Unprojected(p) == Record(source.ys[i], source.xs[j], source.bands[0][i][j])
    ensures (p.longitudeProj, p.latitudeProj) == proj(source.xs[j], source.ys[i])
  {
    var xy := proj(source.xs[j], source.ys[i]);
    Point(source.ys[i], source.xs[j], source.bands[0][i][j], xy.0, xy.1)
  }

  /** `p` is the point of a cell of band 0 that is not 1. */
  predicate IsCell(source: Raster, proj: Transform, p: Point)
    requires Valid(source)
  {
    exists i, j :: 0 <= i < |source.ys| && 0 <= j < |source.xs| &&
      source.bands[0][i][j] != One && p == CellPoint(source, proj, i, j)
  }

  /** The cell behind a point of a `FeasibleCells` list. */
  lemma CellOf(source: Raster, proj: Transform, points: seq<Point>, p: Point) returns (i: nat, j: nat)
    requires Valid(source) && FeasibleCells(source, proj, points) && p in points
    ensures i < |source.ys| && j < |source.xs| && source.bands[0][i][j] != One
    ensures p == CellPoint(source, proj, i, j)
  {
    i, j :| 0 <= i < |source.ys| && 0 <= j < |source.xs| &&
      source.bands[0][i][j] != One && p == CellPoint(source, proj, i, j);
  }

  /** `points` holds every cell of band 0 that is not 1, as its `CellPoint`,
      and nothing else. */
  predicate FeasibleCells(source: Raster, proj: Transform, points: seq<Point>)
    requires Valid(source)
  {
    (forall i, j :: 0 <= i < |source.ys| && 0 <= j < |source.xs| && source.bands[0][i][j] != One ==>
      CellPoint(source, proj, i, j) in points) &&
    (forall p :: p in points ==> IsCell(source, proj, p))
  }

  /** The projected record `k` of the melt is the point of a cell, found by
      the converse indexing of the melt. */
  lemma ProjectedCell(source: Raster, proj: Transform, k: nat) returns (i: nat, j: nat)
    requires Valid(source) && k < |Melt(FrameOf(source))|
    ensures i < |source.ys| && j < |source.xs|
    ensures Project(Melt(FrameOf(source)), proj)[k] == CellPoint(source, proj, i, j)
  {
    var f := FrameOf(source);
    MeltRecord(f, k);
    i, j := k % |f.index|, k / |f.index|;
  }

  /** Every cell of band 0 that is not 1 is kept as its point, and every kept
      point is such a cell. */
  lemma FeasibleAreCells(source: Raster, proj: Transform)
    requires Valid(source)
    ensures FeasibleCells(source, proj, Feasible(Project(Melt(FrameOf(source)), proj)))
  {
    var f := FrameOf(source);
    var all := Project(Melt(f), proj);
    forall i, j | 0 <= i < |source.ys| && 0 <= j < |source.xs| && source.bands[0][i][j] != One
      ensures CellPoint(source, proj, i, j) in Feasible(all)
    {
      var k := MeltHasCell(f, i, j);
      assert all[k] == CellPoint(source, proj, i, j);
      assert all[k] in all;
    }
    forall p | p in Feasible(all)
      ensures IsCell(source, proj, p)
    {
      var k :| 0 <= k < |all| && all[k] == p;
      var i, j := ProjectedCell(source, proj, k);
    }
  }

  /** The result of the melt-and-reproject step. */
  datatype Reprojected = Reprojected(warpedRaster: Raster, points: seq<Point>, bbox: BBox, frame: Frame)

  /** Melts band 0 of `source`, projects every record, takes the box over all
      of them and keeps the feasible ones; the array and frame come from the
      library's reprojection `warped` of the raster. */
  function MeltAndReproject(source: Raster, proj: Transform, warped: Raster): (r: Reprojected)
    requires Valid(source) && Valid(warped)
    ensures r.warpedRaster == warped && r.frame == FrameOf(warped)
    ensures FeasibleCells(source, proj, r.points)
    ensures |r.points| == Count(Melt(FrameOf(source)), NotOne)
    ensures Project(Melt(FrameOf(source)), proj) != []
      && r.bbox == ProjBBox(Project(Melt(FrameOf(source)), proj))
    ensures forall p :: p in r.points ==> p.isFeasible != One && Within(p, r.bbox)
  {
    var f := FrameOf(source);
    MulPositive(|f.columns|, |f.index|);
    var all := Project(Melt(f), proj);
    FeasibleAreCells(source, proj);
    FeasibleCount(Melt(f), proj);
    Reprojected(warped, Feasible(all), ProjBBox(all), FrameOf(warped))
  }

  /** The box of the reproject path covers every cell of the grid, the
      unsuitable (value 1) cells included, not only the feasible points. */
  lemma {:induction false} ProjBBoxCoversAllCells(source: Raster, proj: Transform, warped: Raster, i: nat, j: nat)
    requires Valid(source) && Valid(warped)
    requires i < |source.ys| && j < |source.xs|
    ensures var xy := proj(source.xs[j], source.ys[i]);
      var box := MeltAndReproject(source, proj, warped).bbox;
      box.lower.lon <= xy.0 <= box.upper.lon && box.lower.lat <= xy.1 <= box.upper.lat
  {
    var f := FrameOf(source);
    MulPositive(|f.columns|, |f.index|);
    var all := Project(Melt(f), proj);
    var k := MeltHasCell(f, i, j);
    assert Melt(f)[k].longitude == source.xs[j] && Melt(f)[k].latitude == source.ys[i];
    assert (all[k].longitudeProj, all[k].latitudeProj) == proj(source.xs[j], source.ys[i]);
    assert all[k] in all;
    assert Within(all[k], ProjBBox(all));
  }

  // ---------------------------------------------------------------------
  // Returned array
  // ---------------------------------------------------------------------

  /** numpy reshape(-1, width): the band axis is folded into the rows. */
  function Reshape(r: Raster): (rows: seq<seq<Cell>>)
    requires Valid(r)
    ensures |rows| == |r.bands| * |r.ys|
    ensures forall k :: 0 <= k < |rows| ==> |rows[k]| == |r.xs|
  {
    var rows := Concat(r.bands, |r.ys|);
    forall k | 0 <= k < |rows| ensures |rows[k]| == |r.xs| {
      DivBound(k, |r.ys|, |r.bands|);
      ConcatIndex(r.bands, |r.ys|, k / |r.ys|, k % |r.ys|);
    }
    rows
  }

  /** Row `i` of band `b` is row `b * height + i` of the flattened array. */
  lemma ReshapeRow(r: Raster, b: nat, i: nat)
    requires Valid(r) && b < |r.bands| && i < |r.ys|
    ensures b * |r.ys| + i < |Reshape(r)|
    ensures Reshape(r)[b * |r.ys| + i] == r.bands[b][i]
  {
    ConcatIndex(r.bands, |r.ys|, b, i);
  }

  function MaskCell(c: Cell): Cell {
    if c == One then NaN else c
  }

  /** `array[array == 1] = nan`: cells equal to 1 become NaN, all others stay. */
  function MaskOnes(a: seq<seq<Cell>>): (m: seq<seq<Cell>>)
    ensures |m| == |a|
    ensures forall i :: 0 <= i < |a| ==> |m[i]| == |a[i]|
    ensures forall i, j :: 0 <= i < |a| && 0 <= j < |a[i]| ==>
      (a[i][j] == One ==> m[i][j].NaN?) && (a[i][j] != One ==> m[i][j] == a[i][j])
  {
    seq(|a|, i requires 0 <= i < |a| => seq(|a[i]|, j requires 0 <= j < |a[i]| => MaskCell(a[i][j])))
  }

  predicate NoOnes(a: seq<seq<Cell>>) {
    forall i, j :: 0 <= i < |a| && 0 <= j < |a[i]| ==> a[i][j] != One
  }

  /** After masking no cell is 1, and masking again changes nothing. */
  lemma MaskOnesIdempotent(a: seq<seq<Cell>>)
    ensures NoOnes(MaskOnes(a))
    ensures MaskOnes(MaskOnes(a)) == MaskOnes(a)
  {
    var m := MaskOnes(a);
    assert forall i :: 0 <= i < |a| ==> MaskOnes(m)[i] == m[i];
  }

  /** An image size, width first as PIL takes it. */
  datatype Size = Size(width: nat, height: nat)

  /** The size PIL gives an array of `|a|` rows and `|a[0]|` columns. */
  function ImageSize(a: seq<seq<Cell>>): Size
    requires a != []
  {
    Size(|a[0]|, |a|)
  }

  /** The PNG branch resizes to (rows, columns) as (width, height). */
  function PngSize(a: seq<seq<Cell>>): (s: Size)
    requires a != []
    ensures s == Size(ImageSize(a).height, ImageSize(a).width)
  {
    Size(|a|, |a[0]|)
  }

  /** The resized image is transposed relative to the array unless the array is square. */
  lemma PngTransposed(a: seq<seq<Cell>>)
    requires a != []
    ensures PngSize(a) == ImageSize(a) <==> |a| == |a[0]|
  {
  }

  /** What the reader returns. `image` is None when no PNG was requested. */
  datatype Opened = Opened(frame: Frame, values: seq<seq<Cell>>, points: seq<Point>,
                           bbox: BBox, image: Option<Size>)


  /** The array handed back: the band-flattened cells with every 1 masked to NaN. */
  function Returned(a: Raster): (rows: seq<seq<Cell>>)
    requires Valid(a)
    ensures |rows| == |a.bands| * |a.ys| && rows != []
    ensures forall k :: 0 <= k < |rows| ==> |rows[k]| == |a.xs|
    ensures NoOnes(rows)
  {
    MulPositive(|a.bands|, |a.ys|);
    MaskOnesIdempotent(Reshape(a));
    MaskOnes(Reshape(a))
  }

  /** Cell `j` of row `i` of band `b` comes back, masked, at row `b * height + i`. */
  lemma ReturnedCell(a: Raster, b: nat, i: nat, j: nat)
    requires Valid(a) && b < |a.bands| && i < |a.ys| && j < |a.xs|
    ensures b * |a.ys| + i < |Returned(a)| && j < |Returned(a)[b * |a.ys| + i]|
    ensures Returned(a)[b * |a.ys| + i][j] == MaskCell(a.bands[b][i][j])
  {
    ReshapeRow(a, b, i);
  }

  /** The raster whose cells are returned: the reprojected one or the source. */
  function Chosen(source: Raster, isReproject: bool, warped: Raster): (a: Raster)
    requires Valid(source) && Valid(warped)
    ensures Valid(a)
  {
    if isReproject then warped else source
  }

  /** Opens a decoded raster. Without reprojection the box is the fixed US
      extent and there are no points, whatever the raster holds. The PNG
      size is taken from the unmasked array, which has the same shape. */
  function OpenAsRaster(source: Raster, isReproject: bool, isConvertToPng: bool,
                        proj: Transform, warped: Raster): (r: Opened)
    requires Valid(source) && Valid(warped)
    ensures !isReproject ==> r.bbox == UsExtent && r.points == [] && r.frame == FrameOf(source)
    ensures isReproject ==> r.frame == FrameOf(warped) && Ordered(r.bbox)
    ensures isReproject ==> forall p :: p in r.points ==> p.isFeasible != One && Within(p, r.bbox)
    ensures isReproject ==>
      FeasibleCells(source, proj, r.points) && |r.points| == Count(Melt(FrameOf(source)), NotOne)
    ensures isReproject ==>
      Project(Melt(FrameOf(source)), proj) != [] && r.bbox == ProjBBox(Project(Melt(FrameOf(source)), proj))
    ensures r.values == Returned(Chosen(source, isReproject, warped))
    ensures r.image.Some? <==> isConvertToPng
    ensures var a := Chosen(source, isReproject, warped);
      isConvertToPng ==> r.image.value == Size(|a.bands| * |a.ys|, |a.xs|)
  {
    var m := if isReproject then MeltAndReproject(source, proj, warped)
             else Reprojected(source, [], UsExtent, FrameOf(source));
    var rows := Reshape(Chosen(source, isReproject, warped));
    MulPositive(|Chosen(source, isReproject, warped).bands|, |Chosen(source, isReproject, warped).ys|);
    var image := if isConvertToPng then Some(PngSize(rows)) else None;
    Opened(m.frame, Returned(Chosen(source, isReproject, warped)), m.points, m.bbox, image)
  }

  // ---------------------------------------------------------------------
  // Worked scenario
  // ---------------------------------------------------------------------

  function Identity(x: real, y: real): (real, real) {
    (x, y)
  }

  const Zero: Cell := Val(0.0)

  /** A 4 x 4 grid with eight 0 cells and eight 1 cells. */
  const ScenarioGrid: seq<seq<Cell>> := [
    [Zero, Zero, One, One],
    [Zero, One, One, One],
    [One, One, Zero, Zero],
    [One, Zero, Zero, Zero]
  ]

  function Indicator(r: Record): nat {
    if NotOne(r) then 1 else 0
  }

  lemma CountFour(s: seq<Record>)
    requires |s| == 4
    ensures Count(s, NotOne) == Indicator(s[0]) + Indicator(s[1]) + Indicator(s[2]) + Indicator(s[3])
  {
    assert Count(s, NotOne) == Indicator(s[0]) + Count(s[1..], NotOne);
    assert Count(s[1..], NotOne) == Indicator(s[1]) + Count(s[2..], NotOne);
    assert Count(s[2..], NotOne) == Indicator(s[2]) + Count(s[3..], NotOne);
    assert Count(s[3..], NotOne) == Indicator(s[3]) + Count(s[4..], NotOne);
  }

  lemma CountPartsFour(parts: seq<seq<Record>>)
    requires |parts| == 4
    ensures CountParts(parts, NotOne)
         == Count(parts[0], NotOne) + Count(parts[1], NotOne) + Count(parts[2], NotOne) + Count(parts[3], NotOne)
  {
    assert CountParts(parts, NotOne) == Count(parts[0], NotOne) + CountParts(parts[1..], NotOne);
    assert CountParts(parts[1..], NotOne) == Count(parts[1], NotOne) + CountParts(parts[2..], NotOne);
    assert CountParts(parts[2..], NotOne) == Count(parts[2], NotOne) + CountParts(parts[3..], NotOne);
    assert CountParts(parts[3..], NotOne) == Count(parts[3], NotOne) + CountParts(parts[4..], NotOne);
  }

  /** Every column of the scenario grid holds two 0 cells. */
  lemma ScenarioColumn(xs: seq<real>, ys: seq<real>, j: nat)
    requires |xs| == 4 && |ys| == 4 && j < 4
    ensures Count(Columns(FrameOf(Raster([ScenarioGrid], xs, ys)))[j], NotOne) == 2
  {
    var col := Columns(FrameOf(Raster([ScenarioGrid], xs, ys)))[j];
    CountFour(col);
  }

  lemma ScenarioCount(xs: seq<real>, ys: seq<real>)
    requires |xs| == 4 && |ys| == 4
    ensures Count(Melt(FrameOf(Raster([ScenarioGrid], xs, ys))), NotOne) == 8
  {
    var f := FrameOf(Raster([ScenarioGrid], xs, ys));
    CountConcat(Columns(f), |f.index|, NotOne);
    CountPartsFour(Columns(f));
    ScenarioColumn(xs, ys, 0);
    ScenarioColumn(xs, ys, 1);
    ScenarioColumn(xs, ys, 2);
    ScenarioColumn(xs, ys, 3);
  }

  /** With source and target CRS equal, every point sits on its own coordinates. */
  lemma IdentityProjection(records: seq<Record>)
    ensures forall p :: p in Feasible(Project(records, Identity)) ==>
      p.longitudeProj == p.longitude && p.latitudeProj == p.latitude
  {
    var all := Project(records, Identity);
    forall p | p in Feasible(all)
      ensures p.longitudeProj == p.longitude && p.latitudeProj == p.latitude
    {
      var k :| 0 <= k < |all| && all[k] == p;
    }
  }

  /** Reprojecting the 4 x 4 grid with the identity transform yields one point
      per 0 cell, eight in all, each projected onto its own coordinates. */
  lemma Scenario(xs: seq<real>, ys: seq<real>)
    requires |xs| == 4 && |ys| == 4
    ensures var source := Raster([ScenarioGrid], xs, ys);
      var m := MeltAndReproject(source, Identity, source);
      |m.points| == 8 &&
      forall p :: p in m.points ==> p.longitudeProj == p.longitude && p.latitudeProj == p.latitude
  {
    var source := Raster([ScenarioGrid], xs, ys);
    var m := MeltAndReproject(source, Identity, source);
    ScenarioCount(xs, ys);
    forall p | p in m.points
      ensures p.longitudeProj == p.longitude && p.latitudeProj == p.latitude
    {
      var i, j := CellOf(source, Identity, m.points, p);
    }
  }
}

// The globe view: one icon marker per feasible cell, tilted by longitude.

module DeckGl {
  import opened Wrappers
  import opened Reader
  import Imshow
  import App

  // ---------------------------------------------------------------------
  // The icon
  // ---------------------------------------------------------------------

  /** An icon description as the icon layer reads it: image, size and anchor in pixels. */
  datatype Icon = Icon(url: string, width: int, height: int, anchorY: int, anchorX: int)

  const IconData := Icon("/assets/icons/map_icons/blue_square.svg", 242, 242, 121, 121)

  /** The icon is anchored at its centre. */
  lemma IconCentred()
    ensures 2 * IconData.anchorX == IconData.width && 2 * IconData.anchorY == IconData.height
  {
  }

  // ---------------------------------------------------------------------
  // The tilt
  // ---------------------------------------------------------------------

  /** The tilt of a marker, in degrees, by projected longitude: the band
      containing the longitude decides, each band open below and closed above;
      the band (-100, -93] around the centre of the country is left flat. */
  function Tilt(lon: real): int {
    if lon <= -121.0 then 15
    else if lon <= -118.0 then 13
    else if lon <= -112.0 then 10
    else if lon <= -107.0 then 8
    else if lon <= -103.0 then 5
    else if lon <= -100.0 then 2
    else if lon <= -93.0 then 0
    else if lon <= -91.0 then -2
    else if lon <= -82.0 then -5
    else if lon <= -76.0 then -10
    else -15
  }

  /** One `if` of the loop: overwrite the angle with `angle` when the
      longitude is above `above` (when present) and at most `atMost` (when present). */
  datatype Rule = Rule(above: Option<real>, atMost: Option<real>, angle: int)

  predicate Applies(r: Rule, lon: real) {
    (r.above.None? || r.above.value < lon) && (r.atMost.None? || lon <= r.atMost.value)
  }

  /** The ten conditions of the loop body, in the order they are written. */
  const Rules: seq<Rule> := [
    Rule(None, Some(-121.0), 15),
    Rule(Some(-121.0), Some(-118.0), 13),
    Rule(Some(-118.0), Some(-112.0), 10),
    Rule(Some(-112.0), Some(-107.0), 8),
    Rule(Some(-107.0), Some(-103.0), 5),
    Rule(Some(-103.0), Some(-100.0), 2),
    Rule(Some(-93.0), Some(-91.0), -2),
    Rule(Some(-91.0), Some(-82.0), -5),
    Rule(Some(-82.0), Some(-76.0), -10),
    Rule(Some(-76.0), None, -15)
  ]

  /** Running the rules one after the other from `angle`: a later rule that
      applies overwrites what an earlier one wrote. */
  function Overwrite(rules: seq<Rule>, lon: real, angle: int): int
    decreases |rules|
  {
    if rules == [] then angle
    else Overwrite(rules[1..], lon, if Applies(rules[0], lon) then rules[0].angle else angle)
  }

  /** No longitude satisfies two of the rules. */
  predicate Disjoint(rules: seq<Rule>, lon: real) {
    forall i, j :: 0 <= i < j < |rules| ==> !(Applies(rules[i], lon) && Applies(rules[j], lon))
  }

  /** No longitude satisfies two of the loop's conditions, so their order does not matter. */
  lemma RulesDisjoint(lon: real)
    ensures Disjoint(Rules, lon)
  {
  }

  /** The applicable rule, if any, is the last writer. */
  lemma {:induction false} OverwriteBy(rules: seq<Rule>, lon: real, angle: int)
    requires Disjoint(rules, lon)
    ensures (forall i :: 0 <= i < |rules| ==> !Applies(rules[i], lon)) ==> Overwrite(rules, lon, angle) == angle
    ensures forall i :: 0 <= i < |rules| && Applies(rules[i], lon) ==> Overwrite(rules, lon, angle) == rules[i].angle
    decreases |rules|
  {
    if rules != [] {
      var next := if Applies(rules[0], lon) then rules[0].angle else angle;
      assert Disjoint(rules[1..], lon) by {
        forall i, j | 0 <= i < j < |rules[1..]|
          ensures !(Applies(rules[1..][i], lon) && Applies(rules[1..][j], lon))
        {
          assert rules[1..][i] == rules[i + 1] && rules[1..][j] == rules[j + 1];
        }
      }
      OverwriteBy(rules[1..], lon, next);
      forall i | 0 <= i < |rules| && Applies(rules[i], lon)
        ensures Overwrite(rules, lon, angle) == rules[i].angle
      {
        if i > 0 {
          assert rules[1..][i - 1] == rules[i];
        } else {
          assert forall k :: 0 <= k < |rules[1..]| ==> !Applies(rules[1..][k], lon) by {
            forall k | 0 <= k < |rules[1..]| ensures !Applies(rules[1..][k], lon) {
              assert rules[1..][k] == rules[k + 1];
            }
          }
        }
      }
      if forall i :: 0 <= i < |rules| ==> !Applies(rules[i], lon) {
        assert forall k :: 0 <= k < |rules[1..]| ==> !Applies(rules[1..][k], lon) by {
          forall k | 0 <= k < |rules[1..]| ensures !Applies(rules[1..][k], lon) {
            assert rules[1..][k] == rules[k + 1];
          }
        }
      }
    }
  }

  /** The band function is the ten overwriting conditions run from the
      default 0: the band containing the longitude, or 0 between -100 and -93. */
  lemma TiltIsRules(lon: real)
    ensures Tilt(lon) == Overwrite(Rules, lon, 0)
  {
    RulesDisjoint(lon);
    OverwriteBy(Rules, lon, 0);
    if lon <= -121.0 { assert Applies(Rules[0], lon); }
    else if lon <= -118.0 { assert Applies(Rules[1], lon); }
    else if lon <= -112.0 { assert Applies(Rules[2], lon); }
    else if lon <= -107.0 { assert Applies(Rules[3], lon); }
    else if lon <= -103.0 { assert Applies(Rules[4], lon); }
    else if lon <= -100.0 { assert Applies(Rules[5], lon); }
    else if lon <= -93.0 { }
    else if lon <= -91.0 { assert Applies(Rules[6], lon); }
    else if lon <= -82.0 { assert Applies(Rules[7], lon); }
    else if lon <= -76.0 { assert Applies(Rules[8], lon); }
    else { assert Applies(Rules[9], lon); }
  }

  /** Only the longitudes in (-100, -93] escape every condition and keep the default. */
  lemma Untouched(lon: real)
    ensures (forall i :: 0 <= i < |Rules| ==> !Applies(Rules[i], lon)) <==> -100.0 < lon <= -93.0
  {
    if lon <= -100.0 || lon > -93.0 {
      if lon <= -121.0 { assert Applies(Rules[0], lon); }
      else if lon <= -118.0 { assert Applies(Rules[1], lon); }
      else if lon <= -112.0 { assert Applies(Rules[2], lon); }
      else if lon <= -107.0 { assert Applies(Rules[3], lon); }
      else if lon <= -103.0 { assert Applies(Rules[4], lon); }
      else if lon <= -100.0 { assert Applies(Rules[5], lon); }
      else if lon <= -91.0 { assert Applies(Rules[6], lon); }
      else if lon <= -82.0 { assert Applies(Rules[7], lon); }
      else if lon <= -76.0 { assert Applies(Rules[8], lon); }
      else { assert Applies(Rules[9], lon); }
    }
  }

  /** Markers lean less, then the other way, from west to east. */
  lemma TiltMonotone(lon: real, lon': real)
    requires lon <= lon'
    ensures Tilt(lon') <= Tilt(lon)
  {
  }

  /** The tilt stays within 15 degrees either way, and is positive exactly
      west of -100 and negative exactly east of -93. */
  lemma TiltRange(lon: real)
    ensures -15 <= Tilt(lon) <= 15
    ensures Tilt(lon) > 0 <==> lon <= -100.0
    ensures Tilt(lon) < 0 <==> lon > -93.0
  {
  }

  // ---------------------------------------------------------------------
  // The markers
  // ---------------------------------------------------------------------

  /** A row of the frame handed to the icon layer: the point with its
      `icon_data` and `Angle` columns. */
  datatype Marker = Marker(point: Point, icon: Option<Icon>, angle: int)

  /** The angle one pass of the second loop writes for a longitude, the ten
      conditions checked in turn against the default 0. */
  method AngleOf(lon: real) returns (angle: int)
    ensures angle == Tilt(lon)
  {
    angle := 0;
    if lon <= -121.0 { angle := 15; }
    if lon > -121.0 && lon <= -118.0 { angle := 13; }
    if lon > -118.0 && lon <= -112.0 { angle := 10; }
    if lon > -112.0 && lon <= -107.0 { angle := 8; }
    if lon > -107.0 && lon <= -103.0 { angle := 5; }
    if lon > -103.0 && lon <= -100.0 { angle := 2; }
    if lon > -93.0 && lon <= -91.0 { angle := -2; }
    if lon > -91.0 && lon <= -82.0 { angle := -5; }
    if lon > -82.0 && lon <= -76.0 { angle := -10; }
    if lon > -76.0 { angle := -15; }
  }

  /** The two loops over the frame: every row gets the same icon, then an
      angle from its projected longitude. */
  method Markers(points: seq<Point>) returns (markers: seq<Marker>)
    ensures |markers| == |points|
    ensures forall i :: 0 <= i < |points| ==>
      markers[i].point == points[i] && markers[i].icon == Some(IconData)
      && markers[i].angle == Tilt(points[i].longitudeProj)
  {
    var icons: seq<Option<Icon>> := seq(|points|, _ => None);
    var i := 0;
    while i < |points|
      invariant 0 <= i <= |points| && |icons| == |points|
      invariant forall k :: 0 <= k < i ==> icons[k] == Some(IconData)
    {
      icons := icons[i := Some(IconData)];
      i := i + 1;
    }
    var angles: seq<int> := seq(|points|, _ => 0);
    i := 0;
    while i < |points|
      invariant 0 <= i <= |points| && |angles| == |points|
      invariant forall k :: 0 <= k < i ==> angles[k] == Tilt(points[k].longitudeProj)
    {
      var angle := AngleOf(points[i].longitudeProj);
      angles := angles[i := angle];
      i := i + 1;
    }
    markers := seq(|points|, k requires 0 <= k < |points| => Marker(points[k], icons[k], angles[k]));
  }

  // ---------------------------------------------------------------------
  // The view
  // ---------------------------------------------------------------------

  /** The markers show the file's feasible points in order, each inside the
      file's bounding box, carrying the icon and tilted by its longitude. */
  predicate Shows(markers: seq<Marker>, file: Opened) {
    |markers| == |file.points| &&
    forall i :: 0 <= i < |markers| ==>
      markers[i].point == file.points[i] && markers[i].point.isFeasible != One
      && Within(markers[i].point, file.bbox) && markers[i].icon == Some(IconData)
      && markers[i].angle == Tilt(markers[i].point.longitudeProj)
  }

  /** `plot_deckgl_map`: the raster behind the first path is opened with
      reprojection and each feasible cell becomes a marker. The file's
      contents, the reprojected raster and the coordinate transform are
      parameters. */
  method PlotDeckGl(compiledDir: string, fpaths: seq<string>, raster: Raster,
                    proj: Transform, warped: Raster)
    returns (r: Result<seq<Marker>, App.Failure>)
    requires Valid(raster) && Valid(warped)
    ensures r.Ok? <==> fpaths != []
    ensures !r.Ok? ==> r.error == App.IndexError
    ensures r.Ok? ==> Shows(r.value, OpenAsRaster(raster, true, false, proj, warped))
  {
    var path := Imshow.TifPath(compiledDir, fpaths);
    if path.Err? {
      return Err(path.error);
    }
    var file := OpenAsRaster(raster, true, false, proj, warped);
    var markers := Markers(file.points);
    assert Shows(markers, file) by {
      forall i | 0 <= i < |markers|
        ensures markers[i].point.isFeasible != One && Within(markers[i].point, file.bbox)
      {
        assert markers[i].point == file.points[i];
      }
    }
    return Ok(markers);
  }

  /** The marker of a cell of band 0 that is not 1. */
  lemma MarkerOfCell(markers: seq<Marker>, raster: Raster, proj: Transform, warped: Raster, i: nat, j: nat)
      returns (k: nat)
    requires Valid(raster) && Valid(warped)
    requires Shows(markers, OpenAsRaster(raster, true, false, proj, warped))
    requires i < |raster.ys| && j < |raster.xs| && raster.bands[0][i][j] != One
    ensures k < |markers| && markers[k].point == CellPoint(raster, proj, i, j)
  {
    var points := OpenAsRaster(raster, true, false, proj, warped).points;
    assert FeasibleCells(raster, proj, points);
    k :| 0 <= k < |points| && points[k] == CellPoint(raster, proj, i, j);
  }

  /** The cell behind a marker. */
  lemma CellOfMarker(markers: seq<Marker>, raster: Raster, proj: Transform, warped: Raster, k: nat)
    requires Valid(raster) && Valid(warped)
    requires Shows(markers, OpenAsRaster(raster, true, false, proj, warped))
    requires k < |markers|
    ensures IsCell(raster, proj, markers[k].point)
  {
    var points := OpenAsRaster(raster, true, false, proj, warped).points;
    assert markers[k].point == points[k] && points[k] in points;
    var i, j := CellOf(raster, proj, points, points[k]);
  }

  /** Through the reader, the markers are the source's band-0 cells that are
      not 1: each such cell has a marker at its projected coordinates, and
      each marker is such a cell. */
  lemma MarkersAreCells(markers: seq<Marker>, raster: Raster, proj: Transform, warped: Raster)
    requires Valid(raster) && Valid(warped)
    requires Shows(markers, OpenAsRaster(raster, true, false, proj, warped))
    ensures forall i, j :: 0 <= i < |raster.ys| && 0 <= j < |raster.xs| && raster.bands[0][i][j] != One ==>
      exists m :: m in markers && m.point == CellPoint(raster, proj, i, j)
    ensures forall m :: m in markers ==> IsCell(raster, proj, m.point)
  {
    forall i, j | 0 <= i < |raster.ys| && 0 <= j < |raster.xs| && raster.bands[0][i][j] != One
      ensures exists m :: m in markers && m.point == CellPoint(raster, proj, i, j)
    {
      var k := MarkerOfCell(markers, raster, proj, warped, i, j);
      assert markers[k] in markers;
    }
    forall m | m in markers
      ensures IsCell(raster, proj, m.point)
    {
      var k :| 0 <= k < |markers| && markers[k] == m;
      CellOfMarker(markers, raster, proj, warped, k);
    }
  }
}

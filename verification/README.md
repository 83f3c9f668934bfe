# GRIDCERF dashboard core, modelled in Dafny

GRIDCERF is a collection of rasters. Each raster says, cell by cell, whether
a power-generation technology can be sited there under a given
socioeconomic pathway (SSP) and year. The dashboard works in four steps:

- It turns the catalogue of raster filenames into a table of pathways.
- It groups that table into a nested option tree.
- It drives a cascade of dropdown selectors from that tree.
- It draws the raster a selection names, as a static image or as a globe
  of icon markers.

This project models the logic of those steps as pure Dafny functions,
methods and lemmas:

| file | module | models |
|---|---|---|
| `wrappers.dfy` | `Wrappers` | `Option` and `Result` (with `:-` propagation) |
| `seqs.dfy` | `Seqs` | filtering and counting over sequences |
| `text.dfy` | `Text` | `str.replace(x, "")`, `str.split`, `"_".join`, `os.path.join`, `str(n)` |
| `keys.dfy` | `Keys` | the token-to-label tables of `keys.py` |
| `catalogue.dfy` | `Catalogue` | the per-file row builder of `yaml2csv.py` |
| `utilities.dfy` | `Utilities` | `recur_dictify`, the grouping of the pathway table into the option tree |
| `reader.dfy` | `Reader` | `read_TIF_metadata`, `melt_and_reproject` and `open_as_raster` |
| `app.dfy` | `App` | the selector cascade, `show_hide_element`, the map query, `update_switch`, `update_mode` |
| `imshow.dfy` | `Imshow` | the RGB mask of `plot_imshow_map` |
| `deckgl.dfy` | `DeckGl` | the marker frame of `plot_deckgl_map`: icon, tilt angle, first path |

A raster's cells are `Cell = NaN | Val(v)`. Value 1 marks an unsuitable
cell, and NaN is never equal to 1. The option tree is `Tree`:

- `Node` is a map with its key order;
- `Values` is an array;
- `Leaf` is a single value.

Python exceptions are the `Err` side of a `Result`: `KeyError`,
`IndexError`, `NotAMap` and `StaleRead`.

These parts of the geo stack become parameters:

- the coordinate transformer is a function `proj`;
- `rio.reproject`'s output is the raster `warped`;
- the decoded GeoTIFF is the raster `source`.

## Model

| member | source | states |
|---|---|---|
| Keys.IsCcsLabels | dash_app/src/keys.py:42-46 | "ccs" and "with-ccs" both read "Yes", "no-ccs" reads "No", and there are no other carbon-capture tokens or labels |
| Keys.SubtechNotInjective | dash_app/src/keys.py:21-40 | "ct" and "turbine" share the label "Combustion Turbine (CT)", so a subtype label does not determine its token |
| Keys.KeysTableShape | dash_app/src/keys.py:69-76 | the catalogue builder can index exactly six tables: ssp, tech, subtech, is_ccs, cooling_type, feature |
| Keys.NoCapacityFactorTable | dash_app/src/keys.py:69-76 | there is no table for capacity factors, so their tokens reach the selectors unmapped |
| Keys.TechTableShape | dash_app/src/keys.py:10-19 | eight technology tokens, including the four with their own filename layout |
| Keys.SpecialTechLabels | dash_app/src/keys.py:10-19 | each of the labels Nuclear, Geothermal, Wind and Solar comes from exactly one token, so testing the mapped label tests the token |
| Keys.SspTableShape | dash_app/src/keys.py:4-8 | only ssp2, ssp3 and ssp5 are known pathways |
| Keys.NoLabelIsPlaceholder | dash_app/src/keys.py:4-40 | no pathway, technology or subtype label is "--", so "--" in a label column always means not applicable |
| Keys.NoOptionLabelIsPlaceholder | dash_app/src/keys.py:42-67 | no carbon-capture, cooling or hub-height label is "--" either |
| Catalogue.PathList | dash_app/src/yaml2csv.py:49-50 | the token list has at least two entries and ends with the unmodified filename |
| Catalogue.Lookup | dash_app/src/yaml2csv.py:56-60 | a table lookup succeeds exactly for keys of the table and raises KeyError naming the table and key otherwise |
| Catalogue.At | dash_app/src/yaml2csv.py:66-67 | indexing the token list succeeds exactly below its length and raises IndexError otherwise |
| Catalogue.BuildRow | dash_app/src/yaml2csv.py:49-152 | a built row keeps the filename, has path ssp/year/tech/file and a known SSP and technology, and maps its carbon-capture and (when known) cooling tokens through their tables; the row fails with a tech KeyError exactly when the first token is not a technology |
| Catalogue.Finish | dash_app/src/yaml2csv.py:103-149 | the carbon-capture token is mapped unless it is "--"; an unknown cooling token is kept as it is; the SSP label is looked up; the capacity factor is shown unmapped |
| Catalogue.NameRoundTrip | dash_app/src/yaml2csv.py:49 | cutting "gridcerf_" + tokens joined by "_" + ".tif" gives back exactly those tokens, for tokens without "_" or "." |
| Catalogue.PlainLayoutRow | dash_app/src/yaml2csv.py:62-68 | a four-token name of an ordinary technology reads as subtype, carbon capture and cooling, with no feature or capacity factor; the row exists exactly when the SSP is known |
| Catalogue.NuclearRow | dash_app/src/yaml2csv.py:70-73 | for nuclear, the second and third tokens together form the subtype (labels joined by a space), and carbon capture is "--" |
| Catalogue.TwoPartSubtypeRow | dash_app/src/yaml2csv.py:75-101 | for geothermal and solar, the subtype is two tokens, followed by cooling and capacity factor, with no feature or carbon capture |
| Catalogue.WindRow | dash_app/src/yaml2csv.py:85-91 | for wind, the third token is a hub height mapped to its label, followed by cooling and capacity factor |
| Catalogue.LongNameIsStale | dash_app/src/yaml2csv.py:62-101 | a name of five or more tokens for any technology other than geothermal, wind or solar reads variables not assigned for this file |
| Catalogue.UnknownSubtype | dash_app/src/yaml2csv.py:59-60 | an unknown subtype token raises KeyError on the subtype table |
| Catalogue.WindExample | dash_app/src/yaml2csv.py:49-152 | "gridcerf_wind_onshore_hubheight80_dry_cf30.tif" gives Wind / Onshore / Hub Height 80 meters (m) / Dry / cf30, with carbon capture "--" |
| Utilities.Dictify | dash_app/src/utilities.py:15-30 | a table of two or more columns groups into a map; one column gives a value or an array |
| Utilities.SortedKeys | dash_app/src/utilities.py:26 | the group keys are exactly the values of the column |
| Utilities.SortedKeysSorted | dash_app/src/utilities.py:26 | the group keys are strictly ascending in Python string order, hence distinct |
| Utilities.GroupMember | dash_app/src/utilities.py:26-28 | a row is in the group of key k exactly when k followed by that row is in the table |
| Utilities.BelowMember | dash_app/src/utilities.py:28 | dropping duplicates keeps exactly the rows of the group |
| Utilities.DictifyKeys | dash_app/src/utilities.py:26-28 | the top map's keys are the distinct first-column values in ascending order, and its domain is exactly the first column |
| Utilities.DictifyChild | dash_app/src/utilities.py:28 | a key's entry is the grouping of its de-duplicated rows with the first column dropped |
| Utilities.DictifyColumn | dash_app/src/utilities.py:19-24 | a one-column table gives its single value when it has one row, and otherwise its column as an array in row order |
| Utilities.DictifyPaths | dash_app/src/utilities.py:15-30 | the root-to-leaf paths of the grouping are exactly the rows of the table |
| Utilities.DictifyShape | dash_app/src/utilities.py:15-30 | an n-column table nests exactly n-1 maps on every path, and every map's key list is sorted and matches its domain |
| Utilities.DictifyNonEmpty | dash_app/src/utilities.py:15-30 | a non-empty table has no empty map or array anywhere in its grouping |
| Utilities.DictifyLeavesDistinct | dash_app/src/utilities.py:24-28 | below the top level every array lists each value once, because each group is de-duplicated |
| Utilities.FirstPathLeast | dash_app/app.py:45-46 | the first option of a map is its least key |
| Reader.FrameOf | dash_app/src/reader.py:39-40 | the band-0 frame has the grid's shape, x coordinates as columns and y coordinates as index |
| Reader.SourceBBox | dash_app/src/reader.py:56-62 | the source box reorders the bounds tuple latitude first and loses nothing; it is ordered exactly when the bounds are |
| Reader.SourceBBoxRoundTrip | dash_app/src/reader.py:56-62 | every box is the source box of its own bounds |
| Reader.UsExtentOrdered | dash_app/src/reader.py:120 | the fixed US extent is an ordered box in the western and northern hemispheres |
| Reader.Least | dash_app/src/reader.py:78-81 | a column minimum is attained and bounds every value from below |
| Reader.Greatest | dash_app/src/reader.py:78-81 | a column maximum is attained and bounds every value from above |
| Reader.Melt | dash_app/src/reader.py:69-71 | melting gives one record per cell |
| Reader.MeltCell | dash_app/src/reader.py:69-71 | cell (i, j) becomes record j*rows+i, carrying its y, its x and its value |
| Reader.MeltRecord | dash_app/src/reader.py:69-71 | every record is the cell at row k mod rows and column k div rows |
| Reader.Project | dash_app/src/reader.py:74-75 | projection keeps every record and adds the transform of the record's own longitude and latitude, x first |
| Reader.ProjBBox | dash_app/src/reader.py:78-83 | the projected box is ordered, contains every point, and each of its four edges is attained by some point |
| Reader.Feasible | dash_app/src/reader.py:86 | the kept points are exactly those whose value is not 1, NaN included, in their original order and multiplicity |
| Reader.FeasibleCount | dash_app/src/reader.py:71-86 | there are as many feasible points as cells whose value is not 1 |
| Reader.CellPoint | dash_app/src/reader.py:69-75 | the point a band-0 cell becomes carries the cell's y, x and value, and the transform of its own x and y |
| Reader.ProjectedCell | dash_app/src/reader.py:69-75 | every projected record of the melt is the point of some cell of band 0 |
| Reader.FeasibleAreCells | dash_app/src/reader.py:69-86 | after filtering, every cell of band 0 that is not 1 is present as its point, and every kept point is such a cell |
| Reader.MeltAndReproject | dash_app/src/reader.py:67-98 | the points are exactly the band-0 cells of the source that are not 1, one per such cell, each at its projected coordinates and inside the box; the box is the min/max box over all projected cells; the array and frame are the warped raster's |
| Reader.ProjBBoxCoversAllCells | dash_app/src/reader.py:78-89 | the box is computed before filtering, so it covers the projection of every cell of the grid, including cells equal to 1 |
| Reader.Reshape | dash_app/src/reader.py:142-143 | folding the band axis into the rows gives bands*height rows of width cells |
| Reader.ReshapeRow | dash_app/src/reader.py:143 | row i of band b becomes row b*height+i |
| Reader.MaskOnes | dash_app/src/reader.py:152 | each cell equal to 1 becomes NaN and every other cell is unchanged, shape kept |
| Reader.MaskOnesIdempotent | dash_app/src/reader.py:152 | after masking no cell is 1, and masking again changes nothing |
| Reader.PngSize | dash_app/src/reader.py:148 | the image is resized to (rows, columns) as (width, height) |
| Reader.PngTransposed | dash_app/src/reader.py:148 | so the resized image has the array's own size exactly when the array is square |
| Reader.Returned | dash_app/src/reader.py:142-152 | the returned array has bands*height non-empty rows of width cells, none equal to 1 |
| Reader.ReturnedCell | dash_app/src/reader.py:142-152 | cell j of row i of band b is returned, masked, at row b*height+i |
| Reader.OpenAsRaster | dash_app/src/reader.py:100-175 | without reprojection: the fixed US extent, no points and the source frame; with it: the warped frame, the box over all projected source cells, and as points exactly the source's band-0 cells that are not 1, one each, inside the box; the array is the chosen raster masked; an image exists exactly when requested, at the transposed size |
| Reader.ScenarioCount | dash_app/src/reader.py:69-86 | the 4 x 4 grid of eight 0 cells and eight 1 cells melts to eight records that are not 1 |
| Reader.IdentityProjection | dash_app/src/reader.py:74-75 | when the source and web coordinate systems agree, every point sits on its own coordinates |
| Reader.Scenario | dash_app/src/reader.py:67-98 | reprojecting that grid with the identity transform yields eight points, each on its own coordinates |
| App.LookupWalk | dash_app/app.py:86-87 | indexing the tree along a prefix and walking on from there is walking the whole path |
| App.LookupSnoc | dash_app/app.py:53-87 | each further selector index looks one map deeper |
| App.LookupShape | dash_app/app.py:53-105 | a successful lookup of a k-long prefix in a d-deep tree has k at most d, and gives a d-k deep subtree that is navigable and non-empty |
| App.Iterate | dash_app/app.py:86-87 | iterating a string value yields its characters as one-character strings |
| App.AsOptions | dash_app/app.py:40 | one option per value, in order, labelled with the value |
| App.LevelOptions | dash_app/app.py:39-87 | the options exist exactly when the lookup succeeds, label and value agree, and at a map the options are exactly its keys |
| App.CapacityFactorOptions | dash_app/app.py:104-108 | a single string becomes one option rather than one per character; an array gives one option per item, in order |
| App.SelectFirst | dash_app/app.py:45-46 | the first option's value, or IndexError exactly when there are no options |
| App.Defaults | dash_app/app.py:42-114 | when the cascade settles, the selection extends the given prefix by one value per remaining selector |
| App.DefaultSelection | dash_app/app.py:36-114 | the settled selection has six values and starts with the chosen technology |
| App.DefaultsFirst | dash_app/app.py:42-114 | below a prefix whose subtree has the right depth, each selector settles on the first key of its map, down to the first value |
| App.DefaultSelectionFirst | dash_app/app.py:36-114 | on a five-map-deep tree, picking a technology settles every other selector on the first key below it |
| App.DefaultSelectionInTable | dash_app/app.py:36-114 | for the grouped pathway table, picking any technology it lists settles without error on a selection that is a row of the table |
| App.OptionsFromTable | dash_app/app.py:53-87 | the options after a selected prefix are exactly the values that follow that prefix in some row of the table |
| App.DisplayStyle | dash_app/app.py:134-149 | a container is hidden exactly when its value is "--" and shown otherwise |
| App.ShowHide | dash_app/app.py:132-151 | the four containers' styles follow their own values, in order |
| App.ShowHideIndependent | dash_app/app.py:132-151 | changing the feature value changes only the feature container, and changes it exactly when it moves to or from "--" |
| App.QueryPaths | dash_app/app.py:180-191 | the paths are those of the rows whose eight ui_ fields all match, one per matching row, in table order: the matching row with i matching rows before it gives path i |
| App.DrawnPathFirst | dash_app/app.py:180-191 | the first path, the one both map views draw, belongs to the first matching row of the table |
| App.YearMatchesOnce | dash_app/app.py:180-189 | comparing str(year) with the table's year text compares numbers, so a row matches at most one year |
| App.SwitchColour | dash_app/app.py:284-288 | the switch is "#fce17c" exactly when on and "blue" exactly when off |
| App.ModeStyle | dash_app/app.py:296-332 | each mode styles the same banner, logo and body properties, and the body is white when on and black when off |
| App.ModesDifferOnlyInColour | dash_app/app.py:296-332 | the two modes differ only in the banner background, the logo filter and the body background |
| Imshow.TifPath | dash_app/src/imshow.py:18 | the file is the compiled directory joined with the first path, and there is an IndexError exactly when no path matched |
| Imshow.TifPathFirstOnly | dash_app/src/imshow.py:18 | paths after the first never change the file drawn |
| Imshow.RgbStack | dash_app/src/imshow.py:32-40 | the RGB stack has the grid's shape, and each pixel is the colour of its own cell |
| Imshow.ColourCases | dash_app/src/imshow.py:32-38 | a cell is pale blue (176, 233, 235) exactly when NaN and black exactly when 0; any other value v is (v, v, v) |
| Imshow.ColourInjective | dash_app/src/imshow.py:32-38 | different cells are painted differently |
| Imshow.TwoColours | dash_app/src/imshow.py:32-38 | a grid of only 0 and NaN gives only black and pale-blue pixels |
| Imshow.PlotImshow | dash_app/src/imshow.py:16-40 | the image exists exactly when some path matched, with bands*height rows of width pixels |
| Imshow.PlotImshowCell | dash_app/src/imshow.py:16-40 | pixel j of row b*height+i is the colour of cell (i, j) of band b of the first matched file, after 1 is masked to NaN |
| Imshow.ImshowNoOnes | dash_app/src/imshow.py:19-38 | no pixel is the grey (1, 1, 1) of the value 1: unsuitable cells share the pale blue of missing data, and every pixel is pale blue or the grey of a value other than 1 |
| DeckGl.IconCentred | dash_app/src/deckgl.py:77-85 | the marker icon is 242 x 242 and anchored at its centre |
| DeckGl.RulesDisjoint | dash_app/src/deckgl.py:113-134 | no longitude satisfies two of the ten conditions, so their order does not matter |
| DeckGl.OverwriteBy | dash_app/src/deckgl.py:110-134 | running disjoint conditions in turn leaves the angle of the one that applies, or the default when none does |
| DeckGl.TiltIsRules | dash_app/src/deckgl.py:109-134 | the ten sequential conditions from the default 0 give the band function of the longitude |
| DeckGl.Untouched | dash_app/src/deckgl.py:109-134 | exactly the longitudes in (-100, -93] escape every condition and keep angle 0 |
| DeckGl.TiltMonotone | dash_app/src/deckgl.py:109-134 | the angle never increases from west to east |
| DeckGl.TiltRange | dash_app/src/deckgl.py:109-134 | the angle is within 15 degrees either way, positive exactly at or west of -100 and negative exactly east of -93 |
| DeckGl.AngleOf | dash_app/src/deckgl.py:110-134 | one pass of the loop body writes the band angle of the row's projected longitude |
| DeckGl.Markers | dash_app/src/deckgl.py:98-134 | every row keeps its point and receives the same icon data and the band angle of its own longitude |
| DeckGl.PlotDeckGl | dash_app/src/deckgl.py:74-134 | IndexError exactly when no path matched; otherwise one marker per point the reader returns (the source raster's band-0 cells that are not 1, projected one by one), in order, each inside the box, carrying the icon data and tilted by its longitude |
| DeckGl.MarkersAreCells | dash_app/src/deckgl.py:74-134 | every band-0 cell of the source that is not 1 has a marker at its projected coordinates, and every marker is such a cell |

## Left out

- File and network I/O: reading the GeoTIFF (locally or from S3), the ocean GeoJSON, the YAML walk that feeds the row builder (yaml2csv.py:1-48) and the CSV writing (yaml2csv.py:155-161). The decoded raster is a parameter.
- The geo libraries: rioxarray decoding, CRS objects, pyproj's transformer (the parameter `proj`) and `rio.reproject` (the parameter `warped`). Coordinates are exact reals, not floating point.
- The pixel-grid block that computes `geo_lons` and `geo_lats` (reader.py:156-170): nothing it computes is returned.
- PNG conversion: only the image size is modelled. The `np.interp` normalisation to 0..255 and the `uint8` cast are floating point.
- Reader.OpenAsRaster: models band 0 for the frame and the melt, as the source does. The name given to the reset index is taken to be "index", so the rename to Latitude is assumed to apply.
- The plotting libraries: the Plotly figure (imshow.py:41-57), the pydeck layers, view and Deck (deckgl.py:102-311), and the Dash components and layout.
- Dash's callback scheduling: the cascade is modelled as the state it settles in (`App.Defaults`), not as the order in which callbacks fire.
- The map callback's call `plot_deckgl_map(..., selected_layers=..., adjust_mode=...)` (app.py:200): `plot_deckgl_map` accepts no such keywords. `DeckGl.PlotDeckGl` models the function as declared, taking the matched paths.
- App.QueryPaths: pandas rewrites `col in @value` with a string value into equality, and the model states the equality.
- App.SwitchColour and App.ModeStyle take the switch value as a `bool`. Python truthiness of other values is not modelled.
- Catalogue.Finish: an unknown cooling token is printed before it is kept. The print is left out.
- Catalogue.BuildRow: when a file reads a variable its own layout did not assign, the source silently reuses the previous file's value. The model reports `StaleRead` instead of carrying state between files.
- DeckGl.Markers: the chained assignment `df["Angle"][i] = ...` is taken to write through to the frame, as pandas does without copy-on-write.
- Utilities.DictifyLeavesDistinct: for a top-level one-column table it requires distinct rows, because only nested groups are de-duplicated.

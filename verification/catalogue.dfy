/** One catalogue row per raster file: the filename is cut into tokens and
    the tokens are turned into user-facing labels through the key tables.
    The rule applied depends on the technology named by the first token. */
module Catalogue {
  import opened Wrappers
  import opened Text
  import opened Keys

  /** One row of the pathway table. The `ui*` fields are the labels shown in
      the selectors; `tech` .. `capFactor` keep the tokens before mapping. */
  datatype Row = Row(
    uiSsp: string,
    uiYear: string,
    uiTech: string,
    uiSubtype: string,
    uiFeature: string,
    uiIsCcs: string,
    uiCoolingType: string,
    uiCapacityFactor: string,
    fname: string,
    fpath: string,
    ssp: string,
    tech: string,
    subtype: string,
    feature: string,
    isCcs: string,
    coolingType: string,
    capFactor: string)

  /** Why no row comes out. `StaleRead` marks an input for which the
      per-file code reads a variable it did not assign for this file, so the
      row would carry a value left over from the previous file. */
  datatype Failure =
    | KeyError(table: string, key: string)
    | IndexError(index: nat)
    | StaleRead(variable: string)

  /** The filename without ".tif" and "gridcerf_", cut at every underscore. */
  function Tokens(file: string): seq<string> {
    Split(Remove(Remove(file, ".tif"), "gridcerf_"), '_')
  }

  /** The tokens with the unmodified filename appended, as indexed by the row code. */
  function PathList(file: string): (l: seq<string>)
    ensures |l| >= 2 && l[|l| - 1] == file
  {
    Tokens(file) + [file]
  }

  /** `table[key]`, where `name` is the table's name in `KeysTable`; a
      missing key raises. */
  function Lookup(table: Table, name: string, key: string): (r: Result<string, Failure>)
    ensures r.Ok? <==> key in table
    ensures r.Ok? ==> r.value == table[key]
    ensures r.Err? ==> r.error == KeyError(name, key)
  {
    if key in table then Ok(table[key]) else Err(KeyError(name, key))
  }

  function At(l: seq<string>, k: nat): (r: Result<string, Failure>)
    ensures r.Ok? <==> k < |l|
    ensures r.Ok? ==> r.value == l[k]
    ensures r.Err? ==> r.error == IndexError(k)
  {
    if k < |l| then Ok(l[k]) else Err(IndexError(k))
  }

  /** The per-file variables after the layout rules; `None` means "not
      assigned for this file". */
  datatype Vars = Vars(
    subtech: Option<string>,
    feature: Option<string>,
    ogFeature: Option<string>,
    ccs: Option<string>,
    cooling: Option<string>,
    cf: Option<string>,
    ogSubtech: string)

  function Read(v: Option<string>, name: string): Result<string, Failure> {
    if v.Some? then Ok(v.value) else Err(StaleRead(name))
  }

  /** The four-token layout (applied to names with at most four tokens),
      then the technology-specific overrides. */
  function Layout(l: seq<string>, tech: string, subLabel: string): Result<Vars, Failure>
    requires |l| >= 2
  {
    var short :-
      if |l| < 6 then
        var ccs :- At(l, 2);
        var cooling :- At(l, 3);
        Ok(Vars(Some(subLabel), Some(NotApplicable), Some(NotApplicable), Some(ccs), Some(cooling),
                Some(NotApplicable), l[1]))
      else
        Ok(Vars(None, None, None, None, None, None, l[1]));
    if tech == NuclearLabel then
      var t2 :- At(l, 2);
      var sub2 :- Lookup(SubtechTable, "subtech", t2);
      Ok(short.(ogSubtech := l[1] + " " + t2, subtech := Some(subLabel + " " + sub2),
                ccs := Some(NotApplicable)))
    else if tech == GeothermalLabel || tech == SolarLabel then
      var t2 :- At(l, 2);
      var sub2 :- Lookup(SubtechTable, "subtech", t2);
      var t3 :- At(l, 3);
      var t4 :- At(l, 4);
      Ok(Vars(Some(subLabel + " " + sub2), Some(NotApplicable), Some(NotApplicable),
              Some(NotApplicable), Some(t3), Some(t4), l[1] + " " + t2))
    else if tech == WindLabel then
      var t2 :- At(l, 2);
      var feature :- Lookup(FeatureTable, "feature", t2);
      var t3 :- At(l, 3);
      var t4 :- At(l, 4);
      Ok(short.(subtech := Some(subLabel), feature := Some(feature), ogFeature := Some(t2),
                ccs := Some(NotApplicable), cooling := Some(t3), cf := Some(t4)))
    else
      Ok(short)
  }

  /** The row for `file` found under `sspKey/yearKey/techKey` in the catalogue. */
  function BuildRow(sspKey: string, yearKey: string, techKey: string, file: string): (r: Result<Row, Failure>)
    ensures r.Ok? ==> r.value.fname == file && r.value.fpath == PathJoin([sspKey, yearKey, techKey, file])
    ensures r.Ok? ==> r.value.ssp == sspKey && sspKey in SspTable && r.value.uiSsp == SspTable[sspKey]
    ensures r.Ok? ==> r.value.uiYear == yearKey
    ensures r.Ok? ==> r.value.tech == Tokens(file)[0] && r.value.tech in TechTable
                      && r.value.uiTech == TechTable[r.value.tech]
    ensures r.Ok? ==> r.value.uiCapacityFactor == r.value.capFactor
    ensures r.Ok? ==> if r.value.isCcs == NotApplicable then r.value.uiIsCcs == NotApplicable
                      else r.value.isCcs in IsCcsTable && r.value.uiIsCcs == IsCcsTable[r.value.isCcs]
    ensures r.Ok? ==> r.value.uiCoolingType ==
                      if r.value.coolingType in CoolingTable then CoolingTable[r.value.coolingType]
                      else r.value.coolingType
    ensures Tokens(file)[0] !in TechTable <==> r == Err(KeyError("tech", Tokens(file)[0]))
  {
    var l := PathList(file);
    var tech :- Lookup(TechTable, "tech", l[0]);
    var subLabel :- Lookup(SubtechTable, "subtech", l[1]);
    var v :- Layout(l, tech, subLabel);
    Finish(sspKey, yearKey, techKey, file, l[0], tech, v)
  }

  /** The remapping of the carbon-capture, cooling and pathway fields and the
      assembly of the row, once the layout rules have run. */
  function Finish(sspKey: string, yearKey: string, techKey: string, file: string,
                  ogTech: string, tech: string, v: Vars): (r: Result<Row, Failure>)
    ensures r.Ok? ==> r.value.fname == file && r.value.fpath == PathJoin([sspKey, yearKey, techKey, file])
    ensures r.Ok? ==> r.value.ssp == sspKey && sspKey in SspTable && r.value.uiSsp == SspTable[sspKey]
    ensures r.Ok? ==> r.value.uiYear == yearKey && r.value.tech == ogTech && r.value.uiTech == tech
    ensures r.Ok? ==> r.value.uiCapacityFactor == r.value.capFactor
    ensures r.Ok? ==> if r.value.isCcs == NotApplicable then r.value.uiIsCcs == NotApplicable
                      else r.value.isCcs in IsCcsTable && r.value.uiIsCcs == IsCcsTable[r.value.isCcs]
    ensures r.Ok? ==> r.value.uiCoolingType ==
                      if r.value.coolingType in CoolingTable then CoolingTable[r.value.coolingType]
                      else r.value.coolingType
    ensures r.Err? ==> !r.error.KeyError? || r.error.table != "tech"
  {
    var path := PathJoin([sspKey, yearKey, techKey, file]);
    var ccsOg :- Read(v.ccs, "ccs");
    var ccs :- if ccsOg != NotApplicable then Lookup(IsCcsTable, "is_ccs", ccsOg) else Ok(ccsOg);
    var coolingOg :- Read(v.cooling, "cooling");
    // an unknown cooling token is reported and kept as it is
    var cooling := if coolingOg != NotApplicable && coolingOg in CoolingTable then CoolingTable[coolingOg] else coolingOg;
    var ssp :- if StartsWith(sspKey, "ssp") then Lookup(SspTable, "ssp", sspKey) else Err(StaleRead("ssp"));
    var subtech :- Read(v.subtech, "subtech");
    var feature :- Read(v.feature, "feature");
    var cf :- Read(v.cf, "cf");
    var ogFeature :- Read(v.ogFeature, "og_feature");
    Ok(Row(ssp, yearKey, tech, subtech, feature, ccs, cooling, cf, file, path,
           sspKey, ogTech, v.ogSubtech, ogFeature, ccsOg, coolingOg, cf))
  }

  // ---------------------------------------------------------------------------
  // Filenames
  // ---------------------------------------------------------------------------

  const Prefix: string := "gridcerf_"
  const Extension: string := ".tif"

  /** The catalogue filename that spells `tokens`. */
  function CatalogueName(tokens: seq<string>): string
    requires |tokens| >= 1
  {
    Prefix + Join(tokens, '_') + Extension
  }

  /** The tokens a well-formed catalogue filename is made of: no underscore,
      no dot, and no token that could complete the prefix with the next separator. */
  predicate PlainToken(t: string) {
    '_' !in t && '.' !in t && !EndsWith(t, "gridcerf")
  }

  lemma ExtensionUnbordered()
    ensures Unbordered(Extension)
  {
    forall k | 0 < k < |Extension|
      ensures Extension[k..] != Extension[..|Extension| - k]
    {
      assert Extension[k..][0] == Extension[k] != '.';
    }
  }

  /** Cutting a filename built from plain tokens gives back exactly those tokens. */
  lemma NameRoundTrip(tokens: seq<string>)
    requires |tokens| >= 1
    requires forall k :: 0 <= k < |tokens| ==> PlainToken(tokens[k])
    ensures Tokens(CatalogueName(tokens)) == tokens
  {
    var j := Join(tokens, '_');
    var s := Prefix + j;
    if '.' in s {
      JoinChars(tokens, '_', '.');
      assert false;
    }
    AbsentByFirstChar(s, Extension);
    ExtensionUnbordered();
    RemoveTrailing(s, Extension);
    RemoveLeading(Prefix, j);
    assert Prefix[..|Prefix| - 1] == "gridcerf";
    RemoveJoin(tokens, '_', Prefix);
    SplitJoin(tokens, '_');
  }

  // ---------------------------------------------------------------------------
  // The layouts, stated on the filename's tokens
  // ---------------------------------------------------------------------------

  /** A technology without its own layout: four tokens, read as
      technology, subtype, carbon capture and cooling. */
  lemma {:induction false} PlainLayoutRow(sspKey: string, yearKey: string, techKey: string, file: string)
    requires var t := Tokens(file);
      |t| == 4 && t[0] in TechTable && t[0] !in {"nuclear", "geothermal", "wind", "solar"}
      && t[1] in SubtechTable && (t[2] == NotApplicable || t[2] in IsCcsTable)
    ensures var t, r := Tokens(file), BuildRow(sspKey, yearKey, techKey, file);
      (r.Ok? <==> sspKey in SspTable)
      && (r.Ok? ==> r.value.subtype == t[1] && r.value.uiSubtype == SubtechTable[t[1]]
                    && r.value.feature == NotApplicable && r.value.uiFeature == NotApplicable
                    && r.value.isCcs == t[2] && r.value.coolingType == t[3]
                    && r.value.capFactor == NotApplicable)
  {
    SpecialTechLabels(Tokens(file)[0]);
  }

  /** Nuclear: four tokens, the subtype being the second and third together;
      no carbon capture. */
  lemma {:induction false} NuclearRow(sspKey: string, yearKey: string, techKey: string, file: string)
    requires var t := Tokens(file);
      |t| == 4 && t[0] == "nuclear" && t[1] in SubtechTable && t[2] in SubtechTable
    ensures var t, r := Tokens(file), BuildRow(sspKey, yearKey, techKey, file);
      (r.Ok? <==> sspKey in SspTable)
      && (r.Ok? ==> r.value.subtype == t[1] + " " + t[2]
                    && r.value.uiSubtype == SubtechTable[t[1]] + " " + SubtechTable[t[2]]
                    && r.value.feature == NotApplicable && r.value.isCcs == NotApplicable
                    && r.value.coolingType == t[3] && r.value.capFactor == NotApplicable)
  {
    SpecialTechLabels(Tokens(file)[0]);
  }

  /** Geothermal and solar: the subtype is the second and third tokens
      together, then cooling and capacity factor. */
  lemma {:induction false} TwoPartSubtypeRow(sspKey: string, yearKey: string, techKey: string, file: string)
    requires var t := Tokens(file);
      |t| >= 5 && (t[0] == "geothermal" || t[0] == "solar") && t[1] in SubtechTable && t[2] in SubtechTable
    ensures var t, r := Tokens(file), BuildRow(sspKey, yearKey, techKey, file);
      (r.Ok? <==> sspKey in SspTable)
      && (r.Ok? ==> r.value.subtype == t[1] + " " + t[2]
                    && r.value.uiSubtype == SubtechTable[t[1]] + " " + SubtechTable[t[2]]
                    && r.value.feature == NotApplicable && r.value.isCcs == NotApplicable
                    && r.value.coolingType == t[3] && r.value.capFactor == t[4])
  {
    SpecialTechLabels(Tokens(file)[0]);
  }

  /** Wind: subtype, hub height, cooling and capacity factor. */
  lemma {:induction false} WindRow(sspKey: string, yearKey: string, techKey: string, file: string)
    requires var t := Tokens(file);
      |t| >= 5 && t[0] == "wind" && t[1] in SubtechTable && t[2] in FeatureTable
    ensures var t, r := Tokens(file), BuildRow(sspKey, yearKey, techKey, file);
      (r.Ok? <==> sspKey in SspTable)
      && (r.Ok? ==> r.value.subtype == t[1] && r.value.uiSubtype == SubtechTable[t[1]]
                    && r.value.feature == t[2] && r.value.uiFeature == FeatureTable[t[2]]
                    && r.value.isCcs == NotApplicable
                    && r.value.coolingType == t[3] && r.value.capFactor == t[4])
  {
    SpecialTechLabels(Tokens(file)[0]);
  }

  /** Five or more tokens for a technology other than wind, geothermal or
      solar leave the carbon-capture or cooling variable unassigned. */
  lemma {:induction false} LongNameIsStale(sspKey: string, yearKey: string, techKey: string, file: string)
    requires var t := Tokens(file);
      |t| >= 5 && t[0] in TechTable && t[0] !in {"geothermal", "wind", "solar"} && t[1] in SubtechTable
      && (t[0] == "nuclear" ==> t[2] in SubtechTable)
    ensures var r := BuildRow(sspKey, yearKey, techKey, file);
      r.Err? && r.error.StaleRead?
  {
    SpecialTechLabels(Tokens(file)[0]);
  }

  /** An unknown subtype token is reported as a missing key. */
  lemma {:induction false} UnknownSubtype(sspKey: string, yearKey: string, techKey: string, file: string)
    requires Tokens(file)[0] in TechTable && PathList(file)[1] !in SubtechTable
    ensures BuildRow(sspKey, yearKey, techKey, file) == Err(KeyError("subtech", PathList(file)[1]))
  {
  }

  const WindExampleTokens: seq<string> := ["wind", "onshore", "hubheight80", "dry", "cf30"]

  lemma WindExampleName()
    ensures Tokens(CatalogueName(WindExampleTokens)) == WindExampleTokens
  {
    var t := WindExampleTokens;
    forall k | 0 <= k < |t|
      ensures PlainToken(t[k])
    {
    }
    NameRoundTrip(t);
  }

  /** The row of the wind filename used as the running example,
      "gridcerf_wind_onshore_hubheight80_dry_cf30.tif". */
  lemma WindExample()
    ensures var r := BuildRow("ssp2", "2030", "wind", CatalogueName(WindExampleTokens));
      r.Ok? && r.value.uiTech == "Wind" && r.value.uiSubtype == "Onshore"
      && r.value.uiFeature == "Hub Height 80 meters (m)" && r.value.uiCoolingType == "Dry"
      && r.value.uiCapacityFactor == "cf30" && r.value.uiIsCcs == NotApplicable
  {
    WindExampleName();
    WindExampleRow(CatalogueName(WindExampleTokens));
  }

  lemma WindExampleRow(file: string)
    requires Tokens(file) == WindExampleTokens
    ensures var r := BuildRow("ssp2", "2030", "wind", file);
      r.Ok? && r.value.uiTech == "Wind" && r.value.uiSubtype == "Onshore"
      && r.value.uiFeature == "Hub Height 80 meters (m)" && r.value.uiCoolingType == "Dry"
      && r.value.uiCapacityFactor == "cf30" && r.value.uiIsCcs == NotApplicable
  {
    WindRow("ssp2", "2030", "wind", file);
  }
}

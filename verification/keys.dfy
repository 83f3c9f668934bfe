/** The lookup tables that turn filename tokens into user-facing labels. */
module Keys {

  type Table = map<string, string>

  /** Socioeconomic pathway scenarios. */
  const SspTable: Table := map[
    "ssp2" := "SSP2 - 'Middle of the Road'",
    "ssp3" := "SSP3 - 'A Rocky Road'",
    "ssp5" := "SSP5 - 'Taking the Highway'"
  ]

  const TechTable: Table := map[
    "coal" := "Coal",
    "nuclear" := "Nuclear",
    "gas" := "Natural Gas",
    "biomass" := "Biomass",
    "solar" := "Solar",
    "refinedliquids" := "Refined Liquids",
    "wind" := "Wind",
    "geothermal" := "Geothermal"
  ]

  const SubtechTable: Table := map[
    "conventional" := "Conventional",
    "gen3" := "Generation 3 Reactor",
    "gen2" := "Generation 2 Reactor",
    "igcc" := "Integrated Gasification Combined Cycle (IGCC)",
    "cc" := "Combined Cycle (CC)",
    "ct" := "Combustion Turbine (CT)",
    "csp" := "Concentrating Solar Power (CSP)",
    "pv" := "Photovoltaic (PV)",
    "turbine" := "Combustion Turbine (CT)",
    "onshore" := "Onshore",
    "offshore" := "Offshore",
    "centralized" := "Centralized",
    "enhanced" := "Enhanced",
    "smr" := "Small Modular Reactor (SMR)",
    "ap1000" := "AP1000",
    "lwr" := "Light Water Reactor (LWR)"
  ]

  /** Carbon capture and sequestration. */
  const IsCcsTable: Table := map[
    "ccs" := "Yes",
    "with-ccs" := "Yes",
    "no-ccs" := "No"
  ]

  const CoolingTable: Table := map[
    "dry" := "Dry",
    "dry-hybrid" := "Dry-Hybrid",
    "oncethrough" := "Once-through",
    "recirculating" := "Recirculating",
    "recirculating-seawater" := "Recirculating-Seawater",
    "pond" := "Pond",
    "no-cooling" := "No Cooling"
  ]

  /** Wind turbine hub heights. */
  const FeatureTable: Table := map[
    "hubheight80" := "Hub Height 80 meters (m)",
    "hubheight100" := "Hub Height 100 meters (m)",
    "hubheight110" := "Hub Height 110 meters (m)",
    "hubheight120" := "Hub Height 120 meters (m)",
    "hubheight140" := "Hub Height 140 meters (m)",
    "hubheight160" := "Hub Height 160 meters (m)"
  ]

  /** All tables by name, as the catalogue builder indexes them. */
  const KeysTable: map<string, Table> := map[
    "ssp" := SspTable,
    "tech" := TechTable,
    "subtech" := SubtechTable,
    "is_ccs" := IsCcsTable,
    "cooling_type" := CoolingTable,
    "feature" := FeatureTable
  ]

  /** The labels of the four technologies whose filenames follow their own layout. */
  const NuclearLabel: string := "Nuclear"
  const GeothermalLabel: string := "Geothermal"
  const WindLabel: string := "Wind"
  const SolarLabel: string := "Solar"

  /** Placeholder the catalogue uses for "not applicable". */
  const NotApplicable: string := "--"

  predicate Injective(t: Table) {
    forall a, b :: a in t && b in t && a != b ==> t[a] != t[b]
  }

  /** Both spellings of "with carbon capture" map to "Yes"; "no-ccs" maps to "No". */
  lemma IsCcsLabels()
    ensures IsCcsTable.Keys == {"ccs", "with-ccs", "no-ccs"}
    ensures IsCcsTable["ccs"] == IsCcsTable["with-ccs"] == "Yes"
    ensures IsCcsTable["no-ccs"] == "No"
    ensures IsCcsTable.Values == {"Yes", "No"}
  {
    assert IsCcsTable["ccs"] == "Yes";
  }

  /** Two subtype tokens share a label, so a subtype label does not identify its token. */
  lemma SubtechNotInjective()
    ensures !Injective(SubtechTable)
    ensures SubtechTable["ct"] == SubtechTable["turbine"] == "Combustion Turbine (CT)"
  {
    assert "ct" in SubtechTable && "turbine" in SubtechTable && "ct" != "turbine";
  }

  /** Six tables and none for capacity factors, whose tokens are never remapped. */
  lemma KeysTableShape()
    ensures KeysTable.Keys == {"ssp", "tech", "subtech", "is_ccs", "cooling_type", "feature"}
  {
  }

  lemma NoCapacityFactorTable()
    ensures "capacity_factor" !in KeysTable && "cap_factor" !in KeysTable
  {
  }

  /** Eight technologies, among them the four that select a special filename layout. */
  lemma TechTableShape()
    ensures TechTable.Keys == {"coal", "nuclear", "gas", "biomass", "solar", "refinedliquids", "wind", "geothermal"}
    ensures {"nuclear", "geothermal", "wind", "solar"} <= TechTable.Keys
  {
  }

  /** The four special labels each come from exactly one technology token,
      so comparing the mapped label is comparing the token. */
  lemma {:induction false} SpecialTechLabels(token: string)
    requires token in TechTable
    ensures TechTable[token] == NuclearLabel <==> token == "nuclear"
    ensures TechTable[token] == GeothermalLabel <==> token == "geothermal"
    ensures TechTable[token] == WindLabel <==> token == "wind"
    ensures TechTable[token] == SolarLabel <==> token == "solar"
  {
    TechTableShape();
  }

  /** Only three pathway scenarios are known. */
  lemma SspTableShape()
    ensures SspTable.Keys == {"ssp2", "ssp3", "ssp5"}
  {
  }

  /** No table maps a token to the "not applicable" placeholder. */
  lemma NoLabelIsPlaceholder()
    ensures NotApplicable !in SspTable.Values && NotApplicable !in TechTable.Values
    ensures NotApplicable !in SubtechTable.Values
  {
  }

  lemma NoOptionLabelIsPlaceholder()
    ensures NotApplicable !in IsCcsTable.Values && NotApplicable !in CoolingTable.Values
    ensures NotApplicable !in FeatureTable.Values
  {
  }

}

/**
 * Technology-label normalisation: the two renaming tables of data.py and the rewrite
 * `DataFrame.replace(table)` performs on one cell.
 */
module Taxonomy {

  /** Raw area-requirement technology labels and their display labels (`tech_dict_area`). */
  const TechDictArea: map<string, string> := map[
    "H2 Electrolysis" := "Electrolyser",
    "H2 Store" := "H2 storage",
    "grid" := "Grid",
    "offwind" := "Offshore wind",
    "onwind" := "Onshore wind",
    "solar" := "PV",
    "solar rooftop" := "PV rooftop",
    "protected area" := "Nature-protected area",
    "urban area" := "Urban & industrial area"
  ]

  /** Raw water-requirement technology labels and their display labels (`tech_dict_water`). */
  const TechDictWater: map<string, string> := map[
    "H2 Electrolysis" := "H2 production",
    "SMR" := "H2 production",
    "gas" := "Gas",
    "CCGT" := "Gas",
    "OCGT" := "Gas",
    "hydro" := "Hydro",
    "ror" := "Hydro",
    "coal" := "Hard coal",
    "lignite" := "Lignite",
    "nuclear" := "Nuclear",
    "oil" := "Oil",
    "biomass" := "Biomass"
  ]

  /** The area label that `get_criteria` moves to the second-to-last place of the criteria list. */
  const NatureProtected: string := "Nature-protected area"

  /** The table a caller's requirement selects: the area table for "area", the water table otherwise. */
  function DictFor(requirement: string): map<string, string>
  {
    if requirement == "area" then TechDictArea else TechDictWater
  }

  /** The label a cell holds after `replace(d)`: its entry in `d`, or itself when it has none. */
  function Relabel(d: map<string, string>, raw: string): string
  {
    if raw in d then d[raw] else raw
  }

  /** No display label is itself a raw label, so the rewrite never chains. */
  ghost predicate Stable(d: map<string, string>)
  {
    forall k :: k in d ==> d[k] !in d
  }

  /** For a stable table, relabelling an already relabelled label changes nothing. */
  lemma RelabelIdempotent(d: map<string, string>, raw: string)
    requires Stable(d)
    ensures Relabel(d, Relabel(d, raw)) == Relabel(d, raw)
  {
  }

  /** Both renaming tables of data.py are stable. */
  lemma TechDictsStable()
    ensures Stable(TechDictArea) && Stable(TechDictWater)
  {
  }

  /** Whatever the requirement, normalising a label twice equals normalising it once. */
  lemma NormaliseLabelTwice(requirement: string, raw: string)
    ensures Relabel(DictFor(requirement), Relabel(DictFor(requirement), raw))
            == Relabel(DictFor(requirement), raw)
  {
    TechDictsStable();
    RelabelIdempotent(DictFor(requirement), raw);
  }
}

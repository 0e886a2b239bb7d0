/**
 * Requirement tables: the rows of `{scenario}_{requirement}_joined.csv` after loading, and the
 * whole-table relabelling `df.replace(tech_dict)` that data.py applies before any filter.
 */
module Tables {
  import opened Taxonomy

  /**
   * One CSV row. `vals` holds the value columns of the row's requirement, in the order of
   * `ColumnsFor`; `tech` is the technology label (the CSV column `type`).
   */
  datatype Row = Row(bus: string, targetYear: int, tech: string, onshore: bool,
                     sceName: string, vals: seq<real>)

  type Table = seq<Row>

  const AreaColumns: seq<string> := ["area_km2", "oly_field", "rel"]
  const WaterColumns: seq<string> := ["water_miom3", "oly_pool"]

  /** The value columns a requirement's rows carry: area for "area", water otherwise. */
  function ColumnsFor(requirement: string): seq<string>
  {
    if requirement == "area" then AreaColumns else WaterColumns
  }

  /** Position of the "full units" column (`oly_field` for area, `oly_pool` for water). */
  const UnitsColumn: nat := 1

  /** Every row carries exactly `width` value columns. */
  predicate Conforms(t: Table, width: nat)
  {
    forall r :: r in t ==> |r.vals| == width
  }

  /**
   * `replace(d)` rewrites every cell equal to a key of `d`; the string cells of a row are
   * its bus id, its technology label and its scenario name.
   */
  function NormalizeRow(d: map<string, string>, r: Row): Row
  {
    r.(bus := Relabel(d, r.bus), tech := Relabel(d, r.tech), sceName := Relabel(d, r.sceName))
  }

  function Normalize(d: map<string, string>, t: Table): Table
  {
    seq(|t|, i requires 0 <= i < |t| => NormalizeRow(d, t[i]))
  }

  /**
   * Normalising a table keeps its length, its years, onshore flags and values, and maps each
   * technology label to its display label; normalising it again changes nothing.
   */
  lemma NormalizeTableTwice(requirement: string, t: Table)
    ensures var d := DictFor(requirement);
      && Normalize(d, Normalize(d, t)) == Normalize(d, t)
      && |Normalize(d, t)| == |t|
      && forall i :: 0 <= i < |t| ==>
           && Normalize(d, t)[i].vals == t[i].vals
           && Normalize(d, t)[i].targetYear == t[i].targetYear
           && Normalize(d, t)[i].onshore == t[i].onshore
           && Normalize(d, t)[i].tech == (if t[i].tech in d then d[t[i].tech] else t[i].tech)
  {
    var d := DictFor(requirement);
    forall i | 0 <= i < |t|
      ensures NormalizeRow(d, NormalizeRow(d, t[i])) == NormalizeRow(d, t[i])
    {
      NormaliseLabelTwice(requirement, t[i].bus);
      NormaliseLabelTwice(requirement, t[i].tech);
      NormaliseLabelTwice(requirement, t[i].sceName);
    }
  }

  /** The number of rows of `t` whose normalised form is `x`. */
  function NormalCount(d: map<string, string>, t: Table, x: Row): nat
  {
    if t == [] then 0
    else (if NormalizeRow(d, t[0]) == x then 1 else 0) + NormalCount(d, t[1..], x)
  }

  /**
   * Normalising a table keeps one row per input row: a row occurs in the normalised table
   * exactly as often as input rows normalise to it, so rows that the table relabels alike
   * (such as "gas" and "CCGT", both "Gas") all stay.
   */
  lemma {:induction false} NormalizeCount(d: map<string, string>, t: Table, x: Row)
    ensures multiset(Normalize(d, t))[x] == NormalCount(d, t, x)
  {
    if t != [] {
      NormalizeCount(d, t[1..], x);
      assert Normalize(d, t) == [NormalizeRow(d, t[0])] + Normalize(d, t[1..]);
    }
  }

  /** Some row normalises to `x` exactly when the count is positive. */
  lemma {:induction false} NormalCountPositive(d: map<string, string>, t: Table, x: Row)
    ensures NormalCount(d, t, x) > 0 <==> exists j :: 0 <= j < |t| && NormalizeRow(d, t[j]) == x
  {
    if t != [] {
      NormalCountPositive(d, t[1..], x);
      if exists j :: 0 <= j < |t[1..]| && NormalizeRow(d, t[1..][j]) == x {
        var j :| 0 <= j < |t[1..]| && NormalizeRow(d, t[1..][j]) == x;
        assert t[j + 1] == t[1..][j];
      }
      if exists j :: 0 <= j < |t| && NormalizeRow(d, t[j]) == x {
        var j :| 0 <= j < |t| && NormalizeRow(d, t[j]) == x;
        if j > 0 {
          assert t[1..][j - 1] == t[j];
        }
      }
    }
  }
}


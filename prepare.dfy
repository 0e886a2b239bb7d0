/**
 * `prepare_data`: the rows of one scenario's table that the map and bar chart show for a chosen
 * requirement, year and set of technology criteria.
 */
module Prepare {
  import opened Seqs
  import opened Taxonomy
  import opened Tables

  /**
   * The three conditions a normalised row must meet: the chosen year, a technology among the
   * criteria, and at least one full display unit (`oly_field` for area, `oly_pool` for water).
   */
  predicate Wanted(r: Row, year: int, criteria: seq<string>)
  {
    && r.targetYear == year
    && r.tech in criteria
    && UnitsColumn < |r.vals| && r.vals[UnitsColumn] >= 1.0
  }

  /**
   * Relabel the table, then keep the rows of `year` whose technology is selected and that hold
   * at least one full unit. The three masks of data.py are applied one after the other to the
   * same rows, which is one mask by their conjunction. The values are taken as already rounded;
   * the renaming of `bus` to `name` changes no row.
   */
  function PrepareData(table: Table, requirement: string, year: int, criteria: seq<string>): (r: Table)
    requires Conforms(table, |ColumnsFor(requirement)|)
    ensures |r| <= |table|
    ensures forall x :: x in r ==>
      x.targetYear == year && x.tech in criteria && UnitsColumn < |x.vals| && x.vals[UnitsColumn] >= 1.0
    ensures criteria == [] ==> r == []
  {
    var out := Filter(Normalize(DictFor(requirement), table), (x: Row) => Wanted(x, year, criteria));
    assert out != [] ==> out[0] in out;
    out
  }

  /**
   * `prepare_data` keeps exactly the rows of the input, in input order, whose relabelled form
   * meets the three conditions: the k-th result row is the relabelled input row at the k-th
   * kept position, kept positions increase, and a position is kept if and only if its
   * relabelled row has the year, a selected technology and at least one full unit.
   */
  lemma PrepareDataExact(table: Table, requirement: string, year: int, criteria: seq<string>)
    requires Conforms(table, |ColumnsFor(requirement)|)
    ensures var d := DictFor(requirement);
      var r := PrepareData(table, requirement, year, criteria);
      var idx := KeptIndices(Normalize(d, table), (x: Row) => Wanted(x, year, criteria));
      && |r| == |idx|
      && (forall k :: 0 <= k < |idx| ==> idx[k] < |table| && r[k] == NormalizeRow(d, table[idx[k]]))
      && (forall k, l :: 0 <= k < l < |idx| ==> idx[k] < idx[l])
      && (forall i :: 0 <= i < |table| ==>
            (i in idx <==>
               && table[i].targetYear == year
               && Relabel(d, table[i].tech) in criteria
               && table[i].vals[UnitsColumn] >= 1.0))
  {
    FilterExact(Normalize(DictFor(requirement), table), (x: Row) => Wanted(x, year, criteria));
  }
}

/**
 * The label-building part of `get_pretty_names`: the display name of each bus id, as
 * "country, Name" or "country", followed by ", Offshore " for the offshore map.
 */
module PrettyNames {

  /**
   * One row of pretty_names.csv: the bus id (`name`), the country name (`country_name`), the
   * region name (`Name`) and whether the region name is shown (`boolean`).
   */
  datatype NameRow = NameRow(name: string, countryName: string, regionName: string, boolean: bool)

  /** Python's `sep.join(parts)`. */
  function Join(sep: string, parts: seq<string>): string
  {
    if parts == [] then ""
    else if |parts| == 1 then parts[0]
    else Join(sep, parts[..|parts| - 1]) + sep + parts[|parts| - 1]
  }

  /** The label of one row, built as the list comprehension of `get_pretty_names` builds it. */
  function PrettyName(row: NameRow, offshore: bool): string
  {
    if offshore then
      if row.boolean then Join(", ", [row.countryName, row.regionName, "Offshore "])
      else Join(", ", [row.countryName, "Offshore "])
    else
      if row.boolean then Join(", ", [row.countryName, row.regionName])
      else Join(", ", [row.countryName])
  }

  /** `dict(zip(df.name, df.pretty_name))`: a later row with the same bus id overwrites an earlier one. */
  function LabelMap(rows: seq<NameRow>, offshore: bool): map<string, string>
  {
    if rows == [] then map[]
    else LabelMap(rows[..|rows| - 1], offshore)[rows[|rows| - 1].name := PrettyName(rows[|rows| - 1], offshore)]
  }

  /**
   * The onshore label is the country name, followed by ", " and the region name when the row's
   * flag is set; the offshore label is the onshore label followed by ", Offshore ".
   */
  lemma PrettyNameShape(row: NameRow)
    ensures PrettyName(row, false) ==
      if row.boolean then row.countryName + ", " + row.regionName else row.countryName
    ensures PrettyName(row, true) == PrettyName(row, false) + ", Offshore "
  {
    var c, n := row.countryName, row.regionName;
    assert [c, n, "Offshore "][..2] == [c, n];
    assert [c, n][..1] == [c];
    assert [c, "Offshore "][..1] == [c];
    assert Join(", ", [c]) == c;
    assert Join(", ", [c, n]) == c + ", " + n;
    assert Join(", ", [c, "Offshore "]) == c + ", " + "Offshore ";
    assert Join(", ", [c, n, "Offshore "]) == Join(", ", [c, n]) + ", " + "Offshore ";
  }

  /** The labelled bus ids are exactly the ids of the rows. */
  lemma {:induction false} LabelMapKeys(rows: seq<NameRow>, offshore: bool)
    ensures forall id :: id in LabelMap(rows, offshore) <==> exists i :: 0 <= i < |rows| && rows[i].name == id
  {
    if rows != [] {
      var n := |rows| - 1;
      LabelMapKeys(rows[..n], offshore);
      forall id ensures id in LabelMap(rows, offshore) <==> exists i :: 0 <= i < |rows| && rows[i].name == id {
        if exists i :: 0 <= i < |rows| && rows[i].name == id {
          var i :| 0 <= i < |rows| && rows[i].name == id;
          if i < n {
            assert rows[..n][i] == rows[i];
          }
        }
        if id in LabelMap(rows[..n], offshore) {
          var i :| 0 <= i < n && rows[..n][i].name == id;
          assert rows[i] == rows[..n][i];
        }
      }
    }
  }

  /** Each bus id is labelled after the last row that carries it. */
  lemma {:induction false} LabelMapLastWins(rows: seq<NameRow>, offshore: bool, i: nat)
    requires i < |rows|
    requires forall j :: i < j < |rows| ==> rows[j].name != rows[i].name
    ensures rows[i].name in LabelMap(rows, offshore)
    ensures LabelMap(rows, offshore)[rows[i].name] == PrettyName(rows[i], offshore)
  {
    var n := |rows| - 1;
    if i < n {
      var front := rows[..n];
      assert front[i] == rows[i];
      forall j | i < j < |front| ensures front[j].name != front[i].name {
        assert front[j] == rows[j];
      }
      LabelMapLastWins(front, offshore, i);
    }
  }
}

/**
 * `get_min_max`: the colour-scale domain of the maps. Every scenario's table is relabelled and
 * reduced to the onshore rows of the selected technologies, the region rows are summed per
 * (bus, year, scenario), and the column-wise minimum and maximum of those sums are taken per
 * (scenario, year).
 */
module Ranges {
  import opened Wrappers
  import opened Seqs
  import opened Taxonomy
  import opened Tables

  /** The scenario files read, in this order (`SCENARIOS`). */
  const Scenarios: seq<string> := ["clever", "tyndp_de", "tyndp_ga", "pac2_0"]

  datatype GroupKey = GroupKey(bus: string, targetYear: int, sceName: string)
  datatype RangeKey = RangeKey(sceName: string, targetYear: int)

  function KeyOf(r: Row): GroupKey
  {
    GroupKey(r.bus, r.targetYear, r.sceName)
  }

  function RangeOf(k: GroupKey): RangeKey
  {
    RangeKey(k.sceName, k.targetYear)
  }

  datatype RangeError = InvalidRequirement

  // ---------------------------------------------------------------- row selection

  /** A relabelled row of one scenario takes part when its technology is selected and it is onshore. */
  predicate Selected(r: Row, criteria: seq<string>)
  {
    r.tech in criteria && r.onshore
  }

  function Selection(d: map<string, string>, criteria: seq<string>, t: Table): Table
  {
    Filter(Normalize(d, t), (x: Row) => Selected(x, criteria))
  }

  /** The per-scenario selections concatenated in scenario order (`pd.concat(data_dict)`). */
  function Combined(d: map<string, string>, criteria: seq<string>, sources: seq<Table>): Table
  {
    if sources == [] then []
    else Combined(d, criteria, sources[..|sources| - 1]) + Selection(d, criteria, sources[|sources| - 1])
  }

  lemma CombinedStep(d: map<string, string>, criteria: seq<string>, sources: seq<Table>, i: nat)
    requires i < |sources|
    ensures Combined(d, criteria, sources[..i + 1])
            == Combined(d, criteria, sources[..i]) + Selection(d, criteria, sources[i])
  {
    assert sources[..i + 1][..i] == sources[..i];
  }

  /** Region rows: those whose bus id is longer than three characters. */
  function Regions(t: Table): Table
  {
    Filter(t, (x: Row) => |x.bus| > 3)
  }

  /** The number of rows, over all scenario tables, whose relabelled form is `x`. */
  function SourceCount(d: map<string, string>, sources: seq<Table>, x: Row): nat
  {
    if sources == [] then 0
    else SourceCount(d, sources[..|sources| - 1], x) + NormalCount(d, sources[|sources| - 1], x)
  }

  /**
   * The concatenation keeps every occurrence: a row occurs in `Combined` as often as source
   * rows relabel to it when it is selected and onshore, and not at all otherwise.
   */
  lemma {:induction false} CombinedCount(d: map<string, string>, criteria: seq<string>,
                                         sources: seq<Table>, x: Row)
    ensures multiset(Combined(d, criteria, sources))[x]
            == if Selected(x, criteria) then SourceCount(d, sources, x) else 0
  {
    if sources != [] {
      var n := |sources| - 1;
      CombinedCount(d, criteria, sources[..n], x);
      FilterCount(Normalize(d, sources[n]), (y: Row) => Selected(y, criteria), x);
      NormalizeCount(d, sources[n], x);
      assert multiset(Combined(d, criteria, sources))
             == multiset(Combined(d, criteria, sources[..n])) + multiset(Selection(d, criteria, sources[n]));
    }
  }

  /**
   * The rows that enter the group-by, with their multiplicity: a region row that is selected
   * and onshore occurs once per source row relabelled to it, any other row never.
   */
  lemma ContributingCount(d: map<string, string>, criteria: seq<string>, sources: seq<Table>, x: Row)
    ensures multiset(Regions(Combined(d, criteria, sources)))[x]
            == if Selected(x, criteria) && |x.bus| > 3 then SourceCount(d, sources, x) else 0
  {
    FilterCount(Combined(d, criteria, sources), (y: Row) => |y.bus| > 3, x);
    CombinedCount(d, criteria, sources, x);
  }

  /**
   * Rows that the water table relabels alike both count: a "gas" row and a "CCGT" row that agree
   * elsewhere are two occurrences of the same "Gas" row.
   */
  lemma GasRowsBothCount(r: Row)
    requires r.tech == "gas"
    ensures var d := TechDictWater;
      SourceCount(d, [[r, r.(tech := "CCGT")]], NormalizeRow(d, r)) == 2
  {
    var d := TechDictWater;
    var t := [r, r.(tech := "CCGT")];
    var x := NormalizeRow(d, r);
    assert x.tech == "Gas" && NormalizeRow(d, t[1]) == x;
    assert NormalCount(d, t[1..][1..], x) == 0;
    assert NormalCount(d, t[1..], x) == 1;
    assert NormalCount(d, t, x) == 2;
    var none: seq<Table> := [];
    assert [t][..0] == none;
    assert SourceCount(d, [t], x) == SourceCount(d, none, x) + NormalCount(d, t, x);
  }

  /** Some source row relabels to `x` exactly when the count is positive. */
  lemma {:induction false} SourceCountPositive(d: map<string, string>, sources: seq<Table>, x: Row)
    ensures SourceCount(d, sources, x) > 0 <==>
      exists i, j :: 0 <= i < |sources| && 0 <= j < |sources[i]| && NormalizeRow(d, sources[i][j]) == x
  {
    if sources != [] {
      var n := |sources| - 1;
      var front := sources[..n];
      SourceCountPositive(d, front, x);
      NormalCountPositive(d, sources[n], x);
      if exists i, j :: 0 <= i < |front| && 0 <= j < |front[i]| && NormalizeRow(d, front[i][j]) == x {
        var i, j :| 0 <= i < |front| && 0 <= j < |front[i]| && NormalizeRow(d, front[i][j]) == x;
        assert sources[i] == front[i];
      }
      if exists i, j :: 0 <= i < |sources| && 0 <= j < |sources[i]| && NormalizeRow(d, sources[i][j]) == x {
        var i, j :| 0 <= i < |sources| && 0 <= j < |sources[i]| && NormalizeRow(d, sources[i][j]) == x;
        if i < n {
          assert front[i] == sources[i];
        }
      }
    }
  }

  /** A row of `Regions(Combined(...))` is exactly a relabelled source row meeting all three conditions. */
  lemma ContributingRows(d: map<string, string>, criteria: seq<string>, sources: seq<Table>, x: Row)
    ensures x in Regions(Combined(d, criteria, sources)) <==>
      exists i, j :: 0 <= i < |sources| && 0 <= j < |sources[i]| &&
        x == NormalizeRow(d, sources[i][j]) && x.tech in criteria && x.onshore && |x.bus| > 3
  {
    ContributingCount(d, criteria, sources, x);
    SourceCountPositive(d, sources, x);
  }

  /** A row of `Combined(...)` is exactly a relabelled source row that is selected and onshore. */
  lemma CombinedMembers(d: map<string, string>, criteria: seq<string>, sources: seq<Table>, x: Row)
    ensures x in Combined(d, criteria, sources) <==>
      exists i, j :: 0 <= i < |sources| && 0 <= j < |sources[i]| &&
        x == NormalizeRow(d, sources[i][j]) && x.tech in criteria && x.onshore
  {
    CombinedCount(d, criteria, sources, x);
    SourceCountPositive(d, sources, x);
  }

  lemma {:induction false} CombinedConforms(d: map<string, string>, criteria: seq<string>,
                                            sources: seq<Table>, w: nat)
    requires forall t :: t in sources ==> Conforms(t, w)
    ensures Conforms(Regions(Combined(d, criteria, sources)), w)
  {
    forall x | x in Regions(Combined(d, criteria, sources)) ensures |x.vals| == w {
      ContributingRows(d, criteria, sources, x);
      var i, j :| 0 <= i < |sources| && 0 <= j < |sources[i]| && x == NormalizeRow(d, sources[i][j]);
      assert sources[i] in sources && sources[i][j] in sources[i];
    }
  }

  // ---------------------------------------------------------------- column arithmetic

  function Zeros(w: nat): (z: seq<real>)
    ensures |z| == w
  {
    seq(w, _ => 0.0)
  }

  function AddCols(a: seq<real>, b: seq<real>): (s: seq<real>)
    requires |a| == |b|
    ensures |s| == |a|
  {
    seq(|a|, i requires 0 <= i < |a| => a[i] + b[i])
  }

  /** The column-wise sum of some rows. */
  function ColumnSum(rows: Table, w: nat): (s: seq<real>)
    requires Conforms(rows, w)
    ensures |s| == w
  {
    if rows == [] then Zeros(w) else AddCols(rows[0].vals, ColumnSum(rows[1..], w))
  }

  // ---------------------------------------------------------------- group-by sum

  /** The rows with key `k`. */
  function WithKey(rows: Table, k: GroupKey): Table
  {
    Filter(rows, (x: Row) => KeyOf(x) == k)
  }

  /**
   * `groupby(["bus", "target_year", "sce_name"])` then `sum` of every value column: one entry per
   * key that occurs, holding the column sums of that key's rows.
   */
  function GroupSums(rows: Table, w: nat): (m: map<GroupKey, seq<real>>)
    requires Conforms(rows, w)
    ensures forall k :: k in m ==> |m[k]| == w
    ensures forall k :: k in m <==> exists x :: x in rows && KeyOf(x) == k
  {
    if rows == [] then map[]
    else
      var m := GroupSums(rows[1..], w);
      var k := KeyOf(rows[0]);
      assert forall x :: x in rows <==> x == rows[0] || x in rows[1..];
      m[k := if k in m then AddCols(rows[0].vals, m[k]) else rows[0].vals]
  }

  /** The keys that occur in `rows`, each once, in order of first occurrence. */
  function KeyList(rows: Table): seq<GroupKey>
  {
    if rows == [] then []
    else
      var ks := KeyList(rows[1..]);
      if KeyOf(rows[0]) in ks then ks else [KeyOf(rows[0])] + ks
  }

  lemma {:induction false} KeyListMembers(rows: Table)
    ensures forall k :: k in KeyList(rows) <==> exists x :: x in rows && KeyOf(x) == k
  {
    if rows != [] {
      KeyListMembers(rows[1..]);
      forall k ensures k in KeyList(rows) <==> exists x :: x in rows && KeyOf(x) == k {
        if exists x :: x in rows && KeyOf(x) == k {
          var x :| x in rows && KeyOf(x) == k;
          if x != rows[0] {
            var i :| 0 <= i < |rows| && rows[i] == x;
            assert rows[1..][i - 1] == x;
          }
        }
        if k in KeyList(rows[1..]) {
          var x :| x in rows[1..] && KeyOf(x) == k;
          assert x in rows;
        }
      }
    }
  }

  lemma AddZeros(v: seq<real>)
    ensures AddCols(v, Zeros(|v|)) == v
  {
  }

  /**
   * The group-by sums: each group holds, column by column, the sum of the rows with its key
   * (the percentage column `rel` is summed like the others).
   */
  lemma {:induction false} GroupSumIsSum(rows: Table, w: nat, k: GroupKey)
    requires Conforms(rows, w)
    requires k in GroupSums(rows, w)
    ensures GroupSums(rows, w)[k] == ColumnSum(WithKey(rows, k), w)
  {
    var rest := rows[1..];
    var m := GroupSums(rest, w);
    var here := WithKey(rows, k);
    var there := WithKey(rest, k);
    assert here == (if KeyOf(rows[0]) == k then [rows[0]] else []) + there;
    if KeyOf(rows[0]) != k {
      assert here == there;
      GroupSumIsSum(rest, w, k);
    } else {
      assert here[0] == rows[0] && here[1..] == there;
      assert ColumnSum(here, w) == AddCols(rows[0].vals, ColumnSum(there, w));
      if k in m {
        GroupSumIsSum(rest, w, k);
      } else {
        assert there == [];
        AddZeros(rows[0].vals);
      }
    }
  }

  lemma AddColsCommute(a: seq<real>, b: seq<real>)
    requires |a| == |b|
    ensures AddCols(a, b) == AddCols(b, a)
  {
  }

  lemma AddColsAssociate(a: seq<real>, b: seq<real>, c: seq<real>)
    requires |a| == |b| == |c|
    ensures AddCols(a, AddCols(b, c)) == AddCols(AddCols(a, b), c)
  {
  }

  /** Taking out the row at position `i` leaves a sum that, with that row added back, is the whole sum. */
  lemma {:induction false} ColumnSumRemove(rows: Table, w: nat, i: nat)
    requires Conforms(rows, w) && i < |rows|
    ensures Conforms(rows[..i] + rows[i + 1..], w)
    ensures ColumnSum(rows, w) == AddCols(rows[i].vals, ColumnSum(rows[..i] + rows[i + 1..], w))
  {
    var rest := rows[..i] + rows[i + 1..];
    assert forall x :: x in rest ==> x in rows;
    if i > 0 {
      var tail := rows[1..];
      assert tail[..i - 1] + tail[i..] == rest[1..];
      assert tail[i - 1] == rows[i];
      ColumnSumRemove(tail, w, i - 1);
      assert rest[0] == rows[0];
      AddColsAssociate(rows[0].vals, rows[i].vals, ColumnSum(rest[1..], w));
      AddColsCommute(rows[0].vals, rows[i].vals);
      AddColsAssociate(rows[i].vals, rows[0].vals, ColumnSum(rest[1..], w));
    } else {
      assert rest == rows[1..];
    }
  }

  /**
   * The column sums of two tables holding the same rows the same number of times are equal:
   * a group's sum depends on how often each row occurs, not on the order of the rows.
   */
  lemma {:induction false} ColumnSumPermutation(a: Table, b: Table, w: nat)
    requires Conforms(a, w) && multiset(a) == multiset(b)
    ensures Conforms(b, w)
    ensures ColumnSum(a, w) == ColumnSum(b, w)
  {
    assert forall x :: x in b ==> x in multiset(b);
    if a != [] {
      assert a[0] in multiset(b);
      var i :| 0 <= i < |b| && b[i] == a[0];
      var rest := b[..i] + b[i + 1..];
      assert b == b[..i] + [b[i]] + b[i + 1..];
      assert multiset(b) == multiset(b[..i]) + multiset([b[i]]) + multiset(b[i + 1..]);
      assert multiset(rest) == multiset(b[..i]) + multiset(b[i + 1..]);
      assert a == [a[0]] + a[1..];
      assert multiset(a) == multiset([a[0]]) + multiset(a[1..]);
      forall y ensures multiset(a[1..])[y] == multiset(rest)[y] {
        assert multiset(a)[y] == multiset([a[0]])[y] + multiset(a[1..])[y];
        assert multiset(b)[y] == multiset([a[0]])[y] + multiset(rest)[y];
      }
      assert multiset(a[1..]) == multiset(rest);
      assert forall x :: x in a[1..] ==> x in a;
      ColumnSumPermutation(a[1..], rest, w);
      ColumnSumRemove(b, w, i);
    }
  }

  /**
   * The rows of a group, with their multiplicity: among the contributing rows, the group of key
   * `k` holds each selected onshore region row of that key once per source row relabelled to it.
   */
  lemma GroupRowsCount(d: map<string, string>, criteria: seq<string>, sources: seq<Table>,
                       k: GroupKey, x: Row)
    ensures multiset(WithKey(Regions(Combined(d, criteria, sources)), k))[x]
            == if KeyOf(x) == k && Selected(x, criteria) && |x.bus| > 3 then SourceCount(d, sources, x) else 0
  {
    FilterCount(Regions(Combined(d, criteria, sources)), (y: Row) => KeyOf(y) == k, x);
    ContributingCount(d, criteria, sources, x);
  }

  // ---------------------------------------------------------------- min / max per (scenario, year)

  datatype Side = Lowest | Highest

  /** `x` is on the `side` of `y`: no larger for the minimum, no smaller for the maximum. */
  predicate Bounds(side: Side, x: real, y: real)
  {
    if side == Lowest then x <= y else x >= y
  }

  function Pick(side: Side, a: seq<real>, b: seq<real>): (s: seq<real>)
    requires |a| == |b|
    ensures |s| == |a|
  {
    seq(|a|, i requires 0 <= i < |a| =>
      if side == Lowest then (if a[i] <= b[i] then a[i] else b[i])
      else (if a[i] >= b[i] then a[i] else b[i]))
  }

  /**
   * `groupby(["sce_name", "target_year"]).min()` (or `.max()`) over the group sums of the keys
   * in `ks`: one entry per (scenario, year) that occurs among the keys.
   */
  function Extremes(side: Side, sums: map<GroupKey, seq<real>>, ks: seq<GroupKey>, w: nat)
    : (m: map<RangeKey, seq<real>>)
    requires forall k :: k in ks ==> k in sums && |sums[k]| == w
    ensures forall rk :: rk in m ==> |m[rk]| == w
    ensures forall rk :: rk in m <==> exists k :: k in ks && RangeOf(k) == rk
  {
    if ks == [] then map[]
    else
      var m := Extremes(side, sums, ks[1..], w);
      var rk := RangeOf(ks[0]);
      assert forall k :: k in ks <==> k == ks[0] || k in ks[1..];
      m[rk := if rk in m then Pick(side, sums[ks[0]], m[rk]) else sums[ks[0]]]
  }

  /** Every entry bounds, column by column, the sums of all buses of its scenario and year. */
  lemma {:induction false} ExtremesBound(side: Side, sums: map<GroupKey, seq<real>>,
                                         ks: seq<GroupKey>, w: nat, k: GroupKey, c: nat)
    requires forall k :: k in ks ==> k in sums && |sums[k]| == w
    requires k in ks && c < w
    ensures Bounds(side, Extremes(side, sums, ks, w)[RangeOf(k)][c], sums[k][c])
  {
    var rest := ks[1..];
    if k != ks[0] {
      var i :| 0 <= i < |ks| && ks[i] == k;
      assert rest[i - 1] == k;
      ExtremesBound(side, sums, rest, w, k, c);
    } else if k in rest {
      ExtremesBound(side, sums, rest, w, k, c);
    }
  }

  /** Each column of each entry is the sum of some bus of its scenario and year. */
  lemma {:induction false} ExtremesAttained(side: Side, sums: map<GroupKey, seq<real>>,
                                            ks: seq<GroupKey>, w: nat, rk: RangeKey, c: nat)
    requires forall k :: k in ks ==> k in sums && |sums[k]| == w
    requires rk in Extremes(side, sums, ks, w) && c < w
    ensures exists k :: k in ks && RangeOf(k) == rk && sums[k][c] == Extremes(side, sums, ks, w)[rk][c]
  {
    var rest := ks[1..];
    var m := Extremes(side, sums, rest, w);
    var v := Extremes(side, sums, ks, w)[rk][c];
    if rk in m && (rk != RangeOf(ks[0]) || v != sums[ks[0]][c]) {
      ExtremesAttained(side, sums, rest, w, rk, c);
      var k :| k in rest && RangeOf(k) == rk && sums[k][c] == m[rk][c];
      assert k in ks;
    } else {
      assert ks[0] in ks;
    }
  }

  // ---------------------------------------------------------------- get_min_max

  /** The rows that enter the group-by for a requirement: relabelled, selected, onshore, regions. */
  function Contributing(requirement: string, criteria: seq<string>, sources: seq<Table>): Table
  {
    Regions(Combined(DictFor(requirement), criteria, sources))
  }

  /** The per-(scenario, year) minimum and maximum of the per-(bus, year, scenario) sums of `rows`. */
  function RangesOf(rows: Table, w: nat): (map<RangeKey, seq<real>>, map<RangeKey, seq<real>>)
    requires Conforms(rows, w)
  {
    KeyListMembers(rows);
    var sums := GroupSums(rows, w);
    var ks := KeyList(rows);
    (Extremes(Lowest, sums, ks, w), Extremes(Highest, sums, ks, w))
  }

  /** The range tables of the contributing rows of a requirement. */
  function MinMax(requirement: string, criteria: seq<string>, sources: seq<Table>)
    : (map<RangeKey, seq<real>>, map<RangeKey, seq<real>>)
    requires forall t :: t in sources ==> Conforms(t, |ColumnsFor(requirement)|)
  {
    CombinedConforms(DictFor(requirement), criteria, sources, |ColumnsFor(requirement)|);
    RangesOf(Contributing(requirement, criteria, sources), |ColumnsFor(requirement)|)
  }

  /**
   * Reads each scenario's table in `Scenarios` order (`sources[i]` is the table of
   * `Scenarios[i]` for the requested requirement), keeps its relabelled onshore rows of the
   * selected technologies, concatenates them, and returns the range tables; any requirement
   * other than "area" or "water" is refused.
   */
  method GetMinMax(requirement: string, criteria: seq<string>, sources: seq<Table>)
    returns (r: Result<(map<RangeKey, seq<real>>, map<RangeKey, seq<real>>), RangeError>)
    requires |sources| == |Scenarios|
    requires forall t :: t in sources ==> Conforms(t, |ColumnsFor(requirement)|)
    ensures requirement != "area" && requirement != "water" ==> r == Err(InvalidRequirement)
    ensures requirement == "area" || requirement == "water" ==>
      r == Ok(MinMax(requirement, criteria, sources))
  {
    var d: map<string, string>;
    if requirement == "area" {
      d := TechDictArea;
    } else if requirement == "water" {
      d := TechDictWater;
    } else {
      return Err(InvalidRequirement);
    }
    assert d == DictFor(requirement);
    var combined: Table := [];
    var i := 0;
    while i < |Scenarios|
      invariant 0 <= i <= |Scenarios|
      invariant combined == Combined(d, criteria, sources[..i])
    {
      CombinedStep(d, criteria, sources, i);
      combined := combined + Selection(d, criteria, sources[i]);
      i := i + 1;
    }
    assert sources[..i] == sources;
    CombinedConforms(d, criteria, sources, |ColumnsFor(requirement)|);
    r := Ok(RangesOf(Regions(combined), |ColumnsFor(requirement)|));
  }

  /**
   * For every contributing row, the range entry of its scenario and year exists, and its
   * minimum and maximum enclose, column by column, the sum of that row's bus in that year.
   */
  lemma MinMaxEncloseEveryBus(requirement: string, criteria: seq<string>, sources: seq<Table>,
                              x: Row, c: nat)
    requires forall t :: t in sources ==> Conforms(t, |ColumnsFor(requirement)|)
    requires x in Contributing(requirement, criteria, sources)
    requires c < |ColumnsFor(requirement)|
    ensures var (lo, hi) := MinMax(requirement, criteria, sources);
      var rows := Contributing(requirement, criteria, sources);
      var rk := RangeKey(x.sceName, x.targetYear);
      && Conforms(WithKey(rows, KeyOf(x)), |ColumnsFor(requirement)|)
      && rk in lo && rk in hi
      && lo[rk][c] <= ColumnSum(WithKey(rows, KeyOf(x)), |ColumnsFor(requirement)|)[c] <= hi[rk][c]
  {
    var w := |ColumnsFor(requirement)|;
    var rows := Contributing(requirement, criteria, sources);
    CombinedConforms(DictFor(requirement), criteria, sources, w);
    KeyListMembers(rows);
    var sums := GroupSums(rows, w);
    var ks := KeyList(rows);
    assert KeyOf(x) in ks;
    GroupSumIsSum(rows, w, KeyOf(x));
    ExtremesBound(Lowest, sums, ks, w, KeyOf(x), c);
    ExtremesBound(Highest, sums, ks, w, KeyOf(x), c);
  }

  /**
   * A group sum counts every source row once: for any list `g` holding each selected onshore
   * region row of key `k` exactly as often as source rows relabel to it (and nothing else), the
   * group sum of `k` is the column sum of `g`. So "gas" and "CCGT" rows of one bus both add in.
   */
  lemma GroupSumCounts(requirement: string, criteria: seq<string>, sources: seq<Table>,
                       k: GroupKey, g: Table)
    requires forall t :: t in sources ==> Conforms(t, |ColumnsFor(requirement)|)
    requires forall x :: multiset(g)[x] == (if KeyOf(x) == k && Selected(x, criteria) && |x.bus| > 3
                                            then SourceCount(DictFor(requirement), sources, x) else 0)
    ensures var w := |ColumnsFor(requirement)|;
      var rows := Contributing(requirement, criteria, sources);
      && Conforms(rows, w) && Conforms(g, w)
      && (k in GroupSums(rows, w) <==> g != [])
      && (k in GroupSums(rows, w) ==> GroupSums(rows, w)[k] == ColumnSum(g, w))
  {
    var d := DictFor(requirement);
    var w := |ColumnsFor(requirement)|;
    var rows := Contributing(requirement, criteria, sources);
    CombinedConforms(d, criteria, sources, w);
    var grp := WithKey(rows, k);
    forall x ensures multiset(grp)[x] == multiset(g)[x] {
      GroupRowsCount(d, criteria, sources, k, x);
    }
    assert multiset(grp) == multiset(g);
    ColumnSumPermutation(grp, g, w);
    if k in GroupSums(rows, w) {
      var x :| x in rows && KeyOf(x) == k;
      FilterCount(rows, (y: Row) => KeyOf(y) == k, x);
      assert x in multiset(rows);
      assert x in multiset(g);
      GroupSumIsSum(rows, w, k);
    }
    if g != [] {
      assert g[0] in multiset(grp);
      assert g[0] in grp;
    }
  }

  /** The two range tables have the same entries: one per (scenario, year) of the contributing rows. */
  lemma MinMaxKeys(requirement: string, criteria: seq<string>, sources: seq<Table>, rk: RangeKey)
    requires forall t :: t in sources ==> Conforms(t, |ColumnsFor(requirement)|)
    ensures var (lo, hi) := MinMax(requirement, criteria, sources);
      && (rk in lo <==> exists x :: x in Contributing(requirement, criteria, sources) && RangeOf(KeyOf(x)) == rk)
      && (rk in hi <==> rk in lo)
  {
    var w := |ColumnsFor(requirement)|;
    var rows := Contributing(requirement, criteria, sources);
    CombinedConforms(DictFor(requirement), criteria, sources, w);
    KeyListMembers(rows);
    if exists x :: x in rows && RangeOf(KeyOf(x)) == rk {
      var x :| x in rows && RangeOf(KeyOf(x)) == rk;
      assert KeyOf(x) in KeyList(rows);
    }
  }

  /** The minimum (`Lowest`) or maximum (`Highest`) table of `MinMax`. */
  function RangeTable(side: Side, requirement: string, criteria: seq<string>, sources: seq<Table>)
    : map<RangeKey, seq<real>>
    requires forall t :: t in sources ==> Conforms(t, |ColumnsFor(requirement)|)
  {
    if side == Lowest then MinMax(requirement, criteria, sources).0
    else MinMax(requirement, criteria, sources).1
  }

  /** Each column of each bound is the sum of some bus of that bound's scenario and year. */
  lemma MinMaxAttained(requirement: string, criteria: seq<string>, sources: seq<Table>,
                       side: Side, rk: RangeKey, c: nat)
    requires forall t :: t in sources ==> Conforms(t, |ColumnsFor(requirement)|)
    requires c < |ColumnsFor(requirement)|
    requires rk in RangeTable(side, requirement, criteria, sources)
    ensures var rows := Contributing(requirement, criteria, sources);
      exists x :: && x in rows && RangeOf(KeyOf(x)) == rk
                  && Conforms(WithKey(rows, KeyOf(x)), |ColumnsFor(requirement)|)
                  && ColumnSum(WithKey(rows, KeyOf(x)), |ColumnsFor(requirement)|)[c]
                     == RangeTable(side, requirement, criteria, sources)[rk][c]
  {
    var w := |ColumnsFor(requirement)|;
    var rows := Contributing(requirement, criteria, sources);
    CombinedConforms(DictFor(requirement), criteria, sources, w);
    KeyListMembers(rows);
    var sums := GroupSums(rows, w);
    var ks := KeyList(rows);
    var b := Extremes(side, sums, ks, w);
    assert b == RangeTable(side, requirement, criteria, sources);
    ExtremesAttained(side, sums, ks, w, rk, c);
    var k :| k in ks && RangeOf(k) == rk && sums[k][c] == b[rk][c];
    var x :| x in rows && KeyOf(x) == k;
    GroupSumIsSum(rows, w, k);
  }
}

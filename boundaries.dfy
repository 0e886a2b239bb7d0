/**
 * `state_boundaries`: the country outlines drawn over the map, as one path of longitudes and
 * one of latitudes, with a `(None, None)` break after every ring so that separate rings are
 * not joined by a line.
 */
module Boundaries {
  import opened Wrappers

  /** A GeoJSON position: longitude, latitude, and any further numbers the file carries. */
  type Position = seq<real>

  /** The geometry of one feature; `Other` is any type the extraction skips. */
  datatype Geometry =
    | Polygon(rings: seq<seq<Position>>)
    | MultiPolygon(polygons: seq<seq<seq<Position>>>)
    | LineString(coords: seq<Position>)
    | Other(kind: string)

  /** An entry of the collected list: a position, or the break `[None, None]`. */
  datatype Entry = Point(pos: Position) | Break

  /** `IndexError`: a polygon without rings; `UnpackError`: `zip(*pts)` does not give two sequences. */
  datatype BoundaryError = IndexError | UnpackError

  type Paths = (seq<Option<real>>, seq<Option<real>>)

  function Points(ps: seq<Position>): seq<Entry>
  {
    seq(|ps|, i requires 0 <= i < |ps| => Point(ps[i]))
  }

  /** What the loop over the parts of a MultiPolygon appends: each part's exterior ring and a break. */
  function PartsEntries(polygons: seq<seq<seq<Position>>>): Result<seq<Entry>, BoundaryError>
  {
    if polygons == [] then Ok([])
    else
      var last := polygons[|polygons| - 1];
      match PartsEntries(polygons[..|polygons| - 1])
      case Err(e) => Err(e)
      case Ok(front) => if last == [] then Err(IndexError) else Ok(front + Points(last[0]) + [Break])
  }

  /** What one feature appends to the collected list. */
  function FeatureEntries(g: Geometry): Result<seq<Entry>, BoundaryError>
  {
    match g
    case Polygon(rings) => if rings == [] then Err(IndexError) else Ok(Points(rings[0]) + [Break])
    case MultiPolygon(polygons) => PartsEntries(polygons)
    case LineString(coords) => Ok(Points(coords) + [Break])
    case Other(_) => Ok([])
  }

  /** The list `pts` after walking the features in order; the first failing feature ends the walk. */
  function Path(features: seq<Geometry>): Result<seq<Entry>, BoundaryError>
  {
    if features == [] then Ok([])
    else
      match Path(features[..|features| - 1])
      case Err(e) => Err(e)
      case Ok(front) =>
        match FeatureEntries(features[|features| - 1])
        case Err(e) => Err(e)
        case Ok(more) => Ok(front + more)
  }

  /** How many numbers `zip` can take from an entry; the break holds two. */
  function Width(e: Entry): nat
  {
    match e
    case Point(p) => |p|
    case Break => 2
  }

  /** Number `j` of an entry, `None` for the break. */
  function Coord(e: Entry, j: nat): Option<real>
    requires j < Width(e)
  {
    match e
    case Point(p) => Some(p[j])
    case Break => None
  }

  /**
   * `lons, lats = zip(*pts)`: `zip` yields as many tuples as the shortest entry has numbers,
   * and the assignment needs exactly two of them.
   */
  function Unzip(pts: seq<Entry>): Result<Paths, BoundaryError>
  {
    if pts == [] || exists i :: 0 <= i < |pts| && Width(pts[i]) < 2 then Err(UnpackError)
    else if forall i :: 0 <= i < |pts| ==> Width(pts[i]) > 2 then Err(UnpackError)
    else Ok((seq(|pts|, i requires 0 <= i < |pts| => Coord(pts[i], 0)),
             seq(|pts|, i requires 0 <= i < |pts| => Coord(pts[i], 1))))
  }

  /** The result of `state_boundaries` on a feature collection. */
  function BoundaryPaths(features: seq<Geometry>): Result<Paths, BoundaryError>
  {
    match Path(features)
    case Err(e) => Err(e)
    case Ok(pts) => Unzip(pts)
  }

  lemma {:induction false} PathPrefixError(features: seq<Geometry>, i: nat)
    requires i <= |features| && Path(features[..i]).Err?
    ensures Path(features) == Path(features[..i])
    decreases |features| - i
  {
    if i < |features| {
      var n := |features|;
      assert features[..i + 1][..i] == features[..i];
      PathPrefixError(features, i + 1);
    } else {
      assert features[..i] == features;
    }
  }

  /** Walks `pts` as `state_boundaries` does and unzips it. */
  method StateBoundaries(features: seq<Geometry>) returns (r: Result<Paths, BoundaryError>)
    ensures r == BoundaryPaths(features)
  {
    var pts: seq<Entry> := [];
    for i := 0 to |features|
      invariant Path(features[..i]) == Ok(pts)
    {
      assert features[..i + 1][..i] == features[..i];
      ghost var before := pts;
      match features[i] {
        case Polygon(rings) =>
          if rings == [] {
            PathPrefixError(features, i + 1);
            return Err(IndexError);
          }
          pts := pts + Points(rings[0]);
          pts := pts + [Break];
          assert pts == before + (Points(rings[0]) + [Break]);
        case MultiPolygon(polygons) =>
          assert polygons[..0] == [] && PartsEntries([]) == Ok([]);
          assert pts[|before|..] == [];
          for j := 0 to |polygons|
            invariant |before| <= |pts| && pts[..|before|] == before
            invariant PartsEntries(polygons[..j]) == Ok(pts[|before|..])
          {
            assert polygons[..j + 1][..j] == polygons[..j];
            if polygons[j] == [] {
              assert PartsEntries(polygons[..j + 1]) == Err(IndexError);
              PartsPrefixError(polygons, j + 1);
              assert polygons[..|polygons|] == polygons;
              PathPrefixError(features, i + 1);
              return Err(IndexError);
            }
            ghost var added := pts[|before|..];
            pts := pts + Points(polygons[j][0]);
            pts := pts + [Break];
            assert pts[|before|..] == added + Points(polygons[j][0]) + [Break];
          }
          assert polygons[..|polygons|] == polygons;
          assert pts == before + pts[|before|..];
        case LineString(coords) =>
          pts := pts + Points(coords);
          pts := pts + [Break];
          assert pts == before + (Points(coords) + [Break]);
        case Other(_) =>
          assert pts == before + [];
      }
    }
    assert features[..|features|] == features;
    r := Unzip(pts);
  }

  lemma {:induction false} PartsPrefixError(polygons: seq<seq<seq<Position>>>, j: nat)
    requires j <= |polygons| && PartsEntries(polygons[..j]).Err?
    ensures PartsEntries(polygons) == PartsEntries(polygons[..j])
    decreases |polygons| - j
  {
    if j < |polygons| {
      assert polygons[..j + 1][..j] == polygons[..j];
      PartsPrefixError(polygons, j + 1);
    } else {
      assert polygons[..j] == polygons;
    }
  }

  // ---------------------------------------------------------------- what the path holds

  /** The exterior rings of the parts of a MultiPolygon (parts without rings are skipped). */
  function PartRings(polygons: seq<seq<seq<Position>>>): seq<seq<Position>>
  {
    if polygons == [] then []
    else
      var last := polygons[|polygons| - 1];
      PartRings(polygons[..|polygons| - 1]) + (if last == [] then [] else [last[0]])
  }

  /** The rings and lines a feature draws: a polygon's exterior ring, each part's, or the line. */
  function FeatureRings(g: Geometry): seq<seq<Position>>
  {
    match g
    case Polygon(rings) => if rings == [] then [] else [rings[0]]
    case MultiPolygon(polygons) => PartRings(polygons)
    case LineString(coords) => [coords]
    case Other(_) => []
  }

  /** The rings drawn for a feature collection, in feature order. */
  function DrawnRings(features: seq<Geometry>): seq<seq<Position>>
  {
    if features == [] then []
    else DrawnRings(features[..|features| - 1]) + FeatureRings(features[|features| - 1])
  }

  /** Each ring's positions followed by one break, ring after ring. */
  function Flatten(rings: seq<seq<Position>>): seq<Entry>
  {
    if rings == [] then []
    else Flatten(rings[..|rings| - 1]) + Points(rings[|rings| - 1]) + [Break]
  }

  function TotalLength(rings: seq<seq<Position>>): nat
  {
    if rings == [] then 0 else TotalLength(rings[..|rings| - 1]) + |rings[|rings| - 1]|
  }

  function BreakCount(pts: seq<Entry>): nat
  {
    if pts == [] then 0 else BreakCount(pts[..|pts| - 1]) + (if pts[|pts| - 1] == Break then 1 else 0)
  }

  lemma {:induction false} FlattenAppend(a: seq<seq<Position>>, b: seq<seq<Position>>)
    ensures Flatten(a + b) == Flatten(a) + Flatten(b)
    decreases |b|
  {
    if b == [] {
      assert a + b == a;
    } else {
      var n := |b| - 1;
      assert (a + b)[..|a + b| - 1] == a + b[..n];
      FlattenAppend(a, b[..n]);
    }
  }

  lemma {:induction false} PartsAreFlatten(polygons: seq<seq<seq<Position>>>)
    requires PartsEntries(polygons).Ok?
    ensures PartsEntries(polygons).value == Flatten(PartRings(polygons))
  {
    if polygons != [] {
      var front := polygons[..|polygons| - 1];
      var last := polygons[|polygons| - 1];
      PartsAreFlatten(front);
      FlattenAppend(PartRings(front), [last[0]]);
      assert [last[0]][..0] == [];
    }
  }

  /**
   * A walk that raises nothing collects, for each drawn ring in feature order, the ring's
   * positions followed by one `(None, None)` break.
   */
  lemma {:induction false} PathIsFlatten(features: seq<Geometry>)
    requires Path(features).Ok?
    ensures Path(features).value == Flatten(DrawnRings(features))
  {
    if features != [] {
      var front := features[..|features| - 1];
      var g := features[|features| - 1];
      PathIsFlatten(front);
      FlattenAppend(DrawnRings(front), FeatureRings(g));
      match g
      case Polygon(rings) =>
        assert [rings[0]][..0] == [];
      case MultiPolygon(polygons) =>
        PartsAreFlatten(polygons);
      case LineString(coords) =>
        assert [coords][..0] == [];
      case Other(_) =>
    }
  }

  /** The collected list holds one entry per drawn position plus one break per drawn ring. */
  lemma {:induction false} FlattenCounts(rings: seq<seq<Position>>)
    ensures |Flatten(rings)| == TotalLength(rings) + |rings|
    ensures BreakCount(Flatten(rings)) == |rings|
  {
    if rings != [] {
      var n := |rings| - 1;
      FlattenCounts(rings[..n]);
      assert Flatten(rings) == Flatten(rings[..n]) + (Points(rings[n]) + [Break]);
      BreakCountAppend(Flatten(rings[..n]), Points(rings[n]) + [Break]);
      PointsHaveNoBreak(rings[n]);
    }
  }

  lemma {:induction false} BreakCountAppend(a: seq<Entry>, b: seq<Entry>)
    ensures BreakCount(a + b) == BreakCount(a) + BreakCount(b)
    decreases |b|
  {
    if b == [] {
      assert a + b == a;
    } else {
      var n := |b| - 1;
      assert (a + b)[..|a + b| - 1] == a + b[..n];
      BreakCountAppend(a, b[..n]);
    }
  }

  lemma {:induction false} PointsHaveNoBreak(ps: seq<Position>)
    ensures BreakCount(Points(ps) + [Break]) == 1
  {
    var e := Points(ps) + [Break];
    assert e[..|e| - 1] == Points(ps);
    NoBreakCount(Points(ps));
  }

  lemma {:induction false} NoBreakCount(pts: seq<Entry>)
    requires forall i :: 0 <= i < |pts| ==> pts[i].Point?
    ensures BreakCount(pts) == 0
  {
    if pts != [] {
      NoBreakCount(pts[..|pts| - 1]);
    }
  }

  /** The entries of a flattened path are breaks and the positions of its rings, and nothing else. */
  lemma {:induction false} FlattenEntries(rings: seq<seq<Position>>)
    ensures rings != [] ==> Break in Flatten(rings)
    ensures forall e :: e in Flatten(rings) && e.Point? ==> exists r :: r in rings && e.pos in r
    ensures forall r, p :: r in rings && p in r ==> Point(p) in Flatten(rings)
  {
    if rings != [] {
      var n := |rings| - 1;
      var front := rings[..n];
      FlattenEntries(front);
      var f := Flatten(rings);
      assert f == Flatten(front) + Points(rings[n]) + [Break];
      assert f[|f| - 1] == Break;
      forall e | e in f && e.Point? ensures exists r :: r in rings && e.pos in r {
        assert e in Flatten(front) || e in Points(rings[n]) || e == Break;
        if e in Flatten(front) {
          var r :| r in front && e.pos in r;
          assert r in rings;
        } else {
          assert e in Points(rings[n]);
          var k :| 0 <= k < |rings[n]| && Points(rings[n])[k] == e;
          assert rings[n][k] == e.pos && rings[n][k] in rings[n] && rings[n] in rings;
        }
      }
      forall r, p | r in rings && p in r ensures Point(p) in f {
        if r in front {
          assert Point(p) in Flatten(front);
        } else {
          var k :| 0 <= k < |r| && r[k] == p;
          assert r == rings[n];
          assert Points(rings[n])[k] == Point(p);
        }
      }
    }
  }

  /**
   * A single Polygon whose exterior ring has N positions gives N + 1 longitudes and N + 1
   * latitudes: the ring's own, in order, and then the break.
   */
  lemma SinglePolygon(rings: seq<seq<Position>>)
    requires rings != []
    requires forall i :: 0 <= i < |rings[0]| ==> |rings[0][i]| >= 2
    ensures var b := BoundaryPaths([Polygon(rings)]);
      && b.Ok?
      && |b.value.0| == |rings[0]| + 1 && |b.value.1| == |rings[0]| + 1
      && (forall i :: 0 <= i < |rings[0]| ==>
            b.value.0[i] == Some(rings[0][i][0]) && b.value.1[i] == Some(rings[0][i][1]))
      && b.value.0[|rings[0]|] == None && b.value.1[|rings[0]|] == None
  {
    var fs := [Polygon(rings)];
    assert fs[..0] == [];
    var pts := Points(rings[0]) + [Break];
    assert Path(fs) == Ok([] + pts);
    assert [] + pts == pts;
    assert pts[|pts| - 1] == Break;
  }

  /** `zip(*pts)` unpacks into two when some entry holds two numbers and none holds fewer. */
  lemma UnzipCondition(pts: seq<Entry>)
    ensures Unzip(pts).Ok? <==>
      (exists i :: 0 <= i < |pts| && Width(pts[i]) == 2) &&
      (forall i :: 0 <= i < |pts| ==> Width(pts[i]) >= 2)
    ensures Unzip(pts).Err? ==> Unzip(pts).error == UnpackError
  {
  }

  /**
   * When no feature raises, `state_boundaries` succeeds exactly when at least one ring is drawn
   * and every drawn position has a longitude and a latitude; it fails otherwise, in particular
   * when nothing is drawn, because `zip(*[])` gives nothing to unpack.
   */
  lemma BoundariesOutcome(features: seq<Geometry>)
    requires Path(features).Ok?
    ensures BoundaryPaths(features).Ok? <==>
      DrawnRings(features) != [] &&
      forall r, p :: r in DrawnRings(features) && p in r ==> |p| >= 2
    ensures BoundaryPaths(features).Err? ==> BoundaryPaths(features).error == UnpackError
  {
    var rings := DrawnRings(features);
    var pts := Path(features).value;
    PathIsFlatten(features);
    FlattenEntries(rings);
    UnzipCondition(pts);
    if rings != [] && forall r, p :: r in rings && p in r ==> |p| >= 2 {
      WideWhenRingsWide(rings);
    }
    if Unzip(pts).Ok? {
      RingsWideWhenWide(rings);
    }
  }

  lemma WideWhenRingsWide(rings: seq<seq<Position>>)
    requires rings != [] && forall r, p :: r in rings && p in r ==> |p| >= 2
    ensures var pts := Flatten(rings);
      (exists i :: 0 <= i < |pts| && Width(pts[i]) == 2) &&
      (forall i :: 0 <= i < |pts| ==> Width(pts[i]) >= 2)
  {
    var pts := Flatten(rings);
    FlattenEntries(rings);
    var b :| 0 <= b < |pts| && pts[b] == Break;
    assert Width(pts[b]) == 2;
    forall i | 0 <= i < |pts| ensures Width(pts[i]) >= 2 {
      if pts[i].Point? {
        assert pts[i] in pts;
      }
    }
  }

  lemma RingsWideWhenWide(rings: seq<seq<Position>>)
    requires var pts := Flatten(rings);
      (exists i :: 0 <= i < |pts| && Width(pts[i]) == 2) &&
      (forall i :: 0 <= i < |pts| ==> Width(pts[i]) >= 2)
    ensures rings != [] && forall r, p :: r in rings && p in r ==> |p| >= 2
  {
    var pts := Flatten(rings);
    FlattenEntries(rings);
    forall r, p | r in rings && p in r ensures |p| >= 2 {
      var k :| 0 <= k < |pts| && pts[k] == Point(p);
      assert Width(pts[k]) >= 2;
    }
  }

  /** The two sequences are parallel: entry i of each comes from the same collected entry. */
  lemma UnzipPairs(pts: seq<Entry>)
    requires Unzip(pts).Ok?
    ensures var (lons, lats) := Unzip(pts).value;
      && |lons| == |pts| && |lats| == |pts|
      && forall i :: 0 <= i < |pts| ==>
           && (lons[i] == None <==> pts[i] == Break)
           && (lats[i] == None <==> pts[i] == Break)
           && (pts[i].Point? ==>
                 |pts[i].pos| >= 2 && lons[i] == Some(pts[i].pos[0]) && lats[i] == Some(pts[i].pos[1]))
  {
  }
}

/**
 * The bounding box of the GeoJSON district features (`calculateBounds` in
 * src/pages/Findings.jsx). Polygon and MultiPolygon coordinates follow
 * RFC 7946, sections 3.1.1 (positions), 3.1.6 (Polygon) and 3.1.7
 * (MultiPolygon).
 */
module Geo {
  import opened Wrappers

  /** A position, longitude first (section 3.1.1 of RFC 7946). */
  datatype Position = Position(lng: real, lat: real)

  /**
   * A coordinate array as the recursive walk sees it: an array whose first
   * entry is a number is a position, any other array holds nested arrays.
   */
  datatype Coords = Pos(lng: real, lat: real) | Nested(items: seq<Coords>)

  /** Only the two geometry types the walk reads; every other type is kept by name. */
  datatype Geometry =
    | Polygon(rings: seq<Coords>)
    | MultiPolygon(polygons: seq<seq<Coords>>)
    | OtherGeometry(kind: string)

  /** A feature; property values are strings and an absent key is `undefined`. */
  datatype Feature = Feature(geometry: Geometry, properties: map<string, string>)

  /**
   * The running box. `NoPositions` is the box before any position was seen,
   * which the source writes as min = +Infinity and max = -Infinity.
   */
  datatype Extent = NoPositions | Box(minLng: real, minLat: real, maxLng: real, maxLat: real)

  predicate Covers(e: Extent, p: Position)
  {
    e.Box? && e.minLng <= p.lng <= e.maxLng && e.minLat <= p.lat <= e.maxLat
  }

  /** One step of the walk: `min`/`max` of each bound with the position. */
  function Extend(e: Extent, p: Position): Extent
  {
    match e
    case NoPositions => Box(p.lng, p.lat, p.lng, p.lat)
    case Box(a, b, c, d) => Box(Min(a, p.lng), Min(b, p.lat), Max(c, p.lng), Max(d, p.lat))
  }

  /** The box after folding the positions `ps`, in order, into `e`. */
  function ExtendAll(e: Extent, ps: seq<Position>): Extent
  {
    if ps == [] then e else Extend(ExtendAll(e, ps[..|ps| - 1]), ps[|ps| - 1])
  }

  /** The positions a coordinate array holds, in the order the walk visits them. */
  function Positions(c: Coords): seq<Position>
    decreases c, 1
  {
    match c
    case Pos(lng, lat) => [Position(lng, lat)]
    case Nested(items) => PositionsOf(items)
  }

  function PositionsOf(cs: seq<Coords>): seq<Position>
    decreases cs, 0
  {
    if cs == [] then []
    else
      assert cs[|cs| - 1] in cs;
      PositionsOf(cs[..|cs| - 1]) + Positions(cs[|cs| - 1])
  }

  function PolygonsPositions(polygons: seq<seq<Coords>>): seq<Position>
  {
    if polygons == [] then []
    else PolygonsPositions(polygons[..|polygons| - 1]) + PositionsOf(polygons[|polygons| - 1])
  }

  /** Only Polygon and MultiPolygon geometries contribute positions. */
  function GeometryPositions(g: Geometry): seq<Position>
  {
    match g
    case Polygon(rings) => PositionsOf(rings)
    case MultiPolygon(polygons) => PolygonsPositions(polygons)
    case OtherGeometry(_) => []
  }

  function FeaturesPositions(fs: seq<Feature>): seq<Position>
  {
    if fs == [] then []
    else FeaturesPositions(fs[..|fs| - 1]) + GeometryPositions(fs[|fs| - 1].geometry)
  }

  /** The box `calculateBounds` returns for a non-empty feature list. */
  function BoundsOf(fs: seq<Feature>): Extent
  {
    ExtendAll(NoPositions, FeaturesPositions(fs))
  }

  // ---------------------------------------------------------------------------
  // Properties of the fold

  /** Folding a concatenation is folding its two halves one after the other. */
  lemma {:induction false} ExtendAllAppend(e: Extent, a: seq<Position>, b: seq<Position>)
    ensures ExtendAll(e, a + b) == ExtendAll(ExtendAll(e, a), b)
    decreases |b|
  {
    if b == [] {
      assert a + b == a;
    } else {
      var b' := b[..|b| - 1];
      assert (a + b)[..|a + b| - 1] == a + b';
      assert (a + b)[|a + b| - 1] == b[|b| - 1];
      ExtendAllAppend(e, a, b');
    }
  }

  /**
   * The fold never loses a position: the result covers whatever `e` covered
   * and every position in `ps`.
   */
  lemma {:induction false} ExtendAllCovers(e: Extent, ps: seq<Position>)
    ensures forall p :: Covers(e, p) ==> Covers(ExtendAll(e, ps), p)
    ensures forall i :: 0 <= i < |ps| ==> Covers(ExtendAll(e, ps), ps[i])
    decreases |ps|
  {
    if ps != [] {
      var init := ps[..|ps| - 1];
      ExtendAllCovers(e, init);
      forall i | 0 <= i < |ps|
        ensures Covers(ExtendAll(e, ps), ps[i])
      {
        if i < |ps| - 1 {
          assert ps[i] == init[i];
        }
      }
    }
  }

  /** The fold of a non-empty list gives a box, and only then. */
  lemma {:induction false} ExtendAllEmpty(ps: seq<Position>)
    ensures ExtendAll(NoPositions, ps) == NoPositions <==> ps == []
  {
    if ps != [] {
      var e := ExtendAll(NoPositions, ps[..|ps| - 1]);
      assert Extend(e, ps[|ps| - 1]).Box?;
    }
  }

  /**
   * The box is tight: each of its four bounds is the coordinate of some
   * position that was folded in.
   */
  lemma {:induction false} ExtendAllTight(ps: seq<Position>)
    requires ps != []
    ensures ExtendAll(NoPositions, ps).Box?
    ensures exists i :: 0 <= i < |ps| && ps[i].lng == ExtendAll(NoPositions, ps).minLng
    ensures exists i :: 0 <= i < |ps| && ps[i].lng == ExtendAll(NoPositions, ps).maxLng
    ensures exists i :: 0 <= i < |ps| && ps[i].lat == ExtendAll(NoPositions, ps).minLat
    ensures exists i :: 0 <= i < |ps| && ps[i].lat == ExtendAll(NoPositions, ps).maxLat
    decreases |ps|
  {
    var n := |ps| - 1;
    var init := ps[..n];
    if init != [] {
      ExtendAllTight(init);
      var e := ExtendAll(NoPositions, init);
      var i1 :| 0 <= i1 < |init| && init[i1].lng == e.minLng;
      var i2 :| 0 <= i2 < |init| && init[i2].lng == e.maxLng;
      var i3 :| 0 <= i3 < |init| && init[i3].lat == e.minLat;
      var i4 :| 0 <= i4 < |init| && init[i4].lat == e.maxLat;
      assert ps[i1] == init[i1] && ps[i2] == init[i2] && ps[i3] == init[i3] && ps[i4] == init[i4];
    } else {
      assert ExtendAll(NoPositions, init) == NoPositions;
    }
  }

  // ---------------------------------------------------------------------------
  // Properties of the walk over features

  lemma {:induction false} FeaturesPositionsAppend(a: seq<Feature>, b: seq<Feature>)
    ensures FeaturesPositions(a + b) == FeaturesPositions(a) + FeaturesPositions(b)
    decreases |b|
  {
    if b == [] {
      assert a + b == a;
    } else {
      var b', x := b[..|b| - 1], b[|b| - 1];
      assert (a + b)[..|a + b| - 1] == a + b';
      assert (a + b)[|a + b| - 1] == x;
      var g := GeometryPositions(x.geometry);
      assert FeaturesPositions(a + b) == FeaturesPositions(a + b') + g;
      assert FeaturesPositions(b) == FeaturesPositions(b') + g;
      FeaturesPositionsAppend(a, b');
    }
  }

  /**
   * A feature whose geometry is neither a Polygon nor a MultiPolygon leaves
   * the box as it is, wherever it stands in the list.
   */
  lemma OtherGeometryIgnored(a: seq<Feature>, f: Feature, b: seq<Feature>)
    requires f.geometry.OtherGeometry?
    ensures BoundsOf(a + [f] + b) == BoundsOf(a + b)
  {
    assert FeaturesPositions(a + [f]) == FeaturesPositions(a) by {
      assert (a + [f])[..|a|] == a;
    }
    FeaturesPositionsAppend(a + [f], b);
    FeaturesPositionsAppend(a, b);
  }

  /**
   * Every position of every Polygon or MultiPolygon feature lies inside the
   * box, and each bound of the box is attained by one of those positions.
   */
  lemma BoundsContainAndAreTight(fs: seq<Feature>)
    ensures forall i :: 0 <= i < |FeaturesPositions(fs)| ==> Covers(BoundsOf(fs), FeaturesPositions(fs)[i])
    ensures BoundsOf(fs) == NoPositions <==> FeaturesPositions(fs) == []
    ensures FeaturesPositions(fs) != [] ==>
      var ps, b := FeaturesPositions(fs), BoundsOf(fs);
      && (exists i :: 0 <= i < |ps| && ps[i].lng == b.minLng)
      && (exists i :: 0 <= i < |ps| && ps[i].lng == b.maxLng)
      && (exists i :: 0 <= i < |ps| && ps[i].lat == b.minLat)
      && (exists i :: 0 <= i < |ps| && ps[i].lat == b.maxLat)
  {
    var ps := FeaturesPositions(fs);
    ExtendAllCovers(NoPositions, ps);
    ExtendAllEmpty(ps);
    if ps != [] {
      ExtendAllTight(ps);
    }
  }

  // ---------------------------------------------------------------------------
  // The walk itself

  /** `processCoords`: a position updates the four bounds, an array recurses into each entry. */
  method ProcessCoords(c: Coords, e: Extent) returns (e': Extent)
    ensures e' == ExtendAll(e, Positions(c))
    decreases c
  {
    match c
    case Pos(lng, lat) =>
      e' := Extend(e, Position(lng, lat));
      assert [Position(lng, lat)][..0] == [];
    case Nested(items) =>
      e' := e;
      for k := 0 to |items|
        invariant e' == ExtendAll(e, PositionsOf(items[..k]))
      {
        assert items[k] in items;
        e' := ProcessCoords(items[k], e');
        assert items[..k + 1][..k] == items[..k];
        ExtendAllAppend(e, PositionsOf(items[..k]), Positions(items[k]));
      }
      assert items[..|items|] == items;
  }

  /**
   * `rings.forEach((ring) => processCoords(ring))`: the loop the source runs
   * over the rings of a Polygon and over the rings of each polygon of a
   * MultiPolygon.
   */
  method ProcessRings(rings: seq<Coords>, e: Extent) returns (e': Extent)
    ensures e' == ExtendAll(e, PositionsOf(rings))
  {
    e' := e;
    for j := 0 to |rings|
      invariant e' == ExtendAll(e, PositionsOf(rings[..j]))
    {
      e' := ProcessCoords(rings[j], e');
      assert rings[..j + 1][..j] == rings[..j];
      ExtendAllAppend(e, PositionsOf(rings[..j]), Positions(rings[j]));
    }
    assert rings[..|rings|] == rings;
  }

  /** Folds the positions of one geometry into `e`; other geometry types are skipped. */
  method ProcessGeometry(g: Geometry, e: Extent) returns (e': Extent)
    ensures e' == ExtendAll(e, GeometryPositions(g))
  {
    match g {
      case Polygon(rings) =>
        e' := ProcessRings(rings, e);
      case MultiPolygon(polygons) =>
        e' := e;
        for j := 0 to |polygons|
          invariant e' == ExtendAll(e, PolygonsPositions(polygons[..j]))
        {
          e' := ProcessRings(polygons[j], e');
          assert polygons[..j + 1][..j] == polygons[..j];
          ExtendAllAppend(e, PolygonsPositions(polygons[..j]), PositionsOf(polygons[j]));
        }
        assert polygons[..|polygons|] == polygons;
      case OtherGeometry(_) =>
        e' := e;
    }
  }

  /**
   * `calculateBounds`: `None` for a missing or empty feature list, otherwise
   * the box of all Polygon and MultiPolygon positions (`NoPositions` when
   * there are none).
   */
  method CalculateBounds(features: Option<seq<Feature>>) returns (r: Option<Extent>)
    ensures features.None? ==> r.None?
    ensures features.Some? && features.value == [] ==> r.None?
    ensures features.Some? && features.value != [] ==> r == Some(BoundsOf(features.value))
  {
    if features.None? || |features.value| == 0 {
      return None;
    }
    var fs := features.value;
    var e := NoPositions;
    for i := 0 to |fs|
      invariant e == ExtendAll(NoPositions, FeaturesPositions(fs[..i]))
    {
      ghost var done, g := FeaturesPositions(fs[..i]), GeometryPositions(fs[i].geometry);
      e := ProcessGeometry(fs[i].geometry, e);
      assert FeaturesPositions(fs[..i + 1]) == done + g by {
        assert fs[..i + 1][..i] == fs[..i];
      }
      ExtendAllAppend(NoPositions, done, g);
    }
    assert fs[..|fs|] == fs;
    r := Some(e);
  }
}

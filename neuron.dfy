/**
 * The soma classifier of neurom/core/neuron.py: the soma kind is chosen from the number of
 * soma points alone, and each kind derives one center and one radius from its points.
 * Euclidean distance is floating-point geometry and is a parameter `dist` here.
 */
module Neuron {
  import opened Wrappers
  import opened Seqs
  import opened DataFormat

  /** SOMA_TYPE: INVALID, A (one point), B (three points), C (any other count). */
  datatype SomaType = Invalid | A | B | C

  /** SOMA_TYPE.get_type: a lookup of the point count, with C as the default. */
  function GetType(npoints: nat): SomaType
  {
    if npoints == 0 then Invalid
    else if npoints == 1 then A
    else if npoints == 3 then B
    else if npoints == 2 then Invalid
    else C
  }

  /** A soma: its kind, the points it holds, and the center and radius derived from them. */
  datatype Soma = Soma(kind: SomaType, points: seq<Point>, center: (real, real, real), radius: real)

  function Xyz(p: Point): (real, real, real)
  {
    (p.x, p.y, p.z)
  }

  function Mean(s: seq<real>): real
    requires |s| > 0
  {
    Sum(s) / (|s| as real)
  }

  /** average_points_dist: the mean distance from p0 to each of the points. */
  function AveragePointsDist(dist: (Point, Point) -> real, p0: Point, pts: seq<Point>): real
    requires |pts| > 0
  {
    Mean(seq(|pts|, i requires 0 <= i < |pts| => dist(p0, pts[i])))
  }

  /** SomaA, SomaB and SomaC: the center is always the first point. */
  function SomaOf(kind: SomaType, dist: (Point, Point) -> real, points: seq<Point>): (s: Soma)
    requires kind != Invalid && |points| > 0
    requires kind == B ==> |points| >= 3
    requires kind == C ==> |points| >= 2
    ensures s.kind == kind && s.points == points && s.center == Xyz(points[0])
    ensures kind == A ==> s.radius == points[0].r
  {
    var r :=
      if kind == A then points[0].r
      else if kind == B then AveragePointsDist(dist, points[0], [points[1], points[2]])
      else AveragePointsDist(dist, points[0], points[1..]);
    Soma(kind, points, Xyz(points[0]), r)
  }

  /**
   * make_soma: SomaError when the point count names no soma kind (0 or 2 points); otherwise
   * the soma of the kind the count names.
   */
  function MakeSoma(dist: (Point, Point) -> real, points: seq<Point>): (r: Result<Soma>)
    ensures r.Err? <==> |points| == 0 || |points| == 2
    ensures r.Err? ==> r.error == SomaError
    ensures r.Ok? ==> r.value.points == points && r.value.center == Xyz(points[0])
    ensures r.Ok? ==> (r.value.kind == A <==> |points| == 1)
    ensures r.Ok? ==> (r.value.kind == B <==> |points| == 3)
    ensures r.Ok? ==> (r.value.kind == C <==> |points| > 3)
  {
    var kind := GetType(|points|);
    if kind == Invalid then Err(SomaError) else Ok(SomaOf(kind, dist, points))
  }

  /** A one-point soma has that point's radius. */
  lemma SomaARadius(dist: (Point, Point) -> real, p: Point)
    ensures MakeSoma(dist, [p]) == Ok(Soma(A, [p], (p.x, p.y, p.z), p.r))
  {
  }

  /** A three-point soma's radius is the mean distance from the first point to the other two. */
  lemma SomaBRadius(dist: (Point, Point) -> real, p0: Point, p1: Point, p2: Point)
    ensures MakeSoma(dist, [p0, p1, p2]).Ok?
    ensures MakeSoma(dist, [p0, p1, p2]).value.radius == (dist(p0, p1) + dist(p0, p2)) / 2.0
  {
    var ds := seq(2, i requires 0 <= i < 2 => dist(p0, [p1, p2][i]));
    assert ds == [dist(p0, p1), dist(p0, p2)];
    assert ds[1..] == [dist(p0, p2)] && ds[1..][1..] == [];
    assert Sum(ds) == dist(p0, p1) + (dist(p0, p2) + Sum([]));
  }

  /** The k-th distance of a point list is dist(p0, point k). */
  function Dists(dist: (Point, Point) -> real, p0: Point, pts: seq<Point>): (r: seq<real>)
    ensures |r| == |pts| && forall i :: 0 <= i < |pts| ==> r[i] == dist(p0, pts[i])
  {
    seq(|pts|, i requires 0 <= i < |pts| => dist(p0, pts[i]))
  }

  lemma {:induction false} SumNonNegative(s: seq<real>)
    requires forall i :: 0 <= i < |s| ==> s[i] >= 0.0
    ensures Sum(s) >= 0.0
  {
    if s != [] {
      SumNonNegative(s[1..]);
    }
  }

  /**
   * A soma with more than three points has, as its radius, the mean distance from its first
   * point to every other point.
   */
  lemma SomaCRadius(dist: (Point, Point) -> real, points: seq<Point>)
    requires |points| > 3
    ensures MakeSoma(dist, points).Ok?
    ensures MakeSoma(dist, points).value.radius ==
      Sum(Dists(dist, points[0], points[1..])) / ((|points| - 1) as real)
  {
    assert Dists(dist, points[0], points[1..]) ==
      seq(|points[1..]|, i requires 0 <= i < |points[1..]| => dist(points[0], points[1..][i]));
  }

  /** With a non-negative distance, and a non-negative radius column for one point, the radius is non-negative. */
  lemma SomaRadiusNonNegative(dist: (Point, Point) -> real, points: seq<Point>)
    requires MakeSoma(dist, points).Ok?
    requires forall p, q :: dist(p, q) >= 0.0
    requires |points| == 1 ==> points[0].r >= 0.0
    ensures MakeSoma(dist, points).value.radius >= 0.0
  {
    if |points| == 3 {
      SomaBRadius(dist, points[0], points[1], points[2]);
      assert points == [points[0], points[1], points[2]];
    } else if |points| > 3 {
      SomaCRadius(dist, points);
      SumNonNegative(Dists(dist, points[0], points[1..]));
    }
  }
}

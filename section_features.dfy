/**
 * The per-section features of neurom/features/sectionfunc.py. Point geometry is abstracted:
 * the distance between two points and the angle at three points are parameters, and a
 * section's length is the sum of the distances between its consecutive points.
 */
module SectionFeatures {
  import opened Wrappers
  import opened Seqs
  import opened Trees
  import opened DataFormat
  import opened Morphology

  /** point_dist, left uninterpreted. */
  type Dist = (Point, Point) -> real

  /** angle_3points, left uninterpreted. */
  type Angle = (Point, Point, Point) -> real

  // ---------------------------------------------------------------------------------------------
  // Lengths

  /**
   * interval_lengths (segment_lengths): the distance between each point and the next, after
   * a leading 0 when prepend_zero is set.
   */
  function SegmentLengths(pts: seq<Point>, dist: Dist, prependZero: bool): (r: seq<real>)
    ensures |r| == (if |pts| == 0 then 0 else |pts| - 1) + (if prependZero then 1 else 0)
    ensures prependZero ==> r[0] == 0.0
    ensures forall i :: 0 <= i < |pts| - 1 ==> r[i + (if prependZero then 1 else 0)] == dist(pts[i], pts[i + 1])
  {
    var gaps := seq(if |pts| == 0 then 0 else |pts| - 1, i requires 0 <= i < |pts| - 1 => dist(pts[i], pts[i + 1]));
    if prependZero then [0.0] + gaps else gaps
  }

  /** section_length: the path distance along the points. */
  function PathDistance(pts: seq<Point>, dist: Dist): real
  {
    Sum(SegmentLengths(pts, dist, false))
  }

  /** Section.length. */
  function Length(s: Section, dist: Dist): real
  {
    PathDistance(Data(s).points, dist)
  }

  /** The lengths of the sections at the given paths, in order. */
  function Lengths(tree: SecTree, ps: seq<Path>, dist: Dist): (r: seq<real>)
    ensures |r| == |ps| && forall i :: 0 <= i < |ps| ==> r[i] == Length(Section(tree, ps[i]), dist)
  {
    seq(|ps|, i requires 0 <= i < |ps| => Length(Section(tree, ps[i]), dist))
  }

  lemma LengthsConcat(tree: SecTree, a: seq<Path>, b: seq<Path>, dist: Dist)
    ensures Sum(Lengths(tree, a + b, dist)) == Sum(Lengths(tree, a, dist)) + Sum(Lengths(tree, b, dist))
  {
    assert Lengths(tree, a + b, dist) == Lengths(tree, a, dist) + Lengths(tree, b, dist);
    SumConcat(Lengths(tree, a, dist), Lengths(tree, b, dist));
  }

  /** Adding a point adds the distance from the last point to the new one. */
  lemma PathDistanceSnoc(pts: seq<Point>, p: Point, dist: Dist)
    requires |pts| > 0
    ensures PathDistance(pts + [p], dist) == PathDistance(pts, dist) + dist(pts[|pts| - 1], p)
  {
    var a := SegmentLengths(pts, dist, false);
    assert SegmentLengths(pts + [p], dist, false) == a + [dist(pts[|pts| - 1], p)];
    SumConcat(a, [dist(pts[|pts| - 1], p)]);
  }

  /** A metric: zero from a point to itself, symmetric, and obeying the triangle inequality. */
  ghost predicate Metric(dist: Dist)
  {
    (forall a :: dist(a, a) == 0.0) &&
    (forall a, b :: dist(a, b) == dist(b, a)) &&
    (forall a, b, c :: dist(a, c) <= dist(a, b) + dist(b, c))
  }

  /** Under a metric, the path along the points is at least as long as the straight line. */
  lemma {:induction false} ChordAtMostPath(pts: seq<Point>, k: nat, dist: Dist)
    requires Metric(dist) && k < |pts|
    ensures dist(pts[0], pts[k]) <= PathDistance(pts[..k + 1], dist)
  {
    if k == 0 {
      assert dist(pts[0], pts[0]) == 0.0;
      assert SegmentLengths(pts[..1], dist, false) == [];
    } else {
      ChordAtMostPath(pts, k - 1, dist);
      assert pts[..k + 1] == pts[..k] + [pts[k]];
      PathDistanceSnoc(pts[..k], pts[k], dist);
      assert dist(pts[0], pts[k]) <= dist(pts[0], pts[k - 1]) + dist(pts[k - 1], pts[k]);
    }
  }

  // ---------------------------------------------------------------------------------------------
  // section_path_length and downstream_pathlength

  /** section_path_length: the lengths of the section and of every section upstream of it. */
  function SectionPathLength(s: Section, dist: Dist): real
  {
    Sum(Lengths(s.tree, Upstream(s.path), dist))
  }

  /** A root's path length is its own length; any other section adds its parent's path length. */
  lemma SectionPathLengthStep(s: Section, dist: Dist)
    ensures IsRoot(s.path) ==> SectionPathLength(s, dist) == Length(s, dist)
    ensures !IsRoot(s.path) ==>
      SectionPathLength(s, dist) == Length(s, dist) + SectionPathLength(Section(s.tree, Parent(s.path)), dist)
  {
    if IsRoot(s.path) {
      assert Upstream(s.path) == [s.path];
      assert Lengths(s.tree, [s.path], dist) == [Length(s, dist)];
    } else {
      assert Upstream(s.path) == [s.path] + Upstream(Parent(s.path));
      LengthsConcat(s.tree, [s.path], Upstream(Parent(s.path)), dist);
      assert Lengths(s.tree, [s.path], dist) == [Length(s, dist)];
    }
  }

  /** downstream_pathlength: the lengths of the section and of every section below it. */
  function DownstreamPathlength(s: Section, dist: Dist): real
  {
    Sum(Lengths(s.tree, Walk(Sub(s.tree, s.path), s.path, PreOrder), dist))
  }

  /** The downstream path lengths of the children of the section at p, from the i-th on. */
  function ChildrenDownstream(tree: SecTree, p: Path, i: nat, dist: Dist): real
    requires ValidPath(tree, p)
    decreases |Sub(tree, p).children| - i
  {
    if i >= |Sub(tree, p).children| then 0.0
    else DownstreamPathlength(Section(tree, p + [i]), dist) + ChildrenDownstream(tree, p, i + 1, dist)
  }

  lemma {:induction false} KidsLength(tree: SecTree, p: Path, i: nat, dist: Dist)
    requires ValidPath(tree, p)
    ensures Sum(Lengths(tree, Kids(Sub(tree, p), p, PreOrder, i), dist)) == ChildrenDownstream(tree, p, i, dist)
    decreases |Sub(tree, p).children| - i
  {
    var t := Sub(tree, p);
    if i < |t.children| {
      KidsLength(tree, p, i + 1, dist);
      SubChild(tree, p, i);
      LengthsConcat(tree, Walk(t.children[i], p + [i], PreOrder), Kids(t, p, PreOrder, i + 1), dist);
    } else {
      assert Lengths(tree, [], dist) == [];
    }
  }

  /**
   * downstream_pathlength is the section's own length plus the downstream path lengths of its
   * children, so a leaf's is its own length.
   */
  lemma DownstreamStep(s: Section, dist: Dist)
    requires ValidPath(s.tree, s.path)
    ensures DownstreamPathlength(s, dist) == Length(s, dist) + ChildrenDownstream(s.tree, s.path, 0, dist)
    ensures IsLeaf(Sub(s.tree, s.path)) ==> DownstreamPathlength(s, dist) == Length(s, dist)
  {
    var t := Sub(s.tree, s.path);
    LengthsConcat(s.tree, [s.path], Kids(t, s.path, PreOrder, 0), dist);
    KidsLength(s.tree, s.path, 0, dist);
    assert Lengths(s.tree, [s.path], dist) == [Length(s, dist)];
  }

  // ---------------------------------------------------------------------------------------------
  // branch_order

  /** branch_order: the number of sections upstream, less one. */
  function BranchOrder(s: Section): (r: int)
    ensures r == |s.path|
    ensures r == 0 <==> IsRoot(s.path)
  {
    |Upstream(s.path)| - 1
  }

  /** A child's branch order is one more than its parent's. */
  lemma BranchOrderChild(s: Section, i: nat)
    ensures BranchOrder(Section(s.tree, s.path + [i])) == BranchOrder(s) + 1
    ensures Parent(s.path + [i]) == s.path
  {
  }

  // ---------------------------------------------------------------------------------------------
  // Guards on the number of points

  /**
   * section_end_distance: 0 for fewer than 2 points, otherwise the distance from the last
   * point to the first.
   */
  function SectionEndDistance(pts: seq<Point>, dist: Dist): (r: real)
    ensures |pts| < 2 ==> r == 0.0
    ensures |pts| >= 2 ==> r == dist(pts[|pts| - 1], pts[0])
  {
    if |pts| < 2 then 0.0 else dist(pts[|pts| - 1], pts[0])
  }

  /**
   * section_tortuosity: 1 for fewer than 2 points, otherwise the path length over the end
   * distance; a zero end distance makes numpy produce inf or nan, modelled as None.
   */
  function SectionTortuosity(pts: seq<Point>, dist: Dist): (r: Option<real>)
    ensures |pts| < 2 ==> r == Some(1.0)
    ensures |pts| >= 2 ==> (r.None? <==> SectionEndDistance(pts, dist) == 0.0)
  {
    if |pts| < 2 then Some(1.0)
    else
      var d := dist(pts[|pts| - 1], pts[0]);
      if d == 0.0 then None else Some(PathDistance(pts, dist) / d)
  }

  /** Tortuosity times end distance gives back the path length. */
  lemma TortuosityTimesEndDistance(pts: seq<Point>, dist: Dist)
    requires |pts| >= 2 && SectionTortuosity(pts, dist).Some?
    ensures SectionTortuosity(pts, dist).value * SectionEndDistance(pts, dist) == PathDistance(pts, dist)
  {
  }

  lemma RatioAtLeastOne(l: real, d: real)
    requires 0.0 < d <= l
    ensures l / d >= 1.0
  {
    assert l / d * d == l;
  }

  /** Under a metric, a section is never less tortuous than a straight line. */
  lemma TortuosityAtLeastOne(pts: seq<Point>, dist: Dist)
    requires Metric(dist) && SectionTortuosity(pts, dist).Some?
    ensures SectionTortuosity(pts, dist).value >= 1.0
  {
    if |pts| >= 2 {
      var n := |pts| - 1;
      ChordAtMostPath(pts, n, dist);
      assert pts[..n + 1] == pts;
      var d := dist(pts[n], pts[0]);
      assert d == dist(pts[0], pts[n]);
      assert 0.0 == dist(pts[n], pts[n]) <= d + dist(pts[0], pts[n]);
      RatioAtLeastOne(PathDistance(pts, dist), d);
    }
  }

  /** section_radial_distance: the distance from the last point to the origin; IndexError without points. */
  function SectionRadialDistance(pts: seq<Point>, origin: Point, dist: Dist): (r: Result<real>)
    ensures |pts| == 0 <==> r == Err(IndexError)
    ensures |pts| > 0 ==> r == Ok(dist(pts[|pts| - 1], origin))
  {
    if |pts| == 0 then Err(IndexError) else Ok(dist(pts[|pts| - 1], origin))
  }

  /**
   * section_meander_angles: one angle per inner point, at the point before it, between the
   * point two back and the point itself; none for fewer than three points.
   */
  function SectionMeanderAngles(pts: seq<Point>, angle: Angle): (r: seq<real>)
    ensures |r| == if |pts| < 2 then 0 else |pts| - 2
    ensures forall k :: 2 <= k < |pts| ==> r[k - 2] == angle(pts[k - 1], pts[k - 2], pts[k])
  {
    seq(if |pts| < 2 then 0 else |pts| - 2, i requires 0 <= i < |pts| - 2 => angle(pts[i + 1], pts[i], pts[i + 2]))
  }

  // ---------------------------------------------------------------------------------------------
  // strahler_order

  /** The largest element of a non-empty sequence. */
  function Max(s: seq<nat>): (m: nat)
    requires |s| > 0
    ensures m in s && forall i :: 0 <= i < |s| ==> s[i] <= m
  {
    if |s| == 1 then s[0]
    else
      var m := Max(s[1..]);
      assert forall i :: 1 <= i < |s| ==> s[i] == s[1..][i - 1];
      if s[0] >= m then s[0] else m
  }

  /**
   * any() over an iterator positioned at i: whether a true element remains, and the position
   * after the first true element (the end when there is none).
   */
  function AnyFrom(bs: seq<bool>, i: nat): (r: (bool, nat))
    requires i <= |bs|
    ensures i <= r.1 <= |bs|
    ensures r.0 <==> exists k :: i <= k < |bs| && bs[k]
    ensures r.0 ==> i < r.1 && bs[r.1 - 1] && forall k :: i <= k < r.1 - 1 ==> !bs[k]
    decreases |bs| - i
  {
    if i == |bs| then (false, i)
    else if bs[i] then (true, i + 1)
    else AnyFrom(bs, i + 1)
  }

  /** The iterator `co == max_so_children for co in child_orders`, as a sequence. */
  function AtMax(os: seq<nat>, m: nat): (r: seq<bool>)
    ensures |r| == |os| && forall i :: 0 <= i < |os| ==> (r[i] <==> os[i] == m)
  {
    seq(|os|, i requires 0 <= i < |os| => os[i] == m)
  }

  /** Two different children attain the order m. */
  predicate TwoAt(os: seq<nat>, m: nat)
  {
    exists i, j :: 0 <= i < j < |os| && os[i] == m && os[j] == m
  }

  /** Two calls of any() on one iterator over AtMax both succeed exactly when two elements equal m. */
  lemma SecondAny(os: seq<nat>, m: nat)
    ensures AnyFrom(AtMax(os, m), AnyFrom(AtMax(os, m), 0).1).0 <==> TwoAt(os, m)
  {
    var bs := AtMax(os, m);
    var first := AnyFrom(bs, 0);
    if AnyFrom(bs, first.1).0 {
      var j :| first.1 <= j < |bs| && bs[j];
      assert 0 <= first.1 - 1 < j && bs[first.1 - 1];
    } else {
      forall i, j | 0 <= i < j < |os| && os[i] == m
        ensures os[j] != m
      {
        assert bs[i] && j >= first.1;
      }
    }
  }

  /** The Strahler orders of the children, in order. */
  function ChildOrders<V>(t: Tree<V>): (r: seq<nat>)
    ensures |r| == |t.children| && forall i :: 0 <= i < |t.children| ==> r[i] == StrahlerOrder(t.children[i])
    decreases t, 0
  {
    seq(|t.children|, i requires 0 <= i < |t.children| => StrahlerOrder(t.children[i]))
  }

  /** strahler_order over a subtree: 1 for a leaf; the children's largest, plus one when a second child attains it. */
  function StrahlerOrder<V>(t: Tree<V>): (r: nat)
    ensures r >= 1
    decreases t, 1
  {
    if |t.children| == 0 then 1
    else
      var orders := ChildOrders(t);
      var m := Max(orders);
      var atMax := AtMax(orders, m);
      var first := AnyFrom(atMax, 0);
      if AnyFrom(atMax, first.1).0 then m + 1 else m
  }

  /** strahler_order of a section. */
  function SectionStrahlerOrder(s: Section): nat
  {
    StrahlerOrder(Sub(s.tree, s.path))
  }

  /**
   * The three rules of the Strahler number: a leaf has order 1; otherwise, with m the
   * largest order of a child, the order is m + 1 when two different children have order m
   * and m when only one does.
   */
  lemma StrahlerRules<V>(t: Tree<V>)
    ensures |t.children| == 0 ==> StrahlerOrder(t) == 1
    ensures |t.children| > 0 ==>
      var os := ChildOrders(t);
      var m := Max(os);
      m in os && (forall i :: 0 <= i < |os| ==> os[i] <= m) &&
      (StrahlerOrder(t) == m || StrahlerOrder(t) == m + 1) &&
      (StrahlerOrder(t) == m + 1 <==> TwoAt(os, m))
  {
    if |t.children| > 0 {
      SecondAny(ChildOrders(t), Max(ChildOrders(t)));
    }
  }

  /** A section's Strahler order is at least that of each of its children. */
  lemma StrahlerAtLeastChildren<V>(t: Tree<V>, i: nat)
    requires i < |t.children|
    ensures StrahlerOrder(t.children[i]) <= StrahlerOrder(t)
  {
    StrahlerRules(t);
  }
}

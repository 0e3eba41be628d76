/**
 * The bifurcation-point features of neurom/features/bifurcation.py: every one of them first
 * insists on exactly two children, then works on the two child subtrees.
 */
module Bifurcation {
  import opened Wrappers
  import opened Trees
  import opened DataFormat
  import opened Morphology
  import opened SectionFeatures

  /** The number of nodes of a tree. */
  function Size<V>(t: Tree<V>): (n: nat)
    ensures n >= 1
    decreases t, 1
  {
    1 + ChildrenSize(t, 0)
  }

  /** The number of nodes under the children of t from the i-th on. */
  function ChildrenSize<V>(t: Tree<V>, i: nat): nat
    decreases t, 0, |t.children| - i
  {
    if i >= |t.children| then 0 else Size(t.children[i]) + ChildrenSize(t, i + 1)
  }

  /** A depth-first walk visits every node once: its length is the tree's size, in either order. */
  lemma {:induction false} WalkSize<V>(t: Tree<V>, p: Path, o: Order)
    ensures |Walk(t, p, o)| == Size(t)
    decreases t, 1
  {
    KidsSize(t, p, o, 0);
  }

  lemma {:induction false} KidsSize<V>(t: Tree<V>, p: Path, o: Order, i: nat)
    ensures |Kids(t, p, o, i)| == ChildrenSize(t, i)
    decreases t, 0, |t.children| - i
  {
    if i < |t.children| {
      WalkSize(t.children[i], p + [i], o);
      KidsSize(t, p, o, i + 1);
    }
  }

  /** The i-th child of a section. */
  function Child(s: Section, i: nat): Section
  {
    Section(s.tree, s.path + [i])
  }

  function NumChildren(s: Section): nat
  {
    |Sub(s.tree, s.path).children|
  }

  /** _raise_if_not_bifurcation: NeuroMError unless the section has exactly two children. */
  function CheckBifurcation(s: Section): (r: Option<Exception>)
    ensures r.None? <==> NumChildren(s) == 2
    ensures r.Some? ==> r.value == NeuroMError
  {
    if NumChildren(s) != 2 then Some(NeuroMError) else None
  }

  /** iterator_type as a function from the start section to the sections it yields. */
  function Iterator(it: SectionIterator): Section -> seq<Section>
  {
    c => SectionsFrom(it, c)
  }

  /**
   * partition_pair: the number of sections the iterator visits from the first and from the
   * second child; IndexError when the section has fewer than two children.
   */
  function PartitionPair(s: Section, it: Section -> seq<Section>): (r: Result<(real, real)>)
    ensures r.Err? <==> NumChildren(s) < 2
    ensures r.Err? ==> r.error == IndexError
    ensures r.Ok? ==> r.value == (|it(Child(s, 0))| as real, |it(Child(s, 1))| as real)
  {
    if NumChildren(s) < 2 then Err(IndexError)
    else Ok((|it(Child(s, 0))| as real, |it(Child(s, 1))| as real))
  }

  /** With a depth-first iterator, the pair is the sizes of the two child subtrees. */
  lemma PartitionPairSizes(s: Section, o: Order)
    requires ValidPath(s.tree, s.path) && NumChildren(s) >= 2
    ensures var it := Iterator(if o == PreOrder then IPreorderIt else IPostorderIt);
      var t := Sub(s.tree, s.path);
      PartitionPair(s, it) == Ok((Size(t.children[0]) as real, Size(t.children[1]) as real))
  {
    var t := Sub(s.tree, s.path);
    SubChild(s.tree, s.path, 0);
    SubChild(s.tree, s.path, 1);
    WalkSize(t.children[0], s.path + [0], o);
    WalkSize(t.children[1], s.path + [1], o);
  }

  function MaxR(a: real, b: real): real { if a >= b then a else b }

  function MinR(a: real, b: real): real { if a <= b then a else b }

  function AbsR(a: real): real { if a < 0.0 then -a else a }

  /** A quotient of a non-negative number by a larger positive one lies between 0 and 1. */
  lemma RatioInUnit(lo: real, hi: real)
    requires 0.0 <= lo <= hi && hi > 0.0
    ensures 0.0 <= lo / hi <= 1.0
    ensures lo / hi == 0.0 <==> lo == 0.0
  {
    assert lo / hi * hi == lo;
  }

  /** The larger of two counts over the smaller; a zero count divides by zero. */
  function Partition(n: real, m: real): (r: Result<real>)
    ensures r.Err? <==> MinR(n, m) == 0.0
    ensures r.Err? ==> r.error == ZeroDivisionError
    ensures r.Ok? ==> r.value * MinR(n, m) == MaxR(n, m)
  {
    if MinR(n, m) == 0.0 then Err(ZeroDivisionError) else Ok(MaxR(n, m) / MinR(n, m))
  }

  /**
   * bifurcation_partition: NeuroMError unless two children; otherwise the larger count over
   * the smaller.
   */
  function BifurcationPartition(s: Section, it: Section -> seq<Section>): (r: Result<real>)
    ensures NumChildren(s) != 2 <==> r == Err(NeuroMError)
    ensures NumChildren(s) == 2 ==> r == Partition(PartitionPair(s, it).value.0, PartitionPair(s, it).value.1)
  {
    if NumChildren(s) != 2 then Err(NeuroMError)
    else Partition(PartitionPair(s, it).value.0, PartitionPair(s, it).value.1)
  }

  /** In preorder the partition is defined at every bifurcation and is at least 1. */
  lemma BifurcationPartitionAtLeastOne(s: Section)
    requires ValidPath(s.tree, s.path) && NumChildren(s) == 2
    ensures BifurcationPartition(s, Iterator(IPreorderIt)).Ok?
    ensures BifurcationPartition(s, Iterator(IPreorderIt)).value >= 1.0
  {
    PartitionPairSizes(s, PreOrder);
    var t := Sub(s.tree, s.path);
    var n, m := Size(t.children[0]) as real, Size(t.children[1]) as real;
    assert MinR(n, m) >= 1.0;
    RatioAtLeastOne(MaxR(n, m), MinR(n, m));
  }

  /**
   * The asymmetry of two counts: 0 when both are 1; otherwise |n - m| / |n + m - c| with
   * c = 2 for the Uylings variant and 0 otherwise; a zero denominator divides by zero.
   */
  function Asymmetry(n: real, m: real, uylings: bool): (r: Result<real>)
    ensures n == 1.0 && m == 1.0 ==> r == Ok(0.0)
    ensures var c := if uylings then 2.0 else 0.0;
      !(n == 1.0 && m == 1.0) ==> (r.Err? <==> n + m - c == 0.0) && (r.Ok? ==> r.value * AbsR(n + m - c) == AbsR(n - m))
    ensures r.Err? ==> r.error == ZeroDivisionError
  {
    if n == 1.0 && m == 1.0 then Ok(0.0)
    else
      var c := if uylings then 2.0 else 0.0;
      if AbsR(n + m - c) == 0.0 then Err(ZeroDivisionError) else Ok(AbsR(n - m) / AbsR(n + m - c))
  }

  /** partition_asymmetry: NeuroMError unless two children, then the asymmetry of the pair. */
  function PartitionAsymmetry(s: Section, uylings: bool, it: Section -> seq<Section>): (r: Result<real>)
    ensures NumChildren(s) != 2 <==> r == Err(NeuroMError)
    ensures NumChildren(s) == 2 ==> r == Asymmetry(PartitionPair(s, it).value.0, PartitionPair(s, it).value.1, uylings)
  {
    if NumChildren(s) != 2 then Err(NeuroMError)
    else Asymmetry(PartitionPair(s, it).value.0, PartitionPair(s, it).value.1, uylings)
  }

  /**
   * Two subtree sizes: both variants are defined, lie between 0 and 1, and are 0 exactly when
   * the sizes are equal.
   */
  lemma AsymmetryOfSizes(a: nat, b: nat, uylings: bool)
    requires a >= 1 && b >= 1
    ensures Asymmetry(a as real, b as real, uylings).Ok?
    ensures 0.0 <= Asymmetry(a as real, b as real, uylings).value <= 1.0
    ensures Asymmetry(a as real, b as real, uylings).value == 0.0 <==> a == b
  {
    var n, m := a as real, b as real;
    if !(n == 1.0 && m == 1.0) {
      var c := if uylings then 2.0 else 0.0;
      assert AbsR(n + m - c) > 0.0 && AbsR(n - m) <= AbsR(n + m - c);
      RatioInUnit(AbsR(n - m), AbsR(n + m - c));
    }
  }

  /**
   * In preorder both variants are defined at every bifurcation, lie between 0 and 1, and are 0
   * exactly when the two subtrees have the same size.
   */
  lemma PartitionAsymmetryBounds(s: Section, uylings: bool)
    requires ValidPath(s.tree, s.path) && NumChildren(s) == 2
    ensures PartitionAsymmetry(s, uylings, Iterator(IPreorderIt)).Ok?
    ensures 0.0 <= PartitionAsymmetry(s, uylings, Iterator(IPreorderIt)).value <= 1.0
    ensures var t := Sub(s.tree, s.path);
      PartitionAsymmetry(s, uylings, Iterator(IPreorderIt)).value == 0.0 <==> Size(t.children[0]) == Size(t.children[1])
  {
    PartitionPairSizes(s, PreOrder);
    var t := Sub(s.tree, s.path);
    AsymmetryOfSizes(Size(t.children[0]), Size(t.children[1]), uylings);
  }

  // ---------------------------------------------------------------------------------------------
  // sibling_ratio

  /** The method argument of sibling_ratio. */
  datatype RadiusMethod = First | Mean

  function ParseMethod(name: string): (r: Result<RadiusMethod>)
    ensures r.Ok? <==> name == "first" || name == "mean"
    ensures r.Err? ==> r.error == ValueError
    ensures name == "first" ==> r == Ok(First)
    ensures name == "mean" ==> r == Ok(Mean)
  {
    if name == "first" then Ok(First)
    else if name == "mean" then Ok(Mean)
    else Err(ValueError)
  }

  /** The radius a child contributes: its second point's, or section_mean_radius (a parameter). */
  function ChildRadius(c: Section, m: RadiusMethod, meanRadius: Section -> real): (r: Result<real>)
    ensures m == First ==> (r.Err? <==> |Data(c).points| < 2)
    ensures m == First && r.Ok? ==> r.value == Data(c).points[1].r
    ensures m == Mean ==> r == Ok(meanRadius(c))
    ensures r.Err? ==> r.error == IndexError
  {
    match m
    case First => if |Data(c).points| < 2 then Err(IndexError) else Ok(Data(c).points[1].r)
    case Mean => Ok(meanRadius(c))
  }

  /**
   * sibling_ratio: NeuroMError unless two children, then ValueError for a method other than
   * 'first' and 'mean'; otherwise the smaller child radius over the larger, None for the
   * numpy result of a division by zero.
   */
  function SiblingRatio(s: Section, name: string, meanRadius: Section -> real): (r: Result<Option<real>>)
    ensures NumChildren(s) != 2 ==> r == Err(NeuroMError)
    ensures NumChildren(s) == 2 && ParseMethod(name).Err? ==> r == Err(ValueError)
    ensures r.Ok? ==> NumChildren(s) == 2 && ParseMethod(name).Ok?
    ensures r.Ok? ==> var k := ParseMethod(name).value;
      var n := ChildRadius(Child(s, 0), k, meanRadius);
      var m := ChildRadius(Child(s, 1), k, meanRadius);
      n.Ok? && m.Ok? && (r.value.None? <==> MaxR(n.value, m.value) == 0.0) &&
      (r.value.Some? ==> r.value.value * MaxR(n.value, m.value) == MinR(n.value, m.value))
  {
    if NumChildren(s) != 2 then Err(NeuroMError)
    else match ParseMethod(name)
      case Err(e) => Err(e)
      case Ok(k) =>
        match ChildRadius(Child(s, 0), k, meanRadius)
        case Err(e) => Err(e)
        case Ok(n) =>
          match ChildRadius(Child(s, 1), k, meanRadius)
          case Err(e) => Err(e)
          case Ok(m) => if MaxR(n, m) == 0.0 then Ok(None) else Ok(Some(MinR(n, m) / MaxR(n, m)))
  }

  /** With non-negative radii the sibling ratio lies between 0 and 1. */
  lemma SiblingRatioBounds(s: Section, name: string, meanRadius: Section -> real)
    requires SiblingRatio(s, name, meanRadius).Ok? && SiblingRatio(s, name, meanRadius).value.Some?
    requires var k := ParseMethod(name).value;
      ChildRadius(Child(s, 0), k, meanRadius).Ok? && ChildRadius(Child(s, 1), k, meanRadius).Ok? &&
      ChildRadius(Child(s, 0), k, meanRadius).value >= 0.0 && ChildRadius(Child(s, 1), k, meanRadius).value >= 0.0
    ensures 0.0 <= SiblingRatio(s, name, meanRadius).value.value <= 1.0
  {
    var k := ParseMethod(name).value;
    var n := ChildRadius(Child(s, 0), k, meanRadius).value;
    var m := ChildRadius(Child(s, 1), k, meanRadius).value;
    var v := SiblingRatio(s, name, meanRadius).value.value;
    RatioInUnit(MinR(n, m), MaxR(n, m));
  }

  // ---------------------------------------------------------------------------------------------
  // skip_0_length and the bifurcation angles

  /** Two points at the same place: the X, Y and Z columns agree. */
  predicate SameXYZ(p: Point, q: Point)
  {
    p.x == q.x && p.y == q.y && p.z == q.z
  }

  /** The position of the first point from k on that is away from the first point, if any. */
  function MovedFrom(sec: seq<Point>, k: nat): (r: Option<nat>)
    requires 1 <= k <= |sec|
    ensures r.None? <==> forall j :: k <= j < |sec| ==> SameXYZ(sec[j], sec[0])
    ensures r.Some? ==> k <= r.value < |sec| && !SameXYZ(sec[r.value], sec[0])
    ensures r.Some? ==> forall j :: k <= j < r.value ==> SameXYZ(sec[j], sec[0])
    decreases |sec| - k
  {
    if k == |sec| then None
    else if !SameXYZ(sec[k], sec[0]) then Some(k)
    else MovedFrom(sec, k + 1)
  }

  /** What skip_0_length returns: the first point away from the first point, or else the second point. */
  function Skip0LengthSpec(sec: seq<Point>): (r: Result<Point>)
    ensures |sec| < 2 <==> r == Err(IndexError)
    ensures |sec| >= 2 && (forall j :: 1 <= j < |sec| ==> SameXYZ(sec[j], sec[0])) ==> r == Ok(sec[1])
    ensures |sec| >= 2 && (exists j :: 1 <= j < |sec| && !SameXYZ(sec[j], sec[0])) ==>
      exists k :: 1 <= k < |sec| && r == Ok(sec[k]) && !SameXYZ(sec[k], sec[0]) &&
        forall j :: 1 <= j < k ==> SameXYZ(sec[j], sec[0])
  {
    if |sec| < 2 then Err(IndexError)
    else match MovedFrom(sec, 1)
      case None => Ok(sec[1])
      case Some(k) => Ok(sec[k])
  }

  /** skip_0_length: scan the points after the first and stop at the first one that moved. */
  method Skip0Length(sec: seq<Point>) returns (r: Result<Point>)
    ensures r == Skip0LengthSpec(sec)
  {
    if |sec| < 2 {
      return Err(IndexError);
    }
    var p0 := sec[0];
    var cur := sec[1];
    var i := 0;
    while i < |sec| - 1
      invariant 0 <= i <= |sec| - 1
      invariant MovedFrom(sec, 1) == MovedFrom(sec, i + 1)
    {
      var p := sec[i + 1];
      if !SameXYZ(p, p0) {
        cur := sec[i + 1];
        break;
      }
      i := i + 1;
    }
    return Ok(cur);
  }

  /** The last point of a section, IndexError when it has none. */
  function LastPoint(s: Section): (r: Result<Point>)
    ensures r.Err? <==> |Data(s).points| == 0
    ensures r.Err? ==> r.error == IndexError
    ensures r.Ok? ==> r.value == Data(s).points[|Data(s).points| - 1]
  {
    var pts := Data(s).points;
    if |pts| == 0 then Err(IndexError) else Ok(pts[|pts| - 1])
  }

  /**
   * local_bifurcation_angle: NeuroMError unless two children; then the angle at the
   * section's last point towards the first moved point of each child.
   */
  function LocalBifurcationAngle(s: Section, angle: Angle): (r: Result<real>)
    ensures NumChildren(s) != 2 ==> r == Err(NeuroMError)
    ensures NumChildren(s) == 2 ==> (r.Err? <==>
      |Data(Child(s, 0)).points| < 2 || |Data(Child(s, 1)).points| < 2 || |Data(s).points| == 0)
    ensures r.Ok? ==> r.value == angle(LastPoint(s).value, Skip0LengthSpec(Data(Child(s, 0)).points).value,
                                       Skip0LengthSpec(Data(Child(s, 1)).points).value)
  {
    if NumChildren(s) != 2 then Err(NeuroMError)
    else match Skip0LengthSpec(Data(Child(s, 0)).points)
      case Err(e) => Err(e)
      case Ok(ch0) =>
        match Skip0LengthSpec(Data(Child(s, 1)).points)
        case Err(e) => Err(e)
        case Ok(ch1) =>
          match LastPoint(s)
          case Err(e) => Err(e)
          case Ok(p) => Ok(angle(p, ch0, ch1))
  }

  /**
   * remote_bifurcation_angle: NeuroMError unless two children; then the angle at the
   * section's last point towards the last points of the children.
   */
  function RemoteBifurcationAngle(s: Section, angle: Angle): (r: Result<real>)
    ensures NumChildren(s) != 2 ==> r == Err(NeuroMError)
    ensures NumChildren(s) == 2 ==> (r.Err? <==>
      LastPoint(s).Err? || LastPoint(Child(s, 0)).Err? || LastPoint(Child(s, 1)).Err?)
    ensures r.Ok? ==> r.value == angle(LastPoint(s).value, LastPoint(Child(s, 0)).value, LastPoint(Child(s, 1)).value)
  {
    if NumChildren(s) != 2 then Err(NeuroMError)
    else match LastPoint(s)
      case Err(e) => Err(e)
      case Ok(p) =>
        match LastPoint(Child(s, 0))
        case Err(e) => Err(e)
        case Ok(c0) =>
          match LastPoint(Child(s, 1))
          case Err(e) => Err(e)
          case Ok(c1) => Ok(angle(p, c0, c1))
  }
}

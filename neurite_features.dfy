/**
 * The neurite features of neurom/features/neurite.py: a section selection (_map_sections)
 * shared by the counting features, the radial distances, the partition asymmetry and the
 * segment path lengths.
 */
module NeuriteFeatures {
  import opened Wrappers
  import opened Seqs
  import opened Trees
  import opened Types
  import opened DataFormat
  import opened Morphology
  import opened SectionFeatures
  import opened Bifurcation

  // ---------------------------------------------------------------------------------------------
  // _map_sections

  /** tree_type_checker(section_type) applied to a section. */
  predicate IsType(st: NeuriteType, s: Section)
  {
    Accepts(Checker([Code(st)]), SecType(s))
  }

  /** The checker of one type accepts a section of that type, and anything for `all`. */
  lemma IsTypeIff(st: NeuriteType, s: Section)
    ensures IsType(st, s) <==> st == All || SecType(s) == st
  {
    if Code(SecType(s)) == Code(st) {
      CodeInjective(SecType(s), st);
    }
    if Code(All) == Code(st) {
      CodeInjective(All, st);
    }
  }

  /**
   * Whether _map_sections also asks for a homogeneous fork: a specific, non-composite type
   * with the bifurcation or forking iterator. is_composite_type is a parameter.
   */
  predicate HomogeneousForksOnly(it: SectionIterator, st: NeuriteType, isComposite: NeuriteType -> bool)
  {
    st != All && !isComposite(st) && (it == IBifurcationPointIt || it == IForkingPointIt)
  }

  function SectionFilter(it: SectionIterator, st: NeuriteType, isComposite: NeuriteType -> bool): Section -> bool
  {
    if HomogeneousForksOnly(it, st, isComposite) then
      (s: Section) => IsType(st, s) && IsHomogeneousPoint(Sub(s.tree, s.path))
    else
      (s: Section) => IsType(st, s)
  }

  /** The sections _map_sections applies its function to, in iterator order. */
  function MappedSections(n: Neurite, it: SectionIterator, st: NeuriteType, isComposite: NeuriteType -> bool): seq<Section>
  {
    Filter(SectionsFrom(it, n.root), SectionFilter(it, st, isComposite))
  }

  /** _map_sections: the function applied to each selected section. */
  function MapSections<T>(fun: Section -> T, n: Neurite, it: SectionIterator, st: NeuriteType,
                          isComposite: NeuriteType -> bool): (r: seq<T>)
    ensures |r| == |MappedSections(n, it, st, isComposite)|
    ensures forall i :: 0 <= i < |r| ==> r[i] == fun(MappedSections(n, it, st, isComposite)[i])
  {
    var ss := MappedSections(n, it, st, isComposite);
    seq(|ss|, i requires 0 <= i < |ss| => fun(ss[i]))
  }

  /**
   * A section is selected iff the iterator visits it and its type matches; with a specific,
   * non-composite type under the bifurcation or forking iterator it must also be a
   * homogeneous fork.
   */
  lemma MapSectionsMembers(n: Neurite, it: SectionIterator, st: NeuriteType, isComposite: NeuriteType -> bool, s: Section)
    ensures s in MappedSections(n, it, st, isComposite) <==>
      s in SectionsFrom(it, n.root) && (st == All || SecType(s) == st) &&
      (HomogeneousForksOnly(it, st, isComposite) ==> IsHomogeneousPoint(Sub(s.tree, s.path)))
  {
    IsTypeIff(st, s);
  }

  // ---------------------------------------------------------------------------------------------
  // Counting features

  /** number_of_sections: how many sections _map_sections selects. */
  function NumberOfSections(n: Neurite, it: SectionIterator, st: NeuriteType, isComposite: NeuriteType -> bool): (r: nat)
    ensures r == |MappedSections(n, it, st, isComposite)|
  {
    |MapSections((s: Section) => 1, n, it, st, isComposite)|
  }

  function NumberOfBifurcations(n: Neurite, st: NeuriteType, isComposite: NeuriteType -> bool): (r: nat)
    ensures r <= |IterPaths(IBifurcationPointIt, n.root)|
    ensures st == All ==> r == |IterPaths(IBifurcationPointIt, n.root)|
  {
    CountAllTypes(n, IBifurcationPointIt, isComposite);
    NumberOfSections(n, IBifurcationPointIt, st, isComposite)
  }

  function NumberOfForkingPoints(n: Neurite, st: NeuriteType, isComposite: NeuriteType -> bool): (r: nat)
    ensures r <= |IterPaths(IForkingPointIt, n.root)|
    ensures st == All ==> r == |IterPaths(IForkingPointIt, n.root)|
  {
    CountAllTypes(n, IForkingPointIt, isComposite);
    NumberOfSections(n, IForkingPointIt, st, isComposite)
  }

  function NumberOfLeaves(n: Neurite, st: NeuriteType, isComposite: NeuriteType -> bool): (r: nat)
    ensures r <= |IterPaths(ILeafIt, n.root)|
    ensures st == All ==> r == |IterPaths(ILeafIt, n.root)|
  {
    CountAllTypes(n, ILeafIt, isComposite);
    NumberOfSections(n, ILeafIt, st, isComposite)
  }

  /** Over every type nothing is filtered: each count is the length of its iterator. */
  lemma CountAllTypes(n: Neurite, it: SectionIterator, isComposite: NeuriteType -> bool)
    ensures NumberOfSections(n, it, All, isComposite) == |IterPaths(it, n.root)|
  {
    var ss := SectionsFrom(it, n.root);
    forall i | 0 <= i < |ss|
      ensures SectionFilter(it, All, isComposite)(ss[i])
    {
      IsTypeIff(All, ss[i]);
    }
    FilterAll(ss, SectionFilter(it, All, isComposite));
  }

  /**
   * Over every type, number_of_sections is the size of the neurite's tree and
   * number_of_bifurcations, number_of_forking_points and number_of_leaves count the sections
   * with 2, more than 1 and no children.
   */
  lemma CountsOfAllTypes(n: Neurite, isComposite: NeuriteType -> bool)
    requires ValidPath(n.root.tree, n.root.path)
    ensures NumberOfSections(n, IPreorderIt, All, isComposite) == Size(Sub(n.root.tree, n.root.path))
    ensures NumberOfBifurcations(n, All, isComposite) == |IBifurcationPoint(n.root.tree, n.root.path, PreOrder)|
    ensures NumberOfForkingPoints(n, All, isComposite) == |IForkingPoint(n.root.tree, n.root.path, PreOrder)|
    ensures NumberOfLeaves(n, All, isComposite) == |ILeaf(n.root.tree, n.root.path)|
  {
    CountAllTypes(n, IPreorderIt, isComposite);
    CountAllTypes(n, IBifurcationPointIt, isComposite);
    CountAllTypes(n, IForkingPointIt, isComposite);
    CountAllTypes(n, ILeafIt, isComposite);
    WalkSize(Sub(n.root.tree, n.root.path), n.root.path, PreOrder);
  }

  // ---------------------------------------------------------------------------------------------
  // Radial distances

  /** list(map(f, xs)) for an f that may raise: the first exception, or every value. */
  function Collect<T>(rs: seq<Result<T>>): (r: Result<seq<T>>)
    ensures r.Ok? <==> forall i :: 0 <= i < |rs| ==> rs[i].Ok?
    ensures r.Ok? ==> |r.value| == |rs| && forall i :: 0 <= i < |rs| ==> r.value[i] == rs[i].value
    ensures r.Err? ==> exists i :: 0 <= i < |rs| && rs[i] == Err(r.error) && forall j :: 0 <= j < i ==> rs[j].Ok?
  {
    if rs == [] then Ok([])
    else
      assert forall i :: 1 <= i < |rs| ==> rs[i] == rs[1..][i - 1];
      match rs[0]
      case Err(e) => Err(e)
      case Ok(v) =>
        match Collect(rs[1..])
        case Err(e) =>
          var i :| 0 <= i < |rs[1..]| && rs[1..][i] == Err(e) && forall j :: 0 <= j < i ==> rs[1..][j].Ok?;
          assert rs[i + 1] == Err(e);
          Err(e)
        case Ok(vs) => Ok([v] + vs)
  }

  /** The origin of the radial distances: the one given, or else the first point of the root section. */
  function Origin(n: Neurite, origin: Option<Point>): (r: Result<Point>)
    ensures origin.Some? ==> r == Ok(origin.value)
    ensures origin.None? ==> (r.Err? <==> |Data(n.root).points| == 0)
    ensures origin.None? && r.Ok? ==> r.value == Data(n.root).points[0]
    ensures r.Err? ==> r.error == IndexError
  {
    match origin
    case Some(o) => Ok(o)
    case None => if |Data(n.root).points| == 0 then Err(IndexError) else Ok(Data(n.root).points[0])
  }

  /** _radial_distances: section_radial_distance from the origin for every selected section. */
  function RadialDistances(n: Neurite, origin: Option<Point>, it: SectionIterator, st: NeuriteType,
                           isComposite: NeuriteType -> bool, dist: Dist): (r: Result<seq<real>>)
    ensures Origin(n, origin).Err? ==> r == Err(IndexError)
    ensures r.Ok? ==> Origin(n, origin).Ok? && |r.value| == |MappedSections(n, it, st, isComposite)|
    ensures r.Ok? ==> forall i :: 0 <= i < |r.value| ==>
      var pts := Data(MappedSections(n, it, st, isComposite)[i]).points;
      |pts| > 0 && r.value[i] == dist(pts[|pts| - 1], Origin(n, origin).value)
  {
    match Origin(n, origin)
    case Err(e) => Err(e)
    case Ok(o) => Collect(MapSections((s: Section) => SectionRadialDistance(Data(s).points, o, dist), n, it, st, isComposite))
  }

  /**
   * max_radial_distance: the largest radial distance of a selected leaf section, and 0.0
   * when no leaf section is selected.
   */
  function MaxRadialDistance(n: Neurite, origin: Option<Point>, st: NeuriteType,
                             isComposite: NeuriteType -> bool, dist: Dist): (r: Result<real>)
    ensures var ds := RadialDistances(n, origin, ILeafIt, st, isComposite, dist);
      (r.Err? <==> ds.Err?) && (r.Err? ==> r.error == ds.error) &&
      (r.Ok? && ds.value == [] ==> r.value == 0.0) &&
      (r.Ok? && ds.value != [] ==> r.value in ds.value && forall i :: 0 <= i < |ds.value| ==> ds.value[i] <= r.value)
  {
    match RadialDistances(n, origin, ILeafIt, st, isComposite, dist)
    case Err(e) => Err(e)
    case Ok(ds) => if ds == [] then Ok(0.0) else Ok(MaxReal(ds))
  }

  /** With no leaf section of the requested type, max_radial_distance is 0.0 for a given origin. */
  lemma MaxRadialDistanceNoLeaves(n: Neurite, o: Point, st: NeuriteType, isComposite: NeuriteType -> bool, dist: Dist)
    requires MappedSections(n, ILeafIt, st, isComposite) == []
    ensures MaxRadialDistance(n, Some(o), st, isComposite, dist) == Ok(0.0)
  {
  }

  // ---------------------------------------------------------------------------------------------
  // partition_asymmetry

  datatype AsymmetryVariant = BranchOrderVariant | LengthVariant

  function ParseVariant(v: string): (r: Result<AsymmetryVariant>)
    ensures r.Ok? <==> v == "branch-order" || v == "length"
    ensures r.Err? ==> r.error == ValueError
    ensures r.Ok? ==> (r.value == BranchOrderVariant <==> v == "branch-order")
  {
    if v == "branch-order" then Ok(BranchOrderVariant)
    else if v == "length" then Ok(LengthVariant)
    else Err(ValueError)
  }

  /** The method argument: true for 'uylings', false for 'petilla', ValueError otherwise. */
  function ParseUylings(m: string): (r: Result<bool>)
    ensures r.Ok? <==> m == "petilla" || m == "uylings"
    ensures r.Err? ==> r.error == ValueError
    ensures r.Ok? ==> (r.value <==> m == "uylings")
  {
    if m == "petilla" then Ok(false)
    else if m == "uylings" then Ok(true)
    else Err(ValueError)
  }

  /** filtered_iterator(is_type(section_type), ipreorder): the preorder sections of that type. */
  function TypeFilteredPreorder(st: NeuriteType): Section -> seq<Section>
  {
    c => Filter(SectionsFrom(IPreorderIt, c), (s: Section) => IsType(st, s))
  }

  /**
   * partition_asymmetry over a neurite: ValueError for an unknown variant, then for an unknown
   * method; otherwise bifurcation.partition_asymmetry with the type-filtered preorder
   * iterator at each selected bifurcation ('branch-order'), or downstream_pathlength_asymmetry,
   * a parameter here, at each of them ('length').
   */
  function NeuritePartitionAsymmetry(n: Neurite, variant: string, m: string, st: NeuriteType,
                                     isComposite: NeuriteType -> bool, lengthAsymmetry: Section -> Result<real>): (r: Result<seq<real>>)
    ensures ParseVariant(variant).Err? ==> r == Err(ValueError)
    ensures ParseVariant(variant).Ok? && ParseUylings(m).Err? ==> r == Err(ValueError)
    ensures ParseVariant(variant) == Ok(BranchOrderVariant) && ParseUylings(m).Ok? ==>
      r == Collect(MapSections((s: Section) => PartitionAsymmetry(s, ParseUylings(m).value, TypeFilteredPreorder(st)),
                               n, IBifurcationPointIt, st, isComposite))
    ensures ParseVariant(variant) == Ok(LengthVariant) && ParseUylings(m).Ok? ==>
      r == Collect(MapSections(lengthAsymmetry, n, IBifurcationPointIt, st, isComposite))
  {
    match ParseVariant(variant)
    case Err(e) => Err(e)
    case Ok(v) =>
      match ParseUylings(m)
      case Err(e) => Err(e)
      case Ok(uylings) =>
        if v == BranchOrderVariant then
          Collect(MapSections((s: Section) => PartitionAsymmetry(s, uylings, TypeFilteredPreorder(st)),
                              n, IBifurcationPointIt, st, isComposite))
        else Collect(MapSections(lengthAsymmetry, n, IBifurcationPointIt, st, isComposite))
  }

  /**
   * At a selected bifurcation each child passes the type filter itself: with `all` trivially,
   * otherwise because only homogeneous forks are selected.
   */
  lemma SelectedBifurcationChildren(n: Neurite, st: NeuriteType, isComposite: NeuriteType -> bool, s: Section, i: nat)
    requires ValidPath(n.root.tree, n.root.path) && !isComposite(st)
    requires s in MappedSections(n, IBifurcationPointIt, st, isComposite) && i < 2
    ensures ValidPath(s.tree, s.path) && NumChildren(s) == 2
    ensures |TypeFilteredPreorder(st)(Child(s, i))| >= 1
  {
    var tree := n.root.tree;
    MapSectionsMembers(n, IBifurcationPointIt, st, isComposite, s);
    var ps := IBifurcationPoint(tree, n.root.path, PreOrder);
    var k :| 0 <= k < |ps| && SectionsFrom(IBifurcationPointIt, n.root)[k] == s;
    assert s == Section(tree, ps[k]);
    FilteredIteratorMembers(tree, n.root.path, PreOrder, ps[k]);
    var t := Sub(tree, s.path);
    SubChild(tree, s.path, i);
    var c := Child(s, i);
    var walk := SectionsFrom(IPreorderIt, c);
    assert walk[0] == c;
    IsTypeIff(st, c);
    IsTypeIff(st, s);
    assert IsType(st, c) by {
      if st != All {
        assert IsHomogeneousPoint(t);
        assert SecType(c) == t.children[i].value.stype == t.value.stype == SecType(s);
      }
    }
  }

  /**
   * The branch-order partition asymmetry of a neurite never divides by zero for a
   * non-composite type: every value is defined and lies between 0 and 1.
   */
  lemma NeuritePartitionAsymmetryDefined(n: Neurite, m: string, st: NeuriteType,
                                         isComposite: NeuriteType -> bool, lengthAsymmetry: Section -> Result<real>)
    requires ValidPath(n.root.tree, n.root.path) && !isComposite(st)
    requires m == "petilla" || m == "uylings"
    ensures NeuritePartitionAsymmetry(n, "branch-order", m, st, isComposite, lengthAsymmetry).Ok?
    ensures var vs := NeuritePartitionAsymmetry(n, "branch-order", m, st, isComposite, lengthAsymmetry).value;
      forall i :: 0 <= i < |vs| ==> 0.0 <= vs[i] <= 1.0
  {
    var uylings := m == "uylings";
    var it := TypeFilteredPreorder(st);
    var f := (s: Section) => PartitionAsymmetry(s, uylings, it);
    var ss := MappedSections(n, IBifurcationPointIt, st, isComposite);
    var rs := MapSections(f, n, IBifurcationPointIt, st, isComposite);
    forall i | 0 <= i < |rs|
      ensures rs[i].Ok? && 0.0 <= rs[i].value <= 1.0
    {
      var s := ss[i];
      SelectedBifurcationChildren(n, st, isComposite, s, 0);
      SelectedBifurcationChildren(n, st, isComposite, s, 1);
      AsymmetryOfSizes(|it(Child(s, 0))|, |it(Child(s, 1))|, uylings);
    }
  }

  // ---------------------------------------------------------------------------------------------
  // segment_path_lengths

  /**
   * The path length from the neurite root (at path rp) to the start of the section at q:
   * 0 at the root, otherwise the parent's offset plus the parent's length.
   */
  function PathOffset(tree: SecTree, rp: Path, q: Path, dist: Dist): real
    decreases |q|
  {
    if |q| <= |rp| then 0.0
    else Length(Section(tree, Parent(q)), dist) + PathOffset(tree, rp, Parent(q), dist)
  }

  lemma PathOffsetStep(tree: SecTree, rp: Path, q: Path, dist: Dist)
    requires |q| > |rp|
    ensures PathOffset(tree, rp, q, dist) == Length(Section(tree, Parent(q)), dist) + PathOffset(tree, rp, Parent(q), dist)
  {
  }

  /** A whole neurite's offset of a section is the path length of its parent. */
  lemma {:induction false} PathOffsetIsParentPathLength(tree: SecTree, q: Path, dist: Dist)
    ensures q == [] ==> PathOffset(tree, [], q, dist) == 0.0
    ensures q != [] ==> PathOffset(tree, [], q, dist) == SectionPathLength(Section(tree, Parent(q)), dist)
    decreases |q|
  {
    if q != [] {
      var p := Parent(q);
      PathOffsetIsParentPathLength(tree, p, dist);
      SectionPathLengthStep(Section(tree, p), dist);
    }
  }

  /** np.cumsum: the running totals. */
  function CumSum(xs: seq<real>): (r: seq<real>)
    ensures |r| == |xs| && forall k :: 0 <= k < |xs| ==> r[k] == Sum(xs[..k + 1])
  {
    seq(|xs|, k requires 0 <= k < |xs| => Sum(xs[..k + 1]))
  }

  /** The running totals of a section's segment lengths, shifted by an offset. */
  function SegmentPathsFrom(off: real, s: Section, dist: Dist): (r: seq<real>)
    ensures var cs := CumSum(SegmentLengths(Data(s).points, dist, false));
      |r| == |cs| && forall k :: 0 <= k < |cs| ==> r[k] == off + cs[k]
  {
    var cs := CumSum(SegmentLengths(Data(s).points, dist, false));
    seq(|cs|, k requires 0 <= k < |cs| => off + cs[k])
  }

  /** pathlength[section.id] + np.cumsum(segment_lengths(section)): the path length to each segment end. */
  function SegmentPaths(tree: SecTree, rp: Path, q: Path, dist: Dist): (r: seq<real>)
    ensures var ls := SegmentLengths(Data(Section(tree, q)).points, dist, false);
      |r| == |ls| && forall k :: 0 <= k < |ls| ==> r[k] == PathOffset(tree, rp, q, dist) + Sum(ls[..k + 1])
  {
    SegmentPathsFrom(PathOffset(tree, rp, q, dist), Section(tree, q), dist)
  }

  /** In a whole neurite the value at a section's last point is that section's path length. */
  lemma SegmentPathsEnd(tree: SecTree, q: Path, dist: Dist)
    requires |Data(Section(tree, q)).points| >= 2
    ensures var vs := SegmentPaths(tree, [], q, dist);
      |vs| > 0 && vs[|vs| - 1] == SectionPathLength(Section(tree, q), dist)
  {
    var ls := SegmentLengths(Data(Section(tree, q)).points, dist, false);
    assert ls[..|ls|] == ls;
    PathOffsetIsParentPathLength(tree, q, dist);
    SectionPathLengthStep(Section(tree, q), dist);
  }

  /** The preorder walk of a neurite. */
  function Walked(n: Neurite): seq<Path>
  {
    Walk(Sub(n.root.tree, n.root.path), n.root.path, PreOrder)
  }

  predicate Selected(n: Neurite, q: Path, st: NeuriteType)
  {
    IsType(st, Section(n.root.tree, q))
  }

  /** The values of segment_path_lengths for the sections among the first i of the walk. */
  function SegmentPathLengthsUpTo(n: Neurite, st: NeuriteType, dist: Dist, i: nat): seq<real>
    requires i <= |Walked(n)|
  {
    if i == 0 then []
    else
      var q := Walked(n)[i - 1];
      SegmentPathLengthsUpTo(n, st, dist, i - 1) +
      (if Selected(n, q, st) then SegmentPaths(n.root.tree, n.root.path, q, dist) else [])
  }

  /**
   * segment_path_lengths as intended: for each section of the type, in preorder, the path
   * length from the neurite root to the end of each of its segments.
   */
  function SegmentPathLengths(n: Neurite, st: NeuriteType, dist: Dist): seq<real>
  {
    SegmentPathLengthsUpTo(n, st, dist, |Walked(n)|)
  }

  /** The function applied to each element. */
  function Apply<A, B>(g: A -> B, xs: seq<A>): (r: seq<B>)
    ensures |r| == |xs| && forall k :: 0 <= k < |xs| ==> r[k] == g(xs[k])
  {
    seq(|xs|, k requires 0 <= k < |xs| => g(xs[k]))
  }

  /** Filtering, mapping and flattening one more element of a prefix adds that element's list, if kept. */
  lemma FlattenApplyFilterStep<A, B>(xs: seq<A>, f: A -> bool, g: A -> seq<B>, i: nat)
    requires i < |xs|
    ensures Flatten(Apply(g, Filter(xs[..i + 1], f))) ==
      Flatten(Apply(g, Filter(xs[..i], f))) + (if f(xs[i]) then g(xs[i]) else [])
  {
    assert xs[..i + 1] == xs[..i] + [xs[i]];
    FilterConcat(xs[..i], [xs[i]], f);
    var a, b := Filter(xs[..i], f), Filter([xs[i]], f);
    assert [xs[i]][1..] == [];
    assert Apply(g, a + b) == Apply(g, a) + Apply(g, b);
    FlattenConcat(Apply(g, a), Apply(g, b));
    if f(xs[i]) {
      assert Apply(g, b) == [g(xs[i])];
      assert Flatten(Apply(g, b)) == g(xs[i]) + Flatten([]);
    } else {
      assert Apply(g, b) == [];
    }
  }

  /** The list of one section of the neurite. */
  function SectionSegmentPaths(n: Neurite, dist: Dist): Section -> seq<real>
  {
    (s: Section) => SegmentPaths(n.root.tree, n.root.path, s.path, dist)
  }

  lemma {:induction false} SegmentPathLengthsUpToMap(n: Neurite, st: NeuriteType, isComposite: NeuriteType -> bool, dist: Dist, i: nat)
    requires i <= |Walked(n)|
    ensures SegmentPathLengthsUpTo(n, st, dist, i) ==
      Flatten(Apply(SectionSegmentPaths(n, dist), Filter(SectionsFrom(IPreorderIt, n.root)[..i], SectionFilter(IPreorderIt, st, isComposite))))
  {
    var ss := SectionsFrom(IPreorderIt, n.root);
    var f := SectionFilter(IPreorderIt, st, isComposite);
    if i == 0 {
      assert ss[..0] == [];
    } else {
      SegmentPathLengthsUpToMap(n, st, isComposite, dist, i - 1);
      FlattenApplyFilterStep(ss, f, SectionSegmentPaths(n, dist), i - 1);
      assert ss[i - 1] == Section(n.root.tree, Walked(n)[i - 1]);
    }
  }

  /**
   * segment_path_lengths is _map_segments of the per-section lists: the lists of the sections
   * of the type, in preorder, one after the other.
   */
  lemma SegmentPathLengthsMap(n: Neurite, st: NeuriteType, isComposite: NeuriteType -> bool, dist: Dist)
    ensures SegmentPathLengths(n, st, dist) == Flatten(MapSections(SectionSegmentPaths(n, dist), n, IPreorderIt, st, isComposite))
  {
    var ss := SectionsFrom(IPreorderIt, n.root);
    SegmentPathLengthsUpToMap(n, st, isComposite, dist, |ss|);
    assert ss[..|ss|] == ss;
    assert MapSections(SectionSegmentPaths(n, dist), n, IPreorderIt, st, isComposite) ==
      Apply(SectionSegmentPaths(n, dist), MappedSections(n, IPreorderIt, st, isComposite));
  }

  lemma UpToStep(n: Neurite, st: NeuriteType, dist: Dist, i: nat)
    requires i < |Walked(n)|
    ensures var q := Walked(n)[i];
      SegmentPathLengthsUpTo(n, st, dist, i + 1) == SegmentPathLengthsUpTo(n, st, dist, i) +
        (if Selected(n, q, st) then SegmentPathsFrom(PathOffset(n.root.tree, n.root.path, q, dist), Section(n.root.tree, q), dist) else [])
  {
  }

  /** A selected section other than the root whose parent is not selected. */
  predicate Orphan(n: Neurite, st: NeuriteType, q: Path)
  {
    Selected(n, q, st) && q != n.root.path && q != [] && !Selected(n, Parent(q), st)
  }

  predicate HasOrphan(n: Neurite, st: NeuriteType)
  {
    exists j :: 0 <= j < |Walked(n)| && Orphan(n, st, Walked(n)[j])
  }

  /** A non-root node of the walk has its parent earlier in the walk. */
  lemma ParentEarlier(n: Neurite, i: nat)
    requires ValidPath(n.root.tree, n.root.path) && i < |Walked(n)| && Walked(n)[i] != n.root.path
    ensures |Walked(n)[i]| > |n.root.path| && Walked(n)[i] != []
    ensures exists a :: 0 <= a < i && Walked(n)[a] == Parent(Walked(n)[i])
  {
    var tree, rp, w := n.root.tree, n.root.path, Walked(n);
    var q := w[i];
    WalkMembersAt(tree, rp, PreOrder, q);
    assert |q| > |rp|;
    var p := Parent(q);
    ParentValid(tree, q);
    assert p[..|rp|] == q[..|rp|];
    WalkMembersAt(tree, rp, PreOrder, p);
    var a :| 0 <= a < |w| && w[a] == p;
    WalkAncestorOrder(Sub(tree, rp), rp, PreOrder, a, i);
  }

  /** Every memo entry is the offset of a selected section whose parent is selected too. */
  ghost predicate MemoSound(n: Neurite, st: NeuriteType, dist: Dist, memo: map<Path, real>)
  {
    forall q :: q in memo ==>
      memo[q] == PathOffset(n.root.tree, n.root.path, q, dist) && Selected(n, q, st) && !Orphan(n, st, q)
  }

  /** Every selected section among the first i of the walk has its memo entry. */
  ghost predicate MemoCovers(n: Neurite, st: NeuriteType, memo: map<Path, real>, i: nat)
    requires i <= |Walked(n)|
  {
    forall j :: 0 <= j < i && Selected(n, Walked(n)[j], st) ==> Walked(n)[j] in memo
  }

  ghost predicate NoOrphanBefore(n: Neurite, st: NeuriteType, i: nat)
    requires i <= |Walked(n)|
  {
    forall j :: 0 <= j < i ==> !Orphan(n, st, Walked(n)[j])
  }

  lemma MemoInsert(n: Neurite, st: NeuriteType, dist: Dist, memo: map<Path, real>, q: Path, off: real)
    requires MemoSound(n, st, dist, memo)
    requires Selected(n, q, st) && (q == n.root.path || (q != [] && Parent(q) in memo))
    requires off == PathOffset(n.root.tree, n.root.path, q, dist)
    ensures MemoSound(n, st, dist, memo[q := off])
  {
  }

  lemma MemoAdvance(n: Neurite, st: NeuriteType, dist: Dist, memo: map<Path, real>, memo': map<Path, real>, i: nat)
    requires i < |Walked(n)|
    requires MemoCovers(n, st, memo, i) && NoOrphanBefore(n, st, i) && MemoSound(n, st, dist, memo')
    requires forall k :: k in memo ==> k in memo'
    requires Selected(n, Walked(n)[i], st) ==> Walked(n)[i] in memo'
    ensures MemoCovers(n, st, memo', i + 1) && NoOrphanBefore(n, st, i + 1)
  {
  }

  /**
   * segment_path_lengths as written: a memo from section to offset is filled in walk order,
   * and a section whose parent was never selected raises KeyError at `pathlength[parent]`.
   * The memo is keyed by section rather than by section id.
   */
  method SegmentPathLengthsMemo(n: Neurite, st: NeuriteType, dist: Dist) returns (r: Result<seq<real>>)
    requires ValidPath(n.root.tree, n.root.path)
    ensures r.Err? <==> HasOrphan(n, st)
    ensures r.Err? ==> r.error == KeyError
    ensures r.Ok? ==> r.value == SegmentPathLengths(n, st, dist)
  {
    var w := Walked(n);
    var memo: map<Path, real> := map[];
    var out: seq<real> := [];
    var i := 0;
    while i < |w|
      invariant 0 <= i <= |w|
      invariant MemoInvariant(n, st, dist, memo, out, i)
    {
      var ok;
      ok, memo, out := MemoStep(n, st, dist, memo, out, i);
      if !ok {
        assert 0 <= i < |w| && Orphan(n, st, w[i]);
        return Err(KeyError);
      }
      i := i + 1;
    }
    assert NoOrphanBefore(n, st, |w|);
    r := Ok(out);
  }

  /** The state of segment_path_lengths after the first i sections of the walk. */
  ghost predicate MemoInvariant(n: Neurite, st: NeuriteType, dist: Dist, memo: map<Path, real>, out: seq<real>, i: nat)
    requires i <= |Walked(n)|
  {
    MemoSound(n, st, dist, memo) && MemoCovers(n, st, memo, i) && NoOrphanBefore(n, st, i) &&
    out == SegmentPathLengthsUpTo(n, st, dist, i)
  }

  /** One section of the walk: look its offset up in the memo, or compute and store it. */
  method MemoStep(n: Neurite, st: NeuriteType, dist: Dist, memo: map<Path, real>, out: seq<real>, i: nat)
    returns (ok: bool, memo': map<Path, real>, out': seq<real>)
    requires ValidPath(n.root.tree, n.root.path) && i < |Walked(n)|
    requires MemoInvariant(n, st, dist, memo, out, i)
    ensures !ok ==> Orphan(n, st, Walked(n)[i])
    ensures ok ==> MemoInvariant(n, st, dist, memo', out', i + 1)
  {
    var tree, rp := n.root.tree, n.root.path;
    var q := Walked(n)[i];
    memo', out', ok := memo, out, true;
    UpToStep(n, st, dist, i);
    if Selected(n, q, st) {
      if q !in memo {
        if q == rp {
          MemoInsert(n, st, dist, memo, q, 0.0);
          memo' := memo[q := 0.0];
        } else {
          ParentEarlier(n, i);
          var p := Parent(q);
          if p !in memo {
            return false, memo, out;
          }
          var off := Length(Section(tree, p), dist) + memo[p];
          PathOffsetStep(tree, rp, q, dist);
          MemoInsert(n, st, dist, memo, q, off);
          memo' := memo[q := off];
        }
      }
      out' := out + SegmentPathsFrom(memo'[q], Section(tree, q), dist);
    }
    MemoAdvance(n, st, dist, memo, memo', i);
  }

  /** A basal root section with an axon child. */
  function MixedNeurite(a: Point, b: Point): Neurite
  {
    Neurite(Section(Node(SectionData(0, BasalDendrite, [a, b]), [Node(SectionData(1, Axon, [b, a]), [])]), []))
  }

  /** The two sections of MixedNeurite in walk order, and the parent of the second. */
  lemma MixedNeuriteShape(a: Point, b: Point)
    ensures Walked(MixedNeurite(a, b)) == [[], [0]]
    ensures Sub(MixedNeurite(a, b).root.tree, [0]) == MixedNeurite(a, b).root.tree.children[0]
    ensures Sub(MixedNeurite(a, b).root.tree, []) == MixedNeurite(a, b).root.tree
  {
    var tree := MixedNeurite(a, b).root.tree;
    var child := tree.children[0];
    assert Kids(child, [0], PreOrder, 0) == [];
    assert Walk(child, [0], PreOrder) == [[0]];
    assert Kids(tree, [], PreOrder, 1) == [];
    assert [] + [0] == [0];
    assert Kids(tree, [], PreOrder, 0) == Walk(child, [0], PreOrder) + [];
  }

  /** The intended values on MixedNeurite: the root's length plus the axon's one segment. */
  lemma MixedNeuriteLengths(a: Point, b: Point, dist: Dist)
    ensures Length(Section(MixedNeurite(a, b).root.tree, []), dist) == dist(a, b)
    ensures SegmentLengths([b, a], dist, false) == [dist(b, a)]
  {
    var root := SegmentLengths([a, b], dist, false);
    assert root == [dist(a, b)];
    assert Sum(root) == dist(a, b) + Sum([]);
  }

  /**
   * On a basal root with an axon child, segment_path_lengths restricted to axons finds the
   * axon section's parent missing from the memo, hence KeyError, while the intended values
   * are the root's length plus the axon's one segment.
   */
  lemma MixedNeuriteOrphan(a: Point, b: Point, dist: Dist)
    ensures HasOrphan(MixedNeurite(a, b), Axon)
    ensures SegmentPathLengths(MixedNeurite(a, b), Axon, dist) == [dist(a, b) + dist(b, a)]
  {
    var n := MixedNeurite(a, b);
    var tree := n.root.tree;
    MixedNeuriteShape(a, b);
    var w := Walked(n);
    assert Parent([0]) == [];
    IsTypeIff(Axon, Section(tree, [0]));
    IsTypeIff(Axon, Section(tree, []));
    assert Orphan(n, Axon, w[1]);
    assert SegmentPathLengthsUpTo(n, Axon, dist, 1) == [];
    MixedNeuriteLengths(a, b, dist);
    assert PathOffset(tree, [], [0], dist) == dist(a, b) + PathOffset(tree, [], [], dist);
    var own := SegmentLengths([b, a], dist, false);
    assert own[..1] == own;
    assert Sum(own) == dist(b, a) + Sum([]);
  }
}

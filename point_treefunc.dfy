/**
 * The tree functions of neurom/point_neurite/treefunc.py over point trees: branch order,
 * the counts of sections, segments, bifurcations and leaves, the partition at each
 * bifurcation, the trunk section length, the path length to the root, and the comparison
 * of two trees. A tree node is addressed by its path from the root, as in the point-tree
 * iterators; the distance between two points is a parameter.
 */
module PointTreeFunc {
  import opened Wrappers
  import opened Seqs
  import opened Trees
  import opened PointTrees
  import opened DataFormat
  import SectionFeatures

  type Dist = (Point, Point) -> real

  ghost predicate NonNegative(dist: Dist)
  {
    forall a: Point, b: Point :: dist(a, b) >= 0.0
  }

  // ---------------------------------------------------------------------------------------------
  // path_length

  /** The length of the path from a node up to the root: the sum of the segments on the way. */
  function UpstreamLength(root: Tree<Point>, q: Path, dist: Dist): real
    decreases |q|
  {
    if q == [] then 0.0 else UpstreamLength(root, Parent(q), dist) + dist(Sub(root, Parent(q)).value, Sub(root, q).value)
  }

  /** path_length: collect each parent-to-node segment length while climbing, then sum them. */
  method PathLength(root: Tree<Point>, q: Path, dist: Dist) returns (r: real)
    ensures r == UpstreamLength(root, q, dist)
  {
    var t := q;
    var l2: seq<real> := [];
    while t != []
      invariant |t| <= |q|
      invariant Sum(l2) + UpstreamLength(root, t, dist) == UpstreamLength(root, q, dist)
      decreases |t|
    {
      var seg := dist(Sub(root, Parent(t)).value, Sub(root, t).value);
      SumConcat(l2, [seg]);
      assert Sum([seg]) == seg + Sum([]);
      l2 := l2 + [seg];
      t := Parent(t);
    }
    r := Sum(l2);
  }

  /** With non-negative distances, the path length is never negative. */
  lemma {:induction false} UpstreamLengthNonNegative(root: Tree<Point>, q: Path, dist: Dist)
    requires NonNegative(dist)
    ensures UpstreamLength(root, q, dist) >= 0.0
    decreases |q|
  {
    if q != [] {
      UpstreamLengthNonNegative(root, Parent(q), dist);
      assert dist(Sub(root, Parent(q)).value, Sub(root, q).value) >= 0.0;
    }
  }

  /** With non-negative distances, a node is never closer to the root than any of its ancestors. */
  lemma {:induction false} UpstreamLengthMonotone(root: Tree<Point>, a: Path, b: Path, dist: Dist)
    requires NonNegative(dist) && InSubtree(a, b)
    ensures UpstreamLength(root, a, dist) <= UpstreamLength(root, b, dist)
    decreases |b|
  {
    if |b| > |a| {
      assert Parent(b)[..|a|] == a;
      UpstreamLengthMonotone(root, a, Parent(b), dist);
      assert dist(Sub(root, Parent(b)).value, Sub(root, b).value) >= 0.0;
    } else {
      assert a == b;
    }
  }

  // ---------------------------------------------------------------------------------------------
  // branch_order

  /** The test of iforking_point, as a function of the node's path. */
  function ForkTest(root: Tree<Point>): Path -> bool
  {
    q => IsForkingPoint(Sub(root, q))
  }

  function ForkingPointsOf(root: Tree<Point>, ps: seq<Path>): seq<Path>
  {
    Filter(ps, ForkTest(root))
  }

  /** Filtering one node and then more: the count grows by one exactly for a forking node. */
  lemma ForkingPointsCons(root: Tree<Point>, node: Path, ps: seq<Path>)
    ensures |ForkingPointsOf(root, [node] + ps)| ==
      (if IsForkingPoint(Sub(root, node)) then 1 else 0) + |ForkingPointsOf(root, ps)|
  {
    var f := ForkTest(root);
    assert ([node] + ps)[0] == node && ([node] + ps)[1..] == ps;
  }

  /**
   * branch_order: the forking points upstream of the section's last node, the node itself
   * included, less one when the node itself forks; IndexError for an empty section.
   */
  function BranchOrder(root: Tree<Point>, sec: seq<Path>): (r: Result<int>)
    ensures r.Err? <==> sec == []
    ensures r.Err? ==> r.error == IndexError
  {
    if sec == [] then Err(IndexError)
    else
      var node := sec[|sec| - 1];
      var bo := |ForkingPointsOf(root, Upstream(node))|;
      Ok(if IsForkingPoint(Sub(root, node)) then bo - 1 else bo)
  }

  /** The branch order of a section is the number of proper ancestors of its last node that fork. */
  lemma BranchOrderCountsAncestors(root: Tree<Point>, sec: seq<Path>)
    requires sec != [] && sec[|sec| - 1] != []
    ensures BranchOrder(root, sec) == Ok(|ForkingPointsOf(root, Upstream(Parent(sec[|sec| - 1])))|)
  {
    var node := sec[|sec| - 1];
    assert Upstream(node) == [node] + Upstream(Parent(node));
    ForkingPointsCons(root, node, Upstream(Parent(node)));
  }

  /** The root section ends at the root; no forking point lies above it, so its order is 0. */
  lemma BranchOrderNonNegative(root: Tree<Point>, sec: seq<Path>)
    requires sec != []
    ensures BranchOrder(root, sec).value >= 0
  {
    var node := sec[|sec| - 1];
    if node != [] {
      BranchOrderCountsAncestors(root, sec);
    } else {
      assert Upstream(node) == [node] + [];
      ForkingPointsCons(root, node, []);
    }
  }

  /** The first level has branch order 1: below a forking root, each child's section has order 1. */
  lemma BranchOrderFirstLevel(v: Point, a: Point, b: Point)
    ensures BranchOrder(Node(v, [Node(a, []), Node(b, [])]), [[], [0]]) == Ok(1)
  {
    var root := Node(v, [Node(a, []), Node(b, [])]);
    var sec: seq<Path> := [[], [0]];
    assert Sub(root, [0]) == Node(a, []);
    assert Sub(root, []) == root;
    BranchOrderCountsAncestors(root, sec);
    assert Parent([0]) == [];
    var e: Path := [];
    assert Upstream(e) == [e] + [];
    ForkingPointsCons(root, e, []);
  }

  // ---------------------------------------------------------------------------------------------
  // n_sections, n_segments, n_bifurcations, n_terminations

  function NSections(root: Tree<Point>, p: Path): nat
  {
    |ISection(root, p, PreorderMode)|
  }

  function NSegments(root: Tree<Point>, p: Path): nat
  {
    |ISegment(root, p, PreorderMode)|
  }

  /** ibifurcation_point: the nodes with exactly two children, in preorder. */
  function IBifurcations(root: Tree<Point>, p: Path): seq<Path>
  {
    PreorderWhere(root, p, q => |Sub(root, q).children| == 2)
  }

  function NBifurcations(root: Tree<Point>, p: Path): nat
  {
    |IBifurcations(root, p)|
  }

  function NTerminations(root: Tree<Point>, p: Path): nat
  {
    |IterLeaf(root, p)|
  }

  /** Counting the elements that pass one of two exclusive tests adds the two counts. */
  lemma {:induction false} FilterSplitCount<T>(s: seq<T>, f: T -> bool, g: T -> bool, h: T -> bool)
    requires forall i :: 0 <= i < |s| ==> (h(s[i]) <==> f(s[i]) || g(s[i])) && !(f(s[i]) && g(s[i]))
    ensures |Filter(s, h)| == |Filter(s, f)| + |Filter(s, g)|
  {
    if s != [] {
      assert forall i :: 1 <= i < |s| ==> s[i] == s[1..][i - 1];
      FilterSplitCount(s[1..], f, g, h);
    }
  }

  /**
   * Below the root, every leaf and every forking point ends exactly one section: a subtree
   * has as many sections as leaves and forking points together.
   */
  lemma SectionsAreLeavesAndForks(root: Tree<Point>, p: Path)
    requires ValidPath(root, p) && p != []
    ensures NSections(root, p) == NTerminations(root, p) + |IterForkingPoint(root, p)|
  {
    var w := Walk(Sub(root, p), p, PreOrder);
    var seed := (n: Path) => SectionSeed(root, n);
    var leaf := (q: Path) => IsLeaf(Sub(root, q));
    var fork := (q: Path) => IsForkingPoint(Sub(root, q));
    forall i | 0 <= i < |w|
      ensures (seed(w[i]) <==> leaf(w[i]) || fork(w[i])) && !(leaf(w[i]) && fork(w[i]))
    {
      WalkMembersAt(root, p, PreOrder, w[i]);
      assert w[i] != [];
    }
    FilterSplitCount(w, leaf, fork, seed);
  }

  /** Every subtree has a leaf: follow the first child until there is none. */
  lemma {:induction false} SomeLeafBelow(root: Tree<Point>, p: Path) returns (q: Path)
    requires ValidPath(root, p)
    ensures InSubtree(p, q) && ValidPath(root, q) && IsLeaf(Sub(root, q))
    decreases Sub(root, p)
  {
    if |Sub(root, p).children| == 0 {
      q := p;
    } else {
      SubChild(root, p, 0);
      q := SomeLeafBelow(root, p + [0]);
      assert q[..|p|] == (q[..|p| + 1])[..|p|];
    }
  }

  /** A subtree always has at least one leaf, and so, below the root, at least one section. */
  lemma SubtreeCounts(root: Tree<Point>, p: Path)
    requires ValidPath(root, p) && p != []
    ensures NTerminations(root, p) >= 1
    ensures NSections(root, p) >= 1
  {
    var q := SomeLeafBelow(root, p);
    LeafAndForkMembers(root, p, q);
    SectionsAreLeavesAndForks(root, p);
  }

  /**
   * Segments are parent-child pairs: a whole tree has one segment fewer than it has nodes,
   * a subtree below the root one per node.
   */
  lemma SegmentsPerNode(root: Tree<Point>, p: Path)
    ensures NSegments(root, p) == |Walk(Sub(root, p), p, PreOrder)| - (if p == [] then 1 else 0)
  {
    var t := Sub(root, p);
    var w := Walk(t, p, PreOrder);
    var k := Kids(t, p, PreOrder, 0);
    var f := (q: Path) => q != [];
    forall i | 0 <= i < |k|
      ensures f(k[i])
    {
      KidsMembers(t, p, PreOrder, 0, k[i]);
    }
    FilterAll(k, f);
    FilterConcat([p], k, f);
    assert w == [p] + k;
    assert Filter([p], f) == (if f(p) then [p] else []) + Filter([], f);
    if p != [] {
      FilterAll(w, f);
    }
  }

  // ---------------------------------------------------------------------------------------------
  // partition

  /** max(n, m) / min(n, m) of two positive counts. */
  function MaxMinRatio(n: nat, m: nat): (r: real)
    requires n >= 1 && m >= 1
    ensures r >= 1.0
    ensures r == 1.0 <==> n == m
  {
    var hi := (if n >= m then n else m) as real;
    var lo := (if n >= m then m else n) as real;
    assert hi / lo * lo == hi;
    hi / lo
  }

  /** The partition at one bifurcation: the ratio of the section counts of its two subtrees. */
  function PartitionAt(root: Tree<Point>, b: Path): (r: real)
    requires ValidPath(root, b) && |Sub(root, b).children| == 2
    ensures r >= 1.0
    ensures r == 1.0 <==> NSections(root, b + [0]) == NSections(root, b + [1])
  {
    SubChild(root, b, 0);
    SubChild(root, b, 1);
    SubtreeCounts(root, b + [0]);
    SubtreeCounts(root, b + [1]);
    MaxMinRatio(NSections(root, b + [0]), NSections(root, b + [1]))
  }

  /**
   * partition: one value per bifurcation point, in preorder; each is at least 1 and is
   * exactly 1 when the two subtrees have equally many sections. No bifurcation divides by zero.
   */
  function Partition(root: Tree<Point>, p: Path): (r: seq<real>)
    requires ValidPath(root, p)
    ensures |r| == |IBifurcations(root, p)|
    ensures forall k :: 0 <= k < |r| ==> r[k] >= 1.0
    ensures forall k :: 0 <= k < |r| ==>
      (r[k] == 1.0 <==> NSections(root, IBifurcations(root, p)[k] + [0]) == NSections(root, IBifurcations(root, p)[k] + [1]))
  {
    var bs := IBifurcations(root, p);
    seq(|bs|, k requires 0 <= k < |bs| =>
      PreorderWhereMembers(root, p, q => |Sub(root, q).children| == 2, bs[k]);
      PartitionAt(root, bs[k]))
  }

  // ---------------------------------------------------------------------------------------------
  // trunk_section_length

  function Values(root: Tree<Point>, ps: seq<Path>): (r: seq<Point>)
    ensures |r| == |ps| && forall i :: 0 <= i < |ps| ==> r[i] == Sub(root, ps[i]).value
  {
    seq(|ps|, i requires 0 <= i < |ps| => Sub(root, ps[i]).value)
  }

  /** trunk_section_length: the length of the first section, or 0.0 when there is none. */
  function TrunkSectionLength(root: Tree<Point>, dist: Dist): (r: real)
    ensures ISection(root, [], PreorderMode) == [] ==> r == 0.0
    ensures ISection(root, [], PreorderMode) != [] ==>
      r == SectionFeatures.PathDistance(Values(root, ISection(root, [], PreorderMode)[0]), dist)
  {
    var secs := ISection(root, [], PreorderMode);
    if secs == [] then 0.0 else SectionFeatures.PathDistance(Values(root, secs[0]), dist)
  }

  /** A single-point tree has no section, hence trunk length 0.0. */
  lemma TrunkSinglePoint(v: Point, dist: Dist)
    ensures TrunkSectionLength(Node(v, []), dist) == 0.0
  {
    var root: Tree<Point> := Node(v, []);
    assert Kids(root, [], PreOrder, 0) == [];
    assert Walk(root, [], PreOrder) == [[]];
    assert Sub(root, []) == root;
    var f := (n: Path) => SectionSeed(root, n);
    assert Filter([[]], f) == [] + Filter([], f);
  }

  /** A chain of three points, from a root through one middle point to a leaf. */
  function Chain(a: Point, b: Point, c: Point): Tree<Point>
  {
    Node(a, [Node(b, [Node(c, [])])])
  }

  lemma ChainWalk(a: Point, b: Point, c: Point)
    ensures Walk(Sub(Chain(a, b, c), []), [], PreOrder) == [[], [0], [0, 0]]
    ensures Sub(Chain(a, b, c), []) == Chain(a, b, c)
    ensures Sub(Chain(a, b, c), [0]) == Node(b, [Node(c, [])])
    ensures Sub(Chain(a, b, c), [0, 0]) == Node(c, [])
  {
    var leaf: Tree<Point> := Node(c, []);
    var mid: Tree<Point> := Node(b, [leaf]);
    var root := Chain(a, b, c);
    assert Kids(leaf, [0, 0], PreOrder, 0) == [];
    assert Walk(leaf, [0, 0], PreOrder) == [[0, 0]];
    assert Kids(mid, [0], PreOrder, 1) == [];
    assert [0] + [0] == [0, 0];
    assert Kids(mid, [0], PreOrder, 0) == [[0, 0]] + [];
    assert Walk(mid, [0], PreOrder) == [[0], [0, 0]];
    assert Kids(root, [], PreOrder, 1) == [];
    assert [] + [0] == [0];
    assert Kids(root, [], PreOrder, 0) == [[0], [0, 0]] + [];
    assert Sub(root, []) == root;
  }

  /** The chain has exactly one section, from the root to the leaf. */
  lemma ChainSection(a: Point, b: Point, c: Point)
    ensures ISection(Chain(a, b, c), [], PreorderMode) == [[[], [0], [0, 0]]]
  {
    var root := Chain(a, b, c);
    ChainWalk(a, b, c);
    ChainSeeds(a, b, c);
    ChainLeafSection(a, b, c);
  }

  /** Of the chain's three nodes only the leaf starts a section walk. */
  lemma ChainSeeds(a: Point, b: Point, c: Point)
    ensures Filter([[], [0], [0, 0]], (n: Path) => SectionSeed(Chain(a, b, c), n)) == [[0, 0]]
  {
    ChainWalk(a, b, c);
    var w: seq<Path> := [[], [0], [0, 0]];
    var f := (n: Path) => SectionSeed(Chain(a, b, c), n);
    assert !f([]) && !f([0]) && f([0, 0]);
    assert Filter(w, f) == [] + Filter(w[1..], f);
    assert Filter(w[1..], f) == [] + Filter(w[2..], f);
    assert Filter(w[2..], f) == [[0, 0]] + Filter(w[3..], f);
    assert w[3..] == [];
  }

  /** The section ending at the chain's leaf runs from the root through the middle point. */
  lemma ChainLeafSection(a: Point, b: Point, c: Point)
    ensures Section(Chain(a, b, c), [0, 0]) == [[], [0], [0, 0]]
  {
    var root := Chain(a, b, c);
    ChainWalk(a, b, c);
    assert Parent([0, 0]) == [0] && Parent([0]) == [];
    var e: Path := [];
    assert UpToStop(root, e) == [e];
    assert UpToStop(root, [0]) == [[0], e];
    assert Reverse([[0], e]) == [e, [0]];
  }

  /** A chain of three points is one section; its length is the sum of its two segments. */
  lemma TrunkChain(a: Point, b: Point, c: Point, dist: Dist)
    ensures TrunkSectionLength(Chain(a, b, c), dist) == dist(a, b) + dist(b, c)
  {
    var root := Chain(a, b, c);
    ChainWalk(a, b, c);
    ChainSection(a, b, c);
    var s: seq<Path> := [[], [0], [0, 0]];
    assert Values(root, s) == [a, b, c];
    var ls := SectionFeatures.SegmentLengths([a, b, c], dist, false);
    assert ls == [dist(a, b), dist(b, c)];
    assert Sum(ls) == dist(a, b) + Sum([dist(b, c)]);
    assert Sum([dist(b, c)]) == dist(b, c) + Sum([]);
  }

  // ---------------------------------------------------------------------------------------------
  // compare_trees

  /** The compared columns of each node upstream of q, from q up to the root. */
  function UpKeys<K>(root: Tree<Point>, q: Path, key: Point -> K): (r: seq<K>)
    ensures |r| == |q| + 1
  {
    var u := Upstream(q);
    seq(|u|, k requires 0 <= k < |u| => key(Sub(root, u[k]).value))
  }

  /** The upstream keys of each leaf, in preorder of the leaves. */
  function LeafKeys<K>(root: Tree<Point>, key: Point -> K): (r: seq<seq<K>>)
    ensures |r| == |IterLeaf(root, [])|
  {
    KeysOf(root, IterLeaf(root, []), key)
  }

  /** The upstream keys of each node of ws, in order. */
  function KeysOf<K>(root: Tree<Point>, ws: seq<Path>, key: Point -> K): (r: seq<seq<K>>)
    ensures |r| == |ws| && forall k :: 0 <= k < |ws| ==> r[k] == UpKeys(root, ws[k], key)
  {
    seq(|ws|, k requires 0 <= k < |ws| => UpKeys(root, ws[k], key))
  }

  /** The pairwise test of the source: the two upstream walks agree as far as the shorter goes. */
  predicate ZipEqual<K(==)>(u1: seq<K>, u2: seq<K>)
  {
    forall k :: 0 <= k < |u1| && k < |u2| ==> u1[k] == u2[k]
  }

  /** How many of the first j walks of us2 pass the pairwise test against u. */
  function MatchRow<K(==)>(u: seq<K>, us2: seq<seq<K>>, j: nat): nat
    requires j <= |us2|
  {
    if j == 0 then 0 else MatchRow(u, us2, j - 1) + (if ZipEqual(u, us2[j - 1]) then 1 else 0)
  }

  /** How many pairs (i, j) with i among the first n walks of us1 pass the pairwise test. */
  function MatchCount<K(==)>(us1: seq<seq<K>>, us2: seq<seq<K>>, n: nat): nat
    requires n <= |us1|
  {
    if n == 0 then 0 else MatchCount(us1, us2, n - 1) + MatchRow(us1[n - 1], us2, |us2|)
  }

  /**
   * compare_trees as written: false when the leaf counts differ; otherwise the leaf count,
   * less one per matching pair of leaves, must come to zero.
   */
  function CompareTreesAsWritten<K(==)>(t1: Tree<Point>, t2: Tree<Point>, key: Point -> K): (r: bool)
    ensures |IterLeaf(t1, [])| != |IterLeaf(t2, [])| ==> !r
  {
    var l1 := LeafKeys(t1, key);
    var l2 := LeafKeys(t2, key);
    if |l1| != |l2| then false else |l1| - MatchCount(l1, l2, |l1|) == 0
  }

  /** compare_trees: a loop over every pair of leaves, and over the nodes upstream of both. */
  method CompareTrees<K(==)>(t1: Tree<Point>, t2: Tree<Point>, key: Point -> K) returns (r: bool)
    ensures r == CompareTreesAsWritten(t1, t2, key)
  {
    var leaves1 := LeafKeys(t1, key);
    var leaves2 := LeafKeys(t2, key);
    if |leaves1| != |leaves2| {
      return false;
    }
    var nleaves := UnmatchedLeaves(leaves1, leaves2);
    r := nleaves == 0;
  }

  /** The loop over the first tree's leaves: the leaf count, less one per matching pair. */
  method UnmatchedLeaves<K(==)>(us1: seq<seq<K>>, us2: seq<seq<K>>) returns (n: int)
    ensures n == |us1| - MatchCount(us1, us2, |us1|)
  {
    n := |us1|;
    var i := 0;
    while i < |us1|
      invariant 0 <= i <= |us1|
      invariant n == |us1| - MatchCount(us1, us2, i)
    {
      n := SubtractMatches(us1[i], us2, n);
      i := i + 1;
    }
  }

  /** The loop over the second tree's leaves for one leaf of the first: one off per match. */
  method SubtractMatches<K(==)>(u: seq<K>, us2: seq<seq<K>>, n0: int) returns (n: int)
    ensures n == n0 - MatchRow(u, us2, |us2|)
  {
    n := n0;
    var j := 0;
    while j < |us2|
      invariant 0 <= j <= |us2|
      invariant n == n0 - MatchRow(u, us2, j)
    {
      var isEqual := ZipWalk(u, us2[j]);
      if isEqual {
        n := n - 1;
      }
      j := j + 1;
    }
  }

  /** The innermost loop: the two walks are compared node by node until the shorter one ends. */
  method ZipWalk<K(==)>(u1: seq<K>, u2: seq<K>) returns (isEqual: bool)
    ensures isEqual == ZipEqual(u1, u2)
  {
    isEqual := true;
    var k := 0;
    while k < |u1| && k < |u2|
      invariant 0 <= k <= |u1| && k <= |u2|
      invariant isEqual <==> forall m :: 0 <= m < k ==> u1[m] == u2[m]
    {
      if u1[k] != u2[k] {
        isEqual := false;
      }
      k := k + 1;
    }
  }

  /** A forking root with two children at the same point. */
  function TwinLeaves(v: Point, w: Point): Tree<Point>
  {
    Node(v, [Node(w, []), Node(w, [])])
  }

  lemma TwinLeavesShape(v: Point, w: Point)
    ensures IterLeaf(TwinLeaves(v, w), []) == [[0], [1]]
  {
    var root := TwinLeaves(v, w);
    var c := Node(w, []);
    assert Kids(c, [0], PreOrder, 0) == [] && Kids(c, [1], PreOrder, 0) == [];
    assert Walk(c, [0], PreOrder) == [[0]] && Walk(c, [1], PreOrder) == [[1]];
    assert Kids(root, [], PreOrder, 2) == [];
    assert [] + [0] == [0] && [] + [1] == [1];
    assert Kids(root, [], PreOrder, 1) == [[1]] + [];
    assert Kids(root, [], PreOrder, 0) == [[0]] + [[1]];
    assert Sub(root, []) == root;
    var w': seq<Path> := [[], [0], [1]];
    assert Walk(root, [], PreOrder) == w';
    assert Sub(root, [0]) == c && Sub(root, [1]) == c;
    var f := (q: Path) => IsLeaf(Sub(root, q));
    assert !f([]) && f([0]) && f([1]);
    assert Filter(w', f) == [] + Filter(w'[1..], f);
    assert Filter(w'[1..], f) == [[0]] + Filter(w'[2..], f);
    assert Filter(w'[2..], f) == [[1]] + Filter(w'[3..], f);
    assert w'[3..] == [];
  }

  /**
   * Compared with itself, a tree with two leaves at the same point is found different: each
   * of its two leaves matches both leaves, so four matches are taken off a count of two.
   */
  lemma TwinLeavesNotSelfEqual<K>(v: Point, w: Point, key: Point -> K)
    ensures !CompareTreesAsWritten(TwinLeaves(v, w), TwinLeaves(v, w), key)
  {
    var t := TwinLeaves(v, w);
    TwinLeavesShape(v, w);
    var l := LeafKeys(t, key);
    assert Sub(t, [0]) == Node(w, []) && Sub(t, [1]) == Node(w, []) && Sub(t, []) == t;
    assert Upstream([0]) == [[0], []] && Upstream([1]) == [[1], []];
    assert l[0] == [key(w), key(v)] && l[1] == [key(w), key(v)];
    assert ZipEqual(l[0], l[0]) && ZipEqual(l[0], l[1]) && ZipEqual(l[1], l[0]) && ZipEqual(l[1], l[1]);
    assert MatchRow(l[0], l, 0) == 0 && MatchRow(l[1], l, 0) == 0;
    assert MatchRow(l[0], l, 1) == 1 && MatchRow(l[1], l, 1) == 1;
    assert MatchRow(l[0], l, 2) == 2 && MatchRow(l[1], l, 2) == 2;
    assert MatchCount(l, l, 0) == 0;
    assert MatchCount(l, l, 1) == 2;
    assert MatchCount(l, l, 2) == 4;
  }

  /**
   * The comparison intended: the trees have the same leaf-to-root walks, each as often,
   * whatever the order of the children. Walks are compared in full, where the source's
   * pairwise test stops at the end of the shorter walk (ZipEqual): a tree that is not
   * identical must compare false.
   */
  function SameTrees<K(==)>(t1: Tree<Point>, t2: Tree<Point>, key: Point -> K): (r: bool)
    ensures |IterLeaf(t1, [])| != |IterLeaf(t2, [])| ==> !r
  {
    var l1 := LeafKeys(t1, key);
    var l2 := LeafKeys(t2, key);
    assert |multiset(l1)| == |l1| && |multiset(l2)| == |l2|;
    multiset(l1) == multiset(l2)
  }

  /** Every tree is the same as itself, and the relation is symmetric. */
  lemma SameTreesEquivalence<K>(t1: Tree<Point>, t2: Tree<Point>, key: Point -> K)
    ensures SameTrees(t1, t1, key)
    ensures SameTrees(t1, t2, key) == SameTrees(t2, t1, key)
  {
  }

  /** Trees with one leaf each are the same exactly when their walks from leaf to root match in full. */
  lemma SameTreesOneLeaf<K>(t1: Tree<Point>, t2: Tree<Point>, key: Point -> K)
    requires |IterLeaf(t1, [])| == 1 && |IterLeaf(t2, [])| == 1
    ensures SameTrees(t1, t2, key) <==> LeafKeys(t1, key)[0] == LeafKeys(t2, key)[0]
  {
    var l1 := LeafKeys(t1, key);
    var l2 := LeafKeys(t2, key);
    assert l1 == [l1[0]] && l2 == [l2[0]];
    if multiset(l1) == multiset(l2) {
      assert l1[0] in multiset(l2);
    }
  }

  // ---------------------------------------------------------------------------------------------
  // compare_trees ignores the order of the children

  /** Each walk with the key of one more node, the parent above them all, appended. */
  function AppendAll<K>(us: seq<seq<K>>, x: K): (r: seq<seq<K>>)
    ensures |r| == |us| && forall k :: 0 <= k < |us| ==> r[k] == us[k] + [x]
  {
    seq(|us|, k requires 0 <= k < |us| => us[k] + [x])
  }

  /** The upstream keys of the leaves of each tree of `kids`, in turn, below a parent whose key is `top`. */
  function KidsKeys<K>(kids: seq<Tree<Point>>, top: K, key: Point -> K): seq<seq<K>>
  {
    if kids == [] then [] else AppendAll(LeafKeys(kids[0], key), top) + KidsKeys(kids[1..], top, key)
  }

  lemma UpKeysShift<K>(t: Tree<Point>, i: nat, q: Path, key: Point -> K)
    requires i < |t.children|
    ensures UpKeys(t, [i] + q, key) == UpKeys(t.children[i], q, key) + [key(t.value)]
  {
    var p := [i] + q;
    UpstreamShape(p);
    UpstreamShape(q);
    var a := UpKeys(t, p, key);
    var b := UpKeys(t.children[i], q, key) + [key(t.value)];
    forall k | 0 <= k < |a|
      ensures a[k] == b[k]
    {
      assert Upstream(p)[k] == p[..|p| - k];
      if k <= |q| {
        var q' := q[..|q| - k];
        assert p[..|p| - k] == [i] + q';
        assert ([i] + q')[0] == i && ([i] + q')[1..] == q';
        assert Sub(t, [i] + q') == Sub(t.children[i], q');
        assert Upstream(q)[k] == q';
      } else {
        assert p[..|p| - k] == [];
        assert Sub(t, []) == t;
      }
    }
  }

  lemma {:induction false} FilterPrefixed(i: nat, ws: seq<Path>, f: Path -> bool, g: Path -> bool)
    requires forall k :: 0 <= k < |ws| ==> f([i] + ws[k]) == g(ws[k])
    ensures Filter(Prefixed(i, ws), f) == Prefixed(i, Filter(ws, g))
  {
    if ws != [] {
      var pw := Prefixed(i, ws);
      FilterPrefixed(i, ws[1..], f, g);
      assert pw[0] == [i] + ws[0] && pw[1..] == Prefixed(i, ws[1..]);
      var head := if g(ws[0]) then [ws[0]] else [];
      PrefixedConcat(i, head, Filter(ws[1..], g));
    }
  }

  lemma LeafFilterShift(t: Tree<Point>, i: nat, ws: seq<Path>)
    requires i < |t.children|
    ensures Filter(Prefixed(i, ws), q => IsLeaf(Sub(t, q))) == Prefixed(i, Filter(ws, q => IsLeaf(Sub(t.children[i], q))))
  {
    forall k | 0 <= k < |ws|
      ensures Sub(t, [i] + ws[k]) == Sub(t.children[i], ws[k])
    {
      SubCons(t, i, ws[k]);
    }
    FilterPrefixed(i, ws, q => IsLeaf(Sub(t, q)), q => IsLeaf(Sub(t.children[i], q)));
  }

  lemma KeysOfConcat<K>(root: Tree<Point>, a: seq<Path>, b: seq<Path>, key: Point -> K)
    ensures KeysOf(root, a + b, key) == KeysOf(root, a, key) + KeysOf(root, b, key)
  {
  }

  lemma KeysOfShift<K>(t: Tree<Point>, i: nat, ws: seq<Path>, key: Point -> K)
    requires i < |t.children|
    ensures KeysOf(t, Prefixed(i, ws), key) == AppendAll(KeysOf(t.children[i], ws, key), key(t.value))
  {
    forall k | 0 <= k < |ws|
      ensures UpKeys(t, [i] + ws[k], key) == UpKeys(t.children[i], ws[k], key) + [key(t.value)]
    {
      UpKeysShift(t, i, ws[k], key);
    }
  }

  /** The leaves of the walks of the children from the m-th on give the KidsKeys of those children. */
  lemma {:induction false} KidsLeafKeys<K>(t: Tree<Point>, m: nat, key: Point -> K)
    requires m <= |t.children|
    ensures KeysOf(t, Filter(Kids(t, [], PreOrder, m), q => IsLeaf(Sub(t, q))), key) == KidsKeys(t.children[m..], key(t.value), key)
    decreases |t.children| - m
  {
    var f := (q: Path) => IsLeaf(Sub(t, q));
    if m < |t.children| {
      var c := t.children[m];
      var w := Walk(c, [], PreOrder);
      assert [] + [m] == [m] && [m] + [] == [m];
      WalkShift(c, m, [], PreOrder);
      KidsLeafKeys(t, m + 1, key);
      FilterConcat(Prefixed(m, w), Kids(t, [], PreOrder, m + 1), f);
      LeafFilterShift(t, m, w);
      var lw := Filter(w, q => IsLeaf(Sub(c, q)));
      KeysOfConcat(t, Prefixed(m, lw), Filter(Kids(t, [], PreOrder, m + 1), f), key);
      KeysOfShift(t, m, lw, key);
      assert Sub(c, []) == c;
      assert t.children[m..][1..] == t.children[m + 1..];
    } else {
      assert t.children[m..] == [];
    }
  }

  /** The leaves of a node with children are the leaves of its children, in turn, each walk going on to the node. */
  lemma LeafKeysNode<K>(t: Tree<Point>, key: Point -> K)
    ensures t.children == [] ==> LeafKeys(t, key) == [[key(t.value)]]
    ensures t.children != [] ==> LeafKeys(t, key) == KidsKeys(t.children, key(t.value), key)
  {
    var f := (q: Path) => IsLeaf(Sub(t, q));
    assert Sub(t, []) == t;
    var w := Walk(t, [], PreOrder);
    assert w == [[]] + Kids(t, [], PreOrder, 0);
    FilterConcat([[]], Kids(t, [], PreOrder, 0), f);
    if t.children == [] {
      assert Kids(t, [], PreOrder, 0) == [];
      assert w == [[]];
      assert Filter([[]], f) == [[]] + Filter([], f);
      assert IterLeaf(t, []) == [[]];
      assert Upstream([]) == [[]];
      assert UpKeys(t, [], key) == [key(t.value)];
    } else {
      KidsLeafKeys(t, 0, key);
      assert t.children[0..] == t.children;
    }
  }

  /** The first element of a list is found in any reordering of it, and the rest are a reordering of what is left. */
  lemma MatchFirst<T>(a: seq<T>, b: seq<T>) returns (j: nat)
    requires a != [] && multiset(a) == multiset(b)
    ensures j < |b| && b[j] == a[0]
    ensures multiset(a[1..]) == multiset(b[..j] + b[j + 1..])
  {
    assert a[0] in multiset(b);
    j :| 0 <= j < |b| && b[j] == a[0];
    assert b == b[..j] + [b[j]] + b[j + 1..];
    assert multiset(b) == multiset(b[..j]) + multiset{b[j]} + multiset(b[j + 1..]);
    assert a == [a[0]] + a[1..];
    assert multiset(a) == multiset{a[0]} + multiset(a[1..]);
    assert multiset(b[..j] + b[j + 1..]) == multiset(b[..j]) + multiset(b[j + 1..]);
    var rest := b[..j] + b[j + 1..];
    forall z
      ensures multiset(a[1..])[z] == multiset(rest)[z]
    {
      assert multiset(a)[z] == multiset{a[0]}[z] + multiset(a[1..])[z];
      assert multiset(b)[z] == multiset{b[j]}[z] + multiset(rest)[z];
    }
  }

  lemma AppendAllConcat<K>(a: seq<seq<K>>, b: seq<seq<K>>, x: K)
    ensures AppendAll(a + b, x) == AppendAll(a, x) + AppendAll(b, x)
  {
  }

  lemma {:induction false} AppendAllPerm<K>(a: seq<seq<K>>, b: seq<seq<K>>, x: K)
    requires multiset(a) == multiset(b)
    ensures multiset(AppendAll(a, x)) == multiset(AppendAll(b, x))
  {
    if a != [] {
      var j := MatchFirst(a, b);
      var b' := b[..j] + b[j + 1..];
      AppendAllPerm(a[1..], b', x);
      assert a == [a[0]] + a[1..];
      assert b == b[..j] + ([b[j]] + b[j + 1..]);
      AppendAllConcat([a[0]], a[1..], x);
      AppendAllConcat(b[..j], [b[j]] + b[j + 1..], x);
      AppendAllConcat([b[j]], b[j + 1..], x);
      AppendAllConcat(b[..j], b[j + 1..], x);
    }
  }

  lemma {:induction false} KidsKeysConcat<K>(a: seq<Tree<Point>>, b: seq<Tree<Point>>, top: K, key: Point -> K)
    ensures KidsKeys(a + b, top, key) == KidsKeys(a, top, key) + KidsKeys(b, top, key)
  {
    if a == [] {
      assert a + b == b;
    } else {
      assert (a + b)[0] == a[0] && (a + b)[1..] == a[1..] + b;
      KidsKeysConcat(a[1..], b, top, key);
    }
  }

  /** Reordering the children reorders the leaves' walks and changes none of them. */
  lemma {:induction false} KidsKeysPerm<K>(a: seq<Tree<Point>>, b: seq<Tree<Point>>, top: K, key: Point -> K)
    requires multiset(a) == multiset(b)
    ensures multiset(KidsKeys(a, top, key)) == multiset(KidsKeys(b, top, key))
  {
    if a != [] {
      var j := MatchFirst(a, b);
      var b' := b[..j] + b[j + 1..];
      assert b == b[..j] + ([b[j]] + b[j + 1..]);
      assert a == [a[0]] + a[1..];
      KidsKeysPerm(a[1..], b', top, key);
      KidsKeysConcat(b[..j], [b[j]] + b[j + 1..], top, key);
      KidsKeysConcat([b[j]], b[j + 1..], top, key);
      KidsKeysConcat(b[..j], b[j + 1..], top, key);
      assert KidsKeys([b[j]], top, key) == AppendAll(LeafKeys(b[j], key), top) + KidsKeys([], top, key);
    }
  }

  /** Replacing one child by a tree with the same leaf walks keeps the leaf walks of the children. */
  lemma KidsKeysReplace<K>(a: seq<Tree<Point>>, i: nat, x: Tree<Point>, top: K, key: Point -> K)
    requires i < |a| && multiset(LeafKeys(x, key)) == multiset(LeafKeys(a[i], key))
    ensures multiset(KidsKeys(a[i := x], top, key)) == multiset(KidsKeys(a, top, key))
  {
    assert a == a[..i] + ([a[i]] + a[i + 1..]);
    assert a[i := x] == a[..i] + ([x] + a[i + 1..]);
    KidsKeysConcat(a[..i], [a[i]] + a[i + 1..], top, key);
    KidsKeysConcat(a[..i], [x] + a[i + 1..], top, key);
    KidsKeysConcat([a[i]], a[i + 1..], top, key);
    KidsKeysConcat([x], a[i + 1..], top, key);
    assert KidsKeys([a[i]], top, key) == AppendAll(LeafKeys(a[i], key), top) + KidsKeys([], top, key);
    assert KidsKeys([x], top, key) == AppendAll(LeafKeys(x, key), top) + KidsKeys([], top, key);
    AppendAllPerm(LeafKeys(x, key), LeafKeys(a[i], key), top);
  }

  /** The tree with the children of the node at p replaced by `kids`: add_child called in another order there. */
  function WithChildren<V>(t: Tree<V>, p: Path, kids: seq<Tree<V>>): (r: Tree<V>)
    requires ValidPath(t, p)
    ensures r.value == t.value
    decreases |p|
  {
    if p == [] then Node(t.value, kids)
    else Node(t.value, t.children[p[0] := WithChildren(t.children[p[0]], p[1..], kids)])
  }

  /** Giving any node its children in another order leaves the leaf-to-root walks the same, each as often. */
  lemma {:induction false} ChildOrderLeafKeys<K>(t: Tree<Point>, p: Path, kids: seq<Tree<Point>>, key: Point -> K)
    requires ValidPath(t, p) && multiset(kids) == multiset(Sub(t, p).children)
    ensures multiset(LeafKeys(WithChildren(t, p, kids), key)) == multiset(LeafKeys(t, key))
    decreases |p|
  {
    var t' := WithChildren(t, p, kids);
    LeafKeysNode(t, key);
    LeafKeysNode(t', key);
    if p == [] {
      if t.children == [] {
        assert |kids| == |multiset(kids)| == 0;
      } else {
        assert |kids| == |multiset(kids)| == |t.children| > 0;
        KidsKeysPerm(kids, t.children, key(t.value), key);
      }
    } else {
      var i := p[0];
      var c := t.children[i];
      assert Sub(t, p) == Sub(c, p[1..]);
      ChildOrderLeafKeys(c, p[1..], kids, key);
      KidsKeysReplace(t.children, i, WithChildren(c, p[1..], kids), key(t.value), key);
    }
  }

  /** The intended comparison does not see the order of any node's children. */
  lemma SameTreesChildOrder<K>(t1: Tree<Point>, p: Path, kids: seq<Tree<Point>>, t2: Tree<Point>, key: Point -> K)
    requires ValidPath(t1, p) && multiset(kids) == multiset(Sub(t1, p).children)
    ensures SameTrees(WithChildren(t1, p, kids), t2, key) == SameTrees(t1, t2, key)
    ensures SameTrees(t2, WithChildren(t1, p, kids), key) == SameTrees(t2, t1, key)
  {
    ChildOrderLeafKeys(t1, p, kids, key);
  }

  /** A sum over a list of walks of one weight per walk. */
  function SumOf<K>(s: seq<seq<K>>, w: seq<K> -> nat): nat
  {
    if s == [] then 0 else w(s[0]) + SumOf(s[1..], w)
  }

  lemma {:induction false} SumOfConcat<K>(a: seq<seq<K>>, b: seq<seq<K>>, w: seq<K> -> nat)
    ensures SumOf(a + b, w) == SumOf(a, w) + SumOf(b, w)
  {
    if a == [] {
      assert a + b == b;
    } else {
      assert (a + b)[0] == a[0] && (a + b)[1..] == a[1..] + b;
      SumOfConcat(a[1..], b, w);
    }
  }

  lemma {:induction false} SumOfPerm<K>(a: seq<seq<K>>, b: seq<seq<K>>, w: seq<K> -> nat)
    requires multiset(a) == multiset(b)
    ensures SumOf(a, w) == SumOf(b, w)
  {
    if a != [] {
      var j := MatchFirst(a, b);
      var b' := b[..j] + b[j + 1..];
      assert b == b[..j] + ([b[j]] + b[j + 1..]);
      assert a == [a[0]] + a[1..];
      SumOfPerm(a[1..], b', w);
      SumOfConcat(b[..j], [b[j]] + b[j + 1..], w);
      SumOfConcat([b[j]], b[j + 1..], w);
      SumOfConcat(b[..j], b[j + 1..], w);
      assert SumOf([b[j]], w) == w(b[j]) + SumOf([], w);
    }
  }

  lemma {:induction false} MatchRowSum<K>(u: seq<K>, us2: seq<seq<K>>, j: nat)
    requires j <= |us2|
    ensures MatchRow(u, us2, j) == SumOf(us2[..j], x => if ZipEqual(u, x) then 1 else 0)
  {
    var w := (x: seq<K>) => if ZipEqual(u, x) then 1 else 0;
    if j > 0 {
      MatchRowSum(u, us2, j - 1);
      assert us2[..j] == us2[..j - 1] + [us2[j - 1]];
      SumOfConcat(us2[..j - 1], [us2[j - 1]], w);
      assert SumOf([us2[j - 1]], w) == w(us2[j - 1]) + SumOf([], w);
    }
  }

  lemma {:induction false} MatchCountSum<K>(us1: seq<seq<K>>, us2: seq<seq<K>>, n: nat)
    requires n <= |us1|
    ensures MatchCount(us1, us2, n) == SumOf(us1[..n], u => MatchRow(u, us2, |us2|))
  {
    var w := (u: seq<K>) => MatchRow(u, us2, |us2|);
    if n > 0 {
      MatchCountSum(us1, us2, n - 1);
      assert us1[..n] == us1[..n - 1] + [us1[n - 1]];
      SumOfConcat(us1[..n - 1], [us1[n - 1]], w);
      assert SumOf([us1[n - 1]], w) == w(us1[n - 1]) + SumOf([], w);
    }
  }

  /** The number of matching pairs depends only on which walks each tree has, and how often. */
  lemma MatchCountPerm<K>(a1: seq<seq<K>>, b1: seq<seq<K>>, a2: seq<seq<K>>, b2: seq<seq<K>>)
    requires multiset(a1) == multiset(b1) && multiset(a2) == multiset(b2)
    ensures MatchCount(a1, a2, |a1|) == MatchCount(b1, b2, |b1|)
  {
    MatchCountSum(a1, a2, |a1|);
    MatchCountSum(b1, b2, |b1|);
    assert a1[..|a1|] == a1 && b1[..|b1|] == b1;
    var wa := (u: seq<K>) => MatchRow(u, a2, |a2|);
    var wb := (u: seq<K>) => MatchRow(u, b2, |b2|);
    SumOfPerm(a1, b1, wa);
    SumOfSameWeights(b1, wa, wb, a2, b2);
  }

  lemma {:induction false} SumOfSameWeights<K>(s: seq<seq<K>>, wa: seq<K> -> nat, wb: seq<K> -> nat, a2: seq<seq<K>>, b2: seq<seq<K>>)
    requires multiset(a2) == multiset(b2)
    requires forall u :: wa(u) == MatchRow(u, a2, |a2|) && wb(u) == MatchRow(u, b2, |b2|)
    ensures SumOf(s, wa) == SumOf(s, wb)
  {
    if s != [] {
      SumOfSameWeights(s[1..], wa, wb, a2, b2);
      var w := (x: seq<K>) => if ZipEqual(s[0], x) then 1 else 0;
      MatchRowSum(s[0], a2, |a2|);
      MatchRowSum(s[0], b2, |b2|);
      assert a2[..|a2|] == a2 && b2[..|b2|] == b2;
      SumOfPerm(a2, b2, w);
    }
  }

  /** compare_trees as written does not see the order of any node's children either, in either tree. */
  lemma CompareTreesChildOrder<K>(t1: Tree<Point>, p: Path, kids: seq<Tree<Point>>, t2: Tree<Point>, key: Point -> K)
    requires ValidPath(t1, p) && multiset(kids) == multiset(Sub(t1, p).children)
    ensures CompareTreesAsWritten(WithChildren(t1, p, kids), t2, key) == CompareTreesAsWritten(t1, t2, key)
    ensures CompareTreesAsWritten(t2, WithChildren(t1, p, kids), key) == CompareTreesAsWritten(t2, t1, key)
  {
    var t1' := WithChildren(t1, p, kids);
    ChildOrderLeafKeys(t1, p, kids, key);
    var l1, l1', l2 := LeafKeys(t1, key), LeafKeys(t1', key), LeafKeys(t2, key);
    assert |l1| == |multiset(l1)| == |multiset(l1')| == |l1'|;
    MatchCountPerm(l1', l1, l2, l2);
    MatchCountPerm(l2, l2, l1', l1);
  }

  /** Adding the two children of a node in the other order, as REF_TREE4 does at node [1], changes neither comparison. */
  lemma SwapTwoChildren<K>(t1: Tree<Point>, p: Path, t2: Tree<Point>, key: Point -> K)
    requires ValidPath(t1, p) && |Sub(t1, p).children| == 2
    ensures var c := Sub(t1, p).children;
      CompareTreesAsWritten(WithChildren(t1, p, [c[1], c[0]]), t2, key) == CompareTreesAsWritten(t1, t2, key) &&
      SameTrees(WithChildren(t1, p, [c[1], c[0]]), t2, key) == SameTrees(t1, t2, key)
  {
    var c := Sub(t1, p).children;
    assert c == [c[0], c[1]];
    assert multiset([c[1], c[0]]) == multiset(c);
    CompareTreesChildOrder(t1, p, [c[1], c[0]], t2, key);
    SameTreesChildOrder(t1, p, [c[1], c[0]], t2, key);
  }
}

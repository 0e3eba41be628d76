/**
 * Point trees (neurom/point_neurite/point_tree.py): trees whose nodes are points, with
 * segment, section and triplet iterators that yield the nodes themselves.
 */
module PointTrees {
  import opened Seqs
  import opened Trees

  /** isegment: (parent, node) for each node of the iteration that has a parent. */
  function ISegment<V>(root: Tree<V>, p: Path, mode: IterMode): seq<(Path, Path)>
  {
    var nr := NonRoot(IterNodes(root, p, mode));
    seq(|nr|, k requires 0 <= k < |nr| => (Parent(nr[k]), nr[k]))
  }

  /** isection: one section per seed node of the iteration, in iteration order. */
  function ISection<V>(root: Tree<V>, p: Path, mode: IterMode): seq<seq<Path>>
  {
    var seeds := Filter(IterNodes(root, p, mode), n => SectionSeed(root, n));
    seq(|seeds|, k requires 0 <= k < |seeds| => Section(root, seeds[k]))
  }

  /**
   * Each segment is a node of the iteration that has a parent, paired with that parent; a
   * preorder or postorder walk gives one segment fewer than it has nodes from the root, and
   * one per node from any other node.
   */
  lemma ISegmentPairs<V>(root: Tree<V>, p: Path, mode: IterMode)
    ensures forall k :: 0 <= k < |ISegment(root, p, mode)| ==>
      ISegment(root, p, mode)[k].1 in IterNodes(root, p, mode) && ISegment(root, p, mode)[k].1 != [] &&
      ISegment(root, p, mode)[k].0 == Parent(ISegment(root, p, mode)[k].1)
    ensures mode != UpstreamMode ==>
      |ISegment(root, p, mode)| == |IterNodes(root, p, mode)| - (if p == [] then 1 else 0)
  {
    if mode == PreorderMode {
      SegmentCount(Sub(root, p), p, PreOrder);
    } else if mode == PostorderMode {
      SegmentCount(Sub(root, p), p, PostOrder);
    }
  }

  /**
   * Each section yielded under any iteration mode ends at a node of the iteration that is a
   * non-root leaf or fork, starts at a fork or the root, and runs down parent to child.
   */
  lemma ISectionShape<V>(root: Tree<V>, p: Path, mode: IterMode, k: nat)
    requires k < |ISection(root, p, mode)|
    ensures var s := ISection(root, p, mode)[k];
      |s| >= 2 && s[|s| - 1] in IterNodes(root, p, mode) && SectionSeed(root, s[|s| - 1]) &&
      SectionStop(root, s[0]) && (forall j :: 0 < j < |s| - 1 ==> !SectionStop(root, s[j])) &&
      (forall j :: 0 < j < |s| ==> s[j - 1] == Parent(s[j]))
  {
    var seeds := Filter(IterNodes(root, p, mode), n => SectionSeed(root, n));
    assert seeds[k] in IterNodes(root, p, mode) && SectionSeed(root, seeds[k]);
    SectionShape(root, seeds[k]);
  }

  /** With the default preorder mode, isection yields exactly the sections of iter_section. */
  lemma ISectionPreorder<V>(root: Tree<V>, p: Path)
    ensures ISection(root, p, PreorderMode) == IterSection(root, p)
  {
  }

  /** itriplet: the same triplets as iter_triplet. */
  function ITriplet<V>(root: Tree<V>, p: Path): (r: seq<(Path, Path, Path)>)
    ensures ValidPath(root, p) ==> forall a, n, c :: (a, n, c) in r <==> IsTriplet(root, p, a, n, c)
  {
    if ValidPath(root, p) then
      TripletsExactly(root, p);
      IterTriplet(root, p)
    else IterTriplet(root, p)
  }

  lemma TripletsExactly<V>(root: Tree<V>, p: Path)
    requires ValidPath(root, p)
    ensures forall a, n, c :: (a, n, c) in IterTriplet(root, p) <==> IsTriplet(root, p, a, n, c)
  {
    forall a, n, c
      ensures (a, n, c) in IterTriplet(root, p) <==> IsTriplet(root, p, a, n, c)
    {
      TripletMembers(root, p, a, n, c);
    }
  }

  /** The first node in preorder, from a non-root node, that is a leaf or a forking point. */
  function FirstEndPoint<V>(t: Tree<V>, c: Path): (r: Path)
    decreases t
  {
    if |t.children| == 1 then FirstEndPoint(t.children[0], c + [0]) else c
  }

  /**
   * next_end_point: scan the preorder of a non-root node and stop at the first node that
   * ends a section. Such a node exists, so the scan never runs out.
   */
  method NextEndPoint<V>(root: Tree<V>, c: Path) returns (n: Path)
    requires ValidPath(root, c) && c != []
    ensures n in Walk(Sub(root, c), c, PreOrder) && SectionSeed(root, n)
    ensures forall j :: (0 <= j < |Walk(Sub(root, c), c, PreOrder)| &&
                         Walk(Sub(root, c), c, PreOrder)[j] == n) ==>
      forall k :: 0 <= k < j ==> !SectionSeed(root, Walk(Sub(root, c), c, PreOrder)[k])
    ensures n == FirstEndPoint(Sub(root, c), c)
  {
    var it := Walk(Sub(root, c), c, PreOrder);
    FirstEndPointIndex(root, Sub(root, c), c);
    ghost var e :| 0 <= e < |it| && it[e] == FirstEndPoint(Sub(root, c), c) && SectionSeed(root, it[e]) &&
      forall k :: 0 <= k < e ==> !SectionSeed(root, it[k]);
    var i := 0;
    while true
      invariant 0 <= i <= e
      invariant forall k :: 0 <= k < i ==> !SectionSeed(root, it[k])
      decreases e - i
    {
      n := it[i];
      if SectionSeed(root, n) {
        break;
      }
      i := i + 1;
    }
    assert i == e;
    forall j | 0 <= j < |it| && it[j] == n
      ensures forall k :: 0 <= k < j ==> !SectionSeed(root, it[k])
    {
      if j != i {
        var lo, hi := if j < i then j else i, if j < i then i else j;
        WalkDistinct(Sub(root, c), c, PreOrder, lo, hi);
      }
    }
  }

  /** The first seed of a preorder walk is found by following only children. */
  lemma {:induction false} FirstEndPointIndex<V>(root: Tree<V>, t: Tree<V>, c: Path)
    requires ValidPath(root, c) && c != [] && Sub(root, c) == t
    ensures exists e ::
      (0 <= e < |Walk(t, c, PreOrder)| &&
       Walk(t, c, PreOrder)[e] == FirstEndPoint(t, c) && SectionSeed(root, Walk(t, c, PreOrder)[e]) &&
       forall k :: 0 <= k < e ==> !SectionSeed(root, Walk(t, c, PreOrder)[k]))
    decreases t
  {
    var w := Walk(t, c, PreOrder);
    assert w[0] == c;
    if |t.children| == 1 {
      SubChild(root, c, 0);
      FirstEndPointIndex(root, t.children[0], c + [0]);
      var w0 := Walk(t.children[0], c + [0], PreOrder);
      assert Kids(t, c, PreOrder, 1) == [];
      assert Kids(t, c, PreOrder, 0) == w0 + Kids(t, c, PreOrder, 1);
      assert w == [c] + w0;
      var e :| 0 <= e < |w0| && w0[e] == FirstEndPoint(t.children[0], c + [0]) &&
        SectionSeed(root, w0[e]) && forall k :: 0 <= k < e ==> !SectionSeed(root, w0[k]);
      assert w[e + 1] == w0[e];
      forall k | 0 <= k < e + 1
        ensures !SectionSeed(root, w[k])
      {
        if k > 0 {
          assert w[k] == w0[k - 1];
        }
      }
    } else {
      assert SectionSeed(root, w[0]);
    }
  }

  /** i_branch_end_points: the first section end point below each child, in child order. */
  method IBranchEndPoints<V>(root: Tree<V>, p: Path) returns (r: seq<Path>)
    requires ValidPath(root, p)
    ensures |r| == |Sub(root, p).children|
    ensures forall k :: 0 <= k < |r| ==> r[k] == FirstEndPoint(Sub(root, p).children[k], p + [k])
  {
    var t := Sub(root, p);
    r := [];
    var k := 0;
    while k < |t.children|
      invariant 0 <= k <= |t.children| && |r| == k
      invariant forall j :: 0 <= j < k ==> r[j] == FirstEndPoint(t.children[j], p + [j])
    {
      SubChild(root, p, k);
      var n := NextEndPoint(root, p + [k]);
      r := r + [n];
      k := k + 1;
    }
  }

  /** A value that as_elements may meet: a tree node, any other scalar, or an iterable of those. */
  datatype Obj<V> = TreeObj(node: Path) | Scalar(v: V) | Iterable(kind: string, items: seq<Obj<V>>)

  /** as_elements: replace every tree node by its value, keeping each container's type. */
  function AsElements<V>(root: Tree<V>, o: Obj<V>): Obj<V>
  {
    match o
    case TreeObj(p) => Scalar(Sub(root, p).value)
    case Scalar(_) => o
    case Iterable(k, xs) => Iterable(k, seq(|xs|, i requires 0 <= i < |xs| => AsElements(root, xs[i])))
  }

  predicate SameShape<V>(a: Obj<V>, b: Obj<V>)
  {
    match a
    case Iterable(k, xs) =>
      b.Iterable? && b.kind == k && |b.items| == |xs| &&
      forall i :: 0 <= i < |xs| ==> SameShape(xs[i], b.items[i])
    case _ => !b.Iterable?
  }

  predicate NoTreeObj<V>(o: Obj<V>)
  {
    match o
    case TreeObj(_) => false
    case Scalar(_) => true
    case Iterable(_, xs) => forall i :: 0 <= i < |xs| ==> NoTreeObj(xs[i])
  }

  /** as_elements keeps every container and its kind and leaves no tree node behind. */
  lemma {:induction false} AsElementsShape<V>(root: Tree<V>, o: Obj<V>)
    ensures SameShape(o, AsElements(root, o))
    ensures NoTreeObj(AsElements(root, o))
    ensures o.Scalar? ==> AsElements(root, o) == o
  {
    match o
    case TreeObj(_) =>
    case Scalar(_) =>
    case Iterable(k, xs) =>
      forall i | 0 <= i < |xs|
        ensures SameShape(xs[i], AsElements(root, o).items[i]) && NoTreeObj(AsElements(root, o).items[i])
      {
        AsElementsShape(root, xs[i]);
      }
  }
}

/**
 * Generic trees and their traversals (neurom/core/tree.py).
 *
 * A tree is a value with an ordered list of child trees. A node inside a tree is named by
 * its Path: the child indices that lead to it from the root. The parent of a node is its
 * path without the last index, and the root is the empty path, so `parent is None` is
 * `p == []`. Every iterator of the source returns the nodes it visits, as paths.
 */
module Trees {
  import opened Wrappers
  import opened Seqs

  datatype Tree<V> = Node(value: V, children: seq<Tree<V>>)

  type Path = seq<nat>

  predicate ValidPath<V>(t: Tree<V>, p: Path)
    decreases |p|
  {
    p == [] || (p[0] < |t.children| && ValidPath(t.children[p[0]], p[1..]))
  }

  /** The subtree at `p`; the descent stops early at an index that does not exist. */
  function Sub<V>(t: Tree<V>, p: Path): Tree<V>
    decreases |p|
  {
    if p == [] || p[0] >= |t.children| then t else Sub(t.children[p[0]], p[1..])
  }

  function Parent(p: Path): Path
    requires p != []
  {
    p[..|p| - 1]
  }

  /** `a` is a proper ancestor of `b`. */
  predicate IsAncestor(a: Path, b: Path)
  {
    |a| < |b| && b[..|a|] == a
  }

  /** `b` lies in the subtree whose root is `a` (`b` may be `a` itself). */
  predicate InSubtree(a: Path, b: Path)
  {
    |a| <= |b| && b[..|a|] == a
  }

  predicate IsForkingPoint<V>(t: Tree<V>)
  {
    |t.children| > 1
  }

  predicate IsLeaf<V>(t: Tree<V>)
  {
    |t.children| == 0
  }

  predicate IsRoot(p: Path)
  {
    p == []
  }

  lemma {:induction false} SubAppend<V>(t: Tree<V>, p: Path, q: Path)
    requires ValidPath(t, p)
    ensures Sub(t, p + q) == Sub(Sub(t, p), q)
    ensures ValidPath(t, p + q) <==> ValidPath(Sub(t, p), q)
    decreases |p|
  {
    if p == [] {
      assert p + q == q;
    } else {
      assert (p + q)[0] == p[0] && (p + q)[1..] == p[1..] + q;
      SubAppend(t.children[p[0]], p[1..], q);
    }
  }

  /** A path that starts with a child's index leads into that child's subtree. */
  lemma SubCons<V>(t: Tree<V>, i: nat, q: Path)
    requires i < |t.children|
    ensures Sub(t, [i] + q) == Sub(t.children[i], q)
  {
    assert ([i] + q)[0] == i && ([i] + q)[1..] == q;
  }

  /** The path to the i-th child of a node is the node's path followed by i. */
  lemma SubChild<V>(t: Tree<V>, p: Path, i: nat)
    requires ValidPath(t, p) && i < |Sub(t, p).children|
    ensures ValidPath(t, p + [i])
    ensures Sub(t, p + [i]) == Sub(t, p).children[i]
  {
    SubAppend(t, p, [i]);
    var c := Sub(t, p);
    assert [i][1..] == [];
    assert ValidPath(c, [i]);
  }

  datatype Order = PreOrder | PostOrder

  /**
   * The nodes of `t`, whose own path is `p`, in depth-first order: iter_preorder yields a
   * node and then the nodes of each child in turn; iter_postorder yields the nodes of each
   * child in turn and then the node.
   */
  function Walk<V>(t: Tree<V>, p: Path, o: Order): (r: seq<Path>)
    ensures |r| >= 1
    ensures o == PreOrder ==> r[0] == p
    ensures o == PostOrder ==> r[|r| - 1] == p
    decreases t, |t.children| + 1
  {
    match o
    case PreOrder => [p] + Kids(t, p, o, 0)
    case PostOrder => Kids(t, p, o, 0) + [p]
  }

  /** The walks of the children of `t` from the i-th on, one after the other. */
  function Kids<V>(t: Tree<V>, p: Path, o: Order, i: nat): seq<Path>
    decreases t, |t.children| - i
  {
    if i >= |t.children| then [] else Walk(t.children[i], p + [i], o) + Kids(t, p, o, i + 1)
  }

  lemma {:induction false} PrefixStep(p: Path, i: nat, q: Path)
    requires |p| < |q|
    ensures (q[..|p| + 1] == p + [i]) <==> (q[..|p|] == p && q[|p|] == i)
  {
    assert q[..|p| + 1] == q[..|p|] + [q[|p|]];
    if q[..|p| + 1] == p + [i] {
      assert q[..|p|] == (p + [i])[..|p|];
    }
  }

  /** A walk visits exactly the nodes of the subtree. */
  lemma {:induction false} WalkMembers<V>(t: Tree<V>, p: Path, o: Order, q: Path)
    ensures q in Walk(t, p, o) <==> (InSubtree(p, q) && ValidPath(t, q[|p|..]))
    decreases t, |t.children| + 1
  {
    KidsMembers(t, p, o, 0, q);
    if InSubtree(p, q) {
      if |q| == |p| {
        assert q == q[..|p|] == p;
        assert q[|p|..] == [];
      } else {
        var r := q[|p|..];
        assert r[0] == q[|p|] && r[1..] == q[|p| + 1..];
      }
    }
  }

  lemma {:induction false} KidsMembers<V>(t: Tree<V>, p: Path, o: Order, i: nat, q: Path)
    ensures q in Kids(t, p, o, i) <==>
      (|p| < |q| && q[..|p|] == p && i <= q[|p|] < |t.children| &&
       ValidPath(t.children[q[|p|]], q[|p| + 1..]))
    decreases t, |t.children| - i
  {
    if i < |t.children| {
      WalkMembers(t.children[i], p + [i], o, q);
      KidsMembers(t, p, o, i + 1, q);
      if |p| < |q| {
        PrefixStep(p, i, q);
      }
    }
  }

  /** Each path of `ws` with `i` put in front: the same paths, seen from one level up. */
  function Prefixed(i: nat, ws: seq<Path>): (r: seq<Path>)
    ensures |r| == |ws| && forall k :: 0 <= k < |ws| ==> r[k] == [i] + ws[k]
  {
    seq(|ws|, k requires 0 <= k < |ws| => [i] + ws[k])
  }

  lemma PrefixedConcat(i: nat, a: seq<Path>, b: seq<Path>)
    ensures Prefixed(i, a + b) == Prefixed(i, a) + Prefixed(i, b)
  {
  }

  /** Walking a tree from the path i + p visits the paths of the walk from p, each with i in front. */
  lemma {:induction false} WalkShift<V>(t: Tree<V>, i: nat, p: Path, o: Order)
    ensures Walk(t, [i] + p, o) == Prefixed(i, Walk(t, p, o))
    decreases t, |t.children| + 1
  {
    KidsShift(t, i, p, o, 0);
    PrefixedConcat(i, [p], Kids(t, p, o, 0));
    PrefixedConcat(i, Kids(t, p, o, 0), [p]);
  }

  lemma {:induction false} KidsShift<V>(t: Tree<V>, i: nat, p: Path, o: Order, m: nat)
    ensures Kids(t, [i] + p, o, m) == Prefixed(i, Kids(t, p, o, m))
    decreases t, |t.children| - m
  {
    if m < |t.children| {
      assert [i] + p + [m] == [i] + (p + [m]);
      WalkShift(t.children[m], i, p + [m], o);
      KidsShift(t, i, p, o, m + 1);
      PrefixedConcat(i, Walk(t.children[m], p + [m], o), Kids(t, p, o, m + 1));
    }
  }

  /** Membership of a walk from a node of a bigger tree, stated on the bigger tree. */
  lemma WalkMembersAt<V>(root: Tree<V>, p: Path, o: Order, q: Path)
    requires ValidPath(root, p)
    ensures q in Walk(Sub(root, p), p, o) <==> (InSubtree(p, q) && ValidPath(root, q))
  {
    WalkMembers(Sub(root, p), p, o, q);
    if InSubtree(p, q) {
      assert p + q[|p|..] == q;
      SubAppend(root, p, q[|p|..]);
    }
  }

  /** In a preorder walk a node comes before its descendants; in a postorder walk, after. */
  lemma {:induction false} WalkAncestorOrder<V>(t: Tree<V>, p: Path, o: Order, i: nat, j: nat)
    requires i < |Walk(t, p, o)| && j < |Walk(t, p, o)|
    requires IsAncestor(Walk(t, p, o)[i], Walk(t, p, o)[j])
    ensures if o == PreOrder then i < j else j < i
    decreases t, |t.children| + 1
  {
    var w, k := Walk(t, p, o), Kids(t, p, o, 0);
    var s := if o == PreOrder then 0 else |k|;
    var off := if o == PreOrder then 1 else 0;
    assert w[s] == p;
    if i == s {
      assert j != s;
    } else if j == s {
      KidsMembers(t, p, o, 0, w[i]);
      assert false;
    } else {
      assert w[i] == k[i - off] && w[j] == k[j - off];
      KidsAncestorOrder(t, p, o, 0, i - off, j - off);
    }
  }

  lemma {:induction false} KidsAncestorOrder<V>(t: Tree<V>, p: Path, o: Order, m: nat, i: nat, j: nat)
    requires i < |Kids(t, p, o, m)| && j < |Kids(t, p, o, m)|
    requires IsAncestor(Kids(t, p, o, m)[i], Kids(t, p, o, m)[j])
    ensures if o == PreOrder then i < j else j < i
    decreases t, |t.children| - m
  {
    var ks := Kids(t, p, o, m);
    var a, b := Walk(t.children[m], p + [m], o), Kids(t, p, o, m + 1);
    assert ks == a + b;
    var x, y := ks[i], ks[j];
    if i < |a| && j < |a| {
      WalkAncestorOrder(t.children[m], p + [m], o, i, j);
    } else if i >= |a| && j >= |a| {
      KidsAncestorOrder(t, p, o, m + 1, i - |a|, j - |a|);
    } else if i < |a| {
      if o == PostOrder {
        WalkMembers(t.children[m], p + [m], o, x);
        KidsMembers(t, p, o, m + 1, y);
        PrefixStep(p, m, x);
        assert false;
      }
    } else {
      WalkMembers(t.children[m], p + [m], o, y);
      KidsMembers(t, p, o, m + 1, x);
      PrefixStep(p, m, y);
      assert false;
    }
  }

  /**
   * Children are visited in list order: of two nodes whose paths first differ at depth d,
   * the one under the earlier child comes first, in both walks.
   */
  lemma {:induction false} WalkSiblingOrder<V>(t: Tree<V>, p: Path, o: Order, i: nat, j: nat, d: nat)
    requires i < |Walk(t, p, o)| && j < |Walk(t, p, o)|
    requires d < |Walk(t, p, o)[i]| && d < |Walk(t, p, o)[j]|
    requires Walk(t, p, o)[i][..d] == Walk(t, p, o)[j][..d]
    requires Walk(t, p, o)[i][d] < Walk(t, p, o)[j][d]
    ensures i < j
    decreases t, |t.children| + 1
  {
    var w, k := Walk(t, p, o), Kids(t, p, o, 0);
    var off := if o == PreOrder then 1 else 0;
    WalkMembers(t, p, o, w[i]);
    WalkMembers(t, p, o, w[j]);
    if d < |p| {
      assert false;
    } else {
      assert |w[i]| > |p| && |w[j]| > |p|;
      assert w[i] != p && w[j] != p;
      var s := if o == PreOrder then 0 else |k|;
      assert w[s] == p;
      assert i != s && j != s;
      assert w[i] == k[i - off] && w[j] == k[j - off];
      KidsSiblingOrder(t, p, o, 0, i - off, j - off, d);
    }
  }

  lemma {:induction false} KidsSiblingOrder<V>(t: Tree<V>, p: Path, o: Order, m: nat, i: nat, j: nat, d: nat)
    requires i < |Kids(t, p, o, m)| && j < |Kids(t, p, o, m)|
    requires |p| <= d < |Kids(t, p, o, m)[i]| && d < |Kids(t, p, o, m)[j]|
    requires Kids(t, p, o, m)[i][..d] == Kids(t, p, o, m)[j][..d]
    requires Kids(t, p, o, m)[i][d] < Kids(t, p, o, m)[j][d]
    ensures i < j
    decreases t, |t.children| - m
  {
    var ks := Kids(t, p, o, m);
    var a, b := Walk(t.children[m], p + [m], o), Kids(t, p, o, m + 1);
    assert ks == a + b;
    var x, y := ks[i], ks[j];
    if i < |a| && j < |a| {
      WalkSiblingOrder(t.children[m], p + [m], o, i, j, d);
    } else if i >= |a| && j >= |a| {
      KidsSiblingOrder(t, p, o, m + 1, i - |a|, j - |a|, d);
    } else if i >= |a| {
      WalkMembers(t.children[m], p + [m], o, y);
      KidsMembers(t, p, o, m + 1, x);
      PrefixStep(p, m, y);
      assert false;
    }
  }

  /** A walk visits each node once. */
  lemma {:induction false} WalkDistinct<V>(t: Tree<V>, p: Path, o: Order, i: nat, j: nat)
    requires i < j < |Walk(t, p, o)|
    ensures Walk(t, p, o)[i] != Walk(t, p, o)[j]
    decreases t, |t.children| + 1
  {
    var w, k := Walk(t, p, o), Kids(t, p, o, 0);
    var off := if o == PreOrder then 1 else 0;
    var s := if o == PreOrder then 0 else |k|;
    assert w[s] == p;
    if i == s || j == s {
      var n := if i == s then j else i;
      assert w[n] == k[n - off];
      KidsMembers(t, p, o, 0, w[n]);
    } else {
      assert w[i] == k[i - off] && w[j] == k[j - off];
      KidsDistinct(t, p, o, 0, i - off, j - off);
    }
  }

  lemma {:induction false} KidsDistinct<V>(t: Tree<V>, p: Path, o: Order, m: nat, i: nat, j: nat)
    requires i < j < |Kids(t, p, o, m)|
    ensures Kids(t, p, o, m)[i] != Kids(t, p, o, m)[j]
    decreases t, |t.children| - m
  {
    var ks := Kids(t, p, o, m);
    var a, b := Walk(t.children[m], p + [m], o), Kids(t, p, o, m + 1);
    assert ks == a + b;
    if j < |a| {
      WalkDistinct(t.children[m], p + [m], o, i, j);
    } else if i >= |a| {
      KidsDistinct(t, p, o, m + 1, i - |a|, j - |a|);
    } else {
      WalkMembers(t.children[m], p + [m], o, ks[i]);
      KidsMembers(t, p, o, m + 1, ks[j]);
      PrefixStep(p, m, ks[i]);
    }
  }

  /** The node, its parent, its grand-parent and so on, ending at the root. */
  function Upstream(p: Path): (r: seq<Path>)
    ensures |r| == |p| + 1
    decreases |p|
  {
    if p == [] then [p] else [p] + Upstream(Parent(p))
  }

  /** The k-th node upstream of p is its ancestor k levels up; the last one is the root. */
  lemma {:induction false} UpstreamShape(p: Path)
    ensures |Upstream(p)| == |p| + 1
    ensures forall k :: 0 <= k <= |p| ==> Upstream(p)[k] == p[..|p| - k]
    decreases |p|
  {
    if p != [] {
      UpstreamShape(Parent(p));
      var u := Upstream(p);
      forall k | 0 < k <= |p|
        ensures u[k] == p[..|p| - k]
      {
        assert u[k] == Upstream(Parent(p))[k - 1];
      }
    }
  }

  /** iter_upstream: follow the parent links until there is no parent. */
  method IterUpstream(p: Path) returns (r: seq<Path>)
    ensures r == Upstream(p)
    ensures |r| == |p| + 1 && r[0] == p && r[|p|] == []
    ensures forall k :: 0 <= k < |p| ==> r[k] != [] && r[k + 1] == Parent(r[k])
  {
    var t: Option<Path> := Some(p);
    r := [];
    while t.Some?
      invariant r + (if t.Some? then Upstream(t.value) else []) == Upstream(p)
      decreases if t.Some? then |t.value| + 1 else 0
    {
      r := r + [t.value];
      t := if t.value == [] then None else Some(Parent(t.value));
    }
    assert r == Upstream(p);
    UpstreamShape(p);
    forall k | 0 <= k < |p|
      ensures r[k] != [] && r[k + 1] == Parent(r[k])
    {
      assert r[k] == p[..|p| - k] && r[k + 1] == p[..|p| - k - 1];
    }
  }

  /** The nodes of a preorder walk from `p` whose path satisfies `f` (ifilter over iter_preorder). */
  function PreorderWhere<V>(root: Tree<V>, p: Path, f: Path -> bool): seq<Path>
  {
    Filter(Walk(Sub(root, p), p, PreOrder), f)
  }

  lemma PreorderWhereMembers<V>(root: Tree<V>, p: Path, f: Path -> bool, q: Path)
    requires ValidPath(root, p)
    ensures q in PreorderWhere(root, p, f) <==> (InSubtree(p, q) && ValidPath(root, q) && f(q))
  {
    WalkMembersAt(root, p, PreOrder, q);
  }

  /** iter_leaf: the leaves under p, in preorder. */
  function IterLeaf<V>(root: Tree<V>, p: Path): (r: seq<Path>)
    ensures forall k :: 0 <= k < |r| ==> r[k] in Walk(Sub(root, p), p, PreOrder) && IsLeaf(Sub(root, r[k]))
  {
    PreorderWhere(root, p, q => IsLeaf(Sub(root, q)))
  }

  /** iter_forking_point: the forking points under p, in preorder. */
  function IterForkingPoint<V>(root: Tree<V>, p: Path): (r: seq<Path>)
    ensures forall k :: 0 <= k < |r| ==> r[k] in Walk(Sub(root, p), p, PreOrder) && IsForkingPoint(Sub(root, r[k]))
  {
    PreorderWhere(root, p, q => IsForkingPoint(Sub(root, q)))
  }

  /** The leaves and forking points under p are exactly the childless and multi-child nodes. */
  lemma LeafAndForkMembers<V>(root: Tree<V>, p: Path, q: Path)
    requires ValidPath(root, p)
    ensures q in IterLeaf(root, p) <==>
      (InSubtree(p, q) && ValidPath(root, q) && |Sub(root, q).children| == 0)
    ensures q in IterForkingPoint(root, p) <==>
      (InSubtree(p, q) && ValidPath(root, q) && |Sub(root, q).children| > 1)
  {
    PreorderWhereMembers(root, p, q => IsLeaf(Sub(root, q)), q);
    PreorderWhereMembers(root, p, q => IsForkingPoint(Sub(root, q)), q);
  }

  datatype IterMode = PreorderMode | PostorderMode | UpstreamMode

  /** The iter_mode argument of iter_segment: one of the three node iterators. */
  function IterNodes<V>(root: Tree<V>, p: Path, mode: IterMode): seq<Path>
  {
    match mode
    case PreorderMode => Walk(Sub(root, p), p, PreOrder)
    case PostorderMode => Walk(Sub(root, p), p, PostOrder)
    case UpstreamMode => Upstream(p)
  }

  /** The nodes of an iteration that have a parent. */
  function NonRoot(it: seq<Path>): seq<Path>
  {
    Filter(it, q => q != [])
  }

  /** segment_iter: (parent value, value) for each node of the iteration that has a parent. */
  function SegmentIter<V>(root: Tree<V>, it: seq<Path>): (r: seq<(V, V)>)
  {
    var nr := NonRoot(it);
    seq(|nr|, k requires 0 <= k < |nr| => (Sub(root, Parent(nr[k])).value, Sub(root, nr[k]).value))
  }

  function IterSegment<V>(root: Tree<V>, p: Path, mode: IterMode): seq<(V, V)>
  {
    SegmentIter(root, IterNodes(root, p, mode))
  }

  /**
   * One segment per node that has a parent, in walk order: a whole tree has one segment
   * fewer than it has nodes; a subtree below the root has one per node.
   */
  lemma SegmentCount<V>(t: Tree<V>, p: Path, o: Order)
    ensures NonRoot(Walk(t, p, o)) ==
      (if p == [] then Kids(t, p, o, 0) else Walk(t, p, o))
    ensures |SegmentIter(t, Walk(t, p, o))| == |Walk(t, p, o)| - (if p == [] then 1 else 0)
  {
    var k := Kids(t, p, o, 0);
    var f := (q: Path) => q != [];
    forall i | 0 <= i < |k|
      ensures f(k[i])
    {
      KidsMembers(t, p, o, 0, k[i]);
    }
    FilterAll(k, f);
    if o == PreOrder {
      FilterConcat([p], k, f);
    } else {
      FilterConcat(k, [p], f);
    }
  }

  /** The triplets of one node: (parent, node, child) for each of its children. */
  function NodeTriplets<V>(root: Tree<V>, n: Path): seq<(Path, Path, Path)>
    requires n != []
  {
    var cs := Sub(root, n).children;
    seq(|cs|, c requires 0 <= c < |cs| => (Parent(n), n, n + [c as nat]))
  }

  /** iter_triplet: the triplets of each non-root, non-leaf node, in preorder. */
  function IterTriplet<V>(root: Tree<V>, p: Path): seq<(Path, Path, Path)>
  {
    var inner := PreorderWhere(root, p, q => q != [] && !IsLeaf(Sub(root, q)));
    Flatten(seq(|inner|, k requires 0 <= k < |inner| => NodeTriplets(root, inner[k])))
  }

  /** A triple of paths that is (parent, node, child) for a non-root node n under p. */
  predicate IsTriplet<V>(root: Tree<V>, p: Path, a: Path, n: Path, c: Path)
  {
    InSubtree(p, n) && ValidPath(root, n) && n != [] && a == Parent(n) &&
    |c| == |n| + 1 && c[..|n|] == n && c[|n|] < |Sub(root, n).children|
  }

  lemma TripletSound<V>(root: Tree<V>, p: Path, a: Path, n: Path, c: Path)
    requires ValidPath(root, p)
    requires (a, n, c) in IterTriplet(root, p)
    ensures IsTriplet(root, p, a, n, c)
  {
    var f := (q: Path) => q != [] && !IsLeaf(Sub(root, q));
    var inner := PreorderWhere(root, p, f);
    var ss := seq(|inner|, k requires 0 <= k < |inner| => NodeTriplets(root, inner[k]));
    FlattenMemberInv(ss, (a, n, c));
    var i, j :| 0 <= i < |ss| && 0 <= j < |ss[i]| && ss[i][j] == (a, n, c);
    var m := inner[i];
    assert m in inner && f(m);
    var cs := Sub(root, m).children;
    assert ss[i] == NodeTriplets(root, m);
    assert NodeTriplets(root, m)[j] == (Parent(m), m, m + [j]);
    assert n == m && a == Parent(m) && c == m + [j] && j < |cs|;
    assert c[..|n|] == n;
    PreorderWhereMembers(root, p, f, m);
  }

  lemma TripletComplete<V>(root: Tree<V>, p: Path, a: Path, n: Path, c: Path)
    requires ValidPath(root, p)
    requires IsTriplet(root, p, a, n, c)
    ensures (a, n, c) in IterTriplet(root, p)
  {
    var f := (q: Path) => q != [] && !IsLeaf(Sub(root, q));
    var inner := PreorderWhere(root, p, f);
    var ss := seq(|inner|, k requires 0 <= k < |inner| => NodeTriplets(root, inner[k]));
    PreorderWhereMembers(root, p, f, n);
    var i :| 0 <= i < |inner| && inner[i] == n;
    assert c == n + [c[|n|]];
    assert ss[i][c[|n|]] == (a, n, c);
    FlattenMember(ss, i, c[|n|]);
  }

  /** The triplets are exactly the (parent, node, child) triples of inner non-root nodes. */
  lemma TripletMembers<V>(root: Tree<V>, p: Path, a: Path, n: Path, c: Path)
    requires ValidPath(root, p)
    ensures (a, n, c) in IterTriplet(root, p) <==> IsTriplet(root, p, a, n, c)
  {
    if (a, n, c) in IterTriplet(root, p) {
      TripletSound(root, p, a, n, c);
    }
    if IsTriplet(root, p, a, n, c) {
      TripletComplete(root, p, a, n, c);
    }
  }

  /** Where an upstream section walk stops: at a forking point or at the root. */
  predicate SectionStop<V>(root: Tree<V>, a: Path)
  {
    a == [] || IsForkingPoint(Sub(root, a))
  }

  /** `a` and its ancestors, up to and including the first forking point or the root. */
  function UpToStop<V>(root: Tree<V>, a: Path): seq<Path>
    decreases |a|
  {
    if SectionStop(root, a) then [a] else [a] + UpToStop(root, Parent(a))
  }

  /** The section of iter_section ending at q, ordered from its start down to q. */
  function Section<V>(root: Tree<V>, q: Path): seq<Path>
  {
    Reverse(if q == [] then [q] else [q] + UpToStop(root, Parent(q)))
  }

  lemma {:induction false} UpToStopShape<V>(root: Tree<V>, a: Path)
    ensures |UpToStop(root, a)| >= 1 && UpToStop(root, a)[0] == a
    ensures SectionStop(root, UpToStop(root, a)[|UpToStop(root, a)| - 1])
    ensures forall k :: 0 <= k < |UpToStop(root, a)| - 1 ==>
      !SectionStop(root, UpToStop(root, a)[k]) && UpToStop(root, a)[k] != [] &&
      UpToStop(root, a)[k + 1] == Parent(UpToStop(root, a)[k])
    decreases |a|
  {
    if !SectionStop(root, a) {
      var rest := UpToStop(root, Parent(a));
      UpToStopShape(root, Parent(a));
      var u := UpToStop(root, a);
      assert u == [a] + rest;
      forall k | 0 < k < |u| - 1
        ensures !SectionStop(root, u[k]) && u[k] != [] && u[k + 1] == Parent(u[k])
      {
        assert u[k] == rest[k - 1] && u[k + 1] == rest[k];
      }
    }
  }

  /**
   * A section of a non-root node runs from its nearest proper ancestor that is a forking
   * point or the root, down through nodes that are neither, to the node itself.
   */
  lemma SectionShape<V>(root: Tree<V>, q: Path)
    requires q != []
    ensures |Section(root, q)| >= 2
    ensures Section(root, q)[|Section(root, q)| - 1] == q
    ensures SectionStop(root, Section(root, q)[0])
    ensures forall k :: 0 < k < |Section(root, q)| - 1 ==> !SectionStop(root, Section(root, q)[k])
    ensures forall k :: 0 < k < |Section(root, q)| ==>
      Section(root, q)[k] != [] && Section(root, q)[k - 1] == Parent(Section(root, q)[k])
  {
    var u := UpToStop(root, Parent(q));
    UpToStopShape(root, Parent(q));
    var up := [q] + u;
    forall k | 0 <= k < |up| - 1
      ensures up[k] != [] && up[k + 1] == Parent(up[k]) && (k > 0 ==> !SectionStop(root, up[k]))
    {
      if k > 0 {
        assert up[k] == u[k - 1] && up[k + 1] == u[k];
      }
    }
    assert up[|up| - 1] == u[|u| - 1];
    ChainReversed(root, up);
  }

  /** An upstream chain from a node to a stop, reversed, runs down from the stop to the node. */
  lemma ChainReversed<V>(root: Tree<V>, up: seq<Path>)
    requires |up| >= 2 && SectionStop(root, up[|up| - 1])
    requires forall k :: 0 <= k < |up| - 1 ==>
      up[k] != [] && up[k + 1] == Parent(up[k]) && (k > 0 ==> !SectionStop(root, up[k]))
    ensures |Reverse(up)| >= 2
    ensures Reverse(up)[|Reverse(up)| - 1] == up[0]
    ensures SectionStop(root, Reverse(up)[0])
    ensures forall k :: 0 < k < |Reverse(up)| - 1 ==> !SectionStop(root, Reverse(up)[k])
    ensures forall k :: 0 < k < |Reverse(up)| ==>
      Reverse(up)[k] != [] && Reverse(up)[k - 1] == Parent(Reverse(up)[k])
  {
    var s := Reverse(up);
    var n := |up|;
    forall k | 0 < k < n
      ensures s[k] != [] && s[k - 1] == Parent(s[k])
    {
      assert s[k] == up[n - 1 - k] && s[k - 1] == up[n - k];
    }
    forall k | 0 < k < n - 1
      ensures !SectionStop(root, s[k])
    {
      assert s[k] == up[n - 1 - k];
    }
  }

  /** get_section: walk upstream from q, stopping after the first forking point or the root. */
  method GetSection<V>(root: Tree<V>, q: Path) returns (r: seq<Path>)
    ensures r == Section(root, q)
  {
    var ui := IterUpstream(q);
    var sec := [ui[0]];
    var k := 1;
    while k < |ui|
      invariant 1 <= k <= |ui|
      invariant q != [] ==> k < |ui| && [q] + UpToStop(root, Parent(q)) == sec + UpToStop(root, ui[k])
      invariant q == [] ==> sec == [q]
    {
      var i := ui[k];
      sec := sec + [i];
      if IsForkingPoint(Sub(root, i)) || i == [] {
        break;
      }
      assert i != [] && k < |q|;
      k := k + 1;
    }
    r := Reverse(sec);
  }

  /** A good seed for an upstream section: a non-root leaf or forking point. */
  predicate SectionSeed<V>(root: Tree<V>, n: Path)
  {
    n != [] && (IsLeaf(Sub(root, n)) || IsForkingPoint(Sub(root, n)))
  }

  /** iter_section: one section per seed node under p, in preorder of the seeds. */
  function IterSection<V>(root: Tree<V>, p: Path): seq<seq<Path>>
  {
    var seeds := PreorderWhere(root, p, n => SectionSeed(root, n));
    seq(|seeds|, k requires 0 <= k < |seeds| => Section(root, seeds[k]))
  }

  /** Each section ends at its seed, and the seeds are exactly the non-root leaves and forks. */
  lemma IterSectionSeeds<V>(root: Tree<V>, p: Path, n: Path)
    requires ValidPath(root, p)
    ensures var seeds := PreorderWhere(root, p, n => SectionSeed(root, n));
      |IterSection(root, p)| == |seeds| &&
      (forall k :: 0 <= k < |seeds| ==> Section(root, seeds[k])[|Section(root, seeds[k])| - 1] == seeds[k]) &&
      (n in seeds <==> InSubtree(p, n) && ValidPath(root, n) && SectionSeed(root, n))
  {
    var seeds := PreorderWhere(root, p, n => SectionSeed(root, n));
    PreorderWhereMembers(root, p, n => SectionSeed(root, n), n);
    forall k | 0 <= k < |seeds|
      ensures Section(root, seeds[k])[|Section(root, seeds[k])| - 1] == seeds[k]
    {
      SectionShape(root, seeds[k]);
    }
  }

  /**
   * Tree.add_child over a store of mutable nodes: node i holds values[i], its parent link
   * (None for a root) and its ordered children.
   */
  class TreeStore<V> {
    var values: seq<V>
    var parent: seq<Option<nat>>
    var children: seq<seq<nat>>

    ghost predicate Valid()
      reads this
    {
      |values| == |parent| == |children| &&
      (forall i :: 0 <= i < |parent| && parent[i].Some? ==> parent[i].value < |values|) &&
      (forall i, k :: 0 <= i < |children| && 0 <= k < |children[i]| ==> children[i][k] < |values|)
    }

    constructor ()
      ensures Valid() && values == [] && parent == [] && children == []
    {
      values, parent, children := [], [], [];
    }

    /** Tree(value): a new node with no parent and no children. */
    method NewTree(v: V) returns (id: nat)
      requires Valid()
      modifies this
      ensures Valid()
      ensures id == |old(values)|
      ensures values == old(values) + [v]
      ensures parent == old(parent) + [None]
      ensures children == old(children) + [[]]
    {
      id := |values|;
      values, parent, children := values + [v], parent + [None], children + [[]];
    }

    /** add_child: append `c` to the children of `p`, make `p` its parent and return `c`. */
    method AddChild(p: nat, c: nat) returns (r: nat)
      requires Valid() && p < |values| && c < |values|
      modifies this
      ensures Valid()
      ensures r == c
      ensures values == old(values)
      ensures children == old(children)[p := old(children)[p] + [c]]
      ensures parent == old(parent)[c := Some(p)]
    {
      children := children[p := children[p] + [c]];
      parent := parent[c := Some(p)];
      r := c;
    }

    /** Assigning an attribute of node i, i.e. replacing its value; the links are untouched. */
    method SetValue(i: nat, v: V)
      requires Valid() && i < |values|
      modifies this
      ensures Valid()
      ensures values == old(values)[i := v] && parent == old(parent) && children == old(children)
    {
      values := values[i := v];
    }

    predicate IsRootNode(i: nat)
      reads this
      requires i < |parent|
    {
      parent[i].None?
    }
  }
}

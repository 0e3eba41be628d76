/**
 * Sections, neurites and their iterators (neurom/core/morphology.py).
 *
 * A morphio section tree is a Tree of SectionData; a Section is a node of such a tree,
 * named by the tree and its path, so that its parent and children are those of the node.
 * The explicit-stack iterators of Section are methods proved equal to the walks of Trees.
 */
module Morphology {
  import opened Wrappers
  import opened Seqs
  import opened Trees
  import opened Types
  import opened DataFormat

  datatype SectionData = SectionData(id: int, stype: NeuriteType, points: seq<Point>)

  type SecTree = Tree<SectionData>

  datatype Section = Section(tree: SecTree, path: Path)

  /** A neurite is named by its root section. */
  datatype Neurite = Neurite(root: Section)

  function Data(s: Section): SectionData
  {
    Sub(s.tree, s.path).value
  }

  function SecType(s: Section): NeuriteType
  {
    Data(s).stype
  }

  function NeuriteTypeOf(n: Neurite): NeuriteType
  {
    SecType(n.root)
  }

  predicate IsBifurcationPoint<V>(t: Tree<V>)
  {
    |t.children| == 2
  }

  /** is_homogeneous_point: no child has a type other than the section's own. */
  function IsHomogeneousPoint(t: SecTree): (b: bool)
    ensures b <==> forall i :: 0 <= i < |t.children| ==> t.children[i].value.stype == t.value.stype
  {
    var odd := Filter(t.children, (c: SecTree) => c.value.stype != t.value.stype);
    if odd == [] then
      assert forall i :: 0 <= i < |t.children| ==> !(t.children[i] in odd);
      true
    else
      assert odd[0] in t.children;
      false
  }

  /** reversed(children): the paths of the children from the last one down to the k-th. */
  function PushOrder(s: Path, k: nat, n: nat): (r: seq<Path>)
    ensures |r| == if k <= n then n - k else 0
  {
    if k >= n then [] else seq(n - k, j requires 0 <= j < n - k => s + [n - 1 - j])
  }

  /**
   * What remains to be yielded by a stack-driven walk: from the top of the stack down, a
   * node already expanded (in `seen`) is yielded alone, any other node with its subtree.
   */
  function Pending<V>(root: Tree<V>, st: seq<Path>, seen: set<Path>, o: Order): seq<Path>
    decreases |st|
  {
    if st == [] then []
    else
      var top := st[|st| - 1];
      (if top in seen then [top] else Walk(Sub(root, top), top, o)) + Pending(root, st[..|st| - 1], seen, o)
  }

  lemma {:induction false} PendingConcat<V>(root: Tree<V>, a: seq<Path>, b: seq<Path>, seen: set<Path>, o: Order)
    ensures Pending(root, a + b, seen, o) == Pending(root, b, seen, o) + Pending(root, a, seen, o)
    decreases |b|
  {
    if b == [] {
      assert a + b == a;
    } else {
      assert (a + b)[..|a + b| - 1] == a + b[..|b| - 1];
      assert (a + b)[|a + b| - 1] == b[|b| - 1];
      PendingConcat(root, a, b[..|b| - 1], seen, o);
    }
  }

  /** Pushing the children in reverse leaves their walks pending, first child on top. */
  lemma {:induction false} PendingPush<V>(root: Tree<V>, s: Path, k: nat, seen: set<Path>, o: Order)
    requires ValidPath(root, s)
    requires forall i :: k <= i < |Sub(root, s).children| ==> s + [i] !in seen
    ensures Pending(root, PushOrder(s, k, |Sub(root, s).children|), seen, o) == Kids(Sub(root, s), s, o, k)
    decreases |Sub(root, s).children| - k
  {
    var n := |Sub(root, s).children|;
    if k < n {
      var st := PushOrder(s, k, n);
      assert st[|st| - 1] == s + [k];
      assert st[..|st| - 1] == PushOrder(s, k + 1, n);
      SubChild(root, s, k);
      PendingPush(root, s, k + 1, seen, o);
    }
  }

  /** Marking a node that is not on the stack as seen changes nothing pending. */
  lemma {:induction false} PendingSeenAdd<V>(root: Tree<V>, st: seq<Path>, seen: set<Path>, x: Path, o: Order)
    requires forall i :: 0 <= i < |st| ==> st[i] != x
    ensures Pending(root, st, seen + {x}, o) == Pending(root, st, seen, o)
    decreases |st|
  {
    if st != [] {
      PendingSeenAdd(root, st[..|st| - 1], seen, x, o);
    }
  }

  /** The node on top of the stack comes out first, expanded unless it was seen. */
  lemma PendingTop<V>(root: Tree<V>, rest: seq<Path>, cur: Path, seen: set<Path>, o: Order)
    ensures Pending(root, rest + [cur], seen, o) ==
      (if cur in seen then [cur] else Walk(Sub(root, cur), cur, o)) + Pending(root, rest, seen, o)
  {
    var st := rest + [cur];
    assert st[..|st| - 1] == rest;
  }

  lemma LastSplit<T>(s: seq<T>)
    requires s != []
    ensures s == s[..|s| - 1] + [s[|s| - 1]]
  {
  }

  /** The children pushed on the stack are valid paths below the node. */
  lemma PushValid<V>(root: Tree<V>, cur: Path)
    requires ValidPath(root, cur)
    ensures var push := PushOrder(cur, 0, |Sub(root, cur).children|);
      forall j :: 0 <= j < |push| ==> ValidPath(root, push[j]) && push[j] == cur + [|push| - 1 - j]
  {
    var n := |Sub(root, cur).children|;
    forall j | 0 <= j < n
      ensures ValidPath(root, PushOrder(cur, 0, n)[j])
    {
      SubChild(root, cur, n - 1 - j);
    }
  }

  /** The top of ipreorder's stack is pending as itself, then its children's walks. */
  lemma PreorderTop<V>(root: Tree<V>, rest: seq<Path>, cur: Path)
    ensures Pending(root, rest + [cur], {}, PreOrder) ==
      ([cur] + Kids(Sub(root, cur), cur, PreOrder, 0)) + Pending(root, rest, {}, PreOrder)
  {
    PendingTop(root, rest, cur, {}, PreOrder);
  }

  /** After the children are pushed, their walks are pending above the rest of the stack. */
  lemma PreorderPushed<V>(root: Tree<V>, rest: seq<Path>, cur: Path)
    requires ValidPath(root, cur)
    ensures Pending(root, rest + PushOrder(cur, 0, |Sub(root, cur).children|), {}, PreOrder) ==
      Kids(Sub(root, cur), cur, PreOrder, 0) + Pending(root, rest, {}, PreOrder)
  {
    PendingPush(root, cur, 0, {}, PreOrder);
    PendingConcat(root, rest, PushOrder(cur, 0, |Sub(root, cur).children|), {}, PreOrder);
  }

  /** One step of ipreorder: the top is yielded and its children take its place, first child on top. */
  lemma PreorderStep<V>(root: Tree<V>, rest: seq<Path>, cur: Path)
    requires ValidPath(root, cur)
    ensures Pending(root, rest + [cur], {}, PreOrder) ==
      [cur] + Pending(root, rest + PushOrder(cur, 0, |Sub(root, cur).children|), {}, PreOrder)
  {
    var kids, below := Kids(Sub(root, cur), cur, PreOrder, 0), Pending(root, rest, {}, PreOrder);
    PreorderTop(root, rest, cur);
    PreorderPushed(root, rest, cur);
    ConcatAssoc([cur], kids, below);
  }

  /** ipreorder: pop a node, push its children in reverse, yield the node. */
  method IPreorder<V>(root: Tree<V>, p: Path) returns (r: seq<Path>)
    requires ValidPath(root, p)
    ensures r == Walk(Sub(root, p), p, PreOrder)
  {
    ghost var w := Walk(Sub(root, p), p, PreOrder);
    var stack := [p];
    r := [];
    while stack != []
      invariant forall i :: 0 <= i < |stack| ==> ValidPath(root, stack[i])
      invariant r + Pending(root, stack, {}, PreOrder) == w
      decreases |Pending(root, stack, {}, PreOrder)|
    {
      var cur := stack[|stack| - 1];
      LastSplit(stack);
      PreorderStep(root, stack[..|stack| - 1], cur);
      PushValid(root, cur);
      stack := stack[..|stack| - 1] + PushOrder(cur, 0, |Sub(root, cur).children|);
      r := r + [cur];
    }
  }

  /**
   * The invariant of ipostorder's stack: every stacked or expanded node lies in the walked
   * subtree, and a node not yet expanded has no expanded node in its subtree, no stacked node
   * above it in its subtree, and is itself in the subtree of no node below it.
   */
  ghost predicate PostStack<V>(root: Tree<V>, p: Path, st: seq<Path>, seen: set<Path>)
  {
    StackBelow(root, p, st) && SeenBelow(root, p, seen) &&
    UnseenHoldsNoSeen(st, seen) && UnseenHoldsNoLater(st, seen) && UnseenInNoEarlier(st, seen)
  }

  ghost predicate StackBelow<V>(root: Tree<V>, p: Path, st: seq<Path>)
  {
    forall i :: 0 <= i < |st| ==> InSubtree(p, st[i]) && ValidPath(root, st[i])
  }

  ghost predicate SeenBelow<V>(root: Tree<V>, p: Path, seen: set<Path>)
  {
    forall x :: x in seen ==> InSubtree(p, x) && ValidPath(root, x)
  }

  ghost predicate UnseenHoldsNoSeen(st: seq<Path>, seen: set<Path>)
  {
    forall i, x :: 0 <= i < |st| && st[i] !in seen && x in seen ==> !InSubtree(st[i], x)
  }

  ghost predicate UnseenHoldsNoLater(st: seq<Path>, seen: set<Path>)
  {
    forall i, j :: 0 <= i < j < |st| && st[i] !in seen ==> !InSubtree(st[i], st[j])
  }

  ghost predicate UnseenInNoEarlier(st: seq<Path>, seen: set<Path>)
  {
    forall i, j :: 0 <= i < j < |st| && st[j] !in seen ==> !InSubtree(st[j], st[i])
  }

  lemma InSubtreeTrans(a: Path, b: Path, c: Path)
    requires InSubtree(a, b) && InSubtree(b, c)
    ensures InSubtree(a, c)
  {
    assert c[..|a|] == c[..|b|][..|a|];
  }

  /** Two nodes on one path from the root: the shorter is an ancestor-or-self of the longer. */
  lemma InSubtreePrefix(a: Path, c: Path, s: Path, k: nat)
    requires c == s + [k] && InSubtree(a, c)
    ensures a == c || InSubtree(a, s)
  {
    if a != c {
      assert |a| <= |s|;
      assert s[..|a|] == c[..|a|];
    }
  }

  lemma ChildInSubtree(cur: Path, k: nat)
    ensures InSubtree(cur, cur + [k]) && cur + [k] != cur
  {
    assert (cur + [k])[..|cur|] == cur;
  }

  lemma ConcatAssoc<T>(a: seq<T>, b: seq<T>, c: seq<T>)
    ensures a + (b + c) == (a + b) + c
  {
  }

  /** The children of an unseen node, pushed in reverse, leave their walks pending. */
  lemma PushedKidsPending<V>(root: Tree<V>, cur: Path, seen: set<Path>)
    requires ValidPath(root, cur) && forall x :: x in seen ==> !InSubtree(cur, x)
    ensures Pending(root, PushOrder(cur, 0, |Sub(root, cur).children|), seen + {cur}, PostOrder) ==
      Kids(Sub(root, cur), cur, PostOrder, 0)
  {
    forall i | 0 <= i < |Sub(root, cur).children|
      ensures cur + [i] !in seen + {cur}
    {
      ChildInSubtree(cur, i);
    }
    PendingPush(root, cur, 0, seen + {cur}, PostOrder);
  }

  /** Once expanded, the top of the stack stands for itself alone. */
  lemma SeenTopPending<V>(root: Tree<V>, rest: seq<Path>, cur: Path, seen: set<Path>)
    requires forall i :: 0 <= i < |rest| ==> rest[i] != cur
    ensures Pending(root, rest + [cur], seen + {cur}, PostOrder) == [cur] + Pending(root, rest, seen, PostOrder)
  {
    PendingTop(root, rest, cur, seen + {cur}, PostOrder);
    PendingSeenAdd(root, rest, seen, cur, PostOrder);
  }

  /** Not yet expanded, the top of the stack stands for its whole subtree, itself last. */
  lemma UnseenTopPending<V>(root: Tree<V>, rest: seq<Path>, cur: Path, seen: set<Path>)
    requires cur !in seen
    ensures Pending(root, rest + [cur], seen, PostOrder) ==
      (Kids(Sub(root, cur), cur, PostOrder, 0) + [cur]) + Pending(root, rest, seen, PostOrder)
  {
    PendingTop(root, rest, cur, seen, PostOrder);
  }

  /** Expanding the top of the stack leaves the same walk pending. */
  lemma ExpandPending<V>(root: Tree<V>, rest: seq<Path>, cur: Path, seen: set<Path>)
    requires ValidPath(root, cur) && cur !in seen
    requires forall i :: 0 <= i < |rest| ==> rest[i] != cur
    requires forall x :: x in seen ==> !InSubtree(cur, x)
    ensures Pending(root, rest + [cur] + PushOrder(cur, 0, |Sub(root, cur).children|), seen + {cur}, PostOrder) ==
      Pending(root, rest + [cur], seen, PostOrder)
  {
    var push := PushOrder(cur, 0, |Sub(root, cur).children|);
    var kids := Kids(Sub(root, cur), cur, PostOrder, 0);
    var pr := Pending(root, rest, seen, PostOrder);
    PushedKidsPending(root, cur, seen);
    SeenTopPending(root, rest, cur, seen);
    UnseenTopPending(root, rest, cur, seen);
    PendingConcat(root, rest + [cur], push, seen + {cur}, PostOrder);
    ConcatAssoc(kids, [cur], pr);
  }

  /** The top of the stack, not yet expanded, is nowhere else on the stack and holds no expanded node. */
  lemma ExpandFacts<V>(root: Tree<V>, p: Path, rest: seq<Path>, cur: Path, seen: set<Path>)
    requires PostStack(root, p, rest + [cur], seen) && cur !in seen
    ensures forall i :: 0 <= i < |rest| ==> rest[i] != cur
    ensures forall x :: x in seen ==> !InSubtree(cur, x)
  {
    var st := rest + [cur];
    assert st[|rest|] == cur;
    forall i | 0 <= i < |rest|
      ensures rest[i] != cur
    {
      assert st[i] == rest[i];
      if rest[i] == cur {
        assert InSubtree(cur, cur);
      }
    }
  }

  /** The children pushed on the stack lie below the top, hence below the walked root. */
  lemma PushBelow<V>(root: Tree<V>, p: Path, cur: Path)
    requires ValidPath(root, cur) && InSubtree(p, cur)
    ensures forall j :: 0 <= j < |Sub(root, cur).children| ==>
      ValidPath(root, PushOrder(cur, 0, |Sub(root, cur).children|)[j]) &&
      InSubtree(cur, PushOrder(cur, 0, |Sub(root, cur).children|)[j]) &&
      InSubtree(p, PushOrder(cur, 0, |Sub(root, cur).children|)[j]) &&
      PushOrder(cur, 0, |Sub(root, cur).children|)[j] == cur + [|Sub(root, cur).children| - 1 - j]
  {
    var n := |Sub(root, cur).children|;
    var push := PushOrder(cur, 0, n);
    PushValid(root, cur);
    forall j | 0 <= j < n
      ensures InSubtree(cur, push[j]) && push[j] != cur && InSubtree(p, push[j])
    {
      ChildInSubtree(cur, n - 1 - j);
      InSubtreeTrans(p, cur, push[j]);
    }
  }

  lemma ExpandBelow<V>(root: Tree<V>, p: Path, rest: seq<Path>, cur: Path, seen: set<Path>)
    requires PostStack(root, p, rest + [cur], seen) && cur !in seen
    ensures var push := PushOrder(cur, 0, |Sub(root, cur).children|);
      StackBelow(root, p, rest + [cur] + push) && SeenBelow(root, p, seen + {cur})
  {
    var st := rest + [cur];
    assert st[|rest|] == cur;
    var push := PushOrder(cur, 0, |Sub(root, cur).children|);
    PushBelow(root, p, cur);
    var st2 := st + push;
    forall i | 0 <= i < |st2|
      ensures InSubtree(p, st2[i]) && ValidPath(root, st2[i])
    {
      if i >= |st| {
        var j := i - |st|;
        assert 0 <= j < |push|;
        assert st2[i] == push[j];
        assert ValidPath(root, push[j]) && InSubtree(p, push[j]);
      } else {
        assert st2[i] == st[i];
      }
    }
  }

  lemma ExpandNoSeen<V>(root: Tree<V>, p: Path, rest: seq<Path>, cur: Path, seen: set<Path>)
    requires PostStack(root, p, rest + [cur], seen) && cur !in seen
    ensures UnseenHoldsNoSeen(rest + [cur] + PushOrder(cur, 0, |Sub(root, cur).children|), seen + {cur})
  {
    var st := rest + [cur];
    var n0 := |rest|;
    assert st[n0] == cur;
    var push := PushOrder(cur, 0, |Sub(root, cur).children|);
    PushBelow(root, p, cur);
    ExpandFacts(root, p, rest, cur, seen);
    var st2 := st + push;
    var seen2 := seen + {cur};
    forall i, x | 0 <= i < |st2| && st2[i] !in seen2 && x in seen2
      ensures !InSubtree(st2[i], x)
    {
      if i < |st| {
        assert st2[i] == st[i];
      } else {
        var c := push[i - |st|];
        assert st2[i] == c;
        if x == cur {
          assert |c| > |cur|;
        } else if InSubtree(c, x) {
          InSubtreeTrans(cur, c, x);
        }
      }
    }
  }

  lemma ExpandNoLater<V>(root: Tree<V>, p: Path, rest: seq<Path>, cur: Path, seen: set<Path>)
    requires PostStack(root, p, rest + [cur], seen) && cur !in seen
    ensures UnseenHoldsNoLater(rest + [cur] + PushOrder(cur, 0, |Sub(root, cur).children|), seen + {cur})
  {
    var st := rest + [cur];
    var n0 := |rest|;
    assert st[n0] == cur;
    var n := |Sub(root, cur).children|;
    var push := PushOrder(cur, 0, n);
    PushBelow(root, p, cur);
    var st2 := st + push;
    var seen2 := seen + {cur};
    forall i, j | 0 <= i < j < |st2| && st2[i] !in seen2
      ensures !InSubtree(st2[i], st2[j])
    {
      if j < |st| {
        assert st2[i] == st[i] && st2[j] == st[j];
      } else if i < |st| {
        assert i < n0 && st2[i] == st[i];
        var c := push[j - |st|];
        assert st2[j] == c;
      } else {
        assert st2[i] == push[i - |st|] && st2[j] == push[j - |st|];
        assert st2[j][|cur|] != st2[i][|cur|];
      }
    }
  }

  lemma ExpandNoEarlier<V>(root: Tree<V>, p: Path, rest: seq<Path>, cur: Path, seen: set<Path>)
    requires PostStack(root, p, rest + [cur], seen) && cur !in seen
    ensures UnseenInNoEarlier(rest + [cur] + PushOrder(cur, 0, |Sub(root, cur).children|), seen + {cur})
  {
    var st := rest + [cur];
    var n0 := |rest|;
    assert st[n0] == cur;
    var n := |Sub(root, cur).children|;
    var push := PushOrder(cur, 0, n);
    PushBelow(root, p, cur);
    var st2 := st + push;
    var seen2 := seen + {cur};
    forall i, j | 0 <= i < j < |st2| && st2[j] !in seen2
      ensures !InSubtree(st2[j], st2[i])
    {
      if j < |st| {
        assert st2[i] == st[i] && st2[j] == st[j];
      } else if i < |st| {
        var c := push[j - |st|];
        assert st2[j] == c && st2[i] == st[i];
        if InSubtree(c, st[i]) {
          InSubtreeTrans(cur, c, st[i]);
        }
      } else {
        assert st2[i] == push[i - |st|] && st2[j] == push[j - |st|];
        assert st2[j][|cur|] != st2[i][|cur|];
      }
    }
  }

  /** Popping an expanded node yields it and keeps the stack invariant. */
  lemma PopStep<V>(root: Tree<V>, p: Path, rest: seq<Path>, cur: Path, seen: set<Path>)
    requires PostStack(root, p, rest + [cur], seen) && cur in seen
    ensures PostStack(root, p, rest, seen)
    ensures Pending(root, rest + [cur], seen, PostOrder) == [cur] + Pending(root, rest, seen, PostOrder)
  {
    var st := rest + [cur];
    assert st[..|st| - 1] == rest;
    assert forall i :: 0 <= i < |rest| ==> rest[i] == st[i];
  }

  /** Expanding the top of the stack keeps the stack invariant of ipostorder. */
  lemma ExpandInv<V>(root: Tree<V>, p: Path, rest: seq<Path>, cur: Path, seen: set<Path>)
    requires PostStack(root, p, rest + [cur], seen) && cur !in seen
    ensures forall i :: 0 <= i < |rest| ==> rest[i] != cur
    ensures forall x :: x in seen ==> !InSubtree(cur, x)
    ensures PostStack(root, p, rest + [cur] + PushOrder(cur, 0, |Sub(root, cur).children|), seen + {cur})
  {
    ExpandFacts(root, p, rest, cur, seen);
    ExpandBelow(root, p, rest, cur, seen);
    ExpandNoSeen(root, p, rest, cur, seen);
    ExpandNoLater(root, p, rest, cur, seen);
    ExpandNoEarlier(root, p, rest, cur, seen);
  }

  /**
   * ipostorder: look at the top of the stack; the first time, mark it seen and push its
   * children in reverse; the second time, pop it and yield it.
   */
  method IPostorder<V>(root: Tree<V>, p: Path) returns (r: seq<Path>)
    requires ValidPath(root, p)
    ensures r == Walk(Sub(root, p), p, PostOrder)
  {
    ghost var w := Walk(Sub(root, p), p, PostOrder);
    ghost var nodes := set x | x in w;
    var stack := [p];
    var seen: set<Path> := {};
    r := [];
    assert InSubtree(p, p);
    while stack != []
      invariant PostStack(root, p, stack, seen)
      invariant seen <= nodes
      invariant r + Pending(root, stack, seen, PostOrder) == w
      decreases |Pending(root, stack, seen, PostOrder)|, |nodes - seen|
    {
      stack, seen, r := PostorderStep(root, p, w, nodes, stack, seen, r);
    }
  }

  /** One turn of ipostorder's loop: expand the top of the stack, or pop and yield it. */
  method PostorderStep<V>(root: Tree<V>, p: Path, ghost w: seq<Path>, ghost nodes: set<Path>,
                          stack: seq<Path>, seen: set<Path>, r: seq<Path>)
    returns (stack': seq<Path>, seen': set<Path>, r': seq<Path>)
    requires ValidPath(root, p) && w == Walk(Sub(root, p), p, PostOrder) && nodes == set x | x in w
    requires stack != [] && PostStack(root, p, stack, seen) && seen <= nodes
    requires r + Pending(root, stack, seen, PostOrder) == w
    ensures PostStack(root, p, stack', seen') && seen' <= nodes
    ensures r' + Pending(root, stack', seen', PostOrder) == w
    ensures |Pending(root, stack', seen', PostOrder)| < |Pending(root, stack, seen, PostOrder)| ||
      (|Pending(root, stack', seen', PostOrder)| == |Pending(root, stack, seen, PostOrder)| && |nodes - seen'| < |nodes - seen|)
  {
    var cur := stack[|stack| - 1];
    if cur !in seen {
      ExpandTurn(root, p, w, nodes, stack, seen);
      stack' := stack + PushOrder(cur, 0, |Sub(root, cur).children|);
      seen' := seen + {cur};
      r' := r;
    } else {
      PopTurn(root, p, stack, seen);
      stack', seen', r' := stack[..|stack| - 1], seen, r + [cur];
    }
  }

  /** Expanding an unseen top keeps the stack invariant and the pending walk, and marks one more node. */
  lemma ExpandTurn<V>(root: Tree<V>, p: Path, w: seq<Path>, nodes: set<Path>, stack: seq<Path>, seen: set<Path>)
    requires ValidPath(root, p) && w == Walk(Sub(root, p), p, PostOrder) && nodes == set x | x in w
    requires stack != [] && PostStack(root, p, stack, seen) && seen <= nodes && stack[|stack| - 1] !in seen
    ensures var cur := stack[|stack| - 1];
      var st := stack + PushOrder(cur, 0, |Sub(root, cur).children|);
      PostStack(root, p, st, seen + {cur}) && seen + {cur} <= nodes && |nodes - (seen + {cur})| < |nodes - seen| &&
      Pending(root, st, seen + {cur}, PostOrder) == Pending(root, stack, seen, PostOrder)
  {
    var cur := stack[|stack| - 1];
    var rest := stack[..|stack| - 1];
    LastSplit(stack);
    assert stack[|rest|] == cur;
    WalkMembersAt(root, p, PostOrder, cur);
    ExpandInv(root, p, rest, cur, seen);
    ExpandPending(root, rest, cur, seen);
    assert (nodes - (seen + {cur})) < (nodes - seen);
  }

  /** Popping a seen top keeps the stack invariant; the popped node comes first in the pending walk. */
  lemma PopTurn<V>(root: Tree<V>, p: Path, stack: seq<Path>, seen: set<Path>)
    requires stack != [] && PostStack(root, p, stack, seen) && stack[|stack| - 1] in seen
    ensures PostStack(root, p, stack[..|stack| - 1], seen)
    ensures Pending(root, stack, seen, PostOrder) == [stack[|stack| - 1]] + Pending(root, stack[..|stack| - 1], seen, PostOrder)
  {
    LastSplit(stack);
    PopStep(root, p, stack[..|stack| - 1], stack[|stack| - 1], seen);
  }

  /** iupstream(stop_node): yield sections upward until the stop condition, then that one too. */
  method IUpstream<V>(root: Tree<V>, p: Path, stop: Option<Path>) returns (r: seq<Path>, raised: bool)
    ensures stop.None? ==> !raised && r == Upstream(p)
    ensures stop.Some? && InSubtree(stop.value, p) ==>
      !raised && r == Upstream(p)[..|p| - |stop.value| + 1]
    ensures stop.Some? && !InSubtree(stop.value, p) ==> raised && r == Upstream(p)
  {
    UpstreamShape(p);
    var u := Upstream(p);
    var cur: Option<Path> := Some(p);
    var k := 0;
    r := [];
    while match stop { case None => cur.value != [] case Some(sn) => cur != Some(sn) }
      invariant 0 <= k <= |p| + 1 && r == u[..k]
      invariant k <= |p| ==> cur == Some(u[k])
      invariant k == |p| + 1 ==> cur.None?
      invariant stop.None? ==> k <= |p|
      invariant stop.Some? && InSubtree(stop.value, p) ==> k <= |p| - |stop.value|
      invariant stop.Some? ==> forall j :: 0 <= j < k ==> u[j] != stop.value
      decreases |p| + 1 - k
    {
      if cur.None? {
        // None == stop_node calls the stop section's __eq__ with None: AttributeError.
        raised := true;
        return;
      }
      r := r + [cur.value];
      if k < |p| {
        assert u[k + 1] == p[..|p| - k][..|p| - k - 1];
      }
      cur := if cur.value == [] then None else Some(Parent(cur.value));
      k := k + 1;
    }
    r := r + [cur.value];
    raised := false;
  }

  /** ileaf, iforking_point and ibifurcation_point: the nodes of a walk with 0, >1 or 2 children. */
  function ILeaf<V>(root: Tree<V>, p: Path): seq<Path>
  {
    Filter(Walk(Sub(root, p), p, PreOrder), q => IsLeaf(Sub(root, q)))
  }

  function IForkingPoint<V>(root: Tree<V>, p: Path, o: Order): seq<Path>
  {
    Filter(Walk(Sub(root, p), p, o), q => IsForkingPoint(Sub(root, q)))
  }

  function IBifurcationPoint<V>(root: Tree<V>, p: Path, o: Order): seq<Path>
  {
    Filter(Walk(Sub(root, p), p, o), q => IsBifurcationPoint(Sub(root, q)))
  }

  /** The three filtered iterators visit exactly the nodes with 0, more than 1, and 2 children. */
  lemma FilteredIteratorMembers<V>(root: Tree<V>, p: Path, o: Order, q: Path)
    requires ValidPath(root, p)
    ensures q in ILeaf(root, p) <==>
      (InSubtree(p, q) && ValidPath(root, q) && |Sub(root, q).children| == 0)
    ensures q in IForkingPoint(root, p, o) <==>
      (InSubtree(p, q) && ValidPath(root, q) && |Sub(root, q).children| > 1)
    ensures q in IBifurcationPoint(root, p, o) <==>
      (InSubtree(p, q) && ValidPath(root, q) && |Sub(root, q).children| == 2)
  {
    WalkMembersAt(root, p, PreOrder, q);
    WalkMembersAt(root, p, o, q);
  }

  /** NRN_ORDER, with every other type after all of them. */
  function NrnKey(t: NeuriteType): nat
  {
    match t
    case Soma => 0
    case Axon => 1
    case BasalDendrite => 2
    case ApicalDendrite => 3
    case Undefined => 4
    case _ => 5
  }

  predicate SortedBy<T>(s: seq<T>, key: T -> nat)
  {
    forall i, j :: 0 <= i < j < |s| ==> key(s[i]) <= key(s[j])
  }

  /** The elements whose key is k. */
  function KeyIs<T>(key: T -> nat, k: nat): T -> bool
  {
    y => key(y) == k
  }

  /** Insert x before the first element whose key is not smaller than its own. */
  function InsertByKey<T>(x: T, s: seq<T>, key: T -> nat): seq<T>
  {
    if s == [] || key(x) <= key(s[0]) then [x] + s
    else [s[0]] + InsertByKey(x, s[1..], key)
  }

  /** sorted(s, key=key): Python's stable sort, as insertion of each element, last one first. */
  function SortByKey<T>(s: seq<T>, key: T -> nat): seq<T>
  {
    if s == [] then [] else InsertByKey(s[0], SortByKey(s[1..], key), key)
  }

  /** Inserting adds exactly x, and the result starts with x or with the old first element. */
  lemma {:induction false} InsertPerm<T>(x: T, s: seq<T>, key: T -> nat)
    ensures multiset(InsertByKey(x, s, key)) == multiset(s) + multiset{x}
    ensures InsertByKey(x, s, key) != []
    ensures InsertByKey(x, s, key)[0] == x || (s != [] && InsertByKey(x, s, key)[0] == s[0])
  {
    if s != [] && key(x) > key(s[0]) {
      InsertPerm(x, s[1..], key);
      assert s == [s[0]] + s[1..];
    }
  }

  /** Inserting into a sorted sequence keeps it sorted. */
  lemma {:induction false} InsertSorted<T>(x: T, s: seq<T>, key: T -> nat)
    requires SortedBy(s, key)
    ensures SortedBy(InsertByKey(x, s, key), key)
  {
    if s != [] && key(x) > key(s[0]) {
      var tail := s[1..];
      assert SortedBy(tail, key);
      InsertSorted(x, tail, key);
      InsertPerm(x, tail, key);
      var ins := InsertByKey(x, tail, key);
      assert s == [s[0]] + tail;
      var r := [s[0]] + ins;
      forall i, j | 0 <= i < j < |r|
        ensures key(r[i]) <= key(r[j])
      {
        if i == 0 {
          if j == 1 && ins[0] != x {
            assert ins[0] == s[1];
          } else if j > 1 {
            assert key(ins[0]) <= key(ins[j - 1]);
            if ins[0] != x {
              assert ins[0] == s[1];
            }
          }
        } else {
          assert r[i] == ins[i - 1] && r[j] == ins[j - 1];
        }
      }
    }
  }

  /** Inserting x puts it first among the elements of its own key and moves no other element of any key. */
  lemma {:induction false} InsertBucket<T>(x: T, s: seq<T>, key: T -> nat, k: nat)
    ensures Filter(InsertByKey(x, s, key), KeyIs(key, k)) ==
      (if key(x) == k then [x] else []) + Filter(s, KeyIs(key, k))
  {
    if s != [] && key(x) > key(s[0]) {
      InsertBucket(x, s[1..], key, k);
      var ins := InsertByKey(x, s[1..], key);
      assert ([s[0]] + ins)[0] == s[0] && ([s[0]] + ins)[1..] == ins;
      assert key(x) != k || key(s[0]) != k;
    } else {
      assert ([x] + s)[0] == x && ([x] + s)[1..] == s;
    }
  }

  /**
   * NRN order is a stable sort: the result is sorted by key, and the elements of each key
   * keep their original relative order (so the result is a permutation of the input).
   */
  lemma {:induction false} SortByKeyStable<T>(s: seq<T>, key: T -> nat, k: nat)
    ensures SortedBy(SortByKey(s, key), key)
    ensures Filter(SortByKey(s, key), KeyIs(key, k)) == Filter(s, KeyIs(key, k))
    ensures multiset(SortByKey(s, key)) == multiset(s)
  {
    if s != [] {
      SortByKeyStable(s[1..], key, k);
      InsertSorted(s[0], SortByKey(s[1..], key), key);
      InsertPerm(s[0], SortByKey(s[1..], key), key);
      InsertBucket(s[0], SortByKey(s[1..], key), key, k);
      assert s == [s[0]] + s[1..];
    }
  }

  function NeuriteNrnKey(n: Neurite): nat
  {
    NrnKey(NeuriteTypeOf(n))
  }

  /** The neurites in NRN order: soma, axon, basal, apical, undefined, then every other type. */
  function NrnSorted(ns: seq<Neurite>): seq<Neurite>
  {
    SortByKey(ns, NeuriteNrnKey)
  }

  /** A section whose type differs from its parent's starts a homogeneous subtree. */
  function TypeChanges(n: Neurite): seq<Path>
  {
    var t, b := n.root.tree, n.root.path;
    var w := Walk(Sub(t, b), b, PreOrder);
    Filter(w[1..], q => q != [] && Sub(t, q).value.stype != Sub(t, Parent(q)).value.stype)
  }

  /**
   * _homogeneous_subtrees: the neurite itself, then the sections of a new type in preorder,
   * each as a neurite of its own; and whether the warning is issued.
   */
  function HomogeneousSubtrees(n: Neurite): (r: (seq<Neurite>, bool))
    ensures |r.0| == |TypeChanges(n)| + 1 && r.0[0] == n
    ensures forall i :: 1 <= i < |r.0| ==> r.0[i] == Neurite(Section(n.root.tree, TypeChanges(n)[i - 1]))
    ensures r.1 ==> |r.0| >= 2
  {
    var subs := [n] + NeuritesAt(n.root.tree, TypeChanges(n));
    var types := seq(|subs|, i requires 0 <= i < |subs| => NeuriteTypeOf(subs[i]));
    (subs, |subs| >= 2 && types != [Axon, BasalDendrite])
  }

  /** One neurite rooted at each of the given sections of a tree. */
  function NeuritesAt(t: SecTree, ps: seq<Path>): (r: seq<Neurite>)
    ensures |r| == |ps| && forall i :: 0 <= i < |ps| ==> r[i] == Neurite(Section(t, ps[i]))
  {
    seq(|ps|, i requires 0 <= i < |ps| => Neurite(Section(t, ps[i])))
  }

  /** is_heterogeneous: some section downstream of the root has another type. */
  predicate IsHeterogeneous(n: Neurite)
  {
    var t, b := n.root.tree, n.root.path;
    exists q :: q in Walk(Sub(t, b), b, PreOrder) && Sub(t, q).value.stype != Sub(t, b).value.stype
  }

  lemma TailMembers<V>(t: Tree<V>, b: Path, q: Path)
    requires ValidPath(t, b)
    ensures var w := Walk(Sub(t, b), b, PreOrder);
      q in w[1..] <==> (IsAncestor(b, q) && ValidPath(t, q))
  {
    var w := Walk(Sub(t, b), b, PreOrder);
    WalkMembersAt(t, b, PreOrder, q);
    if q in w[1..] {
      var i :| 0 <= i < |w[1..]| && w[1..][i] == q;
      WalkDistinct(Sub(t, b), b, PreOrder, 0, i + 1);
      assert q != b;
    }
    if IsAncestor(b, q) && ValidPath(t, q) {
      assert q != b && q in w;
      var i :| 0 <= i < |w| && w[i] == q;
      assert i != 0;
      assert w[1..][i - 1] == q;
    }
  }

  /** The extra subtrees start exactly at the sections below the root whose type differs from the parent's. */
  lemma TypeChangeMembers(n: Neurite, q: Path)
    requires ValidPath(n.root.tree, n.root.path)
    ensures var t := n.root.tree;
      q in TypeChanges(n) <==>
        (IsAncestor(n.root.path, q) && ValidPath(t, q) && Sub(t, q).value.stype != Sub(t, Parent(q)).value.stype)
  {
    TailMembers(n.root.tree, n.root.path, q);
  }

  /** Walking up towards the root from a section of another type meets a change of type. */
  lemma {:induction false} FindTypeChange(t: SecTree, b: Path, q: Path)
    requires ValidPath(t, b) && InSubtree(b, q) && ValidPath(t, q)
    requires Sub(t, q).value.stype != Sub(t, b).value.stype
    ensures exists c :: IsAncestor(b, c) && ValidPath(t, c) && Sub(t, c).value.stype != Sub(t, Parent(c)).value.stype
    decreases |q|
  {
    assert q != b;
    var pq := Parent(q);
    assert InSubtree(b, pq) by {
      assert pq[..|b|] == q[..|b|];
    }
    ParentValid(t, q);
    if Sub(t, pq).value.stype != Sub(t, q).value.stype {
      assert IsAncestor(b, q);
    } else {
      FindTypeChange(t, b, pq);
    }
  }

  lemma {:induction false} ValidPrefix<V>(t: Tree<V>, a: Path, c: Path)
    requires ValidPath(t, a + c)
    ensures ValidPath(t, a)
    decreases |a|
  {
    if a != [] {
      assert (a + c)[0] == a[0] && (a + c)[1..] == a[1..] + c;
      ValidPrefix(t.children[a[0]], a[1..], c);
    }
  }

  /** The parent of a valid non-root path is valid. */
  lemma ParentValid<V>(t: Tree<V>, c: Path)
    requires c != [] && ValidPath(t, c)
    ensures ValidPath(t, Parent(c))
  {
    assert Parent(c) + [c[|c| - 1]] == c;
    ValidPrefix(t, Parent(c), [c[|c| - 1]]);
  }

  /** A heterogeneous neurite has at least one section where the type changes. */
  lemma HeterogeneousSplits(n: Neurite)
    requires ValidPath(n.root.tree, n.root.path) && IsHeterogeneous(n)
    ensures |HomogeneousSubtrees(n).0| >= 2
  {
    var t, b := n.root.tree, n.root.path;
    var w := Walk(Sub(t, b), b, PreOrder);
    var q :| q in w && Sub(t, q).value.stype != Sub(t, b).value.stype;
    WalkMembersAt(t, b, PreOrder, q);
    FindTypeChange(t, b, q);
    var c :| IsAncestor(b, c) && ValidPath(t, c) && Sub(t, c).value.stype != Sub(t, Parent(c)).value.stype;
    TypeChangeMembers(n, c);
  }

  /** A change of type below the root makes the neurite heterogeneous. */
  lemma SplitHeterogeneous(n: Neurite)
    requires ValidPath(n.root.tree, n.root.path) && |HomogeneousSubtrees(n).0| >= 2
    ensures IsHeterogeneous(n)
  {
    var t, b := n.root.tree, n.root.path;
    var w := Walk(Sub(t, b), b, PreOrder);
    assert |HomogeneousSubtrees(n).0| == 1 + |TypeChanges(n)|;
    var c := TypeChanges(n)[0];
    assert c in TypeChanges(n);
    TypeChangeMembers(n, c);
    var pc := Parent(c);
    assert InSubtree(b, pc) by {
      assert pc[..|b|] == c[..|b|];
    }
    ParentValid(t, c);
    WalkMembersAt(t, b, PreOrder, c);
    WalkMembersAt(t, b, PreOrder, pc);
    if Sub(t, c).value.stype != Sub(t, b).value.stype {
      assert c in w;
    } else {
      assert pc in w && Sub(t, pc).value.stype != Sub(t, b).value.stype;
    }
  }

  /** A neurite splits into two or more homogeneous subtrees exactly when it is heterogeneous. */
  lemma HeterogeneousIffSplit(n: Neurite)
    requires ValidPath(n.root.tree, n.root.path)
    ensures IsHeterogeneous(n) <==> |HomogeneousSubtrees(n).0| >= 2
  {
    if IsHeterogeneous(n) {
      HeterogeneousSplits(n);
    }
    if |HomogeneousSubtrees(n).0| >= 2 {
      SplitHeterogeneous(n);
    }
  }

  /** An axon whose only change of type is to a basal dendrite is an axon-carrying dendrite: no warning. */
  lemma AxonCarryingNoWarning(n: Neurite)
    requires |TypeChanges(n)| == 1 && NeuriteTypeOf(n) == Axon
    requires NeuriteTypeOf(Neurite(Section(n.root.tree, TypeChanges(n)[0]))) == BasalDendrite
    ensures |HomogeneousSubtrees(n).0| == 2 && !HomogeneousSubtrees(n).1
  {
    var subs := HomogeneousSubtrees(n).0;
    assert |subs| == 2 && subs[0] == n;
    assert subs[1] == Neurite(Section(n.root.tree, TypeChanges(n)[0]));
    var types := seq(|subs|, i requires 0 <= i < |subs| => NeuriteTypeOf(subs[i]));
    assert types[0] == Axon && types[1] == BasalDendrite;
    assert types == [Axon, BasalDendrite];
  }

  /** Any other split into two or more subtrees is warned about. */
  lemma OtherSplitWarns(n: Neurite)
    requires |TypeChanges(n)| >= 1
    requires |TypeChanges(n)| >= 2 || NeuriteTypeOf(n) != Axon ||
      NeuriteTypeOf(Neurite(Section(n.root.tree, TypeChanges(n)[0]))) != BasalDendrite
    ensures |HomogeneousSubtrees(n).0| >= 2 && HomogeneousSubtrees(n).1
  {
    var subs := HomogeneousSubtrees(n).0;
    var types := seq(|subs|, i requires 0 <= i < |subs| => NeuriteTypeOf(subs[i]));
    if |types| == 2 {
      assert types[0] != Axon || types[1] != BasalDendrite;
    }
  }

  /** The first argument of iter_neurites: a neurite, a morphology, or a collection of neurites. */
  datatype NeuriteSource =
    | OneNeurite(n: Neurite)
    | MorphologyRoots(roots: seq<SecTree>)
    | NeuriteList(ns: seq<Neurite>)

  function SourceNeurites(src: NeuriteSource): seq<Neurite>
  {
    match src
    case OneNeurite(n) => [n]
    case MorphologyRoots(roots) => seq(|roots|, i requires 0 <= i < |roots| => Neurite(Section(roots[i], [])))
    case NeuriteList(ns) => ns
  }

  /** The neurites of iter_neurites before mapping: ordered, split into subtrees, filtered. */
  function IterNeurites(src: NeuriteSource, filt: Option<Neurite -> bool>, order: NeuriteIter, useSubtrees: bool): (r: seq<Neurite>)
    ensures filt.Some? ==> forall i :: 0 <= i < |r| ==> filt.value(r[i])
    ensures !useSubtrees && filt.None? ==> multiset(r) == multiset(SourceNeurites(src))
  {
    var ns := SourceNeurites(src);
    SortByKeyStable(ns, NeuriteNrnKey, 0);
    var ordered := if order == NRN then NrnSorted(ns) else ns;
    var split := if useSubtrees then
        Flatten(SplitParts(ordered))
      else ordered;
    match filt
    case None => split
    case Some(f) => Filter(split, f)
  }

  /**
   * iter_neurites with a mapping function: with use_subtrees the function also receives the
   * neurite's type as section_type.
   */
  function IterNeuritesMap<T>(src: NeuriteSource, mapfun: (Neurite, Option<NeuriteType>) -> T,
                              filt: Option<Neurite -> bool>, order: NeuriteIter, useSubtrees: bool): (r: seq<T>)
    ensures |r| == |IterNeurites(src, filt, order, useSubtrees)|
    ensures forall i :: 0 <= i < |r| ==>
      var n := IterNeurites(src, filt, order, useSubtrees)[i];
      r[i] == mapfun(n, if useSubtrees then Some(NeuriteTypeOf(n)) else None)
  {
    var ns := IterNeurites(src, filt, order, useSubtrees);
    seq(|ns|, i requires 0 <= i < |ns| =>
      mapfun(ns[i], if useSubtrees then Some(NeuriteTypeOf(ns[i])) else None))
  }

  /** Without subtrees, iter_neurites yields exactly the source neurites that pass the filter. */
  lemma IterNeuritesMembers(src: NeuriteSource, filt: Option<Neurite -> bool>, order: NeuriteIter, n: Neurite)
    ensures n in IterNeurites(src, filt, order, false) <==>
      (n in SourceNeurites(src) && (filt.None? || filt.value(n)))
  {
    var ns := SourceNeurites(src);
    var ordered := if order == NRN then NrnSorted(ns) else ns;
    SortByKeyStable(ns, NeuriteNrnKey, 0);
    assert multiset(ordered) == multiset(ns);
    assert n in ordered <==> n in multiset(ordered);
  }

  /** In NRN order the neurites come sorted by type, and those of one type keep their file order. */
  lemma IterNeuritesNrnOrder(src: NeuriteSource, k: nat)
    ensures SortedBy(IterNeurites(src, None, NRN, false), NeuriteNrnKey)
    ensures Filter(IterNeurites(src, None, NRN, false), KeyIs(NeuriteNrnKey, k)) ==
      Filter(SourceNeurites(src), KeyIs(NeuriteNrnKey, k))
  {
    SortByKeyStable(SourceNeurites(src), NeuriteNrnKey, k);
  }

  /** How far a lazy iterator got: what it yielded, and the exception it then raised, if any. */
  datatype Yield<T> = Yield(items: seq<T>, raised: Option<Exception>)

  /** The neurites of a source in the requested order. */
  function OrderedNeurites(src: NeuriteSource, order: NeuriteIter): seq<Neurite>
  {
    var ns := SourceNeurites(src);
    if order == NRN then NrnSorted(ns) else ns
  }

  /** The position of the first heterogeneous neurite, or the length when there is none. */
  function FirstHeterogeneous(ns: seq<Neurite>): (k: nat)
    ensures k <= |ns|
    ensures forall i :: 0 <= i < k ==> !IsHeterogeneous(ns[i])
    ensures k < |ns| ==> IsHeterogeneous(ns[k])
  {
    if ns == [] then 0 else if IsHeterogeneous(ns[0]) then 0 else 1 + FirstHeterogeneous(ns[1..])
  }

  /**
   * iter_neurites as written, before mapping. _homogeneous_subtrees builds each subtree from
   * `section.morphio_section`, an attribute Section does not have, so with use_subtrees the
   * lazy chain yields the filtered neurites ahead of the first heterogeneous one and then
   * raises AttributeError. IterNeurites is the behaviour intended, through to_morphio().
   */
  function IterNeuritesAsWritten(src: NeuriteSource, filt: Option<Neurite -> bool>, order: NeuriteIter,
                                 useSubtrees: bool): (r: Yield<Neurite>)
    ensures r.raised.Some? ==> r.raised.value == AttributeError
  {
    var ordered := OrderedNeurites(src, order);
    var k := if useSubtrees then FirstHeterogeneous(ordered) else |ordered|;
    var yielded := match filt
      case None => ordered[..k]
      case Some(f) => Filter(ordered[..k], f);
    Yield(yielded, if k < |ordered| then Some(AttributeError) else None)
  }

  /** Lists that each hold one element flatten to those elements. */
  lemma {:induction false} FlattenSingletons<T>(parts: seq<seq<T>>, xs: seq<T>, k: nat)
    requires k <= |parts| && k <= |xs| && forall i :: 0 <= i < k ==> parts[i] == [xs[i]]
    ensures Flatten(parts[..k]) == xs[..k]
  {
    if k > 0 {
      FlattenSingletons(parts, xs, k - 1);
      FlattenSnoc(parts, k - 1);
      assert xs[..k] == xs[..k - 1] + [xs[k - 1]];
    }
  }

  /** Lists of which the first k each hold one element flatten to those elements, then the rest. */
  lemma FlattenFrom<T>(parts: seq<seq<T>>, xs: seq<T>, k: nat)
    requires k <= |parts| && k <= |xs| && forall i :: 0 <= i < k ==> parts[i] == [xs[i]]
    ensures Flatten(parts) == xs[..k] + Flatten(parts[k..])
  {
    var pre, post := parts[..k], parts[k..];
    assert parts == pre + post;
    FlattenConcat(pre, post);
    FlattenSingletons(parts, xs, k);
  }

  /** The subtree split of ordered neurites, one list per neurite. */
  function SplitParts(ordered: seq<Neurite>): (parts: seq<seq<Neurite>>)
    ensures |parts| == |ordered|
    ensures forall i :: 0 <= i < |ordered| && !IsHeterogeneous(ordered[i]) ==> parts[i] == [ordered[i]]
  {
    seq(|ordered|, i requires 0 <= i < |ordered| =>
      if IsHeterogeneous(ordered[i]) then HomogeneousSubtrees(ordered[i]).0 else [ordered[i]])
  }

  /** Up to the first heterogeneous neurite the split leaves the neurites as they are. */
  lemma SplitFrom(ordered: seq<Neurite>)
    ensures var k := FirstHeterogeneous(ordered);
      Flatten(SplitParts(ordered)) == ordered[..k] + Flatten(SplitParts(ordered)[k..])
  {
    FlattenFrom(SplitParts(ordered), ordered, FirstHeterogeneous(ordered));
  }

  /**
   * What iter_neurites yields as written is a prefix of what the corrected subtree split
   * yields, and the whole of it when nothing was raised.
   */
  lemma IterNeuritesAsWrittenPrefix(src: NeuriteSource, filt: Option<Neurite -> bool>, order: NeuriteIter, useSubtrees: bool)
    ensures var r := IterNeuritesAsWritten(src, filt, order, useSubtrees);
      var c := IterNeurites(src, filt, order, useSubtrees);
      |r.items| <= |c| && r.items == c[..|r.items|] && (r.raised.None? ==> r.items == c)
  {
    var ordered := OrderedNeurites(src, order);
    var k := FirstHeterogeneous(ordered);
    assert ordered[..|ordered|] == ordered;
    if useSubtrees {
      var parts := SplitParts(ordered);
      SplitFrom(ordered);
      assert Flatten(parts) == ordered[..k] + Flatten(parts[k..]);
      if filt.Some? {
        FilterConcat(ordered[..k], Flatten(parts[k..]), filt.value);
      }
      if k == |ordered| {
        assert parts[k..] == [];
      }
    }
  }

  /** Ordering the neurites keeps the same neurites. */
  lemma OrderedMembers(src: NeuriteSource, order: NeuriteIter, n: Neurite)
    ensures n in OrderedNeurites(src, order) <==> n in SourceNeurites(src)
  {
    var ns := SourceNeurites(src);
    SortByKeyStable(ns, NeuriteNrnKey, 0);
    assert multiset(OrderedNeurites(src, order)) == multiset(ns);
    assert n in OrderedNeurites(src, order) <==> n in multiset(OrderedNeurites(src, order));
  }

  /** Some neurite is heterogeneous exactly when the first heterogeneous position is inside the sequence. */
  lemma FirstHeterogeneousExists(ns: seq<Neurite>)
    ensures FirstHeterogeneous(ns) < |ns| <==> exists n :: n in ns && IsHeterogeneous(n)
  {
    var k := FirstHeterogeneous(ns);
    if exists n :: n in ns && IsHeterogeneous(n) {
      var n :| n in ns && IsHeterogeneous(n);
      var j :| 0 <= j < |ns| && ns[j] == n;
      assert k <= j;
    }
    if k < |ns| {
      assert ns[k] in ns;
    }
  }

  /** As written, iter_neurites raises exactly when subtrees are asked for and some source neurite is heterogeneous. */
  lemma IterNeuritesAsWrittenRaises(src: NeuriteSource, filt: Option<Neurite -> bool>, order: NeuriteIter, useSubtrees: bool)
    ensures IterNeuritesAsWritten(src, filt, order, useSubtrees).raised.Some? <==>
      useSubtrees && exists n :: n in SourceNeurites(src) && IsHeterogeneous(n)
  {
    var ordered := OrderedNeurites(src, order);
    FirstHeterogeneousExists(ordered);
    forall n | IsHeterogeneous(n)
      ensures n in ordered <==> n in SourceNeurites(src)
    {
      OrderedMembers(src, order, n);
    }
  }

  /** An axon whose child section is a basal dendrite: the smallest heterogeneous neurite. */
  const AXON_CARRYING: Neurite :=
    Neurite(Section(Node(SectionData(0, Axon, []), [Node(SectionData(1, BasalDendrite, []), [])]), []))

  /**
   * Asking iter_neurites for the subtrees of an axon carrying a basal dendrite raises
   * AttributeError before yielding anything, where the intended split has two subtrees.
   */
  lemma AxonCarryingRaises()
    ensures IterNeuritesAsWritten(OneNeurite(AXON_CARRYING), None, FileOrder, true) == Yield([], Some(AttributeError))
    ensures |IterNeurites(OneNeurite(AXON_CARRYING), None, FileOrder, true)| == 2
  {
    AxonCarryingHeterogeneous();
    AxonCarryingSplit();
  }

  lemma AxonCarryingHeterogeneous()
    ensures IsHeterogeneous(AXON_CARRYING)
    ensures OrderedNeurites(OneNeurite(AXON_CARRYING), FileOrder) == [AXON_CARRYING]
  {
    var t := AXON_CARRYING.root.tree;
    assert ValidPath(t, [0]);
    WalkMembersAt(t, [], PreOrder, [0]);
    assert Sub(t, []) == t;
  }

  lemma AxonCarryingSplit()
    ensures Flatten(SplitParts([AXON_CARRYING])) == HomogeneousSubtrees(AXON_CARRYING).0
    ensures |HomogeneousSubtrees(AXON_CARRYING).0| == 2
  {
    TypeChangesOfAxonCarrying();
    var subs := HomogeneousSubtrees(AXON_CARRYING).0;
    var parts := SplitParts([AXON_CARRYING]);
    assert parts == [subs];
    assert Flatten(parts) == subs + Flatten([]);
  }

  lemma TypeChangesOfAxonCarrying()
    ensures TypeChanges(AXON_CARRYING) == [[0]]
  {
    var t := AXON_CARRYING.root.tree;
    var c := t.children[0];
    var top: Path := [];
    assert top + [0] == [0];
    assert Kids(c, [0], PreOrder, 0) == [];
    assert Walk(c, [0], PreOrder) == [[0]];
    assert Kids(t, [], PreOrder, 1) == [];
    assert Kids(t, [], PreOrder, 0) == [[0]];
    assert Walk(t, [], PreOrder) == [[], [0]];
    assert Sub(t, [0]) == c && Sub(t, Parent([0])) == t;
  }

  /** The iterator_type argument of iter_sections. */
  datatype SectionIterator = IPreorderIt | IPostorderIt | IUpstreamIt | IBifurcationPointIt | IForkingPointIt | ILeafIt

  /** The paths visited by an iterator started at a section. */
  function IterPaths(it: SectionIterator, s: Section): seq<Path>
  {
    match it
    case IPreorderIt => Walk(Sub(s.tree, s.path), s.path, PreOrder)
    case IPostorderIt => Walk(Sub(s.tree, s.path), s.path, PostOrder)
    case IUpstreamIt => Upstream(s.path)
    case IBifurcationPointIt => IBifurcationPoint(s.tree, s.path, PreOrder)
    case IForkingPointIt => IForkingPoint(s.tree, s.path, PreOrder)
    case ILeafIt => ILeaf(s.tree, s.path)
  }

  function SectionsFrom(it: SectionIterator, s: Section): seq<Section>
  {
    var ps := IterPaths(it, s);
    seq(|ps|, i requires 0 <= i < |ps| => Section(s.tree, ps[i]))
  }

  /** The sections visited from the root of each neurite, one neurite after the other. */
  function SectionsOf(ns: seq<Neurite>, it: SectionIterator): seq<Section>
  {
    Flatten(seq(|ns|, i requires 0 <= i < |ns| => SectionsFrom(it, ns[i].root)))
  }

  lemma SectionsOfMembers(ns: seq<Neurite>, it: SectionIterator, s: Section)
    ensures s in SectionsOf(ns, it) <==> exists n :: n in ns && s in SectionsFrom(it, n.root)
  {
    if s in SectionsOf(ns, it) {
      SectionsOfSound(ns, it, s);
    }
    if exists n :: n in ns && s in SectionsFrom(it, n.root) {
      var n :| n in ns && s in SectionsFrom(it, n.root);
      var i :| 0 <= i < |ns| && ns[i] == n;
      SectionsOfComplete(ns, it, s, i);
    }
  }

  /** A section listed by SectionsOf is visited from the root of one of the neurites. */
  lemma SectionsOfSound(ns: seq<Neurite>, it: SectionIterator, s: Section)
    requires s in SectionsOf(ns, it)
    ensures exists n :: n in ns && s in SectionsFrom(it, n.root)
  {
    var ss := seq(|ns|, i requires 0 <= i < |ns| => SectionsFrom(it, ns[i].root));
    FlattenMemberInv(ss, s);
    var i, j :| 0 <= i < |ss| && 0 <= j < |ss[i]| && ss[i][j] == s;
    assert ns[i] in ns && s in SectionsFrom(it, ns[i].root);
  }

  /** A section visited from the root of the i-th neurite is listed by SectionsOf. */
  lemma SectionsOfComplete(ns: seq<Neurite>, it: SectionIterator, s: Section, i: nat)
    requires i < |ns| && s in SectionsFrom(it, ns[i].root)
    ensures s in SectionsOf(ns, it)
  {
    var ss := seq(|ns|, i requires 0 <= i < |ns| => SectionsFrom(it, ns[i].root));
    assert ss[i] == SectionsFrom(it, ns[i].root);
    var j :| 0 <= j < |ss[i]| && ss[i][j] == s;
    FlattenMember(ss, i, j);
  }

  /** iter_sections: the sections of each filtered neurite in neurite order, then the section filter. */
  function IterSections(src: NeuriteSource, it: SectionIterator, neuriteFilter: Option<Neurite -> bool>,
                        order: NeuriteIter, sectionFilter: Option<Section -> bool>): (r: seq<Section>)
    ensures forall k :: 0 <= k < |r| ==> r[k] in SectionsOf(IterNeurites(src, neuriteFilter, order, false), it)
    ensures sectionFilter.Some? ==> forall k :: 0 <= k < |r| ==> sectionFilter.value(r[k])
    ensures sectionFilter.None? ==> r == SectionsOf(IterNeurites(src, neuriteFilter, order, false), it)
  {
    var all := SectionsOf(IterNeurites(src, neuriteFilter, order, false), it);
    match sectionFilter
    case None => all
    case Some(f) => Filter(all, f)
  }

  /**
   * A section comes out of iter_sections iff it is visited from the root of a neurite that
   * passes the neurite filter, and it passes the section filter.
   */
  lemma IterSectionsMembers(src: NeuriteSource, it: SectionIterator, neuriteFilter: Option<Neurite -> bool>,
                            order: NeuriteIter, sectionFilter: Option<Section -> bool>, s: Section)
    ensures s in IterSections(src, it, neuriteFilter, order, sectionFilter) <==>
      ((exists n :: n in IterNeurites(src, neuriteFilter, order, false) && s in SectionsFrom(it, n.root)) &&
       (sectionFilter.None? || sectionFilter.value(s)))
  {
    SectionsOfMembers(IterNeurites(src, neuriteFilter, order, false), it, s);
  }

  /** The points of each section without its first one. */
  function Tails(secs: seq<Section>): (r: seq<seq<Point>>)
    ensures |r| == |secs|
  {
    seq(|secs|, k requires 0 <= k < |secs| => Rest(Data(secs[k]).points))
  }

  /** The sections of a neurite as Neurite.iter_sections yields them: in preorder, from its root. */
  function NeuriteSections(n: Neurite): seq<Section>
  {
    IterSections(OneNeurite(n), IPreorderIt, None, FileOrder, None)
  }

  /** Neurite.points as specified: the root's first point, then each section without its first point. */
  function NeuritePointsSpec(n: Neurite): seq<Point>
    requires |Data(n.root).points| > 0
  {
    [Data(n.root).points[0]] + Flatten(Tails(NeuriteSections(n)))
  }

  /** Neurite.points: start from the root's first point and append the rest of every section. */
  method NeuritePoints(n: Neurite) returns (r: Result<seq<Point>>)
    ensures |Data(n.root).points| == 0 ==> r == Err(IndexError)
    ensures |Data(n.root).points| > 0 ==> r == Ok(NeuritePointsSpec(n))
  {
    var rootPoints := Data(n.root).points;
    if |rootPoints| == 0 {
      return Err(IndexError);
    }
    var acc := AppendTails([rootPoints[0]], NeuriteSections(n));
    r := Ok(acc);
  }

  /** The loop of Neurite.points: each section's points but the first are appended in turn. */
  method AppendTails(acc0: seq<Point>, secs: seq<Section>) returns (acc: seq<Point>)
    ensures acc == acc0 + Flatten(Tails(secs))
  {
    ghost var parts := Tails(secs);
    acc := acc0;
    var i := 0;
    while i < |secs|
      invariant 0 <= i <= |secs|
      invariant acc == acc0 + Flatten(parts[..i])
    {
      FlattenSnoc(parts, i);
      assert parts[i] == Rest(Data(secs[i]).points);
      acc := acc + Rest(Data(secs[i]).points);
      i := i + 1;
    }
    assert parts[..|secs|] == parts;
  }
}

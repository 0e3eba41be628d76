/**
 * make_neurites of neurom/fst/_core.py: one Section node per DataWrapper section, each node
 * attached to its parent section unless that parent is ROOT_ID or a soma section, one neurite
 * per neurite root section, and the format's post action applied to every neurite root.
 */
module FstCore {
  import opened Wrappers
  import opened Seqs
  import opened DataFormat
  import opened Types
  import opened Trees
  import opened DataWrapper

  // ---------------------------------------------------------------------------------------------
  // _TREE_TYPES

  /** tuple(NeuriteType): the members of the enumeration in the order they are defined. */
  const EnumOrder: seq<NeuriteType> :=
    [Axon, ApicalDendrite, BasalDendrite, Undefined, Soma, All,
     Custom5, Custom6, Custom7, Custom8, Custom9, Custom10]

  /** _TREE_TYPES[ntype] as written: a TYPE code used as a position in the enumeration order. */
  function TreeTypeAsWritten(ntype: int): (r: Result<NeuriteType>)
    ensures r.Err? <==> !(-12 <= ntype < 12)
    ensures r.Err? ==> r.error == IndexError
  {
    match PyIndex(ntype, |EnumOrder|)
    case None => Err(IndexError)
    case Some(k) => Ok(EnumOrder[k])
  }

  /**
   * Read as a position, the SOMA code names apical_dendrite, and only the codes 4 and -8
   * name the soma type.
   */
  lemma TreeTypeAsWrittenMisreadsSoma()
    ensures TreeTypeAsWritten(SOMA) == Ok(ApicalDendrite)
    ensures TreeTypeAsWritten(AXON) == Ok(BasalDendrite)
    ensures forall c :: TreeTypeAsWritten(c) == Ok(Soma) ==> c == 4 || c == -8
  {
    forall c | TreeTypeAsWritten(c) == Ok(Soma)
      ensures c == 4 || c == -8
    {
      var k := PyIndex(c, 12).value;
      assert EnumOrder[k] == Soma;
    }
  }

  /**
   * _TREE_TYPES[ntype] as intended: the member whose TYPE code is ntype; the SOMA code names
   * the soma type, and a code naming no member raises IndexError.
   */
  function TreeType(ntype: int): (r: Result<NeuriteType>)
    ensures r.Err? <==> !(0 <= ntype <= 10)
    ensures r.Err? ==> r.error == IndexError
    ensures r.Ok? ==> (r.value == Soma <==> ntype == SOMA)
    ensures r.Ok? && ntype != SOMA ==> Code(r.value) == ntype
  {
    if ntype == SOMA then Ok(Soma)
    else if 0 <= ntype <= 10 then Ok(FromCode(ntype).value)
    else Err(IndexError)
  }

  // ---------------------------------------------------------------------------------------------
  // The nodes

  /** A Section node of the fast neuron: its index, its type and its rows of the data block. */
  datatype FstSection = FstSection(id: nat, stype: NeuriteType, points: seq<Row>)

  /** data_block[ids]: the rows at the given positions, with negative positions counted from the end. */
  function Gather(block: Block, ids: seq<int>): (r: Result<seq<Row>>)
    ensures r.Ok? <==> forall k :: 0 <= k < |ids| ==> PyIndex(ids[k], |block|).Some?
    ensures r.Err? ==> r.error == IndexError
    ensures r.Ok? ==> |r.value| == |ids|
    ensures r.Ok? ==> forall k :: 0 <= k < |ids| ==> r.value[k] == block[PyIndex(ids[k], |block|).value]
  {
    if ids == [] then Ok([])
    else match PyIndex(ids[0], |block|)
      case None => Err(IndexError)
      case Some(q) =>
        match Gather(block, ids[1..])
        case Err(e) => Err(e)
        case Ok(rest) =>
          assert forall k :: 1 <= k < |ids| ==> ids[k] == ids[1..][k - 1];
          Ok([block[q]] + rest)
  }

  /** The node built from section i: its rows and the tree type of its TYPE code. */
  function MakeNode(block: Block, secs: seq<DBSection>, i: nat): (r: Result<FstSection>)
    requires i < |secs|
    ensures r.Ok? <==> Gather(block, secs[i].ids).Ok? && TreeType(secs[i].ntype).Ok?
    ensures r.Ok? ==> r.value.id == i && r.value.stype == TreeType(secs[i].ntype).value
    ensures r.Ok? ==> r.value.points == Gather(block, secs[i].ids).value
  {
    match Gather(block, secs[i].ids)
    case Err(e) => Err(e)
    case Ok(rows) =>
      match TreeType(secs[i].ntype)
      case Err(e) => Err(e)
      case Ok(t) => Ok(FstSection(i, t, rows))
  }

  /** Every section yields a node. */
  predicate NodesOk(block: Block, secs: seq<DBSection>)
  {
    forall i :: 0 <= i < |secs| ==> MakeNode(block, secs, i).Ok?
  }

  /** The node tuple, one node per section in section order. */
  function Nodes(block: Block, secs: seq<DBSection>): (r: seq<FstSection>)
    requires NodesOk(block, secs)
    ensures |r| == |secs|
    ensures forall i :: 0 <= i < |secs| ==> r[i] == MakeNode(block, secs, i).value
  {
    seq(|secs|, i requires 0 <= i < |secs| && NodesOk(block, secs) => MakeNode(block, secs, i).value)
  }

  // ---------------------------------------------------------------------------------------------
  // Linking children to parents

  /** nodes[parent_id] exists for every section, negative ids counting from the end. */
  predicate ParentsIndexable(secs: seq<DBSection>)
  {
    forall i :: 0 <= i < |secs| ==> PyIndex(secs[i].pid, |secs|).Some?
  }

  /**
   * The node section i is attached to, if any: nodes[parent_id] when parent_id is not ROOT_ID
   * and that node is not a soma.
   */
  function LinkOf(secs: seq<DBSection>, nodes: seq<FstSection>, i: nat): (r: Option<nat>)
    requires i < |secs| == |nodes| && ParentsIndexable(secs)
    ensures r.Some? <==> secs[i].pid != ROOT_ID && nodes[PyIndex(secs[i].pid, |secs|).value].stype != Soma
    ensures r.Some? ==> r.value == PyIndex(secs[i].pid, |secs|).value < |secs|
  {
    var q := PyIndex(secs[i].pid, |secs|).value;
    if secs[i].pid != ROOT_ID && nodes[q].stype != Soma then Some(q) else None
  }

  /** The children list of node p after the first k sections were linked, in section order. */
  function ChildrenUpTo(secs: seq<DBSection>, nodes: seq<FstSection>, k: nat, p: nat): seq<nat>
    requires k <= |secs| == |nodes| && ParentsIndexable(secs)
  {
    if k == 0 then []
    else ChildrenUpTo(secs, nodes, k - 1, p) + (if LinkOf(secs, nodes, k - 1) == Some(p) then [k - 1] else [])
  }

  /** A child is listed under p exactly when it was linked to p, and children appear in section order. */
  lemma {:induction false} ChildrenUpToMembers(secs: seq<DBSection>, nodes: seq<FstSection>, k: nat, p: nat)
    requires k <= |secs| == |nodes| && ParentsIndexable(secs)
    ensures forall c: nat :: c in ChildrenUpTo(secs, nodes, k, p) <==> c < k && LinkOf(secs, nodes, c) == Some(p)
    ensures forall a, b :: 0 <= a < b < |ChildrenUpTo(secs, nodes, k, p)| ==>
      ChildrenUpTo(secs, nodes, k, p)[a] < ChildrenUpTo(secs, nodes, k, p)[b]
    ensures forall a :: 0 <= a < |ChildrenUpTo(secs, nodes, k, p)| ==> ChildrenUpTo(secs, nodes, k, p)[a] < k
  {
    if k > 0 {
      ChildrenUpToMembers(secs, nodes, k - 1, p);
    }
  }

  function ChildrenOf(secs: seq<DBSection>, nodes: seq<FstSection>): (r: seq<seq<nat>>)
    requires |secs| == |nodes| && ParentsIndexable(secs)
    ensures |r| == |secs|
    ensures forall p :: 0 <= p < |secs| ==> r[p] == ChildrenUpTo(secs, nodes, |secs|, p)
  {
    seq(|secs|, p requires 0 <= p < |secs| == |nodes| && ParentsIndexable(secs) =>
      ChildrenUpTo(secs, nodes, |secs|, p))
  }

  function ParentsOf(secs: seq<DBSection>, nodes: seq<FstSection>): (r: seq<Option<nat>>)
    requires |secs| == |nodes| && ParentsIndexable(secs)
    ensures |r| == |secs|
    ensures forall i :: 0 <= i < |secs| ==> r[i] == LinkOf(secs, nodes, i)
  {
    seq(|secs|, i requires 0 <= i < |secs| == |nodes| && ParentsIndexable(secs) => LinkOf(secs, nodes, i))
  }

  // ---------------------------------------------------------------------------------------------
  // The post action

  /** The formats of _NEURITE_ACTION, and whether their action removes the soma initial point. */
  predicate KnownFormat(fmt: string)
  {
    fmt == "SWC" || fmt == "H5V1" || fmt == "H5V2" || fmt == "NL-ASCII"
  }

  predicate RemovesSomaPoint(fmt: string)
  {
    fmt == "SWC" || fmt == "NL-ASCII"
  }

  /**
   * _remove_soma_initial_point: IndexError on a node with no points; otherwise the first
   * point is dropped exactly when its TYPE is SOMA, and nothing else changes.
   */
  function RemoveSomaInitialPoint(s: FstSection): (r: Result<FstSection>)
    ensures r.Err? <==> |s.points| == 0
    ensures r.Err? ==> r.error == IndexError
    ensures r.Ok? ==> r.value.id == s.id && r.value.stype == s.stype
    ensures r.Ok? ==> s.points == (if s.points[0].ptype == SOMA then [s.points[0]] else []) + r.value.points
    ensures r.Ok? && |s.points| > 1 ==> r.value.points[0].ptype != SOMA ==> s.points[0].ptype != SOMA || s.points[1].ptype != SOMA
  {
    if |s.points| == 0 then Err(IndexError)
    else if s.points[0].ptype == SOMA then Ok(s.(points := s.points[1..]))
    else Ok(s)
  }

  /** Trunk indices: distinct positions of the node tuple. */
  predicate TrunksFit(trunks: seq<int>, n: nat)
  {
    (forall a :: 0 <= a < |trunks| ==> 0 <= trunks[a] < n) &&
    (forall a, b :: 0 <= a < b < |trunks| ==> trunks[a] != trunks[b])
  }

  /** The node tuple after the post action ran on the roots of the given trunks, left to right. */
  function RemoveAtTrunks(nodes: seq<FstSection>, trunks: seq<int>): (r: Result<seq<FstSection>>)
    requires TrunksFit(trunks, |nodes|)
    ensures r.Ok? <==> forall a :: 0 <= a < |trunks| ==> |nodes[trunks[a]].points| > 0
    ensures r.Err? ==> r.error == IndexError
    ensures r.Ok? ==> |r.value| == |nodes|
    ensures r.Ok? ==> forall i :: 0 <= i < |nodes| && i !in trunks ==> r.value[i] == nodes[i]
    ensures r.Ok? ==> forall i :: i in trunks && 0 <= i < |nodes| ==> r.value[i] == RemoveSomaInitialPoint(nodes[i]).value
    decreases |trunks|
  {
    if trunks == [] then Ok(nodes)
    else
      var init := trunks[..|trunks| - 1];
      var t := trunks[|trunks| - 1];
      assert forall i :: i in trunks <==> i in init || i == t;
      match RemoveAtTrunks(nodes, init)
      case Err(e) => Err(e)
      case Ok(ns) =>
        match RemoveSomaInitialPoint(ns[t])
        case Err(e) => Err(e)
        case Ok(s) => Ok(ns[t := s])
  }

  // ---------------------------------------------------------------------------------------------
  // make_neurites

  /** The result of make_neurites: the nodes with their links, and the neurite root of each neurite. */
  datatype Forest = Forest(nodes: seq<FstSection>, parent: seq<Option<nat>>, children: seq<seq<nat>>, trunks: seq<int>)

  /**
   * make_neurites: KeyError for an unknown format; no neurites and no nodes when there is no
   * neurite root section; otherwise every section's node, linked to its parent node, and one
   * neurite per root section in the order of neurite_root_section_ids.
   */
  function MakeNeuritesSpec(fmt: string, block: Block, secs: seq<DBSection>): (r: Result<Forest>)
    ensures !KnownFormat(fmt) ==> r == Err(KeyError)
    ensures KnownFormat(fmt) && NeuriteRootSectionIds(secs) == Ok([]) ==> r == Ok(Forest([], [], [], []))
    ensures r.Ok? ==> NeuriteRootSectionIds(secs) == Ok(r.value.trunks)
    ensures r.Ok? && r.value.trunks != [] ==>
      |r.value.nodes| == |r.value.parent| == |r.value.children| == |secs| && TrunksFit(r.value.trunks, |secs|)
  {
    if !KnownFormat(fmt) then Err(KeyError)
    else match NeuriteRootSectionIds(secs)
      case Err(e) => Err(e)
      case Ok(trunks) =>
        if trunks == [] then Ok(Forest([], [], [], []))
        else if !NodesOk(block, secs) then Err(IndexError)
        else
          var nodes := Nodes(block, secs);
          if !ParentsIndexable(secs) then Err(IndexError)
          else
            RootIdsAreTrunks(secs, trunks);
            var parent := ParentsOf(secs, nodes);
            var children := ChildrenOf(secs, nodes);
            if !RemovesSomaPoint(fmt) then Ok(Forest(nodes, parent, children, trunks))
            else match RemoveAtTrunks(nodes, trunks)
              case Err(e) => Err(e)
              case Ok(ns) => Ok(Forest(ns, parent, children, trunks))
  }

  lemma RootIdsAreTrunks(secs: seq<DBSection>, trunks: seq<int>)
    requires NeuriteRootSectionIds(secs) == Ok(trunks)
    ensures TrunksFit(trunks, |secs|)
    ensures forall a :: 0 <= a < |trunks| ==> trunks[a] < |secs| && IsNeuriteRoot(secs, trunks[a])
  {
    RootIdsFromMembers(secs, 0);
    assert forall a :: 0 <= a < |trunks| ==> trunks[a] in trunks;
  }

  /** A node of the forest keeps its section's type through the post action. */
  lemma ForestTypes(fmt: string, block: Block, secs: seq<DBSection>, i: nat)
    requires MakeNeuritesSpec(fmt, block, secs).Ok? && MakeNeuritesSpec(fmt, block, secs).value.trunks != []
    requires i < |secs|
    ensures TreeType(secs[i].ntype).Ok?
    ensures MakeNeuritesSpec(fmt, block, secs).value.nodes[i].stype == TreeType(secs[i].ntype).value
  {
  }

  /**
   * Links are consistent: c is listed among the children of p exactly when p is c's parent,
   * every node has at most one parent, and children lists follow section order.
   */
  lemma ParentChildConsistent(fmt: string, block: Block, secs: seq<DBSection>, p: nat, c: nat)
    requires MakeNeuritesSpec(fmt, block, secs).Ok?
    requires p < |MakeNeuritesSpec(fmt, block, secs).value.children|
    requires c < |MakeNeuritesSpec(fmt, block, secs).value.parent|
    ensures c in MakeNeuritesSpec(fmt, block, secs).value.children[p] <==>
      MakeNeuritesSpec(fmt, block, secs).value.parent[c] == Some(p)
    ensures forall a, b :: 0 <= a < b < |MakeNeuritesSpec(fmt, block, secs).value.children[p]| ==>
      MakeNeuritesSpec(fmt, block, secs).value.children[p][a] < MakeNeuritesSpec(fmt, block, secs).value.children[p][b]
  {
    var f := MakeNeuritesSpec(fmt, block, secs).value;
    var nodes := Nodes(block, secs);
    ChildrenUpToMembers(secs, nodes, |secs|, p);
  }

  /**
   * A section is attached below its parent only when the parent id is not ROOT_ID and the
   * parent section is not a soma section.
   */
  lemma AttachedIff(fmt: string, block: Block, secs: seq<DBSection>, i: nat)
    requires MakeNeuritesSpec(fmt, block, secs).Ok?
    requires i < |MakeNeuritesSpec(fmt, block, secs).value.parent|
    ensures MakeNeuritesSpec(fmt, block, secs).value.parent[i].Some? <==>
      secs[i].pid != ROOT_ID && secs[PyIndex(secs[i].pid, |secs|).value].ntype != SOMA
  {
    var f := MakeNeuritesSpec(fmt, block, secs).value;
    var q := PyIndex(secs[i].pid, |secs|).value;
    ForestTypes(fmt, block, secs, q);
  }

  /** Every neurite root is a root of the forest: its soma parent section is never linked. */
  lemma TrunksAreRoots(fmt: string, block: Block, secs: seq<DBSection>, a: nat)
    requires MakeNeuritesSpec(fmt, block, secs).Ok?
    requires a < |MakeNeuritesSpec(fmt, block, secs).value.trunks|
    ensures MakeNeuritesSpec(fmt, block, secs).value.trunks[a] < |MakeNeuritesSpec(fmt, block, secs).value.parent|
    ensures MakeNeuritesSpec(fmt, block, secs).value.parent[MakeNeuritesSpec(fmt, block, secs).value.trunks[a]] == None
  {
    var f := MakeNeuritesSpec(fmt, block, secs).value;
    RootIdsAreTrunks(secs, f.trunks);
    var t := f.trunks[a];
    AttachedIff(fmt, block, secs, t);
  }

  /**
   * With the as-written lookup, a soma section's node is typed apical_dendrite, so a neurite
   * root section is linked below the soma section and its neurite is no longer a root.
   */
  lemma AsWrittenTrunkAttached(secs: seq<DBSection>, nodes: seq<FstSection>, t: nat)
    requires |secs| == |nodes| && ParentsIndexable(secs)
    requires forall q :: 0 <= q < |secs| ==> Ok(nodes[q].stype) == TreeTypeAsWritten(secs[q].ntype)
    requires t < |secs| && secs[t].pid < |secs| && IsNeuriteRoot(secs, t)
    ensures LinkOf(secs, nodes, t) == Some(secs[t].pid)
  {
    TreeTypeAsWrittenMisreadsSoma();
  }

  // ---------------------------------------------------------------------------------------------
  // The imperative construction over a node arena

  /**
   * make_neurites on a TreeStore: the nodes are created in section order, then each is
   * attached with add_child, then the post action rewrites the neurite roots; the resulting
   * arena and trunks are those of MakeNeuritesSpec.
   */
  method MakeNeurites(fmt: string, block: Block, secs: seq<DBSection>) returns (r: Result<(TreeStore<FstSection>, seq<int>)>)
    ensures r.Ok? <==> MakeNeuritesSpec(fmt, block, secs).Ok?
    ensures r.Err? ==> r.error == MakeNeuritesSpec(fmt, block, secs).error
    ensures r.Ok? ==> fresh(r.value.0) && r.value.0.Valid()
    ensures r.Ok? ==> r.value.0.values == MakeNeuritesSpec(fmt, block, secs).value.nodes
    ensures r.Ok? ==> r.value.0.parent == MakeNeuritesSpec(fmt, block, secs).value.parent
    ensures r.Ok? ==> r.value.0.children == MakeNeuritesSpec(fmt, block, secs).value.children
    ensures r.Ok? ==> r.value.1 == MakeNeuritesSpec(fmt, block, secs).value.trunks
  {
    if !KnownFormat(fmt) {
      return Err(KeyError);
    }
    var roots := NeuriteRootSectionIds(secs);
    if roots.Err? {
      return Err(roots.error);
    }
    var trunks := roots.value;
    var store := new TreeStore<FstSection>();
    if trunks == [] {
      return Ok((store, []));
    }
    RootIdsAreTrunks(secs, trunks);
    var ok := BuildNodes(store, block, secs);
    if !ok {
      return Err(IndexError);
    }
    var nodes := Nodes(block, secs);
    ok := LinkNodes(store, secs, nodes);
    if !ok {
      return Err(IndexError);
    }
    if RemovesSomaPoint(fmt) {
      ok := RemoveSomaPoints(store, trunks);
      if !ok {
        return Err(IndexError);
      }
    }
    r := Ok((store, trunks));
  }

  /** The node tuple: one new node per section, in section order; false when a lookup raises. */
  method BuildNodes(store: TreeStore<FstSection>, block: Block, secs: seq<DBSection>) returns (ok: bool)
    requires store.Valid() && store.values == [] && store.parent == [] && store.children == []
    modifies store
    ensures store.Valid()
    ensures ok <==> NodesOk(block, secs)
    ensures ok ==> store.values == Nodes(block, secs)
    ensures ok ==> store.parent == seq(|secs|, _ => None) && store.children == seq(|secs|, _ => [])
  {
    var i := 0;
    while i < |secs|
      invariant 0 <= i <= |secs| && store.Valid()
      invariant forall j :: 0 <= j < i ==> MakeNode(block, secs, j).Ok?
      invariant |store.values| == i
      invariant forall j :: 0 <= j < i ==> store.values[j] == MakeNode(block, secs, j).value
      invariant store.parent == seq(i, _ => None) && store.children == seq(i, _ => [])
    {
      var node := MakeNode(block, secs, i);
      if node.Err? {
        return false;
      }
      var id := store.NewTree(node.value);
      i := i + 1;
    }
    return true;
  }

  /** The linking pass: add_child for every section whose parent is linked; false on an IndexError. */
  method LinkNodes(store: TreeStore<FstSection>, secs: seq<DBSection>, nodes: seq<FstSection>) returns (ok: bool)
    requires |secs| == |nodes| && store.Valid() && store.values == nodes
    requires store.parent == seq(|secs|, _ => None) && store.children == seq(|secs|, _ => [])
    modifies store
    ensures store.Valid() && store.values == nodes
    ensures ok <==> ParentsIndexable(secs)
    ensures ok ==> store.parent == ParentsOf(secs, nodes) && store.children == ChildrenOf(secs, nodes)
  {
    if !ParentsIndexable(secs) {
      return false;
    }
    var n := |secs|;
    var i := 0;
    while i < n
      invariant 0 <= i <= n && store.Valid() && store.values == nodes
      invariant |store.parent| == |store.children| == n
      invariant forall j :: 0 <= j < n ==> store.parent[j] == if j < i then LinkOf(secs, nodes, j) else None
      invariant forall p :: 0 <= p < n ==> store.children[p] == ChildrenUpTo(secs, nodes, i, p)
    {
      var link := LinkOf(secs, nodes, i);
      if link.Some? {
        var c := store.AddChild(link.value, i);
      }
      i := i + 1;
    }
    return true;
  }

  /** The post action on every neurite root, in trunk order; false when a root has no points. */
  method RemoveSomaPoints(store: TreeStore<FstSection>, trunks: seq<int>) returns (ok: bool)
    requires store.Valid() && TrunksFit(trunks, |store.values|)
    modifies store
    ensures store.Valid() && store.parent == old(store.parent) && store.children == old(store.children)
    ensures ok <==> RemoveAtTrunks(old(store.values), trunks).Ok?
    ensures ok ==> store.values == RemoveAtTrunks(old(store.values), trunks).value
  {
    ghost var nodes := store.values;
    var a := 0;
    while a < |trunks|
      invariant 0 <= a <= |trunks| && store.Valid()
      invariant store.parent == old(store.parent) && store.children == old(store.children)
      invariant TrunksFit(trunks[..a], |nodes|)
      invariant RemoveAtTrunks(nodes, trunks[..a]) == Ok(store.values)
    {
      RemoveAtTrunksStep(nodes, trunks, a);
      var s := RemoveSomaInitialPoint(store.values[trunks[a]]);
      if s.Err? {
        RemoveAtTrunksPrefixErr(nodes, trunks, a + 1);
        return false;
      }
      store.SetValue(trunks[a], s.value);
      a := a + 1;
    }
    assert trunks[..a] == trunks;
    return true;
  }

  /** One more trunk: the post action runs on its root in the nodes left by the earlier trunks. */
  lemma RemoveAtTrunksStep(nodes: seq<FstSection>, trunks: seq<int>, a: nat)
    requires TrunksFit(trunks, |nodes|) && a < |trunks|
    requires TrunksFit(trunks[..a], |nodes|) && RemoveAtTrunks(nodes, trunks[..a]).Ok?
    ensures TrunksFit(trunks[..a + 1], |nodes|)
    ensures RemoveSomaInitialPoint(RemoveAtTrunks(nodes, trunks[..a]).value[trunks[a]]).Err? ==>
      RemoveAtTrunks(nodes, trunks[..a + 1]).Err?
    ensures RemoveSomaInitialPoint(RemoveAtTrunks(nodes, trunks[..a]).value[trunks[a]]).Ok? ==>
      RemoveAtTrunks(nodes, trunks[..a + 1]) ==
        Ok(RemoveAtTrunks(nodes, trunks[..a]).value[trunks[a] :=
          RemoveSomaInitialPoint(RemoveAtTrunks(nodes, trunks[..a]).value[trunks[a]]).value])
  {
    var pre := trunks[..a + 1];
    assert pre[..|pre| - 1] == trunks[..a];
    assert pre[|pre| - 1] == trunks[a];
    assert TrunksFit(pre, |nodes|);
  }

  /** Once the post action fails on a prefix of the trunks it fails on all of them. */
  lemma RemoveAtTrunksPrefixErr(nodes: seq<FstSection>, trunks: seq<int>, k: nat)
    requires TrunksFit(trunks, |nodes|) && k <= |trunks|
    requires TrunksFit(trunks[..k], |nodes|) && RemoveAtTrunks(nodes, trunks[..k]).Err?
    ensures RemoveAtTrunks(nodes, trunks).Err?
  {
    assert exists a :: 0 <= a < k && |nodes[trunks[..k][a]].points| == 0;
  }

  // ---------------------------------------------------------------------------------------------
  // _check_soma_topology_swc

  /** No value occurs twice in s. */
  predicate Distinct(s: seq<int>)
  {
    forall a, b :: 0 <= a < b < |s| ==> s[a] != s[b]
  }

  /** The parent ids of the soma points, ROOT_ID left out. */
  function SomaParents(points: seq<Row>): seq<int>
  {
    if points == [] then []
    else (if points[0].pid != ROOT_ID then [points[0].pid] else []) + SomaParents(points[1..])
  }

  /**
   * _check_soma_topology_swc: a three-point soma is always accepted; any other soma raises
   * SomaError exactly when two soma points share a parent other than ROOT_ID.
   */
  function CheckSomaTopologySwc(points: seq<Row>): (r: Result<()>)
    ensures |points| == 3 ==> r.Ok?
    ensures r.Err? ==> r.error == SomaError
    ensures |points| != 3 ==> (r.Err? <==> exists i, j :: 0 <= i < j < |points| && SharedParent(points, i, j))
  {
    SomaParentsDistinct(points);
    if |points| == 3 then Ok(())
    else if !Distinct(SomaParents(points)) then Err(SomaError)
    else Ok(())
  }

  /** Points i and j have the same parent, and it is not ROOT_ID. */
  predicate SharedParent(points: seq<Row>, i: nat, j: nat)
    requires i < |points| && j < |points|
  {
    points[i].pid == points[j].pid != ROOT_ID
  }

  lemma {:induction false} SomaParentsMembers(points: seq<Row>)
    ensures forall v :: v in SomaParents(points) <==> v != ROOT_ID && exists i :: 0 <= i < |points| && points[i].pid == v
  {
    if points != [] {
      SomaParentsMembers(points[1..]);
      forall v | v != ROOT_ID && (exists i :: 0 <= i < |points| && points[i].pid == v)
        ensures v in SomaParents(points)
      {
        var i :| 0 <= i < |points| && points[i].pid == v;
        if i > 0 {
          assert points[1..][i - 1].pid == v;
        }
      }
    }
  }

  /** The parent list repeats a value exactly when two points share a non-root parent. */
  lemma {:induction false} SomaParentsDistinct(points: seq<Row>)
    ensures !Distinct(SomaParents(points)) <==> exists i, j :: 0 <= i < j < |points| && SharedParent(points, i, j)
  {
    if points != [] {
      var tail := points[1..];
      SomaParentsDistinct(tail);
      SomaParentsMembers(tail);
      SharedCons(points);
      ParentsCons(points);
    }
  }

  /** The parent list repeats a value exactly when the head's non-root parent recurs or the tail's list repeats one. */
  lemma ParentsCons(points: seq<Row>)
    requires points != []
    ensures !Distinct(SomaParents(points)) <==>
      (points[0].pid != ROOT_ID && points[0].pid in SomaParents(points[1..])) || !Distinct(SomaParents(points[1..]))
  {
    var v := points[0].pid;
    var ts := SomaParents(points[1..]);
    if v == ROOT_ID {
      assert SomaParents(points) == ts;
    } else {
      assert SomaParents(points) == [v] + ts;
      DistinctCons(v, ts);
    }
  }

  /** A list with a head is distinct exactly when its tail is and does not hold the head. */
  lemma DistinctCons(v: int, ts: seq<int>)
    ensures Distinct([v] + ts) <==> v !in ts && Distinct(ts)
  {
    var ps := [v] + ts;
    if !Distinct(ps) {
      var a, b :| 0 <= a < b < |ps| && ps[a] == ps[b];
      if a == 0 {
        assert ts[b - 1] == v;
      } else {
        assert ts[a - 1] == ts[b - 1];
      }
    }
    if !Distinct(ts) {
      var a, b :| 0 <= a < b < |ts| && ts[a] == ts[b];
      assert ps[a + 1] == ps[b + 1];
    }
    if v in ts {
      var b :| 0 <= b < |ts| && ts[b] == v;
      assert ps[0] == ps[b + 1];
    }
  }

  /**
   * Two points share a parent exactly when the first point shares its (non-root) parent with
   * a later one, or two later points share one.
   */
  lemma SharedCons(points: seq<Row>)
    requires points != []
    ensures (exists i, j :: 0 <= i < j < |points| && SharedParent(points, i, j)) <==>
      (points[0].pid != ROOT_ID && exists j :: 0 <= j < |points[1..]| && points[1..][j].pid == points[0].pid) ||
      (exists i, j :: 0 <= i < j < |points[1..]| && SharedParent(points[1..], i, j))
  {
    var tail := points[1..];
    if exists i, j :: 0 <= i < j < |points| && SharedParent(points, i, j) {
      var i, j :| 0 <= i < j < |points| && SharedParent(points, i, j);
      if i == 0 {
        assert tail[j - 1].pid == points[0].pid;
      } else {
        assert SharedParent(tail, i - 1, j - 1);
      }
    }
    if points[0].pid != ROOT_ID && exists j :: 0 <= j < |tail| && tail[j].pid == points[0].pid {
      var j :| 0 <= j < |tail| && tail[j].pid == points[0].pid;
      assert SharedParent(points, 0, j + 1);
    }
    if exists i, j :: 0 <= i < j < |tail| && SharedParent(tail, i, j) {
      var i, j :| 0 <= i < j < |tail| && SharedParent(tail, i, j);
      assert SharedParent(points, i + 1, j + 1);
    }
  }
}

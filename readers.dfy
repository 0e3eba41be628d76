/**
 * RawDataWrapper of neurom/io/readers.py: a point table with an id offset, and the adjacency
 * list from each parent id to the ids of its children, kept in a dictionary with defaults.
 */
module Readers {
  import opened Wrappers
  import opened Seqs
  import opened DataFormat

  /** The ids of the rows among the first k whose parent id is p, in row order. */
  function ChildIdsUpTo(block: Block, k: nat, p: int): seq<int>
    requires k <= |block|
  {
    if k == 0 then []
    else ChildIdsUpTo(block, k - 1, p) + (if block[k - 1].pid == p then [block[k - 1].id] else [])
  }

  function ChildIds(block: Block, p: int): seq<int>
  {
    ChildIdsUpTo(block, |block|, p)
  }

  /** c is a child of p exactly when some row with id c names p as its parent. */
  lemma {:induction false} ChildIdsMembers(block: Block, k: nat, p: int)
    requires k <= |block|
    ensures forall c :: c in ChildIdsUpTo(block, k, p) <==> exists i :: 0 <= i < k && block[i].pid == p && block[i].id == c
    ensures ChildIdsUpTo(block, k, p) == [] <==> forall i :: 0 <= i < k ==> block[i].pid != p
  {
    if k > 0 {
      ChildIdsMembers(block, k - 1, p);
    }
  }

  /** The adjacency dictionary after the constructor has seen the first k rows. */
  function AdjUpTo(block: Block, k: nat): map<int, seq<int>>
    requires k <= |block|
  {
    if k == 0 then map[]
    else
      var m := AdjUpTo(block, k - 1);
      var row := block[k - 1];
      m[row.pid := (if row.pid in m then m[row.pid] else []) + [row.id]]
  }

  /**
   * adj_list maps each parent id to its children's ids in row order, and holds exactly the
   * ids that parent some row.
   */
  lemma {:induction false} AdjListRowOrder(block: Block, k: nat)
    requires k <= |block|
    ensures forall p :: p in AdjUpTo(block, k) <==> ChildIdsUpTo(block, k, p) != []
    ensures forall p :: p in AdjUpTo(block, k) ==> AdjUpTo(block, k)[p] == ChildIdsUpTo(block, k, p)
  {
    if k > 0 {
      AdjListRowOrder(block, k - 1);
    }
  }

  /** get_end_points: the ids of the ID column that are not keys of the adjacency dictionary. */
  function EndPointsOf(block: Block, adj: map<int, seq<int>>): (r: set<int>)
    ensures forall e :: e in r ==> e !in adj
    ensures forall i :: 0 <= i < |block| && block[i].id !in adj ==> block[i].id in r
  {
    set i | 0 <= i < |block| && block[i].id !in adj :: block[i].id
  }

  /**
   * get_end_points on a freshly built wrapper returns exactly the ids that are nobody's parent.
   */
  lemma EndPointsAreLeaves(block: Block, e: int)
    ensures e in EndPointsOf(block, AdjUpTo(block, |block|)) <==>
      (exists i :: 0 <= i < |block| && block[i].id == e) && forall i :: 0 <= i < |block| ==> block[i].pid != e
  {
    AdjListRowOrder(block, |block|);
    ChildIdsMembers(block, |block|, e);
  }

  /** The dictionary after `adj_list[idx]` was read: a missing key is inserted with an empty list. */
  function AdjAfterGet(adj: map<int, seq<int>>, idx: int): (r: map<int, seq<int>>)
    ensures idx in r && r[idx] == (if idx in adj then adj[idx] else [])
    ensures forall p :: p != idx ==> (p in r <==> p in adj)
    ensures forall p :: p in adj ==> p in r && r[p] == adj[p]
  {
    if idx in adj then adj else adj[idx := []]
  }

  /**
   * Reading the children of a leaf id inserts it into the dictionary, after which
   * get_end_points no longer lists that leaf.
   */
  lemma GetChildrenHidesEndPoint(block: Block, i: nat)
    requires i < |block|
    requires forall j :: 0 <= j < |block| ==> block[j].pid != block[i].id
    ensures block[i].id in EndPointsOf(block, AdjUpTo(block, |block|))
    ensures block[i].id !in EndPointsOf(block, AdjAfterGet(AdjUpTo(block, |block|), block[i].id))
  {
    EndPointsAreLeaves(block, block[i].id);
  }

  /** The id of row i is the offset plus i: ids increase by one from the first row. */
  predicate SequentialFrom(block: Block, offset: int)
  {
    forall i :: 0 <= i < |block| ==> block[i].id == offset + i
  }

  class RawDataWrapper {
    const block: Block
    const offset: int
    const fmt: string
    var adj: map<int, seq<int>>

    /** The dictionary agrees with the block: every key maps to its row-ordered children, every parent is a key. */
    ghost predicate Valid()
      reads this
    {
      (forall p :: p in adj ==> adj[p] == ChildIds(block, p)) &&
      (forall p :: ChildIds(block, p) != [] ==> p in adj)
    }

    /** __init__: the adjacency list is filled in row order. */
    constructor (data: Block, off: int, format: string)
      ensures block == data && offset == off && fmt == format
      ensures adj == AdjUpTo(data, |data|) && Valid()
    {
      block, offset, fmt := data, off, format;
      var m: map<int, seq<int>> := map[];
      var k := 0;
      while k < |data|
        invariant 0 <= k <= |data| && m == AdjUpTo(data, k)
      {
        var row := data[k];
        m := m[row.pid := (if row.pid in m then m[row.pid] else []) + [row.id]];
        k := k + 1;
      }
      adj := m;
      AdjListRowOrder(data, |data|);
    }

    /**
     * iter_row: LookupError unless the start id (the offset when none is given) falls on a row;
     * otherwise the rows from there to the end that satisfy the predicate, in row order.
     */
    function IterRow(start: Option<int>, pred: Option<Row -> bool>): (r: Result<seq<Row>>)
      ensures var s := (if start.Some? then start.value else offset) - offset;
        (r.Err? <==> !(0 <= s < |block|)) &&
        (r.Err? ==> r.error == LookupError) &&
        (r.Ok? ==> r.value == if pred.None? then block[s..] else Filter(block[s..], pred.value))
    {
      var s := (if start.Some? then start.value else offset) - offset;
      if s < 0 || s >= |block| then Err(LookupError)
      else if pred.None? then Ok(block[s..])
      else Ok(Filter(block[s..], pred.value))
    }

    /** get_ids: the ID column, read through iter_row from the offset, so an empty block raises LookupError. */
    function GetIds(): (r: Result<seq<int>>)
      ensures r.Err? <==> |block| == 0
      ensures r.Err? ==> r.error == LookupError
      ensures r.Ok? ==> |r.value| == |block| && forall k :: 0 <= k < |block| ==> r.value[k] == block[k].id
    {
      if |block| == 0 then Err(LookupError)
      else Ok(seq(|block|, k requires 0 <= k < |block| => block[k].id))
    }

    /** iter_row() with no start and no predicate is the whole block, and raises on an empty one. */
    lemma IterRowAll()
      ensures IterRow(None, None) == if |block| == 0 then Err(LookupError) else Ok(block)
    {
    }

    /** get_ids is the ID column of iter_row(None): both raise on an empty block. */
    lemma GetIdsThroughIterRow()
      ensures IterRow(None, None).Ok? <==> GetIds().Ok?
      ensures GetIds().Ok? ==> |GetIds().value| == |IterRow(None, None).value|
      ensures GetIds().Ok? ==>
        forall k :: 0 <= k < |GetIds().value| ==> GetIds().value[k] == IterRow(None, None).value[k].id
    {
    }

    predicate IsId(idx: int)
    {
      GetIds().Ok? && idx in GetIds().value
    }

    /**
     * get_parent: LookupError for an id of no row; otherwise the P column of the row at
     * position idx - offset (an IndexError when that position is past the end).
     */
    function GetParent(idx: int): (r: Result<int>)
      ensures !IsId(idx) ==> r == Err(LookupError)
      ensures r.Ok? ==> IsId(idx) && exists k :: 0 <= k < |block| && block[k].pid == r.value
    {
      if !IsId(idx) then Err(LookupError)
      else match PyIndex(idx - offset, |block|)
        case None => Err(IndexError)
        case Some(k) => Ok(block[k].pid)
    }

    /** With sequential ids, get_parent of a row's id is that row's parent id. */
    lemma GetParentSequential(i: nat)
      requires SequentialFrom(block, offset) && i < |block|
      ensures GetParent(block[i].id) == Ok(block[i].pid)
    {
      assert GetIds().value[i] == block[i].id;
    }

    /**
     * get_row: no row for an id below the offset; otherwise the row at position idx - offset,
     * an IndexError past the end.
     */
    function GetRow(idx: int): (r: Result<Option<Row>>)
      ensures idx - offset <= ROOT_ID ==> r == Ok(None)
      ensures idx - offset >= |block| ==> r == Err(IndexError)
      ensures 0 <= idx - offset < |block| ==> r == Ok(Some(block[idx - offset]))
    {
      var k := idx - offset;
      if k > ROOT_ID then (if k < |block| then Ok(Some(block[k])) else Err(IndexError)) else Ok(None)
    }

    /** get_end_points on the current dictionary. */
    function GetEndPoints(): (r: set<int>)
      reads this
      requires Valid()
      ensures forall e :: e in r ==> ChildIds(block, e) == [] && exists i :: 0 <= i < |block| && block[i].id == e
    {
      EndPointsOf(block, adj)
    }

    /** get_fork_points: the keys with more than one child, that is the ids parenting two or more rows. */
    function GetForkPoints(): (r: set<int>)
      reads this
      requires Valid()
      ensures forall p :: p in r <==> |ChildIds(block, p)| > 1
    {
      set p | p in adj && |adj[p]| > 1
    }

    /**
     * get_children: LookupError for an id that is neither ROOT_ID nor a row's id; otherwise the
     * children of idx in row order. Reading adj_list[idx] inserts a missing idx as a key.
     */
    method GetChildren(idx: int) returns (r: Result<seq<int>>)
      requires Valid()
      modifies this
      ensures Valid()
      ensures r.Err? <==> idx != ROOT_ID && !IsId(idx)
      ensures r.Err? ==> r.error == LookupError && adj == old(adj)
      ensures r.Ok? ==> r.value == ChildIds(block, idx) && adj == AdjAfterGet(old(adj), idx)
    {
      if idx != ROOT_ID && !IsId(idx) {
        return Err(LookupError);
      }
      if idx in adj {
        r := Ok(adj[idx]);
      } else {
        r := Ok([]);
        adj := adj[idx := []];
      }
    }

    /**
     * get_children without the insertion (`adj_list.get(idx, [])`): the same answer, and the
     * dictionary, hence get_end_points, is left as it was.
     */
    function ChildrenOf(idx: int): (r: Result<seq<int>>)
      reads this
      requires Valid()
      ensures r.Err? <==> idx != ROOT_ID && !IsId(idx)
      ensures r.Err? ==> r.error == LookupError
      ensures r.Ok? ==> r.value == ChildIds(block, idx)
      ensures r.Ok? ==> forall c :: c in r.value <==> exists i :: 0 <= i < |block| && block[i].pid == idx && block[i].id == c
    {
      ChildIdsMembers(block, |block|, idx);
      if idx != ROOT_ID && !IsId(idx) then Err(LookupError)
      else if idx in adj then Ok(adj[idx]) else Ok([])
    }
  }
}

/**
 * The section builder of the fast reader: the rows of a point table are cut into sections
 * (runs of points between end points), each section learns the section holding its parent
 * point, and sections interrupted by interleaved rows (gaps) are joined back together.
 */
module DataWrapper {
  import opened Wrappers
  import opened Seqs
  import opened DataFormat

  /** A DataBlockSection: row indices (the first one is the parent point), a TYPE code and the parent section. */
  datatype DBSection = DBSection(ids: seq<int>, ntype: int, pid: int)

  /** A DataBlockSection built with its default arguments. */
  const EmptySection: DBSection := DBSection([], 0, -1)

  function Last(s: seq<int>): int
    requires |s| > 0
  {
    s[|s| - 1]
  }

  // ---------------------------------------------------------------------------------------------
  // The map from a row's ID to its position in the block

  /** id_map after its first i entries: ROOT_ID maps to itself, every later duplicate id wins. */
  function IdMapUpTo(block: Block, i: nat): map<int, int>
    requires i <= |block|
  {
    if i == 0 then map[ROOT_ID := ROOT_ID] else IdMapUpTo(block, i - 1)[block[i - 1].id := i - 1]
  }

  function IdMap(block: Block): map<int, int>
  {
    IdMapUpTo(block, |block|)
  }

  /** Every id of the first i rows is mapped to a position among them, and ROOT_ID is always mapped. */
  lemma {:induction false} IdMapUpToCovers(block: Block, i: nat)
    requires i <= |block|
    ensures ROOT_ID in IdMapUpTo(block, i)
    ensures forall j :: 0 <= j < i ==> block[j].id in IdMapUpTo(block, i)
    ensures forall x :: x in IdMapUpTo(block, i) ==> -1 <= IdMapUpTo(block, i)[x] < i
  {
    if i > 0 {
      IdMapUpToCovers(block, i - 1);
    }
  }

  /** With unique ids, id_map sends the id of row j to j and ROOT_ID to itself; it maps nothing else. */
  lemma {:induction false} IdMapUpToIndex(block: Block, i: nat)
    requires i <= |block| && UniqueIds(block)
    ensures ROOT_ID in IdMapUpTo(block, i) && forall j :: 0 <= j < i ==> block[j].id in IdMapUpTo(block, i)
    ensures IdMapUpTo(block, i)[ROOT_ID] == ROOT_ID
    ensures forall j :: 0 <= j < i ==> IdMapUpTo(block, i)[block[j].id] == j
    ensures forall x :: x in IdMapUpTo(block, i) ==> x == ROOT_ID || exists j :: 0 <= j < i && block[j].id == x
  {
    if i > 0 {
      IdMapUpToIndex(block, i - 1);
      IdMapUpToCovers(block, i - 1);
    }
  }

  lemma IdMapCovers(block: Block)
    ensures ROOT_ID in IdMap(block)
    ensures forall j :: 0 <= j < |block| ==> block[j].id in IdMap(block)
    ensures forall x :: x in IdMap(block) ==> -1 <= IdMap(block)[x] < |block|
  {
    IdMapUpToCovers(block, |block|);
  }

  lemma IdMapIndex(block: Block)
    requires UniqueIds(block)
    ensures ROOT_ID in IdMap(block) && forall j :: 0 <= j < |block| ==> block[j].id in IdMap(block)
    ensures IdMap(block)[ROOT_ID] == ROOT_ID
    ensures forall j :: 0 <= j < |block| ==> IdMap(block)[block[j].id] == j
    ensures forall x :: x in IdMap(block) ==> x == ROOT_ID || exists j :: 0 <= j < |block| && block[j].id == x
  {
    IdMapUpToIndex(block, |block|);
  }

  // ---------------------------------------------------------------------------------------------
  // Section end points

  /** The number of rows whose parent is `id`. */
  function CountPid(block: Block, id: int): nat
  {
    if block == [] then 0 else (if block[0].pid == id then 1 else 0) + CountPid(block[1..], id)
  }

  lemma {:induction false} CountPidSnoc(block: Block, i: nat, id: int)
    requires i < |block|
    ensures CountPid(block[..i + 1], id) == CountPid(block[..i], id) + (if block[i].pid == id then 1 else 0)
  {
    if i == 0 {
      assert block[..1][1..] == [];
    } else {
      assert block[..i + 1][1..] == block[1..][..i];
      assert block[..i][1..] == block[1..][..i - 1];
      CountPidSnoc(block[1..], i - 1, id);
    }
  }

  /** Some neurite (non-soma) row has `id` as its parent. */
  predicate ParentsNeurite(block: Block, id: int)
  {
    exists k :: 0 <= k < |block| && block[k].ptype != SOMA && block[k].pid == id
  }

  /**
   * The section end points: rows with no child or more than one, and the position of every
   * soma point that is the parent of a neurite point.
   */
  function EndPointsSpec(block: Block, idMap: map<int, int>): set<int>
  {
    ForkOrLeafRows(block) + SomaParentRows(block, idMap)
  }

  /** The rows with no child or more than one. */
  function ForkOrLeafRows(block: Block): set<int>
  {
    set i | 0 <= i < |block| && CountPid(block, block[i].id) != 1
  }

  /** The positions of the soma points that parent a neurite point. */
  function SomaParentRows(block: Block, idMap: map<int, int>): set<int>
  {
    set j | 0 <= j < |block| && block[j].ptype == SOMA && block[j].id in idMap &&
      ParentsNeurite(block, block[j].id) :: idMap[block[j].id]
  }

  /** A defaultdict(int) lookup. */
  function CountOf(counts: map<int, nat>, id: int): nat
  {
    if id in counts then counts[id] else 0
  }

  /** _section_end_points: counts the children of every id in one pass, then selects the end points. */
  method SectionEndPoints(block: Block, idMap: map<int, int>) returns (r: set<int>)
    ensures r == EndPointsSpec(block, idMap)
  {
    var counts: map<int, nat> := map[];
    var i := 0;
    while i < |block|
      invariant 0 <= i <= |block|
      invariant forall id :: CountOf(counts, id) == CountPid(block[..i], id)
    {
      forall id
        ensures CountPid(block[..i + 1], id) == CountPid(block[..i], id) + (if block[i].pid == id then 1 else 0)
      {
        CountPidSnoc(block, i, id);
      }
      var old_counts := counts;
      counts := counts[block[i].pid := CountOf(counts, block[i].pid) + 1];
      forall id
        ensures CountOf(counts, id) == CountPid(block[..i + 1], id)
      {
        assert CountOf(old_counts, id) == CountPid(block[..i], id);
      }
      i := i + 1;
    }
    assert block[..|block|] == block;
    r := (set i | 0 <= i < |block| && CountOf(counts, block[i].id) != 1) +
         (set j | 0 <= j < |block| && block[j].ptype == SOMA && block[j].id in idMap &&
            ParentsNeurite(block, block[j].id) :: idMap[block[j].id]);
  }

  // ---------------------------------------------------------------------------------------------
  // The first pass of _extract_sections: cutting the rows into sections

  /**
   * The state of the first pass: the finished sections, the current one (always the last of
   * the sections list), the end points, parent_section and gap_sections.
   */
  datatype Split = Split(done: seq<DBSection>, cur: DBSection, endPts: set<int>, ps: map<int, int>, gaps: set<int>)

  function Sections(st: Split): seq<DBSection>
  {
    st.done + [st.cur]
  }

  function InitSplit(block: Block, idMap: map<int, int>): Split
  {
    Split([], EmptySection, EndPointsSpec(block, idMap), map[ROOT_ID := ROOT_ID], {})
  }

  /** gap_sections only names finished sections. */
  predicate GapsIn(st: Split)
  {
    forall g :: g in st.gaps ==> 0 <= g < |st.done|
  }

  predicate IdsMapped(block: Block, idMap: map<int, int>)
  {
    forall j :: 0 <= j < |block| ==> block[j].id in idMap
  }

  /** The current section after the row's parent was placed first in it, if it was empty. */
  function Opened(cur: DBSection, parent: int, ptype: int): (c: DBSection)
    ensures |c.ids| > 0
  {
    if cur.ids == [] then DBSection([parent], ptype, cur.pid) else cur
  }

  /** One iteration of the row loop; a parent id that is not in id_map raises KeyError. */
  function Step(block: Block, idMap: map<int, int>, st: Split, i: nat): (r: Result<Split>)
    requires i < |block| && IdsMapped(block, idMap) && GapsIn(st)
    ensures r.Ok? ==> GapsIn(r.value)
  {
    var row := block[i];
    var rowId := idMap[row.id];
    if row.pid !in idMap then Err(KeyError)
    else
      var parent := idMap[row.pid];
      var c0 := Opened(st.cur, parent, row.ptype);
      var gap := parent != Last(c0.ids);
      var ends := if gap then st.endPts + {rowId} else st.endPts;
      var c1 := if gap then c0 else c0.(ids := c0.ids + [rowId]);
      if rowId in ends then
        var ps := st.ps[Last(c1.ids) := |st.done|];
        if gap then
          Ok(Split(st.done + [c1], DBSection([parent, rowId], row.ptype, -1), ends, ps, st.gaps + {|st.done|}))
        else if rowId != |block| - 1 then
          Ok(Split(st.done + [c1], EmptySection, ends, ps, st.gaps))
        else
          Ok(Split(st.done, c1, ends, ps, st.gaps))
      else
        Ok(Split(st.done, c1, ends, st.ps, st.gaps))
  }

  /** The row loop from row i on. */
  function Scan(block: Block, idMap: map<int, int>, st: Split, i: nat): (r: Result<Split>)
    requires i <= |block| && IdsMapped(block, idMap) && GapsIn(st)
    ensures r.Ok? ==> GapsIn(r.value)
    decreases |block| - i
  {
    if i == |block| then Ok(st)
    else
      match Step(block, idMap, st, i)
      case Err(e) => Err(e)
      case Ok(st1) => Scan(block, idMap, st1, i + 1)
  }

  // ---------------------------------------------------------------------------------------------
  // What the first pass establishes, for a block with unique ids

  /** Every id after the first of a section is a row whose parent row is the id before it. */
  predicate ChainOK(block: Block, idMap: map<int, int>, s: DBSection)
  {
    forall m :: 1 <= m < |s.ids| ==>
      0 <= s.ids[m] < |block| && block[s.ids[m]].pid in idMap && idMap[block[s.ids[m]].pid] == s.ids[m - 1]
  }

  predicate Chains(block: Block, idMap: map<int, int>, secs: seq<DBSection>)
  {
    forall k :: 0 <= k < |secs| ==> ChainOK(block, idMap, secs[k])
  }

  /** Finished sections hold at least two ids; the current one is empty or holds two. */
  predicate Sizes(st: Split)
  {
    (forall k :: 0 <= k < |st.done| ==> |st.done[k].ids| >= 2) && (st.cur.ids == [] || |st.cur.ids| >= 2)
  }

  /** The ids of each section without its first one. */
  function IdTails(secs: seq<DBSection>): (r: seq<seq<int>>)
    ensures |r| == |secs|
  {
    seq(|secs|, k requires 0 <= k < |secs| => Rest(secs[k].ids))
  }

  /** Without their first ids, the sections so far hold rows 0 .. i - 1, each once and in order. */
  predicate Partition(st: Split, i: nat)
  {
    Flatten(IdTails(st.done)) + Rest(st.cur.ids) == Range(0, i)
  }

  /**
   * parent_section sends ROOT_ID to itself and every other id to a section that ends with it;
   * the current section is named only once the last row has been read.
   */
  predicate PsLinks(st: Split, i: nat, n: nat)
  {
    forall x :: x in st.ps ==>
      (x == ROOT_ID && st.ps[x] == ROOT_ID) ||
      (0 <= st.ps[x] <= |st.done| && |Sections(st)[st.ps[x]].ids| >= 2 && Last(Sections(st)[st.ps[x]].ids) == x &&
       (st.ps[x] < |st.done| || i == n))
  }

  /**
   * A gap section is followed by the two-point section opened at the gap: it starts at a parent
   * that is not the gap section's last point, and its second point became an end point.
   */
  predicate GapShape(st: Split)
  {
    forall g :: g in st.gaps ==>
      0 <= g < |st.done| && |st.done[g].ids| > 0 && |Sections(st)[g + 1].ids| >= 2 &&
      Sections(st)[g + 1].ids[0] != Last(st.done[g].ids) && Sections(st)[g + 1].ids[1] in st.endPts
  }

  /** The conditions under which the row loop is analysed: unique ids and the real id_map. */
  predicate Wf(block: Block, idMap: map<int, int>)
  {
    UniqueIds(block) && idMap == IdMap(block)
  }

  lemma WfMapped(block: Block, idMap: map<int, int>)
    requires Wf(block, idMap)
    ensures IdsMapped(block, idMap)
    ensures forall j :: 0 <= j < |block| ==> idMap[block[j].id] == j
    ensures forall x :: x in idMap ==> -1 <= idMap[x] < |block|
  {
    IdMapIndex(block);
    IdMapCovers(block);
  }

  lemma IdTailsSnoc(secs: seq<DBSection>, s: DBSection)
    ensures IdTails(secs + [s]) == IdTails(secs) + [Rest(s.ids)]
    ensures Flatten(IdTails(secs + [s])) == Flatten(IdTails(secs)) + Rest(s.ids)
  {
    assert IdTails(secs + [s]) == IdTails(secs) + [Rest(s.ids)];
    FlattenConcat(IdTails(secs), [Rest(s.ids)]);
    assert Flatten([Rest(s.ids)]) == Rest(s.ids) + Flatten([]);
  }

  lemma RangeSnoc(i: nat)
    ensures Range(0, i + 1) == Range(0, i) + [i]
  {
  }

  lemma StepChains(block: Block, idMap: map<int, int>, st: Split, i: nat, st1: Split)
    requires i < |block| && Wf(block, idMap) && GapsIn(st)
    requires (WfMapped(block, idMap); Step(block, idMap, st, i) == Ok(st1))
    requires Chains(block, idMap, Sections(st))
    ensures Chains(block, idMap, Sections(st1))
  {
    WfMapped(block, idMap);
    StepShape(block, idMap, st, i, st1);
    var parent := ParentOf(block, idMap, i);
    var c0 := Opened(st.cur, parent, block[i].ptype);
    ChainsSplit(block, idMap, st.done, st.cur);
    assert ChainOK(block, idMap, c0);
    ChainsJoin(block, idMap, st.done, c0);
    if parent == Last(c0.ids) {
      var c1 := c0.(ids := c0.ids + [i]);
      assert ChainOK(block, idMap, c1);
      ChainsJoin(block, idMap, st.done, c1);
      ChainsJoin(block, idMap, st.done + [c1], EmptySection);
    } else {
      ChainsJoin(block, idMap, st.done + [c0], DBSection([parent, i], block[i].ptype, -1));
    }
  }

  /** The finished sections and the current one are each chained. */
  lemma ChainsSplit(block: Block, idMap: map<int, int>, done: seq<DBSection>, cur: DBSection)
    requires Chains(block, idMap, done + [cur])
    ensures Chains(block, idMap, done) && ChainOK(block, idMap, cur)
  {
    assert (done + [cur])[|done|] == cur;
    forall k | 0 <= k < |done|
      ensures ChainOK(block, idMap, done[k])
    {
      assert (done + [cur])[k] == done[k];
    }
  }

  /** Chained finished sections and a chained current section make chained sections. */
  lemma ChainsJoin(block: Block, idMap: map<int, int>, done: seq<DBSection>, cur: DBSection)
    requires Chains(block, idMap, done) && ChainOK(block, idMap, cur)
    ensures Chains(block, idMap, done + [cur])
  {
    forall k | 0 <= k < |done| + 1
      ensures ChainOK(block, idMap, (done + [cur])[k])
    {
      if k < |done| {
        assert (done + [cur])[k] == done[k];
      }
    }
  }

  /** The parent position of row i, and the current section once that parent opened it. */
  function ParentOf(block: Block, idMap: map<int, int>, i: nat): int
    requires i < |block| && block[i].pid in idMap
  {
    idMap[block[i].pid]
  }

  /** The four outcomes of one row: a gap, an inner point, an end point, the last row as an end point. */
  lemma StepShape(block: Block, idMap: map<int, int>, st: Split, i: nat, st1: Split)
    requires i < |block| && Wf(block, idMap) && GapsIn(st)
    requires (WfMapped(block, idMap); Step(block, idMap, st, i) == Ok(st1))
    ensures block[i].pid in idMap
    ensures var parent := ParentOf(block, idMap, i);
      var c0 := Opened(st.cur, parent, block[i].ptype);
      var c1 := c0.(ids := c0.ids + [i]);
      (parent != Last(c0.ids) ==>
         st1 == Split(st.done + [c0], DBSection([parent, i], block[i].ptype, -1), st.endPts + {i},
                      st.ps[Last(c0.ids) := |st.done|], st.gaps + {|st.done|})) &&
      (parent == Last(c0.ids) && i !in st.endPts ==>
         st1 == Split(st.done, c1, st.endPts, st.ps, st.gaps)) &&
      (parent == Last(c0.ids) && i in st.endPts && i != |block| - 1 ==>
         st1 == Split(st.done + [c1], EmptySection, st.endPts, st.ps[i := |st.done|], st.gaps)) &&
      (parent == Last(c0.ids) && i in st.endPts && i == |block| - 1 ==>
         st1 == Split(st.done, c1, st.endPts, st.ps[i := |st.done|], st.gaps))
  {
    WfMapped(block, idMap);
  }

  /** Appending a section, or a point to the current section, extends the partition by row i. */
  lemma PartitionAdvance(done: seq<DBSection>, cur: DBSection, c0: DBSection, i: nat)
    requires Flatten(IdTails(done)) + Rest(cur.ids) == Range(0, i)
    requires |c0.ids| > 0 && Rest(c0.ids) == Rest(cur.ids)
    ensures Flatten(IdTails(done + [c0])) + [i] == Range(0, i + 1)
    ensures Flatten(IdTails(done + [c0.(ids := c0.ids + [i])])) == Range(0, i + 1)
    ensures Flatten(IdTails(done)) + Rest(c0.ids + [i]) == Range(0, i + 1)
  {
    RangeSnoc(i);
    IdTailsSnoc(done, c0);
    var c1 := c0.(ids := c0.ids + [i]);
    assert Rest(c1.ids) == Rest(c0.ids) + [i];
    IdTailsSnoc(done, c1);
  }

  lemma StepPartition(block: Block, idMap: map<int, int>, st: Split, i: nat, st1: Split)
    requires i < |block| && Wf(block, idMap) && GapsIn(st)
    requires (WfMapped(block, idMap); Step(block, idMap, st, i) == Ok(st1))
    requires Partition(st, i)
    ensures Partition(st1, i + 1)
  {
    StepShape(block, idMap, st, i, st1);
    var parent := ParentOf(block, idMap, i);
    var c0 := Opened(st.cur, parent, block[i].ptype);
    assert Rest(c0.ids) == Rest(st.cur.ids);
    PartitionAdvance(st.done, st.cur, c0, i);
    if parent == Last(c0.ids) && i in st.endPts && i != |block| - 1 {
      assert Rest(EmptySection.ids) == [];
    }
  }

  lemma StepSizes(block: Block, idMap: map<int, int>, st: Split, i: nat, st1: Split)
    requires i < |block| && Wf(block, idMap) && GapsIn(st)
    requires (WfMapped(block, idMap); Step(block, idMap, st, i) == Ok(st1))
    requires Sizes(st)
    ensures Sizes(st1)
  {
    StepShape(block, idMap, st, i, st1);
  }

  lemma StepPs(block: Block, idMap: map<int, int>, st: Split, i: nat, st1: Split)
    requires i < |block| && Wf(block, idMap) && GapsIn(st)
    requires (WfMapped(block, idMap); Step(block, idMap, st, i) == Ok(st1))
    requires Sizes(st) && Chains(block, idMap, Sections(st)) && PsLinks(st, i, |block|)
    ensures PsLinks(st1, i + 1, |block|)
  {
    StepShape(block, idMap, st, i, st1);
    var parent := ParentOf(block, idMap, i);
    var c0 := Opened(st.cur, parent, block[i].ptype);
    assert Sections(st)[|st.done|] == st.cur;
    assert forall k :: 0 <= k < |st.done| ==> Sections(st)[k] == st.done[k];
    assert forall k :: 0 <= k < |st.done| ==> Sections(st1)[k] == st.done[k];
    if parent != Last(c0.ids) {
      assert |c0.ids| >= 2 && ChainOK(block, idMap, c0);
      assert Last(c0.ids) >= 0;
      assert Sections(st1)[|st.done|] == c0;
    } else {
      assert Sections(st1)[|st.done|] == c0.(ids := c0.ids + [i]);
    }
  }

  /** Growing the current section keeps the gap shape, whether or not the section is then finished. */
  lemma GapShapeKeep(st: Split, c1: DBSection, ends: set<int>, ps: map<int, int>)
    requires GapShape(st) && Sizes(st) && st.endPts <= ends && |c1.ids| >= 2
    requires |st.cur.ids| >= 2 ==> c1.ids[0] == st.cur.ids[0] && c1.ids[1] == st.cur.ids[1]
    ensures GapShape(Split(st.done, c1, ends, ps, st.gaps))
    ensures GapShape(Split(st.done + [c1], EmptySection, ends, ps, st.gaps))
  {
    var s1 := Split(st.done, c1, ends, ps, st.gaps);
    var s2 := Split(st.done + [c1], EmptySection, ends, ps, st.gaps);
    forall g | g in st.gaps
      ensures Sections(s1)[g + 1].ids[..2] == Sections(st)[g + 1].ids[..2]
      ensures Sections(s2)[g + 1].ids[..2] == Sections(st)[g + 1].ids[..2] && s2.done[g] == st.done[g]
    {
      if g + 1 < |st.done| {
        assert Sections(s1)[g + 1] == st.done[g + 1] == Sections(st)[g + 1];
        assert Sections(s2)[g + 1] == st.done[g + 1];
      } else {
        assert Sections(st)[g + 1] == st.cur;
        assert Sections(s1)[g + 1] == c1;
        assert Sections(s2)[g + 1] == c1;
      }
    }
  }

  /** A gap finishes the current section, records it as a gap section and opens [parent, row]. */
  lemma GapShapeNew(st: Split, parent: int, i: int, ptype: int, ps: map<int, int>)
    requires GapShape(st) && Sizes(st) && st.cur.ids != [] && parent != Last(st.cur.ids)
    ensures GapShape(Split(st.done + [st.cur], DBSection([parent, i], ptype, -1), st.endPts + {i}, ps,
                           st.gaps + {|st.done|}))
  {
    var s1 := Split(st.done + [st.cur], DBSection([parent, i], ptype, -1), st.endPts + {i}, ps, st.gaps + {|st.done|});
    assert Sections(s1)[|st.done| + 1] == DBSection([parent, i], ptype, -1);
    assert s1.done[|st.done|] == st.cur;
    forall g | g in st.gaps
      ensures Sections(s1)[g + 1] == Sections(st)[g + 1] && s1.done[g] == st.done[g]
    {
      if g + 1 < |st.done| {
        assert Sections(s1)[g + 1] == st.done[g + 1];
      } else {
        assert Sections(st)[g + 1] == st.cur;
      }
    }
  }

  lemma StepGaps(block: Block, idMap: map<int, int>, st: Split, i: nat, st1: Split)
    requires i < |block| && Wf(block, idMap) && GapsIn(st)
    requires (WfMapped(block, idMap); Step(block, idMap, st, i) == Ok(st1))
    requires Sizes(st) && GapShape(st)
    ensures GapShape(st1)
  {
    StepShape(block, idMap, st, i, st1);
    var parent := ParentOf(block, idMap, i);
    var c0 := Opened(st.cur, parent, block[i].ptype);
    if parent != Last(c0.ids) {
      GapShapeNew(st, parent, i, block[i].ptype, st1.ps);
    } else {
      GapShapeKeep(st, c0.(ids := c0.ids + [i]), st1.endPts, st1.ps);
    }
  }

  /** The row loop leaves every pid at its default. */
  predicate PidsUnset(secs: seq<DBSection>)
  {
    forall k :: 0 <= k < |secs| ==> secs[k].pid == ROOT_ID
  }

  lemma StepPids(block: Block, idMap: map<int, int>, st: Split, i: nat, st1: Split)
    requires i < |block| && Wf(block, idMap) && GapsIn(st)
    requires (WfMapped(block, idMap); Step(block, idMap, st, i) == Ok(st1))
    requires PidsUnset(Sections(st))
    ensures PidsUnset(Sections(st1))
  {
    StepShape(block, idMap, st, i, st1);
    assert Sections(st)[|st.done|] == st.cur;
    assert forall k :: 0 <= k < |st.done| ==> Sections(st)[k] == st.done[k];
  }

  /** Everything the row loop keeps true, after i rows of a block of n. */
  predicate FirstPassInv(block: Block, idMap: map<int, int>, st: Split, i: nat)
  {
    GapsIn(st) && Sizes(st) && Chains(block, idMap, Sections(st)) && Partition(st, i) &&
    PsLinks(st, i, |block|) && GapShape(st) && PidsUnset(Sections(st))
  }

  lemma FirstPassInit(block: Block, idMap: map<int, int>)
    ensures FirstPassInv(block, idMap, InitSplit(block, idMap), 0)
  {
    var st := InitSplit(block, idMap);
    assert Sections(st) == [EmptySection];
    assert IdTails([]) == [];
  }

  lemma {:induction false} ScanInv(block: Block, idMap: map<int, int>, st: Split, i: nat, st1: Split)
    requires i <= |block| && Wf(block, idMap) && FirstPassInv(block, idMap, st, i)
    requires (WfMapped(block, idMap); Scan(block, idMap, st, i) == Ok(st1))
    ensures FirstPassInv(block, idMap, st1, |block|)
    decreases |block| - i
  {
    WfMapped(block, idMap);
    if i < |block| {
      var st2 := Step(block, idMap, st, i).value;
      StepChains(block, idMap, st, i, st2);
      StepSizes(block, idMap, st, i, st2);
      StepPartition(block, idMap, st, i, st2);
      StepPs(block, idMap, st, i, st2);
      StepGaps(block, idMap, st, i, st2);
      StepPids(block, idMap, st, i, st2);
      ScanInv(block, idMap, st2, i + 1, st1);
    }
  }

  /**
   * After the row loop the sections, without their first ids, hold every row once and in order;
   * each is a path of parent links starting at the parent of its first row, parent_section
   * names for every id a section that ends with it, and each gap section is followed by the
   * two-point section opened at the gap.
   */
  lemma FirstPass(block: Block, st: Split)
    requires UniqueIds(block)
    requires (IdMapCovers(block); Scan(block, IdMap(block), InitSplit(block, IdMap(block)), 0) == Ok(st))
    ensures Flatten(IdTails(Sections(st))) == Range(0, |block|)
    ensures forall k :: 0 <= k < |Sections(st)| ==> ChainOK(block, IdMap(block), Sections(st)[k])
    ensures forall k :: 0 <= k < |Sections(st)| ==> Sections(st)[k].ids == [] || |Sections(st)[k].ids| >= 2
    ensures PsLinks(st, |block|, |block|) && GapShape(st) && PidsUnset(Sections(st))
  {
    FirstPassInit(block, IdMap(block));
    ScanInv(block, IdMap(block), InitSplit(block, IdMap(block)), 0, st);
    FirstPassFacts(block, IdMap(block), st);
  }

  /** The invariant of the row loop, once every row has been read, spelled out. */
  lemma FirstPassFacts(block: Block, idMap: map<int, int>, st: Split)
    requires FirstPassInv(block, idMap, st, |block|)
    ensures Flatten(IdTails(Sections(st))) == Range(0, |block|)
    ensures forall k :: 0 <= k < |Sections(st)| ==> ChainOK(block, idMap, Sections(st)[k])
    ensures forall k :: 0 <= k < |Sections(st)| ==> Sections(st)[k].ids == [] || |Sections(st)[k].ids| >= 2
    ensures PsLinks(st, |block|, |block|) && GapShape(st) && PidsUnset(Sections(st))
  {
    IdTailsSnoc(st.done, st.cur);
    forall k | 0 <= k < |Sections(st)|
      ensures Sections(st)[k].ids == [] || |Sections(st)[k].ids| >= 2
    {
      if k < |st.done| {
        assert Sections(st)[k] == st.done[k];
      } else {
        assert Sections(st)[k] == st.cur;
      }
    }
  }

  /** The row loop raises KeyError only for a parent id that is neither ROOT_ID nor the id of a row. */
  lemma {:induction false} ScanSucceeds(block: Block, idMap: map<int, int>, st: Split, i: nat)
    requires i <= |block| && IdsMapped(block, idMap) && GapsIn(st)
    requires forall j :: 0 <= j < |block| ==> block[j].pid in idMap
    ensures Scan(block, idMap, st, i).Ok?
    decreases |block| - i
  {
    if i < |block| {
      ScanSucceeds(block, idMap, Step(block, idMap, st, i).value, i + 1);
    }
  }

  lemma {:induction false} ScanFails(block: Block, idMap: map<int, int>, st: Split, i: nat, j: nat)
    requires i <= j < |block| && IdsMapped(block, idMap) && GapsIn(st)
    requires block[j].pid !in idMap
    ensures Scan(block, idMap, st, i) == Err(KeyError)
    decreases j - i
  {
    if i < j {
      var r := Step(block, idMap, st, i);
      if r.Ok? {
        ScanFails(block, idMap, r.value, i + 1, j);
      }
    }
  }

  // ---------------------------------------------------------------------------------------------
  // The second pass: parent sections and merging of gap sections

  /** _merge_sections: b takes a's ids followed by its own without the first, a's type and pid; a is reset. */
  function MergeSections(a: DBSection, b: DBSection): (r: (DBSection, DBSection))
  {
    (EmptySection, DBSection(a.ids + Rest(b.ids), a.ntype, a.pid))
  }

  predicate GapsBelow(gaps: set<int>, n: nat)
  {
    forall g :: g in gaps ==> 0 <= g < n
  }

  /** One iteration of the section loop, at section j. */
  function Link(secs: seq<DBSection>, ps: map<int, int>, gaps: set<int>, j: nat): (r: Result<seq<DBSection>>)
    requires j < |secs| && GapsBelow(gaps, |secs|)
    ensures r.Ok? ==> |r.value| == |secs|
  {
    var sec := secs[j];
    if sec.ids != [] && sec.ids[0] !in ps then Err(KeyError)
    else
      var sec1 := if sec.ids != [] then sec.(pid := ps[sec.ids[0]]) else sec;
      var s1 := secs[j := sec1];
      if sec1.pid in gaps then
        var m := MergeSections(s1[sec1.pid], sec1);
        Ok(s1[j := m.1][sec1.pid := m.0])
      else
        Ok(s1)
  }

  /** The section loop from section j on. */
  function Loop2(secs: seq<DBSection>, ps: map<int, int>, gaps: set<int>, j: nat): (r: Result<seq<DBSection>>)
    requires j <= |secs| && GapsBelow(gaps, |secs|)
    ensures r.Ok? ==> |r.value| == |secs|
    decreases |secs| - j
  {
    if j == |secs| then Ok(secs)
    else
      match Link(secs, ps, gaps, j)
      case Err(e) => Err(e)
      case Ok(s1) => Loop2(s1, ps, gaps, j + 1)
  }

  // ---------------------------------------------------------------------------------------------
  // What the second pass keeps true

  /** parent_section sends ROOT_ID to itself and every other id to a section ending with it, or emptied. */
  predicate PsOK(secs: seq<DBSection>, ps: map<int, int>)
  {
    forall x :: x in ps ==>
      (x == ROOT_ID && ps[x] == ROOT_ID) ||
      (0 <= ps[x] < |secs| && (secs[ps[x]].ids == [] || Last(secs[ps[x]].ids) == x))
  }

  /** Sections not yet visited keep the default pid and are empty or hold two ids. */
  predicate Unvisited(secs: seq<DBSection>, j: nat)
  {
    forall k :: j <= k < |secs| ==> secs[k].pid == ROOT_ID && (secs[k].ids == [] || |secs[k].ids| >= 2)
  }

  /** An emptied section has the default pid. */
  predicate EmptyPid(secs: seq<DBSection>)
  {
    forall k :: 0 <= k < |secs| && secs[k].ids == [] ==> secs[k].pid == ROOT_ID
  }

  /** A section's pid is ROOT_ID or names a section that ends with its first id, or was emptied. */
  predicate PidLink(secs: seq<DBSection>, k: nat)
    requires k < |secs|
  {
    secs[k].pid == ROOT_ID ||
    (0 <= secs[k].pid < |secs| && secs[k].ids != [] &&
     (secs[secs[k].pid].ids == [] || Last(secs[secs[k].pid].ids) == secs[k].ids[0]))
  }

  predicate PidLinks(secs: seq<DBSection>, j: nat)
    requires j <= |secs|
  {
    forall k :: 0 <= k < j ==> PidLink(secs, k)
  }

  predicate SecondPassInv(block: Block, idMap: map<int, int>, secs: seq<DBSection>, ps: map<int, int>, gaps: set<int>, j: nat)
  {
    j <= |secs| && GapsBelow(gaps, |secs|) && Chains(block, idMap, secs) && PsOK(secs, ps) &&
    Unvisited(secs, j) && EmptyPid(secs) && PidLinks(secs, j)
  }

  /** Joining b onto a keeps both sections paths of parent links when a ends where b starts. */
  lemma MergeChain(block: Block, idMap: map<int, int>, a: DBSection, b: DBSection)
    requires ChainOK(block, idMap, a) && ChainOK(block, idMap, b) && b.ids != []
    requires a.ids != [] ==> Last(a.ids) == b.ids[0]
    ensures ChainOK(block, idMap, MergeSections(a, b).0) && ChainOK(block, idMap, MergeSections(a, b).1)
  {
    var m := MergeSections(a, b).1;
    forall q | 1 <= q < |m.ids|
      ensures 0 <= m.ids[q] < |block| && block[m.ids[q]].pid in idMap && idMap[block[m.ids[q]].pid] == m.ids[q - 1]
    {
      if q >= |a.ids| + 1 {
        assert m.ids[q] == b.ids[q - |a.ids| + 1] && m.ids[q - 1] == b.ids[q - |a.ids|];
      } else if q == |a.ids| {
        assert m.ids[q] == b.ids[1] && m.ids[q - 1] == Last(a.ids);
      } else {
        assert m.ids[q] == a.ids[q] && m.ids[q - 1] == a.ids[q - 1];
      }
    }
  }

  /**
   * _merge_sections from the points' side: the merged section starts where a starts, its points
   * after the first are a's followed by b's, it ends where b ends, and a is emptied.
   */
  lemma MergeTails(a: DBSection, b: DBSection)
    requires a.ids != [] && |b.ids| >= 2
    ensures MergeSections(a, b).0 == DBSection([], 0, -1)
    ensures var m := MergeSections(a, b).1;
      m.ids[0] == a.ids[0] && Last(m.ids) == Last(b.ids) && Rest(m.ids) == Rest(a.ids) + Rest(b.ids) &&
      m.ntype == a.ntype && m.pid == a.pid
  {
    var m := MergeSections(a, b).1;
    assert Rest(m.ids) == Rest(a.ids) + Rest(b.ids);
  }

  /** What one visit does: set the pid from the first id, then merge with a gap section. */
  lemma LinkShape(secs: seq<DBSection>, ps: map<int, int>, gaps: set<int>, j: nat, out: seq<DBSection>)
    requires j < |secs| && GapsBelow(gaps, |secs|) && Link(secs, ps, gaps, j) == Ok(out)
    requires Unvisited(secs, j)
    ensures secs[j].ids == [] ==> out == secs
    ensures secs[j].ids != [] ==> secs[j].ids[0] in ps
    ensures secs[j].ids != [] ==> (
      var g := ps[secs[j].ids[0]];
      var sec1 := secs[j].(pid := g);
      (g !in gaps ==> out == secs[j := sec1]) &&
      (g in gaps ==> (
        0 <= g < |secs| &&
        var a := if g == j then sec1 else secs[g];
        out == secs[j := MergeSections(a, sec1).1][g := EmptySection])))
  {
    if secs[j].ids == [] {
      assert secs[j := secs[j]] == secs;
    }
  }

  /** A visit to an empty section changes nothing. */
  lemma VisitEmpty(block: Block, idMap: map<int, int>, secs: seq<DBSection>, ps: map<int, int>, gaps: set<int>, j: nat)
    requires SecondPassInv(block, idMap, secs, ps, gaps, j) && j < |secs| && secs[j].ids == []
    ensures SecondPassInv(block, idMap, secs, ps, gaps, j + 1)
  {
  }

  /** A visit that only sets the pid. */
  lemma VisitLink(block: Block, idMap: map<int, int>, secs: seq<DBSection>, ps: map<int, int>, gaps: set<int>, j: nat)
    requires SecondPassInv(block, idMap, secs, ps, gaps, j) && j < |secs| && secs[j].ids != []
    requires secs[j].ids[0] in ps
    ensures SecondPassInv(block, idMap, secs[j := secs[j].(pid := ps[secs[j].ids[0]])], ps, gaps, j + 1)
  {
    var out := secs[j := secs[j].(pid := ps[secs[j].ids[0]])];
    assert forall k :: 0 <= k < |secs| ==> out[k].ids == secs[k].ids;
    var x := secs[j].ids[0];
    var g := ps[x];
    assert (x == ROOT_ID && g == ROOT_ID) || (0 <= g < |secs| && (secs[g].ids == [] || Last(secs[g].ids) == x));
    if g != ROOT_ID {
      assert out[g].ids == secs[g].ids && out[j].ids[0] == x;
    }
    assert PidLink(out, j);
    forall k | 0 <= k < j
      ensures PidLink(out, k)
    {
      assert PidLink(secs, k);
    }
  }

  /** The merged section and the section it absorbed, as one visit leaves them. */
  predicate MergeOutcome(secs: seq<DBSection>, j: nat, g: nat, out: seq<DBSection>)
    requires j < |secs| && g < |secs|
  {
    var sec1 := secs[j].(pid := g);
    var a := if g == j then sec1 else secs[g];
    out == secs[j := MergeSections(a, sec1).1][g := EmptySection]
  }

  lemma MergeVisitChains(block: Block, idMap: map<int, int>, secs: seq<DBSection>, ps: map<int, int>, gaps: set<int>, j: nat, g: nat, out: seq<DBSection>)
    requires SecondPassInv(block, idMap, secs, ps, gaps, j) && j < |secs| && secs[j].ids != []
    requires secs[j].ids[0] in ps && ps[secs[j].ids[0]] == g && g < |secs| && MergeOutcome(secs, j, g, out)
    ensures Chains(block, idMap, out)
  {
    var sec1 := secs[j].(pid := g);
    var a := if g == j then sec1 else secs[g];
    assert ChainOK(block, idMap, a) && ChainOK(block, idMap, sec1);
    MergeChain(block, idMap, a, sec1);
    assert ChainOK(block, idMap, EmptySection);
  }

  lemma MergeVisitPs(block: Block, idMap: map<int, int>, secs: seq<DBSection>, ps: map<int, int>, gaps: set<int>, j: nat, g: nat, out: seq<DBSection>)
    requires SecondPassInv(block, idMap, secs, ps, gaps, j) && j < |secs| && secs[j].ids != []
    requires secs[j].ids[0] in ps && ps[secs[j].ids[0]] == g && g < |secs| && MergeOutcome(secs, j, g, out)
    ensures PsOK(out, ps) && Unvisited(out, j + 1) && EmptyPid(out)
  {
    var sec1 := secs[j].(pid := g);
    var a := if g == j then sec1 else secs[g];
    var m := MergeSections(a, sec1).1;
    assert |secs[j].ids| >= 2;
    assert Last(m.ids) == Last(secs[j].ids);
  }

  lemma MergeVisitLinks(block: Block, idMap: map<int, int>, secs: seq<DBSection>, ps: map<int, int>, gaps: set<int>, j: nat, g: nat, out: seq<DBSection>)
    requires SecondPassInv(block, idMap, secs, ps, gaps, j) && j < |secs| && secs[j].ids != []
    requires secs[j].ids[0] in ps && ps[secs[j].ids[0]] == g && g < |secs| && MergeOutcome(secs, j, g, out)
    ensures PidLinks(out, j + 1)
  {
    var sec1 := secs[j].(pid := g);
    var a := if g == j then sec1 else secs[g];
    var m := MergeSections(a, sec1).1;
    assert |secs[j].ids| >= 2;
    assert Last(m.ids) == Last(secs[j].ids);
    forall k | 0 <= k < j + 1
      ensures PidLink(out, k)
    {
      if k == g {
        assert out[k] == EmptySection;
      } else if k == j {
        assert out[k] == m;
        if g < j {
          assert PidLink(secs, g);
        }
      } else {
        assert out[k] == secs[k];
        assert PidLink(secs, k);
      }
    }
  }

  /** One visit keeps the second-pass invariant. */
  lemma LinkInv(block: Block, idMap: map<int, int>, secs: seq<DBSection>, ps: map<int, int>, gaps: set<int>, j: nat, out: seq<DBSection>)
    requires SecondPassInv(block, idMap, secs, ps, gaps, j) && j < |secs|
    requires Link(secs, ps, gaps, j) == Ok(out)
    ensures SecondPassInv(block, idMap, out, ps, gaps, j + 1)
  {
    LinkShape(secs, ps, gaps, j, out);
    if secs[j].ids == [] {
      VisitEmpty(block, idMap, secs, ps, gaps, j);
    } else {
      var g := ps[secs[j].ids[0]];
      if g !in gaps {
        VisitLink(block, idMap, secs, ps, gaps, j);
      } else {
        MergeVisitChains(block, idMap, secs, ps, gaps, j, g, out);
        MergeVisitPs(block, idMap, secs, ps, gaps, j, g, out);
        MergeVisitLinks(block, idMap, secs, ps, gaps, j, g, out);
      }
    }
  }

  lemma {:induction false} Loop2Inv(block: Block, idMap: map<int, int>, secs: seq<DBSection>, ps: map<int, int>, gaps: set<int>, j: nat, out: seq<DBSection>)
    requires SecondPassInv(block, idMap, secs, ps, gaps, j)
    requires Loop2(secs, ps, gaps, j) == Ok(out)
    ensures SecondPassInv(block, idMap, out, ps, gaps, |out|)
    decreases |secs| - j
  {
    if j < |secs| {
      var s1 := Link(secs, ps, gaps, j).value;
      LinkInv(block, idMap, secs, ps, gaps, j, s1);
      Loop2Inv(block, idMap, s1, ps, gaps, j + 1, out);
    }
  }

  /** _extract_sections as a function of the block. */
  function ExtractSectionsSpec(block: Block): Result<seq<DBSection>>
  {
    var idMap := IdMap(block);
    IdMapCovers(block);
    match Scan(block, idMap, InitSplit(block, idMap), 0)
    case Err(e) => Err(e)
    case Ok(st) => Loop2(Sections(st), st.ps, st.gaps, 0)
  }

  /** Each id after the first of a section names a row whose P column is the ID of the row named before it. */
  predicate ParentChain(block: Block, s: DBSection)
  {
    forall m :: 1 <= m < |s.ids| ==>
      0 <= s.ids[m] < |block| &&
      (if s.ids[m - 1] == ROOT_ID then block[s.ids[m]].pid == ROOT_ID
       else 0 <= s.ids[m - 1] < |block| && block[s.ids[m]].pid == block[s.ids[m - 1]].id)
  }

  lemma ChainRows(block: Block, s: DBSection)
    requires UniqueIds(block) && ChainOK(block, IdMap(block), s)
    ensures ParentChain(block, s)
  {
    IdMapIndex(block);
    IdMapCovers(block);
    forall m | 1 <= m < |s.ids|
      ensures if s.ids[m - 1] == ROOT_ID then block[s.ids[m]].pid == ROOT_ID
              else 0 <= s.ids[m - 1] < |block| && block[s.ids[m]].pid == block[s.ids[m - 1]].id
    {
      var y := block[s.ids[m]].pid;
      assert IdMap(block)[y] == s.ids[m - 1];
      if y != ROOT_ID {
        var q :| 0 <= q < |block| && block[q].id == y;
        assert IdMap(block)[block[q].id] == q;
      }
    }
  }

  /**
   * For a block with unique ids, every section _extract_sections returns is a path of parent
   * links (its first id is the parent of its first point, ROOT_ID for a root point), and a
   * section's pid is ROOT_ID or names a section that ends with this section's first point,
   * unless that section was emptied by a merge.
   */
  lemma ExtractedSections(block: Block, secs: seq<DBSection>)
    requires UniqueIds(block) && ExtractSectionsSpec(block) == Ok(secs)
    ensures forall k :: 0 <= k < |secs| ==> ParentChain(block, secs[k])
    ensures forall k :: 0 <= k < |secs| ==> PidLink(secs, k)
  {
    var idMap := IdMap(block);
    IdMapCovers(block);
    var st := Scan(block, idMap, InitSplit(block, idMap), 0).value;
    FirstPass(block, st);
    var s0 := Sections(st);
    assert SecondPassInv(block, idMap, s0, st.ps, st.gaps, 0);
    Loop2Inv(block, idMap, s0, st.ps, st.gaps, 0, secs);
    forall k | 0 <= k < |secs|
      ensures ParentChain(block, secs[k])
    {
      ChainRows(block, secs[k]);
    }
  }

  // ---------------------------------------------------------------------------------------------
  // Blocks in depth-first order

  /** Every row's parent is ROOT_ID or a row above it. */
  predicate ParentsEarlier(block: Block)
  {
    forall i :: 0 <= i < |block| ==> block[i].pid == ROOT_ID || exists j :: 0 <= j < i && block[j].id == block[i].pid
  }

  /** A row with exactly one child row is directly followed by that child. */
  predicate OnlyChildNext(block: Block)
  {
    forall i :: 0 <= i < |block| && CountPid(block, block[i].id) == 1 ==> i + 1 < |block| && block[i + 1].pid == block[i].id
  }

  /** The rows as a preorder walk of the trees lists them: unique ids, parents first, an only child next. */
  predicate DepthFirst(block: Block)
  {
    UniqueIds(block) && ParentsEarlier(block) && OnlyChildNext(block)
  }

  /** In such a block id_map sends a row's P to a position above the row. */
  lemma ParentRowEarlier(block: Block, i: nat)
    requires UniqueIds(block) && ParentsEarlier(block) && i < |block|
    ensures block[i].pid in IdMap(block) && IdMap(block)[block[i].pid] < i
  {
    IdMapIndex(block);
    if block[i].pid != ROOT_ID {
      var j :| 0 <= j < i && block[j].id == block[i].pid;
    }
  }

  /** Two different rows with the same parent id make a count of at least two. */
  lemma {:induction false} TwoChildren(block: Block, id: int, a: nat, b: nat)
    requires a < b < |block| && block[a].pid == id && block[b].pid == id
    ensures CountPid(block, id) >= 2
  {
    if a == 0 {
      OneChild(block[1..], id, b - 1);
    } else {
      TwoChildren(block[1..], id, a - 1, b - 1);
    }
  }

  lemma {:induction false} OneChild(block: Block, id: int, a: nat)
    requires a < |block| && block[a].pid == id
    ensures CountPid(block, id) >= 1
  {
    if a > 0 {
      OneChild(block[1..], id, a - 1);
    }
  }

  /**
   * The row loop over a depth-first block: no gap, the end points as computed, every end
   * point read so far and every section's first id named in parent_section, and the current
   * section, if any, ends with the row just read, which is not an end point unless it is the
   * last row.
   */
  predicate DfsInv(block: Block, idMap: map<int, int>, st: Split, i: nat)
  {
    i <= |block| && st.gaps == {} && st.endPts == EndPointsSpec(block, idMap) && ROOT_ID in st.ps &&
    (forall q :: 0 <= q < i && q in st.endPts ==> q in st.ps) &&
    (forall k :: 0 <= k < |st.done| ==> st.done[k].ids != [] && st.done[k].ids[0] in st.ps) &&
    (st.cur.ids != [] ==> st.cur.ids[0] in st.ps) &&
    (i == 0 ==> st.cur.ids == []) &&
    (i > 0 ==> (st.cur.ids != [] && Last(st.cur.ids) == i - 1) || (st.cur.ids == [] && i - 1 in st.endPts)) &&
    (0 < i < |block| && st.cur.ids != [] ==> i - 1 !in st.endPts)
  }

  lemma DfsInit(block: Block, idMap: map<int, int>)
    ensures DfsInv(block, idMap, InitSplit(block, idMap), 0)
  {
  }

  /** A row that is not an end point has exactly one child. */
  lemma NotEndOneChild(block: Block, idMap: map<int, int>, q: nat)
    requires q < |block| && q !in EndPointsSpec(block, idMap)
    ensures CountPid(block, block[q].id) == 1
  {
    assert CountPid(block, block[q].id) != 1 ==> q in ForkOrLeafRows(block);
  }

  /** In a depth-first block a row continues the current section, and a section it opens starts at a named id. */
  lemma DfsNoGap(block: Block, idMap: map<int, int>, st: Split, i: nat)
    requires i < |block| && Wf(block, idMap) && DepthFirst(block) && DfsInv(block, idMap, st, i)
    ensures block[i].pid in idMap
    ensures var c0 := Opened(st.cur, idMap[block[i].pid], block[i].ptype);
      idMap[block[i].pid] == Last(c0.ids) && c0.ids[0] in st.ps
  {
    WfMapped(block, idMap);
    IdMapIndex(block);
    ParentRowEarlier(block, i);
    var parent := idMap[block[i].pid];
    if st.cur.ids != [] {
      NotEndOneChild(block, idMap, i - 1);
      assert block[i].pid == block[i - 1].id;
    } else if parent != ROOT_ID {
      assert 0 <= parent < i;
      assert block[i].pid == block[parent].id;
      if parent !in st.endPts {
        NotEndOneChild(block, idMap, parent);
        assert block[parent + 1].pid == block[parent].id;
        if parent + 1 != i {
          TwoChildren(block, block[parent].id, parent + 1, i);
        }
        assert false;
      }
    }
  }

  lemma DfsStep(block: Block, idMap: map<int, int>, st: Split, i: nat, st1: Split)
    requires i < |block| && Wf(block, idMap) && DepthFirst(block) && DfsInv(block, idMap, st, i)
    requires (WfMapped(block, idMap); GapsIn(st) && Step(block, idMap, st, i) == Ok(st1))
    ensures DfsInv(block, idMap, st1, i + 1)
  {
    DfsNoGap(block, idMap, st, i);
    StepShape(block, idMap, st, i, st1);
  }

  lemma {:induction false} ScanDfs(block: Block, idMap: map<int, int>, st: Split, i: nat, st1: Split)
    requires i <= |block| && Wf(block, idMap) && DepthFirst(block) && DfsInv(block, idMap, st, i)
    requires (WfMapped(block, idMap); GapsIn(st) && Scan(block, idMap, st, i) == Ok(st1))
    ensures DfsInv(block, idMap, st1, |block|)
    decreases |block| - i
  {
    WfMapped(block, idMap);
    if i < |block| {
      var st2 := Step(block, idMap, st, i).value;
      DfsStep(block, idMap, st, i, st2);
      ScanDfs(block, idMap, st2, i + 1, st1);
    }
  }

  /** Without gap sections the section loop only sets pids, and raises nowhere when every first id is named. */
  lemma {:induction false} Loop2NoGaps(secs: seq<DBSection>, ps: map<int, int>, j: nat)
    requires j <= |secs| && forall k :: j <= k < |secs| && secs[k].ids != [] ==> secs[k].ids[0] in ps
    ensures Loop2(secs, ps, {}, j).Ok?
    ensures forall k :: 0 <= k < |secs| ==> Loop2(secs, ps, {}, j).value[k].ids == secs[k].ids
    decreases |secs| - j
  {
    if j < |secs| {
      var s1 := Link(secs, ps, {}, j).value;
      assert forall k :: 0 <= k < |secs| ==> s1[k].ids == secs[k].ids;
      Loop2NoGaps(s1, ps, j + 1);
    }
  }

  /** After the row loop over a depth-first block there is no gap section and every section's first id is named. */
  lemma DfsFirstPass(block: Block, st: Split)
    requires DepthFirst(block)
    requires (IdMapCovers(block); Scan(block, IdMap(block), InitSplit(block, IdMap(block)), 0) == Ok(st))
    ensures st.gaps == {}
    ensures forall k :: 0 <= k < |Sections(st)| && Sections(st)[k].ids != [] ==> Sections(st)[k].ids[0] in st.ps
  {
    var idMap := IdMap(block);
    WfMapped(block, idMap);
    DfsInit(block, idMap);
    ScanDfs(block, idMap, InitSplit(block, idMap), 0, st);
    var s0 := Sections(st);
    forall k | 0 <= k < |s0| && s0[k].ids != []
      ensures s0[k].ids[0] in st.ps
    {
      if k < |st.done| {
        assert s0[k] == st.done[k];
      } else {
        assert s0[k] == st.cur;
      }
    }
  }

  /** In a block in depth-first order every P is ROOT_ID or a row's ID, so the row loop raises nothing. */
  lemma DfsScanOk(block: Block)
    requires DepthFirst(block)
    ensures (IdMapCovers(block); Scan(block, IdMap(block), InitSplit(block, IdMap(block)), 0).Ok?)
  {
    var idMap := IdMap(block);
    WfMapped(block, idMap);
    forall j | 0 <= j < |block|
      ensures block[j].pid in idMap
    {
      ParentRowEarlier(block, j);
    }
    ScanSucceeds(block, idMap, InitSplit(block, idMap), 0);
  }

  /**
   * A block in depth-first order raises no KeyError and needs no merge: without their first
   * ids, the sections _extract_sections returns hold every row once and in row order.
   */
  lemma DepthFirstExtract(block: Block)
    requires DepthFirst(block)
    ensures ExtractSectionsSpec(block).Ok?
    ensures Flatten(IdTails(ExtractSectionsSpec(block).value)) == Range(0, |block|)
  {
    var idMap := IdMap(block);
    IdMapCovers(block);
    DfsScanOk(block);
    var st := Scan(block, idMap, InitSplit(block, idMap), 0).value;
    FirstPass(block, st);
    DfsFirstPass(block, st);
    var s0 := Sections(st);
    Loop2NoGaps(s0, st.ps, 0);
    var out := Loop2(s0, st.ps, {}, 0).value;
    assert IdTails(out) == IdTails(s0);
  }

  /** _extract_sections: the id map, the end points, the row loop, then the section loop. */
  method ExtractSections(block: Block) returns (r: Result<seq<DBSection>>)
    ensures r == ExtractSectionsSpec(block)
  {
    var idMap := map[ROOT_ID := ROOT_ID];
    var i := 0;
    while i < |block|
      invariant 0 <= i <= |block|
      invariant idMap == IdMapUpTo(block, i)
    {
      idMap := idMap[block[i].id := i];
      i := i + 1;
    }
    IdMapCovers(block);
    var endPts := SectionEndPoints(block, idMap);
    var st := Split([], EmptySection, endPts, map[ROOT_ID := ROOT_ID], {});
    i := 0;
    while i < |block|
      invariant 0 <= i <= |block|
      invariant GapsIn(st)
      invariant Scan(block, idMap, st, i) == Scan(block, idMap, InitSplit(block, idMap), 0)
    {
      var next := ReadRow(block, idMap, st, i);
      if next.Err? {
        return Err(next.error);
      }
      st := next.value;
      i := i + 1;
    }
    var secs := Sections(st);
    var ps, gaps := st.ps, st.gaps;
    ghost var secs0 := secs;
    var j := 0;
    while j < |secs|
      invariant 0 <= j <= |secs| && |secs| == |secs0|
      invariant GapsBelow(gaps, |secs|)
      invariant Loop2(secs, ps, gaps, j) == Loop2(secs0, ps, gaps, 0)
    {
      var linked := LinkSection(secs, ps, gaps, j);
      if linked.Err? {
        return Err(linked.error);
      }
      secs := linked.value;
      j := j + 1;
    }
    r := Ok(secs);
  }

  /** The body of the row loop of _extract_sections, for row i. */
  method ReadRow(block: Block, idMap: map<int, int>, st: Split, i: nat) returns (r: Result<Split>)
    requires i < |block| && IdsMapped(block, idMap) && GapsIn(st)
    ensures r == Step(block, idMap, st, i)
  {
    var done, cur, endPts, ps, gaps := st.done, st.cur, st.endPts, st.ps, st.gaps;
    var row := block[i];
    var rowId := idMap[row.id];
    if row.pid !in idMap {
      return Err(KeyError);
    }
    var parentId := idMap[row.pid];
    if cur.ids == [] {
      cur := DBSection([parentId], row.ptype, cur.pid);
    }
    var gap := parentId != Last(cur.ids);
    if gap {
      endPts := endPts + {rowId};
    } else {
      cur := cur.(ids := cur.ids + [rowId]);
    }
    if rowId in endPts {
      ps := ps[Last(cur.ids) := |done|];
      if gap {
        gaps := gaps + {|done|};
        done := done + [cur];
        cur := DBSection([parentId, rowId], row.ptype, -1);
      } else if rowId != |block| - 1 {
        done := done + [cur];
        cur := EmptySection;
      }
    }
    r := Ok(Split(done, cur, endPts, ps, gaps));
  }

  /** The body of the section loop of _extract_sections, for section j. */
  method LinkSection(secs: seq<DBSection>, ps: map<int, int>, gaps: set<int>, j: nat) returns (r: Result<seq<DBSection>>)
    requires j < |secs| && GapsBelow(gaps, |secs|)
    ensures r == Link(secs, ps, gaps, j)
  {
    var out := secs;
    var sec := secs[j];
    if sec.ids != [] {
      if sec.ids[0] !in ps {
        return Err(KeyError);
      }
      sec := sec.(pid := ps[sec.ids[0]]);
      out := out[j := sec];
    } else {
      assert out[j := sec] == out;
    }
    if sec.pid in gaps {
      var merged := MergeSections(out[sec.pid], sec);
      out := out[j := merged.1][sec.pid := merged.0];
    }
    r := Ok(out);
  }

  // ---------------------------------------------------------------------------------------------
  // DataWrapper queries

  /** An initial neurite section: its parent section is a soma section and it is not one itself. */
  predicate IsNeuriteRoot(secs: seq<DBSection>, k: nat)
    requires k < |secs| && secs[k].pid < |secs|
  {
    secs[k].pid > -1 && secs[secs[k].pid].ntype == SOMA && secs[k].ntype != SOMA
  }

  /** neurite_root_section_ids from section k on; a pid past the end of the list raises IndexError. */
  function RootIdsFrom(secs: seq<DBSection>, k: nat): (r: Result<seq<int>>)
    requires k <= |secs|
    ensures r.Ok? <==> forall q :: k <= q < |secs| ==> secs[q].pid < |secs|
    decreases |secs| - k
  {
    if k == |secs| then Ok([])
    else if secs[k].pid >= |secs| then Err(IndexError)
    else
      match RootIdsFrom(secs, k + 1)
      case Err(e) => Err(e)
      case Ok(rest) => Ok((if IsNeuriteRoot(secs, k) then [k] else []) + rest)
  }

  /** The ids found from k on are exactly the neurite roots there, in increasing order. */
  lemma {:induction false} RootIdsFromMembers(secs: seq<DBSection>, k: nat)
    requires k <= |secs| && RootIdsFrom(secs, k).Ok?
    ensures forall i :: i in RootIdsFrom(secs, k).value <==> k <= i < |secs| && IsNeuriteRoot(secs, i)
    ensures forall a, b :: 0 <= a < b < |RootIdsFrom(secs, k).value| ==> RootIdsFrom(secs, k).value[a] < RootIdsFrom(secs, k).value[b]
    ensures forall a :: 0 <= a < |RootIdsFrom(secs, k).value| ==> k <= RootIdsFrom(secs, k).value[a]
    decreases |secs| - k
  {
    if k < |secs| {
      RootIdsFromMembers(secs, k + 1);
    }
  }

  /** DataWrapper.neurite_root_section_ids. */
  function NeuriteRootSectionIds(secs: seq<DBSection>): Result<seq<int>>
  {
    RootIdsFrom(secs, 0)
  }

  /** DataWrapper.soma_points: the soma rows of the block, in block order. */
  function SomaPoints(block: Block): seq<Row>
  {
    Filter(block, (row: Row) => row.ptype == SOMA)
  }
}

/**
 * BlockNeuronBuilder (neurom/io/datawrapper.py): sections given as blocks of points, keyed by a
 * section id, are laid out one after the other in a data block whose rows are renumbered 0 .. n-1.
 */
module BlockBuilder {
  import opened Wrappers
  import opened Seqs
  import opened DataFormat
  import opened DataWrapper

  /** BlockNeuronBuilder.BlockSection: parent section id, POINT_TYPE and [X, Y, Z, R] points. */
  datatype BlockSection = BlockSection(parentId: int, sectionType: int, points: seq<Point>)

  // ---------------------------------------------------------------------------------------------
  // Section ids in increasing order (Python's sorted over the dictionary's keys)

  predicate Increasing(s: seq<int>)
  {
    forall a, b :: 0 <= a < b < |s| ==> s[a] < s[b]
  }

  predicate Distinct(s: seq<int>)
  {
    forall a, b :: 0 <= a < b < |s| ==> s[a] != s[b]
  }

  /** x placed in front of the first element of s that is not below it. */
  function Insert(x: int, s: seq<int>): (r: seq<int>)
    ensures multiset(r) == multiset(s) + multiset{x} && |r| == |s| + 1
    ensures r[0] == x || (s != [] && r[0] == s[0])
  {
    if s == [] || x <= s[0] then [x] + s
    else
      assert s == [s[0]] + s[1..];
      [s[0]] + Insert(x, s[1..])
  }

  /** Inserting an id that is not yet there keeps an increasing sequence increasing. */
  lemma {:induction false} InsertIncreasing(x: int, s: seq<int>)
    requires Increasing(s) && x !in s
    ensures Increasing(Insert(x, s))
  {
    if s != [] && x > s[0] {
      var t := Insert(x, s[1..]);
      InsertIncreasing(x, s[1..]);
      var r := [s[0]] + t;
      assert r == Insert(x, s);
      assert s[0] < t[0];
      forall a, b | 0 <= a < b < |r|
        ensures r[a] < r[b]
      {
        if a > 0 {
          assert r[a] == t[a - 1] && r[b] == t[b - 1];
        } else if b > 1 {
          assert r[b] == t[b - 1] && t[0] < t[b - 1];
        }
      }
    }
  }

  /** sorted(keys) for distinct keys: the same ids in increasing order. */
  function SortIds(s: seq<int>): (r: seq<int>)
    ensures multiset(r) == multiset(s) && |r| == |s|
    ensures forall x :: x in r <==> x in s
    ensures Distinct(s) ==> Increasing(r)
  {
    if s == [] then []
    else
      assert s == [s[0]] + s[1..];
      assert s[0] !in s[1..] <== Distinct(s);
      assert Distinct(s) ==> Increasing(Insert(s[0], SortIds(s[1..]))) by {
        if Distinct(s) { InsertIncreasing(s[0], SortIds(s[1..])); }
      }
      var r := Insert(s[0], SortIds(s[1..]));
      assert forall x :: x in r <==> x in multiset(r);
      r
  }

  /** The builder's dictionary: its keys in insertion order, and the sections they name. */
  predicate Keyed(secs: map<int, BlockSection>, order: seq<int>)
  {
    Distinct(order) && (forall x :: x in order ==> x in secs) && (forall x :: x in secs ==> x in order)
  }

  // ---------------------------------------------------------------------------------------------
  // The data block _make_datablock lays out

  predicate KeysIn(secs: map<int, BlockSection>, keys: seq<int>)
  {
    forall q :: 0 <= q < |keys| ==> keys[q] in secs
  }

  /** The first row of the section keys[j]: the number of points of the sections before it. */
  function Start(secs: map<int, BlockSection>, keys: seq<int>, j: nat): nat
    requires KeysIn(secs, keys) && j <= |keys|
  {
    if j == 0 then 0 else Start(secs, keys, j - 1) + |secs[keys[j - 1]].points|
  }

  lemma {:induction false} StartMono(secs: map<int, BlockSection>, keys: seq<int>, i: nat, j: nat)
    requires KeysIn(secs, keys) && i <= j <= |keys|
    ensures Start(secs, keys, i) <= Start(secs, keys, j)
    decreases j - i
  {
    if i < j {
      StartMono(secs, keys, i, j - 1);
    }
  }

  /** When the j-th start is already the row count, the sections from j on, the last among them, are empty. */
  lemma {:induction false} EmptyTail(secs: map<int, BlockSection>, keys: seq<int>, j: nat)
    requires KeysIn(secs, keys) && j < |keys| && Start(secs, keys, j) >= Start(secs, keys, |keys|)
    ensures |secs[keys[|keys| - 1]].points| == 0
  {
    StartMono(secs, keys, j, |keys| - 1);
  }

  /** id_to_insert_id after the first j sections: each section id sent to its last row. */
  function InsertIds(secs: map<int, BlockSection>, keys: seq<int>, j: nat): map<int, int>
    requires KeysIn(secs, keys) && j <= |keys|
  {
    if j == 0 then map[] else InsertIds(secs, keys, j - 1)[keys[j - 1] := Start(secs, keys, j) - 1]
  }

  lemma {:induction false} InsertIdsAt(secs: map<int, BlockSection>, keys: seq<int>, j: nat, q: nat)
    requires KeysIn(secs, keys) && Increasing(keys) && q < j <= |keys|
    ensures keys[q] in InsertIds(secs, keys, j) && InsertIds(secs, keys, j)[keys[q]] == Start(secs, keys, q + 1) - 1
  {
    if q < j - 1 {
      InsertIdsAt(secs, keys, j - 1, q);
    }
  }

  lemma {:induction false} InsertIdsKeys(secs: map<int, BlockSection>, keys: seq<int>, j: nat, x: int)
    requires KeysIn(secs, keys) && j <= |keys| && x in InsertIds(secs, keys, j)
    ensures x in keys
  {
    if x != keys[j - 1] {
      InsertIdsKeys(secs, keys, j - 1, x);
    }
  }

  /** The parent row of a section's first point: its parent section's last row, else ROOT_ID. */
  function ParentRow(ins: map<int, int>, parentId: int): int
  {
    if parentId in ins then ins[parentId] else ROOT_ID
  }

  /** The rows of a section placed at row start: TYPE is the section's, P is the previous row. */
  function SectionRows(start: nat, sec: BlockSection, parentRow: int): (r: seq<Row>)
    ensures |r| == |sec.points|
    ensures forall m :: 0 <= m < |r| ==>
      r[m].id == start + m && r[m].ptype == sec.sectionType &&
      r[m].pid == (if m == 0 then parentRow else start + m - 1) &&
      Point(r[m].x, r[m].y, r[m].z, r[m].r) == sec.points[m]
  {
    seq(|sec.points|, m requires 0 <= m < |sec.points| =>
      Row(sec.points[m].x, sec.points[m].y, sec.points[m].z, sec.points[m].r, sec.sectionType,
          start + m, if m == 0 then parentRow else start + m - 1))
  }

  function BlockRows(secs: map<int, BlockSection>, keys: seq<int>, ins: map<int, int>, j: nat): seq<Row>
    requires KeysIn(secs, keys) && j <= |keys|
  {
    if j == 0 then []
    else
      BlockRows(secs, keys, ins, j - 1) +
      SectionRows(Start(secs, keys, j - 1), secs[keys[j - 1]], ParentRow(ins, secs[keys[j - 1]].parentId))
  }

  lemma {:induction false} BlockRowsLength(secs: map<int, BlockSection>, keys: seq<int>, ins: map<int, int>, j: nat)
    requires KeysIn(secs, keys) && j <= |keys|
    ensures |BlockRows(secs, keys, ins, j)| == Start(secs, keys, j)
  {
    if j > 0 {
      BlockRowsLength(secs, keys, ins, j - 1);
    }
  }

  /** The DataBlockSection of the section keys[j]: its rows as a slice, its type and parent id. */
  function SliceSection(secs: map<int, BlockSection>, keys: seq<int>, j: nat): DBSection
    requires KeysIn(secs, keys) && j < |keys|
  {
    DBSection(Range(Start(secs, keys, j), Start(secs, keys, j + 1)), secs[keys[j]].sectionType, secs[keys[j]].parentId)
  }

  function Slices(secs: map<int, BlockSection>, keys: seq<int>, j: nat): (r: seq<DBSection>)
    requires KeysIn(secs, keys) && j <= |keys|
    ensures |r| == j
  {
    if j == 0 then [] else Slices(secs, keys, j - 1) + [SliceSection(secs, keys, j - 1)]
  }

  lemma {:induction false} SlicesAt(secs: map<int, BlockSection>, keys: seq<int>, j: nat, q: nat)
    requires KeysIn(secs, keys) && q < j <= |keys|
    ensures Slices(secs, keys, j)[q] == SliceSection(secs, keys, q)
  {
    if q < j - 1 {
      SlicesAt(secs, keys, j - 1, q);
    }
  }

  /** The ids of each section. */
  function IdsOf(ss: seq<DBSection>): (r: seq<seq<int>>)
    ensures |r| == |ss| && forall q :: 0 <= q < |ss| ==> r[q] == ss[q].ids
  {
    seq(|ss|, q requires 0 <= q < |ss| => ss[q].ids)
  }

  /**
   * _make_datablock: the rows of the sections in id order and one slice section per section.
   * Setting P at the first row of an empty last section indexes one past the end: IndexError.
   */
  function DatablockSpec(secs: map<int, BlockSection>, order: seq<int>): (r: Result<(seq<Row>, seq<DBSection>)>)
    requires Keyed(secs, order)
  {
    var keys := SortIds(order);
    var n := |keys|;
    if n > 0 && |secs[keys[n - 1]].points| == 0 then Err(IndexError)
    else
      var ins := InsertIds(secs, keys, n);
      Ok((BlockRows(secs, keys, ins, n), Slices(secs, keys, n)))
  }

  // ---------------------------------------------------------------------------------------------
  // What the layout promises

  lemma {:induction false} BlockRowsIds(secs: map<int, BlockSection>, keys: seq<int>, ins: map<int, int>, j: nat)
    requires KeysIn(secs, keys) && j <= |keys|
    ensures |BlockRows(secs, keys, ins, j)| == Start(secs, keys, j)
    ensures forall k :: 0 <= k < |BlockRows(secs, keys, ins, j)| ==> BlockRows(secs, keys, ins, j)[k].id == k
  {
    if j > 0 {
      BlockRowsIds(secs, keys, ins, j - 1);
      var pre: seq<Row> := BlockRows(secs, keys, ins, j - 1);
      var sr: seq<Row> := SectionRows(Start(secs, keys, j - 1), secs[keys[j - 1]], ParentRow(ins, secs[keys[j - 1]].parentId));
      forall k | 0 <= k < |pre + sr|
        ensures (pre + sr)[k].id == k
      {
        if k >= |pre| {
          assert (pre + sr)[k] == sr[k - |pre|];
        }
      }
    }
  }

  /** The rows of the section keys[q] sit at rows Start(q) .. Start(q + 1) - 1 of the block. */
  lemma {:induction false} BlockRowsSlice(secs: map<int, BlockSection>, keys: seq<int>, ins: map<int, int>, j: nat, q: nat)
    requires KeysIn(secs, keys) && q < j <= |keys|
    ensures Start(secs, keys, q + 1) <= Start(secs, keys, j) == |BlockRows(secs, keys, ins, j)|
    ensures BlockRows(secs, keys, ins, j)[Start(secs, keys, q)..Start(secs, keys, q + 1)] ==
      SectionRows(Start(secs, keys, q), secs[keys[q]], ParentRow(ins, secs[keys[q]].parentId))
  {
    BlockRowsIds(secs, keys, ins, j);
    BlockRowsIds(secs, keys, ins, j - 1);
    StartMono(secs, keys, q + 1, j);
    if q < j - 1 {
      BlockRowsSlice(secs, keys, ins, j - 1, q);
      StartMono(secs, keys, q + 1, j - 1);
      var pre := BlockRows(secs, keys, ins, j - 1);
      assert BlockRows(secs, keys, ins, j)[..|pre|] == pre;
    }
  }

  /** The row its parent section's last row has, or ROOT_ID when the parent id names no section. */
  function ParentRowOf(secs: map<int, BlockSection>, keys: seq<int>, p: int): int
    requires KeysIn(secs, keys)
  {
    if p in keys then Start(secs, keys, Index(keys, p) + 1) - 1 else ROOT_ID
  }

  lemma InsertIdsParent(secs: map<int, BlockSection>, keys: seq<int>, p: int)
    requires KeysIn(secs, keys) && Increasing(keys)
    ensures ParentRow(InsertIds(secs, keys, |keys|), p) == ParentRowOf(secs, keys, p)
  {
    var ins := InsertIds(secs, keys, |keys|);
    if p in keys {
      InsertIdsAt(secs, keys, |keys|, Index(keys, p));
    } else if p in ins {
      InsertIdsKeys(secs, keys, |keys|, p);
    }
  }

  /** The points of the section keys[j] fill rows Start(j) .. Start(j + 1) - 1. */
  predicate SectionPlaced(secs: map<int, BlockSection>, keys: seq<int>, rows: seq<Row>, j: nat)
    requires KeysIn(secs, keys) && j < |keys|
  {
    Start(secs, keys, j + 1) <= |rows| &&
    rows[Start(secs, keys, j)..Start(secs, keys, j + 1)] ==
      SectionRows(Start(secs, keys, j), secs[keys[j]], ParentRowOf(secs, keys, secs[keys[j]].parentId))
  }

  /**
   * The rows are numbered 0 .. n-1, and the points of the j-th section in id order occupy rows
   * Start(j) .. Start(j + 1) - 1 with the section's type; in SectionRows each row's parent is the
   * row before it, except the section's first row, whose parent is ParentRowOf its parent id.
   */
  lemma DatablockNumbering(secs: map<int, BlockSection>, order: seq<int>, rows: seq<Row>, slices: seq<DBSection>)
    requires Keyed(secs, order) && DatablockSpec(secs, order) == Ok((rows, slices))
    ensures forall k :: 0 <= k < |rows| ==> rows[k].id == k
    ensures var keys := SortIds(order);
      |rows| == Start(secs, keys, |keys|) &&
      forall j :: 0 <= j < |keys| ==> SectionPlaced(secs, keys, rows, j)
  {
    var keys := SortIds(order);
    var n := |keys|;
    var ins := InsertIds(secs, keys, n);
    BlockRowsIds(secs, keys, ins, n);
    forall j | 0 <= j < n
      ensures SectionPlaced(secs, keys, rows, j)
    {
      BlockRowsSlice(secs, keys, ins, n, j);
      InsertIdsParent(secs, keys, secs[keys[j]].parentId);
    }
  }

  /** The position of x in s. */
  function Index(s: seq<int>, x: int): (i: nat)
    requires x in s
    ensures i < |s| && s[i] == x
  {
    if s[0] == x then 0 else 1 + Index(s[1..], x)
  }

  lemma IndexOf(s: seq<int>, x: int)
    requires x in s
    ensures Index(s, x) < |s| && s[Index(s, x)] == x
  {
  }

  /** The slices cover the rows in order: together their ids are 0 .. n-1. */
  lemma DatablockSlices(secs: map<int, BlockSection>, order: seq<int>, rows: seq<Row>, slices: seq<DBSection>)
    requires Keyed(secs, order) && DatablockSpec(secs, order) == Ok((rows, slices))
    ensures Flatten(IdsOf(slices)) == Range(0, |rows|)
  {
    var keys := SortIds(order);
    var ins := InsertIds(secs, keys, |keys|);
    assert rows == BlockRows(secs, keys, ins, |keys|) && slices == Slices(secs, keys, |keys|);
    BlockRowsLength(secs, keys, ins, |keys|);
    SlicesCover(secs, keys, slices);
  }

  lemma SlicesCover(secs: map<int, BlockSection>, keys: seq<int>, slices: seq<DBSection>)
    requires KeysIn(secs, keys) && slices == Slices(secs, keys, |keys|)
    ensures Flatten(IdsOf(slices)) == Range(0, Start(secs, keys, |keys|))
  {
    var n := |keys|;
    var ids := IdsOf(slices);
    forall q | 0 <= q < n
      ensures ids[q] == Range(Start(secs, keys, q), Start(secs, keys, q + 1))
    {
      SlicesAt(secs, keys, n, q);
    }
    SlicesPrefix(secs, keys, ids, n);
    assert ids[..n] == ids;
  }

  lemma {:induction false} SlicesPrefix(secs: map<int, BlockSection>, keys: seq<int>, ids: seq<seq<int>>, j: nat)
    requires KeysIn(secs, keys) && j <= |keys| == |ids|
    requires forall q :: 0 <= q < |ids| ==> ids[q] == Range(Start(secs, keys, q), Start(secs, keys, q + 1))
    ensures Flatten(ids[..j]) == Range(0, Start(secs, keys, j))
  {
    if j > 0 {
      SlicesPrefix(secs, keys, ids, j - 1);
      FlattenSnoc(ids, j - 1);
      RangeConcat(0, Start(secs, keys, j - 1), Start(secs, keys, j));
    }
    if j == |ids| {
      assert ids[..j] == ids;
    }
  }

  lemma {:induction false} RangeConcat(lo: int, mid: int, hi: int)
    requires lo <= mid <= hi
    ensures Range(lo, mid) + Range(mid, hi) == Range(lo, hi)
  {
    assert |Range(lo, mid) + Range(mid, hi)| == hi - lo;
    forall k | 0 <= k < hi - lo
      ensures (Range(lo, mid) + Range(mid, hi))[k] == lo + k
    {
      if k >= mid - lo {
        assert (Range(lo, mid) + Range(mid, hi))[k] == Range(mid, hi)[k - (mid - lo)];
      }
    }
  }

  /** The largest element of s. */
  function MaxId(s: seq<int>): (m: int)
    requires s != []
    ensures m in s && forall x :: x in s ==> x <= m
  {
    if |s| == 1 then s[0]
    else
      var m := MaxId(s[1..]);
      assert s == [s[0]] + s[1..];
      if s[0] > m then s[0] else m
  }

  /** The layout fails, with IndexError, exactly when the section with the largest id has no points. */
  lemma DatablockError(secs: map<int, BlockSection>, order: seq<int>)
    requires Keyed(secs, order)
    ensures DatablockSpec(secs, order).Err? <==> order != [] && secs[MaxId(order)].points == []
    ensures DatablockSpec(secs, order).Err? ==> DatablockSpec(secs, order).error == IndexError
  {
    var keys := SortIds(order);
    var n := |keys|;
    if n > 0 {
      var top := keys[n - 1];
      assert top in order;
      var m := MaxId(order);
      assert m in keys;
      var i :| 0 <= i < n && keys[i] == m;
    }
  }

  // ---------------------------------------------------------------------------------------------
  // Filling the block one section at a time

  /** A row of np.empty after the ID column is set to 0 .. n-1 and P to ID - 1. */
  function InitRow(k: nat): Row
  {
    Row(0.0, 0.0, 0.0, 0.0, UNDEFINED, k, k - 1)
  }

  /** A row after its X, Y, Z, R and TYPE columns are written. */
  function Painted(row: Row, p: Point, t: int): Row
  {
    row.(x := p.x, y := p.y, z := p.z, r := p.r, ptype := t)
  }

  /** One iteration of the section loop on the block's rows: the section's rows follow the prefix. */
  lemma FillStep(before: seq<Row>, after: seq<Row>, pre: seq<Row>, start: nat, sec: BlockSection, pr: int)
    requires |after| == |before| && start < |before| && start + |sec.points| <= |before|
    requires before[..start] == pre
    requires forall k :: start < k < |before| ==> before[k] == InitRow(k)
    requires before[start].id == start
    requires forall k :: 0 <= k < |before| && k != start && !(start <= k < start + |sec.points|) ==> after[k] == before[k]
    requires forall k :: start < k < start + |sec.points| ==> after[k] == Painted(before[k], sec.points[k - start], sec.sectionType)
    requires after[start] ==
      (if sec.points == [] then before[start] else Painted(before[start], sec.points[0], sec.sectionType)).(pid := pr)
    ensures after[..start + |sec.points|] == pre + SectionRows(start, sec, pr)
    ensures forall k :: start + |sec.points| < k < |after| ==> after[k] == InitRow(k)
    ensures start + |sec.points| < |after| ==> after[start + |sec.points|].id == start + |sec.points|
  {
    var stop := start + |sec.points|;
    var sr := SectionRows(start, sec, pr);
    forall k | 0 <= k < stop
      ensures after[k] == (pre + sr)[k]
    {
      if k >= start {
        assert (pre + sr)[k] == sr[k - start];
      }
    }
  }

  /** The first loop of _make_datablock: the row count and id_to_insert_id. */
  method InsertionIds(secs: map<int, BlockSection>, keys: seq<int>) returns (rowCount: nat, ins: map<int, int>)
    requires KeysIn(secs, keys)
    ensures rowCount == Start(secs, keys, |keys|) && ins == InsertIds(secs, keys, |keys|)
  {
    ins := map[];
    rowCount := 0;
    var j := 0;
    while j < |keys|
      invariant j <= |keys| && rowCount == Start(secs, keys, j) && ins == InsertIds(secs, keys, j)
    {
      rowCount := rowCount + |secs[keys[j]].points|;
      ins := ins[keys[j] := rowCount - 1];
      j := j + 1;
    }
  }

  /** One step of the second loop: the section's points, its type and the parent of its first row. */
  method PaintSection(block: array<Row>, insert: nat, sec: BlockSection, pr: int)
    requires insert < block.Length && insert + |sec.points| <= block.Length
    requires forall k :: insert < k < block.Length ==> block[k] == InitRow(k)
    requires block[insert].id == insert
    modifies block
    ensures block[..insert + |sec.points|] == old(block[..insert]) + SectionRows(insert, sec, pr)
    ensures forall k :: insert + |sec.points| < k < block.Length ==> block[k] == InitRow(k)
    ensures insert + |sec.points| < block.Length ==> block[insert + |sec.points|].id == insert + |sec.points|
  {
    ghost var before := block[..];
    forall k | insert <= k < insert + |sec.points| {
      block[k] := Painted(block[k], sec.points[k - insert], sec.sectionType);
    }
    block[insert] := block[insert].(pid := pr);
    FillStep(before, block[..], before[..insert], insert, sec, pr);
  }

  /** One turn of that loop: the j-th section in key order is painted after the rows of the first j. */
  method PaintNext(block: array<Row>, secs: map<int, BlockSection>, keys: seq<int>, ins: map<int, int>, j: nat,
                   insert: nat, slices: seq<DBSection>) returns (stop: nat, slices': seq<DBSection>)
    requires KeysIn(secs, keys) && j < |keys| && block.Length == Start(secs, keys, |keys|)
    requires insert == Start(secs, keys, j) && insert < block.Length
    requires block[..insert] == BlockRows(secs, keys, ins, j)
    requires forall k :: insert < k < block.Length ==> block[k] == InitRow(k)
    requires block[insert].id == insert
    requires slices == Slices(secs, keys, j)
    modifies block
    ensures stop == Start(secs, keys, j + 1) && stop <= block.Length
    ensures block[..stop] == BlockRows(secs, keys, ins, j + 1)
    ensures forall k :: stop < k < block.Length ==> block[k] == InitRow(k)
    ensures stop < block.Length ==> block[stop].id == stop
    ensures slices' == Slices(secs, keys, j + 1)
  {
    StartMono(secs, keys, j + 1, |keys|);
    var sec := secs[keys[j]];
    stop := insert + |sec.points|;
    PaintSection(block, insert, sec, ParentRow(ins, sec.parentId));
    assert block[..stop] == BlockRows(secs, keys, ins, j + 1);
    slices' := slices + [DBSection(Range(insert, stop), sec.sectionType, sec.parentId)];
  }

  /**
   * The second loop of _make_datablock: the block, allocated with the ID column set to
   * 0 .. n-1 and P to ID - 1, is painted section by section in key order.
   */
  method FillBlock(secs: map<int, BlockSection>, keys: seq<int>, ins: map<int, int>, rowCount: nat)
    returns (r: Result<(seq<Row>, seq<DBSection>)>)
    requires KeysIn(secs, keys) && rowCount == Start(secs, keys, |keys|)
    ensures r == if |keys| > 0 && |secs[keys[|keys| - 1]].points| == 0 then Err(IndexError)
                 else Ok((BlockRows(secs, keys, ins, |keys|), Slices(secs, keys, |keys|)))
  {
    var n := |keys|;
    var block := new Row[rowCount](InitRow);
    var slices: seq<DBSection> := [];
    var insert := 0;
    var j := 0;
    while j < n
      invariant j <= n && insert == Start(secs, keys, j) && insert <= rowCount
      invariant block[..insert] == BlockRows(secs, keys, ins, j)
      invariant forall k :: insert < k < rowCount ==> block[k] == InitRow(k)
      invariant insert < rowCount ==> block[insert].id == insert
      invariant slices == Slices(secs, keys, j)
      invariant j > 0 ==> Start(secs, keys, j - 1) < rowCount
    {
      if insert >= rowCount {
        EmptyTail(secs, keys, j);
        return Err(IndexError);
      }
      insert, slices := PaintNext(block, secs, keys, ins, j, insert, slices);
      j := j + 1;
    }
    assert insert == rowCount && block[..] == block[..insert];
    return Ok((block[..], slices));
  }

  // ---------------------------------------------------------------------------------------------
  // The builder

  class BlockNeuronBuilder {
    /** self.sections, and the order in which its keys were inserted. */
    var sections: map<int, BlockSection>
    var order: seq<int>

    predicate Valid()
      reads this
    {
      Keyed(sections, order)
    }

    constructor ()
      ensures Valid() && sections == map[] && order == []
    {
      sections := map[];
      order := [];
    }

    /** add_section: an id already in use fails the assertion and leaves the builder as it was. */
    method AddSection(id: int, parentId: int, sectionType: int, points: seq<Point>) returns (r: Result<()>)
      requires Valid()
      modifies this
      ensures Valid()
      ensures id in old(sections) ==> r == Err(AssertionError) && sections == old(sections) && order == old(order)
      ensures id !in old(sections) ==>
        r == Ok(()) && sections == old(sections)[id := BlockSection(parentId, sectionType, points)] &&
        order == old(order) + [id]
    {
      if id in sections {
        return Err(AssertionError);
      }
      sections := sections[id := BlockSection(parentId, sectionType, points)];
      order := order + [id];
      return Ok(());
    }

    /** _make_datablock, filling the block in place section by section. */
    method MakeDatablock() returns (r: Result<(seq<Row>, seq<DBSection>)>)
      requires Valid()
      ensures r == DatablockSpec(sections, order)
    {
      var secs := sections;
      var keys := SortIds(order);
      assert KeysIn(secs, keys);
      var rowCount, ins := InsertionIds(secs, keys);
      r := FillBlock(secs, keys, ins, rowCount);
    }

    /** get_datawrapper: the data block and its sections (the consistency check only logs). */
    method GetDatawrapper() returns (r: Result<(seq<Row>, seq<DBSection>)>)
      requires Valid()
      ensures r == DatablockSpec(sections, order)
    {
      r := MakeDatablock();
    }
  }
}

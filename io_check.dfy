/**
 * The consistency checks of neurom/io/check.py over a raw data block: each returns a status
 * and the offending ids, and the status is true exactly when nothing was reported.
 */
module IoCheck {
  import opened Wrappers
  import opened Seqs
  import opened DataFormat
  import opened Readers

  /** POINT_TYPE.NEURITES: the TYPE codes of neurite points. */
  predicate IsNeuriteCode(t: int)
  {
    t == AXON || t == BASAL_DENDRITE || t == APICAL_DENDRITE
  }

  // ---------------------------------------------------------------------------------------------
  // has_sequential_ids

  /** The ids that do not follow their predecessor by exactly one, in order. */
  function Steps(ids: seq<int>): (r: seq<int>)
    ensures forall j :: j in r <==> exists k :: 1 <= k < |ids| && ids[k] == j && ids[k] - ids[k - 1] != 1
  {
    if |ids| < 2 then []
    else
      var rest := Steps(ids[1..]);
      assert forall k :: 1 <= k < |ids[1..]| ==> ids[1..][k] == ids[k + 1] && ids[1..][k - 1] == ids[k];
      (if ids[1] - ids[0] != 1 then [ids[1]] else []) + rest
  }

  /** has_sequential_ids: the status is true exactly when no id breaks the sequence. */
  function HasSequentialIds(raw: RawDataWrapper): (r: (bool, seq<int>))
    ensures r.0 <==> r.1 == []
    ensures r.1 == Steps(seq(|raw.block|, k requires 0 <= k < |raw.block| => raw.block[k].id))
  {
    var steps := Steps(seq(|raw.block|, k requires 0 <= k < |raw.block| => raw.block[k].id));
    (|steps| == 0, steps)
  }

  /** Without a reported step, every id is the first id plus its row position. */
  lemma {:induction false} NoStepsSequential(ids: seq<int>)
    requires Steps(ids) == []
    ensures forall k :: 0 <= k < |ids| ==> ids[k] == ids[0] + k
  {
    if |ids| >= 2 {
      assert Steps(ids[1..]) == [] && ids[1] - ids[0] == 1;
      NoStepsSequential(ids[1..]);
      forall k | 1 <= k < |ids|
        ensures ids[k] == ids[0] + k
      {
        assert ids[k] == ids[1..][k - 1];
      }
    }
  }

  /** has_sequential_ids is true exactly when the ids count up by one from the first row's id. */
  lemma SequentialIdsIff(raw: RawDataWrapper)
    requires |raw.block| > 0
    ensures HasSequentialIds(raw).0 <==> SequentialFrom(raw.block, raw.block[0].id)
  {
    var ids := seq(|raw.block|, k requires 0 <= k < |raw.block| => raw.block[k].id);
    assert forall k :: 0 <= k < |raw.block| ==> ids[k] == raw.block[k].id;
    if HasSequentialIds(raw).0 {
      NoStepsSequential(ids);
    } else {
      var j := Steps(ids)[0];
      assert j in Steps(ids);
      var k :| 1 <= k < |ids| && ids[k] == j && ids[k] - ids[k - 1] != 1;
      assert !(raw.block[k].id == raw.block[0].id + k && raw.block[k - 1].id == raw.block[0].id + (k - 1));
    }
  }

  // ---------------------------------------------------------------------------------------------
  // has_soma_points and has_all_finite_radius_neurites

  /** has_soma_points: true iff some TYPE entry is SOMA. */
  function HasSomaPoints(raw: RawDataWrapper): (r: bool)
    ensures r <==> exists k :: 0 <= k < |raw.block| && raw.block[k].ptype == SOMA
  {
    exists k :: 0 <= k < |raw.block| && raw.block[k].ptype == SOMA
  }

  function ZeroRadiusIds(rows: seq<Row>): (r: seq<int>)
    ensures forall j :: j in r <==> exists k :: 0 <= k < |rows| && rows[k].id == j && IsNeuriteCode(rows[k].ptype) && rows[k].r == 0.0
  {
    if rows == [] then []
    else
      assert forall k :: 1 <= k < |rows| ==> rows[k] == rows[1..][k - 1];
      (if IsNeuriteCode(rows[0].ptype) && rows[0].r == 0.0 then [rows[0].id] else []) + ZeroRadiusIds(rows[1..])
  }

  /**
   * has_all_finite_radius_neurites: through iter_row, so LookupError on an empty block;
   * otherwise the ids of the neurite rows whose radius is exactly zero.
   */
  function HasAllFiniteRadiusNeurites(raw: RawDataWrapper): (r: Result<(bool, seq<int>)>)
    ensures r.Err? <==> |raw.block| == 0
    ensures r.Err? ==> r.error == LookupError
    ensures r.Ok? ==> (r.value.0 <==> r.value.1 == [])
    ensures r.Ok? ==> forall j :: j in r.value.1 <==>
      exists k :: 0 <= k < |raw.block| && raw.block[k].id == j && IsNeuriteCode(raw.block[k].ptype) && raw.block[k].r == 0.0
  {
    match raw.IterRow(None, None)
    case Err(e) => Err(e)
    case Ok(rows) =>
      assert rows == raw.block;
      var bad := ZeroRadiusIds(rows);
      Ok((|bad| == 0, bad))
  }

  // ---------------------------------------------------------------------------------------------
  // has_all_finite_length_segments

  /** A segment is zero-length when both ends are neurite points with the same X, Y and Z. */
  predicate ZeroLengthNeurite(prow: Row, row: Row)
  {
    IsNeuriteCode(prow.ptype) && IsNeuriteCode(row.ptype) &&
    row.x == prow.x && row.y == prow.y && row.z == prow.z
  }

  /**
   * The check on one row: nothing for a root row; TypeError when get_row finds no parent row
   * (an id below the offset) and IndexError past the end; the (pid, id) pair when the segment
   * to the parent is zero-length.
   */
  function SegmentCheck(raw: RawDataWrapper, row: Row): (r: Result<seq<(int, int)>>)
    ensures row.pid == ROOT_ID ==> r == Ok([])
    ensures row.pid != ROOT_ID && row.pid - raw.offset <= ROOT_ID ==> r == Err(TypeError)
    ensures row.pid != ROOT_ID && row.pid - raw.offset >= |raw.block| ==> r == Err(IndexError)
    ensures r.Ok? && r.value != [] ==>
      r.value == [(row.pid, row.id)] && ZeroLengthNeurite(raw.block[row.pid - raw.offset], row)
  {
    if row.pid == ROOT_ID then Ok([])
    else match raw.GetRow(row.pid)
      case Err(e) => Err(e)
      case Ok(None) => Err(TypeError)
      case Ok(Some(prow)) => if ZeroLengthNeurite(prow, row) then Ok([(row.pid, row.id)]) else Ok([])
  }

  /** The bad segments among the first k rows, or the first error they raise. */
  function BadSegmentsUpTo(raw: RawDataWrapper, rows: seq<Row>, k: nat): Result<seq<(int, int)>>
    requires k <= |rows|
  {
    if k == 0 then Ok([])
    else match BadSegmentsUpTo(raw, rows, k - 1)
      case Err(e) => Err(e)
      case Ok(acc) =>
        match SegmentCheck(raw, rows[k - 1])
        case Err(e) => Err(e)
        case Ok(more) => Ok(acc + more)
  }

  /**
   * Reported pairs are exactly the zero-length neurite segments, in row order; a row with a
   * parent row that exists is never skipped.
   */
  lemma {:induction false} BadSegmentsMembers(raw: RawDataWrapper, rows: seq<Row>, k: nat)
    requires k <= |rows| && BadSegmentsUpTo(raw, rows, k).Ok?
    ensures forall i :: 0 <= i < k && rows[i].pid != ROOT_ID ==> 0 <= rows[i].pid - raw.offset < |raw.block|
    ensures forall s :: s in BadSegmentsUpTo(raw, rows, k).value <==>
      exists i :: 0 <= i < k && rows[i].pid != ROOT_ID && s == (rows[i].pid, rows[i].id) &&
        ZeroLengthNeurite(raw.block[rows[i].pid - raw.offset], rows[i])
  {
    if k > 0 {
      BadSegmentsMembers(raw, rows, k - 1);
      var row := rows[k - 1];
      if row.pid != ROOT_ID {
        assert raw.GetRow(row.pid).Ok? && raw.GetRow(row.pid).value.Some?;
      }
    }
  }

  /** Once a prefix of the rows raises, the whole pass raises the same error. */
  lemma {:induction false} BadSegmentsErrPersists(raw: RawDataWrapper, rows: seq<Row>, k: nat, n: nat)
    requires k <= n <= |rows| && BadSegmentsUpTo(raw, rows, k).Err?
    ensures BadSegmentsUpTo(raw, rows, n) == BadSegmentsUpTo(raw, rows, k)
    decreases n - k
  {
    if k < n {
      BadSegmentsErrPersists(raw, rows, k + 1, n);
    }
  }

  /** The body of the loop for one row: get_row of the parent, then the zero-length test. */
  method CheckRow(raw: RawDataWrapper, row: Row) returns (more: Result<seq<(int, int)>>)
    ensures more == SegmentCheck(raw, row)
  {
    if row.pid == ROOT_ID {
      return Ok([]);
    }
    var prow := raw.GetRow(row.pid);
    if prow.Err? {
      return Err(prow.error);
    }
    if prow.value.None? {
      return Err(TypeError);
    }
    if ZeroLengthNeurite(prow.value.value, row) {
      return Ok([(row.pid, row.id)]);
    }
    return Ok([]);
  }

  /**
   * has_all_finite_length_segments: LookupError on an empty block; otherwise the pairs of
   * BadSegmentsUpTo over every row, with the status true exactly when there are none.
   */
  method HasAllFiniteLengthSegments(raw: RawDataWrapper) returns (r: Result<(bool, seq<(int, int)>)>)
    ensures |raw.block| == 0 ==> r == Err(LookupError)
    ensures |raw.block| > 0 ==> (r.Err? <==> BadSegmentsUpTo(raw, raw.block, |raw.block|).Err?)
    ensures r.Err? && |raw.block| > 0 ==> r.error == BadSegmentsUpTo(raw, raw.block, |raw.block|).error
    ensures r.Ok? ==> r.value.1 == BadSegmentsUpTo(raw, raw.block, |raw.block|).value
    ensures r.Ok? ==> (r.value.0 <==> r.value.1 == [])
  {
    raw.IterRowAll();
    var it := raw.IterRow(None, None);
    if it.Err? {
      return Err(it.error);
    }
    assert it.value == raw.block;
    var bad := ScanRows(raw, raw.block);
    if bad.Err? {
      return Err(bad.error);
    }
    r := Ok((|bad.value| == 0, bad.value));
  }

  /** The loop of has_all_finite_length_segments: check each row in turn, stopping at the first error. */
  method ScanRows(raw: RawDataWrapper, rows: seq<Row>) returns (r: Result<seq<(int, int)>>)
    ensures r == BadSegmentsUpTo(raw, rows, |rows|)
  {
    ghost var target := BadSegmentsUpTo(raw, rows, |rows|);
    var bad: seq<(int, int)> := [];
    var k := 0;
    while k < |rows|
      invariant 0 <= k <= |rows|
      invariant BadSegmentsUpTo(raw, rows, k) == Ok(bad)
    {
      var more := CheckRow(raw, rows[k]);
      assert BadSegmentsUpTo(raw, rows, k + 1) == if more.Err? then Err(more.error) else Ok(bad + more.value);
      if more.Err? {
        BadSegmentsErrPersists(raw, rows, k + 1, |rows|);
        assert target == Err(more.error);
        return Err(more.error);
      }
      bad := bad + more.value;
      k := k + 1;
    }
    return Ok(bad);
  }
}

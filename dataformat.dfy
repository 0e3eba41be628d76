/**
 * The point table shared by the readers: one row per sample point with the columns
 * X, Y, Z, R, TYPE, ID and P (parent id), and the integer codes of the TYPE column.
 */
module DataFormat {
  /** Codes of the TYPE column (POINT_TYPE). */
  const UNDEFINED: int := 0
  const SOMA: int := 1
  const AXON: int := 2
  const BASAL_DENDRITE: int := 3
  const APICAL_DENDRITE: int := 4

  /** The parent id of a point that has no parent. */
  const ROOT_ID: int := -1

  /** The X, Y, Z and R columns of one sample point. */
  datatype Point = Point(x: real, y: real, z: real, r: real)

  /** One row of a data block; ptype, id and pid are the integer columns TYPE, ID and P. */
  datatype Row = Row(x: real, y: real, z: real, r: real, ptype: int, id: int, pid: int)

  type Block = seq<Row>

  /** The documented shape of a block: ids are unique and none of them is ROOT_ID. */
  predicate UniqueIds(block: Block)
  {
    (forall i, j :: 0 <= i < j < |block| ==> block[i].id != block[j].id) &&
    (forall i :: 0 <= i < |block| ==> block[i].id != ROOT_ID)
  }

  /** The integers lo, lo + 1, ..., hi - 1. */
  function Range(lo: int, hi: int): (r: seq<int>)
    decreases hi - lo
    ensures |r| == if lo <= hi then hi - lo else 0
    ensures forall k :: 0 <= k < |r| ==> r[k] == lo + k
  {
    if lo >= hi then [] else [lo] + Range(lo + 1, hi)
  }
}

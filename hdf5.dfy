/**
 * The HDF5 reader of neurom/io/hdf5.py, past the file access: the version test over the paths
 * a file holds, the removal of duplicated section start points, and the cut of the point list
 * into one section per structure group, handed to a BlockNeuronBuilder.
 */
module Hdf5 {
  import opened Wrappers
  import opened Seqs
  import opened DataFormat
  import opened DataWrapper
  import opened BlockBuilder

  /**
   * get_version: 'H5V1' when both 'points' and 'structure' exist, else 'H5V2' when
   * 'neuron1/structure' exists, else none.
   */
  function GetVersion(paths: set<string>): (r: Option<string>)
    ensures r == Some("H5V1") <==> "points" in paths && "structure" in paths
    ensures r == Some("H5V2") <==> !("points" in paths && "structure" in paths) && "neuron1/structure" in paths
    ensures r.None? <==> !("points" in paths && "structure" in paths) && "neuron1/structure" !in paths
  {
    if "points" in paths && "structure" in paths then Some("H5V1")
    else if "neuron1/structure" in paths then Some("H5V2")
    else None
  }

  /** One row of the structure table: the group's first point, its type and its parent group. */
  datatype Group = Group(first: int, gtype: int, parent: int)

  // ---------------------------------------------------------------------------------------------
  // _remove_duplicate_points

  /**
   * Whether group g starts with a duplicate of its parent's last point: it is not a root, not
   * a soma (type 1) and not the child of a soma; reading the parent row raises IndexError.
   */
  function RemovesFirst(groups: seq<Group>, g: nat): (r: Result<bool>)
    requires g < |groups|
    ensures r.Err? ==> r.error == IndexError
    ensures r.Err? <==> groups[g].parent != -1 && groups[g].gtype != 1 && PyIndex(groups[g].parent, |groups|).None?
    ensures r.Ok? ==>
      (r.value <==> groups[g].parent != -1 && groups[g].gtype != 1 && groups[PyIndex(groups[g].parent, |groups|).value].gtype != 1)
  {
    var g0 := groups[g];
    if g0.parent == -1 || g0.gtype == 1 then Ok(false)
    else match PyIndex(g0.parent, |groups|)
      case None => Err(IndexError)
      case Some(q) => Ok(groups[q].gtype != 1)
  }

  /** Every group's test can be evaluated. */
  predicate ParentsReadable(groups: seq<Group>)
  {
    forall g :: 0 <= g < |groups| ==> RemovesFirst(groups, g).Ok?
  }

  /** The number of groups before j whose first point is removed. */
  function RemovedBefore(groups: seq<Group>, j: nat): nat
    requires j <= |groups| && ParentsReadable(groups)
  {
    if j == 0 then 0 else RemovedBefore(groups, j - 1) + (if RemovesFirst(groups, j - 1).value then 1 else 0)
  }

  /** to_be_removed after the first k groups: the first points of the removing groups, in group order. */
  function ToBeRemoved(groups: seq<Group>, k: nat): (r: seq<int>)
    requires k <= |groups| && ParentsReadable(groups)
    ensures |r| == RemovedBefore(groups, k)
  {
    if k == 0 then [] else ToBeRemoved(groups, k - 1) + (if RemovesFirst(groups, k - 1).value then [groups[k - 1].first] else [])
  }

  /** np.delete along the first axis: IndexError for a position out of range, else the rows at no listed position. */
  function DeleteRows<P>(points: seq<P>, del: seq<int>): (r: Result<seq<P>>)
    ensures r.Err? <==> exists d :: d in del && PyIndex(d, |points|).None?
    ensures r.Err? ==> r.error == IndexError
    ensures r.Ok? ==> r.value == KeepFrom(points, del, 0)
  {
    if exists d :: d in del && PyIndex(d, |points|).None? then Err(IndexError)
    else Ok(KeepFrom(points, del, 0))
  }

  /** Position k is listed in del, directly or as a negative position from the end. */
  predicate Listed(del: seq<int>, n: nat, k: nat)
  {
    exists d :: d in del && PyIndex(d, n) == Some(k)
  }

  /** The points from position k on whose position is not listed. */
  function KeepFrom<P>(points: seq<P>, del: seq<int>, k: nat): seq<P>
    requires k <= |points|
    decreases |points| - k
  {
    if k == |points| then []
    else (if Listed(del, |points|, k) then [] else [points[k]]) + KeepFrom(points, del, k + 1)
  }

  /** The groups with their first-point index lowered by the removals before them. */
  function ReducedGroups(groups: seq<Group>): (r: seq<Group>)
    requires ParentsReadable(groups)
    ensures |r| == |groups|
    ensures forall g :: 0 <= g < |groups| ==>
      r[g] == groups[g].(first := groups[g].first - RemovedBefore(groups, g))
  {
    seq(|groups|, g requires 0 <= g < |groups| && ParentsReadable(groups) =>
      groups[g].(first := groups[g].first - RemovedBefore(groups, g)))
  }

  /**
   * _remove_duplicate_points: IndexError when a parent group or a removed position does not
   * exist; otherwise the points without the removed first points, and each group's
   * first index lowered by the number of removals among the groups before it.
   */
  function RemoveDuplicatePointsSpec<P>(points: seq<P>, groups: seq<Group>): (r: Result<(seq<P>, seq<Group>)>)
    ensures r.Err? ==> r.error == IndexError
    ensures r.Ok? ==> ParentsReadable(groups) && |r.value.1| == |groups|
    ensures r.Ok? ==> forall g :: 0 <= g < |groups| ==>
      r.value.1[g].first == groups[g].first - RemovedBefore(groups, g) &&
      r.value.1[g].gtype == groups[g].gtype && r.value.1[g].parent == groups[g].parent
    ensures r.Ok? ==> r.value.0 == KeepFrom(points, ToBeRemoved(groups, |groups|), 0)
  {
    if !ParentsReadable(groups) then Err(IndexError)
    else match DeleteRows(points, ToBeRemoved(groups, |groups|))
      case Err(e) => Err(e)
      case Ok(kept) => Ok((kept, ReducedGroups(groups)))
  }

  /**
   * The loop of _remove_duplicate_points: the removal list grows in group order and
   * `to_be_reduced[ig + 1:] += 1` runs on an array of counters.
   */
  method RemoveDuplicatePoints<P>(points: seq<P>, groups: seq<Group>) returns (r: Result<(seq<P>, seq<Group>)>)
    ensures r == RemoveDuplicatePointsSpec(points, groups)
  {
    var ok, toBeRemoved, toBeReduced := ScanGroups(groups);
    if !ok {
      return Err(IndexError);
    }
    var newGroups := seq(|groups|, g requires 0 <= g < |groups| == |toBeReduced| =>
      groups[g].(first := groups[g].first - toBeReduced[g]));
    assert |newGroups| == |ReducedGroups(groups)|;
    assert forall g :: 0 <= g < |groups| ==> newGroups[g] == ReducedGroups(groups)[g];
    assert newGroups == ReducedGroups(groups);
    var kept := DeleteRows(points, toBeRemoved);
    if kept.Err? {
      return Err(IndexError);
    }
    r := Ok((kept.value, newGroups));
  }

  /** The loop over the groups, with to_be_reduced as an array of counters. */
  method ScanGroups(groups: seq<Group>) returns (ok: bool, toBeRemoved: seq<int>, reduced: seq<int>)
    ensures ok <==> ParentsReadable(groups)
    ensures ok ==> toBeRemoved == ToBeRemoved(groups, |groups|)
    ensures ok ==> |reduced| == |groups| && forall j :: 0 <= j < |groups| ==> reduced[j] == RemovedBefore(groups, j)
  {
    var n := |groups|;
    var toBeReduced := new int[n](_ => 0);
    toBeRemoved := [];
    var ig := 0;
    while ig < n
      invariant 0 <= ig <= n && toBeReduced.Length == n
      invariant ParentsReadablePrefix(groups, ig)
      invariant toBeRemoved == ToBeRemovedPrefix(groups, ig)
      invariant forall j :: 0 <= j < n ==> toBeReduced[j] == RemovedBeforePrefix(groups, ig, j)
    {
      var test := RemovesFirst(groups, ig);
      if test.Err? {
        return false, [], [];
      }
      if test.value {
        toBeRemoved := toBeRemoved + [groups[ig].first];
        AddFrom(toBeReduced, ig + 1);
      }
      ig := ig + 1;
    }
    PrefixComplete(groups);
    return true, toBeRemoved, toBeReduced[..];
  }

  /** to_be_reduced[from:] += 1. */
  method AddFrom(a: array<int>, from: nat)
    modifies a
    ensures forall j :: 0 <= j < a.Length ==> a[j] == old(a[j]) + (if j >= from then 1 else 0)
  {
    var j := from;
    while j < a.Length
      invariant from <= j
      invariant forall i :: 0 <= i < a.Length ==> a[i] == old(a[i]) + (if from <= i < j then 1 else 0)
    {
      a[j] := a[j] + 1;
      j := j + 1;
    }
  }

  /** The first k groups' tests can be evaluated. */
  predicate ParentsReadablePrefix(groups: seq<Group>, k: nat)
  {
    k <= |groups| && forall g :: 0 <= g < k ==> RemovesFirst(groups, g).Ok?
  }

  function ToBeRemovedPrefix(groups: seq<Group>, k: nat): seq<int>
    requires ParentsReadablePrefix(groups, k)
  {
    if k == 0 then []
    else ToBeRemovedPrefix(groups, k - 1) + (if RemovesFirst(groups, k - 1).value then [groups[k - 1].first] else [])
  }

  /** to_be_reduced[j] after k groups: the removing groups g < k with g + 1 <= j. */
  function RemovedBeforePrefix(groups: seq<Group>, k: nat, j: nat): nat
    requires ParentsReadablePrefix(groups, k)
  {
    if k == 0 then 0
    else RemovedBeforePrefix(groups, k - 1, j) + (if RemovesFirst(groups, k - 1).value && j >= k then 1 else 0)
  }

  /** After all groups, the loop's lists are those of the specification. */
  lemma PrefixComplete(groups: seq<Group>)
    requires ParentsReadablePrefix(groups, |groups|)
    ensures ParentsReadable(groups)
    ensures ToBeRemovedPrefix(groups, |groups|) == ToBeRemoved(groups, |groups|)
    ensures forall j :: 0 <= j < |groups| ==> RemovedBeforePrefix(groups, |groups|, j) == RemovedBefore(groups, j)
  {
    PrefixRemoved(groups, |groups|);
    forall j | 0 <= j < |groups|
      ensures RemovedBeforePrefix(groups, |groups|, j) == RemovedBefore(groups, j)
    {
      PrefixReducedFull(groups, |groups|, j);
    }
  }

  lemma {:induction false} PrefixRemoved(groups: seq<Group>, k: nat)
    requires ParentsReadable(groups) && k <= |groups|
    ensures ParentsReadablePrefix(groups, k) && ToBeRemovedPrefix(groups, k) == ToBeRemoved(groups, k)
  {
    if k > 0 {
      PrefixRemoved(groups, k - 1);
    }
  }

  /** Counters only count groups before j, so groups at or after j add nothing. */
  lemma {:induction false} PrefixReducedFull(groups: seq<Group>, k: nat, j: nat)
    requires ParentsReadable(groups) && j <= k <= |groups|
    ensures ParentsReadablePrefix(groups, k) && RemovedBeforePrefix(groups, k, j) == RemovedBefore(groups, j)
  {
    if k > j {
      PrefixReducedFull(groups, k - 1, j);
    } else if k > 0 {
      PrefixReducedFull(groups, k - 1, j - 1);
      PrefixReducedShift(groups, k - 1, j);
    }
  }

  lemma {:induction false} PrefixReducedShift(groups: seq<Group>, k: nat, j: nat)
    requires ParentsReadablePrefix(groups, k) && k < j
    ensures RemovedBeforePrefix(groups, k, j) == RemovedBeforePrefix(groups, k, j - 1)
  {
    if k > 0 {
      PrefixReducedShift(groups, k - 1, j);
    }
  }

  // ---------------------------------------------------------------------------------------------
  // Sizes after removal

  /** Well-formed structure: every group starts inside the point list, after the group before it. */
  predicate WellFormed(groups: seq<Group>, n: nat)
  {
    (forall g :: 0 <= g < |groups| ==> 0 <= groups[g].first < n) &&
    (forall g :: 0 < g < |groups| ==> groups[g - 1].first < groups[g].first)
  }

  /** The number of listed positions at k or later, for a list without repetition. */
  function CountFrom(del: seq<int>, k: int): nat
  {
    |Filter(del, d => d >= k)|
  }

  lemma {:induction false} CountFromStep(del: seq<int>, k: int)
    requires forall a, b :: 0 <= a < b < |del| ==> del[a] != del[b]
    ensures CountFrom(del, k) == CountFrom(del, k + 1) + (if k in del then 1 else 0)
  {
    if del != [] {
      var f := (d: int) => d >= k;
      var f1 := (d: int) => d >= k + 1;
      assert Filter(del, f) == (if del[0] >= k then [del[0]] else []) + Filter(del[1..], f);
      assert Filter(del, f1) == (if del[0] >= k + 1 then [del[0]] else []) + Filter(del[1..], f1);
      assert del[0] == k ==> k !in del[1..];
      CountFromStep(del[1..], k);
    }
  }

  lemma {:induction false} KeepFromLength<P>(points: seq<P>, del: seq<int>, k: nat)
    requires k <= |points|
    requires forall a, b :: 0 <= a < b < |del| ==> del[a] != del[b]
    requires forall d :: d in del ==> 0 <= d < |points|
    ensures |KeepFrom(points, del, k)| == |points| - k - CountFrom(del, k)
    decreases |points| - k
  {
    if k == |points| {
      assert forall i :: 0 <= i < |del| ==> del[i] in del;
      FilterNone(del, d => d >= k);
    } else {
      KeepFromLength(points, del, k + 1);
      CountFromStep(del, k);
      assert Listed(del, |points|, k) <==> k in del by {
        if k in del {
          assert PyIndex(k, |points|) == Some(k);
        }
      }
    }
  }

  /** For distinct positions in range, the points array shrinks by the number of positions listed. */
  lemma DeleteRowsLength<P>(points: seq<P>, del: seq<int>)
    requires forall a, b :: 0 <= a < b < |del| ==> del[a] != del[b]
    requires forall d :: d in del ==> 0 <= d < |points|
    ensures DeleteRows(points, del).Ok? && |DeleteRows(points, del).value| == |points| - |del|
  {
    KeepFromLength(points, del, 0);
    assert forall i :: 0 <= i < |del| ==> del[i] in del;
    FilterAll(del, d => d >= 0);
  }

  /** The removed positions of a well-formed structure are increasing first points, all in range. */
  lemma {:induction false} ToBeRemovedIncreasing(groups: seq<Group>, n: nat, k: nat)
    requires ParentsReadable(groups) && WellFormed(groups, n) && k <= |groups|
    ensures forall a, b :: 0 <= a < b < |ToBeRemoved(groups, k)| ==> ToBeRemoved(groups, k)[a] < ToBeRemoved(groups, k)[b]
    ensures forall a :: 0 <= a < |ToBeRemoved(groups, k)| ==>
      0 <= ToBeRemoved(groups, k)[a] && (k > 0 ==> ToBeRemoved(groups, k)[a] <= groups[k - 1].first)
    ensures forall d :: d in ToBeRemoved(groups, k) ==> 0 <= d < n
  {
    if k > 0 {
      ToBeRemovedIncreasing(groups, n, k - 1);
      if k > 1 {
        assert groups[k - 2].first < groups[k - 1].first;
      }
    }
  }

  /**
   * On a well-formed structure, removal succeeds and the points array shrinks by exactly the
   * number of groups whose first point was removed.
   */
  lemma RemovedPointsCount<P>(points: seq<P>, groups: seq<Group>)
    requires WellFormed(groups, |points|) && ParentsReadable(groups)
    ensures RemoveDuplicatePointsSpec(points, groups).Ok?
    ensures |RemoveDuplicatePointsSpec(points, groups).value.0| == |points| - RemovedBefore(groups, |groups|)
  {
    ToBeRemovedIncreasing(groups, |points|, |groups|);
    DeleteRowsLength(points, ToBeRemoved(groups, |groups|));
  }

  /** A root group, a soma group and a child of a soma keep their first point. */
  lemma KeptFirstPoints(groups: seq<Group>, g: nat)
    requires g < |groups| && ParentsReadable(groups)
    requires groups[g].parent == -1 || groups[g].gtype == 1 ||
      (0 <= groups[g].parent < |groups| && groups[groups[g].parent].gtype == 1)
    ensures RemovedBefore(groups, g + 1) == RemovedBefore(groups, g)
  {
  }

  // ---------------------------------------------------------------------------------------------
  // Group-to-section slicing

  /** Python's bound for a slice of a sequence of length n: negative counts from the end, then clamped. */
  function SliceBound(i: int, n: nat): (r: nat)
    ensures r <= n
    ensures 0 <= i <= n ==> r == i
  {
    if i < 0 then (if i + n < 0 then 0 else i + n) else if i > n then n else i
  }

  /** points[a:b] with Python's semantics. */
  function PySlice<P>(s: seq<P>, a: int, b: int): (r: seq<P>)
    ensures 0 <= a <= b <= |s| ==> r == s[a..b]
  {
    var lo := SliceBound(a, |s|);
    var hi := SliceBound(b, |s|);
    if lo >= hi then [] else s[lo..hi]
  }

  /** The end of group g: the next group's first point, or the length of the point list for the last group. */
  function GroupEnd(groups: seq<Group>, n: nat, g: nat): int
    requires g < |groups|
  {
    if g + 1 < |groups| then groups[g + 1].first else n
  }

  /** points[:, POINT_DIAMETER] /= 2: the fourth column holds a diameter and becomes a radius. */
  function HalveDiameters(points: seq<Point>): (r: seq<Point>)
    ensures |r| == |points|
    ensures forall k :: 0 <= k < |points| ==> r[k] == points[k].(r := points[k].r / 2.0)
  {
    seq(|points|, k requires 0 <= k < |points| => points[k].(r := points[k].r / 2.0))
  }

  /** The add_section call for group g: its id, parent group, type and slice of points. */
  function GroupSection(points: seq<Point>, groups: seq<Group>, g: nat): BlockSection
    requires g < |groups|
  {
    BlockSection(groups[g].parent, groups[g].gtype, PySlice(points, groups[g].first, GroupEnd(groups, |points|, g)))
  }

  /** Increasing first points that start at zero and stay inside the point list. */
  predicate Contiguous(groups: seq<Group>, n: nat)
  {
    |groups| > 0 && groups[0].first == 0 && WellFormed(groups, n)
  }

  /** The slices of groups g.. concatenated: each runs from its first point to the next group's. */
  function SlicesFrom(points: seq<Point>, groups: seq<Group>, g: nat): seq<Point>
    requires g <= |groups|
    decreases |groups| - g
  {
    if g == |groups| then [] else GroupSection(points, groups, g).points + SlicesFrom(points, groups, g + 1)
  }

  /** On a contiguous structure the slices tile the point list: every point lands in exactly one section, in order. */
  lemma {:induction false} SlicesTile(points: seq<Point>, groups: seq<Group>, g: nat)
    requires Contiguous(groups, |points|) && g < |groups|
    ensures SlicesFrom(points, groups, g) == points[groups[g].first..]
    decreases |groups| - g
  {
    var end := GroupEnd(groups, |points|, g);
    assert groups[g].first <= end <= |points|;
    if g + 1 < |groups| {
      SlicesTile(points, groups, g + 1);
    }
    assert points[groups[g].first..] == points[groups[g].first..end] + points[end..];
  }

  /** Each group's slice holds at least its own first point. */
  lemma SliceNonEmpty(points: seq<Point>, groups: seq<Group>, g: nat)
    requires WellFormed(groups, |points|) && g < |groups|
    ensures |GroupSection(points, groups, g).points| > 0
    ensures GroupSection(points, groups, g).points[0] == points[groups[g].first]
  {
  }

  // ---------------------------------------------------------------------------------------------
  // Slices after removal

  /** The points at positions k .. e-1 whose position is not listed. */
  function KeepBetween<P>(points: seq<P>, del: seq<int>, k: nat, e: nat): seq<P>
    requires k <= e <= |points|
    decreases e - k
  {
    if k == e then []
    else (if Listed(del, |points|, k) then [] else [points[k]]) + KeepBetween(points, del, k + 1, e)
  }

  lemma {:induction false} KeepBetweenConcat<P>(points: seq<P>, del: seq<int>, a: nat, b: nat, c: nat)
    requires a <= b <= c <= |points|
    ensures KeepBetween(points, del, a, c) == KeepBetween(points, del, a, b) + KeepBetween(points, del, b, c)
    decreases b - a
  {
    if a < b {
      KeepBetweenConcat(points, del, a + 1, b, c);
    }
  }

  lemma {:induction false} KeepFromBetween<P>(points: seq<P>, del: seq<int>, k: nat)
    requires k <= |points|
    ensures KeepFrom(points, del, k) == KeepBetween(points, del, k, |points|)
    decreases |points| - k
  {
    if k < |points| {
      KeepFromBetween(points, del, k + 1);
    }
  }

  /** With no listed position in a .. b-1, every point there is kept. */
  lemma {:induction false} KeepBetweenUnlisted<P>(points: seq<P>, del: seq<int>, a: nat, b: nat)
    requires a <= b <= |points|
    requires forall k :: a <= k < b ==> !Listed(del, |points|, k)
    ensures KeepBetween(points, del, a, b) == points[a..b]
    decreases b - a
  {
    if a < b {
      KeepBetweenUnlisted(points, del, a + 1, b);
      assert points[a..b] == [points[a]] + points[a + 1..b];
    }
  }

  /** A position is removed exactly when it is the first point of a group that loses it. */
  lemma {:induction false} ToBeRemovedMember(groups: seq<Group>, k: nat, x: int)
    requires k <= |groups| && ParentsReadable(groups)
    ensures x in ToBeRemoved(groups, k) <==> exists h :: 0 <= h < k && RemovesFirst(groups, h).value && groups[h].first == x
  {
    if k > 0 {
      ToBeRemovedMember(groups, k - 1, x);
    }
  }

  lemma {:induction false} FirstsIncreasing(groups: seq<Group>, n: nat, a: nat, b: nat)
    requires WellFormed(groups, n) && a < b < |groups|
    ensures groups[a].first < groups[b].first
    decreases b - a
  {
    if a + 1 < b {
      FirstsIncreasing(groups, n, a + 1, b);
    }
  }

  /**
   * On a well-formed structure, position k of the point list is removed exactly when some
   * group that loses its first point starts at k.
   */
  lemma ListedRemoved(groups: seq<Group>, n: nat, k: nat)
    requires WellFormed(groups, n) && ParentsReadable(groups) && k < n
    ensures Listed(ToBeRemoved(groups, |groups|), n, k) <==>
      exists h :: 0 <= h < |groups| && RemovesFirst(groups, h).value && groups[h].first == k
  {
    var del := ToBeRemoved(groups, |groups|);
    ToBeRemovedIncreasing(groups, n, |groups|);
    ToBeRemovedMember(groups, |groups|, k);
    if k in del {
      assert PyIndex(k, n) == Some(k);
    }
    if Listed(del, n, k) {
      var d :| d in del && PyIndex(d, n) == Some(k);
      assert d == k;
    }
  }

  /** Inside group g's range only its first point may be removed, and it is exactly when the group loses it. */
  lemma GroupListed(groups: seq<Group>, n: nat, g: nat, k: nat)
    requires WellFormed(groups, n) && ParentsReadable(groups) && g < |groups|
    requires groups[g].first <= k < GroupEnd(groups, n, g)
    ensures Listed(ToBeRemoved(groups, |groups|), n, k) <==> k == groups[g].first && RemovesFirst(groups, g).value
  {
    ListedRemoved(groups, n, k);
    if h :| 0 <= h < |groups| && RemovesFirst(groups, h).value && groups[h].first == k {
      if h < g {
        FirstsIncreasing(groups, n, h, g);
      } else if g < h {
        if g + 1 < h {
          FirstsIncreasing(groups, n, g + 1, h);
        }
      }
    }
  }

  /** A range whose positions after the first are all unlisted keeps all but, perhaps, its first point. */
  lemma KeepBetweenHead<P>(points: seq<P>, del: seq<int>, a: nat, b: nat)
    requires a < b <= |points|
    requires forall k :: a < k < b ==> !Listed(del, |points|, k)
    ensures KeepBetween(points, del, a, b) ==
      if Listed(del, |points|, a) then points[a + 1..b] else points[a..b]
  {
    KeepBetweenUnlisted(points, del, a + 1, b);
    assert points[a..b] == [points[a]] + points[a + 1..b];
  }

  /** Group g's points after removal: its slice, without the first point when the group loses it. */
  lemma GroupKept<P>(points: seq<P>, groups: seq<Group>, g: nat)
    requires WellFormed(groups, |points|) && ParentsReadable(groups) && g < |groups|
    ensures groups[g].first < GroupEnd(groups, |points|, g) <= |points|
    ensures KeepBetween(points, ToBeRemoved(groups, |groups|), groups[g].first, GroupEnd(groups, |points|, g)) ==
      if RemovesFirst(groups, g).value then points[groups[g].first + 1..GroupEnd(groups, |points|, g)]
      else points[groups[g].first..GroupEnd(groups, |points|, g)]
  {
    var del, f, e := ToBeRemoved(groups, |groups|), groups[g].first, GroupEnd(groups, |points|, g);
    forall k | f < k < e
      ensures !Listed(del, |points|, k)
    {
      GroupListed(groups, |points|, g, k);
    }
    GroupListed(groups, |points|, g, f);
    KeepBetweenHead(points, del, f, e);
  }

  /** The points kept before group g's first point number that point's index less the removals before g. */
  lemma {:induction false} KeptBefore<P>(points: seq<P>, groups: seq<Group>, g: nat)
    requires WellFormed(groups, |points|) && ParentsReadable(groups) && g < |groups|
    ensures |KeepBetween(points, ToBeRemoved(groups, |groups|), 0, groups[g].first)| == groups[g].first - RemovedBefore(groups, g)
  {
    var del := ToBeRemoved(groups, |groups|);
    if g == 0 {
      forall k | 0 <= k < groups[0].first
        ensures !Listed(del, |points|, k)
      {
        ListedRemoved(groups, |points|, k);
        if h :| 0 <= h < |groups| && RemovesFirst(groups, h).value && groups[h].first == k {
          if 0 < h {
            FirstsIncreasing(groups, |points|, 0, h);
          }
        }
      }
      KeepBetweenUnlisted(points, del, 0, groups[0].first);
    } else {
      KeptBefore(points, groups, g - 1);
      GroupKept(points, groups, g - 1);
      KeepBetweenConcat(points, del, 0, groups[g - 1].first, groups[g].first);
    }
  }

  /** In the kept points, group g's kept points sit between its lowered first index and its lowered end. */
  lemma KeptSlice<P>(points: seq<P>, groups: seq<Group>, g: nat)
    requires WellFormed(groups, |points|) && ParentsReadable(groups) && g < |groups|
    ensures groups[g].first < GroupEnd(groups, |points|, g) <= |points|
    ensures var kept := KeepFrom(points, ToBeRemoved(groups, |groups|), 0);
      var a := groups[g].first - RemovedBefore(groups, g);
      var b := GroupEnd(groups, |points|, g) - RemovedBefore(groups, g + 1);
      0 <= a <= b <= |kept| &&
      kept[a..b] == if RemovesFirst(groups, g).value then points[groups[g].first + 1..GroupEnd(groups, |points|, g)]
                    else points[groups[g].first..GroupEnd(groups, |points|, g)]
  {
    var del := ToBeRemoved(groups, |groups|);
    var f, e := groups[g].first, GroupEnd(groups, |points|, g);
    KeptBefore(points, groups, g);
    GroupKept(points, groups, g);
    KeepFromBetween(points, del, 0);
    KeepBetweenConcat(points, del, 0, f, e);
    KeepBetweenConcat(points, del, 0, e, |points|);
    var pre, mid, post := KeepBetween(points, del, 0, f), KeepBetween(points, del, f, e), KeepBetween(points, del, e, |points|);
    var kept := KeepFrom(points, del, 0);
    assert kept == pre + mid + post;
    assert kept[|pre|..|pre| + |mid|] == mid;
  }

  /** The lowered first index and end of group g, read off the result of the removal. */
  lemma ReducedBounds<P>(points: seq<P>, groups: seq<Group>, g: nat, kept: seq<P>, reduced: seq<Group>)
    requires WellFormed(groups, |points|) && ParentsReadable(groups) && g < |groups|
    requires RemoveDuplicatePointsSpec(points, groups) == Ok((kept, reduced))
    ensures kept == KeepFrom(points, ToBeRemoved(groups, |groups|), 0)
    ensures reduced[g].first == groups[g].first - RemovedBefore(groups, g)
    ensures GroupEnd(reduced, |kept|, g) == GroupEnd(groups, |points|, g) - RemovedBefore(groups, g + 1)
  {
    if g + 1 == |groups| {
      RemovedPointsCount(points, groups);
    }
  }

  /**
   * After _remove_duplicate_points, the slice of each section, from its lowered first index to
   * the next section's (or the end of the points), is its old slice without its first point
   * when the section loses it, and the old slice otherwise.
   */
  lemma RemovalSlices<P>(points: seq<P>, groups: seq<Group>, g: nat, kept: seq<P>, reduced: seq<Group>)
    requires WellFormed(groups, |points|) && ParentsReadable(groups) && g < |groups|
    requires RemoveDuplicatePointsSpec(points, groups) == Ok((kept, reduced))
    ensures var f, e := groups[g].first, GroupEnd(groups, |points|, g);
      PySlice(kept, reduced[g].first, GroupEnd(reduced, |kept|, g)) ==
        if RemovesFirst(groups, g).value then PySlice(points, f + 1, e) else PySlice(points, f, e)
  {
    ReducedBounds(points, groups, g, kept, reduced);
    LoweredSlice(points, groups, g, kept, reduced[g].first, GroupEnd(reduced, |kept|, g));
  }

  /** RemovalSlices with the result of the removal given by its kept points and lowered bounds. */
  lemma LoweredSlice<P>(points: seq<P>, groups: seq<Group>, g: nat, kept: seq<P>, a: int, b: int)
    requires WellFormed(groups, |points|) && ParentsReadable(groups) && g < |groups|
    requires kept == KeepFrom(points, ToBeRemoved(groups, |groups|), 0)
    requires a == groups[g].first - RemovedBefore(groups, g)
    requires b == GroupEnd(groups, |points|, g) - RemovedBefore(groups, g + 1)
    ensures var f, e := groups[g].first, GroupEnd(groups, |points|, g);
      PySlice(kept, a, b) == if RemovesFirst(groups, g).value then PySlice(points, f + 1, e) else PySlice(points, f, e)
  {
    KeptSlice(points, groups, g);
    var f, e := groups[g].first, GroupEnd(groups, |points|, g);
    var drop := RemovesFirst(groups, g).value;
    assert kept[a..b] == if drop then points[f + 1..e] else points[f..e];
    SlicesAgree(kept, a, b, points, f, e, drop);
  }

  /** Slices whose bounds are in range are the ordinary ones, so equal plain slices are equal PySlices. */
  lemma SlicesAgree<P>(kept: seq<P>, a: int, b: int, points: seq<P>, f: int, e: int, drop: bool)
    requires 0 <= a <= b <= |kept| && 0 <= f < e <= |points|
    requires kept[a..b] == if drop then points[f + 1..e] else points[f..e]
    ensures PySlice(kept, a, b) == if drop then PySlice(points, f + 1, e) else PySlice(points, f, e)
  {
  }

  /** The builder's sections after the loop: the group index maps to its section. */
  function GroupSections(points: seq<Point>, groups: seq<Group>): (r: map<int, BlockSection>)
    ensures Keyed(r, Range(0, |groups|))
  {
    RangeMembers(|groups|);
    map g | 0 <= g < |groups| :: GroupSection(points, groups, g)
  }

  lemma RangeMembers(n: nat)
    ensures forall x :: x in Range(0, n) <==> 0 <= x < n
  {
    forall x | 0 <= x < n
      ensures x in Range(0, n)
    {
      assert Range(0, n)[x] == x;
    }
  }

  /**
   * The section loop of read: one add_section per group with the group's index as id; since
   * the ids are distinct no call fails, and the builder ends with exactly these sections.
   */
  method AddGroupSections(builder: BlockNeuronBuilder, points: seq<Point>, groups: seq<Group>)
    requires builder.Valid() && builder.sections == map[] && builder.order == []
    modifies builder
    ensures builder.Valid()
    ensures builder.order == Range(0, |groups|)
    ensures builder.sections == GroupSections(points, groups)
  {
    var g := 0;
    while g < |groups|
      invariant 0 <= g <= |groups| && builder.Valid()
      invariant builder.order == Range(0, g)
      invariant forall k :: 0 <= k < g ==> k in builder.sections && builder.sections[k] == GroupSection(points, groups, k)
      invariant forall id :: id in builder.sections ==> 0 <= id < g
    {
      var sec := GroupSection(points, groups, g);
      var ok := builder.AddSection(g, sec.parentId, sec.sectionType, sec.points);
      assert Range(0, g + 1) == Range(0, g) + [g];
      g := g + 1;
    }
    assert builder.sections == GroupSections(points, groups);
  }

  /**
   * read past the file access: the optional duplicate removal, the diameter halving, one
   * section per group with the group's index as id, and the builder's data block.
   */
  function ReadSpec(points: seq<Point>, groups: seq<Group>, removeDuplicates: bool): (r: Result<(seq<Row>, seq<DBSection>)>)
    ensures removeDuplicates && RemoveDuplicatePointsSpec(points, groups).Err? ==> r == Err(IndexError)
  {
    var removed := if removeDuplicates then RemoveDuplicatePointsSpec(points, groups) else Ok((points, groups));
    match removed
    case Err(e) => Err(e)
    case Ok((pts, grs)) => DatablockSpec(GroupSections(HalveDiameters(pts), grs), Range(0, |grs|))
  }

  /**
   * Without duplicate removal, groups whose first points increase inside the point list never
   * make read raise, and the rows of the data block are numbered from 0 in order.
   */
  lemma ReadWithoutRemoval(points: seq<Point>, groups: seq<Group>)
    requires WellFormed(groups, |points|)
    ensures ReadSpec(points, groups, false).Ok?
    ensures var rows := ReadSpec(points, groups, false).value.0;
      forall k :: 0 <= k < |rows| ==> rows[k].id == k
  {
    var hp := HalveDiameters(points);
    var secs := GroupSections(hp, groups);
    var order := Range(0, |groups|);
    DatablockError(secs, order);
    if groups != [] {
      var m := MaxId(order);
      RangeMembers(|groups|);
      SliceNonEmpty(hp, groups, m);
      assert secs[m] == GroupSection(hp, groups, m);
    }
    var r := DatablockSpec(secs, order);
    DatablockNumbering(secs, order, r.value.0, r.value.1);
  }

  method Read(points: seq<Point>, groups: seq<Group>, removeDuplicates: bool) returns (r: Result<(seq<Row>, seq<DBSection>)>)
    ensures r == ReadSpec(points, groups, removeDuplicates)
  {
    var pts, grs := points, groups;
    if removeDuplicates {
      var rd := RemoveDuplicatePoints(points, groups);
      if rd.Err? {
        return Err(rd.error);
      }
      pts, grs := rd.value.0, rd.value.1;
    }
    pts := HalveDiameters(pts);
    var builder := new BlockNeuronBuilder();
    AddGroupSections(builder, pts, grs);
    r := builder.GetDatawrapper();
  }
}

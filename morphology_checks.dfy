/**
 * The structural checks of neurom/check/morphology_checks.py. Each check gives a status and,
 * for most, the offending items; the status is true exactly when nothing was reported.
 * Geometry is abstracted as in the section features: the distance between points is a
 * parameter.
 */
module MorphologyChecks {
  import opened Wrappers
  import opened Seqs
  import opened Trees
  import opened Types
  import opened DataFormat
  import opened Morphology
  import opened SectionFeatures
  import opened Neuron

  /** A morphology as the checks see it: a soma and the root sections of its neurites. */
  datatype Morph = Morph(soma: Soma, roots: seq<SecTree>)

  /** morph.neurites. */
  function Neurites(m: Morph): seq<Neurite>
  {
    SourceNeurites(MorphologyRoots(m.roots))
  }

  /** iter_sections(morph): every section of every neurite, neurite by neurite, in preorder. */
  function AllSections(m: Morph): seq<Section>
  {
    IterSections(MorphologyRoots(m.roots), IPreorderIt, None, FileOrder, None)
  }

  /** The number of child sections. */
  function ChildCount(s: Section): nat
  {
    |Sub(s.tree, s.path).children|
  }

  // ---------------------------------------------------------------------------------------------
  // has_axon, has_apical_dendrite, has_basal_dendrite

  /** The tree type of each neurite, as computed by treefun. */
  function TypesOf(m: Morph, treefun: Neurite -> NeuriteType): (r: seq<NeuriteType>)
    ensures |r| == |Neurites(m)|
    ensures forall i :: 0 <= i < |r| ==> r[i] == treefun(Neurites(m)[i])
  {
    var ns := Neurites(m);
    seq(|ns|, i requires 0 <= i < |ns| => treefun(ns[i]))
  }

  /** list.count. */
  function Count<T(==)>(s: seq<T>, x: T): (c: nat)
    ensures c == multiset(s)[x]
  {
    if s == [] then 0
    else
      assert s == [s[0]] + s[1..];
      (if s[0] == x then 1 else 0) + Count(s[1..], x)
  }

  /** has_axon: some neurite's tree type is axon. */
  function HasAxon(m: Morph, treefun: Neurite -> NeuriteType): (r: bool)
    ensures r <==> exists n :: n in Neurites(m) && treefun(n) == Axon
  {
    var ts := TypesOf(m, treefun);
    assert forall i :: 0 <= i < |ts| ==> Neurites(m)[i] in Neurites(m);
    Axon in ts
  }

  /** The common body of has_apical_dendrite and has_basal_dendrite: at least minNumber neurites of a type. */
  function HasTypeCount(m: Morph, t: NeuriteType, minNumber: int, treefun: Neurite -> NeuriteType): (r: bool)
    ensures r <==> multiset(TypesOf(m, treefun))[t] >= minNumber
  {
    Count(TypesOf(m, treefun), t) >= minNumber
  }

  function HasApicalDendrite(m: Morph, minNumber: int, treefun: Neurite -> NeuriteType): (r: bool)
    ensures r <==> multiset(TypesOf(m, treefun))[ApicalDendrite] >= minNumber
  {
    HasTypeCount(m, ApicalDendrite, minNumber, treefun)
  }

  function HasBasalDendrite(m: Morph, minNumber: int, treefun: Neurite -> NeuriteType): (r: bool)
    ensures r <==> multiset(TypesOf(m, treefun))[BasalDendrite] >= minNumber
  {
    HasTypeCount(m, BasalDendrite, minNumber, treefun)
  }

  /**
   * With the default minimum of one, the count checks ask the same question as has_axon:
   * whether some neurite has the type.
   */
  lemma CountOneIsPresence(m: Morph, t: NeuriteType, treefun: Neurite -> NeuriteType)
    ensures HasTypeCount(m, t, 1, treefun) <==> exists n :: n in Neurites(m) && treefun(n) == t
    ensures HasTypeCount(m, Axon, 1, treefun) <==> HasAxon(m, treefun)
  {
    var ts := TypesOf(m, treefun);
    if exists n :: n in Neurites(m) && treefun(n) == t {
      var n :| n in Neurites(m) && treefun(n) == t;
      var i :| 0 <= i < |Neurites(m)| && Neurites(m)[i] == n;
      assert ts[i] == t;
    }
    if HasTypeCount(m, t, 1, treefun) {
      assert t in ts;
      var i :| 0 <= i < |ts| && ts[i] == t;
      assert Neurites(m)[i] in Neurites(m);
    }
    if HasAxon(m, treefun) {
      var n :| n in Neurites(m) && treefun(n) == Axon;
      var i :| 0 <= i < |Neurites(m)| && Neurites(m)[i] == n;
      assert ts[i] == Axon;
    }
  }

  /** Asking for fewer neurites of a type never turns a passing check into a failing one. */
  lemma TypeCountMonotone(m: Morph, t: NeuriteType, lo: int, hi: int, treefun: Neurite -> NeuriteType)
    requires lo <= hi && HasTypeCount(m, t, hi, treefun)
    ensures HasTypeCount(m, t, lo, treefun)
  {
  }

  // ---------------------------------------------------------------------------------------------
  // has_nonzero_soma_radius

  /** has_nonzero_soma_radius: the radius is strictly above the threshold. */
  function HasNonzeroSomaRadius(m: Morph, threshold: real): (r: bool)
    ensures r && threshold >= 0.0 ==> m.soma.radius != 0.0
    ensures !r ==> m.soma.radius <= threshold
  {
    m.soma.radius > threshold
  }

  /**
   * The comparison is strict: a soma of radius 1.5 passes with thresholds up to 1.499 and
   * fails from 1.5 on; and a one-point soma whose radius column is zero fails the default check.
   */
  lemma SomaRadiusStrict(m: Morph, dist: (Point, Point) -> real, p: Point)
    ensures m.soma.radius == 1.5 ==>
      HasNonzeroSomaRadius(m, 0.0) && HasNonzeroSomaRadius(m, 1.499) &&
      !HasNonzeroSomaRadius(m, 1.5) && !HasNonzeroSomaRadius(m, 2.5)
    ensures !HasNonzeroSomaRadius(m, m.soma.radius)
    ensures p.r == 0.0 ==> !HasNonzeroSomaRadius(Morph(MakeSoma(dist, [p]).value, m.roots), 0.0)
  {
    SomaARadius(dist, p);
  }

  // ---------------------------------------------------------------------------------------------
  // has_all_nonzero_neurite_radii

  /** Point i of the section has a radius at or below the threshold. */
  predicate LowAt(s: Section, i: int, threshold: real)
  {
    0 <= i < |Data(s).points| && Data(s).points[i].r <= threshold
  }

  /** The (section id, point index) pairs of one section's points at or below the threshold, among its first k points. */
  function LowRadii(s: Section, threshold: real, k: nat): seq<(int, int)>
    requires k <= |Data(s).points|
  {
    if k == 0 then []
    else
      var pts := Data(s).points;
      LowRadii(s, threshold, k - 1) + (if pts[k - 1].r <= threshold then [(Data(s).id, k - 1)] else [])
  }

  lemma {:induction false} LowRadiiMembers(s: Section, threshold: real, k: nat, x: (int, int))
    requires k <= |Data(s).points|
    ensures x in LowRadii(s, threshold, k) <==> exists i :: 0 <= i < k && x == (Data(s).id, i) && LowAt(s, i, threshold)
  {
    if k > 0 {
      LowRadiiMembers(s, threshold, k - 1, x);
    }
  }

  /** The offending pairs of a run of sections, section after section, duplicates included. */
  function LowRadiiAll(secs: seq<Section>, threshold: real): seq<(int, int)>
  {
    if secs == [] then []
    else
      var last := secs[|secs| - 1];
      LowRadiiAll(secs[..|secs| - 1], threshold) + LowRadii(last, threshold, |Data(last).points|)
  }

  /** One more point of a section extends its list by that point when its radius is low. */
  lemma LowRadiiSnoc(s: Section, threshold: real, before: seq<(int, int)>, i: nat)
    requires i < |Data(s).points|
    ensures before + LowRadii(s, threshold, i + 1) == before + LowRadii(s, threshold, i) +
      (if Data(s).points[i].r <= threshold then [(Data(s).id, i)] else [])
  {
  }

  lemma LowRadiiAllStep(secs: seq<Section>, k: nat, threshold: real)
    requires k < |secs|
    ensures LowRadiiAll(secs[..k + 1], threshold) ==
      LowRadiiAll(secs[..k], threshold) + LowRadii(secs[k], threshold, |Data(secs[k]).points|)
  {
    assert secs[..k + 1][..k] == secs[..k];
  }

  /** Each element at its first occurrence only, in order: what the loop with its seen set keeps. */
  function Dedup<T(==)>(xs: seq<T>): seq<T>
  {
    if xs == [] then []
    else
      var d := Dedup(xs[..|xs| - 1]);
      var x := xs[|xs| - 1];
      if x in d then d else d + [x]
  }

  /** Deduplication keeps exactly the elements of the list, each once. */
  lemma {:induction false} DedupMembers<T>(xs: seq<T>)
    ensures forall i :: 0 <= i < |Dedup(xs)| ==> Dedup(xs)[i] in xs
    ensures forall i :: 0 <= i < |xs| ==> xs[i] in Dedup(xs)
    ensures forall i, j :: 0 <= i < j < |Dedup(xs)| ==> Dedup(xs)[i] != Dedup(xs)[j]
  {
    if xs != [] {
      var init := xs[..|xs| - 1];
      DedupMembers(init);
      assert xs == init + [xs[|xs| - 1]];
    }
  }

  /** A list without duplicates is its own deduplication. */
  lemma {:induction false} DedupDistinct<T>(xs: seq<T>)
    requires forall i, j :: 0 <= i < j < |xs| ==> xs[i] != xs[j]
    ensures Dedup(xs) == xs
  {
    if xs != [] {
      var init := xs[..|xs| - 1];
      DedupDistinct(init);
      assert xs[|xs| - 1] !in init;
      assert init + [xs[|xs| - 1]] == xs;
    }
  }

  lemma DedupSnoc<T>(xs: seq<T>, x: T)
    ensures Dedup(xs + [x]) == if x in Dedup(xs) then Dedup(xs) else Dedup(xs) + [x]
  {
    assert (xs + [x])[..|xs|] == xs;
  }

  /**
   * has_all_nonzero_neurite_radii: every point at or below the threshold, reported once as
   * (section id, point index) in iteration order; the status is true iff there is none.
   */
  method HasAllNonzeroNeuriteRadii(m: Morph, threshold: real) returns (status: bool, badIds: seq<(int, int)>)
    ensures badIds == Dedup(LowRadiiAll(AllSections(m), threshold))
    ensures status <==> badIds == []
  {
    var secs := AllSections(m);
    badIds := [];
    var seen: set<(int, int)> := {};
    var k := 0;
    while k < |secs|
      invariant 0 <= k <= |secs|
      invariant badIds == Dedup(LowRadiiAll(secs[..k], threshold))
      invariant forall x :: x in seen <==> x in badIds
    {
      LowRadiiAllStep(secs, k, threshold);
      badIds, seen := ScanSectionRadii(secs[k], threshold, LowRadiiAll(secs[..k], threshold), badIds, seen);
      k := k + 1;
    }
    assert secs[..k] == secs;
    status := |badIds| == 0;
  }

  /** The inner loop of has_all_nonzero_neurite_radii: one section's points, skipping pairs already seen. */
  method ScanSectionRadii(s: Section, threshold: real, ghost before: seq<(int, int)>, bad0: seq<(int, int)>, seen0: set<(int, int)>)
    returns (badIds: seq<(int, int)>, seen: set<(int, int)>)
    requires bad0 == Dedup(before) && forall x :: x in seen0 <==> x in bad0
    ensures badIds == Dedup(before + LowRadii(s, threshold, |Data(s).points|))
    ensures forall x :: x in seen <==> x in badIds
  {
    var pts := Data(s).points;
    badIds, seen := bad0, seen0;
    assert before + LowRadii(s, threshold, 0) == before;
    var i := 0;
    while i < |pts|
      invariant 0 <= i <= |pts|
      invariant badIds == Dedup(before + LowRadii(s, threshold, i))
      invariant forall x :: x in seen <==> x in badIds
    {
      var info := (Data(s).id, i);
      ghost var xs := before + LowRadii(s, threshold, i);
      LowRadiiSnoc(s, threshold, before, i);
      if pts[i].r <= threshold {
        assert before + LowRadii(s, threshold, i + 1) == xs + [info];
        DedupSnoc(xs, info);
        if info !in seen {
          seen := seen + {info};
          badIds := badIds + [info];
        }
      } else {
        assert before + LowRadii(s, threshold, i + 1) == xs + [];
        assert xs + [] == xs;
      }
      i := i + 1;
    }
  }

  /**
   * A pair is reported iff some section of the morphology has that id and a point at that
   * index whose radius is at or below the threshold; and no pair is reported twice.
   */
  lemma NeuriteRadiiReported(m: Morph, threshold: real, x: (int, int))
    ensures x in Dedup(LowRadiiAll(AllSections(m), threshold)) <==>
      exists s, i :: s in AllSections(m) && x == (Data(s).id, i) && LowAt(s, i, threshold)
    ensures var bad := Dedup(LowRadiiAll(AllSections(m), threshold));
      forall i, j :: 0 <= i < j < |bad| ==> bad[i] != bad[j]
  {
    var all := LowRadiiAll(AllSections(m), threshold);
    LowRadiiAllMembers(AllSections(m), threshold, x);
    DedupMembers(all);
    if x in all {
      var i :| 0 <= i < |all| && all[i] == x;
    }
  }

  lemma {:induction false} LowRadiiAllMembers(secs: seq<Section>, threshold: real, x: (int, int))
    ensures x in LowRadiiAll(secs, threshold) <==>
      exists s, i :: s in secs && x == (Data(s).id, i) && LowAt(s, i, threshold)
  {
    if secs != [] {
      var init := secs[..|secs| - 1];
      var last := secs[|secs| - 1];
      LowRadiiAllMembers(init, threshold, x);
      LowRadiiMembers(last, threshold, |Data(last).points|, x);
      assert secs == init + [last];
      if exists s, i :: s in secs && x == (Data(s).id, i) && LowAt(s, i, threshold) {
        var s, i :| s in secs && x == (Data(s).id, i) && LowAt(s, i, threshold);
        if s != last {
          assert s in init;
        }
      }
    }
  }

  // ---------------------------------------------------------------------------------------------
  // has_all_nonzero_segment_lengths, has_all_nonzero_section_lengths

  function SegmentCount(s: Section): nat
  {
    if |Data(s).points| == 0 then 0 else |Data(s).points| - 1
  }

  /** Segment i of the section has a length at or below the threshold. */
  predicate ShortAt(s: Section, i: int, threshold: real, dist: Dist)
  {
    0 <= i < SegmentCount(s) && dist(Data(s).points[i], Data(s).points[i + 1]) <= threshold
  }

  /** The (section id, segment index) pairs of one section's short segments among its first k segments. */
  function ShortSegments(s: Section, threshold: real, dist: Dist, k: nat): (r: seq<(int, int)>)
    requires k <= SegmentCount(s)
    ensures forall x :: x in r <==> exists i :: 0 <= i < k && x == (Data(s).id, i) && ShortAt(s, i, threshold, dist)
  {
    if k == 0 then []
    else
      var pts := Data(s).points;
      ShortSegments(s, threshold, dist, k - 1) +
        (if dist(pts[k - 1], pts[k]) <= threshold then [(Data(s).id, k - 1)] else [])
  }

  function ShortSegmentsAll(secs: seq<Section>, threshold: real, dist: Dist): seq<(int, int)>
  {
    if secs == [] then []
    else
      var last := secs[|secs| - 1];
      ShortSegmentsAll(secs[..|secs| - 1], threshold, dist) + ShortSegments(last, threshold, dist, SegmentCount(last))
  }

  /**
   * has_all_nonzero_segment_lengths: every segment at or below the threshold as (section id,
   * segment index), section after section; the status is true iff there is none.
   */
  method HasAllNonzeroSegmentLengths(m: Morph, threshold: real, dist: Dist) returns (status: bool, badIds: seq<(int, int)>)
    ensures badIds == ShortSegmentsAll(AllSections(m), threshold, dist)
    ensures status <==> badIds == []
  {
    var secs := AllSections(m);
    badIds := [];
    var k := 0;
    while k < |secs|
      invariant 0 <= k <= |secs|
      invariant badIds == ShortSegmentsAll(secs[..k], threshold, dist)
    {
      var s := secs[k];
      var p := Data(s).points;
      ghost var before := badIds;
      var i := 0;
      while i < SegmentCount(s)
        invariant 0 <= i <= SegmentCount(s)
        invariant badIds == before + ShortSegments(s, threshold, dist, i)
      {
        ShortSegmentsSnoc(s, threshold, dist, before, i);
        if dist(p[i], p[i + 1]) <= threshold {
          badIds := badIds + [(Data(s).id, i)];
        }
        i := i + 1;
      }
      ShortSegmentsAllStep(secs, k, threshold, dist);
      k := k + 1;
    }
    assert secs[..k] == secs;
    status := |badIds| == 0;
  }

  /** One more segment of a section extends its list by that segment when it is short. */
  lemma ShortSegmentsSnoc(s: Section, threshold: real, dist: Dist, before: seq<(int, int)>, i: nat)
    requires i < SegmentCount(s)
    ensures before + ShortSegments(s, threshold, dist, i + 1) == before + ShortSegments(s, threshold, dist, i) +
      (if dist(Data(s).points[i], Data(s).points[i + 1]) <= threshold then [(Data(s).id, i)] else [])
  {
  }

  lemma ShortSegmentsAllStep(secs: seq<Section>, k: nat, threshold: real, dist: Dist)
    requires k < |secs|
    ensures ShortSegmentsAll(secs[..k + 1], threshold, dist) ==
      ShortSegmentsAll(secs[..k], threshold, dist) + ShortSegments(secs[k], threshold, dist, SegmentCount(secs[k]))
  {
    assert secs[..k + 1][..k] == secs[..k];
  }

  /** A pair is reported iff a section of the morphology has that id and a short segment at that index. */
  lemma {:induction false} ShortSegmentsMembers(secs: seq<Section>, threshold: real, dist: Dist, x: (int, int))
    ensures x in ShortSegmentsAll(secs, threshold, dist) <==>
      exists s, i :: s in secs && x == (Data(s).id, i) && ShortAt(s, i, threshold, dist)
  {
    if secs != [] {
      var init := secs[..|secs| - 1];
      var last := secs[|secs| - 1];
      ShortSegmentsMembers(init, threshold, dist, x);
      assert secs == init + [last];
      if exists s, i :: s in secs && x == (Data(s).id, i) && ShortAt(s, i, threshold, dist) {
        var s, i :| s in secs && x == (Data(s).id, i) && ShortAt(s, i, threshold, dist);
        if s != last {
          assert s in init;
        }
      }
    }
  }

  function IsShortSection(threshold: real, dist: Dist): Section -> bool
  {
    (s: Section) => PathDistance(Data(s).points, dist) <= threshold
  }

  function Ids(secs: seq<Section>): (r: seq<int>)
    ensures |r| == |secs| && forall i :: 0 <= i < |secs| ==> r[i] == Data(secs[i]).id
  {
    seq(|secs|, i requires 0 <= i < |secs| => Data(secs[i]).id)
  }

  /** has_all_nonzero_section_lengths: the ids of the sections whose length is at or below the threshold. */
  function HasAllNonzeroSectionLengths(m: Morph, threshold: real, dist: Dist): (r: (bool, seq<int>))
    ensures r.0 <==> r.1 == []
    ensures forall id :: id in r.1 <==>
      exists s :: s in AllSections(m) && Data(s).id == id && PathDistance(Data(s).points, dist) <= threshold
  {
    var bad := Filter(AllSections(m), IsShortSection(threshold, dist));
    var ids := Ids(bad);
    assert forall s :: s in bad ==> Data(s).id in ids by {
      forall s | s in bad
        ensures Data(s).id in ids
      {
        var i :| 0 <= i < |bad| && bad[i] == s;
        assert ids[i] == Data(s).id;
      }
    }
    (|ids| == 0, ids)
  }

  /** A section whose segments all have zero length is flagged by the default section-length check. */
  lemma ZeroSegmentsShortSection(s: Section, dist: Dist)
    requires forall i :: 0 <= i < |Data(s).points| - 1 ==> dist(Data(s).points[i], Data(s).points[i + 1]) == 0.0
    ensures IsShortSection(0.0, dist)(s)
  {
    var ls := SegmentLengths(Data(s).points, dist, false);
    SumZero(ls);
  }

  lemma {:induction false} SumZero(s: seq<real>)
    requires forall i :: 0 <= i < |s| ==> s[i] == 0.0
    ensures Sum(s) == 0.0
  {
    if s != [] {
      SumZero(s[1..]);
    }
  }

  // ---------------------------------------------------------------------------------------------
  // has_multifurcation, has_unifurcation, has_no_single_children


  /** Each flagged section's id and last point; IndexError when a flagged section has no points. */
  function IdsAndLastPoints(secs: seq<Section>): (r: Result<seq<(int, Point)>>)
    ensures r.Err? <==> exists i :: 0 <= i < |secs| && Data(secs[i]).points == []
    ensures r.Err? ==> r.error == IndexError
    ensures r.Ok? ==> |r.value| == |secs| && forall i :: 0 <= i < |secs| ==>
      r.value[i] == (Data(secs[i]).id, Data(secs[i]).points[|Data(secs[i]).points| - 1])
  {
    if secs == [] then Ok([])
    else
      assert forall i :: 1 <= i < |secs| ==> secs[i] == secs[1..][i - 1];
      var pts := Data(secs[0]).points;
      if pts == [] then Err(IndexError)
      else
        match IdsAndLastPoints(secs[1..])
        case Err(e) => Err(e)
        case Ok(rest) => Ok([(Data(secs[0]).id, pts[|pts| - 1])] + rest)
  }

  /** A section with more than three children. */
  predicate IsMultifurcation(s: Section)
  {
    ChildCount(s) > 3
  }

  /** A section with exactly one child. */
  predicate IsUnifurcation(s: Section)
  {
    ChildCount(s) == 1
  }

  /** has_multifurcation: the sections with more than three children, with their last point. */
  function HasMultifurcation(m: Morph): (r: Result<(bool, seq<(int, Point)>)>)
    ensures r.Ok? ==> (r.value.0 <==> r.value.1 == [])
  {
    match IdsAndLastPoints(Filter(AllSections(m), IsMultifurcation))
    case Err(e) => Err(e)
    case Ok(bad) => Ok((|bad| == 0, bad))
  }

  /** has_unifurcation: the sections with exactly one child, with their last point. */
  function HasUnifurcation(m: Morph): (r: Result<(bool, seq<(int, Point)>)>)
    ensures r.Ok? ==> (r.value.0 <==> r.value.1 == [])
  {
    match IdsAndLastPoints(Filter(AllSections(m), IsUnifurcation))
    case Err(e) => Err(e)
    case Ok(bad) => Ok((|bad| == 0, bad))
  }

  /** has_no_single_children: the ids of the sections with exactly one child. */
  function HasNoSingleChildren(m: Morph): (r: (bool, seq<int>))
    ensures r.0 <==> r.1 == []
  {
    var bad := Ids(Filter(AllSections(m), IsUnifurcation));
    (|bad| == 0, bad)
  }

  /** Filtering leaves nothing iff no element passes. */
  lemma {:induction false} FilterEmpty<T>(s: seq<T>, f: T -> bool)
    ensures Filter(s, f) == [] <==> forall i :: 0 <= i < |s| ==> !f(s[i])
  {
    if s != [] {
      FilterEmpty(s[1..], f);
      assert forall i :: 1 <= i < |s| ==> s[i] == s[1..][i - 1];
    }
  }

  /** The flagged sections all have a last point when every section has points. */
  lemma FlaggedHavePoints(secs: seq<Section>, f: Section -> bool)
    requires forall i :: 0 <= i < |secs| ==> Data(secs[i]).points != []
    ensures IdsAndLastPoints(Filter(secs, f)).Ok?
  {
    var bad := Filter(secs, f);
    forall i | 0 <= i < |bad|
      ensures Data(bad[i]).points != []
    {
      var j :| 0 <= j < |secs| && secs[j] == bad[i];
    }
  }

  /**
   * has_multifurcation passes iff no section of the morphology has more than three children,
   * and with points in every section it never raises.
   */
  lemma MultifurcationIff(m: Morph)
    requires forall i :: 0 <= i < |AllSections(m)| ==> Data(AllSections(m)[i]).points != []
    ensures HasMultifurcation(m).Ok?
    ensures HasMultifurcation(m).value.0 <==> forall i :: 0 <= i < |AllSections(m)| ==> ChildCount(AllSections(m)[i]) <= 3
  {
    var secs := AllSections(m);
    var f := IsMultifurcation;
    FlaggedHavePoints(secs, f);
    FilterEmpty(secs, f);
  }

  /**
   * has_unifurcation and has_no_single_children flag the same sections: the same status,
   * and the same ids in the same order; both pass iff no section has exactly one child.
   */
  lemma UnifurcationAgrees(m: Morph)
    requires forall i :: 0 <= i < |AllSections(m)| ==> Data(AllSections(m)[i]).points != []
    ensures HasUnifurcation(m).Ok?
    ensures HasUnifurcation(m).value.0 == HasNoSingleChildren(m).0
    ensures |HasUnifurcation(m).value.1| == |HasNoSingleChildren(m).1|
    ensures forall i :: 0 <= i < |HasNoSingleChildren(m).1| ==> HasUnifurcation(m).value.1[i].0 == HasNoSingleChildren(m).1[i]
    ensures HasNoSingleChildren(m).0 <==> forall i :: 0 <= i < |AllSections(m)| ==> ChildCount(AllSections(m)[i]) != 1
  {
    var secs := AllSections(m);
    var f := IsUnifurcation;
    FlaggedHavePoints(secs, f);
    FilterEmpty(secs, f);
  }

  /** An axon whose root section has a single child: has_no_single_children reports [0] and fails. */
  lemma SingleChildExample(a: Point, b: Point, soma: Soma)
    ensures var m := Morph(soma, [Node(SectionData(0, Axon, [a, b]), [Node(SectionData(1, Axon, [b, a]), [])])]);
      HasNoSingleChildren(m) == (false, [0])
  {
    var child: SecTree := Node(SectionData(1, Axon, [b, a]), []);
    var root: SecTree := Node(SectionData(0, Axon, [a, b]), [child]);
    var m := Morph(soma, [root]);
    var n := Neurite(Section(root, []));
    assert Neurites(m) == [n];
    IterNeuritesMembers(MorphologyRoots(m.roots), None, FileOrder, n);
    assert IterNeurites(MorphologyRoots(m.roots), None, FileOrder, false) == [n];
    assert Kids(child, [0], PreOrder, 0) == [];
    assert Walk(child, [0], PreOrder) == [[0]];
    assert Kids(root, [], PreOrder, 1) == [];
    assert [] + [0] == [0];
    assert Kids(root, [], PreOrder, 0) == Walk(child, [0], PreOrder) + [];
    assert Walk(root, [], PreOrder) == [[], [0]];
    assert Sub(root, []) == root;
    var secs := [Section(root, []), Section(root, [0])];
    assert IterPaths(IPreorderIt, n.root) == [[], [0]];
    assert SectionsFrom(IPreorderIt, n.root) == secs;
    assert seq(1, i requires 0 <= i < 1 => SectionsFrom(IPreorderIt, [n][i].root)) == [secs];
    assert Flatten([secs]) == secs + Flatten([]);
    assert AllSections(m) == secs;
    assert Sub(root, [0]) == child;
    assert ChildCount(secs[0]) == 1 && ChildCount(secs[1]) == 0;
    assert IsUnifurcation(secs[0]) && !IsUnifurcation(secs[1]);
    assert Filter(secs, IsUnifurcation) == [Section(root, [])] + Filter(secs[1..], IsUnifurcation);
    assert Filter(secs[1..], IsUnifurcation) == [] + Filter(secs[2..], IsUnifurcation);
    assert secs[2..] == [];
    assert Filter(secs, IsUnifurcation) == [secs[0]];
    assert Data(secs[0]).id == 0;
    assert Ids([secs[0]]) == [0];
  }
}

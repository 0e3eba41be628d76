/**
 * The Neurolucida reader of neurom/io/neurolucida.py: each top-level list whose type can be told
 * becomes a tree of sections, split where a row holds sub-lists separated by '|', and the
 * sections are handed in order to a BlockNeuronBuilder.
 */
module Neurolucida {
  import opened Wrappers
  import opened DataFormat
  import opened DataWrapper
  import opened BlockBuilder
  import opened NeurolucidaTokens
  import opened NeurolucidaParser

  /** WANTED_SECTIONS: the section names that give a top-level list its POINT_TYPE. */
  const WANTED_SECTIONS: map<string, int> :=
    map["CellBody" := SOMA, "Axon" := AXON, "Dendrite" := BASAL_DENDRITE, "Apical" := APICAL_DENDRITE]

  const BAR: SExp := Atom("|")

  // ---------------------------------------------------------------------------------------------
  // _find_furcations

  /** Each pair is a slice lo..hi of a list of n rows. */
  predicate Slices(fs: seq<(nat, nat)>, n: nat)
  {
    forall k :: 0 <= k < |fs| ==> fs[k].0 <= fs[k].1 <= n
  }

  /** The slices closed after looking at the first i rows, and where the open slice starts. */
  function FurcationsUpTo(rows: seq<SExp>, i: nat): (r: (seq<(nat, nat)>, nat))
    requires i <= |rows|
    ensures r.1 <= i && Slices(r.0, r.1)
  {
    if i == 0 then ([], 0)
    else
      var prev := FurcationsUpTo(rows, i - 1);
      if rows[i - 1] == BAR then (prev.0 + [(prev.1, i - 1)], i) else prev
  }

  /** _find_furcations: the slices between the '|' rows, the last one running to the end. */
  function Furcations(rows: seq<SExp>): (r: seq<(nat, nat)>)
    ensures Slices(r, |rows|)
  {
    var last := FurcationsUpTo(rows, |rows|);
    last.0 + [(last.1, |rows|)]
  }

  predicate NoBarIn(rows: seq<SExp>, lo: nat, hi: nat)
    requires lo <= hi <= |rows|
  {
    forall j :: lo <= j < hi ==> rows[j] != BAR
  }

  /** Slice k ends at a '|' row and slice k + 1 starts right after it. */
  predicate BarBetween(rows: seq<SExp>, fs: seq<(nat, nat)>, k: nat)
    requires k + 1 < |fs| && Slices(fs, |rows|)
  {
    fs[k].1 < |rows| && rows[fs[k].1] == BAR && fs[k + 1].0 == fs[k].1 + 1
  }

  /**
   * The slices cover rows[..n] from first to last: they start at 0 and end at n, are free of
   * '|', and each '|' row separates one slice from the next.
   */
  predicate SplitAtBars(rows: seq<SExp>, fs: seq<(nat, nat)>, n: nat)
  {
    n <= |rows| && Slices(fs, n) && |fs| >= 1 && fs[0].0 == 0 && fs[|fs| - 1].1 == n &&
    (forall k :: 0 <= k < |fs| ==> NoBarIn(rows, fs[k].0, fs[k].1)) &&
    (forall k :: 0 <= k < |fs| - 1 ==> BarBetween(rows, fs, k))
  }

  lemma {:induction false} FurcationsUpToSplit(rows: seq<SExp>, i: nat)
    requires i <= |rows|
    ensures SplitAtBars(rows, FurcationsUpTo(rows, i).0 + [(FurcationsUpTo(rows, i).1, i)], i)
  {
    if i > 0 {
      FurcationsUpToSplit(rows, i - 1);
      var prev := FurcationsUpTo(rows, i - 1);
      if rows[i - 1] == BAR {
        SplitAtBar(rows, prev.0, prev.1, i);
      } else {
        SplitExtend(rows, prev.0, prev.1, i);
      }
    }
  }

  /** A '|' row closes the open slice and opens an empty one after it. */
  lemma SplitAtBar(rows: seq<SExp>, fs: seq<(nat, nat)>, start: nat, i: nat)
    requires 0 < i <= |rows| && rows[i - 1] == BAR && SplitAtBars(rows, fs + [(start, i - 1)], i - 1)
    ensures SplitAtBars(rows, fs + [(start, i - 1)] + [(i, i)], i)
  {
    var before := fs + [(start, i - 1)];
    var after := before + [(i, i)];
    assert forall k :: 0 <= k < |before| ==> after[k] == before[k];
    forall k | 0 <= k < |after| - 1
      ensures BarBetween(rows, after, k)
    {
      if k < |before| - 1 {
        assert BarBetween(rows, before, k);
      }
    }
    forall k | 0 <= k < |after|
      ensures NoBarIn(rows, after[k].0, after[k].1)
    {
      if k < |before| {
        assert NoBarIn(rows, before[k].0, before[k].1);
      }
    }
  }

  /** Any other row extends the open slice. */
  lemma SplitExtend(rows: seq<SExp>, fs: seq<(nat, nat)>, start: nat, i: nat)
    requires 0 < i <= |rows| && rows[i - 1] != BAR && SplitAtBars(rows, fs + [(start, i - 1)], i - 1)
    ensures SplitAtBars(rows, fs + [(start, i)], i)
  {
    var before := fs + [(start, i - 1)];
    var after := fs + [(start, i)];
    assert forall k :: 0 <= k < |fs| ==> after[k] == before[k];
    forall k | 0 <= k < |after| - 1
      ensures BarBetween(rows, after, k)
    {
      assert BarBetween(rows, before, k);
      assert after[k + 1].0 == before[k + 1].0;
    }
    forall k | 0 <= k < |after|
      ensures NoBarIn(rows, after[k].0, after[k].1)
    {
      assert NoBarIn(rows, before[k].0, before[k].1);
    }
  }

  /** _find_furcations splits the rows at every '|' and nowhere else. */
  lemma FurcationsSplit(rows: seq<SExp>)
    ensures SplitAtBars(rows, Furcations(rows), |rows|)
  {
    FurcationsUpToSplit(rows, |rows|);
  }

  method FindFurcations(rows: seq<SExp>) returns (furcations: seq<(nat, nat)>)
    ensures furcations == Furcations(rows)
  {
    furcations := [];
    var start := 0;
    var i := 0;
    while i < |rows|
      invariant i <= |rows| && (furcations, start) == FurcationsUpTo(rows, i)
    {
      if rows[i] == BAR {
        furcations := furcations + [(start, i)];
        start := i + 1;
      }
      i := i + 1;
    }
    furcations := furcations + [(start, |rows|)];
  }

  // ---------------------------------------------------------------------------------------------
  // _extract_section_points

  /**
   * float() of one column: what `parse` makes of a token (None where Python's float raises
   * ValueError), and TypeError for a list.
   */
  function Float(e: SExp, parse: string -> Option<real>): (r: Result<real>)
    ensures r.Err? ==> r.error == (if e.List? then TypeError else ValueError)
  {
    match e
    case List(_) => Err(TypeError)
    case Atom(t) => if parse(t).Some? then Ok(parse(t).value) else Err(ValueError)
  }

  /** The point of a row: X, Y, Z and half the diameter as radius, converted left to right. */
  function RowPoint(row: seq<SExp>, parse: string -> Option<real>): (r: Result<Point>)
    requires |row| >= 4
    ensures r.Ok? <==> forall k :: 0 <= k < 4 ==> Float(row[k], parse).Ok?
    ensures r.Ok? ==> r.value == Point(Float(row[0], parse).value, Float(row[1], parse).value,
                                       Float(row[2], parse).value, Float(row[3], parse).value / 2.0)
  {
    match Float(row[0], parse)
    case Err(e) => Err(e)
    case Ok(x) =>
      match Float(row[1], parse)
      case Err(e) => Err(e)
      case Ok(y) =>
        match Float(row[2], parse)
        case Err(e) => Err(e)
        case Ok(z) =>
          match Float(row[3], parse)
          case Err(e) => Err(e)
          case Ok(d) => Ok(Point(x, y, z, d / 2.0))
  }

  /** How the loop treats a row: skipped as a block marker, a furcation that ends it, or a point. */
  datatype RowKind = Marker | Fork | PointRow(p: Point)

  predicate Empty(e: SExp)
  {
    e == Atom("") || e == List([])
  }

  /**
   * One row: a string is a block marker (its first character is read, so an empty one raises
   * IndexError); a list is a furcation when its first element is a list, and otherwise must
   * hold 4 or 5 columns (AssertionError), the fifth's first character being read for the
   * warning, before the floats are taken.
   */
  function RowStep(e: SExp, parse: string -> Option<real>): (r: Result<RowKind>)
    ensures r == Ok(Marker) <==> e.Atom? && e.token != ""
    ensures r == Ok(Fork) <==> e.List? && e.items != [] && e.items[0].List?
    ensures r.Ok? && r.value.PointRow? ==>
      e.List? && (|e.items| == 4 || |e.items| == 5) && Ok(r.value.p) == RowPoint(e.items, parse)
    ensures e.List? && e.items != [] && e.items[0].Atom? && |e.items| != 4 && |e.items| != 5 ==>
      r == Err(AssertionError)
  {
    match e
    case Atom(t) => if t == "" then Err(IndexError) else Ok(Marker)
    case List(row) =>
      if row == [] then Err(IndexError)
      else if row[0].List? then Ok(Fork)
      else if |row| != 4 && |row| != 5 then Err(AssertionError)
      else if |row| == 5 && Empty(row[4]) then Err(IndexError)
      else
        match RowPoint(row, parse)
        case Err(err) => Err(err)
        case Ok(p) => Ok(PointRow(p))
  }

  /** The points found ahead of the rows already walked, and one more row walked. */
  function Walked(r: Result<(seq<Point>, nat)>, ps: seq<Point>): Result<(seq<Point>, nat)>
  {
    match r
    case Err(e) => Err(e)
    case Ok((q, n)) => Ok((ps + q, n + 1))
  }

  /**
   * _extract_section_points: the points of the rows before the first furcation, with the
   * number of rows walked to get there (markers included), or the first row's error.
   */
  function PointsOf(rows: seq<SExp>, parse: string -> Option<real>): (r: Result<(seq<Point>, nat)>)
    ensures r.Ok? ==> |r.value.0| <= r.value.1 <= |rows|
  {
    if rows == [] then Ok(([], 0))
    else
      match RowStep(rows[0], parse)
      case Err(e) => Err(e)
      case Ok(Fork) => Ok(([], 0))
      case Ok(Marker) => Walked(PointsOf(rows[1..], parse), [])
      case Ok(PointRow(p)) => Walked(PointsOf(rows[1..], parse), [p])
  }

  /** The loop stops at the row after the walked ones, which is a furcation, or at the end. */
  lemma {:induction false} PointsStop(rows: seq<SExp>, parse: string -> Option<real>)
    requires PointsOf(rows, parse).Ok?
    ensures var (pts, walked) := PointsOf(rows, parse).value;
      (walked == |rows| || RowStep(rows[walked], parse) == Ok(Fork)) &&
      (forall j :: 0 <= j < walked ==> RowStep(rows[j], parse).Ok? && RowStep(rows[j], parse).value != Fork) &&
      |pts| + Markers(rows, walked, parse) == walked
  {
    if rows != [] && RowStep(rows[0], parse) != Ok(Fork) {
      PointsStop(rows[1..], parse);
      var walked := PointsOf(rows, parse).value.1;
      assert forall j :: 1 <= j < |rows| ==> rows[j] == rows[1..][j - 1];
      MarkersShift(rows, walked, parse);
    }
  }

  /** The number of block-marker rows among the first n. */
  function Markers(rows: seq<SExp>, n: nat, parse: string -> Option<real>): nat
    requires n <= |rows|
  {
    if n == 0 then 0 else Markers(rows, n - 1, parse) + (if RowStep(rows[n - 1], parse) == Ok(Marker) then 1 else 0)
  }

  lemma {:induction false} MarkersShift(rows: seq<SExp>, n: nat, parse: string -> Option<real>)
    requires 1 <= n <= |rows|
    ensures Markers(rows, n, parse) == (if RowStep(rows[0], parse) == Ok(Marker) then 1 else 0) + Markers(rows[1..], n - 1, parse)
  {
    if n > 1 {
      MarkersShift(rows, n - 1, parse);
      assert rows[n - 1] == rows[1..][n - 2];
    }
  }

  /** The points found so far, before the rows still to walk. */
  function Shifted(r: Result<(seq<Point>, nat)>, ps: seq<Point>, n: nat): Result<(seq<Point>, nat)>
  {
    match r
    case Err(e) => Err(e)
    case Ok((q, m)) => Ok((ps + q, m + n))
  }

  method ExtractSectionPoints(section: seq<SExp>, parse: string -> Option<real>) returns (r: Result<(seq<Point>, nat)>)
    ensures r == PointsOf(section, parse)
  {
    var ret: seq<Point> := [];
    var i := 0;
    assert section[0..] == section;
    if PointsOf(section, parse).Ok? {
      assert [] + PointsOf(section, parse).value.0 == PointsOf(section, parse).value.0;
    }
    while i < |section|
      invariant i <= |section|
      invariant PointsOf(section, parse) == Shifted(PointsOf(section[i..], parse), ret, i)
    {
      assert section[i..][1..] == section[i + 1..];
      var step := RowStep(section[i], parse);
      if step.Err? {
        return Err(step.error);
      }
      match step.value {
        case Fork =>
          assert ret + [] == ret;
          return Ok((ret, i));
        case Marker =>
          assert forall q: seq<Point> :: ret + ([] + q) == ret + q;
        case PointRow(p) =>
          assert forall q: seq<Point> :: ret + ([p] + q) == ret + [p] + q;
          ret := ret + [p];
      }
      i := i + 1;
    }
    assert ret + [] == ret;
    return Ok((ret, i));
  }

  // ---------------------------------------------------------------------------------------------
  // read_subsection, on values

  /** The number of atoms and lists in an s-expression: read_subsection recurses on smaller ones. */
  function Size(e: SExp): nat
  {
    match e
    case Atom(_) => 1
    case List(xs) => 1 + SizeAll(xs)
  }

  function SizeAll(xs: seq<SExp>): nat
  {
    if xs == [] then 0 else Size(xs[0]) + SizeAll(xs[1..])
  }

  lemma {:induction false} SizeAllConcat(a: seq<SExp>, b: seq<SExp>)
    ensures SizeAll(a + b) == SizeAll(a) + SizeAll(b)
  {
    if a == [] {
      assert a + b == b;
    } else {
      assert (a + b)[1..] == a[1..] + b;
      SizeAllConcat(a[1..], b);
    }
  }

  /** A slice of the rows is no larger than the rows. */
  lemma SizeSlice(xs: seq<SExp>, lo: nat, hi: nat)
    requires lo <= hi <= |xs|
    ensures SizeAll(xs[lo..hi]) <= SizeAll(xs)
  {
    assert xs == xs[..lo] + xs[lo..hi] + xs[hi..];
    SizeAllConcat(xs[..lo] + xs[lo..hi], xs[hi..]);
    SizeAllConcat(xs[..lo], xs[lo..hi]);
  }

  /** The inside of a row that is a list is smaller than the rows. */
  lemma SizeInner(xs: seq<SExp>, j: nat)
    requires j < |xs| && xs[j].List?
    ensures SizeAll(xs[j].items) < SizeAll(xs)
  {
    assert xs == xs[..j] + [xs[j]] + xs[j + 1..];
    SizeAllConcat(xs[..j] + [xs[j]], xs[j + 1..]);
    SizeAllConcat(xs[..j], [xs[j]]);
    assert SizeAll([xs[j]]) == Size(xs[j]) + SizeAll([xs[j]][1..]);
  }

  /**
   * Where read_subsection looks for the furcation: as written, after as many rows as points
   * were extracted; AfterRows, after the rows the extraction walked.
   */
  datatype RestFrom = AfterPoints | AfterRows

  /** A call to add_section: the section id, and its parent id, POINT_TYPE and points. */
  datatype Entry = Entry(id: int, section: BlockSection)

  /** The sections read_subsection adds, in order, and the id it returns as the next free one. */
  datatype Added = Added(entries: seq<Entry>, next: int)

  function LastPoint(ps: seq<Point>): Point
    requires ps != []
  {
    ps[|ps| - 1]
  }

  /**
   * read_subsection: the section made of the parent point (when given) and the extracted
   * points, then, when the rows after it start with a list, one subtree per non-empty
   * furcation slice of that list, each starting at this section's last point. vstack of a
   * parent point and no points raises ValueError; a furcation after a section without points
   * raises IndexError on points[-1].
   */
  function Subsection(rule: RestFrom, id: int, parentId: int, stype: int, sub: seq<SExp>,
                      parentPoint: Option<Point>, parse: string -> Option<real>): (r: Result<Added>)
    decreases SizeAll(sub), 1
  {
    match PointsOf(sub, parse)
    case Err(e) => Err(e)
    case Ok((pts, walked)) =>
      if parentPoint.Some? && pts == [] then Err(ValueError)
      else
        var points := (if parentPoint.Some? then [parentPoint.value] else []) + pts;
        var me := Entry(id, BlockSection(parentId, stype, points));
        var from := if rule == AfterPoints then |pts| else walked;
        if from == |sub| || sub[from].Atom? then Ok(Added([me], id + 1))
        else if points == [] then Err(IndexError)
        else
          var xs := sub[from].items;
          SizeInner(sub, from);
          var fs := Furcations(xs);
          match Children(rule, id + 1, id, stype, xs, fs, |fs|, LastPoint(points), parse)
          case Err(e) => Err(e)
          case Ok(kids) => Ok(Added([me] + kids.entries, kids.next))
  }

  /** The points that begin a section: the parent point, when given, then the extracted ones. */
  function Begin(parentPoint: Option<Point>, pts: seq<Point>): seq<Point>
  {
    (if parentPoint.Some? then [parentPoint.value] else []) + pts
  }

  /** Subsection when the rows after the section start with a list: its subtrees follow it. */
  lemma SubsectionFork(rule: RestFrom, id: int, parentId: int, stype: int, sub: seq<SExp>,
                       parentPoint: Option<Point>, parse: string -> Option<real>, pts: seq<Point>, walked: nat, from: nat)
    requires PointsOf(sub, parse) == Ok((pts, walked)) && !(parentPoint.Some? && pts == [])
    requires from == (if rule == AfterPoints then |pts| else walked)
    requires from < |sub| && sub[from].List? && Begin(parentPoint, pts) != []
    ensures SizeAll(sub[from].items) < SizeAll(sub)
    ensures Subsection(rule, id, parentId, stype, sub, parentPoint, parse) ==
      var xs := sub[from].items;
      match Children(rule, id + 1, id, stype, xs, Furcations(xs), |Furcations(xs)|, LastPoint(Begin(parentPoint, pts)), parse)
      case Err(e) => Err(e)
      case Ok(kids) => Ok(Added([Entry(id, BlockSection(parentId, stype, Begin(parentPoint, pts)))] + kids.entries, kids.next))
  {
    SizeInner(sub, from);
  }

  /** Subsection when no list follows the section, or the extraction or vstack raises. */
  lemma SubsectionEnd(rule: RestFrom, id: int, parentId: int, stype: int, sub: seq<SExp>,
                      parentPoint: Option<Point>, parse: string -> Option<real>)
    ensures var S := Subsection(rule, id, parentId, stype, sub, parentPoint, parse);
      (PointsOf(sub, parse).Err? ==> S == Err(PointsOf(sub, parse).error)) &&
      (PointsOf(sub, parse).Ok? ==>
        var (pts, walked) := PointsOf(sub, parse).value;
        var from := if rule == AfterPoints then |pts| else walked;
        (parentPoint.Some? && pts == [] ==> S == Err(ValueError)) &&
        (!(parentPoint.Some? && pts == []) && (from == |sub| || sub[from].Atom?) ==>
          S == Ok(Added([Entry(id, BlockSection(parentId, stype, Begin(parentPoint, pts)))], id + 1))) &&
        (!(parentPoint.Some? && pts == []) && from < |sub| && sub[from].List? && Begin(parentPoint, pts) == [] ==>
          S == Err(IndexError)))
  {
  }

  /** The loop over the first k furcation slices, skipping empty ones, numbering from `next`. */
  function Children(rule: RestFrom, next: int, parentId: int, stype: int, xs: seq<SExp>, fs: seq<(nat, nat)>,
                    k: nat, pp: Point, parse: string -> Option<real>): (r: Result<Added>)
    requires k <= |fs| && Slices(fs, |xs|)
    decreases SizeAll(xs), 2, k
  {
    if k == 0 then Ok(Added([], next))
    else
      match Children(rule, next, parentId, stype, xs, fs, k - 1, pp, parse)
      case Err(e) => Err(e)
      case Ok(done) =>
        var piece := xs[fs[k - 1].0..fs[k - 1].1];
        if piece == [] then Ok(done)
        else
          SizeSlice(xs, fs[k - 1].0, fs[k - 1].1);
          match Subsection(rule, done.next, parentId, stype, piece, Some(pp), parse)
          case Err(e) => Err(e)
          case Ok(s) => Ok(Added(done.entries + s.entries, s.next))
  }

  /** The entries carry the ids first, first + 1, ..., and next is the id after them. */
  predicate Numbered(a: Added, first: int)
  {
    a.next == first + |a.entries| && forall j :: 0 <= j < |a.entries| ==> a.entries[j].id == first + j
  }

  predicate OfType(es: seq<Entry>, stype: int)
  {
    forall j :: 0 <= j < |es| ==> es[j].section.sectionType == stype
  }

  /** Entry j hangs from the given parent and starts at the given point, with a point of its own after it. */
  predicate StartsAt(es: seq<Entry>, j: nat, parentId: int, pp: Point)
    requires j < |es|
  {
    var s := es[j].section;
    s.parentId == parentId && |s.points| >= 2 && s.points[0] == pp
  }

  /** Entry j hangs from an earlier entry, numbered from `first`, and starts at that entry's last point. */
  predicate FromEarlier(es: seq<Entry>, first: int, j: nat)
    requires j < |es|
  {
    var p := es[j].section.parentId - first;
    0 <= p < j && es[p].section.points != [] && StartsAt(es, j, es[j].section.parentId, LastPoint(es[p].section.points))
  }

  /**
   * The tree read_subsection builds: consecutive ids from `id`, all of one type, the first
   * section hanging from parentId (and starting at the parent point when there is one), and
   * every later section a child of an earlier one, starting at its parent's last point.
   */
  lemma {:induction false} SubsectionTree(rule: RestFrom, id: int, parentId: int, stype: int, sub: seq<SExp>,
                                           parentPoint: Option<Point>, parse: string -> Option<real>)
    requires Subsection(rule, id, parentId, stype, sub, parentPoint, parse).Ok?
    ensures var a := Subsection(rule, id, parentId, stype, sub, parentPoint, parse).value;
      |a.entries| >= 1 && Numbered(a, id) && OfType(a.entries, stype) &&
      a.entries[0].section.parentId == parentId &&
      (parentPoint.Some? ==> StartsAt(a.entries, 0, parentId, parentPoint.value)) &&
      forall j :: 0 < j < |a.entries| ==> FromEarlier(a.entries, id, j)
    decreases SizeAll(sub), 1
  {
    var (pts, walked) := PointsOf(sub, parse).value;
    var points := (if parentPoint.Some? then [parentPoint.value] else []) + pts;
    var me := Entry(id, BlockSection(parentId, stype, points));
    var from := if rule == AfterPoints then |pts| else walked;
    if !(from == |sub| || sub[from].Atom?) {
      var xs := sub[from].items;
      SizeInner(sub, from);
      var fs := Furcations(xs);
      ChildrenTree(rule, id + 1, id, stype, xs, fs, |fs|, LastPoint(points), parse);
      var kids := Children(rule, id + 1, id, stype, xs, fs, |fs|, LastPoint(points), parse).value;
      PrependTree(me, kids, stype);
    }
  }

  /** A section followed by the subtrees hanging from it, each starting at its last point. */
  lemma PrependTree(me: Entry, kids: Added, stype: int)
    requires me.section.points != [] && me.section.sectionType == stype
    requires Numbered(kids, me.id + 1) && OfType(kids.entries, stype)
    requires forall j :: 0 <= j < |kids.entries| ==>
      StartsAt(kids.entries, j, me.id, LastPoint(me.section.points)) || FromEarlier(kids.entries, me.id + 1, j)
    ensures var es := [me] + kids.entries;
      Numbered(Added(es, kids.next), me.id) && OfType(es, stype) &&
      forall j :: 0 < j < |es| ==> FromEarlier(es, me.id, j)
  {
    var es := [me] + kids.entries;
    forall j | 0 < j < |es|
      ensures FromEarlier(es, me.id, j)
    {
      assert es[j] == kids.entries[j - 1];
      if !StartsAt(kids.entries, j - 1, me.id, LastPoint(me.section.points)) {
        assert FromEarlier(kids.entries, me.id + 1, j - 1);
        var p := kids.entries[j - 1].section.parentId - (me.id + 1);
        assert es[p + 1] == kids.entries[p];
      }
    }
  }

  /**
   * The subtrees of the first k slices: consecutive ids from `next`, all of one type, each
   * section either the first of a subtree (hanging from parentId at the point pp) or a child
   * of an earlier section.
   */
  lemma {:induction false} ChildrenTree(rule: RestFrom, next: int, parentId: int, stype: int, xs: seq<SExp>,
                                         fs: seq<(nat, nat)>, k: nat, pp: Point, parse: string -> Option<real>)
    requires k <= |fs| && Slices(fs, |xs|)
    requires Children(rule, next, parentId, stype, xs, fs, k, pp, parse).Ok?
    ensures var a := Children(rule, next, parentId, stype, xs, fs, k, pp, parse).value;
      Numbered(a, next) && OfType(a.entries, stype) &&
      forall j :: 0 <= j < |a.entries| ==> StartsAt(a.entries, j, parentId, pp) || FromEarlier(a.entries, next, j)
    decreases SizeAll(xs), 2, k
  {
    if k > 0 {
      ChildrenTree(rule, next, parentId, stype, xs, fs, k - 1, pp, parse);
      var done := Children(rule, next, parentId, stype, xs, fs, k - 1, pp, parse).value;
      var piece := xs[fs[k - 1].0..fs[k - 1].1];
      if piece != [] {
        SizeSlice(xs, fs[k - 1].0, fs[k - 1].1);
        SubsectionTree(rule, done.next, parentId, stype, piece, Some(pp), parse);
        var s := Subsection(rule, done.next, parentId, stype, piece, Some(pp), parse).value;
        AppendTree(done, s, next, parentId, stype, pp);
      }
    }
  }

  /** A subtree appended after earlier ones keeps the numbering and the links. */
  lemma AppendTree(done: Added, s: Added, next: int, parentId: int, stype: int, pp: Point)
    requires Numbered(done, next) && OfType(done.entries, stype)
    requires forall j :: 0 <= j < |done.entries| ==> StartsAt(done.entries, j, parentId, pp) || FromEarlier(done.entries, next, j)
    requires |s.entries| >= 1 && Numbered(s, done.next) && OfType(s.entries, stype)
    requires StartsAt(s.entries, 0, parentId, pp)
    requires forall j :: 0 < j < |s.entries| ==> FromEarlier(s.entries, done.next, j)
    ensures var es := done.entries + s.entries;
      Numbered(Added(es, s.next), next) && OfType(es, stype) &&
      forall j :: 0 <= j < |es| ==> StartsAt(es, j, parentId, pp) || FromEarlier(es, next, j)
  {
    var es := done.entries + s.entries;
    var n := |done.entries|;
    forall j | 0 <= j < |es|
      ensures StartsAt(es, j, parentId, pp) || FromEarlier(es, next, j)
    {
      if j < n {
        assert es[j] == done.entries[j];
        if !StartsAt(done.entries, j, parentId, pp) {
          assert FromEarlier(done.entries, next, j);
          var p := done.entries[j].section.parentId - next;
          assert es[p] == done.entries[p];
        }
      } else {
        assert es[j] == s.entries[j - n];
        if j > n {
          assert FromEarlier(s.entries, done.next, j - n);
          var p := s.entries[j - n].section.parentId - done.next;
          assert es[p + n] == s.entries[p];
        }
      }
    }
  }

  /** Once the loop over slices raises, it ends with that error. */
  lemma {:induction false} ChildrenErrStays(rule: RestFrom, next: int, parentId: int, stype: int, xs: seq<SExp>,
                                             fs: seq<(nat, nat)>, k: nat, n: nat, pp: Point, parse: string -> Option<real>)
    requires k <= n <= |fs| && Slices(fs, |xs|)
    requires Children(rule, next, parentId, stype, xs, fs, k, pp, parse).Err?
    ensures Children(rule, next, parentId, stype, xs, fs, n, pp, parse) == Children(rule, next, parentId, stype, xs, fs, k, pp, parse)
    decreases n - k
  {
    if k < n {
      ChildrenErrStays(rule, next, parentId, stype, xs, fs, k + 1, n, pp, parse);
    }
  }

  // ---------------------------------------------------------------------------------------------
  // read_subsection on the builder

  /** The builder's dictionary after add_section was called for each entry in turn. */
  function AddAll(m: map<int, BlockSection>, es: seq<Entry>): map<int, BlockSection>
  {
    if es == [] then m else AddAll(m, es[..|es| - 1])[es[|es| - 1].id := es[|es| - 1].section]
  }

  function EntryIds(es: seq<Entry>): (r: seq<int>)
    ensures |r| == |es| && forall j :: 0 <= j < |es| ==> r[j] == es[j].id
  {
    seq(|es|, j requires 0 <= j < |es| => es[j].id)
  }

  lemma {:induction false} AddAllConcat(m: map<int, BlockSection>, a: seq<Entry>, b: seq<Entry>)
    ensures AddAll(m, a + b) == AddAll(AddAll(m, a), b)
    ensures EntryIds(a + b) == EntryIds(a) + EntryIds(b)
    decreases |b|
  {
    if b == [] {
      assert a + b == a;
    } else {
      assert (a + b)[..|a + b| - 1] == a + b[..|b| - 1];
      AddAllConcat(m, a, b[..|b| - 1]);
    }
  }

  /** Every id in use is below `id`. */
  predicate Below(secs: map<int, BlockSection>, id: int)
  {
    forall k :: k in secs ==> k < id
  }

  lemma {:induction false} AddAllBelow(m: map<int, BlockSection>, es: seq<Entry>, next: int)
    requires Below(m, next) && forall j :: 0 <= j < |es| ==> es[j].id < next
    ensures Below(AddAll(m, es), next)
    decreases |es|
  {
    if es != [] {
      AddAllBelow(m, es[..|es| - 1], next);
    }
  }

  /**
   * The builder went from (m0, o0) to (m1, o1) and returned r as the specification result
   * spec says: the same exception, or every entry added in order and the next free id returned.
   */
  predicate Applied(spec: Result<Added>, r: Result<int>, m0: map<int, BlockSection>, o0: seq<int>,
                    m1: map<int, BlockSection>, o1: seq<int>)
  {
    (r.Err? <==> spec.Err?) && (r.Err? ==> r.error == spec.error) &&
    (r.Ok? ==> r.value == spec.value.next && Below(m1, r.value) &&
               m1 == AddAll(m0, spec.value.entries) && o1 == o0 + EntryIds(spec.value.entries))
  }

  /** Adding the section itself and then its subtrees applies the section followed by the subtrees. */
  lemma ForkApplied(me: Entry, kids: Result<Added>, r: Result<int>, m0: map<int, BlockSection>, o0: seq<int>,
                    m1: map<int, BlockSection>, o1: seq<int>)
    requires Applied(kids, r, m0[me.id := me.section], o0 + [me.id], m1, o1)
    ensures Applied(match kids
                    case Err(e) => Err(e)
                    case Ok(k) => Ok(Added([me] + k.entries, k.next)), r, m0, o0, m1, o1)
  {
    if kids.Ok? {
      assert [me][..0] == [];
      assert AddAll(m0, [me]) == m0[me.id := me.section];
      assert EntryIds([me]) == [me.id];
      AddAllConcat(m0, [me], kids.value.entries);
    }
  }

  /** What one slice adds: nothing for an empty piece, otherwise the subtree it holds. */
  function Piece(rule: RestFrom, next: int, parentId: int, stype: int, piece: seq<SExp>, pp: Point,
                 parse: string -> Option<real>): Result<Added>
  {
    if piece == [] then Ok(Added([], next)) else Subsection(rule, next, parentId, stype, piece, Some(pp), parse)
  }

  /** One more slice of the loop appends what its piece adds. */
  lemma ChildrenStep(rule: RestFrom, next: int, parentId: int, stype: int, xs: seq<SExp>, fs: seq<(nat, nat)>,
                     k: nat, pp: Point, parse: string -> Option<real>, done: Added)
    requires k < |fs| && Slices(fs, |xs|)
    requires Children(rule, next, parentId, stype, xs, fs, k, pp, parse) == Ok(done)
    ensures var piece := xs[fs[k].0..fs[k].1];
      SizeAll(piece) <= SizeAll(xs) &&
      Children(rule, next, parentId, stype, xs, fs, k + 1, pp, parse) ==
        match Piece(rule, done.next, parentId, stype, piece, pp, parse)
        case Err(e) => Err(e)
        case Ok(s) => Ok(Added(done.entries + s.entries, s.next))
  {
    SizeSlice(xs, fs[k].0, fs[k].1);
    assert done.entries + [] == done.entries;
  }

  /** Applying the entries so far and then one subtree applies their concatenation. */
  lemma ThenApplied(done: Added, s: Result<Added>, r: Result<int>, m0: map<int, BlockSection>, o0: seq<int>,
                    m: map<int, BlockSection>, o: seq<int>, m1: map<int, BlockSection>, o1: seq<int>)
    requires Applied(Ok(done), Ok(done.next), m0, o0, m, o) && Applied(s, r, m, o, m1, o1)
    ensures Applied(match s
                    case Err(e) => Err(e)
                    case Ok(x) => Ok(Added(done.entries + x.entries, x.next)), r, m0, o0, m1, o1)
  {
    if s.Ok? {
      var x := s.value;
      AddAllConcat(m0, done.entries, x.entries);
      assert m == AddAll(m0, done.entries) && o == o0 + EntryIds(done.entries);
      assert r.Ok? ==> m1 == AddAll(m, x.entries) && o1 == o + EntryIds(x.entries);
      assert o0 + EntryIds(done.entries) + EntryIds(x.entries) == o0 + (EntryIds(done.entries) + EntryIds(x.entries));
    }
  }

  /**
   * read_subsection: the sections of Subsection(rule, ...) are added to the builder in order
   * and the next free id is returned, or the same exception is raised. With AfterPoints this
   * is the code as written; with AfterRows the furcation is looked for after the rows walked.
   */
  method ReadSubsection(rule: RestFrom, builder: BlockNeuronBuilder, id: int, parentId: int, stype: int, sub: seq<SExp>,
                        parentPoint: Option<Point>, parse: string -> Option<real>) returns (r: Result<int>)
    requires builder.Valid() && Below(builder.sections, id)
    modifies builder
    ensures builder.Valid()
    ensures Applied(Subsection(rule, id, parentId, stype, sub, parentPoint, parse), r,
                    old(builder.sections), old(builder.order), builder.sections, builder.order)
    decreases SizeAll(sub), 1, 1
  {
    SubsectionEnd(rule, id, parentId, stype, sub, parentPoint, parse);
    var extracted := ExtractSectionPoints(sub, parse);
    if extracted.Err? {
      return Err(extracted.error);
    }
    var (pts, walked) := extracted.value;
    if parentPoint.Some? && pts == [] {
      return Err(ValueError);
    }
    r := AddSubsection(rule, builder, id, parentId, stype, sub, parentPoint, parse, pts, walked);
  }

  /**
   * The rest of read_subsection once the points are extracted: the section is added, then
   * the furcation after it, if any, is read.
   */
  method AddSubsection(rule: RestFrom, builder: BlockNeuronBuilder, id: int, parentId: int, stype: int, sub: seq<SExp>,
                       parentPoint: Option<Point>, parse: string -> Option<real>, pts: seq<Point>, walked: nat)
    returns (r: Result<int>)
    requires builder.Valid() && Below(builder.sections, id)
    requires PointsOf(sub, parse) == Ok((pts, walked)) && !(parentPoint.Some? && pts == [])
    modifies builder
    ensures builder.Valid()
    ensures Applied(Subsection(rule, id, parentId, stype, sub, parentPoint, parse), r,
                    old(builder.sections), old(builder.order), builder.sections, builder.order)
    decreases SizeAll(sub), 1, 0
  {
    SubsectionEnd(rule, id, parentId, stype, sub, parentPoint, parse);
    var points := (if parentPoint.Some? then [parentPoint.value] else []) + pts;
    assert points == Begin(parentPoint, pts);
    var added := builder.AddSection(id, parentId, stype, points);
    var used := if rule == AfterPoints then |pts| else walked;
    if used == |sub| || sub[used].Atom? {
      ForkApplied(Entry(id, BlockSection(parentId, stype, points)), Ok(Added([], id + 1)), Ok(id + 1),
                  old(builder.sections), old(builder.order), builder.sections, builder.order);
      return Ok(id + 1);
    }
    if points == [] {
      return Err(IndexError);
    }
    SubsectionFork(rule, id, parentId, stype, sub, parentPoint, parse, pts, walked, used);
    r := ReadChildren(rule, builder, id + 1, id, stype, sub[used].items, points[|points| - 1], parse);
    ForkApplied(Entry(id, BlockSection(parentId, stype, points)),
                Children(rule, id + 1, id, stype, sub[used].items, Furcations(sub[used].items),
                         |Furcations(sub[used].items)|, points[|points| - 1], parse),
                r, old(builder.sections), old(builder.order), builder.sections, builder.order);
  }

  /** The loop of read_subsection over the furcation slices of `rest`, skipping the empty ones. */
  method ReadChildren(rule: RestFrom, builder: BlockNeuronBuilder, first: int, parentId: int, stype: int, rest: seq<SExp>,
                      pp: Point, parse: string -> Option<real>) returns (r: Result<int>)
    requires builder.Valid() && Below(builder.sections, first)
    modifies builder
    ensures builder.Valid()
    ensures Applied(Children(rule, first, parentId, stype, rest, Furcations(rest), |Furcations(rest)|, pp, parse),
                    r, old(builder.sections), old(builder.order), builder.sections, builder.order)
    decreases SizeAll(rest), 3
  {
    var furcations := FindFurcations(rest);
    r := ReadSlices(rule, builder, first, parentId, stype, rest, furcations, pp, parse);
  }

  /** The slices `fs` of `rest` read in turn onto the builder, stopping at the first exception. */
  method ReadSlices(rule: RestFrom, builder: BlockNeuronBuilder, first: int, parentId: int, stype: int, rest: seq<SExp>,
                    fs: seq<(nat, nat)>, pp: Point, parse: string -> Option<real>) returns (r: Result<int>)
    requires Slices(fs, |rest|) && builder.Valid() && Below(builder.sections, first)
    modifies builder
    ensures builder.Valid()
    ensures Applied(Children(rule, first, parentId, stype, rest, fs, |fs|, pp, parse),
                    r, old(builder.sections), old(builder.order), builder.sections, builder.order)
    decreases SizeAll(rest), 2
  {
    var next := first;
    ghost var done := Added([], first);
    ghost var m0, o0 := builder.sections, builder.order;
    assert o0 + [] == o0;
    var k := 0;
    while k < |fs|
      invariant 0 <= k <= |fs|
      invariant Children(rule, first, parentId, stype, rest, fs, k, pp, parse) == Ok(done)
      invariant Applied(Ok(done), Ok(next), m0, o0, builder.sections, builder.order)
      invariant builder.Valid()
    {
      var n;
      ghost var after;
      n, after := ReadChild(rule, builder, first, parentId, stype, rest, fs, k, pp, parse, done, next, m0, o0);
      if n.Err? {
        ChildrenErrStays(rule, first, parentId, stype, rest, fs, k + 1, |fs|, pp, parse);
        return Err(n.error);
      }
      done := after.value;
      next := n.value;
      k := k + 1;
    }
    return Ok(next);
  }

  /**
   * One turn of that loop: the k-th slice is read onto the builder, which then holds what the
   * first k + 1 slices add to the dictionary m0 and key order o0 the loop started from.
   */
  method ReadChild(rule: RestFrom, builder: BlockNeuronBuilder, first: int, parentId: int, stype: int, rest: seq<SExp>,
                   fs: seq<(nat, nat)>, k: nat, pp: Point, parse: string -> Option<real>, ghost done: Added, next: int,
                   ghost m0: map<int, BlockSection>, ghost o0: seq<int>) returns (n: Result<int>, ghost after: Result<Added>)
    requires k < |fs| && Slices(fs, |rest|) && builder.Valid()
    requires Children(rule, first, parentId, stype, rest, fs, k, pp, parse) == Ok(done)
    requires Applied(Ok(done), Ok(next), m0, o0, builder.sections, builder.order)
    modifies builder
    ensures builder.Valid()
    ensures after == Children(rule, first, parentId, stype, rest, fs, k + 1, pp, parse)
    ensures Applied(after, n, m0, o0, builder.sections, builder.order)
    decreases SizeAll(rest), 1, 3
  {
    ChildrenStep(rule, first, parentId, stype, rest, fs, k, pp, parse, done);
    ghost var m, o := builder.sections, builder.order;
    var piece := rest[fs[k].0..fs[k].1];
    n := ReadPiece(rule, builder, next, parentId, stype, piece, pp, parse);
    ghost var s := Piece(rule, next, parentId, stype, piece, pp, parse);
    ThenApplied(done, s, n, m0, o0, m, o, builder.sections, builder.order);
    after := match s
             case Err(e) => Err(e)
             case Ok(x) => Ok(Added(done.entries + x.entries, x.next));
  }

  /** The body of that loop for one slice: an empty piece is skipped, any other is read as a subtree. */
  method ReadPiece(rule: RestFrom, builder: BlockNeuronBuilder, next: int, parentId: int, stype: int, piece: seq<SExp>,
                   pp: Point, parse: string -> Option<real>) returns (r: Result<int>)
    requires builder.Valid() && Below(builder.sections, next)
    modifies builder
    ensures builder.Valid()
    ensures Applied(Piece(rule, next, parentId, stype, piece, pp, parse), r,
                    old(builder.sections), old(builder.order), builder.sections, builder.order)
    decreases SizeAll(piece), 1, 2
  {
    if piece == [] {
      assert builder.order + [] == builder.order;
      return Ok(next);
    }
    r := ReadSubsection(rule, builder, next, parentId, stype, piece, Some(pp), parse);
  }

  // ---------------------------------------------------------------------------------------------
  // read

  /** The types WANTED_SECTIONS maps to. */
  predicate WantedType(t: int)
  {
    t == SOMA || t == AXON || t == BASAL_DENDRITE || t == APICAL_DENDRITE
  }

  /** WANTED_SECTIONS.get(name, None). */
  function Wanted(name: string): Option<int>
  {
    if name in WANTED_SECTIONS then Some(WANTED_SECTIONS[name]) else None
  }

  /**
   * WANTED_SECTIONS.get(e[0], None): indexing an empty token or list raises IndexError, a list
   * heading a list cannot be a key (TypeError); the first character of a token, a string of
   * length one, never names a section.
   */
  function TypeOf(e: SExp): (r: Result<Option<int>>)
    ensures r.Err? <==> (e.Atom? && e.token == "") || (e.List? && (e.items == [] || e.items[0].List?))
    ensures r.Err? ==> r.error == (if e.List? && e.items != [] then TypeError else IndexError)
    ensures r.Ok? && r.value.Some? <==> e.List? && e.items != [] && e.items[0].Atom? && e.items[0].token in WANTED_SECTIONS
    ensures r.Ok? && r.value.Some? ==> r.value.value == WANTED_SECTIONS[e.items[0].token] && WantedType(r.value.value)
  {
    match e
    case Atom(t) =>
      if t == "" then Err(IndexError)
      else
        assert |[t[0]]| == 1;
        Ok(Wanted([t[0]]))
    case List(items) =>
      if items == [] then Err(IndexError)
      else match items[0]
        case List(_) => Err(TypeError)
        case Atom(t) => Ok(Wanted(t))
  }

  /**
   * The type of a top-level section and where its content starts: from section[0] at 1, else
   * from section[1] at 2 (a CellBody's quoted name comes first), else the section is skipped.
   */
  function SectionKind(section: seq<SExp>): (r: Result<Option<(int, nat)>>)
    ensures r.Ok? && r.value.Some? ==>
      WantedType(r.value.value.0) && 1 <= r.value.value.1 <= 2 && r.value.value.1 <= |section| &&
      TypeOf(section[r.value.value.1 - 1]) == Ok(Some(r.value.value.0)) &&
      (r.value.value.1 == 2 ==> TypeOf(section[0]) == Ok(None))
    ensures r == Ok(None) <==> |section| >= 2 && TypeOf(section[0]) == Ok(None) && TypeOf(section[1]) == Ok(None)
    ensures r.Err? <==> section == [] || TypeOf(section[0]).Err? ||
                        (TypeOf(section[0]) == Ok(None) && (|section| < 2 || TypeOf(section[1]).Err?))
  {
    if section == [] then Err(IndexError)
    else match TypeOf(section[0])
      case Err(e) => Err(e)
      case Ok(Some(t)) => Ok(Some((t, 1)))
      case Ok(None) =>
        if |section| < 2 then Err(IndexError)
        else match TypeOf(section[1])
          case Err(e) => Err(e)
          case Ok(Some(t)) => Ok(Some((t, 2)))
          case Ok(None) => Ok(None)
  }

  /**
   * What one top-level section adds from id `next`: nothing when it is skipped, otherwise its
   * tree, the soma hanging from ROOT_ID and a neurite from id 0, with no parent point.
   */
  function TopPiece(rule: RestFrom, next: int, section: seq<SExp>, parse: string -> Option<real>): Result<Added>
  {
    match SectionKind(section)
    case Err(e) => Err(e)
    case Ok(None) => Ok(Added([], next))
    case Ok(Some((t, start))) =>
      Subsection(rule, next, if t == SOMA then ROOT_ID else 0, t, section[start..], None, parse)
  }

  /** The loop of read over the first k top-level sections, ids counting from 0. */
  function ReadSections(rule: RestFrom, sections: seq<seq<SExp>>, k: nat, parse: string -> Option<real>): Result<Added>
    requires k <= |sections|
  {
    if k == 0 then Ok(Added([], 0))
    else
      match ReadSections(rule, sections, k - 1, parse)
      case Err(e) => Err(e)
      case Ok(done) =>
        match TopPiece(rule, done.next, sections[k - 1], parse)
        case Err(e) => Err(e)
        case Ok(s) => Ok(Added(done.entries + s.entries, s.next))
  }

  /** A section that starts a tree of the file: the soma hangs from ROOT_ID, a neurite from id 0. */
  predicate Root(es: seq<Entry>, j: nat)
    requires j < |es|
  {
    es[j].section.parentId == (if es[j].section.sectionType == SOMA then ROOT_ID else 0)
  }

  /** The sections read from a file, numbered from `first`: each a root or a child of an earlier one. */
  predicate Forest(a: Added, first: int)
  {
    Numbered(a, first) &&
    (forall j :: 0 <= j < |a.entries| ==> WantedType(a.entries[j].section.sectionType)) &&
    (forall j :: 0 <= j < |a.entries| ==> Root(a.entries, j) || FromEarlier(a.entries, first, j))
  }

  lemma TopPieceForest(rule: RestFrom, next: int, section: seq<SExp>, parse: string -> Option<real>)
    requires TopPiece(rule, next, section, parse).Ok?
    ensures Forest(TopPiece(rule, next, section, parse).value, next)
  {
    var kind := SectionKind(section).value;
    if kind.Some? {
      var (t, start) := kind.value;
      var sub := section[start..];
      SubsectionTree(rule, next, if t == SOMA then ROOT_ID else 0, t, sub, None, parse);
    }
  }

  /** Appending a forest numbered after an earlier one keeps every link. */
  lemma AppendForest(done: Added, s: Added)
    requires Forest(done, 0) && Forest(s, done.next)
    ensures Forest(Added(done.entries + s.entries, s.next), 0)
  {
    var es := done.entries + s.entries;
    var n := |done.entries|;
    forall j | 0 <= j < |es|
      ensures WantedType(es[j].section.sectionType) && (Root(es, j) || FromEarlier(es, 0, j))
    {
      if j < n {
        assert es[j] == done.entries[j];
        if !Root(done.entries, j) {
          var p := done.entries[j].section.parentId;
          assert es[p] == done.entries[p];
        }
      } else {
        assert es[j] == s.entries[j - n];
        if !Root(s.entries, j - n) {
          assert FromEarlier(s.entries, done.next, j - n);
          var p := s.entries[j - n].section.parentId - done.next;
          assert es[p + n] == s.entries[p];
        }
      }
    }
  }

  /**
   * The sections read make a forest: ids 0, 1, ... in reading order, every type one of
   * WANTED_SECTIONS', every section either a root (a soma from ROOT_ID, a neurite from id 0)
   * or a child of an earlier section that starts at that section's last point.
   */
  lemma {:induction false} ReadSectionsForest(rule: RestFrom, sections: seq<seq<SExp>>, k: nat, parse: string -> Option<real>)
    requires k <= |sections| && ReadSections(rule, sections, k, parse).Ok?
    ensures Forest(ReadSections(rule, sections, k, parse).value, 0)
  {
    if k > 0 {
      ReadSectionsForest(rule, sections, k - 1, parse);
      var done := ReadSections(rule, sections, k - 1, parse).value;
      TopPieceForest(rule, done.next, sections[k - 1], parse);
      AppendForest(done, TopPiece(rule, done.next, sections[k - 1], parse).value);
    }
  }

  /** The dictionary keys after the additions: the keys before and the ids added. */
  lemma {:induction false} AddAllKeys(m: map<int, BlockSection>, es: seq<Entry>)
    ensures forall x :: x in AddAll(m, es) <==> x in m || x in EntryIds(es)
    decreases |es|
  {
    if es != [] {
      var init := es[..|es| - 1];
      AddAllKeys(m, init);
      assert EntryIds(es) == EntryIds(init) + [es[|es| - 1].id];
    }
  }

  /** Sections numbered consecutively fill a dictionary whose insertion order has no repeats. */
  lemma NumberedKeyed(a: Added, first: int)
    requires Numbered(a, first)
    ensures Keyed(AddAll(map[], a.entries), EntryIds(a.entries))
  {
    AddAllKeys(map[], a.entries);
  }

  /**
   * read on the lines of a file: tokens, top-level sections, each section's tree added in
   * turn; then the error that ended the token stream, if any; then get_datawrapper.
   */
  function ReadSpec(rule: RestFrom, q: Quoting, lines: seq<string>, parse: string -> Option<real>): (r: Result<(seq<Row>, seq<DBSection>)>)
    ensures r.Ok? ==> forall k :: 0 <= k < |r.value.0| ==> r.value.0[k].id == k
  {
    var st := TokensBy(q, lines);
    var (sections, err) := TopLevel(UNWANTED_SECTIONS, st.toks, st.err);
    match ReadSections(rule, sections, |sections|, parse)
    case Err(e) => Err(e)
    case Ok(a) =>
      if err.Some? then Err(err.value)
      else
        ReadSectionsForest(rule, sections, |sections|, parse);
        NumberedKeyed(a, 0);
        var r := DatablockSpec(AddAll(map[], a.entries), EntryIds(a.entries));
        if r.Ok? then DatablockNumbering(AddAll(map[], a.entries), EntryIds(a.entries), r.value.0, r.value.1); r
        else r
  }

  /** The body of read's loop for one top-level section. */
  method ReadTop(rule: RestFrom, builder: BlockNeuronBuilder, id: int, section: seq<SExp>, parse: string -> Option<real>)
    returns (r: Result<int>)
    requires builder.Valid() && Below(builder.sections, id)
    modifies builder
    ensures builder.Valid()
    ensures Applied(TopPiece(rule, id, section, parse), r, old(builder.sections), old(builder.order), builder.sections, builder.order)
  {
    var kind := SectionKind(section);
    if kind.Err? {
      return Err(kind.error);
    }
    if kind.value.None? {
      assert builder.order + [] == builder.order;
      return Ok(id);
    }
    var (t, start) := kind.value.value;
    var parentId := if t == SOMA then ROOT_ID else 0;
    r := ReadSubsection(rule, builder, id, parentId, t, section[start..], None, parse);
  }

  lemma ReadSectionsStep(rule: RestFrom, sections: seq<seq<SExp>>, k: nat, parse: string -> Option<real>, done: Added)
    requires k < |sections| && ReadSections(rule, sections, k, parse) == Ok(done)
    ensures ReadSections(rule, sections, k + 1, parse) ==
      match TopPiece(rule, done.next, sections[k], parse)
      case Err(e) => Err(e)
      case Ok(s) => Ok(Added(done.entries + s.entries, s.next))
  {
  }

  /** The loop of read over the top-level sections, feeding the builder. */
  method FeedSections(rule: RestFrom, builder: BlockNeuronBuilder, sections: seq<seq<SExp>>, parse: string -> Option<real>)
    returns (r: Result<int>)
    requires builder.Valid() && builder.sections == map[] && builder.order == []
    modifies builder
    ensures builder.Valid()
    ensures Applied(ReadSections(rule, sections, |sections|, parse), r, map[], [], builder.sections, builder.order)
  {
    var id := 0;
    ghost var done := Added([], 0);
    var k := 0;
    while k < |sections|
      invariant 0 <= k <= |sections|
      invariant ReadSections(rule, sections, k, parse) == Ok(done)
      invariant Applied(Ok(done), Ok(id), map[], [], builder.sections, builder.order)
      invariant builder.Valid()
    {
      ReadSectionsStep(rule, sections, k, parse, done);
      ghost var m, o := builder.sections, builder.order;
      var n := ReadTop(rule, builder, id, sections[k], parse);
      ghost var s := TopPiece(rule, id, sections[k], parse);
      ThenApplied(done, s, n, map[], [], m, o, builder.sections, builder.order);
      if n.Err? {
        ReadSectionsErrStays(rule, sections, k + 1, |sections|, parse);
        return Err(n.error);
      }
      done := Added(done.entries + s.value.entries, s.value.next);
      id := n.value;
      k := k + 1;
    }
    return Ok(id);
  }

  /** ReadSpec once the tokens and the top-level sections are known. */
  lemma ReadSpecOf(rule: RestFrom, q: Quoting, lines: seq<string>, parse: string -> Option<real>, sections: seq<seq<SExp>>, err: Option<Exception>)
    requires (sections, err) == TopLevel(UNWANTED_SECTIONS, TokensBy(q, lines).toks, TokensBy(q, lines).err)
    ensures ReadSections(rule, sections, |sections|, parse).Ok? ==>
      Keyed(AddAll(map[], ReadSections(rule, sections, |sections|, parse).value.entries),
            EntryIds(ReadSections(rule, sections, |sections|, parse).value.entries))
    ensures ReadSpec(rule, q, lines, parse) ==
      match ReadSections(rule, sections, |sections|, parse)
      case Err(e) => Err(e)
      case Ok(a) => if err.Some? then Err(err.value) else DatablockSpec(AddAll(map[], a.entries), EntryIds(a.entries))
  {
    if ReadSections(rule, sections, |sections|, parse).Ok? {
      ReadSectionsForest(rule, sections, |sections|, parse);
      NumberedKeyed(ReadSections(rule, sections, |sections|, parse).value, 0);
    }
  }

  /** read: the builder fed section by section, as ReadSpec states. */
  method Read(rule: RestFrom, q: Quoting, lines: seq<string>, parse: string -> Option<real>) returns (r: Result<(seq<Row>, seq<DBSection>)>)
    ensures r == ReadSpec(rule, q, lines, parse)
  {
    var toks, err := GetTokensBy(q, lines);
    var sections, tokErr := TopLevelSections(UNWANTED_SECTIONS, toks, err);
    ReadSpecOf(rule, q, lines, parse, sections, tokErr);
    var builder := new BlockNeuronBuilder();
    var n := FeedSections(rule, builder, sections, parse);
    if n.Err? {
      return Err(n.error);
    }
    if tokErr.Some? {
      return Err(tokErr.value);
    }
    assert builder.order == EntryIds(ReadSections(rule, sections, |sections|, parse).value.entries);
    r := builder.GetDatawrapper();
  }

  lemma {:induction false} ReadSectionsErrStays(rule: RestFrom, sections: seq<seq<SExp>>, k: nat, n: nat, parse: string -> Option<real>)
    requires k <= n <= |sections| && ReadSections(rule, sections, k, parse).Err?
    ensures ReadSections(rule, sections, n, parse) == ReadSections(rule, sections, k, parse)
    decreases n - k
  {
    if k < n {
      ReadSectionsErrStays(rule, sections, k + 1, n, parse);
    }
  }

  // ---------------------------------------------------------------------------------------------
  // Block markers between the points and the furcation

  /** The rows with a block marker inserted at position j. */
  function WithMarker(rows: seq<SExp>, j: nat, m: string): (r: seq<SExp>)
    requires j <= |rows|
    ensures |r| == |rows| + 1 && r[j] == Atom(m)
    ensures forall q :: 0 <= q < j ==> r[q] == rows[q]
    ensures forall q :: j <= q < |rows| ==> r[q + 1] == rows[q]
  {
    rows[..j] + [Atom(m)] + rows[j..]
  }

  /**
   * A block marker among the rows the extraction walks adds no point: the same points come
   * back, after one more row walked.
   */
  lemma {:induction false} PointsWithMarker(rows: seq<SExp>, j: nat, m: string, parse: string -> Option<real>)
    requires m != "" && PointsOf(rows, parse).Ok? && j <= PointsOf(rows, parse).value.1
    ensures PointsOf(WithMarker(rows, j, m), parse) == Ok((PointsOf(rows, parse).value.0, PointsOf(rows, parse).value.1 + 1))
  {
    var ins := WithMarker(rows, j, m);
    if j == 0 {
      assert ins[1..] == rows;
      assert [] + PointsOf(rows, parse).value.0 == PointsOf(rows, parse).value.0;
    } else {
      assert RowStep(rows[0], parse).Ok? && RowStep(rows[0], parse).value != Fork;
      assert ins[1..] == WithMarker(rows[1..], j - 1, m);
      PointsWithMarker(rows[1..], j - 1, m, parse);
    }
  }

  /**
   * With the furcation looked for after the rows walked, a block marker inserted anywhere
   * before it leaves the sections read unchanged.
   */
  lemma SubsectionIgnoresMarker(id: int, parentId: int, stype: int, sub: seq<SExp>, parentPoint: Option<Point>,
                                parse: string -> Option<real>, j: nat, m: string)
    requires m != "" && PointsOf(sub, parse).Ok? && j <= PointsOf(sub, parse).value.1
    ensures Subsection(AfterRows, id, parentId, stype, WithMarker(sub, j, m), parentPoint, parse) ==
            Subsection(AfterRows, id, parentId, stype, sub, parentPoint, parse)
  {
    PointsWithMarker(sub, j, m, parse);
    var (pts, walked) := PointsOf(sub, parse).value;
    var marked := WithMarker(sub, j, m);
    SubsectionEnd(AfterRows, id, parentId, stype, sub, parentPoint, parse);
    SubsectionEnd(AfterRows, id, parentId, stype, marked, parentPoint, parse);
    if !(parentPoint.Some? && pts == []) && walked < |sub| && sub[walked].List? && Begin(parentPoint, pts) != [] {
      assert marked[walked + 1] == sub[walked];
      SubsectionFork(AfterRows, id, parentId, stype, sub, parentPoint, parse, pts, walked, walked);
      SubsectionFork(AfterRows, id, parentId, stype, marked, parentPoint, parse, pts, walked + 1, walked + 1);
    }
  }

  /** A point row of four zero columns, and a furcation of two such rows. */
  const ZERO_ROW: SExp := List([Atom("0"), Atom("0"), Atom("0"), Atom("0")])
  const TWO_BRANCHES: SExp := List([ZERO_ROW, BAR, ZERO_ROW])

  /** The sections of the origin point followed by two branches, each of the origin point twice. */
  lemma TwoBranches(rule: RestFrom, parse: string -> Option<real>)
    requires forall t :: parse(t) == Some(0.0)
    ensures var o := Point(0.0, 0.0, 0.0, 0.0);
      Subsection(rule, 0, ROOT_ID, BASAL_DENDRITE, [ZERO_ROW, TWO_BRANCHES], None, parse) ==
        Ok(Added([Entry(0, BlockSection(ROOT_ID, BASAL_DENDRITE, [o])),
                  Entry(1, BlockSection(0, BASAL_DENDRITE, [o, o])),
                  Entry(2, BlockSection(0, BASAL_DENDRITE, [o, o]))], 3))
  {
    var o := Point(0.0, 0.0, 0.0, 0.0);
    var xs := TWO_BRANCHES.items;
    OnePoint(parse);
    assert RowStep(TWO_BRANCHES, parse) == Ok(Fork);
    assert PointsOf([TWO_BRANCHES], parse) == Ok(([], 0));
    assert [ZERO_ROW, TWO_BRANCHES][1..] == [TWO_BRANCHES];
    assert PointsOf([ZERO_ROW, TWO_BRANCHES], parse) == Ok(([o], 1));
    TwoFurcations();
    TwoChildren(rule, o, parse);
    SubsectionFork(rule, 0, ROOT_ID, BASAL_DENDRITE, [ZERO_ROW, TWO_BRANCHES], None, parse, [o], 1, 1);
    assert Begin(None, [o]) == [o] && LastPoint([o]) == o;
    assert [ZERO_ROW, TWO_BRANCHES][1].items == xs;
    var e0 := Entry(0, BlockSection(ROOT_ID, BASAL_DENDRITE, [o]));
    var e1 := Entry(1, BlockSection(0, BASAL_DENDRITE, [o, o]));
    var e2 := Entry(2, BlockSection(0, BASAL_DENDRITE, [o, o]));
    assert [e0] + [e1, e2] == [e0, e1, e2];
  }

  /** The furcation of two branches is cut into the slices before and after its bar. */
  lemma TwoFurcations()
    ensures Furcations(TWO_BRANCHES.items) == [(0, 1), (2, 3)]
  {
    var xs := TWO_BRANCHES.items;
    assert xs == [ZERO_ROW, BAR, ZERO_ROW] && xs[0] != BAR && xs[1] == BAR && xs[2] != BAR;
    assert FurcationsUpTo(xs, 0) == ([], 0);
    assert FurcationsUpTo(xs, 1) == ([], 0);
    assert [] + [(0, 1)] == [(0, 1)];
    assert FurcationsUpTo(xs, 2) == ([(0, 1)], 2);
    assert FurcationsUpTo(xs, 3) == ([(0, 1)], 2);
  }

  /** Its two slices, read from the origin, add sections 1 and 2, each of the origin twice. */
  lemma TwoChildren(rule: RestFrom, o: Point, parse: string -> Option<real>)
    requires forall t :: parse(t) == Some(0.0)
    requires o == Point(0.0, 0.0, 0.0, 0.0)
    ensures Children(rule, 1, 0, BASAL_DENDRITE, TWO_BRANCHES.items, [(0, 1), (2, 3)], 2, o, parse) ==
      Ok(Added([Entry(1, BlockSection(0, BASAL_DENDRITE, [o, o])), Entry(2, BlockSection(0, BASAL_DENDRITE, [o, o]))], 3))
  {
    var xs := TWO_BRANCHES.items;
    assert xs == [ZERO_ROW, BAR, ZERO_ROW];
    var fs := [(0, 1), (2, 3)];
    assert Slices(fs, |xs|);
    assert xs[0..1] == [ZERO_ROW] && xs[2..3] == [ZERO_ROW];
    OneBranch(rule, 1, o, parse);
    OneBranch(rule, 2, o, parse);
    var e1 := Entry(1, BlockSection(0, BASAL_DENDRITE, [o, o]));
    var e2 := Entry(2, BlockSection(0, BASAL_DENDRITE, [o, o]));
    assert Children(rule, 1, 0, BASAL_DENDRITE, xs, fs, 0, o, parse) == Ok(Added([], 1));
    ChildrenStep(rule, 1, 0, BASAL_DENDRITE, xs, fs, 0, o, parse, Added([], 1));
    assert [] + [e1] == [e1];
    assert Children(rule, 1, 0, BASAL_DENDRITE, xs, fs, 1, o, parse) == Ok(Added([e1], 2));
    ChildrenStep(rule, 1, 0, BASAL_DENDRITE, xs, fs, 1, o, parse, Added([e1], 2));
    assert xs[fs[1].0..fs[1].1] == [ZERO_ROW] && [e1] + [e2] == [e1, e2];
    assert Piece(rule, 2, 0, BASAL_DENDRITE, [ZERO_ROW], o, parse) == Ok(Added([e2], 3));
  }

  lemma OnePoint(parse: string -> Option<real>)
    requires forall t :: parse(t) == Some(0.0)
    ensures RowStep(ZERO_ROW, parse) == Ok(PointRow(Point(0.0, 0.0, 0.0, 0.0)))
    ensures PointsOf([ZERO_ROW], parse) == Ok(([Point(0.0, 0.0, 0.0, 0.0)], 1))
  {
    var row := ZERO_ROW.items;
    assert |row| == 4 && row[0].Atom? && forall k :: 0 <= k < 4 ==> Float(row[k], parse) == Ok(0.0);
    assert RowPoint(row, parse) == Ok(Point(0.0, 0.0, 0.0, 0.0));
    assert [ZERO_ROW][1..] == [] && PointsOf([], parse) == Ok(([], 0));
    assert [Point(0.0, 0.0, 0.0, 0.0)] + [] == [Point(0.0, 0.0, 0.0, 0.0)];
  }

  /** A branch of one point row, hanging from section 0 at the origin: the origin twice. */
  lemma OneBranch(rule: RestFrom, id: int, o: Point, parse: string -> Option<real>)
    requires forall t :: parse(t) == Some(0.0)
    requires o == Point(0.0, 0.0, 0.0, 0.0)
    ensures Subsection(rule, id, 0, BASAL_DENDRITE, [ZERO_ROW], Some(o), parse) ==
      Ok(Added([Entry(id, BlockSection(0, BASAL_DENDRITE, [o, o]))], id + 1))
  {
    OnePoint(parse);
    SubsectionEnd(rule, id, 0, BASAL_DENDRITE, [ZERO_ROW], Some(o), parse);
    assert Begin(Some(o), [o]) == [o, o];
  }

  /**
   * read_subsection as written loses a furcation behind a block marker: the rows after the
   * points are taken from position len(points), which is the marker, not the furcation.
   */
  lemma MarkerHidesFurcation(parse: string -> Option<real>)
    requires forall t :: parse(t) == Some(0.0)
    ensures var o := Point(0.0, 0.0, 0.0, 0.0);
      var marked := [ZERO_ROW, Atom("Normal"), TWO_BRANCHES];
      marked == WithMarker([ZERO_ROW, TWO_BRANCHES], 1, "Normal") &&
      Subsection(AfterPoints, 0, ROOT_ID, BASAL_DENDRITE, [ZERO_ROW, TWO_BRANCHES], None, parse).Ok? &&
      Subsection(AfterPoints, 0, ROOT_ID, BASAL_DENDRITE, [ZERO_ROW, TWO_BRANCHES], None, parse).value.next == 3 &&
      Subsection(AfterPoints, 0, ROOT_ID, BASAL_DENDRITE, marked, None, parse) ==
        Ok(Added([Entry(0, BlockSection(ROOT_ID, BASAL_DENDRITE, [o]))], 1)) &&
      Subsection(AfterRows, 0, ROOT_ID, BASAL_DENDRITE, marked, None, parse).Ok? &&
      Subsection(AfterRows, 0, ROOT_ID, BASAL_DENDRITE, marked, None, parse).value.next == 3
  {
    var o := Point(0.0, 0.0, 0.0, 0.0);
    var marked := [ZERO_ROW, Atom("Normal"), TWO_BRANCHES];
    TwoBranches(AfterPoints, parse);
    TwoBranches(AfterRows, parse);
    OnePoint(parse);
    assert RowStep(TWO_BRANCHES, parse) == Ok(Fork);
    assert PointsOf([TWO_BRANCHES], parse) == Ok(([], 0));
    assert [ZERO_ROW, TWO_BRANCHES][1..] == [TWO_BRANCHES];
    assert PointsOf([ZERO_ROW, TWO_BRANCHES], parse) == Ok(([o], 1));
    assert WithMarker([ZERO_ROW, TWO_BRANCHES], 1, "Normal") == marked;
    PointsWithMarker([ZERO_ROW, TWO_BRANCHES], 1, "Normal", parse);
    SubsectionEnd(AfterPoints, 0, ROOT_ID, BASAL_DENDRITE, marked, None, parse);
    assert Begin(None, [o]) == [o];
    SubsectionIgnoresMarker(0, ROOT_ID, BASAL_DENDRITE, [ZERO_ROW, TWO_BRANCHES], None, parse, 1, "Normal");
  }
}

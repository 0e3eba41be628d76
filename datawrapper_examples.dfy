/** Worked blocks for the section builder. */
module DataWrapperExamples {
  import opened Wrappers
  import opened Seqs
  import opened DataFormat
  import opened DataWrapper

  function P(ptype: int, id: int, pid: int): Row
  {
    Row(0.0, 0.0, 0.0, 1.0, ptype, id, pid)
  }

  /** A soma split in two pieces, each carrying one basal dendrite. */
  const SplitSoma: Block := [
    P(1, 1, -1), P(3, 2, 1), P(3, 3, 2), P(3, 4, 3), P(3, 5, 4),
    P(1, 6, 1), P(1, 7, 6), P(3, 8, 7), P(3, 9, 8), P(3, 10, 9), P(3, 11, 10)]

  const SplitSomaIdMap: map<int, int> :=
    map[-1 := -1, 1 := 0, 2 := 1, 3 := 2, 4 := 3, 5 := 4, 6 := 5, 7 := 6, 8 := 7, 9 := 8, 10 := 9, 11 := 10]

  lemma SplitSomaIdMapIs()
    ensures IdMap(SplitSoma) == SplitSomaIdMap
  {
    var b := SplitSoma;
    assert IdMapUpTo(b, 1) == map[-1 := -1, 1 := 0];
    assert IdMapUpTo(b, 2) == map[-1 := -1, 1 := 0, 2 := 1];
    assert IdMapUpTo(b, 3) == map[-1 := -1, 1 := 0, 2 := 1, 3 := 2];
    assert IdMapUpTo(b, 4) == map[-1 := -1, 1 := 0, 2 := 1, 3 := 2, 4 := 3];
    assert IdMapUpTo(b, 5) == map[-1 := -1, 1 := 0, 2 := 1, 3 := 2, 4 := 3, 5 := 4];
    assert IdMapUpTo(b, 6) == map[-1 := -1, 1 := 0, 2 := 1, 3 := 2, 4 := 3, 5 := 4, 6 := 5];
    assert IdMapUpTo(b, 7) == map[-1 := -1, 1 := 0, 2 := 1, 3 := 2, 4 := 3, 5 := 4, 6 := 5, 7 := 6];
    assert IdMapUpTo(b, 8) == map[-1 := -1, 1 := 0, 2 := 1, 3 := 2, 4 := 3, 5 := 4, 6 := 5, 7 := 6, 8 := 7];
    assert IdMapUpTo(b, 9) == map[-1 := -1, 1 := 0, 2 := 1, 3 := 2, 4 := 3, 5 := 4, 6 := 5, 7 := 6, 8 := 7, 9 := 8];
    assert IdMapUpTo(b, 10) == map[-1 := -1, 1 := 0, 2 := 1, 3 := 2, 4 := 3, 5 := 4, 6 := 5, 7 := 6, 8 := 7, 9 := 8, 10 := 9];
  }

  /** Child counts by parent id: the P column holds -1, 1 twice, and each of 2, 3, 4, 6, ..., 10 once. */
  lemma SplitSomaCount(id: int)
    ensures CountPid(SplitSoma, id) ==
      (if id == 1 then 2 else if id in {-1, 2, 3, 4, 6, 7, 8, 9, 10} then 1 else 0)
  {
    var b := SplitSoma;
    assert CountPid(b[11..], id) == 0;
    assert b[10..][1..] == b[11..];
    assert CountPid(b[10..], id) == (if id == 10 then 1 else 0) + 0;
    assert b[9..][1..] == b[10..];
    assert CountPid(b[9..], id) == (if id == 9 then 1 else 0) + ((if id == 10 then 1 else 0) + 0);
    assert b[8..][1..] == b[9..];
    assert CountPid(b[8..], id) == (if id == 8 then 1 else 0) + ((if id == 9 then 1 else 0) + ((if id == 10 then 1 else 0) + 0));
    assert b[7..][1..] == b[8..];
    assert CountPid(b[7..], id) == (if id == 7 then 1 else 0) + ((if id == 8 then 1 else 0) + ((if id == 9 then 1 else 0) + ((if id == 10 then 1 else 0) + 0)));
    assert b[6..][1..] == b[7..];
    assert CountPid(b[6..], id) == (if id == 6 then 1 else 0) + ((if id == 7 then 1 else 0) + ((if id == 8 then 1 else 0) + ((if id == 9 then 1 else 0) + ((if id == 10 then 1 else 0) + 0))));
    assert b[5..][1..] == b[6..];
    assert CountPid(b[5..], id) == (if id == 1 then 1 else 0) + ((if id == 6 then 1 else 0) + ((if id == 7 then 1 else 0) + ((if id == 8 then 1 else 0) + ((if id == 9 then 1 else 0) + ((if id == 10 then 1 else 0) + 0)))));
    assert b[4..][1..] == b[5..];
    assert CountPid(b[4..], id) == (if id == 4 then 1 else 0) + ((if id == 1 then 1 else 0) + ((if id == 6 then 1 else 0) + ((if id == 7 then 1 else 0) + ((if id == 8 then 1 else 0) + ((if id == 9 then 1 else 0) + ((if id == 10 then 1 else 0) + 0))))));
    assert b[3..][1..] == b[4..];
    assert CountPid(b[3..], id) == (if id == 3 then 1 else 0) + ((if id == 4 then 1 else 0) + ((if id == 1 then 1 else 0) + ((if id == 6 then 1 else 0) + ((if id == 7 then 1 else 0) + ((if id == 8 then 1 else 0) + ((if id == 9 then 1 else 0) + ((if id == 10 then 1 else 0) + 0)))))));
    assert b[2..][1..] == b[3..];
    assert CountPid(b[2..], id) == (if id == 2 then 1 else 0) + ((if id == 3 then 1 else 0) + ((if id == 4 then 1 else 0) + ((if id == 1 then 1 else 0) + ((if id == 6 then 1 else 0) + ((if id == 7 then 1 else 0) + ((if id == 8 then 1 else 0) + ((if id == 9 then 1 else 0) + ((if id == 10 then 1 else 0) + 0))))))));
    assert b[1..][1..] == b[2..];
    assert CountPid(b[1..], id) == (if id == 1 then 1 else 0) + ((if id == 2 then 1 else 0) + ((if id == 3 then 1 else 0) + ((if id == 4 then 1 else 0) + ((if id == 1 then 1 else 0) + ((if id == 6 then 1 else 0) + ((if id == 7 then 1 else 0) + ((if id == 8 then 1 else 0) + ((if id == 9 then 1 else 0) + ((if id == 10 then 1 else 0) + 0)))))))));
    assert b[0..][1..] == b[1..];
    assert CountPid(b[0..], id) == (if id == -1 then 1 else 0) + ((if id == 1 then 1 else 0) + ((if id == 2 then 1 else 0) + ((if id == 3 then 1 else 0) + ((if id == 4 then 1 else 0) + ((if id == 1 then 1 else 0) + ((if id == 6 then 1 else 0) + ((if id == 7 then 1 else 0) + ((if id == 8 then 1 else 0) + ((if id == 9 then 1 else 0) + ((if id == 10 then 1 else 0) + 0))))))))));
    assert b[0..] == b;
  }

  lemma SplitSomaCountEnds()
    ensures ForkOrLeafRows(SplitSoma) == {0, 4, 10}
  {
    var b := SplitSoma;
    forall i | 0 <= i < |b|
      ensures CountPid(b, b[i].id) != 1 <==> i in {0, 4, 10}
    {
      SplitSomaCount(b[i].id);
    }
  }

  lemma SplitSomaParents()
    ensures ParentsNeurite(SplitSoma, 1) && ParentsNeurite(SplitSoma, 7) && !ParentsNeurite(SplitSoma, 6)
  {
    var b := SplitSoma;
    assert b[1].ptype != SOMA && b[1].pid == 1;
    assert b[7].ptype != SOMA && b[7].pid == 7;
    forall k | 0 <= k < |b| && b[k].pid == 6
      ensures b[k].ptype == SOMA
    {
      assert k == 6;
    }
  }

  lemma SplitSomaSomaEnds()
    ensures SomaParentRows(SplitSoma, SplitSomaIdMap) == {0, 6}
  {
    var b := SplitSoma;
    var m := SplitSomaIdMap;
    SplitSomaParents();
    forall j | 0 <= j < |b|
      ensures (b[j].ptype == SOMA && b[j].id in m && ParentsNeurite(b, b[j].id)) <==> j in {0, 6}
    {
    }
    assert m[b[0].id] == 0 && m[b[6].id] == 6;
  }

  /** The end points: the two-child soma row, both leaves, and the soma row that parents the second dendrite. */
  lemma SplitSomaEndPoints()
    ensures EndPointsSpec(SplitSoma, SplitSomaIdMap) == {0, 4, 6, 10}
  {
    SplitSomaCountEnds();
    SplitSomaSomaEnds();
    assert {0, 4, 10} + {0, 6} == {0, 4, 6, 10};
  }

  /** The state of the row loop over the split soma after k rows. */
  function SplitSomaState(k: nat): Split
  {
    if k == 0 then Split([], EmptySection, {0, 4, 6, 10}, map[-1 := -1], {})
    else if k == 1 then Split([DBSection([-1, 0], 1, -1)], EmptySection, {0, 4, 6, 10}, map[-1 := -1, 0 := 0], {})
    else if k == 2 then Split([DBSection([-1, 0], 1, -1)], DBSection([0, 1], 3, -1), {0, 4, 6, 10}, map[-1 := -1, 0 := 0], {})
    else if k == 3 then Split([DBSection([-1, 0], 1, -1)], DBSection([0, 1, 2], 3, -1), {0, 4, 6, 10}, map[-1 := -1, 0 := 0], {})
    else if k == 4 then Split([DBSection([-1, 0], 1, -1)], DBSection([0, 1, 2, 3], 3, -1), {0, 4, 6, 10}, map[-1 := -1, 0 := 0], {})
    else if k == 5 then Split([DBSection([-1, 0], 1, -1), DBSection([0, 1, 2, 3, 4], 3, -1)], EmptySection, {0, 4, 6, 10}, map[-1 := -1, 0 := 0, 4 := 1], {})
    else if k == 6 then Split([DBSection([-1, 0], 1, -1), DBSection([0, 1, 2, 3, 4], 3, -1)], DBSection([0, 5], 1, -1), {0, 4, 6, 10}, map[-1 := -1, 0 := 0, 4 := 1], {})
    else if k == 7 then Split([DBSection([-1, 0], 1, -1), DBSection([0, 1, 2, 3, 4], 3, -1), DBSection([0, 5, 6], 1, -1)], EmptySection, {0, 4, 6, 10}, map[-1 := -1, 0 := 0, 4 := 1, 6 := 2], {})
    else if k == 8 then Split([DBSection([-1, 0], 1, -1), DBSection([0, 1, 2, 3, 4], 3, -1), DBSection([0, 5, 6], 1, -1)], DBSection([6, 7], 3, -1), {0, 4, 6, 10}, map[-1 := -1, 0 := 0, 4 := 1, 6 := 2], {})
    else if k == 9 then Split([DBSection([-1, 0], 1, -1), DBSection([0, 1, 2, 3, 4], 3, -1), DBSection([0, 5, 6], 1, -1)], DBSection([6, 7, 8], 3, -1), {0, 4, 6, 10}, map[-1 := -1, 0 := 0, 4 := 1, 6 := 2], {})
    else if k == 10 then Split([DBSection([-1, 0], 1, -1), DBSection([0, 1, 2, 3, 4], 3, -1), DBSection([0, 5, 6], 1, -1)], DBSection([6, 7, 8, 9], 3, -1), {0, 4, 6, 10}, map[-1 := -1, 0 := 0, 4 := 1, 6 := 2], {})
    else Split([DBSection([-1, 0], 1, -1), DBSection([0, 1, 2, 3, 4], 3, -1), DBSection([0, 5, 6], 1, -1)], DBSection([6, 7, 8, 9, 10], 3, -1), {0, 4, 6, 10}, map[-1 := -1, 0 := 0, 4 := 1, 6 := 2, 10 := 3], {})
  }

  lemma SplitSomaStep0()
    ensures IdsMapped(SplitSoma, SplitSomaIdMap) && GapsIn(SplitSomaState(0))
    ensures Step(SplitSoma, SplitSomaIdMap, SplitSomaState(0), 0) == Ok(SplitSomaState(1))
  {
    assert SplitSoma[0] == P(1, 1, -1);
    assert SplitSomaIdMap[1] == 0 && SplitSomaIdMap[-1] == -1;
    var st := SplitSomaState(0);
    var c0 := Opened(st.cur, -1, 1);
    assert c0 == DBSection([-1], 1, -1);
    assert Last(c0.ids) == -1;
    var c1 := c0.(ids := c0.ids + [0]);
    assert c1 == DBSection([-1, 0], 1, -1);
    assert 0 in st.endPts;
    assert st.ps[0 := 0] == map[-1 := -1, 0 := 0];
    assert st.done + [c1] == [DBSection([-1, 0], 1, -1)];
    assert Step(SplitSoma, SplitSomaIdMap, st, 0) == Ok(Split(st.done + [c1], EmptySection, st.endPts, st.ps[0 := 0], st.gaps));
  }

  lemma SplitSomaStep1()
    ensures IdsMapped(SplitSoma, SplitSomaIdMap) && GapsIn(SplitSomaState(1))
    ensures Step(SplitSoma, SplitSomaIdMap, SplitSomaState(1), 1) == Ok(SplitSomaState(2))
  {
    assert SplitSoma[1] == P(3, 2, 1);
    assert SplitSomaIdMap[2] == 1 && SplitSomaIdMap[1] == 0;
    var st := SplitSomaState(1);
    var c0 := Opened(st.cur, 0, 3);
    assert c0 == DBSection([0], 3, -1);
    assert Last(c0.ids) == 0;
    var c1 := c0.(ids := c0.ids + [1]);
    assert c1 == DBSection([0, 1], 3, -1);
    assert 1 !in st.endPts;
    assert Step(SplitSoma, SplitSomaIdMap, st, 1) == Ok(Split(st.done, c1, st.endPts, st.ps, st.gaps));
  }

  lemma SplitSomaStep2()
    ensures IdsMapped(SplitSoma, SplitSomaIdMap) && GapsIn(SplitSomaState(2))
    ensures Step(SplitSoma, SplitSomaIdMap, SplitSomaState(2), 2) == Ok(SplitSomaState(3))
  {
    assert SplitSoma[2] == P(3, 3, 2);
    assert SplitSomaIdMap[3] == 2 && SplitSomaIdMap[2] == 1;
    var st := SplitSomaState(2);
    var c0 := Opened(st.cur, 1, 3);
    assert c0 == DBSection([0, 1], 3, -1);
    assert Last(c0.ids) == 1;
    var c1 := c0.(ids := c0.ids + [2]);
    assert c1 == DBSection([0, 1, 2], 3, -1);
    assert 2 !in st.endPts;
    assert Step(SplitSoma, SplitSomaIdMap, st, 2) == Ok(Split(st.done, c1, st.endPts, st.ps, st.gaps));
  }

  lemma SplitSomaStep3()
    ensures IdsMapped(SplitSoma, SplitSomaIdMap) && GapsIn(SplitSomaState(3))
    ensures Step(SplitSoma, SplitSomaIdMap, SplitSomaState(3), 3) == Ok(SplitSomaState(4))
  {
    assert SplitSoma[3] == P(3, 4, 3);
    assert SplitSomaIdMap[4] == 3 && SplitSomaIdMap[3] == 2;
    var st := SplitSomaState(3);
    var c0 := Opened(st.cur, 2, 3);
    assert c0 == DBSection([0, 1, 2], 3, -1);
    assert Last(c0.ids) == 2;
    var c1 := c0.(ids := c0.ids + [3]);
    assert c1 == DBSection([0, 1, 2, 3], 3, -1);
    assert 3 !in st.endPts;
    assert Step(SplitSoma, SplitSomaIdMap, st, 3) == Ok(Split(st.done, c1, st.endPts, st.ps, st.gaps));
  }

  lemma SplitSomaStep4()
    ensures IdsMapped(SplitSoma, SplitSomaIdMap) && GapsIn(SplitSomaState(4))
    ensures Step(SplitSoma, SplitSomaIdMap, SplitSomaState(4), 4) == Ok(SplitSomaState(5))
  {
    assert SplitSoma[4] == P(3, 5, 4);
    assert SplitSomaIdMap[5] == 4 && SplitSomaIdMap[4] == 3;
    var st := SplitSomaState(4);
    var c0 := Opened(st.cur, 3, 3);
    assert c0 == DBSection([0, 1, 2, 3], 3, -1);
    assert Last(c0.ids) == 3;
    var c1 := c0.(ids := c0.ids + [4]);
    assert c1 == DBSection([0, 1, 2, 3, 4], 3, -1);
    assert 4 in st.endPts;
    assert st.ps[4 := 1] == map[-1 := -1, 0 := 0, 4 := 1];
    assert st.done + [c1] == [DBSection([-1, 0], 1, -1), DBSection([0, 1, 2, 3, 4], 3, -1)];
    assert Step(SplitSoma, SplitSomaIdMap, st, 4) == Ok(Split(st.done + [c1], EmptySection, st.endPts, st.ps[4 := 1], st.gaps));
  }

  lemma SplitSomaStep5()
    ensures IdsMapped(SplitSoma, SplitSomaIdMap) && GapsIn(SplitSomaState(5))
    ensures Step(SplitSoma, SplitSomaIdMap, SplitSomaState(5), 5) == Ok(SplitSomaState(6))
  {
    assert SplitSoma[5] == P(1, 6, 1);
    assert SplitSomaIdMap[6] == 5 && SplitSomaIdMap[1] == 0;
    var st := SplitSomaState(5);
    var c0 := Opened(st.cur, 0, 1);
    assert c0 == DBSection([0], 1, -1);
    assert Last(c0.ids) == 0;
    var c1 := c0.(ids := c0.ids + [5]);
    assert c1 == DBSection([0, 5], 1, -1);
    assert 5 !in st.endPts;
    assert Step(SplitSoma, SplitSomaIdMap, st, 5) == Ok(Split(st.done, c1, st.endPts, st.ps, st.gaps));
  }

  lemma SplitSomaStep6()
    ensures IdsMapped(SplitSoma, SplitSomaIdMap) && GapsIn(SplitSomaState(6))
    ensures Step(SplitSoma, SplitSomaIdMap, SplitSomaState(6), 6) == Ok(SplitSomaState(7))
  {
    assert SplitSoma[6] == P(1, 7, 6);
    assert SplitSomaIdMap[7] == 6 && SplitSomaIdMap[6] == 5;
    var st := SplitSomaState(6);
    var c0 := Opened(st.cur, 5, 1);
    assert c0 == DBSection([0, 5], 1, -1);
    assert Last(c0.ids) == 5;
    var c1 := c0.(ids := c0.ids + [6]);
    assert c1 == DBSection([0, 5, 6], 1, -1);
    assert 6 in st.endPts;
    assert st.ps[6 := 2] == map[-1 := -1, 0 := 0, 4 := 1, 6 := 2];
    assert st.done + [c1] == [DBSection([-1, 0], 1, -1), DBSection([0, 1, 2, 3, 4], 3, -1), DBSection([0, 5, 6], 1, -1)];
    assert Step(SplitSoma, SplitSomaIdMap, st, 6) == Ok(Split(st.done + [c1], EmptySection, st.endPts, st.ps[6 := 2], st.gaps));
  }

  lemma SplitSomaStep7()
    ensures IdsMapped(SplitSoma, SplitSomaIdMap) && GapsIn(SplitSomaState(7))
    ensures Step(SplitSoma, SplitSomaIdMap, SplitSomaState(7), 7) == Ok(SplitSomaState(8))
  {
    assert SplitSoma[7] == P(3, 8, 7);
    assert SplitSomaIdMap[8] == 7 && SplitSomaIdMap[7] == 6;
    var st := SplitSomaState(7);
    var c0 := Opened(st.cur, 6, 3);
    assert c0 == DBSection([6], 3, -1);
    assert Last(c0.ids) == 6;
    var c1 := c0.(ids := c0.ids + [7]);
    assert c1 == DBSection([6, 7], 3, -1);
    assert 7 !in st.endPts;
    assert Step(SplitSoma, SplitSomaIdMap, st, 7) == Ok(Split(st.done, c1, st.endPts, st.ps, st.gaps));
  }

  lemma SplitSomaStep8()
    ensures IdsMapped(SplitSoma, SplitSomaIdMap) && GapsIn(SplitSomaState(8))
    ensures Step(SplitSoma, SplitSomaIdMap, SplitSomaState(8), 8) == Ok(SplitSomaState(9))
  {
    assert SplitSoma[8] == P(3, 9, 8);
    assert SplitSomaIdMap[9] == 8 && SplitSomaIdMap[8] == 7;
    var st := SplitSomaState(8);
    var c0 := Opened(st.cur, 7, 3);
    assert c0 == DBSection([6, 7], 3, -1);
    assert Last(c0.ids) == 7;
    var c1 := c0.(ids := c0.ids + [8]);
    assert c1 == DBSection([6, 7, 8], 3, -1);
    assert 8 !in st.endPts;
    assert Step(SplitSoma, SplitSomaIdMap, st, 8) == Ok(Split(st.done, c1, st.endPts, st.ps, st.gaps));
  }

  lemma SplitSomaStep9()
    ensures IdsMapped(SplitSoma, SplitSomaIdMap) && GapsIn(SplitSomaState(9))
    ensures Step(SplitSoma, SplitSomaIdMap, SplitSomaState(9), 9) == Ok(SplitSomaState(10))
  {
    assert SplitSoma[9] == P(3, 10, 9);
    assert SplitSomaIdMap[10] == 9 && SplitSomaIdMap[9] == 8;
    var st := SplitSomaState(9);
    var c0 := Opened(st.cur, 8, 3);
    assert c0 == DBSection([6, 7, 8], 3, -1);
    assert Last(c0.ids) == 8;
    var c1 := c0.(ids := c0.ids + [9]);
    assert c1 == DBSection([6, 7, 8, 9], 3, -1);
    assert 9 !in st.endPts;
    assert Step(SplitSoma, SplitSomaIdMap, st, 9) == Ok(Split(st.done, c1, st.endPts, st.ps, st.gaps));
  }

  lemma SplitSomaStep10()
    ensures IdsMapped(SplitSoma, SplitSomaIdMap) && GapsIn(SplitSomaState(10))
    ensures Step(SplitSoma, SplitSomaIdMap, SplitSomaState(10), 10) == Ok(SplitSomaState(11))
  {
    assert SplitSoma[10] == P(3, 11, 10);
    assert SplitSomaIdMap[11] == 10 && SplitSomaIdMap[10] == 9;
    var st := SplitSomaState(10);
    var c0 := Opened(st.cur, 9, 3);
    assert c0 == DBSection([6, 7, 8, 9], 3, -1);
    assert Last(c0.ids) == 9;
    var c1 := c0.(ids := c0.ids + [10]);
    assert c1 == DBSection([6, 7, 8, 9, 10], 3, -1);
    assert 10 in st.endPts;
    assert Step(SplitSoma, SplitSomaIdMap, st, 10) == Ok(Split(st.done, c1, st.endPts, st.ps[10 := 3], st.gaps));
  }

  lemma SplitSomaStep(k: nat)
    requires k < 11
    ensures IdsMapped(SplitSoma, SplitSomaIdMap) && GapsIn(SplitSomaState(k))
    ensures Step(SplitSoma, SplitSomaIdMap, SplitSomaState(k), k) == Ok(SplitSomaState(k + 1))
  {
    if k == 0 {
      SplitSomaStep0();
    } else if k == 1 {
      SplitSomaStep1();
    } else if k == 2 {
      SplitSomaStep2();
    } else if k == 3 {
      SplitSomaStep3();
    } else if k == 4 {
      SplitSomaStep4();
    } else if k == 5 {
      SplitSomaStep5();
    } else if k == 6 {
      SplitSomaStep6();
    } else if k == 7 {
      SplitSomaStep7();
    } else if k == 8 {
      SplitSomaStep8();
    } else if k == 9 {
      SplitSomaStep9();
    } else {
      SplitSomaStep10();
    }
  }

  lemma {:induction false} SplitSomaScanFrom(k: nat)
    requires k <= 11
    ensures IdsMapped(SplitSoma, SplitSomaIdMap) && GapsIn(SplitSomaState(k))
    ensures Scan(SplitSoma, SplitSomaIdMap, SplitSomaState(k), k) == Ok(SplitSomaState(11))
    decreases 11 - k
  {
    if k < 11 {
      SplitSomaStep(k);
      SplitSomaScanFrom(k + 1);
    }
  }

  const SplitSomaSecs: seq<DBSection> :=
    [DBSection([-1, 0], 1, -1), DBSection([0, 1, 2, 3, 4], 3, 0), DBSection([0, 5, 6], 1, 0), DBSection([6, 7, 8, 9, 10], 3, 2)]

  /** The second pass over the split soma: no gaps, so it only sets each section's parent. */
  lemma SplitSomaLinks()
    ensures GapsBelow({}, 4)
    ensures Loop2(Sections(SplitSomaState(11)), SplitSomaState(11).ps, {}, 0) == Ok(SplitSomaSecs)
  {
    var st := SplitSomaState(11);
    var ps := st.ps;
    var s0 := Sections(st);
    assert s0 == [DBSection([-1, 0], 1, -1), DBSection([0, 1, 2, 3, 4], 3, -1), DBSection([0, 5, 6], 1, -1), DBSection([6, 7, 8, 9, 10], 3, -1)];
    assert ps[-1] == -1 && ps[0] == 0 && ps[6] == 2;
    var s1 := s0[0 := DBSection([-1, 0], 1, -1)];
    assert Link(s0, ps, {}, 0) == Ok(s1);
    var s2 := s1[1 := DBSection([0, 1, 2, 3, 4], 3, 0)];
    assert Link(s1, ps, {}, 1) == Ok(s2);
    var s3 := s2[2 := DBSection([0, 5, 6], 1, 0)];
    assert Link(s2, ps, {}, 2) == Ok(s3);
    var s4 := s3[3 := DBSection([6, 7, 8, 9, 10], 3, 2)];
    assert Link(s3, ps, {}, 3) == Ok(s4);
    assert s4 == SplitSomaSecs;
    assert Loop2(s4, ps, {}, 4) == Ok(s4);
    assert Loop2(s3, ps, {}, 3) == Ok(s4);
    assert Loop2(s2, ps, {}, 2) == Ok(s4);
    assert Loop2(s1, ps, {}, 1) == Ok(s4);
  }

  /**
   * A split soma: the soma section [-1, 0], the first dendrite [0 .. 4] hanging from it, the
   * second soma piece [0, 5, 6], and the second dendrite [6 .. 10] hanging from that piece.
   */
  lemma SplitSomaInit()
    ensures InitSplit(SplitSoma, SplitSomaIdMap) == SplitSomaState(0)
  {
    SplitSomaEndPoints();
  }

  lemma SplitSomaScan()
    ensures IdsMapped(SplitSoma, IdMap(SplitSoma)) && GapsIn(InitSplit(SplitSoma, IdMap(SplitSoma)))
    ensures Scan(SplitSoma, IdMap(SplitSoma), InitSplit(SplitSoma, IdMap(SplitSoma)), 0) == Ok(SplitSomaState(11))
  {
    SplitSomaIdMapIs();
    SplitSomaInit();
    SplitSomaScanFrom(0);
  }

  lemma SplitSomaSections()
    ensures ExtractSectionsSpec(SplitSoma) == Ok(SplitSomaSecs)
  {
    SplitSomaScan();
    SplitSomaLinks();
    assert SplitSomaState(11).gaps == {};
    SectionsOfPasses(SplitSoma, SplitSomaState(11), SplitSomaSecs);
  }

  /** The two passes of _extract_sections, put together. */
  lemma SectionsOfPasses(block: Block, st: Split, secs: seq<DBSection>)
    requires IdsMapped(block, IdMap(block)) && GapsIn(InitSplit(block, IdMap(block)))
    requires Scan(block, IdMap(block), InitSplit(block, IdMap(block)), 0) == Ok(st)
    requires GapsBelow(st.gaps, |Sections(st)|) && Loop2(Sections(st), st.ps, st.gaps, 0) == Ok(secs)
    ensures ExtractSectionsSpec(block) == Ok(secs)
  {
  }

  /** Any four sections shaped like the split soma: soma, dendrite, soma piece, dendrite. */
  lemma RootsOfSomaDendritePairs(s: seq<DBSection>)
    requires |s| == 4 && s[0].pid == -1 && s[1].pid == 0 && s[2].pid == 0 && s[3].pid == 2
    requires s[0].ntype == SOMA && s[1].ntype != SOMA && s[2].ntype == SOMA && s[3].ntype != SOMA
    ensures RootIdsFrom(s, 0) == Ok([1, 3])
  {
    assert RootIdsFrom(s, 4) == Ok([]);
    assert IsNeuriteRoot(s, 3);
    RootIdsStep(s, 3, []);
    assert [3] + [] == [3];
    assert !IsNeuriteRoot(s, 2);
    RootIdsStep(s, 2, [3]);
    assert [] + [3] == [3];
    assert IsNeuriteRoot(s, 1);
    RootIdsStep(s, 1, [3]);
    assert [1] + [3] == [1, 3];
    assert !IsNeuriteRoot(s, 0);
    RootIdsStep(s, 0, [1, 3]);
    assert [] + [1, 3] == [1, 3];
  }

  /** Both dendrites start a neurite; the soma pieces do not. */
  lemma SplitSomaRoots()
    ensures NeuriteRootSectionIds(SplitSomaSecs) == Ok([1, 3])
  {
    RootsOfSomaDendritePairs(SplitSomaSecs);
  }

  lemma RootIdsStep(secs: seq<DBSection>, k: nat, rest: seq<int>)
    requires k < |secs| && secs[k].pid < |secs| && RootIdsFrom(secs, k + 1) == Ok(rest)
    ensures RootIdsFrom(secs, k) == Ok((if IsNeuriteRoot(secs, k) then [k] else []) + rest)
  {
  }

  // ---------------------------------------------------------------------------------------------
  // A child listed before its parent

  /** A soma point, a basal point whose parent (ID 2) comes after it, then that parent. */
  const ChildFirst: Block := [P(1, 1, -1), P(3, 3, 2), P(3, 2, 1)]

  const ChildFirstIdMap: map<int, int> := map[-1 := -1, 1 := 0, 3 := 1, 2 := 2]

  lemma ChildFirstIdMapIs()
    ensures IdMap(ChildFirst) == ChildFirstIdMap
  {
    var b := ChildFirst;
    assert IdMapUpTo(b, 1) == map[-1 := -1, 1 := 0];
    assert IdMapUpTo(b, 2) == map[-1 := -1, 1 := 0, 3 := 1];
  }

  lemma ChildFirstCount(id: int)
    ensures CountPid(ChildFirst, id) == (if id == -1 || id == 2 || id == 1 then 1 else 0)
  {
    var b := ChildFirst;
    assert b[2..][1..] == [];
    assert b[1..][1..] == b[2..];
    assert CountPid(b[2..], id) == (if id == 1 then 1 else 0);
    assert CountPid(b[1..], id) == (if id == 2 then 1 else 0) + CountPid(b[2..], id);
  }

  /** The end points: the basal row without children, and the soma row that parents a neurite. */
  lemma ChildFirstEndPoints()
    ensures EndPointsSpec(ChildFirst, ChildFirstIdMap) == {0, 1}
  {
    var b := ChildFirst;
    forall i | 0 <= i < |b|
      ensures CountPid(b, b[i].id) != 1 <==> i == 1
    {
      ChildFirstCount(b[i].id);
    }
    assert ForkOrLeafRows(b) == {1};
    assert ParentsNeurite(b, 1) by {
      assert b[2].ptype != SOMA && b[2].pid == 1;
    }
    forall j | 0 <= j < |b|
      ensures (b[j].ptype == SOMA && b[j].id in ChildFirstIdMap && ParentsNeurite(b, b[j].id)) <==> j == 0
    {
    }
    assert SomaParentRows(b, ChildFirstIdMap) == {0};
  }

  /** The row loop over ChildFirst after k rows. */
  function ChildFirstState(k: nat): Split
  {
    if k == 0 then Split([], EmptySection, {0, 1}, map[-1 := -1], {})
    else if k == 1 then Split([DBSection([-1, 0], 1, -1)], EmptySection, {0, 1}, map[-1 := -1, 0 := 0], {})
    else if k == 2 then
      Split([DBSection([-1, 0], 1, -1), DBSection([2, 1], 3, -1)], EmptySection, {0, 1}, map[-1 := -1, 0 := 0, 1 := 1], {})
    else
      Split([DBSection([-1, 0], 1, -1), DBSection([2, 1], 3, -1)], DBSection([0, 2], 3, -1), {0, 1},
            map[-1 := -1, 0 := 0, 1 := 1], {})
  }

  lemma ChildFirstStep0()
    ensures IdsMapped(ChildFirst, ChildFirstIdMap) && GapsIn(ChildFirstState(0))
    ensures Step(ChildFirst, ChildFirstIdMap, ChildFirstState(0), 0) == Ok(ChildFirstState(1))
  {
    assert ChildFirst[0] == P(1, 1, -1);
    var st := ChildFirstState(0);
    var c0 := Opened(st.cur, -1, 1);
    assert c0 == DBSection([-1], 1, -1);
    assert Last(c0.ids) == -1;
    var c1 := c0.(ids := c0.ids + [0]);
    assert c1 == DBSection([-1, 0], 1, -1);
    assert st.ps[0 := 0] == map[-1 := -1, 0 := 0];
    assert st.done + [c1] == [DBSection([-1, 0], 1, -1)];
    assert Step(ChildFirst, ChildFirstIdMap, st, 0) == Ok(Split(st.done + [c1], EmptySection, st.endPts, st.ps[0 := 0], st.gaps));
  }

  /** The child row opens a section at its parent's ID, which no row has been read for yet. */
  lemma ChildFirstStep1()
    ensures IdsMapped(ChildFirst, ChildFirstIdMap) && GapsIn(ChildFirstState(1))
    ensures Step(ChildFirst, ChildFirstIdMap, ChildFirstState(1), 1) == Ok(ChildFirstState(2))
  {
    assert ChildFirst[1] == P(3, 3, 2);
    var st := ChildFirstState(1);
    var c0 := Opened(st.cur, 2, 3);
    assert c0 == DBSection([2], 3, -1);
    assert Last(c0.ids) == 2;
    var c1 := c0.(ids := c0.ids + [1]);
    assert c1 == DBSection([2, 1], 3, -1);
    assert st.ps[1 := 1] == map[-1 := -1, 0 := 0, 1 := 1];
    assert st.done + [c1] == [DBSection([-1, 0], 1, -1), DBSection([2, 1], 3, -1)];
    assert Step(ChildFirst, ChildFirstIdMap, st, 1) == Ok(Split(st.done + [c1], EmptySection, st.endPts, st.ps[1 := 1], st.gaps));
  }

  lemma ChildFirstStep2()
    ensures IdsMapped(ChildFirst, ChildFirstIdMap) && GapsIn(ChildFirstState(2))
    ensures Step(ChildFirst, ChildFirstIdMap, ChildFirstState(2), 2) == Ok(ChildFirstState(3))
  {
    assert ChildFirst[2] == P(3, 2, 1);
    var st := ChildFirstState(2);
    var c0 := Opened(st.cur, 0, 3);
    assert c0 == DBSection([0], 3, -1);
    assert Last(c0.ids) == 0;
    var c1 := c0.(ids := c0.ids + [2]);
    assert c1 == DBSection([0, 2], 3, -1);
    assert 2 !in st.endPts;
    assert Step(ChildFirst, ChildFirstIdMap, st, 2) == Ok(Split(st.done, c1, st.endPts, st.ps, st.gaps));
  }

  lemma ChildFirstScan()
    ensures IdsMapped(ChildFirst, IdMap(ChildFirst)) && GapsIn(InitSplit(ChildFirst, IdMap(ChildFirst)))
    ensures Scan(ChildFirst, IdMap(ChildFirst), InitSplit(ChildFirst, IdMap(ChildFirst)), 0) == Ok(ChildFirstState(3))
  {
    var b, m := ChildFirst, ChildFirstIdMap;
    ChildFirstIdMapIs();
    ChildFirstEndPoints();
    assert InitSplit(b, m) == ChildFirstState(0);
    ChildFirstStep0();
    ChildFirstStep1();
    ChildFirstStep2();
    assert Scan(b, m, ChildFirstState(3), 3) == Ok(ChildFirstState(3));
    assert Scan(b, m, ChildFirstState(2), 2) == Ok(ChildFirstState(3));
    assert Scan(b, m, ChildFirstState(1), 1) == Ok(ChildFirstState(3));
  }

  /**
   * A child row above its parent row is not read as the documented "no ordering constraint"
   * promises: the child's section starts at the parent's position, which parent_section does
   * not name, and the section loop raises KeyError.
   */
  lemma ChildFirstKeyError()
    ensures ExtractSectionsSpec(ChildFirst) == Err(KeyError)
  {
    ChildFirstScan();
    var st := ChildFirstState(3);
    var s0 := Sections(st);
    assert s0 == [DBSection([-1, 0], 1, -1), DBSection([2, 1], 3, -1), DBSection([0, 2], 3, -1)];
    assert st.ps[-1] == -1 && -1 !in st.gaps;
    assert s0[0 := DBSection([-1, 0], 1, -1)] == s0;
    assert Link(s0, st.ps, {}, 0) == Ok(s0);
    assert s0[1].ids[0] == 2 && 2 !in st.ps;
    assert Link(s0, st.ps, {}, 1) == Err(KeyError);
    assert Loop2(s0, st.ps, {}, 1) == Err(KeyError);
  }

  // ---------------------------------------------------------------------------------------------
  // A fork reached through a gap

  /**
   * Two roots; the first root's only child (ID 3) comes after the second root, and the second
   * root has two children (IDs 4 and 5). Every parent comes before its child.
   */
  const LateFork: Block := [P(3, 1, -1), P(3, 2, -1), P(3, 3, 1), P(3, 4, 2), P(3, 5, 2)]

  const LateForkIdMap: map<int, int> := map[-1 := -1, 1 := 0, 2 := 1, 3 := 2, 4 := 3, 5 := 4]

  lemma LateForkIdMapIs()
    ensures IdMap(LateFork) == LateForkIdMap
  {
    var b := LateFork;
    assert IdMapUpTo(b, 1) == map[-1 := -1, 1 := 0];
    assert IdMapUpTo(b, 2) == map[-1 := -1, 1 := 0, 2 := 1];
    assert IdMapUpTo(b, 3) == map[-1 := -1, 1 := 0, 2 := 1, 3 := 2];
    assert IdMapUpTo(b, 4) == map[-1 := -1, 1 := 0, 2 := 1, 3 := 2, 4 := 3];
  }

  lemma LateForkCount(id: int)
    ensures CountPid(LateFork, id) == (if id == -1 || id == 2 then 2 else if id == 1 then 1 else 0)
  {
    var b := LateFork;
    assert b[4..][1..] == [];
    assert b[3..][1..] == b[4..];
    assert b[2..][1..] == b[3..];
    assert b[1..][1..] == b[2..];
    assert CountPid(b[4..], id) == (if id == 2 then 1 else 0);
    assert CountPid(b[3..], id) == (if id == 2 then 1 else 0) + CountPid(b[4..], id);
    assert CountPid(b[2..], id) == (if id == 1 then 1 else 0) + CountPid(b[3..], id);
    assert CountPid(b[1..], id) == (if id == -1 then 1 else 0) + CountPid(b[2..], id);
  }

  /** Every row but the first root is a fork or a leaf; there is no soma. */
  lemma LateForkEndPoints()
    ensures EndPointsSpec(LateFork, LateForkIdMap) == {1, 2, 3, 4}
  {
    var b := LateFork;
    forall i | 0 <= i < |b|
      ensures CountPid(b, b[i].id) != 1 <==> i != 0
    {
      LateForkCount(b[i].id);
    }
    assert ForkOrLeafRows(b) == {1, 2, 3, 4};
    assert SomaParentRows(b, LateForkIdMap) == {};
  }

  /** The row loop over LateFork after k rows: every row after the first opens a gap. */
  function LateForkState(k: nat): Split
  {
    var e := {1, 2, 3, 4};
    if k == 0 then Split([], EmptySection, e, map[-1 := -1], {})
    else if k == 1 then Split([], DBSection([-1, 0], 3, -1), e, map[-1 := -1], {})
    else if k == 2 then Split([DBSection([-1, 0], 3, -1)], DBSection([-1, 1], 3, -1), e, map[-1 := -1, 0 := 0], {0})
    else if k == 3 then
      Split([DBSection([-1, 0], 3, -1), DBSection([-1, 1], 3, -1)], DBSection([0, 2], 3, -1), e,
            map[-1 := -1, 0 := 0, 1 := 1], {0, 1})
    else if k == 4 then
      Split([DBSection([-1, 0], 3, -1), DBSection([-1, 1], 3, -1), DBSection([0, 2], 3, -1)], DBSection([1, 3], 3, -1), e,
            map[-1 := -1, 0 := 0, 1 := 1, 2 := 2], {0, 1, 2})
    else
      Split([DBSection([-1, 0], 3, -1), DBSection([-1, 1], 3, -1), DBSection([0, 2], 3, -1), DBSection([1, 3], 3, -1)],
            DBSection([1, 4], 3, -1), e, map[-1 := -1, 0 := 0, 1 := 1, 2 := 2, 3 := 3], {0, 1, 2, 3})
  }

  lemma LateForkStep0()
    ensures IdsMapped(LateFork, LateForkIdMap) && GapsIn(LateForkState(0))
    ensures Step(LateFork, LateForkIdMap, LateForkState(0), 0) == Ok(LateForkState(1))
  {
    assert LateFork[0] == P(3, 1, -1);
    var st := LateForkState(0);
    var c0 := Opened(st.cur, -1, 3);
    assert c0 == DBSection([-1], 3, -1);
    assert Last(c0.ids) == -1;
    var c1 := c0.(ids := c0.ids + [0]);
    assert c1 == DBSection([-1, 0], 3, -1);
    assert 0 !in st.endPts;
    assert Step(LateFork, LateForkIdMap, st, 0) == Ok(Split(st.done, c1, st.endPts, st.ps, st.gaps));
  }

  /**
   * The row at position k + 1 (k = 0 .. 3) has a parent at position p other than the last id
   * of the current section, so it closes that section, records it as a gap and opens [p, k + 1].
   */
  lemma LateForkGapStep(k: nat, p: int)
    requires k < 4 && p == [-1, 0, 1, 1][k]
    ensures IdsMapped(LateFork, LateForkIdMap) && GapsIn(LateForkState(k + 1))
    ensures Step(LateFork, LateForkIdMap, LateForkState(k + 1), k + 1) == Ok(LateForkState(k + 2))
  {
    var st := LateForkState(k + 1);
    var row := LateFork[k + 1];
    assert row.pid in LateForkIdMap && LateForkIdMap[row.pid] == p && LateForkIdMap[row.id] == k + 1;
    var c0 := Opened(st.cur, p, 3);
    assert c0 == st.cur && Last(c0.ids) == k && k != p;
    assert k + 1 in st.endPts && st.endPts + {k + 1} == st.endPts;
    assert |st.done| == k && st.done + [c0] == LateForkState(k + 2).done;
    assert st.ps[k := k] == LateForkState(k + 2).ps;
    var nxt := Split(st.done + [c0], DBSection([p, k + 1], 3, -1), st.endPts, st.ps[k := |st.done|], st.gaps + {|st.done|});
    assert nxt == LateForkState(k + 2);
    assert Step(LateFork, LateForkIdMap, st, k + 1) == Ok(nxt);
  }

  lemma LateForkScan()
    ensures IdsMapped(LateFork, IdMap(LateFork)) && GapsIn(InitSplit(LateFork, IdMap(LateFork)))
    ensures Scan(LateFork, IdMap(LateFork), InitSplit(LateFork, IdMap(LateFork)), 0) == Ok(LateForkState(5))
  {
    var b, m := LateFork, LateForkIdMap;
    LateForkIdMapIs();
    LateForkEndPoints();
    assert InitSplit(b, m) == LateForkState(0);
    LateForkStep0();
    LateForkGapStep(0, -1);
    LateForkGapStep(1, 0);
    LateForkGapStep(2, 1);
    LateForkGapStep(3, 1);
    assert Scan(b, m, LateForkState(5), 5) == Ok(LateForkState(5));
    assert Scan(b, m, LateForkState(4), 4) == Ok(LateForkState(5));
    assert Scan(b, m, LateForkState(3), 3) == Ok(LateForkState(5));
    assert Scan(b, m, LateForkState(2), 2) == Ok(LateForkState(5));
    assert Scan(b, m, LateForkState(1), 1) == Ok(LateForkState(5));
  }

  const LateForkSecs: seq<DBSection> :=
    [EmptySection, EmptySection, DBSection([-1, 0, 2], 3, -1), DBSection([-1, 1, 3], 3, -1), DBSection([4], 0, -1)]

  /** The sections after the row loop over LateFork, before any linking. */
  const LateForkS0: seq<DBSection> :=
    [DBSection([-1, 0], 3, -1), DBSection([-1, 1], 3, -1), DBSection([0, 2], 3, -1), DBSection([1, 3], 3, -1), DBSection([1, 4], 3, -1)]

  /** After linking section 2 into the gap section 0. */
  const LateForkS3: seq<DBSection> :=
    [EmptySection, DBSection([-1, 1], 3, -1), DBSection([-1, 0, 2], 3, -1), DBSection([1, 3], 3, -1), DBSection([1, 4], 3, -1)]

  /** After linking section 3 into the gap section 1. */
  const LateForkS4: seq<DBSection> :=
    [EmptySection, EmptySection, DBSection([-1, 0, 2], 3, -1), DBSection([-1, 1, 3], 3, -1), DBSection([1, 4], 3, -1)]

  /** The two roots take the parent section ROOT_ID, which is no gap. */
  lemma LateForkRootLinks(ps: map<int, int>, gaps: set<int>)
    requires gaps == {0, 1, 2, 3} && -1 in ps && ps[-1] == -1
    ensures Link(LateForkS0, ps, gaps, 0) == Ok(LateForkS0)
    ensures Link(LateForkS0, ps, gaps, 1) == Ok(LateForkS0)
  {
    var s0 := LateForkS0;
    assert s0[0 := s0[0]] == s0 && s0[1 := s0[1]] == s0;
  }

  /** Section 2 hangs from the gap section 0 and absorbs it. */
  lemma LateForkLink2(ps: map<int, int>, gaps: set<int>)
    requires gaps == {0, 1, 2, 3} && 0 in ps && ps[0] == 0
    ensures Link(LateForkS0, ps, gaps, 2) == Ok(LateForkS3)
  {
    var s0 := LateForkS0;
    assert Rest([0, 2]) == [2] && [-1, 0] + [2] == [-1, 0, 2];
    assert s0[2 := DBSection([0, 2], 3, 0)][0] == DBSection([-1, 0], 3, -1);
    assert MergeSections(DBSection([-1, 0], 3, -1), DBSection([0, 2], 3, 0)) == (EmptySection, DBSection([-1, 0, 2], 3, -1));
    assert s0[2 := DBSection([0, 2], 3, 0)][2 := DBSection([-1, 0, 2], 3, -1)][0 := EmptySection] == LateForkS3;
  }

  /** Section 3 hangs from the gap section 1 and absorbs it. */
  lemma LateForkLink3(ps: map<int, int>, gaps: set<int>)
    requires gaps == {0, 1, 2, 3} && 1 in ps && ps[1] == 1
    ensures Link(LateForkS3, ps, gaps, 3) == Ok(LateForkS4)
  {
    var s3 := LateForkS3;
    assert Rest([1, 3]) == [3] && [-1, 1] + [3] == [-1, 1, 3];
    assert s3[3 := DBSection([1, 3], 3, 1)][1] == DBSection([-1, 1], 3, -1);
    assert MergeSections(DBSection([-1, 1], 3, -1), DBSection([1, 3], 3, 1)) == (EmptySection, DBSection([-1, 1, 3], 3, -1));
    assert s3[3 := DBSection([1, 3], 3, 1)][3 := DBSection([-1, 1, 3], 3, -1)][1 := EmptySection] == LateForkS4;
  }

  /** Section 4 also hangs from section 1, which is now empty: it keeps only its own row. */
  lemma LateForkLink4(ps: map<int, int>, gaps: set<int>)
    requires gaps == {0, 1, 2, 3} && 1 in ps && ps[1] == 1
    ensures Link(LateForkS4, ps, gaps, 4) == Ok(LateForkSecs)
  {
    var s4 := LateForkS4;
    assert Rest([1, 4]) == [4] && [] + [4] == [4];
    assert s4[4 := DBSection([1, 4], 3, 1)][1] == EmptySection;
    assert MergeSections(EmptySection, DBSection([1, 4], 3, 1)) == (EmptySection, DBSection([4], 0, -1));
    assert s4[4 := DBSection([1, 4], 3, 1)][4 := DBSection([4], 0, -1)][1 := EmptySection] == LateForkSecs;
  }

  /**
   * The section loop over LateFork: the child of the first root absorbs its gap section, the
   * first child of the second root absorbs the second root's section, and the second child
   * then merges with that section, already emptied, and keeps only its own row.
   */
  lemma LateForkLinks()
    ensures GapsBelow({0, 1, 2, 3}, 5)
    ensures Loop2(Sections(LateForkState(5)), LateForkState(5).ps, {0, 1, 2, 3}, 0) == Ok(LateForkSecs)
  {
    var st := LateForkState(5);
    var ps, gaps := st.ps, st.gaps;
    assert Sections(st) == LateForkS0;
    assert ps[-1] == -1 && ps[0] == 0 && ps[1] == 1 && gaps == {0, 1, 2, 3};
    LateForkRootLinks(ps, gaps);
    LateForkLink2(ps, gaps);
    LateForkLink3(ps, gaps);
    LateForkLink4(ps, gaps);
    assert Loop2(LateForkSecs, ps, gaps, 5) == Ok(LateForkSecs);
    assert Loop2(LateForkS4, ps, gaps, 4) == Ok(LateForkSecs);
    assert Loop2(LateForkS3, ps, gaps, 3) == Ok(LateForkSecs);
    assert Loop2(LateForkS0, ps, gaps, 2) == Ok(LateForkSecs);
    assert Loop2(LateForkS0, ps, gaps, 1) == Ok(LateForkSecs);
  }

  /** The parents of LateFork all come first, but it is not in depth-first order. */
  lemma LateForkOrder()
    ensures UniqueIds(LateFork) && ParentsEarlier(LateFork) && !OnlyChildNext(LateFork)
  {
    var b := LateFork;
    assert b[2].pid == b[0].id && b[3].pid == b[1].id && b[4].pid == b[1].id;
    LateForkCount(b[0].id);
    assert b[1].pid != b[0].id;
  }

  lemma LateForkSections()
    ensures ExtractSectionsSpec(LateFork) == Ok(LateForkSecs)
  {
    LateForkScan();
    LateForkLinks();
    SectionsOfPasses(LateFork, LateForkState(5), LateForkSecs);
  }

  /**
   * A block whose parents all come first can still lose a row: in LateFork the last row
   * (position 4) ends up as the first id of a one-id section, so no returned section lists it
   * among its points.
   */
  lemma LateForkLosesRow()
    ensures UniqueIds(LateFork) && ParentsEarlier(LateFork)
    ensures ExtractSectionsSpec(LateFork) == Ok(LateForkSecs) && 4 !in Flatten(IdTails(LateForkSecs))
    ensures LateFork[4].pid == LateFork[1].id && LateFork[4].ptype == 3
    ensures LateForkSecs[4] == DBSection([4], 0, -1)
  {
    LateForkOrder();
    LateForkSections();
    LateForkTails();
    LateForkCutOff();
  }

  /** The last row is a basal dendrite point under row 1, but its section is a lone id of type 0 under no section. */
  lemma LateForkCutOff()
    ensures LateFork[4].pid == LateFork[1].id && LateFork[4].ptype == 3
    ensures LateForkSecs[4] == DBSection([4], 0, -1)
  {
  }

  lemma LateForkTails()
    ensures Flatten(IdTails(LateForkSecs)) == [0, 2, 1, 3]
  {
    var t := IdTails(LateForkSecs);
    assert Rest([-1, 0, 2]) == [0, 2] && Rest([-1, 1, 3]) == [1, 3] && Rest([4]) == [] && Rest<int>([]) == [];
    assert t == [[], [], [0, 2], [1, 3], []];
    assert Flatten(t) == [0, 2, 1, 3] by {
      assert t[4..][1..] == [];
      assert t[3..][1..] == t[4..];
      assert t[2..][1..] == t[3..];
      assert t[1..][1..] == t[2..];
      assert t[0..][1..] == t[1..];
      assert Flatten(t[4..]) == [];
      assert Flatten(t[3..]) == [1, 3];
      assert Flatten(t[2..]) == [0, 2, 1, 3];
      assert Flatten(t[1..]) == [0, 2, 1, 3];
      assert t[0..] == t;
    }
  }
}

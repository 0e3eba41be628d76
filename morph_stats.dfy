/**
 * The helpers of the morph_stats application (neurom/apps/morph_stats.py): summary statistics
 * of a feature's values, the names of the statistics, the CSV header and rows built from
 * nested result dictionaries, and the configuration check.
 *
 * Python dictionaries keep insertion order; they are association lists here.
 */
module MorphStats {
  import opened Wrappers
  import opened Seqs

  // ---------------------------------------------------------------------------------------------
  // eval_stats

  /** What eval_stats returns: the list itself ('raw'), None, or one number. */
  datatype Stat = RawList(values: seq<real>) | NoStat | Number(v: real)

  /**
   * eval_stats on a one-dimensional array. 'total' is 'sum'; sum, min and max are computed
   * here, and any other mode is looked up in numpy, a parameter that may raise
   * AttributeError.
   */
  function EvalStats(values: seq<real>, mode: string, numpy: (string, seq<real>) -> Result<real>): (r: Result<Stat>)
    ensures mode == "raw" ==> r == Ok(RawList(values))
    ensures mode == "total" || mode == "sum" ==> r == Ok(Number(Sum(values)))
    ensures mode !in {"raw", "total", "sum"} && values == [] ==> r == Ok(NoStat)
    ensures (mode == "min" || mode == "max") && values != [] ==>
      r.Ok? && r.value.Number? && r.value.v in values
    ensures mode == "min" && values != [] ==> forall i :: 0 <= i < |values| ==> r.value.v <= values[i]
    ensures mode == "max" && values != [] ==> forall i :: 0 <= i < |values| ==> values[i] <= r.value.v
    ensures mode !in {"raw", "total", "sum", "min", "max"} && values != [] ==>
      (r.Ok? <==> numpy(mode, values).Ok?) &&
      (r.Ok? ==> r.value == Number(numpy(mode, values).value)) &&
      (r.Err? ==> r.error == numpy(mode, values).error)
  {
    if mode == "raw" then Ok(RawList(values))
    else
      var m := if mode == "total" then "sum" else mode;
      if values == [] && m != "raw" && m != "sum" then Ok(NoStat)
      else if m == "sum" then Ok(Number(Sum(values)))
      else if m == "min" then Ok(Number(MinReal(values)))
      else if m == "max" then Ok(Number(MaxReal(values)))
      else
        match numpy(m, values)
        case Ok(v) => Ok(Number(v))
        case Err(e) => Err(e)
  }

  /** On empty input 'raw' gives [], 'total' gives 0.0, and every other mode gives None. */
  lemma EvalStatsEmpty(mode: string, numpy: (string, seq<real>) -> Result<real>)
    ensures EvalStats([], "raw", numpy) == Ok(RawList([]))
    ensures EvalStats([], "total", numpy) == Ok(Number(0.0))
    ensures mode !in {"raw", "total", "sum"} ==> EvalStats([], mode, numpy) == Ok(NoStat)
  {
  }

  /** The 'total' of two arrays joined is the sum of their totals. */
  lemma EvalTotalConcat(a: seq<real>, b: seq<real>, numpy: (string, seq<real>) -> Result<real>)
    ensures EvalStats(a + b, "total", numpy).value.v ==
      EvalStats(a, "total", numpy).value.v + EvalStats(b, "total", numpy).value.v
  {
    SumConcat(a, b);
  }

  // ---------------------------------------------------------------------------------------------
  // _stat_name

  /** The feature part of a stat name: one trailing 's' dropped, and soma_radii read as soma_radius. */
  function Singular(featName: string): (r: string)
    requires featName != []
    ensures featName[|featName| - 1] != 's' && featName != "soma_radii" ==> r == featName
    ensures featName[|featName| - 1] == 's' && featName[..|featName| - 1] != "soma_radii" ==> r == featName[..|featName| - 1]
  {
    var stem := if featName[|featName| - 1] == 's' then featName[..|featName| - 1] else featName;
    if stem == "soma_radii" then "soma_radius" else stem
  }

  /**
   * _stat_name: IndexError for an empty feature name; otherwise the singular feature name,
   * prefixed by the mode and an underscore unless the mode is 'raw'.
   */
  function StatName(featName: string, mode: string): (r: Result<string>)
    ensures r.Err? <==> featName == []
    ensures r.Err? ==> r.error == IndexError
    ensures r.Ok? && mode == "raw" ==> r.value == Singular(featName)
    ensures r.Ok? && mode != "raw" ==>
      |r.value| == |mode| + 1 + |Singular(featName)| &&
      r.value[..|mode|] == mode && r.value[|mode|] == '_' && r.value[|mode| + 1..] == Singular(featName)
  {
    if featName == [] then Err(IndexError)
    else if mode == "raw" then Ok(Singular(featName))
    else Ok(mode + "_" + Singular(featName))
  }

  /** The examples of the name correction. */
  lemma StatNameExamples()
    ensures StatName("foo", "raw") == Ok("foo")
    ensures StatName("foos", "raw") == Ok("foo")
    ensures StatName("foos", "bar") == Ok("bar_foo")
    ensures StatName("foos", "total") == Ok("total_foo")
    ensures StatName("soma_radii", "total") == Ok("total_soma_radius")
    ensures StatName("soma_radii", "raw") == Ok("soma_radius")
  {
    assert "foo"[2] != 's' && "foo" != "soma_radii";
    assert Singular("foo") == "foo";
    assert "foos"[3] == 's' && "foos"[..3] == "foo";
    assert Singular("foos") == "foo";
    assert "soma_radii"[9] != 's';
    assert Singular("soma_radii") == "soma_radius";
    assert "bar" + "_" + "foo" == "bar_foo";
    assert "total" + "_" + "foo" == "total_foo";
    assert "total" + "_" + "soma_radius" == "total_soma_radius";
  }

  /**
   * For one feature, different modes never give the same stat name, so the statistics of
   * one feature never overwrite each other.
   */
  lemma StatNameInjective(featName: string, m1: string, m2: string)
    requires featName != [] && m1 != m2
    ensures StatName(featName, m1).value != StatName(featName, m2).value
  {
    var a, b := StatName(featName, m1).value, StatName(featName, m2).value;
    if m1 != "raw" && m2 != "raw" && |m1| == |m2| {
      assert a[..|m1|] == m1 && b[..|m2|] == m2;
    }
  }

  // ---------------------------------------------------------------------------------------------
  // get_header and generate_flattened_dict

  /** A value of a result dictionary: a scalar, or a dictionary of metrics. */
  datatype Cell<T> = Scalar(v: T) | Metrics(ms: seq<(string, T)>)

  /** One morphology's results: key to cell, in insertion order. */
  type Entries<T> = seq<(string, Cell<T>)>

  /** The header fields of one entry: its key for a scalar, `key:metric` for each metric. */
  function Fields<T>(e: (string, Cell<T>)): (r: seq<string>)
    ensures e.1.Scalar? ==> r == [e.0]
    ensures e.1.Metrics? ==> |r| == |e.1.ms| && forall i :: 0 <= i < |r| ==> r[i] == e.0 + ":" + e.1.ms[i].0
  {
    match e.1
    case Scalar(_) => [e.0]
    case Metrics(ms) => seq(|ms|, i requires 0 <= i < |ms| => e.0 + ":" + ms[i].0)
  }

  /** The header fields of a morphology's results, entry after entry. */
  function HeaderOf<T>(es: Entries<T>): seq<string>
  {
    if es == [] then [] else Fields(es[0]) + HeaderOf(es[1..])
  }

  /** get_header: 'name' and the fields of the first morphology's results; StopIteration if there are none. */
  method GetHeader<T>(results: seq<(string, Entries<T>)>) returns (r: Result<seq<string>>)
    ensures results == [] ==> r == Err(StopIteration)
    ensures results != [] ==> r == Ok(["name"] + HeaderOf(results[0].1))
  {
    if results == [] {
      return Err(StopIteration);
    }
    var values := results[0].1;
    var ret := ["name"];
    var i := 0;
    while i < |values|
      invariant 0 <= i <= |values|
      invariant ret + HeaderOf(values[i..]) == ["name"] + HeaderOf(values)
    {
      assert HeaderOf(values[i..]) == Fields(values[i]) + HeaderOf(values[i + 1..]) by {
        assert values[i..][1..] == values[i + 1..];
      }
      ret := AppendFields(ret, values[i]);
      i := i + 1;
    }
    assert HeaderOf(values[i..]) == [];
    assert ret + HeaderOf(values[i..]) == ret;
    r := Ok(ret);
  }

  /** The body of get_header's loop: the fields of one entry appended to the header so far. */
  method AppendFields<T>(header: seq<string>, e: (string, Cell<T>)) returns (r: seq<string>)
    ensures r == header + Fields(e)
  {
    var (k, v) := e;
    match v {
      case Scalar(_) =>
        r := header + [k];
      case Metrics(ms) =>
        r := header;
        var j := 0;
        while j < |ms|
          invariant 0 <= j <= |ms|
          invariant r == header + Fields(e)[..j]
        {
          assert Fields(e)[..j + 1] == Fields(e)[..j] + [k + ":" + ms[j].0];
          r := r + [k + ":" + ms[j].0];
          j := j + 1;
        }
        assert Fields(e)[..j] == Fields(e);
    }
  }

  /** str.split with a one-character separator: the pieces between separators, always at least one. */
  function SplitOn(s: string, c: char): (r: seq<string>)
    ensures |r| >= 1
    ensures c !in s ==> r == [s]
  {
    if s == [] then [[]]
    else
      var rest := SplitOn(s[1..], c);
      assert c !in s ==> c !in s[1..] && [s[0]] + s[1..] == s;
      if s[0] == c then [[]] + rest else [[s[0]] + rest[0]] + rest[1..]
  }

  /** Splitting `k:m` gives back k and m when neither holds a colon. */
  lemma {:induction false} SplitJoin(k: string, m: string, c: char)
    requires c !in k && c !in m
    ensures SplitOn(k + [c] + m, c) == [k, m]
  {
    if k == [] {
      assert k + [c] + m == [c] + m;
      assert ([c] + m)[1..] == m;
    } else {
      assert (k + [c] + m)[1..] == k[1..] + [c] + m;
      SplitJoin(k[1..], m, c);
      assert [k[0]] + k[1..] == k;
    }
  }

  /** The first value under a key of an association list. */
  function Find<V>(kvs: seq<(string, V)>, key: string): (r: Option<V>)
    ensures r.None? <==> forall i :: 0 <= i < |kvs| ==> kvs[i].0 != key
  {
    if kvs == [] then None
    else if kvs[0].0 == key then Some(kvs[0].1)
    else
      assert forall i :: 1 <= i < |kvs| ==> kvs[i] == kvs[1..][i - 1];
      Find(kvs[1..], key)
  }

  /** An element of a row: the morphology's name, a value, or a whole metrics dictionary. */
  datatype RowItem<T> = NameItem(name: string) | ValueItem(v: T) | DictItem(ms: seq<(string, T)>)

  /**
   * The row element for one header field: the name for 'name'; for `type:metric` the metric
   * inside that entry (ValueError unless there is exactly one colon, KeyError for a missing
   * key, TypeError when the entry is a scalar); otherwise the entry itself.
   */
  function Item<T>(header: string, name: string, values: Entries<T>): (r: Result<RowItem<T>>)
    ensures header == "name" ==> r == Ok(NameItem(name))
    ensures r.Err? ==> r.error == ValueError || r.error == KeyError || r.error == TypeError
    ensures r.Err? && r.error == ValueError <==> header != "name" && ':' in header && |SplitOn(header, ':')| != 2
    ensures header != "name" && ':' !in header ==> (r.Ok? <==> exists i :: 0 <= i < |values| && values[i].0 == header)
    ensures r.Ok? && r.value.NameItem? ==> header == "name"
  {
    if header == "name" then Ok(NameItem(name))
    else if ':' in header then
      var parts := SplitOn(header, ':');
      if |parts| != 2 then Err(ValueError)
      else
        var found: Option<Cell<T>> := Find(values, parts[0]);
        match found
        case None => Err(KeyError)
        case Some(Scalar(_)) => Err(TypeError)
        case Some(Metrics(ms)) =>
          match Find(ms, parts[1])
          case None => Err(KeyError)
          case Some(v) => Ok(ValueItem(v))
    else
      var found: Option<Cell<T>> := Find(values, header);
      match found
      case None => Err(KeyError)
      case Some(Scalar(v)) => Ok(ValueItem(v))
      case Some(Metrics(ms)) => Ok(DictItem(ms))
  }

  /** The row of one morphology: its items in header order, or the first failure. */
  function Row<T>(headers: seq<string>, name: string, values: Entries<T>): (r: Result<seq<RowItem<T>>>)
    ensures r.Ok? <==> forall i :: 0 <= i < |headers| ==> Item(headers[i], name, values).Ok?
    ensures r.Ok? ==> |r.value| == |headers|
    ensures r.Ok? ==> forall i :: 0 <= i < |headers| ==> r.value[i] == Item(headers[i], name, values).value
  {
    if headers == [] then Ok([])
    else
      assert forall i :: 1 <= i < |headers| ==> headers[i] == headers[1..][i - 1];
      match Item(headers[0], name, values)
      case Err(e) => Err(e)
      case Ok(x) =>
        match Row(headers[1..], name, values)
        case Err(e) => Err(e)
        case Ok(xs) => Ok([x] + xs)
  }

  /** The inner loop of generate_flattened_dict: the row of one morphology. */
  method FlattenedRow<T>(headers: seq<string>, name: string, values: Entries<T>) returns (r: Result<seq<RowItem<T>>>)
    ensures r.Ok? <==> Row(headers, name, values).Ok?
    ensures r.Ok? ==> r.value == Row(headers, name, values).value
  {
    var row: seq<RowItem<T>> := [];
    var i := 0;
    while i < |headers|
      invariant 0 <= i <= |headers|
      invariant |row| == i && forall j :: 0 <= j < i ==> Item(headers[j], name, values).Ok? && row[j] == Item(headers[j], name, values).value
    {
      var x := Item(headers[i], name, values);
      if x.Err? {
        return Err(x.error);
      }
      row := row + [x.value];
      i := i + 1;
    }
    r := Ok(row);
  }

  /** generate_flattened_dict consumed into a list: one row per morphology, or the first failure. */
  function Rows<T>(headers: seq<string>, results: seq<(string, Entries<T>)>): (r: Result<seq<seq<RowItem<T>>>>)
    ensures r.Ok? <==> forall i :: 0 <= i < |results| ==> Row(headers, results[i].0, results[i].1).Ok?
    ensures r.Ok? ==> |r.value| == |results|
    ensures r.Ok? ==> forall i :: 0 <= i < |results| ==> r.value[i] == Row(headers, results[i].0, results[i].1).value
  {
    if results == [] then Ok([])
    else
      assert forall i :: 1 <= i < |results| ==> results[i] == results[1..][i - 1];
      match Row(headers, results[0].0, results[0].1)
      case Err(e) => Err(e)
      case Ok(x) =>
        match Rows(headers, results[1..])
        case Err(e) => Err(e)
        case Ok(xs) => Ok([x] + xs)
  }

  /** The values of a morphology's results in header order. */
  function ValuesOf<T>(es: Entries<T>): (r: seq<RowItem<T>>)
    ensures |r| == |HeaderOf(es)|
  {
    if es == [] then []
    else
      match es[0].1
      case Scalar(v) => [ValueItem(v)] + ValuesOf(es[1..])
      case Metrics(ms) => seq(|ms|, i requires 0 <= i < |ms| => ValueItem(ms[i].1)) + ValuesOf(es[1..])
  }

  /** Keys without colons, other than 'name', each used once; metric names likewise. */
  predicate WellFormed<T>(es: Entries<T>)
  {
    (forall i, j :: 0 <= i < j < |es| ==> es[i].0 != es[j].0) &&
    (forall i :: 0 <= i < |es| ==> ':' !in es[i].0 && es[i].0 != "name" && MetricsWellFormed(es[i].1))
  }

  predicate MetricsWellFormed<T>(c: Cell<T>)
  {
    c.Metrics? ==>
      (forall i, j :: 0 <= i < j < |c.ms| ==> c.ms[i].0 != c.ms[j].0) &&
      (forall i :: 0 <= i < |c.ms| ==> ':' !in c.ms[i].0)
  }

  lemma {:induction false} FindMetric<T>(ms: seq<(string, T)>, i: nat)
    requires i < |ms| && forall a, b :: 0 <= a < b < |ms| ==> ms[a].0 != ms[b].0
    ensures Find(ms, ms[i].0) == Some(ms[i].1)
  {
    if i > 0 {
      assert forall a, b :: 0 <= a < b < |ms[1..]| ==> ms[1..][a].0 != ms[1..][b].0 by {
        forall a, b | 0 <= a < b < |ms[1..]|
          ensures ms[1..][a].0 != ms[1..][b].0
        {
          assert ms[1..][a] == ms[a + 1] && ms[1..][b] == ms[b + 1];
        }
      }
      FindMetric(ms[1..], i - 1);
    }
  }

  /** The item of a field of the first entry: found at the head of the list. */
  lemma HeadFieldItem<T>(name: string, es: Entries<T>, j: nat)
    requires es != [] && WellFormed(es) && j < |Fields(es[0])|
    ensures Item(Fields(es[0])[j], name, es) == Ok(ValuesOf(es)[j])
  {
    var k := es[0].0;
    if es[0].1.Metrics? {
      var ms := es[0].1.ms;
      var field := k + ":" + ms[j].0;
      assert field == k + [':'] + ms[j].0;
      assert field[|k|] == ':';
      SplitJoin(k, ms[j].0, ':');
      FindMetric(ms, j);
    }
  }

  /** The item of a field of a later entry is unchanged by an entry with another key in front. */
  lemma TailFieldItem<T>(name: string, e: (string, Cell<T>), es: Entries<T>, field: string)
    requires ':' !in e.0 && field != "name"
    requires ':' in field ==> |SplitOn(field, ':')| == 2 && SplitOn(field, ':')[0] != e.0
    requires ':' !in field ==> field != e.0
    ensures Item(field, name, [e] + es) == Item(field, name, es)
  {
    assert ([e] + es)[1..] == es;
  }

  lemma WellFormedTail<T>(es: Entries<T>)
    requires es != [] && WellFormed(es)
    ensures WellFormed(es[1..])
  {
    forall i, j | 0 <= i < j < |es[1..]|
      ensures es[1..][i].0 != es[1..][j].0
    {
      assert es[1..][i] == es[i + 1] && es[1..][j] == es[j + 1];
    }
  }

  /** Each field of a later entry names that entry's key, which differs from the head's key. */
  lemma TailFieldShape<T>(es: Entries<T>, j: nat)
    requires es != [] && WellFormed(es) && j < |HeaderOf(es[1..])|
    ensures var field := HeaderOf(es[1..])[j];
      field != "name" &&
      (':' in field ==> |SplitOn(field, ':')| == 2 && SplitOn(field, ':')[0] != es[0].0) &&
      (':' !in field ==> field != es[0].0)
  {
    var x := FieldOwner(es[1..], j);
    assert es[1..][x] == es[x + 1];
    var (k, c) := es[1..][x];
    var field := HeaderOf(es[1..])[j];
    match c {
      case Scalar(_) =>
        assert field == k;
      case Metrics(ms) =>
        var m :| 0 <= m < |ms| && field == k + ":" + ms[m].0;
        assert field == k + [':'] + ms[m].0;
        assert field[|k|] == ':';
        SplitJoin(k, ms[m].0, ':');
    }
  }

  /** The entry a header field comes from. */
  lemma {:induction false} FieldOwner<T>(es: Entries<T>, j: nat) returns (x: nat)
    requires j < |HeaderOf(es)|
    ensures x < |es|
    ensures es[x].1.Scalar? ==> HeaderOf(es)[j] == es[x].0
    ensures es[x].1.Metrics? ==> exists m :: 0 <= m < |es[x].1.ms| && HeaderOf(es)[j] == es[x].0 + ":" + es[x].1.ms[m].0
  {
    var f := Fields(es[0]);
    if j < |f| {
      x := 0;
      if es[0].1.Metrics? {
        assert HeaderOf(es)[j] == es[0].0 + ":" + es[0].1.ms[j].0;
      }
    } else {
      var y := FieldOwner(es[1..], j - |f|);
      x := y + 1;
      assert es[1..][y] == es[x];
      if es[x].1.Metrics? {
        var m :| 0 <= m < |es[x].1.ms| && HeaderOf(es[1..])[j - |f|] == es[x].0 + ":" + es[x].1.ms[m].0;
        assert HeaderOf(es)[j] == es[x].0 + ":" + es[x].1.ms[m].0;
      }
    }
  }

  /** Every field of a morphology's own header finds its value, in order. */
  lemma {:induction false} ItemsOfOwnHeader<T>(name: string, es: Entries<T>, j: nat)
    requires WellFormed(es) && j < |HeaderOf(es)|
    ensures Item(HeaderOf(es)[j], name, es) == Ok(ValuesOf(es)[j])
    decreases |es|
  {
    var f := Fields(es[0]);
    if j < |f| {
      HeadFieldItem(name, es, j);
    } else {
      var field := HeaderOf(es[1..])[j - |f|];
      assert HeaderOf(es)[j] == field;
      WellFormedTail(es);
      ItemsOfOwnHeader(name, es[1..], j - |f|);
      TailItem(name, es, j - |f|);
      ValuesOfTail(es, j);
    }
  }

  /** A field of a later entry finds the same item with or without the head entry. */
  lemma TailItem<T>(name: string, es: Entries<T>, j: nat)
    requires es != [] && WellFormed(es) && j < |HeaderOf(es[1..])|
    ensures Item(HeaderOf(es[1..])[j], name, es) == Item(HeaderOf(es[1..])[j], name, es[1..])
  {
    TailFieldShape(es, j);
    assert ':' !in es[0].0;
    assert [es[0]] + es[1..] == es;
    TailFieldItem(name, es[0], es[1..], HeaderOf(es[1..])[j]);
  }

  /** Past the first entry's fields, the values are those of the remaining entries. */
  lemma ValuesOfTail<T>(es: Entries<T>, j: nat)
    requires es != [] && |Fields(es[0])| <= j < |HeaderOf(es)|
    ensures ValuesOf(es)[j] == ValuesOf(es[1..])[j - |Fields(es[0])|]
  {
    var head := ValuesOf(es)[..|ValuesOf(es)| - |ValuesOf(es[1..])|];
    assert ValuesOf(es) == head + ValuesOf(es[1..]);
    assert |head| == |Fields(es[0])|;
  }

  /** A morphology's row under its own header: its name, then its values in header order. */
  lemma OwnRow<T>(name: string, es: Entries<T>)
    requires WellFormed(es)
    ensures Row(["name"] + HeaderOf(es), name, es) == Ok([NameItem(name)] + ValuesOf(es))
  {
    var headers := ["name"] + HeaderOf(es);
    var expected := [NameItem(name)] + ValuesOf(es);
    forall j | 0 <= j < |headers|
      ensures Item(headers[j], name, es) == Ok(expected[j])
    {
      if j > 0 {
        ItemsOfOwnHeader(name, es, j - 1);
      }
    }
    var r := Row(headers, name, es);
    assert r.Ok?;
    assert r.value == expected;
  }

  /**
   * The header and the rows agree: when every morphology's results have the fields of the
   * first one, each row is the morphology's name followed by its values in header order.
   */
  lemma HeaderRowsAgree<T>(results: seq<(string, Entries<T>)>)
    requires results != []
    requires forall i :: 0 <= i < |results| ==> WellFormed(results[i].1) && HeaderOf(results[i].1) == HeaderOf(results[0].1)
    ensures Rows(["name"] + HeaderOf(results[0].1), results).Ok?
    ensures |Rows(["name"] + HeaderOf(results[0].1), results).value| == |results|
    ensures forall i :: 0 <= i < |results| ==>
      Rows(["name"] + HeaderOf(results[0].1), results).value[i] == [NameItem(results[i].0)] + ValuesOf(results[i].1)
  {
    var headers := ["name"] + HeaderOf(results[0].1);
    forall i | 0 <= i < |results|
      ensures Row(headers, results[i].0, results[i].1) == Ok([NameItem(results[i].0)] + ValuesOf(results[i].1))
    {
      OwnRow(results[i].0, results[i].1);
    }
  }

  // ---------------------------------------------------------------------------------------------
  // sanitize_config

  /** A configuration value: a dictionary of feature name to modes, or a list of names. */
  datatype ConfigValue = FeatureModes(modes: map<string, seq<string>>) | Names(names: seq<string>)

  /**
   * sanitize_config: ConfigError when 'neurite' is set without 'neurite_type'; otherwise a
   * missing 'neurite' or 'neuron' becomes an empty dictionary and nothing else changes.
   */
  function Sanitized(config: map<string, ConfigValue>): (r: Result<map<string, ConfigValue>>)
    ensures r.Err? <==> "neurite" in config && "neurite_type" !in config
    ensures r.Err? ==> r.error == ConfigError
    ensures r.Ok? ==> r.value.Keys == config.Keys + {"neurite", "neuron"}
    ensures r.Ok? ==> forall k :: k in config ==> r.value[k] == config[k]
    ensures r.Ok? ==> forall k :: k in r.value && k !in config ==> r.value[k] == FeatureModes(map[])
  {
    if "neurite" in config && "neurite_type" !in config then Err(ConfigError)
    else
      var withNeurite := if "neurite" in config then config else config["neurite" := FeatureModes(map[])];
      Ok(if "neuron" in withNeurite then withNeurite else withNeurite["neuron" := FeatureModes(map[])])
  }

  /** A configuration that names neurite types is sanitized once and for all. */
  lemma SanitizedIdempotent(config: map<string, ConfigValue>)
    requires Sanitized(config).Ok? && "neurite_type" in config
    ensures Sanitized(Sanitized(config).value) == Sanitized(config)
  {
    var c := Sanitized(config).value;
    assert "neurite" in c && "neuron" in c && "neurite_type" in c;
  }

  /**
   * Without 'neurite_type' the check is not idempotent: the empty configuration gains an
   * empty 'neurite' entry, which a second check then refuses.
   */
  lemma SanitizedTwiceFails()
    ensures Sanitized(map[]).Ok?
    ensures Sanitized(Sanitized(map[]).value) == Err(ConfigError)
  {
    var c := Sanitized(map[]).value;
    assert "neurite" in c && "neurite_type" !in c;
  }

  /** The configuration dictionary, which sanitize_config updates in place. */
  class Config {
    var entries: map<string, ConfigValue>

    constructor(entries: map<string, ConfigValue>)
      ensures this.entries == entries
    {
      this.entries := entries;
    }

    method Sanitize() returns (err: Option<Exception>)
      modifies this
      ensures var r := Sanitized(old(entries));
        (r.Ok? ==> err == None && entries == r.value) &&
        (r.Err? ==> err == Some(r.error) && entries == old(entries))
    {
      if "neurite" in entries {
        if "neurite_type" !in entries {
          return Some(ConfigError);
        }
      } else {
        entries := entries["neurite" := FeatureModes(map[])];
      }
      if "neuron" !in entries {
        entries := entries["neuron" := FeatureModes(map[])];
      }
      err := None;
    }
  }
}

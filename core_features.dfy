/**
 * The feature registry of neurom/core/features.py: two namespaces of named features,
 * registration that refuses to hide a name, the decorator that registers a function under
 * several names, and lookup along a resolution order.
 */
module FeatureRegistry {
  import opened Wrappers
  import opened Seqs
  import opened Types
  import opened Morphology
  import opened NeurolucidaTokens

  /** A feature: applied to a neurite source with a neurite_type keyword, it yields values. */
  type FeatureFn = (NeuriteSource, NeuriteType) -> seq<real>

  /** FEATURES: namespace name to feature name to feature. */
  type Features = map<string, map<string, FeatureFn>>

  const NEURITE_NS: string := "NEURITEFEATURES"
  const NEURON_NS: string := "NEURONFEATURES"

  /** The default resolution order of get. */
  const DEFAULT_ORDER: seq<string> := [NEURITE_NS, NEURON_NS]

  function InitialFeatures(): (r: Features)
    ensures r.Keys == {NEURITE_NS, NEURON_NS}
    ensures r[NEURITE_NS] == map[] && r[NEURON_NS] == map[]
  {
    map[NEURITE_NS := map[], NEURON_NS := map[]]
  }

  /** `gs` has the namespaces of `fs` and keeps every feature of `fs` under its name. */
  ghost predicate Keeps(fs: Features, gs: Features)
  {
    gs.Keys == fs.Keys &&
    forall ns, k :: ns in fs && k in fs[ns] ==> k in gs[ns] && gs[ns][k] == fs[ns][k]
  }

  /** Every feature of `gs` is one of `fs`, or new under one of `names` in `namespace`. */
  ghost predicate AddsOnly(fs: Features, gs: Features, namespace: string, names: seq<string>)
  {
    forall ns :: ns in gs ==> ns in fs && forall k :: k in gs[ns] ==> k in fs[ns] || (ns == namespace && k in names)
  }

  lemma AddsOnlyAt(fs: Features, gs: Features, namespace: string, names: seq<string>, ns: string, k: string)
    requires AddsOnly(fs, gs, namespace, names) && ns in gs && k in gs[ns]
    ensures ns in fs && (k in fs[ns] || (ns == namespace && k in names))
  {
  }

  /**
   * register_feature: KeyError for an unknown namespace, NeuroMError for a name already taken
   * in it, otherwise the one new entry.
   */
  function Register(fs: Features, namespace: string, name: string, func: FeatureFn): (r: Result<Features>)
    ensures namespace !in fs ==> r == Err(KeyError)
    ensures namespace in fs && name in fs[namespace] ==> r == Err(NeuroMError)
    ensures r.Ok? <==> namespace in fs && name !in fs[namespace]
    ensures r.Ok? ==> Keeps(fs, r.value) && name in r.value[namespace] && r.value[namespace][name] == func
    ensures r.Ok? ==> AddsOnly(fs, r.value, namespace, [name])
  {
    if namespace !in fs then Err(KeyError)
    else if name in fs[namespace] then Err(NeuroMError)
    else
      var inner: map<string, FeatureFn> := fs[namespace][name := func];
      Ok(fs[namespace := inner])
  }

  /** Registering keeps features: a name once registered is never replaced. */
  lemma RegisterNeverHides(fs: Features, namespace: string, name: string, f: FeatureFn, g: FeatureFn)
    requires Register(fs, namespace, name, f).Ok?
    ensures Register(Register(fs, namespace, name, f).value, namespace, name, g) == Err(NeuroMError)
  {
  }

  /** The names of the feature decorator: the words of `names` and the function's own name. */
  function NameSet(funcName: string, names: string): (r: set<string>)
    ensures funcName in r
    ensures forall i :: 0 <= i < |Words(names)| ==> Words(names)[i] in r
    ensures forall x :: x in r ==> x == funcName || x in Words(names)
  {
    (set i | 0 <= i < |Words(names)| :: Words(names)[i]) + {funcName}
  }

  predicate Distinct(s: seq<string>)
  {
    forall i, j :: 0 <= i < j < |s| ==> s[i] != s[j]
  }

  /** Dropping the first name keeps the names distinct, and none of the others equals it. */
  lemma DistinctTail(names: seq<string>)
    requires names != [] && Distinct(names)
    ensures Distinct(names[1..]) && names[0] !in names[1..]
  {
    forall i, j | 0 <= i < j < |names[1..]|
      ensures names[1..][i] != names[1..][j]
    {
      assert names[1..][i] == names[i + 1] && names[1..][j] == names[j + 1];
    }
  }

  /**
   * The decorator's loop: each name registered in turn; the first failure stops the loop,
   * leaving the names before it registered.
   */
  function RegisterEach(fs: Features, namespace: string, names: seq<string>, func: FeatureFn): (Features, Option<Exception>)
  {
    if names == [] then (fs, None)
    else
      match Register(fs, namespace, names[0], func)
      case Err(e) => (fs, Some(e))
      case Ok(gs) => RegisterEach(gs, namespace, names[1..], func)
  }

  /**
   * The decorator succeeds iff the namespace exists and none of the names is taken; it then
   * maps every name to the function and adds nothing else. Whatever happens, the existing
   * features stay.
   */
  lemma {:induction false} RegisterEachResult(fs: Features, namespace: string, names: seq<string>, func: FeatureFn)
    requires Distinct(names)
    ensures var gs, err := RegisterEach(fs, namespace, names, func).0, RegisterEach(fs, namespace, names, func).1;
      Keeps(fs, gs) &&
      (err.None? <==> (names == [] || (namespace in fs && forall i :: 0 <= i < |names| ==> names[i] !in fs[namespace]))) &&
      (namespace !in fs && names != [] ==> err == Some(KeyError)) &&
      (namespace in fs && err.Some? ==> err == Some(NeuroMError)) &&
      (err.None? ==> forall i :: 0 <= i < |names| ==> names[i] in gs[namespace] && gs[namespace][names[i]] == func) &&
      (err.None? ==> AddsOnly(fs, gs, namespace, names))
    decreases |names|
  {
    if names != [] {
      var r := Register(fs, namespace, names[0], func);
      if r.Err? && namespace in fs {
        assert names[0] in fs[namespace];
      }
      if r.Ok? {
        var gs := r.value;
        var rest := names[1..];
        DistinctTail(names);
        RegisterEachResult(gs, namespace, rest, func);
        assert RegisterEach(fs, namespace, names, func) == RegisterEach(gs, namespace, rest, func);
        var hs, err := RegisterEach(gs, namespace, rest, func).0, RegisterEach(gs, namespace, rest, func).1;
        assert forall i :: 1 <= i < |names| ==> names[i] == rest[i - 1];
        assert forall i :: 1 <= i < |names| ==> names[i] != names[0];
        assert forall k :: k in rest ==> k in names;
        if err.None? {
          forall i | 0 <= i < |names|
            ensures names[i] !in fs[namespace]
          {
            if i > 0 {
              assert rest[i - 1] !in gs[namespace];
            }
          }
          forall ns, k | ns in hs && k in hs[ns]
            ensures ns in fs && (k in fs[ns] || (ns == namespace && k in names))
          {
            AddsOnlyAt(gs, hs, namespace, rest, ns, k);
          }
        } else {
          var i :| 0 <= i < |rest| && rest[i] in gs[namespace];
          assert names[i + 1] in fs[namespace];
        }
      }
    }
  }

  /**
   * get's lookup loop: the index of the first namespace of the order that has the name;
   * KeyError for an unknown namespace met before it; NeuroMError if none has it.
   */
  function FindNamespace(fs: Features, name: string, order: seq<string>): (r: Result<nat>)
    ensures r.Ok? ==> FoundAt(fs, name, order, r.value)
    ensures r == Err(NeuroMError) <==> forall i :: 0 <= i < |order| ==> order[i] in fs && name !in fs[order[i]]
    ensures r == Err(KeyError) <==> exists i :: 0 <= i < |order| && MissingAt(fs, name, order, i)
    ensures r.Err? ==> r.error == NeuroMError || r.error == KeyError
  {
    if order == [] then Err(NeuroMError)
    else if order[0] !in fs then
      assert MissingAt(fs, name, order, 0);
      Err(KeyError)
    else if name in fs[order[0]] then
      Ok(0)
    else
      var r := FindNamespace(fs, name, order[1..]);
      assert forall i :: 1 <= i < |order| ==> order[i] == order[1..][i - 1];
      if r.Ok? then
        assert FoundAt(fs, name, order, r.value + 1);
        Ok(r.value + 1)
      else
        assert r == Err(KeyError) <==> exists i :: 0 <= i < |order| && MissingAt(fs, name, order, i) by {
          assert forall i :: 0 < i < |order| ==> (MissingAt(fs, name, order, i) <==> MissingAt(fs, name, order[1..], i - 1));
          assert !MissingAt(fs, name, order, 0);
          if r == Err(KeyError) {
            var k :| 0 <= k < |order[1..]| && MissingAt(fs, name, order[1..], k);
            assert MissingAt(fs, name, order, k + 1);
          }
        }
        r
  }

  /** The feature get finds. */
  function Lookup(fs: Features, name: string, order: seq<string>): Result<FeatureFn>
  {
    match FindNamespace(fs, name, order)
    case Ok(i) => Ok(fs[order[i]][name])
    case Err(e) => Err(e)
  }

  /** The i-th namespace of the order does not exist, and every one before it exists and lacks the name. */
  predicate MissingAt(fs: Features, name: string, order: seq<string>, i: nat)
  {
    i < |order| && order[i] !in fs &&
    forall j :: 0 <= j < i ==> order[j] in fs && name !in fs[order[j]]
  }

  /** The i-th namespace of the order has the name, and every one before it exists and lacks it. */
  predicate FoundAt(fs: Features, name: string, order: seq<string>, i: nat)
  {
    i < |order| && order[i] in fs && name in fs[order[i]] &&
    forall j :: 0 <= j < i ==> order[j] in fs && name !in fs[order[j]]
  }

  /**
   * With the default order a neurite feature wins over a neuron feature of the same name,
   * a neuron feature is found otherwise, and a name in neither raises NeuroMError.
   */
  lemma LookupDefaultOrder(fs: Features, name: string)
    requires NEURITE_NS in fs && NEURON_NS in fs
    ensures name in fs[NEURITE_NS] ==> Lookup(fs, name, DEFAULT_ORDER) == Ok(fs[NEURITE_NS][name])
    ensures name !in fs[NEURITE_NS] && name in fs[NEURON_NS] ==> Lookup(fs, name, DEFAULT_ORDER) == Ok(fs[NEURON_NS][name])
    ensures name !in fs[NEURITE_NS] && name !in fs[NEURON_NS] ==> Lookup(fs, name, DEFAULT_ORDER) == Err(NeuroMError)
  {
    var r := FindNamespace(fs, name, DEFAULT_ORDER);
    assert !MissingAt(fs, name, DEFAULT_ORDER, 0) && !MissingAt(fs, name, DEFAULT_ORDER, 1);
    if name in fs[NEURITE_NS] {
      assert r == Ok(0);
    } else if name in fs[NEURON_NS] {
      assert FoundAt(fs, name, DEFAULT_ORDER, 1);
      assert r == Ok(1);
    }
  }

  /** A neurite feature just registered is what get finds under its name. */
  lemma RegisterThenLookup(fs: Features, name: string, func: FeatureFn)
    requires NEURITE_NS in fs && NEURON_NS in fs
    requires Register(fs, NEURITE_NS, name, func).Ok?
    ensures Lookup(Register(fs, NEURITE_NS, name, func).value, name, DEFAULT_ORDER) == Ok(func)
  {
    var gs := Register(fs, NEURITE_NS, name, func).value;
    LookupDefaultOrder(gs, name);
  }

  /** The checker register_neurite_feature builds for one neurite type, applied to a neurite. */
  predicate NeuriteOfType(t: NeuriteType, n: Neurite)
  {
    Accepts(Checker([Code(t)]), NeuriteTypeOf(n))
  }

  /** The neurites a registered neurite feature visits: in file order, those of the type. */
  function TypeFilteredNeurites(src: NeuriteSource, t: NeuriteType): seq<Neurite>
  {
    IterNeurites(src, Some((n: Neurite) => NeuriteOfType(t, n)), FileOrder, false)
  }

  /** The _fun wrapper of register_neurite_feature: the function on each type-filtered neurite. */
  function NeuriteValues(func: Neurite -> real, src: NeuriteSource, t: NeuriteType): (r: seq<real>)
    ensures |r| == |TypeFilteredNeurites(src, t)|
    ensures forall i :: 0 <= i < |r| ==> r[i] == func(TypeFilteredNeurites(src, t)[i])
  {
    var ns := TypeFilteredNeurites(src, t);
    seq(|ns|, i requires 0 <= i < |ns| => func(ns[i]))
  }

  function NeuriteFeature(func: Neurite -> real): FeatureFn
  {
    (src, t) => NeuriteValues(func, src, t)
  }

  /**
   * A registered neurite feature yields one value per source neurite of the requested type,
   * or per source neurite with `all`.
   */
  lemma NeuriteValuesMembers(src: NeuriteSource, t: NeuriteType, n: Neurite)
    ensures n in TypeFilteredNeurites(src, t) <==> n in SourceNeurites(src) && (t == All || NeuriteTypeOf(n) == t)
  {
    IterNeuritesMembers(src, Some((m: Neurite) => NeuriteOfType(t, m)), FileOrder, n);
    if Code(NeuriteTypeOf(n)) == Code(t) {
      CodeInjective(NeuriteTypeOf(n), t);
    }
    if Code(All) == Code(t) {
      CodeInjective(All, t);
    }
  }

  /** The registry: the FEATURES dictionary, updated in place. */
  class Registry {
    var features: Features

    constructor()
      ensures features == InitialFeatures()
    {
      features := InitialFeatures();
    }

    /** register_feature. */
    method RegisterFeature(namespace: string, name: string, func: FeatureFn) returns (err: Option<Exception>)
      modifies this
      ensures var r := Register(old(features), namespace, name, func);
        (r.Ok? ==> err == None && features == r.value) &&
        (r.Err? ==> err == Some(r.error) && features == old(features))
    {
      if namespace !in features {
        return Some(KeyError);
      }
      if name in features[namespace] {
        return Some(NeuroMError);
      }
      var inner: map<string, FeatureFn> := features[namespace][name := func];
      features := features[namespace := inner];
      err := None;
    }

    /** register_neurite_feature: the wrapped function under the neurite namespace. */
    method RegisterNeuriteFeature(name: string, func: Neurite -> real) returns (err: Option<Exception>)
      modifies this
      ensures var r := Register(old(features), NEURITE_NS, name, NeuriteFeature(func));
        (r.Ok? ==> err == None && features == r.value) &&
        (r.Err? ==> err == Some(r.error) && features == old(features))
    {
      err := RegisterFeature(NEURITE_NS, name, NeuriteFeature(func));
    }

    /**
     * The feature decorator applied to a function: `order` is the iteration order of the set
     * of names, which Python leaves unspecified.
     */
    method Feature(namespace: string, funcName: string, names: string, func: FeatureFn, order: seq<string>)
      returns (err: Option<Exception>)
      requires Distinct(order) && (set i | 0 <= i < |order| :: order[i]) == NameSet(funcName, names)
      modifies this
      ensures (features, err) == RegisterEach(old(features), namespace, order, func)
    {
      var i := 0;
      while i < |order|
        invariant 0 <= i <= |order|
        invariant RegisterEach(old(features), namespace, order, func) == RegisterEach(features, namespace, order[i..], func)
      {
        assert order[i..][1..] == order[i + 1..];
        err := RegisterFeature(namespace, order[i], func);
        if err.Some? {
          return;
        }
        i := i + 1;
      }
      err := None;
    }

    /** get: the feature found along the resolution order, applied to the source. */
    method Get(featureName: string, src: NeuriteSource, t: NeuriteType, resolutionOrder: seq<string>)
      returns (r: Result<seq<real>>)
      ensures var f := Lookup(features, featureName, resolutionOrder);
        (f.Ok? ==> r == Ok(f.value(src, t))) && (f.Err? ==> r == Err(f.error))
    {
      var i := 0;
      while i < |resolutionOrder|
        invariant 0 <= i <= |resolutionOrder|
        invariant FindNamespace(features, featureName, resolutionOrder) ==
          match FindNamespace(features, featureName, resolutionOrder[i..])
          case Ok(k) => Ok(k + i)
          case Err(e) => Err(e)
      {
        assert resolutionOrder[i..][1..] == resolutionOrder[i + 1..];
        var ns := resolutionOrder[i];
        if ns !in features {
          return Err(KeyError);
        }
        if featureName in features[ns] {
          var feat := features[ns][featureName];
          return Ok(feat(src, t));
        }
        i := i + 1;
      }
      r := Err(NeuroMError);
    }
  }
}

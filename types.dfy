/** Neurite types, iteration orders and type filters (neurom/core/types.py). */
module Types {
  import opened Wrappers
  import opened Seqs

  /** NeuriteType: the morphio section types plus soma and the `all` wildcard. */
  datatype NeuriteType =
    | Undefined | Axon | BasalDendrite | ApicalDendrite
    | Custom5 | Custom6 | Custom7 | Custom8 | Custom9 | Custom10
    | Soma | All

  /** The integer value of each member of the enumeration. */
  function Code(t: NeuriteType): int
  {
    match t
    case Undefined => 0
    case Axon => 2
    case BasalDendrite => 3
    case ApicalDendrite => 4
    case Custom5 => 5
    case Custom6 => 6
    case Custom7 => 7
    case Custom8 => 8
    case Custom9 => 9
    case Custom10 => 10
    case Soma => 31
    case All => 32
  }

  /** NeuriteType(c): the member with value c, or ValueError if there is none. */
  function FromCode(c: int): (r: Result<NeuriteType>)
    ensures r.Ok? ==> Code(r.value) == c
    ensures r.Err? ==> r.error == ValueError && forall t :: Code(t) != c
  {
    if c == 0 then Ok(Undefined)
    else if c == 2 then Ok(Axon)
    else if c == 3 then Ok(BasalDendrite)
    else if c == 4 then Ok(ApicalDendrite)
    else if c == 5 then Ok(Custom5)
    else if c == 6 then Ok(Custom6)
    else if c == 7 then Ok(Custom7)
    else if c == 8 then Ok(Custom8)
    else if c == 9 then Ok(Custom9)
    else if c == 10 then Ok(Custom10)
    else if c == 31 then Ok(Soma)
    else if c == 32 then Ok(All)
    else Err(ValueError)
  }

  /** Converting a member to its value and back gives the member again. */
  lemma CodeRoundTrip(t: NeuriteType)
    ensures FromCode(Code(t)) == Ok(t)
  {
  }

  /** Two members never share a value. */
  lemma CodeInjective(a: NeuriteType, b: NeuriteType)
    requires Code(a) == Code(b)
    ensures a == b
  {
    CodeRoundTrip(a);
    CodeRoundTrip(b);
  }

  /** NEURITES: the neurite types proper. */
  const NEURITES: seq<NeuriteType> := [Axon, ApicalDendrite, BasalDendrite]

  /** NeuriteIter: file order or the order of the NRN simulator. */
  datatype NeuriteIter = FileOrder | NRN

  /** An argument of tree_type_checker: a single type value, or a tuple of them. */
  datatype TypeArg = Single(code: int) | Tuple(codes: seq<int>)

  /** The functor built by tree_type_checker, keeping its reference values as `types`. */
  datatype Checker = Checker(types: seq<int>)

  /** `ref` once a lone tuple argument is unpacked into its elements. */
  function UnpackRef(args: seq<TypeArg>): seq<TypeArg>
  {
    if |args| == 1 && args[0].Tuple? then seq(|args[0].codes|, i requires 0 <= i < |args[0].codes| => Single(args[0].codes[i]))
    else args
  }

  /** The validation loop: every reference value must name a NeuriteType. */
  predicate ValidRef(ref: seq<TypeArg>)
  {
    forall i :: 0 <= i < |ref| ==> ref[i].Single? && FromCode(ref[i].code).Ok?
  }

  /**
   * tree_type_checker(*args). A tuple left among several arguments is not a valid
   * NeuriteType value, so it raises ValueError like an unknown number does.
   */
  function TreeTypeChecker(args: seq<TypeArg>): (r: Result<Checker>)
    ensures r.Err? <==> !ValidRef(UnpackRef(args))
    ensures r.Err? ==> r.error == ValueError
    ensures r.Ok? ==>
      (|r.value.types| == |UnpackRef(args)| &&
       forall i :: 0 <= i < |r.value.types| ==> UnpackRef(args)[i] == Single(r.value.types[i]))
  {
    var ref := UnpackRef(args);
    if ValidRef(ref) then Ok(Checker(seq(|ref|, i requires 0 <= i < |ref| => ref[i].code)))
    else Err(ValueError)
  }

  /** check_tree_type: with `all` among the references anything passes, else the type must be listed. */
  function Accepts(c: Checker, treeType: NeuriteType): bool
  {
    Code(All) in c.types || Code(treeType) in c.types
  }

  /** A checker holding NeuriteType.all accepts every tree. */
  lemma CheckerAllAcceptsAnything(args: seq<TypeArg>, t: NeuriteType)
    requires TreeTypeChecker(args).Ok?
    requires Single(Code(All)) in UnpackRef(args)
    ensures Accepts(TreeTypeChecker(args).value, t)
  {
    var ref := UnpackRef(args);
    var i :| 0 <= i < |ref| && ref[i] == Single(Code(All));
    assert TreeTypeChecker(args).value.types[i] == Code(All);
  }

  /** Without NeuriteType.all, a checker accepts exactly the listed types. */
  lemma CheckerAcceptsListed(args: seq<TypeArg>, t: NeuriteType)
    requires TreeTypeChecker(args).Ok?
    requires Single(Code(All)) !in UnpackRef(args)
    ensures Accepts(TreeTypeChecker(args).value, t) <==> Single(Code(t)) in UnpackRef(args)
  {
    var ref := UnpackRef(args);
    var c := TreeTypeChecker(args).value;
    if Code(t) in c.types {
      var i :| 0 <= i < |c.types| && c.types[i] == Code(t);
      assert ref[i] == Single(Code(t));
    }
    if Single(Code(t)) in ref {
      var i :| 0 <= i < |ref| && ref[i] == Single(Code(t));
      assert c.types[i] == Code(t);
    }
  }

  /** A lone tuple argument gives the same checker as passing its elements one by one. */
  lemma CheckerTupleUnpacked(codes: seq<int>)
    ensures TreeTypeChecker([Tuple(codes)]) ==
      TreeTypeChecker(seq(|codes|, i requires 0 <= i < |codes| => Single(codes[i])))
  {
  }

  /** An argument that is not a NeuriteType value makes tree_type_checker raise ValueError. */
  lemma CheckerRejectsUnknown(args: seq<TypeArg>, c: int)
    requires Single(c) in UnpackRef(args) && FromCode(c).Err?
    ensures TreeTypeChecker(args) == Err(ValueError)
  {
  }

  /** dendrite_filter: basal or apical dendrites only. */
  function DendriteFilter(t: NeuriteType): bool
  {
    t == BasalDendrite || t == ApicalDendrite
  }

  /** axon_filter: axons only. */
  function AxonFilter(t: NeuriteType): bool
  {
    t == Axon
  }

  /** The two filters are the checkers for (basal, apical) and for axon. */
  lemma FiltersAreCheckers(t: NeuriteType)
    ensures TreeTypeChecker([Single(3), Single(4)]).Ok?
    ensures DendriteFilter(t) == Accepts(TreeTypeChecker([Single(3), Single(4)]).value, t)
    ensures TreeTypeChecker([Single(2)]).Ok?
    ensures AxonFilter(t) == Accepts(TreeTypeChecker([Single(2)]).value, t)
  {
    var d := TreeTypeChecker([Single(3), Single(4)]).value;
    assert d.types == [3, 4];
    var a := TreeTypeChecker([Single(2)]).value;
    assert a.types == [2];
  }
}

/**
 * The s-expression parser of neurom/io/neurolucida.py: the token stream becomes nested lists,
 * with the lists headed by an unwanted name dropped, and the top-level lists are yielded in turn.
 */
module NeurolucidaParser {
  import opened Wrappers

  /** A parsed s-expression: a token, or a parenthesised list of s-expressions. */
  datatype SExp = Atom(token: string) | List(items: seq<SExp>)

  /** UNWANTED_SECTIONS: lists headed by these tokens are dropped with everything inside them. */
  const UNWANTED_SECTIONS: seq<string> := [
      "Closed", "Color", "FillDensity", "GUID", "ImageCoords", "MBFObjectType",
      "Marker", "Name", "Resolution", "Set", "Sections",
      "Asterisk", "Cross", "Dot", "DoubleCircle", "FilledCircle", "FilledDownTriangle",
      "FilledSquare", "FilledStar", "FilledUpTriangle", "Flower",
      "Flower2", "OpenCircle", "OpenDiamond", "OpenDownTriangle", "OpenSquare", "OpenStar",
      "OpenUpTriangle", "Plus", "ShadedStar", "Splat", "TriStar", "CircleArrow", "CircleCross",
      "FilledDiamond", "MalteseCross", "SnowFlake", "TexacoStar", "FilledQuadStar",
      "Circle1", "Circle2", "Circle3", "Circle4", "Circle5",
      "Circle6", "Circle7", "Circle8", "Circle9"]

  /** The tokens in u, the list of unwanted section names: UNWANTED_SECTIONS when reading a file. */
  predicate Unwanted(u: seq<string>, t: string)
  {
    t in u
  }

  /** a is what is left of b after some of its front was consumed. */
  predicate SuffixOf(a: seq<string>, b: seq<string>)
  {
    |a| <= |b| && a == b[|b| - |a|..]
  }

  // ---------------------------------------------------------------------------------------------
  // The parser, on the tokens still to come. `eof` is what the token generator raises once it
  // has no more tokens: None at the end of the file, the spine assertion otherwise.

  /** The number of open lists after token t: one less after ')', one more after '('. */
  function Depth(t: string, count: int): int
  {
    if t == ")" then count - 1 else if t == "(" then count + 1 else count
  }

  /**
   * _consume_until_balanced_paren: the tokens after the ')' that brings the count of open
   * lists to zero. The count starts at one whatever the caller passes; running out of tokens
   * ends the loop quietly, or raises what the generator raises.
   */
  function Consume(toks: seq<string>, count: int, eof: Option<Exception>): (r: Result<seq<string>>)
    ensures r.Ok? ==> SuffixOf(r.value, toks)
    ensures r.Err? ==> eof.Some? && r.error == eof.value
    decreases |toks|
  {
    if toks == [] then (if eof.Some? then Err(eof.value) else Ok([]))
    else
      var c := Depth(toks[0], count);
      if c == 0 then Ok(toks[1..]) else Consume(toks[1..], c, eof)
  }

  /** What _parse_section returns (the list), and the tokens it left in the shared iterator. */
  datatype Parsed = Parsed(items: seq<SExp>, rest: seq<string>)

  /**
   * _parse_section, with `acc` the list built so far: '(' parses a sub-list and keeps it when
   * it is not empty, ')' ends the list, a token of u drops the rest of the list
   * up to its balancing ')', and any other token is kept as an atom.
   */
  function Parse(u: seq<string>, toks: seq<string>, acc: seq<SExp>, eof: Option<Exception>): (r: Result<Parsed>)
    ensures r.Ok? ==> SuffixOf(r.value.rest, toks) && acc <= r.value.items
    ensures r.Err? ==> eof.Some? && r.error == eof.value
    decreases |toks|
  {
    if toks == [] then (if eof.Some? then Err(eof.value) else Ok(Parsed(acc, [])))
    else
      SuffixOfTail(toks);
      if toks[0] == "(" then
        match Parse(u, toks[1..], [], eof)
        case Err(e) => Err(e)
        case Ok(sub) =>
          var acc' := if sub.items == [] then acc else acc + [List(sub.items)];
          var r := Parse(u, sub.rest, acc', eof);
          SuffixOfTrans(sub.rest, toks[1..], toks);
          assert r.Ok? ==> SuffixOf(r.value.rest, sub.rest) && acc <= acc' <= r.value.items;
          r
      else if toks[0] == ")" then Ok(Parsed(acc, toks[1..]))
      else if Unwanted(u, toks[0]) then
        match Consume(toks[1..], 1, eof)
        case Err(e) => Err(e)
        case Ok(rest) => Ok(Parsed(acc, rest))
      else
        var r := Parse(u, toks[1..], acc + [Atom(toks[0])], eof);
        assert r.Ok? ==> acc <= acc + [Atom(toks[0])] <= r.value.items;
        r
  }

  lemma SuffixOfTail(toks: seq<string>)
    requires toks != []
    ensures SuffixOf(toks[1..], toks)
  {
  }

  lemma SuffixOfTrans(a: seq<string>, b: seq<string>, c: seq<string>)
    requires SuffixOf(b, c)
    ensures forall x :: SuffixOf(x, a) && SuffixOf(a, b) ==> SuffixOf(x, c)
  {
  }

  /**
   * _top_level_sections: the non-empty lists opened at the top level, in order, and the error
   * the token generator raised after them, if any. Tokens outside a list are skipped.
   */
  function TopLevel(u: seq<string>, toks: seq<string>, eof: Option<Exception>): (r: (seq<seq<SExp>>, Option<Exception>))
    ensures forall k :: 0 <= k < |r.0| ==> r.0[k] != []
    ensures r.1 == None || r.1 == eof
    decreases |toks|
  {
    if toks == [] then ([], eof)
    else if toks[0] != "(" then TopLevel(u, toks[1..], eof)
    else
      match Parse(u, toks[1..], [], eof)
      case Err(e) => ([], Some(e))
      case Ok(p) =>
        var more := TopLevel(u, p.rest, eof);
        (if p.items == [] then more.0 else [p.items] + more.0, more.1)
  }

  // ---------------------------------------------------------------------------------------------
  // Printing an s-expression back to tokens, and the parser's round trip

  function RenderOne(e: SExp): seq<string>
  {
    match e
    case Atom(t) => [t]
    case List(xs) => ["("] + Render(xs) + [")"]
  }

  function Render(xs: seq<SExp>): seq<string>
  {
    if xs == [] then [] else RenderOne(xs[0]) + Render(xs[1..])
  }

  /** What the parser can produce: atoms that are not parentheses or unwanted names, and non-empty lists. */
  predicate WellFormed(u: seq<string>, e: SExp)
  {
    match e
    case Atom(t) => t != "(" && t != ")" && !Unwanted(u, t)
    case List(xs) => xs != [] && forall i :: 0 <= i < |xs| ==> WellFormed(u, xs[i])
  }

  predicate AllWellFormed(u: seq<string>, xs: seq<SExp>)
  {
    forall i :: 0 <= i < |xs| ==> WellFormed(u, xs[i])
  }

  /** One token of _consume_until_balanced_paren: the count moves, and the scan stops at zero. */
  lemma ConsumeCons(t: string, after: seq<string>, count: int, eof: Option<Exception>)
    ensures Consume([t] + after, count, eof) ==
      var c := Depth(t, count);
      if c == 0 then Ok(after) else Consume(after, c, eof)
  {
    assert ([t] + after)[0] == t && ([t] + after)[1..] == after;
  }

  lemma RenderConsShape(e: SExp, more: seq<SExp>, tail: seq<string>)
    requires e.List?
    ensures Render([e] + more) + tail == ["("] + (Render(e.items) + ([")"] + (Render(more) + tail)))
  {
    assert ([e] + more)[1..] == more;
    assert Render([e] + more) == RenderOne(e) + Render(more);
  }

  /** The tokens of a printed s-expression never take an open count of one or more down to zero. */
  lemma {:induction false} ConsumeRender(u: seq<string>, xs: seq<SExp>, tail: seq<string>, count: int, eof: Option<Exception>)
    requires count >= 1 && AllWellFormed(u, xs)
    ensures Consume(Render(xs) + tail, count, eof) == Consume(tail, count, eof)
  {
    if xs != [] {
      var e, more := xs[0], xs[1..];
      assert xs == [e] + more;
      assert WellFormed(u, e) && forall i :: 0 <= i < |more| ==> more[i] == xs[i + 1];
      ConsumeRender(u, more, tail, count, eof);
      if e.Atom? {
        ConsumeRenderAtom(e.token, more, tail, count, eof);
        assert [Atom(e.token)] + more == xs;
      } else {
        var rest := [")"] + (Render(more) + tail);
        assert AllWellFormed(u, e.items);
        ConsumeRender(u, e.items, rest, count + 1, eof);
        assert Consume(Render(e.items) + rest, count + 1, eof) == Consume(rest, count + 1, eof);
        ConsumeRenderList(e.items, more, tail, count, eof);
        assert [List(e.items)] + more == xs;
      }
    } else {
      assert Render(xs) + tail == tail;
    }
  }

  lemma ConsumeRenderAtom(t: string, more: seq<SExp>, tail: seq<string>, count: int, eof: Option<Exception>)
    requires count >= 1 && t != "(" && t != ")"
    ensures Consume(Render([Atom(t)] + more) + tail, count, eof) == Consume(Render(more) + tail, count, eof)
  {
    assert ([Atom(t)] + more)[1..] == more;
    assert Render([Atom(t)] + more) + tail == [t] + (Render(more) + tail);
    ConsumeCons(t, Render(more) + tail, count, eof);
  }

  lemma ConsumeRenderList(ys: seq<SExp>, more: seq<SExp>, tail: seq<string>, count: int, eof: Option<Exception>)
    requires count >= 1
    requires Consume(Render(ys) + ([")"] + (Render(more) + tail)), count + 1, eof) ==
      Consume([")"] + (Render(more) + tail), count + 1, eof)
    ensures Consume(Render([List(ys)] + more) + tail, count, eof) == Consume(Render(more) + tail, count, eof)
  {
    var after := Render(more) + tail;
    RenderConsShape(List(ys), more, tail);
    ConsumeCons("(", Render(ys) + ([")"] + after), count, eof);
    ConsumeCons(")", after, count + 1, eof);
  }

  /** _consume_until_balanced_paren skips a printed list body and stops right after its ')'. */
  lemma ConsumeSkipsList(u: seq<string>, xs: seq<SExp>, tail: seq<string>, eof: Option<Exception>)
    requires AllWellFormed(u, xs)
    ensures Consume(Render(xs) + [")"] + tail, 1, eof) == Ok(tail)
  {
    ConsumeRender(u, xs, [")"] + tail, 1, eof);
    assert Render(xs) + [")"] + tail == Render(xs) + ([")"] + tail);
    assert ([")"] + tail)[1..] == tail;
  }

  /** Parsing a printed list body followed by its ')' gives back the list and leaves the tail. */
  lemma {:induction false} ParseRender(u: seq<string>, xs: seq<SExp>, acc: seq<SExp>, tail: seq<string>, eof: Option<Exception>)
    requires AllWellFormed(u, xs)
    ensures Parse(u, Render(xs) + [")"] + tail, acc, eof) == Ok(Parsed(acc + xs, tail))
  {
    if xs == [] {
      assert Render(xs) + [")"] + tail == [")"] + tail;
      assert ([")"] + tail)[1..] == tail;
      assert acc + xs == acc;
    } else {
      var e, more := xs[0], xs[1..];
      assert WellFormed(u, e) && forall i :: 0 <= i < |more| ==> more[i] == xs[i + 1];
      assert xs == [e] + more;
      var after := Render(more) + [")"] + tail;
      ParseRender(u, more, acc + [e], tail, eof);
      match e {
        case Atom(t) =>
          ParseRenderAtom(u, t, more, acc, tail, eof);
        case List(ys) =>
          ParseRender(u, ys, [], after, eof);
          assert [] + ys == ys;
          ParseRenderList(u, ys, more, acc, tail, eof);
      }
    }
  }

  /** The step of ParseRender for an atom: it is appended and the parse goes on after it. */
  lemma ParseRenderAtom(u: seq<string>, t: string, more: seq<SExp>, acc: seq<SExp>, tail: seq<string>, eof: Option<Exception>)
    requires WellFormed(u, Atom(t))
    requires Parse(u, Render(more) + [")"] + tail, acc + [Atom(t)], eof) == Ok(Parsed(acc + [Atom(t)] + more, tail))
    ensures Parse(u, Render([Atom(t)] + more) + [")"] + tail, acc, eof) == Ok(Parsed(acc + ([Atom(t)] + more), tail))
  {
    var after := Render(more) + [")"] + tail;
    RenderAtomShape(t, more, tail);
    assert acc + [Atom(t)] + more == acc + ([Atom(t)] + more);
    ParseAtom(u, t, after, acc, eof);
  }

  lemma RenderAtomShape(t: string, more: seq<SExp>, tail: seq<string>)
    ensures Render([Atom(t)] + more) + [")"] + tail == [t] + (Render(more) + [")"] + tail)
  {
    assert ([Atom(t)] + more)[1..] == more;
  }

  lemma RenderListShape(ys: seq<SExp>, more: seq<SExp>, tail: seq<string>)
    ensures Render([List(ys)] + more) + [")"] + tail == ["("] + (Render(ys) + [")"] + (Render(more) + [")"] + tail))
  {
    assert ([List(ys)] + more)[1..] == more;
    assert Render([List(ys)] + more) == RenderOne(List(ys)) + Render(more);
    var open, close := ["("], [")"];
    var r, m := Render(ys), Render(more);
    assert RenderOne(List(ys)) == open + r + close;
    assert (open + r + close) + m + close + tail == open + (r + close + (m + close + tail));
  }

  /** The step of ParseRender for a list: its inside is parsed, then the parse goes on after it. */
  lemma ParseRenderList(u: seq<string>, ys: seq<SExp>, more: seq<SExp>, acc: seq<SExp>, tail: seq<string>, eof: Option<Exception>)
    requires ys != []
    requires Parse(u, Render(more) + [")"] + tail, acc + [List(ys)], eof) == Ok(Parsed(acc + [List(ys)] + more, tail))
    requires Parse(u, Render(ys) + [")"] + (Render(more) + [")"] + tail), [], eof) == Ok(Parsed(ys, Render(more) + [")"] + tail))
    ensures Parse(u, Render([List(ys)] + more) + [")"] + tail, acc, eof) == Ok(Parsed(acc + ([List(ys)] + more), tail))
  {
    var after := Render(more) + [")"] + tail;
    RenderListShape(ys, more, tail);
    assert acc + [List(ys)] + more == acc + ([List(ys)] + more);
    ParseList(u, ys, after, acc, eof);
  }

  lemma ParseAtom(u: seq<string>, t: string, after: seq<string>, acc: seq<SExp>, eof: Option<Exception>)
    requires t != "(" && t != ")" && !Unwanted(u, t)
    ensures Parse(u, [t] + after, acc, eof) == Parse(u, after, acc + [Atom(t)], eof)
  {
    assert ([t] + after)[1..] == after;
  }

  lemma ParseList(u: seq<string>, ys: seq<SExp>, after: seq<string>, acc: seq<SExp>, eof: Option<Exception>)
    requires ys != [] && Parse(u, Render(ys) + [")"] + after, [], eof) == Ok(Parsed(ys, after))
    ensures Parse(u, ["("] + (Render(ys) + [")"] + after), acc, eof) == Parse(u, after, acc + [List(ys)], eof)
  {
    assert (["("] + (Render(ys) + [")"] + after))[1..] == Render(ys) + [")"] + after;
  }

  /** The tokens of a file holding the given top-level lists. */
  function RenderTop(sections: seq<seq<SExp>>): seq<string>
  {
    if sections == [] then [] else ["("] + Render(sections[0]) + [")"] + RenderTop(sections[1..])
  }

  /** _top_level_sections gives back every non-empty printed list, then the generator's error. */
  lemma {:induction false} TopLevelRender(u: seq<string>, sections: seq<seq<SExp>>, eof: Option<Exception>)
    requires forall k :: 0 <= k < |sections| ==> sections[k] != [] && AllWellFormed(u, sections[k])
    ensures TopLevel(u, RenderTop(sections), eof) == (sections, eof)
  {
    if sections != [] {
      var s, more := sections[0], sections[1..];
      var toks := RenderTop(sections);
      assert toks[0] == "(" && toks[1..] == Render(s) + [")"] + RenderTop(more);
      ParseRender(u, s, [], RenderTop(more), eof);
      assert [] + s == s;
      assert Parse(u, toks[1..], [], eof) == Ok(Parsed(s, RenderTop(more)));
      assert forall k :: 0 <= k < |more| ==> more[k] == sections[k + 1];
      TopLevelRender(u, more, eof);
      assert sections == [s] + more;
    }
  }

  /** The parser only produces well-formed s-expressions. */
  lemma {:induction false} ParseWellFormed(u: seq<string>, toks: seq<string>, acc: seq<SExp>, eof: Option<Exception>)
    requires AllWellFormed(u, acc) && Parse(u, toks, acc, eof).Ok?
    ensures AllWellFormed(u, Parse(u, toks, acc, eof).value.items)
    decreases |toks|
  {
    if toks != [] {
      if toks[0] == "(" {
        var sub := Parse(u, toks[1..], [], eof).value;
        ParseWellFormed(u, toks[1..], [], eof);
        ParseWellFormed(u, sub.rest, if sub.items == [] then acc else acc + [List(sub.items)], eof);
      } else if toks[0] != ")" && !Unwanted(u, toks[0]) {
        ParseWellFormed(u, toks[1..], acc + [Atom(toks[0])], eof);
      }
    }
  }

  /** Every top-level section is a well-formed, non-empty list. */
  lemma {:induction false} TopLevelWellFormed(u: seq<string>, toks: seq<string>, eof: Option<Exception>)
    ensures forall k :: 0 <= k < |TopLevel(u, toks, eof).0| ==> AllWellFormed(u, TopLevel(u, toks, eof).0[k])
    decreases |toks|
  {
    if toks != [] {
      if toks[0] != "(" {
        TopLevelWellFormed(u, toks[1..], eof);
      } else if Parse(u, toks[1..], [], eof).Ok? {
        var p := Parse(u, toks[1..], [], eof).value;
        ParseWellFormed(u, toks[1..], [], eof);
        TopLevelWellFormed(u, p.rest, eof);
      }
    }
  }

  // ---------------------------------------------------------------------------------------------
  // The parser as Python runs it: one token iterator shared by the recursive calls, modelled as
  // a position in the token sequence.

  /** A position-based answer read as the tokens it leaves. */
  function AtPos(toks: seq<string>, r: Result<nat>): Result<seq<string>>
    requires r.Ok? ==> r.value <= |toks|
  {
    match r
    case Err(e) => Err(e)
    case Ok(p) => Ok(toks[p..])
  }

  method ConsumeUntilBalancedParen(toks: seq<string>, pos: nat, eof: Option<Exception>) returns (r: Result<nat>)
    requires pos <= |toks|
    ensures r.Ok? ==> pos <= r.value <= |toks|
    ensures AtPos(toks, r) == Consume(toks[pos..], 1, eof)
  {
    ghost var target := Consume(toks[pos..], 1, eof);
    var count := 1;
    var i := pos;
    while i < |toks|
      invariant pos <= i <= |toks| && count != 0
      invariant target == Consume(toks[i..], count, eof)
    {
      var token := toks[i];
      ConsumeAt(toks, i, count, eof);
      ghost var before := count;
      if token == ")" {
        count := count - 1;
      } else if token == "(" {
        count := count + 1;
      }
      assert count == Depth(token, before);
      assert target == if count == 0 then Ok(toks[i + 1..]) else Consume(toks[i + 1..], count, eof);
      i := i + 1;
      if count == 0 {
        return Ok(i);
      }
    }
    assert toks[i..] == [];
    if eof.Some? {
      return Err(eof.value);
    }
    return Ok(i);
  }

  /** One token of the scan at position i, in the terms of the loop above. */
  lemma ConsumeAt(toks: seq<string>, i: nat, count: int, eof: Option<Exception>)
    requires i < |toks|
    ensures Consume(toks[i..], count, eof) ==
      var c := Depth(toks[i], count);
      if c == 0 then Ok(toks[i + 1..]) else Consume(toks[i + 1..], c, eof)
  {
    assert toks[i..][0] == toks[i] && toks[i..][1..] == toks[i + 1..];
  }

  function Located(toks: seq<string>, r: Result<(seq<SExp>, nat)>): Result<Parsed>
    requires r.Ok? ==> r.value.1 <= |toks|
  {
    match r
    case Err(e) => Err(e)
    case Ok((items, p)) => Ok(Parsed(items, toks[p..]))
  }

  method ParseSection(u: seq<string>, toks: seq<string>, pos: nat, eof: Option<Exception>) returns (r: Result<(seq<SExp>, nat)>)
    requires pos <= |toks|
    ensures r.Ok? ==> pos <= r.value.1 <= |toks|
    ensures Located(toks, r) == Parse(u, toks[pos..], [], eof)
    decreases |toks| - pos, 1
  {
    ghost var target := Parse(u, toks[pos..], [], eof);
    var sexp: seq<SExp> := [];
    var i := pos;
    while i < |toks|
      invariant pos <= i <= |toks|
      invariant target == Parse(u, toks[i..], sexp, eof)
    {
      var next, done := ParseToken(u, toks, i, sexp, eof);
      if done {
        assert Located(toks, next) == target;
        return next;
      }
      sexp, i := next.value.0, next.value.1;
    }
    ParseEnd(u, toks, sexp, eof);
    r := if eof.Some? then Err(eof.value) else Ok((sexp, i));
  }

  /** Out of tokens: the list so far, or the generator's error. */
  lemma ParseEnd(u: seq<string>, toks: seq<string>, sexp: seq<SExp>, eof: Option<Exception>)
    ensures Parse(u, toks[|toks|..], sexp, eof) == if eof.Some? then Err(eof.value) else Ok(Parsed(sexp, toks[|toks|..]))
    ensures Located(toks, if eof.Some? then Err(eof.value) else Ok((sexp, |toks|))) ==
      if eof.Some? then Err(eof.value) else Ok(Parsed(sexp, toks[|toks|..]))
  {
    assert toks[|toks|..] == [];
  }

  /**
   * One turn of the loop of _parse_section, on the token at i: either the list is done
   * (`done`, with the answer in `next`), or `next` holds the list so far and the next position.
   */
  method ParseToken(u: seq<string>, toks: seq<string>, i: nat, sexp: seq<SExp>, eof: Option<Exception>)
    returns (next: Result<(seq<SExp>, nat)>, done: bool)
    requires i < |toks|
    ensures !done ==> next.Ok? && i < next.value.1 <= |toks|
    ensures !done ==> Parse(u, toks[i..], sexp, eof) == Parse(u, toks[next.value.1..], next.value.0, eof)
    ensures done ==> (next.Ok? ==> i < next.value.1 <= |toks|) && Located(toks, next) == Parse(u, toks[i..], sexp, eof)
    decreases |toks| - i, 0
  {
    var token := toks[i];
    ParseAt(u, toks, i, sexp, eof);
    if token == "(" {
      var sub := ParseSection(u, toks, i + 1, eof);
      if sub.Err? {
        assert Parse(u, toks[i + 1..], [], eof) == Err(sub.error);
        next := Err(sub.error);
        assert Located(toks, next) == Err(sub.error);
        return next, true;
      }
      assert Parse(u, toks[i + 1..], [], eof) == Ok(Parsed(sub.value.0, toks[sub.value.1..]));
      next := Ok((if sub.value.0 != [] then sexp + [List(sub.value.0)] else sexp, sub.value.1));
      done := false;
    } else if token == ")" {
      next := Ok((sexp, i + 1));
      assert Located(toks, next) == Ok(Parsed(sexp, toks[i + 1..]));
      done := true;
    } else if Unwanted(u, token) {
      var c := ConsumeUntilBalancedParen(toks, i + 1, eof);
      if c.Err? {
        assert Consume(toks[i + 1..], 1, eof) == Err(c.error);
        next := Err(c.error);
        assert Located(toks, next) == Err(c.error);
        return next, true;
      }
      assert Consume(toks[i + 1..], 1, eof) == Ok(toks[c.value..]);
      next := Ok((sexp, c.value));
      assert Located(toks, next) == Ok(Parsed(sexp, toks[c.value..]));
      done := true;
    } else {
      next := Ok((sexp + [Atom(token)], i + 1));
      done := false;
    }
  }

  /** Parse at position i of the tokens, by the token found there. */
  lemma ParseAt(u: seq<string>, toks: seq<string>, i: nat, acc: seq<SExp>, eof: Option<Exception>)
    requires i < |toks|
    ensures Parse(u, toks[i..], acc, eof) ==
      if toks[i] == "(" then
        match Parse(u, toks[i + 1..], [], eof)
        case Err(e) => Err(e)
        case Ok(sub) => Parse(u, sub.rest, if sub.items == [] then acc else acc + [List(sub.items)], eof)
      else if toks[i] == ")" then Ok(Parsed(acc, toks[i + 1..]))
      else if Unwanted(u, toks[i]) then
        match Consume(toks[i + 1..], 1, eof)
        case Err(e) => Err(e)
        case Ok(rest) => Ok(Parsed(acc, rest))
      else Parse(u, toks[i + 1..], acc + [Atom(toks[i])], eof)
  {
    assert toks[i..][0] == toks[i] && toks[i..][1..] == toks[i + 1..];
  }

  /** The sections already yielded, followed by those still to come. */
  function After(sections: seq<seq<SExp>>, more: (seq<seq<SExp>>, Option<Exception>)): (seq<seq<SExp>>, Option<Exception>)
  {
    (sections + more.0, more.1)
  }

  method TopLevelSections(u: seq<string>, toks: seq<string>, eof: Option<Exception>) returns (sections: seq<seq<SExp>>, err: Option<Exception>)
    ensures (sections, err) == TopLevel(u, toks, eof)
  {
    ghost var target := TopLevel(u, toks, eof);
    sections := [];
    var i := 0;
    assert toks[0..] == toks && [] + target.0 == target.0;
    while i < |toks|
      invariant i <= |toks|
      invariant target == After(sections, TopLevel(u, toks[i..], eof))
    {
      var found, j, e := TopStep(u, toks, eof, i);
      if e.Some? {
        assert sections + [] == sections;
        return sections, e;
      }
      assert sections + (found + TopLevel(u, toks[j..], eof).0) == (sections + found) + TopLevel(u, toks[j..], eof).0;
      sections := sections + found;
      i := j;
    }
    assert sections + [] == sections;
    err := eof;
  }

  /** One iteration of the loop over the top-level tokens: a list read whole, or a token skipped. */
  method TopStep(u: seq<string>, toks: seq<string>, eof: Option<Exception>, i: nat)
    returns (found: seq<seq<SExp>>, j: nat, err: Option<Exception>)
    requires i < |toks|
    ensures err.Some? ==> TopLevel(u, toks[i..], eof) == ([], err)
    ensures err.None? ==> i < j <= |toks| && TopLevel(u, toks[i..], eof) == After(found, TopLevel(u, toks[j..], eof))
  {
    if toks[i] == "(" {
      var section := ParseSection(u, toks, i + 1, eof);
      if section.Err? {
        TopLevelErr(u, toks, i, eof, section.error);
        return [], i, Some(section.error);
      }
      TopLevelOpen(u, toks, i, eof, section.value.0, section.value.1);
      found := if section.value.0 != [] then [section.value.0] else [];
      j, err := section.value.1, None;
      assert found + TopLevel(u, toks[j..], eof).0 == if found == [] then TopLevel(u, toks[j..], eof).0 else [section.value.0] + TopLevel(u, toks[j..], eof).0;
    } else {
      TopLevelSkip(u, toks, i, eof);
      found, j, err := [], i + 1, None;
      assert [] + TopLevel(u, toks[j..], eof).0 == TopLevel(u, toks[j..], eof).0;
    }
  }

  lemma TopLevelSkip(u: seq<string>, toks: seq<string>, i: nat, eof: Option<Exception>)
    requires i < |toks| && toks[i] != "("
    ensures TopLevel(u, toks[i..], eof) == TopLevel(u, toks[i + 1..], eof)
  {
    assert toks[i..][1..] == toks[i + 1..];
  }

  lemma TopLevelErr(u: seq<string>, toks: seq<string>, i: nat, eof: Option<Exception>, e: Exception)
    requires i < |toks| && toks[i] == "(" && Parse(u, toks[i + 1..], [], eof) == Err(e)
    ensures TopLevel(u, toks[i..], eof) == ([], Some(e))
  {
    assert toks[i..][1..] == toks[i + 1..];
  }

  lemma TopLevelOpen(u: seq<string>, toks: seq<string>, i: nat, eof: Option<Exception>, items: seq<SExp>, p: nat)
    requires i < |toks| && toks[i] == "(" && p <= |toks|
    requires Parse(u, toks[i + 1..], [], eof) == Ok(Parsed(items, toks[p..]))
    ensures TopLevel(u, toks[i..], eof) ==
      if items == [] then TopLevel(u, toks[p..], eof)
      else ([items] + TopLevel(u, toks[p..], eof).0, TopLevel(u, toks[p..], eof).1)
  {
    assert toks[i..][1..] == toks[i + 1..];
  }
}

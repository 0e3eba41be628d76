/**
 * The tokenizer of the Neurolucida ASCII reader (neurom/io/neurolucida.py, _get_tokens): each
 * line loses its comment after ';', single-line spines `<( ... )>` are skipped, parentheses are
 * padded with spaces, the line is split on whitespace, and a double-quoted string that spans
 * several words is squashed back into one token.
 */
module NeurolucidaTokens {
  import opened Wrappers
  import opened Seqs

  /** The characters Python's str.isspace accepts, by code point. */
  predicate IsSpace(c: char)
  {
    var n := c as int;
    n == 0x20 || 0x09 <= n <= 0x0d || 0x1c <= n <= 0x1f || n == 0x85 || n == 0xa0 || n == 0x1680 ||
    0x2000 <= n <= 0x200a || n == 0x2028 || n == 0x2029 || n == 0x202f || n == 0x205f || n == 0x3000
  }

  predicate NotSpace(c: char)
  {
    !IsSpace(c)
  }

  /** The characters of s other than whitespace, in order. */
  function Text(s: string): string
  {
    if s == [] then [] else Text(s[..|s| - 1]) + (if IsSpace(s[|s| - 1]) then [] else [s[|s| - 1]])
  }

  lemma {:induction false} TextConcat(a: string, b: string)
    ensures Text(a + b) == Text(a) + Text(b)
  {
    if b == [] {
      assert a + b == a;
    } else {
      assert (a + b)[..|a + b| - 1] == a + b[..|b| - 1];
      TextConcat(a, b[..|b| - 1]);
    }
  }

  // ---------------------------------------------------------------------------------------------
  // One line: comment, spine test, padding, splitting

  /** `line.split(';', 1)[0]`: the text before the first ';'. */
  function StripComment(line: string): (r: string)
    ensures r <= line && ';' !in r
    ensures |r| < |line| ==> line[|r|] == ';'
  {
    if line == [] || line[0] == ';' then [] else [line[0]] + StripComment(line[1..])
  }

  /** The two-character string [a, b] occurs in s. */
  predicate HasPair(s: string, a: char, b: char)
  {
    exists i :: 0 <= i < |s| - 1 && s[i] == a && s[i + 1] == b
  }

  function PadChar(c: char): string
  {
    if c == '(' || c == ')' then [' ', c, ' '] else [c]
  }

  /** `.replace('(', ' ( ').replace(')', ' ) ')`. */
  function Pad(s: string): string
  {
    if s == [] then [] else PadChar(s[0]) + Pad(s[1..])
  }

  /** Every occurrence of ch in s has whitespace on both sides. */
  predicate Isolated(s: string, ch: char)
  {
    forall k :: 0 <= k < |s| && s[k] == ch ==> 0 < k < |s| - 1 && IsSpace(s[k - 1]) && IsSpace(s[k + 1])
  }

  lemma IsolatedConcat(a: string, b: string, ch: char)
    requires Isolated(a, ch) && Isolated(b, ch)
    ensures Isolated(a + b, ch)
  {
    forall k | 0 <= k < |a + b| && (a + b)[k] == ch
      ensures 0 < k < |a + b| - 1 && IsSpace((a + b)[k - 1]) && IsSpace((a + b)[k + 1])
    {
      if k >= |a| {
        assert (a + b)[k] == b[k - |a|];
        assert (a + b)[k - 1] == b[k - |a| - 1];
        assert (a + b)[k + 1] == b[k - |a| + 1];
      } else {
        assert (a + b)[k] == a[k];
        assert (a + b)[k - 1] == a[k - 1];
        assert (a + b)[k + 1] == a[k + 1];
      }
    }
  }

  /** After padding, every opening or closing parenthesis is surrounded by spaces. */
  lemma {:induction false} PadIsolates(s: string, ch: char)
    requires ch == '(' || ch == ')'
    ensures Isolated(Pad(s), ch)
  {
    if s != [] {
      PadIsolates(s[1..], ch);
      var head := PadChar(s[0]);
      assert Isolated(head, ch) by {
        if s[0] == '(' || s[0] == ')' {
          assert head == [' ', s[0], ' '];
        } else {
          assert head == [s[0]];
        }
      }
      IsolatedConcat(head, Pad(s[1..]), ch);
    }
  }

  /** Padding adds whitespace only: the other characters are those of the line, in order. */
  lemma {:induction false} PadKeepsText(s: string)
    ensures Text(Pad(s)) == Text(s)
  {
    if s != [] {
      PadKeepsText(s[1..]);
      var head := PadChar(s[0]);
      TextConcat(head, Pad(s[1..]));
      TextConcat([s[0]], s[1..]);
      assert [s[0]] + s[1..] == s;
      assert Text([s[0]]) == Text([]) + (if IsSpace(s[0]) then [] else [s[0]]);
      if s[0] == '(' || s[0] == ')' {
        assert [' ', s[0]] == [' '] + [s[0]] && head == [' ', s[0]] + [' '];
        TextConcat([' ', s[0]], [' ']);
        TextConcat([' '], [s[0]]);
      }
    }
  }

  /** The state of str.split() after some characters: the finished words and the word being read. */
  datatype SplitState = SplitState(words: seq<string>, cur: string)

  function SplitStep(st: SplitState, c: char): SplitState
  {
    if IsSpace(c) then (if st.cur == [] then st else SplitState(st.words + [st.cur], []))
    else SplitState(st.words, st.cur + [c])
  }

  function SplitScan(s: string): SplitState
  {
    if s == [] then SplitState([], []) else SplitStep(SplitScan(s[..|s| - 1]), s[|s| - 1])
  }

  /** str.split() with no separator: the maximal runs of non-whitespace characters. */
  function Words(s: string): seq<string>
  {
    var st := SplitScan(s);
    if st.cur == [] then st.words else st.words + [st.cur]
  }

  predicate IsWord(w: string)
  {
    w != [] && forall i :: 0 <= i < |w| ==> NotSpace(w[i])
  }

  lemma {:induction false} SplitScanWords(s: string)
    ensures forall i :: 0 <= i < |SplitScan(s).words| ==> IsWord(SplitScan(s).words[i])
    ensures forall i :: 0 <= i < |SplitScan(s).cur| ==> NotSpace(SplitScan(s).cur[i])
  {
    if s != [] {
      SplitScanWords(s[..|s| - 1]);
    }
  }

  lemma {:induction false} SplitScanText(s: string)
    ensures Flatten(SplitScan(s).words) + SplitScan(s).cur == Text(s)
  {
    if s != [] {
      var pre := s[..|s| - 1];
      var c := s[|s| - 1];
      SplitScanText(pre);
      var st := SplitScan(pre);
      if IsSpace(c) && st.cur != [] {
        FlattenConcat(st.words, [st.cur]);
        assert Flatten([st.cur]) == st.cur + Flatten([]);
      }
    }
  }

  /** The word being read ends with the last character read, and is empty after whitespace. */
  lemma SplitScanLast(s: string)
    ensures SplitScan(s).cur != [] ==> s != [] && SplitScan(s).cur[|SplitScan(s).cur| - 1] == s[|s| - 1]
    ensures s == [] || IsSpace(s[|s| - 1]) ==> SplitScan(s).cur == []
  {
  }

  /** Every word is non-empty and free of whitespace, and together they hold every other character in order. */
  lemma WordsCover(s: string)
    ensures forall i :: 0 <= i < |Words(s)| ==> IsWord(Words(s)[i])
    ensures Flatten(Words(s)) == Text(s)
  {
    SplitScanWords(s);
    SplitScanText(s);
    var st := SplitScan(s);
    if st.cur != [] {
      FlattenConcat(st.words, [st.cur]);
      assert Flatten([st.cur]) == st.cur + Flatten([]);
    }
  }

  /** Every occurrence of ch has whitespace before it, and after it unless it ends s. */
  predicate SpacedBefore(s: string, ch: char)
  {
    forall k :: 0 <= k < |s| && s[k] == ch ==> 0 < k && IsSpace(s[k - 1]) && (k + 1 < |s| ==> IsSpace(s[k + 1]))
  }

  lemma {:induction false} SplitScanIsolates(s: string, ch: char)
    requires SpacedBefore(s, ch) && NotSpace(ch)
    ensures forall i :: 0 <= i < |SplitScan(s).words| && ch in SplitScan(s).words[i] ==> SplitScan(s).words[i] == [ch]
    ensures ch in SplitScan(s).cur ==> SplitScan(s).cur == [ch] && s[|s| - 1] == ch
  {
    if s != [] {
      var pre := s[..|s| - 1];
      var c := s[|s| - 1];
      assert SpacedBefore(pre, ch) by {
        forall k | 0 <= k < |pre| && pre[k] == ch
          ensures 0 < k && IsSpace(pre[k - 1]) && (k + 1 < |pre| ==> IsSpace(pre[k + 1]))
        {
          assert s[k] == ch;
        }
      }
      SplitScanIsolates(pre, ch);
      SplitScanLast(pre);
      assert c == ch ==> IsSpace(s[|s| - 2]);
      assert ch in SplitScan(pre).cur ==> s[|s| - 2] == ch && IsSpace(c);
    }
  }

  /** When ch is surrounded by whitespace, every word holding ch is exactly ch. */
  lemma WordsIsolate(s: string, ch: char)
    requires Isolated(s, ch) && NotSpace(ch)
    ensures forall i :: 0 <= i < |Words(s)| && ch in Words(s)[i] ==> Words(s)[i] == [ch]
  {
    SplitScanIsolates(s, ch);
  }

  /** The words of a padded line: each parenthesis is a token of its own, and no other character is lost. */
  lemma ParensStandAlone(line: string)
    ensures forall i :: 0 <= i < |Words(Pad(line))| && '(' in Words(Pad(line))[i] ==> Words(Pad(line))[i] == "("
    ensures forall i :: 0 <= i < |Words(Pad(line))| && ')' in Words(Pad(line))[i] ==> Words(Pad(line))[i] == ")"
    ensures Flatten(Words(Pad(line))) == Text(line)
  {
    PadIsolates(line, '(');
    PadIsolates(line, ')');
    PadKeepsText(line);
    WordsIsolate(Pad(line), '(');
    WordsIsolate(Pad(line), ')');
    WordsCover(Pad(line));
  }

  // ---------------------------------------------------------------------------------------------
  // Squashing quoted strings

  predicate StartsQuote(t: string)
  {
    |t| > 0 && t[0] == '"'
  }

  predicate EndsQuote(t: string)
  {
    |t| > 0 && t[|t| - 1] == '"'
  }

  /** `' '.join(ws)`. */
  function Join(ws: seq<string>): string
  {
    if ws == [] then [] else if |ws| == 1 then ws[0] else ws[0] + " " + Join(ws[1..])
  }

  /** The tokens yielded so far and the words of a quoted string still open (squash_token). */
  datatype Squash = Squash(out: seq<string>, pending: seq<string>)

  /** One word through the squashing: a word ending in '"' closes an open string. */
  function SquashToken(st: Squash, tok: string): Squash
  {
    if st.pending != [] then
      (if EndsQuote(tok) then Squash(st.out + [Join(st.pending + [tok])], []) else Squash(st.out, st.pending + [tok]))
    else if StartsQuote(tok) && !EndsQuote(tok) then Squash(st.out, [tok])
    else Squash(st.out + [tok], [])
  }

  function SquashAll(st: Squash, toks: seq<string>): Squash
  {
    if toks == [] then st else SquashToken(SquashAll(st, toks[..|toks| - 1]), toks[|toks| - 1])
  }

  /** Squashing two runs of words in turn is squashing their concatenation. */
  lemma {:induction false} SquashAllConcat(st: Squash, a: seq<string>, b: seq<string>)
    ensures SquashAll(st, a + b) == SquashAll(SquashAll(st, a), b)
  {
    if b == [] {
      assert a + b == a;
    } else {
      assert (a + b)[..|a + b| - 1] == a + b[..|b| - 1];
      SquashAllConcat(st, a, b[..|b| - 1]);
    }
  }

  /** Words outside a quoted string pass through unchanged. */
  lemma {:induction false} SquashPlain(out: seq<string>, toks: seq<string>)
    requires forall i :: 0 <= i < |toks| ==> !StartsQuote(toks[i])
    ensures SquashAll(Squash(out, []), toks) == Squash(out + toks, [])
  {
    if toks != [] {
      SquashPlain(out, toks[..|toks| - 1]);
      assert out + toks[..|toks| - 1] + [toks[|toks| - 1]] == out + toks;
    }
  }

  /** Words that continue an open quoted string accumulate without output. */
  lemma {:induction false} SquashOpen(out: seq<string>, pending: seq<string>, mid: seq<string>)
    requires pending != []
    requires forall i :: 0 <= i < |mid| ==> !EndsQuote(mid[i])
    ensures SquashAll(Squash(out, pending), mid) == Squash(out, pending + mid)
  {
    if mid != [] {
      SquashOpen(out, pending, mid[..|mid| - 1]);
      assert pending + mid[..|mid| - 1] + [mid[|mid| - 1]] == pending + mid;
    }
  }

  /**
   * A quoted string split over several words (the first opens a quote without closing it, only
   * the last ends in '"') comes out as one token: the words joined by single spaces.
   */
  lemma SquashQuoted(out: seq<string>, first: string, mid: seq<string>, last: string)
    requires StartsQuote(first) && !EndsQuote(first) && EndsQuote(last)
    requires forall i :: 0 <= i < |mid| ==> !EndsQuote(mid[i])
    ensures SquashAll(Squash(out, []), [first] + mid + [last]) == Squash(out + [Join([first] + mid + [last])], [])
  {
    assert SquashAll(Squash(out, []), [first]) == Squash(out, [first]) by {
      assert |[first][..0]| == 0;
    }
    SquashAllConcat(Squash(out, []), [first], mid);
    SquashOpen(out, [first], mid);
    SquashAllConcat(Squash(out, []), [first] + mid, [last]);
    assert SquashAll(Squash(out, [first] + mid), [last]) == SquashToken(Squash(out, [first] + mid), last) by {
      assert |[last][..0]| == 0;
    }
  }

  // ---------------------------------------------------------------------------------------------
  // The token stream of a file

  /**
   * The tokens read from the lines so far, and the exception that stopped the generator, if
   * any: AssertionError at a spine line with no ')>'.
   */
  datatype Stream = Stream(toks: seq<string>, err: Option<Exception>)

  /** A line as _get_tokens sees it after cutting the comment: a spine (closed or not), or words. */
  datatype Lexed = SpineLine(closed: bool) | WordsLine(words: seq<string>)

  /**
   * A line containing '<(' is a spine, closed when it also contains ')>'; any other line is
   * split into words once its parentheses are padded.
   */
  function Lex(line: string): Lexed
  {
    var text := StripComment(line);
    if HasPair(text, '<', '(') then SpineLine(HasPair(text, ')', '>')) else WordsLine(Words(Pad(text)))
  }

  function LexAll(lines: seq<string>): (r: seq<Lexed>)
    ensures |r| == |lines| && forall i :: 0 <= i < |lines| ==> r[i] == Lex(lines[i])
  {
    seq(|lines|, i requires 0 <= i < |lines| => Lex(lines[i]))
  }

  /** The words of the first k lines, one line after another, when none is a spine. */
  function AllWords(ls: seq<Lexed>, k: nat): seq<string>
    requires k <= |ls| && forall i :: 0 <= i < k ==> ls[i].WordsLine?
  {
    if k == 0 then [] else AllWords(ls, k - 1) + ls[k - 1].words
  }

  /** _get_tokens over the first k lines: every line starts with no open quoted string. */
  function StreamUpTo(ls: seq<Lexed>, k: nat): Stream
    requires k <= |ls|
  {
    if k == 0 then Stream([], None)
    else
      var s := StreamUpTo(ls, k - 1);
      if s.err.Some? then s
      else match ls[k - 1]
        case SpineLine(closed) => if closed then s else Stream(s.toks, Some(AssertionError))
        case WordsLine(words) => Stream(s.toks + SquashAll(Squash([], []), words).out, None)
  }

  function Tokens(lines: seq<string>): Stream
  {
    StreamUpTo(LexAll(lines), |lines|)
  }

  /** The stream stops at the first spine line that does not close, and only there. */
  lemma {:induction false} StreamError(ls: seq<Lexed>, k: nat)
    requires k <= |ls|
    ensures StreamUpTo(ls, k).err.Some? <==> exists i :: 0 <= i < k && ls[i] == SpineLine(false)
    ensures StreamUpTo(ls, k).err.Some? ==> StreamUpTo(ls, k).err == Some(AssertionError)
  {
    if k > 0 {
      StreamError(ls, k - 1);
    }
  }

  /** Spine lines that close are skipped; lines without quotes give their words, in order. */
  lemma {:induction false} StreamPlain(ls: seq<Lexed>, k: nat)
    requires k <= |ls|
    requires forall i :: 0 <= i < k ==> ls[i].WordsLine?
    requires forall i, j :: 0 <= i < k && ls[i].WordsLine? && 0 <= j < |ls[i].words| ==> !StartsQuote(ls[i].words[j])
    ensures StreamUpTo(ls, k) == Stream(AllWords(ls, k), None)
  {
    if k > 0 {
      StreamPlain(ls, k - 1);
      SquashPlain([], ls[k - 1].words);
    }
  }

  /**
   * The same stream with the open quoted string carried from one line to the next, as the
   * comment on squash_token (quoted strings "can be multi-line") intends.
   */
  function CarriedUpTo(ls: seq<Lexed>, k: nat): (Squash, Option<Exception>)
    requires k <= |ls|
  {
    if k == 0 then (Squash([], []), None)
    else
      var (st, err) := CarriedUpTo(ls, k - 1);
      if err.Some? then (st, err)
      else match ls[k - 1]
        case SpineLine(closed) => if closed then (st, None) else (st, Some(AssertionError))
        case WordsLine(words) => (SquashAll(st, words), None)
  }

  function CarriedTokens(lines: seq<string>): Stream
  {
    var (st, err) := CarriedUpTo(LexAll(lines), |lines|);
    Stream(st.out, err)
  }

  /**
   * With the squash state carried over, line breaks act as whitespace: without spine lines the
   * tokens are those of squashing the words of all lines at once.
   */
  lemma {:induction false} CarriedJoinsLines(ls: seq<Lexed>, k: nat)
    requires k <= |ls|
    requires forall i :: 0 <= i < k ==> ls[i].WordsLine?
    ensures CarriedUpTo(ls, k) == (SquashAll(Squash([], []), AllWords(ls, k)), None)
  {
    if k > 0 {
      CarriedJoinsLines(ls, k - 1);
      SquashAllConcat(Squash([], []), AllWords(ls, k - 1), ls[k - 1].words);
    }
  }

  /** A line holding one word that opens a quote. */
  lemma LexOpenQuote()
    ensures Lex("\"a") == WordsLine(["\"a"])
  {
    var l: string := "\"a";
    assert StripComment(l) == l;
    assert Pad(l) == l;
    assert !HasPair(l, '<', '(');
    assert SplitScan(l[..1]) == SplitState([], "\"");
    assert SplitScan(l) == SplitState([], l);
  }

  /** A line holding one word that closes a quote. */
  lemma LexCloseQuote()
    ensures Lex("b\"") == WordsLine(["b\""])
  {
    var l: string := "b\"";
    assert StripComment(l) == l;
    assert Pad(l) == l;
    assert !HasPair(l, '<', '(');
    assert SplitScan(l[..1]) == SplitState([], "b");
    assert SplitScan(l) == SplitState([], l);
  }

  /** Both lines of the example are plain words lines. */
  lemma LexQuoteLines()
    ensures LexAll(["\"a", "b\""]) == [WordsLine(["\"a"]), WordsLine(["b\""])]
  {
    LexOpenQuote();
    LexCloseQuote();
  }

  /**
   * A quoted string opened on one line and closed on the next: _get_tokens drops the opening
   * word and yields the closing word as a token of its own.
   */
  lemma QuoteAcrossLines()
    ensures Tokens(["\"a", "b\""]) == Stream(["b\""], None)
  {
    var l1: string, l2: string := "\"a", "b\"";
    LexQuoteLines();
    var ls := LexAll([l1, l2]);
    assert SquashAll(Squash([], []), [l1]) == Squash([], [l1]) by {
      assert |[l1][..0]| == 0;
    }
    assert SquashAll(Squash([], []), [l2]) == Squash([l2], []) by {
      assert |[l2][..0]| == 0;
    }
    assert StreamUpTo(ls, 1) == Stream([], None);
  }

  /** Carrying the squash state over the line break yields the whole quoted string as one token. */
  lemma CarriedQuoteAcrossLines()
    ensures CarriedTokens(["\"a", "b\""]) == Stream(["\"a b\""], None)
  {
    var l1: string, l2: string := "\"a", "b\"";
    LexQuoteLines();
    var ls := LexAll([l1, l2]);
    assert SquashAll(Squash([], []), [l1]) == Squash([], [l1]) by {
      assert |[l1][..0]| == 0;
    }
    assert SquashAll(Squash([], [l1]), [l2]) == Squash([Join([l1, l2])], []) by {
      assert |[l2][..0]| == 0;
    }
    assert Join([l1, l2]) == "\"a b\"";
    assert CarriedUpTo(ls, 1) == (Squash([], [l1]), None);
  }

  // ---------------------------------------------------------------------------------------------
  // The generator as a loop

  /** The head of the loop body: the comment cut, the spine test, the padding and the split. */
  method ReadLine(raw: string) returns (lx: Lexed)
    ensures lx == Lex(raw)
  {
    var line := StripComment(raw);
    if HasPair(line, '<', '(') {
      return SpineLine(HasPair(line, ')', '>'));
    }
    return WordsLine(Words(Pad(line)));
  }

  /**
   * The loop over one line's words, squashing quoted strings from the given state: the source
   * starts every line with no open quote, and what is still open at the end of a line is dropped.
   */
  method SquashLine(start: Squash, words: seq<string>) returns (st: Squash)
    ensures st == SquashAll(start, words)
  {
    var out := start.out;
    var squash := start.pending;
    var j := 0;
    while j < |words|
      invariant j <= |words| && SquashAll(start, words[..j]) == Squash(out, squash)
    {
      assert words[..j + 1][..j] == words[..j];
      var token := words[j];
      if squash != [] {
        squash := squash + [token];
        if EndsQuote(token) {
          out := out + [Join(squash)];
          squash := [];
        }
      } else if StartsQuote(token) && !EndsQuote(token) {
        squash := [token];
      } else {
        out := out + [token];
      }
      j := j + 1;
    }
    assert words[..j] == words;
    st := Squash(out, squash);
  }

  /** One iteration of the loop over lines: the line's tokens, or the end of the stream at an open spine. */
  method ReadStep(ghost ls: seq<Lexed>, k: nat, raw: string, toks: seq<string>) returns (next: seq<string>, stop: bool)
    requires k < |ls| && ls[k] == Lex(raw) && StreamUpTo(ls, k) == Stream(toks, None)
    ensures StreamUpTo(ls, k + 1) == if stop then Stream(toks, Some(AssertionError)) else Stream(next, None)
  {
    var lx := ReadLine(raw);
    match lx {
      case SpineLine(closed) =>
        next, stop := toks, !closed;
      case WordsLine(words) =>
        var st := SquashLine(Squash([], []), words);
        next, stop := toks + st.out, false;
    }
  }

  /**
   * _get_tokens: the tokens of every line in turn, and AssertionError at the first spine line
   * without its ')>', the tokens before it having been produced.
   */
  method GetTokens(lines: seq<string>) returns (toks: seq<string>, err: Option<Exception>)
    ensures Stream(toks, err) == Tokens(lines)
  {
    ghost var ls := LexAll(lines);
    ghost var target := StreamUpTo(ls, |lines|);
    assert target == Tokens(lines);
    toks, err := [], None;
    var k := 0;
    while k < |lines|
      invariant k <= |lines| && err.None? && Stream(toks, err) == StreamUpTo(ls, k)
    {
      var next, stop := ReadStep(ls, k, lines[k], toks);
      if stop {
        err := Some(AssertionError);
        ErrorStays(ls, k + 1, |lines|);
        assert target == Stream(toks, err);
        return;
      }
      toks := next;
      k := k + 1;
    }
  }

  /** After the assertion the stream does not change. */
  lemma {:induction false} ErrorStays(ls: seq<Lexed>, k: nat, n: nat)
    requires k <= n <= |ls| && StreamUpTo(ls, k).err.Some?
    ensures StreamUpTo(ls, n) == StreamUpTo(ls, k)
    decreases n - k
  {
    if k < n {
      ErrorStays(ls, k + 1, n);
    }
  }

  // ---------------------------------------------------------------------------------------------
  // The tokenizer with the squash state carried from line to line

  /** One line of the corrected loop: the squash state after the line, or the end at an open spine. */
  method ReadStepCarried(ghost ls: seq<Lexed>, k: nat, raw: string, st: Squash) returns (next: Squash, stop: bool)
    requires k < |ls| && ls[k] == Lex(raw) && CarriedUpTo(ls, k) == (st, None)
    ensures CarriedUpTo(ls, k + 1) == if stop then (st, Some(AssertionError)) else (next, None)
  {
    var lx := ReadLine(raw);
    match lx {
      case SpineLine(closed) =>
        next, stop := st, !closed;
      case WordsLine(words) =>
        next := SquashLine(st, words);
        stop := false;
    }
  }

  /** After the assertion the carried state does not change. */
  lemma {:induction false} CarriedErrorStays(ls: seq<Lexed>, k: nat, n: nat)
    requires k <= n <= |ls| && CarriedUpTo(ls, k).1.Some?
    ensures CarriedUpTo(ls, n) == CarriedUpTo(ls, k)
    decreases n - k
  {
    if k < n {
      CarriedErrorStays(ls, k + 1, n);
    }
  }

  /** The corrected _get_tokens: a quoted string may run over several lines. */
  method GetCarriedTokens(lines: seq<string>) returns (toks: seq<string>, err: Option<Exception>)
    ensures Stream(toks, err) == CarriedTokens(lines)
  {
    ghost var ls := LexAll(lines);
    ghost var target := CarriedUpTo(ls, |lines|);
    assert CarriedTokens(lines) == Stream(target.0.out, target.1);
    var st := Squash([], []);
    var k := 0;
    while k < |lines|
      invariant k <= |lines| && CarriedUpTo(ls, k) == (st, None)
    {
      var next, stop := ReadStepCarried(ls, k, lines[k], st);
      if stop {
        CarriedErrorStays(ls, k + 1, |lines|);
        assert target == (st, Some(AssertionError));
        return st.out, Some(AssertionError);
      }
      st := next;
      k := k + 1;
    }
    return st.out, None;
  }

  /** Which tokenizer a reader runs: the source's, squashing per line, or the corrected one. */
  datatype Quoting = PerLine | AcrossLines

  function TokensBy(q: Quoting, lines: seq<string>): Stream
  {
    if q == PerLine then Tokens(lines) else CarriedTokens(lines)
  }

  method GetTokensBy(q: Quoting, lines: seq<string>) returns (toks: seq<string>, err: Option<Exception>)
    ensures Stream(toks, err) == TokensBy(q, lines)
  {
    if q == PerLine {
      toks, err := GetTokens(lines);
    } else {
      toks, err := GetCarriedTokens(lines);
    }
  }
}

/**
 * The tokens of printed text: in any layout made of space the text of a printable value lexes to the same
 * tokens, wherever it stands, unless a string in it holds a NUL or a float is not finite, on which the lexer
 * breaks down.
 */
module JsonPrintedTokens {
  import opened Base
  import opened Sequences
  import opened Values
  import opened JsonStrings
  import opened JsonNumbers
  import opened JsonTables
  import opened JsonGrammar
  import opened JsonLexer
  import opened JsonLexerLanguage
  import opened JsonTokens
  import opened JsonRender

  /** How C streams write what is not finite: `inf` or `nan`, perhaps with a sign in front and more behind. */
  predicate NonFinite(w: bytes) {
    var k := if CharAt(w, 0) == MINUS then 1 else 0;
    (CharAt(w, k) == 105 && CharAt(w, k + 1) == 110) || (CharAt(w, k) == 110 && CharAt(w, k + 1) == 97)
  }

  /** The only thing assumed of the stream's text of a float: it is a float literal, or a name of no finite number. */
  ghost predicate WritesFloats(fixed: real -> bytes) {
    forall r :: IsFloat(fixed(r)) || NonFinite(fixed(r))
  }

  /** An indentation of bytes 8 to 13 and 32. */
  ghost predicate SpaceLayout(lay: Layout) {
    lay.Nice? ==> forall i :: 0 <= i < |lay.tab| ==> 8 <= lay.tab[i] < 14 || lay.tab[i] == 32
  }

  /** No string or key anywhere in the tree holds a NUL, and every float is written as a float literal. */
  ghost predicate Readable(v: Value, fixed: real -> bytes)
    decreases v, 1
  {
    match v
    case Str(s) => NulFree(s)
    case Float(r) => IsFloat(fixed(r))
    case Array(xs) => ReadableItems(xs, fixed)
    case List(xs) => ReadableItems(xs, fixed)
    case Dict(ps) => ReadablePairs(ps, fixed)
    case _ => true
  }

  ghost predicate ReadableItems(xs: seq<Value>, fixed: real -> bytes)
    decreases xs, 0
  {
    xs == [] || (Readable(xs[0], fixed) && ReadableItems(xs[1..], fixed))
  }

  ghost predicate ReadablePairs(ps: seq<Pair>, fixed: real -> bytes)
    decreases ps, 0
  {
    ps == [] || (ReadablePair(ps[0], fixed) && ReadablePairs(ps[1..], fixed))
  }

  ghost predicate ReadablePair(p: Pair, fixed: real -> bytes)
    decreases p
  {
    NulFree(if p.key.Str? then p.key.s else []) && Readable(p.val, fixed)
  }

  // --- The tokens of a value ---

  function Mark(t: Terminal, c: byte): Token {
    Token(t, [c])
  }

  function ValueTokens(v: Value, fixed: real -> bytes): seq<Token>
    decreases v, 1
  {
    match v
    case Blank => [Token(TNull, [110, 117, 108, 108])]
    case Bool(b) => [if b then Token(TTrue, [116, 114, 117, 101]) else Token(TFalse, [102, 97, 108, 115, 101])]
    case Int(i) => [Token(TInteger, IntText(i))]
    case Float(r) => [Token(TFloat, fixed(r))]
    case Str(s) => [Token(TString, Quoted(s))]
    case Array(xs) => [Mark(TLBracket, 91)] + (if xs == [] then [Mark(TRBracket, 93)] else ItemsTokens(xs, fixed))
    case List(xs) => [Mark(TLBracket, 91)] + (if xs == [] then [Mark(TRBracket, 93)] else ItemsTokens(xs, fixed))
    case Dict(ps) => [Mark(TLBrace, 123)] + (if ps == [] then [Mark(TRBrace, 125)] else PairsTokens(ps, fixed))
    case Set(_) => []
  }

  function ItemsTokens(xs: seq<Value>, fixed: real -> bytes): seq<Token>
    requires xs != []
    decreases xs, 0
  {
    ValueTokens(xs[0], fixed) + MoreItemsTokens(xs[1..], fixed)
  }

  function MoreItemsTokens(xs: seq<Value>, fixed: real -> bytes): seq<Token>
    decreases xs, 1
  {
    if xs == [] then [Mark(TRBracket, 93)] else [Mark(TComma, 44)] + ItemsTokens(xs, fixed)
  }

  function PairsTokens(ps: seq<Pair>, fixed: real -> bytes): seq<Token>
    requires ps != []
    decreases ps, 0
  {
    PairTokens(ps[0], fixed) + MorePairsTokens(ps[1..], fixed)
  }

  function MorePairsTokens(ps: seq<Pair>, fixed: real -> bytes): seq<Token>
    decreases ps, 1
  {
    if ps == [] then [Mark(TRBrace, 125)] else [Mark(TComma, 44)] + PairsTokens(ps, fixed)
  }

  function PairTokens(p: Pair, fixed: real -> bytes): seq<Token>
    decreases p
  {
    [Token(TString, Quoted(if p.key.Str? then p.key.s else [])), Mark(TColon, 58)] + ValueTokens(p.val, fixed)
  }

  // --- Lexing the printed text ---

  /** A string with a NUL in it, or a float that is not written as a literal. */
  predicate Unreadable(tok: Token) {
    (tok.term == TString && !NulFree(tok.text)) || (tok.term == TFloat && !IsFloat(tok.text))
  }

  /** The tokens up to the first unreadable one, in place of which the lexer recognizes nothing. */
  function Cut(toks: seq<Token>): seq<Token> {
    if toks == [] then []
    else if Unreadable(toks[0]) then [Token(Unrecognized, [])]
    else [toks[0]] + Cut(toks[1..])
  }

  ghost predicate Whole(toks: seq<Token>) {
    forall i :: 0 <= i < |toks| ==> !Unreadable(toks[i])
  }

  lemma {:induction false} CutConcat(s: seq<Token>, t: seq<Token>)
    ensures Whole(s + t) <==> Whole(s) && Whole(t)
    ensures Whole(s) ==> Cut(s + t) == s + Cut(t)
    ensures !Whole(s) ==> Cut(s + t) == Cut(s)
  {
    hide Unreadable;
    WholeConcat(s, t);
    if s == [] {
      assert s + t == t;
    } else {
      assert (s + t)[1..] == s[1..] + t && (s + t)[0] == s[0];
      assert s == [s[0]] + s[1..];
      WholeConcat([s[0]], s[1..]);
      CutConcat(s[1..], t);
      if Whole(s) {
        Associative([s[0]], s[1..], Cut(t));
      }
    }
  }

  lemma {:induction false} WholeConcat(s: seq<Token>, t: seq<Token>)
    ensures Whole(s + t) <==> Whole(s) && Whole(t)
  {
    hide Unreadable;
    if Whole(s + t) {
      forall i | 0 <= i < |s| ensures !Unreadable(s[i]) {
        assert s[i] == (s + t)[i];
      }
      forall i | 0 <= i < |t| ensures !Unreadable(t[i]) {
        assert t[i] == (s + t)[|s| + i];
      }
    }
  }

  lemma {:induction false} CutBreaksDown(toks: seq<Token>)
    requires !Whole(toks)
    ensures Cut(toks) != [] && Cut(toks)[|Cut(toks)| - 1].term == Unrecognized
  {
    if !Unreadable(toks[0]) {
      assert toks == [toks[0]] + toks[1..];
      WholeConcat([toks[0]], toks[1..]);
      CutBreaksDown(toks[1..]);
    }
  }

  /**
   * In front of `rest` the text lexes to `toks`; or, if it is not `good`, to what comes before the first
   * unreadable one, and no further.
   */
  ghost predicate Lexes(text: bytes, rest: bytes, toks: seq<Token>, good: bool) {
    && (Whole(toks) <==> good)
    && Tokens(text + rest) == if good then toks + Tokens(rest) else Cut(toks)
  }

  lemma {:induction false} LexesBoth(a: bytes, b: bytes, rest: bytes, s: seq<Token>, t: seq<Token>, good: bool, good': bool)
    requires Lexes(a, b + rest, s, good) && Lexes(b, rest, t, good')
    ensures Lexes(a + b, rest, s + t, good && good')
  {
    hide Cut, Whole, Tokens;
    Associative(a, b, rest);
    Associative(s, t, Tokens(rest));
    CutConcat(s, t);
  }

  lemma {:induction false} LexesMark(t: Terminal, c: byte, rest: bytes)
    requires Literal(t, [c]) && t in {TLBrace, TRBrace, TLBracket, TRBracket, TComma, TColon}
    ensures Lexes([c], rest, [Mark(t, c)], true)
  {
    LexInContext(t, [c], rest);
  }

  lemma {:induction false} RepeatIsSpace(tab: bytes, n: nat)
    requires forall i :: 0 <= i < |tab| ==> 8 <= tab[i] < 14 || tab[i] == 32
    ensures forall i :: 0 <= i < |Repeat(tab, n)| ==> 8 <= Repeat(tab, n)[i] < 14 || Repeat(tab, n)[i] == 32
  {
    if n > 0 {
      RepeatIsSpace(tab, n - 1);
    }
  }

  lemma {:induction false} LexesBreak(lay: Layout, depth: nat, rest: bytes)
    requires SpaceLayout(lay)
    ensures Lexes(Break(lay, depth), rest, [], true)
  {
    hide Tokens, Unreadable, Repeat;
    if lay.Nice? {
      RepeatIsSpace(lay.tab, depth);
    }
    TokensSkipSpaces(Break(lay, depth), rest);
  }

  /** What may stand behind a printed number. */
  predicate EndsNumber(rest: bytes) {
    var c := CharAt(rest, 0);
    !IsDigit(c) && c != POINT && !IsExponentMark(c)
  }

  lemma {:induction false} LexesLiteral(t: Terminal, w: bytes, rest: bytes)
    requires Proper(t) && t != TSkip && t != TString && Literal(t, w) && EndsNumber(rest)
    ensures Lexes(w, rest, [Token(t, w)], true)
  {
    LexInContext(t, w, rest);
  }

  lemma {:induction false} LexesString(s: bytes, rest: bytes)
    ensures Lexes(Quoted(s), rest, [Token(TString, Quoted(s))], NulFree(s))
  {
    QuotedInContext(s, rest);
    QuotedNul(s);
    var tok := Token(TString, Quoted(s));
    assert Whole([tok]) <==> !Unreadable([tok][0]);
  }

  lemma {:induction false} QuotedNul(s: bytes)
    ensures NulFree(Quoted(s)) <==> NulFree(s)
  {
    EscapedNul(s);
    if NulFree(s) {
      NulFreeConcat([QUOTE], Escape(s));
      NulFreeConcat([QUOTE] + Escape(s), [QUOTE]);
    } else {
      var i :| 0 <= i < |Escape(s)| && Escape(s)[i] == 0;
      assert Quoted(s)[i + 1] == 0;
    }
  }

  lemma {:induction false} EscapedNul(s: bytes)
    ensures NulFree(Escape(s)) <==> NulFree(s)
  {
    EscapeIsBody(s);
    if NulFree(s) {
      BodyIsNulFree(Escape(s));
    } else {
      var i :| 0 <= i < |s| && s[i] == 0;
      NulIsKept(s, i);
    }
  }

  lemma {:induction false} NulIsKept(s: bytes, i: nat)
    requires i < |s| && s[i] == 0
    ensures !NulFree(Escape(s))
  {
    var e, r := EscapeByte(s[0]), Escape(s[1..]);
    if i == 0 {
      assert Escape(s)[0] == 0;
    } else {
      NulIsKept(s[1..], i - 1);
      var j :| 0 <= j < |r| && r[j] == 0;
      assert (e + r)[|e| + j] == 0;
    }
  }

  lemma {:induction false} LexesFloat(w: bytes, rest: bytes)
    requires (IsFloat(w) || NonFinite(w)) && EndsNumber(rest)
    ensures Lexes(w, rest, [Token(TFloat, w)], IsFloat(w))
  {
    if IsFloat(w) {
      LexesLiteral(TFloat, w, rest);
    } else {
      NonFiniteIsNotRecognized(w, rest);
      assert Unreadable([Token(TFloat, w)][0]);
    }
  }

  lemma {:induction false} NonFiniteIsNoFloat(w: bytes)
    requires NonFinite(w)
    ensures !IsFloat(w)
  {
  }

  /** No literal begins like an infinity: after an optional sign the lexer is stuck at once. */
  lemma {:induction false} NonFiniteIsNotRecognized(w: bytes, rest: bytes)
    requires NonFinite(w)
    ensures Tokens(w + rest) == [Token(Unrecognized, [])]
  {
    var text := w + rest;
    assert CharAt(text, 0) == CharAt(w, 0) && (|w| > 1 ==> CharAt(text, 1) == CharAt(w, 1));
    assert Lex(text).term == Unrecognized;
  }

  lemma {:induction false} LexesScalar(v: Value, lay: Layout, depth: nat, rest: bytes, fixed: real -> bytes)
    requires WritesFloats(fixed) && EndsNumber(rest)
    requires v.Blank? || v.Bool? || v.Int? || v.Float? || v.Str?
    ensures Lexes(Text(v, lay, depth, fixed), rest, ValueTokens(v, fixed), Readable(v, fixed))
  {
    match v
    case Blank => LexesLiteral(TNull, [110, 117, 108, 108], rest);
    case Bool(b) =>
      if b {
        LexesLiteral(TTrue, [116, 114, 117, 101], rest);
      } else {
        LexesLiteral(TFalse, [102, 97, 108, 115, 101], rest);
      }
    case Int(i) =>
      IntTextReads(i);
      LexesLiteral(TInteger, IntText(i), rest);
    case Float(r) => LexesFloat(fixed(r), rest);
    case Str(s) => LexesString(s, rest);
  }

  /** The text of a printable value lexes to its tokens, in any layout of space, up to the first unreadable one. */
  lemma {:induction false} LexesValue(v: Value, lay: Layout, depth: nat, rest: bytes, fixed: real -> bytes)
    requires WritesFloats(fixed) && SpaceLayout(lay) && Printable(v) && EndsNumber(rest)
    ensures Lexes(Text(v, lay, depth, fixed), rest, ValueTokens(v, fixed), Readable(v, fixed))
    decreases v, 3
  {
    match v
    case Array(xs) => LexesBracketed(xs, lay, depth, rest, fixed);
    case List(xs) => LexesBracketed(xs, lay, depth, rest, fixed);
    case Dict(ps) => LexesBraced(ps, lay, depth, rest, fixed);
    case _ => LexesScalar(v, lay, depth, rest, fixed);
  }

  /** An opening bracket and a line break in front of the first member. */
  lemma {:induction false} LexesOpened(t: Terminal, c: byte, lay: Layout, d: nat, body: bytes, rest: bytes,
                                       toks: seq<Token>, good: bool)
    requires SpaceLayout(lay) && Literal(t, [c]) && t in {TLBrace, TLBracket} && Lexes(body, rest, toks, good)
    ensures Lexes([c] + (Break(lay, d) + body), rest, [Mark(t, c)] + toks, good)
  {
    var b := Break(lay, d);
    LexesBreak(lay, d, body + rest);
    LexesBoth(b, body, rest, [], toks, true, good);
    assert [] + toks == toks;
    LexesMark(t, c, (b + body) + rest);
    LexesBoth([c], b + body, rest, [Mark(t, c)], toks, true, good);
  }

  /** A comma and a line break in front of the next member. */
  lemma {:induction false} LexesSeparated(lay: Layout, d: nat, body: bytes, rest: bytes, toks: seq<Token>, good: bool)
    requires SpaceLayout(lay) && Lexes(body, rest, toks, good)
    ensures Lexes([COMMA] + Break(lay, d) + body, rest, [Mark(TComma, 44)] + toks, good)
  {
    var b := Break(lay, d);
    LexesBreak(lay, d, body + rest);
    LexesMark(TComma, 44, b + (body + rest));
    LexesBoth([COMMA], b, body + rest, [Mark(TComma, 44)], [], true, true);
    assert [Mark(TComma, 44)] + [] == [Mark(TComma, 44)];
    LexesBoth([COMMA] + b, body, rest, [Mark(TComma, 44)], toks, true, good);
  }

  /** A line break and a closing bracket. */
  lemma {:induction false} LexesClosed(t: Terminal, c: byte, lay: Layout, d: nat, rest: bytes)
    requires SpaceLayout(lay) && Literal(t, [c]) && t in {TRBrace, TRBracket}
    ensures Lexes(Break(lay, d) + [c], rest, [Mark(t, c)], true)
  {
    LexesMark(t, c, rest);
    LexesBreak(lay, d, [c] + rest);
    LexesBoth(Break(lay, d), [c], rest, [], [Mark(t, c)], true, true);
    assert [] + [Mark(t, c)] == [Mark(t, c)];
  }

  lemma {:induction false} LexesEmpty(t: Terminal, c: byte, t': Terminal, c': byte, rest: bytes)
    requires Literal(t, [c]) && t in {TLBrace, TLBracket} && Literal(t', [c']) && t' in {TRBrace, TRBracket}
    ensures Lexes([c] + [c'], rest, [Mark(t, c)] + [Mark(t', c')], true)
  {
    LexesMark(t', c', rest);
    LexesMark(t, c, [c'] + rest);
    LexesBoth([c], [c'], rest, [Mark(t, c)], [Mark(t', c')], true, true);
  }

  lemma {:induction false} LexesBracketed(xs: seq<Value>, lay: Layout, depth: nat, rest: bytes, fixed: real -> bytes)
    requires WritesFloats(fixed) && SpaceLayout(lay) && EndsNumber(rest)
    requires forall i :: 0 <= i < |xs| ==> Printable(xs[i])
    ensures Lexes(Text(Array(xs), lay, depth, fixed), rest, ValueTokens(Array(xs), fixed), ReadableItems(xs, fixed))
    decreases xs, 2
  {
    hide Lexes, Literal, Whole;
    if xs == [] {
      LexesEmpty(TLBracket, 91, TRBracket, 93, rest);
    } else {
      LexesItems(xs, lay, depth, rest, fixed);
      LexesOpened(TLBracket, 91, lay, depth + 1, ItemsText(xs, lay, depth, fixed), rest,
                  ItemsTokens(xs, fixed), ReadableItems(xs, fixed));
    }
  }

  lemma {:induction false} MoreItemsEndNumber(xs: seq<Value>, lay: Layout, depth: nat, rest: bytes, fixed: real -> bytes)
    ensures EndsNumber(MoreItems(xs, lay, depth, fixed) + rest)
  {
    assert xs != [] ==> MoreItems(xs, lay, depth, fixed)[0] == COMMA;
  }

  lemma {:induction false} LexesItems(xs: seq<Value>, lay: Layout, depth: nat, rest: bytes, fixed: real -> bytes)
    requires WritesFloats(fixed) && SpaceLayout(lay) && EndsNumber(rest) && xs != []
    requires forall i :: 0 <= i < |xs| ==> Printable(xs[i])
    ensures Lexes(ItemsText(xs, lay, depth, fixed), rest, ItemsTokens(xs, fixed), ReadableItems(xs, fixed))
    decreases xs, 0
  {
    var more := MoreItems(xs[1..], lay, depth, fixed);
    MoreItemsEndNumber(xs[1..], lay, depth, rest, fixed);
    LexesValue(xs[0], lay, depth + 1, more + rest, fixed);
    LexesMoreItems(xs[1..], lay, depth, rest, fixed);
    LexesBoth(Text(xs[0], lay, depth + 1, fixed), more, rest, ValueTokens(xs[0], fixed),
              MoreItemsTokens(xs[1..], fixed), Readable(xs[0], fixed), ReadableItems(xs[1..], fixed));
  }

  lemma {:induction false} LexesMoreItems(xs: seq<Value>, lay: Layout, depth: nat, rest: bytes, fixed: real -> bytes)
    requires WritesFloats(fixed) && SpaceLayout(lay) && EndsNumber(rest)
    requires forall i :: 0 <= i < |xs| ==> Printable(xs[i])
    ensures Lexes(MoreItems(xs, lay, depth, fixed), rest, MoreItemsTokens(xs, fixed), ReadableItems(xs, fixed))
    decreases xs, 1
  {
    if xs == [] {
      LexesClosed(TRBracket, 93, lay, depth, rest);
    } else {
      LexesItems(xs, lay, depth, rest, fixed);
      LexesSeparated(lay, depth + 1, ItemsText(xs, lay, depth, fixed), rest, ItemsTokens(xs, fixed),
                     ReadableItems(xs, fixed));
    }
  }

  lemma {:induction false} LexesBraced(ps: seq<Pair>, lay: Layout, depth: nat, rest: bytes, fixed: real -> bytes)
    requires WritesFloats(fixed) && SpaceLayout(lay) && EndsNumber(rest)
    requires forall i :: 0 <= i < |ps| ==> PrintablePair(ps[i])
    ensures Lexes(Text(Dict(ps), lay, depth, fixed), rest, ValueTokens(Dict(ps), fixed), ReadablePairs(ps, fixed))
    decreases ps, 2
  {
    hide Lexes, Literal, Whole;
    if ps == [] {
      LexesEmpty(TLBrace, 123, TRBrace, 125, rest);
    } else {
      LexesPairs(ps, lay, depth, rest, fixed);
      LexesOpened(TLBrace, 123, lay, depth + 1, PairsText(ps, lay, depth, fixed), rest,
                  PairsTokens(ps, fixed), ReadablePairs(ps, fixed));
    }
  }

  lemma {:induction false} MorePairsEndNumber(ps: seq<Pair>, lay: Layout, depth: nat, rest: bytes, fixed: real -> bytes)
    ensures EndsNumber(MorePairs(ps, lay, depth, fixed) + rest)
  {
    assert ps != [] ==> MorePairs(ps, lay, depth, fixed)[0] == COMMA;
  }

  lemma {:induction false} LexesPairs(ps: seq<Pair>, lay: Layout, depth: nat, rest: bytes, fixed: real -> bytes)
    requires WritesFloats(fixed) && SpaceLayout(lay) && EndsNumber(rest) && ps != []
    requires forall i :: 0 <= i < |ps| ==> PrintablePair(ps[i])
    ensures Lexes(PairsText(ps, lay, depth, fixed), rest, PairsTokens(ps, fixed), ReadablePairs(ps, fixed))
    decreases ps, 0
  {
    var more := MorePairs(ps[1..], lay, depth, fixed);
    MorePairsEndNumber(ps[1..], lay, depth, rest, fixed);
    LexesPair(ps[0], lay, depth + 1, more + rest, fixed);
    LexesMorePairs(ps[1..], lay, depth, rest, fixed);
    LexesBoth(PairText(ps[0], lay, depth + 1, fixed), more, rest, PairTokens(ps[0], fixed),
              MorePairsTokens(ps[1..], fixed), ReadablePair(ps[0], fixed), ReadablePairs(ps[1..], fixed));
  }

  lemma {:induction false} LexesMorePairs(ps: seq<Pair>, lay: Layout, depth: nat, rest: bytes, fixed: real -> bytes)
    requires WritesFloats(fixed) && SpaceLayout(lay) && EndsNumber(rest)
    requires forall i :: 0 <= i < |ps| ==> PrintablePair(ps[i])
    ensures Lexes(MorePairs(ps, lay, depth, fixed), rest, MorePairsTokens(ps, fixed), ReadablePairs(ps, fixed))
    decreases ps, 1
  {
    if ps == [] {
      LexesClosed(TRBrace, 125, lay, depth, rest);
    } else {
      LexesPairs(ps, lay, depth, rest, fixed);
      LexesSeparated(lay, depth + 1, PairsText(ps, lay, depth, fixed), rest, PairsTokens(ps, fixed),
                     ReadablePairs(ps, fixed));
    }
  }

  lemma {:induction false} LexesPair(p: Pair, lay: Layout, depth: nat, rest: bytes, fixed: real -> bytes)
    requires WritesFloats(fixed) && SpaceLayout(lay) && EndsNumber(rest) && PrintablePair(p)
    ensures Lexes(PairText(p, lay, depth, fixed), rest, PairTokens(p, fixed), ReadablePair(p, fixed))
    decreases p
  {
    hide Lexes, Whole;
    var k, t := Quoted(p.key.s), Text(p.val, lay, depth, fixed);
    LexesValue(p.val, lay, depth, rest, fixed);
    LexesMark(TColon, 58, t + rest);
    LexesString(p.key.s, [COLON] + (t + rest));
    LexesBoth(k, [COLON], t + rest, [Token(TString, k)], [Mark(TColon, 58)], NulFree(p.key.s), true);
    LexesBoth(k + [COLON], t, rest, [Token(TString, k)] + [Mark(TColon, 58)], ValueTokens(p.val, fixed),
              NulFree(p.key.s), Readable(p.val, fixed));
    assert [Token(TString, k)] + [Mark(TColon, 58)] == [Token(TString, k), Mark(TColon, 58)];
  }
}

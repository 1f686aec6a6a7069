/**
 * What the parser returns can always be printed, and parsing the printed text returns it again, unless an escape
 * in the source put a NUL into a string, or a float in it was too large.
 */
module JsonReprint {
  import opened Base
  import opened Values
  import opened Containers
  import opened JsonNumbers
  import opened JsonStrings
  import opened JsonTables
  import opened JsonGrammar
  import opened JsonSoundness
  import opened JsonTokens
  import opened JsonRender
  import opened JsonPrintedTokens
  import opened JsonRoundTrip
  import opened JsonLexerLanguage
  import opened JsonAcceptance

  /** Arrays and dictionaries with string keys, in the dictionaries' own order; no set and no list. */
  ghost predicate Plain(v: Value) {
    match v
    case Array(xs) => forall i :: 0 <= i < |xs| ==> Plain(xs[i])
    case Dict(ps) => SortedPairs(ps) && forall i :: 0 <= i < |ps| ==> PlainPair(ps[i])
    case Set(_) => false
    case List(_) => false
    case _ => true
  }

  ghost predicate PlainPair(p: Pair) {
    p.key.Str? && Plain(p.val)
  }

  // --- Parsed values are plain ---

  lemma {:induction false} ValueIsPlain(d: Deriv, strtod: bytes -> real)
    requires Is(d, Val)
    ensures Plain(ValueOf(d, strtod))
    decreases d
  {
    hide SortedPairs;
    var k := d.kids[0];
    assert Derives(k) && Sym(k) == Body(d.rule)[0];
    if d.rule == 18 {
      ObjectIsPlain(k, strtod);
    } else if d.rule == 19 {
      ArrayIsPlain(k, strtod);
    }
  }

  lemma {:induction false} ArrayIsPlain(d: Deriv, strtod: bytes -> real)
    requires Is(d, Arr)
    ensures Plain(ArrayOf(d, strtod))
    decreases d
  {
    hide SortedPairs;
    var body := d.kids[0];
    assert Is(body, ArrBody) && ArrayOf(d, strtod) == ArrayBodyOf(body, strtod);
    if body.rule == 11 {
      assert Is(body.kids[1], Items);
      ItemsArePlain(body.kids[1], strtod);
      assert ArrayBodyOf(body, strtod) == Array(ItemsOf(body.kids[1], strtod));
    }
  }

  lemma {:induction false} ObjectIsPlain(d: Deriv, strtod: bytes -> real)
    requires Is(d, Object)
    ensures Plain(ObjectOf(d, strtod)) && ObjectOf(d, strtod).Dict?
    decreases d
  {
    var body := d.kids[0];
    assert Is(body, ObjectBody) && ObjectOf(d, strtod) == BodyOf(body, strtod);
    if body.rule == 4 {
      assert Is(body.kids[1], Pairs);
      PairsArePlain(body.kids[1], strtod);
      assert BodyOf(body, strtod) == Dict(DictOf(PairsOf(body.kids[1], strtod)));
      DictOfPlain(PairsOf(body.kids[1], strtod));
    }
  }

  lemma {:induction false} DictOfPlain(ps: seq<Pair>)
    requires forall i :: 0 <= i < |ps| ==> PlainPair(ps[i])
    ensures Plain(Dict(DictOf(ps)))
  {
    hide SortedPairs;
    DictOfSorted(ps);
    forall i | 0 <= i < |DictOf(ps)| ensures PlainPair(DictOf(ps)[i]) {
      assert DictOf(ps)[i] in ps;
    }
  }

  lemma {:induction false} ItemsArePlain(d: Deriv, strtod: bytes -> real)
    requires Is(d, Items)
    ensures forall i :: 0 <= i < |ItemsOf(d, strtod)| ==> Plain(ItemsOf(d, strtod)[i])
    decreases d
  {
    hide Plain;
    if d.rule == 13 {
      assert Is(d.kids[0], Items) && Is(d.kids[2], Val);
      ItemsArePlain(d.kids[0], strtod);
      ValueIsPlain(d.kids[2], strtod);
    } else {
      assert Is(d.kids[0], Val);
      ValueIsPlain(d.kids[0], strtod);
    }
  }

  lemma {:induction false} PairsArePlain(d: Deriv, strtod: bytes -> real)
    requires Is(d, Pairs)
    ensures forall i :: 0 <= i < |PairsOf(d, strtod)| ==> PlainPair(PairsOf(d, strtod)[i])
    decreases d
  {
    hide PlainPair;
    if d.rule == 6 {
      assert Is(d.kids[0], Pairs) && Is(d.kids[2], PairItem);
      PairsArePlain(d.kids[0], strtod);
      PairIsPlain(d.kids[2], strtod);
    } else {
      assert Is(d.kids[0], PairItem);
      PairIsPlain(d.kids[0], strtod);
    }
  }

  lemma {:induction false} PairIsPlain(d: Deriv, strtod: bytes -> real)
    requires Is(d, PairItem)
    ensures PlainPair(PairOf(d, strtod))
    decreases d
  {
    hide Plain;
    assert Is(d.kids[2], Val);
    ValueIsPlain(d.kids[2], strtod);
  }

  // --- Plain values print and come back ---

  lemma {:induction false} PlainIsPrintable(v: Value)
    requires Plain(v)
    ensures Printable(v)
    decreases v
  {
    match v
    case Array(xs) =>
      forall i | 0 <= i < |xs| ensures Printable(xs[i]) {
        PlainIsPrintable(xs[i]);
      }
    case Dict(ps) =>
      forall i | 0 <= i < |ps| ensures PrintablePair(ps[i]) {
        assert ps[i] in ps;
        PlainIsPrintable(ps[i].val);
      }
    case _ =>
  }

  lemma {:induction false} PlainIsOrdered(v: Value)
    requires Plain(v)
    ensures Ordered(v)
    decreases v, 1
  {
    match v
    case Array(xs) => ItemsAreOrdered(xs);
    case Dict(ps) => PairsAreOrdered(ps);
    case _ =>
  }

  lemma {:induction false} ItemsAreOrdered(xs: seq<Value>)
    requires forall i :: 0 <= i < |xs| ==> Plain(xs[i])
    ensures AllOrdered(xs)
    decreases xs, 0
  {
    hide Plain;
    if xs != [] {
      PlainIsOrdered(xs[0]);
      ItemsAreOrdered(xs[1..]);
    }
  }

  lemma {:induction false} PairsAreOrdered(ps: seq<Pair>)
    requires forall i :: 0 <= i < |ps| ==> PlainPair(ps[i])
    ensures AllPairsOrdered(ps)
    decreases ps, 0
  {
    hide PlainPair;
    if ps != [] {
      PlainPairIsOrdered(ps[0]);
      PairsAreOrdered(ps[1..]);
    }
  }

  lemma {:induction false} PlainPairIsOrdered(p: Pair)
    requires PlainPair(p)
    ensures PairOrdered(p)
    decreases p, 0
  {
    assert Ordered(p.key);
    PlainIsOrdered(p.val);
  }

  /** No float anywhere in the tree. */
  ghost predicate FloatFree(v: Value) {
    match v
    case Float(_) => false
    case Array(xs) => forall i :: 0 <= i < |xs| ==> FloatFree(xs[i])
    case List(xs) => forall i :: 0 <= i < |xs| ==> FloatFree(xs[i])
    case Set(xs) => forall i :: 0 <= i < |xs| ==> FloatFree(xs[i])
    case Dict(ps) => forall i :: 0 <= i < |ps| ==> FloatFreePair(ps[i])
    case _ => true
  }

  ghost predicate FloatFreePair(p: Pair) {
    FloatFree(p.key) && FloatFree(p.val)
  }

  /** Without lists and floats nothing is lost. */
  lemma {:induction false} PlainComesBack(v: Value, fixed: real -> bytes, strtod: bytes -> real)
    requires Plain(v) && FloatFree(v)
    ensures Norm(v, fixed, strtod) == v
    decreases v, 1
  {
    match v
    case Array(xs) => ItemsComeBack(xs, fixed, strtod);
    case Dict(ps) => PairsComeBack(ps, fixed, strtod);
    case _ =>
  }

  lemma {:induction false} ItemsComeBack(xs: seq<Value>, fixed: real -> bytes, strtod: bytes -> real)
    requires forall i :: 0 <= i < |xs| ==> Plain(xs[i]) && FloatFree(xs[i])
    ensures NormItems(xs, fixed, strtod) == xs
    decreases xs, 0
  {
    hide Plain, FloatFree;
    if xs != [] {
      var n := |xs| - 1;
      PlainComesBack(xs[n], fixed, strtod);
      PlainComesBack(xs[0], fixed, strtod);
      ItemsComeBack(xs[1..], fixed, strtod);
      ItemsComeBack(xs[..n], fixed, strtod);
    }
  }

  lemma {:induction false} PairsComeBack(ps: seq<Pair>, fixed: real -> bytes, strtod: bytes -> real)
    requires forall i :: 0 <= i < |ps| ==> PlainPair(ps[i]) && FloatFreePair(ps[i])
    ensures NormPairs(ps, fixed, strtod) == ps
    decreases ps, 0
  {
    hide PlainPair, FloatFreePair;
    if ps != [] {
      var n := |ps| - 1;
      PairComesBack(ps[n], fixed, strtod);
      PairComesBack(ps[0], fixed, strtod);
      PairsComeBack(ps[1..], fixed, strtod);
      PairsComeBack(ps[..n], fixed, strtod);
    }
  }

  lemma {:induction false} PairComesBack(p: Pair, fixed: real -> bytes, strtod: bytes -> real)
    requires PlainPair(p) && FloatFreePair(p)
    ensures NormPair(p, fixed, strtod) == p
    decreases p, 0
  {
    PlainComesBack(p.val, fixed, strtod);
  }

  /** Whatever the parser returns is a dictionary that the printers write without an obstacle. */
  lemma {:induction false} ParsedIsPlain(text: bytes, st: Stacks, strtod: bytes -> real)
    requires Parsed(text, st, strtod).Ok?
    ensures var objects := Parsed(text, st, strtod).value.objects;
            && objects != [] && Back(objects).Dict? && Plain(Back(objects))
            && Printable(Back(objects)) && Ordered(Back(objects)) && FirstError(Back(objects)) == None
  {
    hide Tokens, Plain, Ordered, Printable, Decodable;
    TokensAreStream(text);
    DriveExact(st, Tokens(text), strtod);
    var d :| Is(d, Doc) && Decodable(d) && Yield(d) == Tokens(text);
    ObjectIsPlain(d.kids[0], strtod);
    var v := ObjectOf(d.kids[0], strtod);
    PlainIsPrintable(v);
    PlainIsOrdered(v);
    PrintableHasNoError(v);
  }

  /**
   * Printing what was parsed and parsing it again succeeds if and only if no string holds a NUL and no float is
   * infinite, and returns the same value if there is no float in it.
   */
  lemma {:induction false} ReprintReparses(text: bytes, lay: Layout, st: Stacks, fixed: real -> bytes,
                                           strtod: bytes -> real)
    requires WritesFloats(fixed) && SpaceLayout(lay) && Parsed(text, EMPTY_STACKS, strtod).Ok?
    ensures var objects := Parsed(text, EMPTY_STACKS, strtod).value.objects;
            && objects != []
            && var v := Back(objects);
               && (Parsed(Text(v, lay, 0, fixed), st, strtod).Ok? <==> Readable(v, fixed))
               && (Readable(v, fixed) && FloatFree(v) ==>
                     Parsed(Text(v, lay, 0, fixed), st, strtod) == Ok(st.(objects := st.objects + [v])))
  {
    hide Tokens, Text, Parsed, Plain, Ordered, Printable, Readable, FloatFree;
    ParsedIsPlain(text, EMPTY_STACKS, strtod);
    var v := Back(Parsed(text, EMPTY_STACKS, strtod).value.objects);
    RoundTrip(v.pairs, lay, st, fixed, strtod);
    if FloatFree(v) {
      PlainComesBack(v, fixed, strtod);
    }
  }

  // --- Accepted texts that do not survive ---

  /** The literal `"\u0000"`. */
  const NUL_LITERAL: bytes := [34, 92, 117, 48, 48, 48, 48, 34]

  lemma {:induction false} NulLiteralDecodes()
    ensures IsStringLiteral(NUL_LITERAL) && LiteralText(NUL_LITERAL) == Some([0])
  {
    var b: bytes := [92, 117] + [48, 48, 48, 48];
    assert NUL_LITERAL == [34] + b + [34];
    assert NUL_LITERAL[1..7] == b && b[6..] == [] && b[2..6] == [48, 48, 48, 48];
    assert IsHex(48) && HexDigit(48) == 0;
    assert StringBody(b);
    assert HexCode([48, 48, 48, 48]) == 0 && EncodeCode(0) == [0];
    assert Unescape(b[6..]) == Some([]);
    assert Unescape(b) == Prefixed(EncodeCode(HexCode(b[2..6])), Unescape(b[6..]));
    var nul: bytes := [0];
    assert nul + [] == nul;
    assert Unescape(b) == Some(nul);
  }

  /** The text `{"\u0000":null}` is accepted, with a key that holds a NUL. */
  lemma {:induction false} NulTextIsAccepted(st: Stacks, strtod: bytes -> real)
    ensures var text := [123] + (NUL_LITERAL + ([58] + (NULL_TEXT + [125])));
            Parsed(text, st, strtod) == Ok(st.(objects := st.objects + [Dict([Pair(Str([0]), Blank)])]))
    ensures forall fixed :: !Readable(Dict([Pair(Str([0]), Blank)]), fixed)
  {
    hide Tokens, Unescape, StringBody;
    NulLiteralDecodes();
    SinglePairIsAccepted(NUL_LITERAL, TNull, NULL_TEXT, st, strtod);
    var ps := [Pair(Str([0]), Blank)];
    assert !NulFree([0]) by {
      assert [0][0] == 0;
    }
    forall fixed ensures !Readable(Dict(ps), fixed) {
      assert !ReadablePair(ps[0], fixed);
    }
  }

  /** The value of a literal that is read as a null or as a float. */
  function ReadAs(t: Terminal, w: bytes, strtod: bytes -> real): Value {
    if t == TFloat then Float(strtod(w)) else Blank
  }

  /** A text with a null or a float under one key is accepted with that pair. */
  lemma {:induction false} SinglePairIsAccepted(key: bytes, t: Terminal, w: bytes, st: Stacks, strtod: bytes -> real)
    requires IsStringLiteral(key) && LiteralText(key).Some? && t in {TNull, TFloat} && Literal(t, w)
    ensures Parsed([123] + (key + ([58] + (w + [125]))), st, strtod) ==
            Ok(st.(objects := st.objects + [Dict([Pair(Str(LiteralText(key).value), ReadAs(t, w, strtod))])]))
  {
    hide Tokens, LiteralText, IsStringLiteral, Literal, ReadAs;
    var text := [123] + (key + ([58] + (w + [125])));
    TokensOfSinglePair(key, t, w);
    TokensAreStream(text);
    var d := SinglePair(key, t, w, strtod);
    DriveExact(st, Tokens(text), strtod);
  }

  /** The derivation of a dictionary with a null or a float under one key. */
  lemma {:induction false} SinglePair(key: bytes, t: Terminal, w: bytes, strtod: bytes -> real) returns (d: Deriv)
    requires LiteralText(key).Some? && t in {TNull, TFloat}
    ensures Is(d, Doc) && Decodable(d) && Is(d.kids[0], Object)
    ensures Yield(d) == [Token(TLBrace, [123]), Token(TString, key), Token(TColon, [58]), Token(t, w),
                         Token(TRBrace, [125]), Token(TEnd, [])]
    ensures ObjectOf(d.kids[0], strtod) == Dict([Pair(Str(LiteralText(key).value), ReadAs(t, w, strtod))])
  {
    hide LiteralText, ActionAt, GotoAt, Decodable, Derives, PairsOf, PairOf, ReadAs;
    var toks := [Token(TString, key)] + [Mark(TColon, 58)] + [Token(t, w)];
    var pairs := LiteralUnder(key, t, w, toks, strtod);
    var o := BuildFullObject(pairs, toks, strtod);
    DictOfOne(Pair(Str(LiteralText(key).value), ReadAs(t, w, strtod)));
    d := DocumentOf(o, Token(TEnd, []), EMPTY_STACKS, strtod);
  }

  lemma {:induction false} LiteralUnder(key: bytes, t: Terminal, w: bytes, toks: seq<Token>, strtod: bytes -> real)
    returns (d: Deriv)
    requires LiteralText(key).Some? && t in {TNull, TFloat}
    requires toks == [Token(TString, key)] + [Mark(TColon, 58)] + [Token(t, w)]
    ensures Builds(d, N(Pairs), toks)
    ensures PairsOf(d, strtod) == [Pair(Str(LiteralText(key).value), ReadAs(t, w, strtod))]
  {
    hide LiteralText, ActionAt, GotoAt;
    var str, val := Leaf(Token(TString, key)), Leaf(Token(t, w));
    var r := if t == TNull then 22 else 17;
    LeafBuilds(str.tok);
    LeafBuilds(val.tok);
    Build1(23, str, [str.tok]);
    Build1(r, val, [val.tok]);
    var p := JoinPair(Node(23, [str]), Node(r, [val]), [str.tok], [val.tok], strtod);
    Build1(7, p, toks);
    d := Node(7, [p]);
    assert d.kids[0] == p;
  }

  lemma {:induction false} LeafBuilds(tok: Token)
    ensures Builds(Leaf(tok), T(tok.term), [tok])
  {
  }

  lemma {:induction false} DictOfOne(p: Pair)
    ensures DictOf([p]) == [p]
  {
    assert [p][..0] == [];
  }

  /** The literal `"a"`. */
  const KEY_LITERAL: bytes := [34, 97, 34]

  lemma {:induction false} KeyLiteralDecodes()
    ensures IsStringLiteral(KEY_LITERAL) && LiteralText(KEY_LITERAL) == Some([97])
  {
    var b: bytes := [97];
    assert KEY_LITERAL[1..2] == b && b[1..] == [];
    assert StringBody([]) && Unescape([]) == Some([]);
    assert StringBody(b) && b + [] == b;
    assert Unescape(b) == Some(b);
  }

  /**
   * The text `{"a":1e999}` is accepted. Where `strtod` overflows to a number that is not written as a literal,
   * neither printer writes the value in a form that is accepted again.
   */
  lemma {:induction false} OverflowIsNotReadBack(lay: Layout, st: Stacks, fixed: real -> bytes, strtod: bytes -> real)
    requires WritesFloats(fixed) && SpaceLayout(lay) && NonFinite(fixed(strtod(HUGE)))
    ensures var v := Dict([Pair(Str([97]), Float(strtod(HUGE)))]);
            && Parsed([123] + (KEY_LITERAL + ([58] + (HUGE + [125]))), st, strtod) ==
               Ok(st.(objects := st.objects + [v]))
            && Parsed(Text(v, lay, 0, fixed), st, strtod).Err?
  {
    hide Tokens, Text, Parsed, Printable, Ordered, Readable, Plain, Literal, LiteralText, Unescape;
    hide NonFinite, IsStringLiteral;
    HugeIsFloat();
    KeyLiteralDecodes();
    FloatIsLiteral(HUGE);
    SinglePairIsAccepted(KEY_LITERAL, TFloat, HUGE, st, strtod);
    HugeIsUnreadable(strtod(HUGE), fixed);
    RoundTrip([Pair(Str([97]), Float(strtod(HUGE)))], lay, st, fixed, strtod);
  }

  lemma {:induction false} FloatIsLiteral(w: bytes)
    requires IsFloat(w)
    ensures Literal(TFloat, w)
  {
  }

  lemma {:induction false} HugeIsUnreadable(r: real, fixed: real -> bytes)
    requires NonFinite(fixed(r))
    ensures var v := Dict([Pair(Str([97]), Float(r))]);
            Printable(v) && Ordered(v) && !Readable(v, fixed)
  {
    var ps := [Pair(Str([97]), Float(r))];
    NonFiniteIsNoFloat(fixed(r));
    assert !ReadablePair(ps[0], fixed);
    assert PlainPair(ps[0]) && Plain(Dict(ps));
    PlainIsPrintable(Dict(ps));
    PlainIsOrdered(Dict(ps));
  }
}

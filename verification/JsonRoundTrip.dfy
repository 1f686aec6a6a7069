/**
 * Printing and parsing undo each other: the tokens of a printed value are the yield of a derivation of that
 * value, so the parser returns the value with its lists turned into arrays.
 */
module JsonRoundTrip {
  import opened Base
  import opened Sequences
  import opened Values
  import opened Containers
  import opened JsonStrings
  import opened JsonNumbers
  import opened JsonTables
  import opened JsonGrammar
  import opened JsonSoundness
  import opened JsonTokens
  import opened JsonRender
  import opened JsonPrintedTokens

  // --- What comes back ---

  /** A list is read back as an array, a float as what `strtod` makes of its text. */
  function Norm(v: Value, fixed: real -> bytes, strtod: bytes -> real): Value
    decreases v, 1
  {
    match v
    case Array(xs) => Array(NormItems(xs, fixed, strtod))
    case List(xs) => Array(NormItems(xs, fixed, strtod))
    case Dict(ps) => Dict(NormPairs(ps, fixed, strtod))
    case Float(r) => Float(strtod(fixed(r)))
    case _ => v
  }

  function NormItems(xs: seq<Value>, fixed: real -> bytes, strtod: bytes -> real): (ys: seq<Value>)
    ensures |ys| == |xs|
    decreases xs, 0
  {
    if xs == [] then []
    else NormItems(xs[..|xs| - 1], fixed, strtod) + [Norm(xs[|xs| - 1], fixed, strtod)]
  }

  function NormPairs(ps: seq<Pair>, fixed: real -> bytes, strtod: bytes -> real): (qs: seq<Pair>)
    ensures |qs| == |ps|
    decreases ps, 0
  {
    if ps == [] then []
    else NormPairs(ps[..|ps| - 1], fixed, strtod) + [NormPair(ps[|ps| - 1], fixed, strtod)]
  }

  function NormPair(p: Pair, fixed: real -> bytes, strtod: bytes -> real): Pair
    decreases p
  {
    Pair(p.key, Norm(p.val, fixed, strtod))
  }

  lemma {:induction false} NormPairsAt(ps: seq<Pair>, i: nat, fixed: real -> bytes, strtod: bytes -> real)
    requires i < |ps|
    ensures NormPairs(ps, fixed, strtod)[i] == NormPair(ps[i], fixed, strtod)
  {
    if i < |ps| - 1 {
      NormPairsAt(ps[..|ps| - 1], i, fixed, strtod);
    }
  }

  lemma {:induction false} NormPairsSorted(ps: seq<Pair>, fixed: real -> bytes, strtod: bytes -> real)
    requires SortedPairs(ps)
    ensures SortedPairs(NormPairs(ps, fixed, strtod))
  {
    var qs := NormPairs(ps, fixed, strtod);
    forall i | 0 <= i < |ps| ensures qs[i].key == ps[i].key {
      NormPairsAt(ps, i, fixed, strtod);
    }
  }

  // --- The tokens of a list ---

  /** The items and the commas between them, without the closing bracket. */
  function ListTokens(xs: seq<Value>, fixed: real -> bytes): seq<Token>
    requires xs != []
  {
    if |xs| == 1 then ValueTokens(xs[0], fixed)
    else ValueTokens(xs[0], fixed) + ([Mark(TComma, 44)] + ListTokens(xs[1..], fixed))
  }

  lemma {:induction false} ItemsAreList(xs: seq<Value>, fixed: real -> bytes)
    requires xs != []
    ensures ItemsTokens(xs, fixed) == ListTokens(xs, fixed) + [Mark(TRBracket, 93)]
  {
    if |xs| > 1 {
      ItemsAreList(xs[1..], fixed);
      Regroup(ValueTokens(xs[0], fixed), [Mark(TComma, 44)], ListTokens(xs[1..], fixed), [Mark(TRBracket, 93)]);
    }
  }

  lemma {:induction false} ListTokensSnoc(xs: seq<Value>, x: Value, fixed: real -> bytes)
    requires xs != []
    ensures ListTokens(xs + [x], fixed) ==
            ListTokens(xs, fixed) + ([Mark(TComma, 44)] + ValueTokens(x, fixed))
  {
    var all := xs + [x];
    assert all[1..] == xs[1..] + [x] && all[0] == xs[0];
    if |xs| == 1 {
      assert all[1..] == [x];
    } else {
      ListTokensSnoc(xs[1..], x, fixed);
      Regroup(ValueTokens(xs[0], fixed), [Mark(TComma, 44)], ListTokens(xs[1..], fixed),
              [Mark(TComma, 44)] + ValueTokens(x, fixed));
    }
  }

  /** The pairs and the commas between them, without the closing brace. */
  function PairListTokens(ps: seq<Pair>, fixed: real -> bytes): seq<Token>
    requires ps != []
  {
    if |ps| == 1 then PairTokens(ps[0], fixed)
    else PairTokens(ps[0], fixed) + ([Mark(TComma, 44)] + PairListTokens(ps[1..], fixed))
  }

  lemma {:induction false} PairsAreList(ps: seq<Pair>, fixed: real -> bytes)
    requires ps != []
    ensures PairsTokens(ps, fixed) == PairListTokens(ps, fixed) + [Mark(TRBrace, 125)]
  {
    if |ps| > 1 {
      PairsAreList(ps[1..], fixed);
      Regroup(PairTokens(ps[0], fixed), [Mark(TComma, 44)], PairListTokens(ps[1..], fixed), [Mark(TRBrace, 125)]);
    }
  }

  lemma {:induction false} PairListTokensSnoc(ps: seq<Pair>, p: Pair, fixed: real -> bytes)
    requires ps != []
    ensures PairListTokens(ps + [p], fixed) ==
            PairListTokens(ps, fixed) + ([Mark(TComma, 44)] + PairTokens(p, fixed))
  {
    var all := ps + [p];
    assert all[1..] == ps[1..] + [p] && all[0] == ps[0];
    if |ps| == 1 {
      assert all[1..] == [p];
    } else {
      PairListTokensSnoc(ps[1..], p, fixed);
      Regroup(PairTokens(ps[0], fixed), [Mark(TComma, 44)], PairListTokens(ps[1..], fixed),
              [Mark(TComma, 44)] + PairTokens(p, fixed));
    }
  }

  // --- Building derivations ---

  /** A derivation of `n` with the given yield and no undecodable string. */
  ghost predicate Builds(d: Deriv, x: Symbol, toks: seq<Token>) {
    Derives(d) && Sym(d) == x && Decodable(d) && Yield(d) == toks
  }

  lemma {:induction false} Build1(r: nat, a: Deriv, toks: seq<Token>)
    requires 1 <= r < RULES && Derives(a) && Body(r) == [Sym(a)] && Builds(a, Sym(a), toks)
    requires r == 23 ==> LiteralText(a.tok.text).Some?
    ensures Builds(Node(r, [a]), N(Head(r)), toks)
  {
    SingleYield(a);
  }

  lemma {:induction false} SingleYield(a: Deriv)
    ensures YieldAll([a]) == Yield(a)
  {
    assert [a][1..] == [];
    assert YieldAll([a]) == Yield(a) + YieldAll([]);
  }

  lemma {:induction false} Build2(r: nat, a: Deriv, b: Deriv, s: seq<Token>, t: seq<Token>)
    requires 1 <= r < RULES && Derives(a) && Derives(b) && Body(r) == [Sym(a), Sym(b)]
    requires Builds(a, Sym(a), s) && Builds(b, Sym(b), t)
    ensures Builds(Node(r, [a, b]), N(Head(r)), s + t)
  {
    assert [a, b][1..] == [b];
    assert YieldAll([a, b]) == Yield(a) + YieldAll([a, b][1..]);
    SingleYield(b);
  }

  lemma {:induction false} Build3(r: nat, a: Deriv, b: Deriv, c: Deriv, s: seq<Token>, t: seq<Token>, u: seq<Token>)
    requires 1 <= r < RULES && Derives(a) && Derives(b) && Derives(c) && Body(r) == [Sym(a), Sym(b), Sym(c)]
    requires Builds(a, Sym(a), s) && Builds(b, Sym(b), t) && Builds(c, Sym(c), u)
    ensures Builds(Node(r, [a, b, c]), N(Head(r)), s + (t + u))
  {
    assert [a, b, c][1..] == [b, c];
    assert [b, c][1..] == [c];
    assert YieldAll([a, b, c]) == Yield(a) + YieldAll([a, b, c][1..]);
    assert YieldAll([b, c]) == Yield(b) + YieldAll([b, c][1..]);
    SingleYield(c);
  }

  lemma {:induction false} BuildString(s: bytes) returns (d: Deriv)
    ensures Builds(d, N(String), [Token(TString, Quoted(s))]) && StringOf(d) == Str(s)
  {
    var leaf := Leaf(Token(TString, Quoted(s)));
    QuotedDecodes(s);
    Build1(23, leaf, [leaf.tok]);
    d := Node(23, [leaf]);
  }

  lemma {:induction false} BuildValue(v: Value, fixed: real -> bytes, strtod: bytes -> real) returns (d: Deriv)
    requires Printable(v) && Ordered(v)
    ensures Builds(d, N(Val), ValueTokens(v, fixed)) && ValueOf(d, strtod) == Norm(v, fixed, strtod)
    decreases v, 3
  {
    match v
    case Array(xs) =>
      var k := BuildArray(xs, fixed, strtod);
      d := WrapArray(k, ValueTokens(v, fixed), strtod);
    case List(xs) =>
      var k := BuildArray(xs, fixed, strtod);
      d := WrapArray(k, ValueTokens(v, fixed), strtod);
    case Dict(ps) =>
      var k := BuildObject(ps, fixed, strtod);
      d := WrapObject(k, ValueTokens(v, fixed), strtod);
    case _ =>
      d := BuildScalar(v, fixed, strtod);
  }

  lemma {:induction false} WrapArray(k: Deriv, toks: seq<Token>, strtod: bytes -> real) returns (d: Deriv)
    requires Builds(k, N(Arr), toks)
    ensures Builds(d, N(Val), toks) && ValueOf(d, strtod) == ArrayOf(k, strtod)
  {
    Build1(19, k, toks);
    d := Node(19, [k]);
  }

  lemma {:induction false} WrapObject(k: Deriv, toks: seq<Token>, strtod: bytes -> real) returns (d: Deriv)
    requires Builds(k, N(Object), toks)
    ensures Builds(d, N(Val), toks) && ValueOf(d, strtod) == ObjectOf(k, strtod)
  {
    Build1(18, k, toks);
    d := Node(18, [k]);
  }

  lemma {:induction false} BuildScalar(v: Value, fixed: real -> bytes, strtod: bytes -> real) returns (d: Deriv)
    requires v.Blank? || v.Bool? || v.Int? || v.Float? || v.Str?
    ensures Builds(d, N(Val), ValueTokens(v, fixed)) && ValueOf(d, strtod) == Norm(v, fixed, strtod)
  {
    if v.Str? {
      var k := BuildString(v.s);
      Build1(15, k, ValueTokens(v, fixed));
      d := Node(15, [k]);
    } else {
      var tok := ValueTokens(v, fixed)[0];
      var r := match v case Int(_) => 16 case Float(_) => 17 case Bool(b) => (if b then 20 else 21) case _ => 22;
      Build1(r, Leaf(tok), [tok]);
      d := Node(r, [Leaf(tok)]);
      if v.Int? {
        PrintedIntReadsBack(v.i, []);
        assert IntText(v.i) + [] == IntText(v.i);
      }
    }
  }

  lemma {:induction false} OrderedMembers(xs: seq<Value>)
    requires AllOrdered(xs)
    ensures forall i :: 0 <= i < |xs| ==> Ordered(xs[i])
  {
    if xs != [] {
      OrderedMembers(xs[1..]);
      assert xs == [xs[0]] + xs[1..];
    }
  }

  lemma {:induction false} OrderedPairs(ps: seq<Pair>)
    requires AllPairsOrdered(ps)
    ensures forall i :: 0 <= i < |ps| ==> PairOrdered(ps[i])
  {
    if ps != [] {
      OrderedPairs(ps[1..]);
      assert ps == [ps[0]] + ps[1..];
    }
  }

  lemma {:induction false} BuildArray(xs: seq<Value>, fixed: real -> bytes, strtod: bytes -> real) returns (d: Deriv)
    requires (forall i :: 0 <= i < |xs| ==> Printable(xs[i])) && AllOrdered(xs)
    ensures Builds(d, N(Arr), ValueTokens(Array(xs), fixed))
    ensures ArrayOf(d, strtod) == Array(NormItems(xs, fixed, strtod))
    decreases xs, 2
  {
    if xs == [] {
      d := BuildEmptyArray(strtod);
    } else {
      OrderedMembers(xs);
      var items := BuildItems(xs, fixed, strtod);
      d := BuildFullArray(items, ListTokens(xs, fixed), strtod);
      ItemsAreList(xs, fixed);
    }
  }

  lemma {:induction false} BuildEmptyArray(strtod: bytes -> real) returns (d: Deriv)
    ensures Builds(d, N(Arr), [Mark(TLBracket, 91)] + [Mark(TRBracket, 93)]) && ArrayOf(d, strtod) == Array([])
  {
    var open, close := Leaf(Mark(TLBracket, 91)), Leaf(Mark(TRBracket, 93));
    var begin := Node(12, [open]);
    Build1(12, open, [open.tok]);
    Build1(10, begin, [open.tok]);
    Build2(9, Node(10, [begin]), close, [open.tok], [close.tok]);
    d := Node(9, [Node(10, [begin]), close]);
  }

  lemma {:induction false} BuildFullArray(items: Deriv, toks: seq<Token>, strtod: bytes -> real) returns (d: Deriv)
    requires Builds(items, N(Items), toks)
    ensures Builds(d, N(Arr), [Mark(TLBracket, 91)] + (toks + [Mark(TRBracket, 93)]))
    ensures ArrayOf(d, strtod) == Array(ItemsOf(items, strtod))
  {
    var open, close := Leaf(Mark(TLBracket, 91)), Leaf(Mark(TRBracket, 93));
    var begin := Node(12, [open]);
    Build1(12, open, [open.tok]);
    Build2(11, begin, items, [open.tok], toks);
    Build2(9, Node(11, [begin, items]), close, [open.tok] + toks, [close.tok]);
    Associative([open.tok], toks, [close.tok]);
    d := Node(9, [Node(11, [begin, items]), close]);
  }

  lemma {:induction false} BuildItems(xs: seq<Value>, fixed: real -> bytes, strtod: bytes -> real) returns (d: Deriv)
    requires xs != [] && forall i :: 0 <= i < |xs| ==> Printable(xs[i]) && Ordered(xs[i])
    ensures Builds(d, N(Items), ListTokens(xs, fixed)) && ItemsOf(d, strtod) == NormItems(xs, fixed, strtod)
    decreases xs, 1
  {
    hide Builds, Printable, Ordered, ValueTokens, Norm;
    var n := |xs| - 1;
    var last := BuildValue(xs[n], fixed, strtod);
    if n == 0 {
      Build1(14, last, ValueTokens(xs[0], fixed));
      d := Node(14, [last]);
      assert NormItems(xs[..0], fixed, strtod) == [];
    } else {
      var rest := BuildItems(xs[..n], fixed, strtod);
      d := BuildNextItem(rest, last, ListTokens(xs[..n], fixed), ValueTokens(xs[n], fixed), strtod);
      ListTokensSnoc(xs[..n], xs[n], fixed);
      assert xs == xs[..n] + [xs[n]];
    }
  }

  lemma {:induction false} BuildNextItem(rest: Deriv, last: Deriv, s: seq<Token>, t: seq<Token>, strtod: bytes -> real)
    returns (d: Deriv)
    requires Builds(rest, N(Items), s) && Builds(last, N(Val), t)
    ensures Builds(d, N(Items), s + ([Mark(TComma, 44)] + t))
    ensures ItemsOf(d, strtod) == ItemsOf(rest, strtod) + [ValueOf(last, strtod)]
  {
    var comma := Leaf(Mark(TComma, 44));
    Build3(13, rest, comma, last, s, [comma.tok], t);
    d := Node(13, [rest, comma, last]);
  }

  lemma {:induction false} BuildObject(ps: seq<Pair>, fixed: real -> bytes, strtod: bytes -> real) returns (d: Deriv)
    requires (forall i :: 0 <= i < |ps| ==> PrintablePair(ps[i])) && AllPairsOrdered(ps) && SortedPairs(ps)
    ensures Builds(d, N(Object), ValueTokens(Dict(ps), fixed))
    ensures ObjectOf(d, strtod) == Dict(NormPairs(ps, fixed, strtod))
    decreases ps, 2
  {
    hide Builds, ObjectOf, Ordered, PrintablePair, PairOrdered, NormPair;
    if ps == [] {
      d := BuildEmptyObject(strtod);
    } else {
      OrderedPairs(ps);
      var pairs := BuildPairs(ps, fixed, strtod);
      d := BuildFullObject(pairs, PairListTokens(ps, fixed), strtod);
      PairsAreList(ps, fixed);
      NormPairsSorted(ps, fixed, strtod);
      DictOfEnumeration(NormPairs(ps, fixed, strtod));
    }
  }

  lemma {:induction false} BuildEmptyObject(strtod: bytes -> real) returns (d: Deriv)
    ensures Builds(d, N(Object), [Mark(TLBrace, 123)] + [Mark(TRBrace, 125)]) && ObjectOf(d, strtod) == Dict([])
  {
    var open, close := Leaf(Mark(TLBrace, 123)), Leaf(Mark(TRBrace, 125));
    var begin := Node(5, [open]);
    Build1(5, open, [open.tok]);
    Build1(3, begin, [open.tok]);
    Build2(2, Node(3, [begin]), close, [open.tok], [close.tok]);
    d := Node(2, [Node(3, [begin]), close]);
  }

  lemma {:induction false} BuildFullObject(pairs: Deriv, toks: seq<Token>, strtod: bytes -> real) returns (d: Deriv)
    requires Builds(pairs, N(Pairs), toks)
    ensures Builds(d, N(Object), [Mark(TLBrace, 123)] + (toks + [Mark(TRBrace, 125)]))
    ensures ObjectOf(d, strtod) == Dict(DictOf(PairsOf(pairs, strtod)))
  {
    var open, close := Leaf(Mark(TLBrace, 123)), Leaf(Mark(TRBrace, 125));
    var begin := Node(5, [open]);
    Build1(5, open, [open.tok]);
    Build2(4, begin, pairs, [open.tok], toks);
    Build2(2, Node(4, [begin, pairs]), close, [open.tok] + toks, [close.tok]);
    Associative([open.tok], toks, [close.tok]);
    d := Node(2, [Node(4, [begin, pairs]), close]);
  }

  lemma {:induction false} BuildPairs(ps: seq<Pair>, fixed: real -> bytes, strtod: bytes -> real) returns (d: Deriv)
    requires ps != [] && forall i :: 0 <= i < |ps| ==> PrintablePair(ps[i]) && PairOrdered(ps[i])
    ensures Builds(d, N(Pairs), PairListTokens(ps, fixed)) && PairsOf(d, strtod) == NormPairs(ps, fixed, strtod)
    decreases ps, 1
  {
    hide Builds, PrintablePair, PairOrdered, PairTokens, NormPair, PairOf;
    var n := |ps| - 1;
    var last := BuildPair(ps[n], fixed, strtod);
    if n == 0 {
      Build1(7, last, PairTokens(ps[0], fixed));
      d := Node(7, [last]);
      assert NormPairs(ps[..0], fixed, strtod) == [];
    } else {
      var rest := BuildPairs(ps[..n], fixed, strtod);
      d := BuildNextPair(rest, last, PairListTokens(ps[..n], fixed), PairTokens(ps[n], fixed), strtod);
      PairListTokensSnoc(ps[..n], ps[n], fixed);
      assert ps == ps[..n] + [ps[n]];
    }
  }

  lemma {:induction false} BuildNextPair(rest: Deriv, last: Deriv, s: seq<Token>, t: seq<Token>, strtod: bytes -> real)
    returns (d: Deriv)
    requires Builds(rest, N(Pairs), s) && Builds(last, N(PairItem), t)
    ensures Builds(d, N(Pairs), s + ([Mark(TComma, 44)] + t))
    ensures PairsOf(d, strtod) == PairsOf(rest, strtod) + [PairOf(last, strtod)]
  {
    var comma := Leaf(Mark(TComma, 44));
    Build3(6, rest, comma, last, s, [comma.tok], t);
    d := Node(6, [rest, comma, last]);
  }

  lemma {:induction false} BuildPair(p: Pair, fixed: real -> bytes, strtod: bytes -> real) returns (d: Deriv)
    requires PrintablePair(p) && PairOrdered(p)
    ensures Builds(d, N(PairItem), PairTokens(p, fixed)) && PairOf(d, strtod) == NormPair(p, fixed, strtod)
    decreases p
  {
    var key := BuildString(p.key.s);
    var val := BuildValue(p.val, fixed, strtod);
    d := JoinPair(key, val, [Token(TString, Quoted(p.key.s))], ValueTokens(p.val, fixed), strtod);
  }

  lemma {:induction false} JoinPair(key: Deriv, val: Deriv, s: seq<Token>, t: seq<Token>, strtod: bytes -> real)
    returns (d: Deriv)
    requires Builds(key, N(String), s) && Builds(val, N(Val), t)
    ensures Builds(d, N(PairItem), (s + [Mark(TColon, 58)]) + t)
    ensures PairOf(d, strtod) == Pair(StringOf(key), ValueOf(val, strtod))
  {
    var colon := Leaf(Mark(TColon, 58));
    Build3(8, key, colon, val, s, [colon.tok], t);
    d := Node(8, [key, colon, val]);
    Associative(s, [colon.tok], t);
  }

  // --- The round trip ---

  /** The whole text of a printable value lexes to its tokens and the end, cut at the first unreadable one. */
  lemma {:induction false} TokensOfText(v: Value, lay: Layout, fixed: real -> bytes)
    requires WritesFloats(fixed) && SpaceLayout(lay) && Printable(v)
    ensures Whole(ValueTokens(v, fixed)) <==> Readable(v, fixed)
    ensures Tokens(Text(v, lay, 0, fixed)) == Cut(ValueTokens(v, fixed) + [Token(TEnd, [])])
    ensures Readable(v, fixed) ==> Tokens(Text(v, lay, 0, fixed)) == ValueTokens(v, fixed) + [Token(TEnd, [])]
  {
    LexesValue(v, lay, 0, [], fixed);
    assert Text(v, lay, 0, fixed) + [] == Text(v, lay, 0, fixed);
    var end := [Token(TEnd, [])];
    assert Tokens([]) == end;
    CutConcat(ValueTokens(v, fixed), end);
    assert end[1..] == [] && [end[0]] + [] == end;
  }

  /** The two printers differ only in what the lexer skips: any two layouts of space parse to the same result. */
  lemma {:induction false} LayoutDoesNotMatter(v: Value, lay: Layout, lay': Layout, st: Stacks,
                                               fixed: real -> bytes, strtod: bytes -> real)
    requires WritesFloats(fixed) && SpaceLayout(lay) && SpaceLayout(lay') && Printable(v)
    ensures Tokens(Text(v, lay, 0, fixed)) == Tokens(Text(v, lay', 0, fixed))
    ensures Parsed(Text(v, lay, 0, fixed), st, strtod) == Parsed(Text(v, lay', 0, fixed), st, strtod)
  {
    TokensOfText(v, lay, fixed);
    TokensOfText(v, lay', fixed);
  }

  /**
   * Every dictionary with string keys throughout and no sets comes back from its printed text, compact or
   * indented by space, if and only if none of its strings holds a NUL and all its floats are written as literals.
   * Nothing else is left on the stacks.
   */
  lemma {:induction false} RoundTrip(ps: seq<Pair>, lay: Layout, st: Stacks, fixed: real -> bytes, strtod: bytes -> real)
    requires WritesFloats(fixed) && SpaceLayout(lay) && Printable(Dict(ps)) && Ordered(Dict(ps))
    ensures Parsed(Text(Dict(ps), lay, 0, fixed), st, strtod).Ok? <==> Readable(Dict(ps), fixed)
    ensures Readable(Dict(ps), fixed) ==>
              Parsed(Text(Dict(ps), lay, 0, fixed), st, strtod) ==
              Ok(st.(objects := st.objects + [Norm(Dict(ps), fixed, strtod)]))
  {
    hide Tokens, Cut, Whole, ActionAt, GotoAt, Text;
    var v := Dict(ps);
    var toks := Tokens(Text(v, lay, 0, fixed));
    TokensAreStream(Text(v, lay, 0, fixed));
    TokensOfText(v, lay, fixed);
    DriveExact(st, toks, strtod);
    if Readable(v, fixed) {
      var o := BuildObject(ps, fixed, strtod);
      var d := DocumentOf(o, Token(TEnd, []), st, strtod);
      assert Is(d, Doc) && Decodable(d) && Yield(d) == toks;
    } else if Parsed(Text(v, lay, 0, fixed), st, strtod).Ok? {
      var d :| Is(d, Doc) && Decodable(d) && Yield(d) == toks;
      DocumentEnds(d);
      CutConcat(ValueTokens(v, fixed), [Token(TEnd, [])]);
      CutBreaksDown(ValueTokens(v, fixed));
    }
  }

  lemma {:induction false} DocumentEnds(d: Deriv)
    requires Is(d, Doc)
    ensures Yield(d) != [] && Yield(d)[|Yield(d)| - 1].term == TEnd
  {
    var o, end := d.kids[0], d.kids[1];
    assert Sym(o) == Body(1)[0] && Sym(end) == Body(1)[1];
    assert d.kids[1..] == [end];
    SingleYield(end);
    assert Yield(d) == Yield(o) + YieldAll(d.kids[1..]);
  }
}

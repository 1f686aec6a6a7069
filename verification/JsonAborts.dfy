/**
 * Which texts run into the decoder's assertion: those whose first escaped slash stands in a string that some
 * document continues, in front of a terminal that can follow a string.
 */
module JsonAborts {
  import opened Base
  import opened JsonStrings
  import opened JsonTables
  import opened JsonGrammar
  import opened JsonMachine
  import opened JsonCompleteness
  import opened JsonSoundness
  import opened JsonLexerLanguage
  import opened JsonTokens
  import opened JsonAcceptance

  /** Some document begins with these terminals. */
  ghost predicate Viable(toks: seq<Token>) {
    exists d :: Is(d, Doc) && BeginsLike(Yield(d), toks)
  }

  predicate BeginsLike(all: seq<Token>, toks: seq<Token>) {
    |toks| <= |all| && forall i :: 0 <= i < |toks| ==> all[i].term == toks[i].term
  }

  /** The terminals in front of which a string is reduced, wherever it stands. */
  predicate FollowsString(t: Terminal) {
    EndsValue(t) || t == TColon
  }

  /** The first escaped slash is in the token at `i`, a document may go on from there, and a string may end there. */
  ghost predicate AbortsAt(toks: seq<Token>, i: nat) {
    && i + 1 < |toks| && EscapedSlash(toks[i]) && NoneEscaped(toks[..i])
    && FollowsString(toks[i + 1].term) && Viable(toks[..i + 1])
  }

  // --- Stacks are viable ---

  const NULL_VALUE: Deriv := Node(22, [Leaf(Token(TNull, []))])
  const EMPTY_STRING: Deriv := Node(23, [Leaf(Token(TString, [QUOTE, QUOTE]))])
  const NULL_PAIR: Deriv := Node(8, [EMPTY_STRING, Leaf(Token(TColon, [])), NULL_VALUE])

  lemma {:induction false} FillersDerive()
    ensures Is(NULL_VALUE, Val) && Decodable(NULL_VALUE)
    ensures Is(NULL_PAIR, PairItem) && Decodable(NULL_PAIR)
  {
    hide ActionAt, GotoAt;
    EmptyStringDerives();
    var colon := Leaf(Token(TColon, []));
    assert Derives(Leaf(Token(TNull, []))) && Sym(Leaf(Token(TNull, []))) == Body(22)[0];
    assert Sym(EMPTY_STRING) == Body(8)[0] && Sym(colon) == Body(8)[1] && Sym(NULL_VALUE) == Body(8)[2];
    assert Derives(NULL_VALUE) && Decodable(NULL_VALUE) && Derives(colon) && Decodable(colon);
  }

  lemma {:induction false} EmptyStringDerives()
    ensures Is(EMPTY_STRING, String) && Decodable(EMPTY_STRING) && LiteralText([QUOTE, QUOTE]) == Some([])
  {
    hide ActionAt, GotoAt;
    var two: bytes := [QUOTE, QUOTE];
    assert two[1..1] == [] && LiteralText(two) == Some([]);
    var leaf := Leaf(Token(TString, two));
    assert EMPTY_STRING == Node(23, [leaf]) && Body(23) == [T(TString)];
    assert Derives(leaf) && Sym(leaf) == Body(23)[0] && Decodable(leaf);
  }

  /** How far a top state is from one whose completion shortens the stack. */
  function Distance(s: nat): nat {
    if s == 5 || s == 26 then 5
    else if s == 4 || s == 25 then 4
    else if s in {3, 11, 24} then 3
    else if s == 10 || 16 <= s <= 23 then 2
    else if s == 9 || s == 29 then 1
    else 0
  }

  /** A terminal on which the rows that reduce do so. */
  function Closer(s: nat): Terminal {
    if s >= 25 then TRBracket else TRBrace
  }

  lemma {:induction false} ForestPushed(es: seq<Entry>, ds: seq<Deriv>, d: Deriv, s: nat)
    requires Valid(es) && Forest(es, ds) && Derives(d) && Decodable(d) && Trans(Top(es).state, Sym(d)) == Some(s)
    ensures Valid(es + [Entry(s, TextOf(d))]) && Forest(es + [Entry(s, TextOf(d))], ds + [d])
    ensures YieldAll(ds + [d]) == YieldAll(ds) + Yield(d)
  {
    hide ActionAt, GotoAt;
    var e := Entry(s, TextOf(d));
    TransEntersBySymbol(Top(es).state, Sym(d));
    PushKeepsValid(es, e, Sym(d));
    ForestGrows(es, ds, e, d);
    YieldAppend(ds, [d]);
    SingleTree(d, EMPTY_STACKS, t => 0.0);
  }

  /** One more tree on the stack. */
  lemma {:induction false} Push(es: seq<Entry>, ds: seq<Deriv>, d: Deriv)
    returns (es': seq<Entry>, ds': seq<Deriv>)
    requires Valid(es) && Forest(es, ds) && Derives(d) && Decodable(d) && Trans(Top(es).state, Sym(d)).Some?
    ensures Valid(es') && Forest(es', ds') && |es'| == |es| + 1
    ensures Top(es').state == Trans(Top(es).state, Sym(d)).value && YieldAll(ds) <= YieldAll(ds')
  {
    hide Trans, Forest, Valid, Decodable, YieldAll;
    ForestIsLonger(es, ds);
    var s := Trans(Top(es).state, Sym(d)).value;
    ForestPushed(es, ds, d, s);
    es', ds' := es + [Entry(s, TextOf(d))], ds + [d];
  }

  /** The trees on top become the children of one. */
  lemma {:induction false} ReduceTop(es: seq<Entry>, ds: seq<Deriv>) returns (es': seq<Entry>, ds': seq<Deriv>)
    requires Valid(es) && Forest(es, ds) && RowRule(Top(es).state) > 1
    requires Top(es).state == 11 ==> LiteralText(Top(es).text).Some?
    ensures Valid(es') && Forest(es', ds') && YieldAll(ds') == YieldAll(ds)
    ensures var r := RowRule(Top(es).state);
            && 1 < r < RULES && |Body(r)| < |es| && |es'| == |es| - |Body(r)| + 1
            && GotoAt(es[|es'| - 2].state, Head(r)) == Some(Top(es').state)
  {
    hide Forest, Body, Head, GotoAt, HandleOnTop;
    var t, r := Closer(Top(es).state), RowRule(Top(es).state);
    CloserReduces(Top(es).state);
    ReduceKeepsValid(es, t);
    ForestReduces(es, ds, t, r);
    ForestIsLonger(es, ds);
    JoinedEffect(ds, r, EMPTY_STACKS, t => 0.0);
    es', ds' := Reduced(es, r), Joined(ds, r);
  }

  lemma {:induction false} ForestIsLonger(es: seq<Entry>, ds: seq<Deriv>)
    requires Forest(es, ds)
    ensures |es| == |ds| + 1
  {
  }

  lemma {:induction false} CloserReduces(s: nat)
    requires RowRule(s) > 1
    ensures ActionAt(s, Closer(s)) == Reduce(RowRule(s)) && (RowRule(s) == 23 ==> s == 11)
  {
  }

  /** Every state but the start and those entered by the outermost object, the end and the document. */
  predicate Unfinished(s: nat) {
    0 < s < STATES && s !in {1, 2, 6}
  }

  lemma {:induction false} GotoIsUnfinished(p: nat, n: Nonterminal)
    requires n != Doc && GotoAt(p, n).Some?
    ensures GotoAt(p, n).value == 2 || (Unfinished(GotoAt(p, n).value) && GotoAt(p, n).value != 11)
  {
  }

  /** The state on top once the body that `s` has begun is complete, and the number of symbols that takes. */
  function Filled(s: nat): (nat, nat) {
    match s
    case 3 => (7, 1)
    case 10 => (15, 2)
    case 12 => (14, 1)
    case 13 => (15, 1)
    case 24 => (27, 1)
    case 30 => (31, 1)
    case _ => (s, 0)
  }

  lemma {:induction false} FilledReduces(s: nat)
    requires Unfinished(s)
    ensures RowRule(Filled(s).0) > 1 && RowRule(Filled(s).0) < RULES && (Filled(s).0 == 11 ==> s == 11)
  {
  }

  lemma {:induction false} FilledIsCloser(s: nat, p: nat)
    requires Unfinished(s) && 1 < RowRule(Filled(s).0) < RULES && GotoAt(p, Head(RowRule(Filled(s).0))).Some?
    ensures var k := |Body(RowRule(Filled(s).0))| - Filled(s).1;
            k > 1 || (k == 1 && Distance(GotoAt(p, Head(RowRule(Filled(s).0))).value) < Distance(s))
    ensures Head(RowRule(Filled(s).0)) != Doc
  {
  }

  lemma {:induction false} FillersFit()
    ensures Trans(3, T(TRBrace)) == Some(7) && Trans(24, T(TRBracket)) == Some(27) && Trans(10, T(TColon)) == Some(13)
    ensures Trans(13, N(Val)) == Some(15) && Trans(30, N(Val)) == Some(31) && Trans(12, N(PairItem)) == Some(14)
  {
  }

  lemma {:induction false} LeafDerives(tok: Token)
    ensures Derives(Leaf(tok)) && Decodable(Leaf(tok)) && Sym(Leaf(tok)) == T(tok.term)
  {
  }

  /** Push what the body on top misses. */
  lemma {:induction false} Fill(es: seq<Entry>, ds: seq<Deriv>) returns (es': seq<Entry>, ds': seq<Deriv>)
    requires Valid(es) && Forest(es, ds) && Unfinished(Top(es).state)
    ensures Valid(es') && Forest(es', ds') && YieldAll(ds) <= YieldAll(ds')
    ensures Top(es').state == Filled(Top(es).state).0 && |es'| == |es| + Filled(Top(es).state).1
    ensures Top(es).state == 11 ==> es' == es
  {
    hide Valid, Forest, YieldAll, Derives, Decodable, GotoAt, ActionAt, Trans;
    FillersDerive();
    FillersFit();
    ForestIsLonger(es, ds);
    var s := Top(es).state;
    es', ds' := es, ds;
    if s in {3, 10, 24} {
      var tok := Token(if s == 3 then TRBrace else if s == 10 then TColon else TRBracket, []);
      LeafDerives(tok);
      es', ds' := Push(es, ds, Leaf(tok));
    }
    if s in {10, 13, 30} {
      es', ds' := Push(es', ds', NULL_VALUE);
    } else if s == 12 {
      es', ds' := Push(es', ds', NULL_PAIR);
    }
  }

  /** Completing the body on top and reducing it brings the stack closer to a single object. */
  lemma {:induction false} Completed(es: seq<Entry>, ds: seq<Deriv>) returns (es': seq<Entry>, ds': seq<Deriv>)
    requires Valid(es) && Forest(es, ds) && Unfinished(Top(es).state)
    requires Top(es).state == 11 ==> LiteralText(Top(es).text).Some?
    ensures Valid(es') && Forest(es', ds') && YieldAll(ds) <= YieldAll(ds')
    ensures Top(es').state == 2 || (Unfinished(Top(es').state) && Top(es').state != 11)
    ensures |es'| < |es| || (|es'| == |es| && Distance(Top(es').state) < Distance(Top(es).state))
  {
    hide Valid, Forest, YieldAll, GotoAt, RowRule, Body, Head, Distance, Filled;
    ForestIsLonger(es, ds);
    var s := Top(es).state;
    FilledReduces(s);
    var full, trees := Fill(es, ds);
    es', ds' := ReduceTop(full, trees);
    FilledIsCloser(s, full[|es'| - 2].state);
    GotoIsUnfinished(full[|es'| - 2].state, Head(RowRule(Filled(s).0)));
  }

  /** What is on a stack is the beginning of a document. */
  lemma {:induction false} StackIsViable(es: seq<Entry>, ds: seq<Deriv>) returns (d: Deriv)
    requires Valid(es) && Forest(es, ds) && (Top(es).state == 2 || Unfinished(Top(es).state))
    requires Top(es).state == 11 ==> LiteralText(Top(es).text).Some?
    ensures Is(d, Doc) && YieldAll(ds) <= Yield(d)
    decreases |es|, Distance(Top(es).state)
  {
    hide Valid, Forest, YieldAll, GotoAt, Distance;
    ForestIsLonger(es, ds);
    if Top(es).state == 2 {
      d := FinishObject(es, ds);
    } else {
      var es', ds' := Completed(es, ds);
      d := StackIsViable(es', ds');
    }
  }

  lemma {:induction false} FinishObject(es: seq<Entry>, ds: seq<Deriv>) returns (d: Deriv)
    requires Valid(es) && Forest(es, ds) && Top(es).state == 2
    ensures Is(d, Doc) && YieldAll(ds) <= Yield(d)
  {
    hide Valid, Forest, YieldAll, GotoAt;
    AcceptsOneObject(es, ds);
    assert Decodable(ds[0]) by {
      ForestDecodes(es, ds);
    }
    d := DocumentOf(ds[0], Token(TEnd, []), EMPTY_STACKS, t => 0.0);
    assert ds == [ds[0]];
    SingleTree(ds[0], EMPTY_STACKS, t => 0.0);
  }

  lemma {:induction false} ForestDecodes(es: seq<Entry>, ds: seq<Deriv>)
    requires Forest(es, ds)
    ensures forall i :: 0 <= i < |ds| ==> Derives(ds[i]) && Decodable(ds[i])
  {
    forall i | 0 <= i < |ds| ensures Derives(ds[i]) && Decodable(ds[i]) {
      assert Stands(es[i + 1], ds[i]);
    }
  }

  // --- A document with other strings ---

  predicate SameTerms(a: seq<Token>, b: seq<Token>) {
    |a| == |b| && forall i :: 0 <= i < |a| ==> a[i].term == b[i].term
  }

  /** The tree with every string replaced by the empty one. */
  function Healed(d: Deriv): Deriv {
    match d
    case Leaf(tok) => Leaf(if tok.term == TString then Token(TString, [QUOTE, QUOTE]) else tok)
    case Node(r, kids) => Node(r, HealedAll(kids))
  }

  function HealedAll(ds: seq<Deriv>): (r: seq<Deriv>)
    ensures |r| == |ds| && forall i :: 0 <= i < |ds| ==> r[i] == Healed(ds[i])
  {
    if ds == [] then [] else [Healed(ds[0])] + HealedAll(ds[1..])
  }

  lemma {:induction false} HealedDecodes(d: Deriv)
    requires Derives(d)
    ensures Derives(Healed(d)) && Sym(Healed(d)) == Sym(d) && Decodable(Healed(d))
  {
    hide ActionAt, GotoAt, LiteralText, Body, Head;
    match d
    case Leaf(_) =>
    case Node(r, kids) =>
      var h := Healed(d);
      forall i | 0 <= i < |kids|
        ensures Derives(h.kids[i]) && Decodable(h.kids[i]) && Sym(h.kids[i]) == Body(r)[i]
      {
        HealedDecodes(kids[i]);
      }
      if r == 23 {
        EmptyStringDerives();
        StringBodyIsLeaf();
        assert Sym(kids[0]) == Body(23)[0];
        assert h.kids[0] == Healed(kids[0]);
      }
  }

  lemma {:induction false} StringBodyIsLeaf()
    ensures Body(23) == [T(TString)]
  {
  }

  lemma {:induction false} HealedYield(d: Deriv)
    ensures SameTerms(Yield(Healed(d)), Yield(d))
    decreases d, 0
  {
    match d
    case Leaf(_) =>
    case Node(_, kids) => HealedYieldAll(kids);
  }

  lemma {:induction false} HealedYieldAll(ds: seq<Deriv>)
    ensures SameTerms(YieldAll(HealedAll(ds)), YieldAll(ds))
    decreases ds
  {
    if ds != [] {
      HealedYield(ds[0]);
      HealedYieldAll(ds[1..]);
      assert HealedAll(ds)[1..] == HealedAll(ds[1..]) && HealedAll(ds)[0] == Healed(ds[0]);
    }
  }

  // --- From a document to the assertion ---

  predicate StringDecodes(tok: Token) {
    tok.term == TString ==> LiteralText(tok.text).Some?
  }

  /** The strings on the stack that are not reduced yet can be decoded. */
  ghost predicate StackDecodes(es: seq<Entry>) {
    forall i :: 0 <= i < |es| && es[i].state == 11 ==> LiteralText(es[i].text).Some?
  }

  lemma {:induction false} ReducedDecodes(es: seq<Entry>, r: nat)
    requires StackDecodes(es) && 1 < r < RULES && |Body(r)| < |es|
    requires GotoAt(es[|es| - |Body(r)| - 1].state, Head(r)).Some?
    ensures StackDecodes(Reduced(es, r))
  {
    hide Body, ActionAt, GotoAt, LiteralText;
    TransEntersBySymbol(es[|es| - |Body(r)| - 1].state, N(Head(r)));
  }

  lemma {:induction false} SameReduced(es: seq<Entry>, es': seq<Entry>, r: nat)
    requires States(es) == States(es') && 1 < r < RULES && |Body(r)| < |es|
    requires GotoAt(es[|es| - |Body(r)| - 1].state, Head(r)).Some?
    ensures |es'| == |es| && es'[|es| - |Body(r)| - 1].state == es[|es| - |Body(r)| - 1].state
    ensures States(Reduced(es, r)) == States(Reduced(es', r))
  {
    hide Body, Head, ActionAt, GotoAt;
    assert |States(es)| == |States(es')|;
    forall i | 0 <= i < |es| ensures es'[i].state == es[i].state {
      assert States(es)[i] == States(es')[i];
    }
  }

  /** What the driver has before it on both runs: the same terminals up to the string at `i`. */
  ghost predicate Alike(toks: seq<Token>, toks': seq<Token>, i: nat) {
    && i + 1 < |toks| && i < |toks'|
    && (forall j :: 0 <= j <= i ==> toks[j].term == toks'[j].term)
    && (forall j :: 0 <= j < i ==> StringDecodes(toks[j]))
    && toks[i].term == TString && LiteralText(toks[i].text) == None && FollowsString(toks[i + 1].term)
  }

  lemma {:induction false} AlikeTail(toks: seq<Token>, toks': seq<Token>, i: nat)
    requires Alike(toks, toks', i) && i > 0
    ensures Alike(toks[1..], toks'[1..], i - 1)
  {
    hide LiteralText, StringDecodes;
    forall j | 0 <= j < i - 1 ensures StringDecodes(toks[1..][j]) {
      assert StringDecodes(toks[j + 1]);
    }
  }

  lemma {:induction false} StringIsReduced(es: seq<Entry>, st: Stacks, toks: seq<Token>, strtod: bytes -> real)
    requires Valid(es) && Stream(toks) && |toks| > 1 && toks[0].term == TString && FollowsString(toks[1].term)
    requires ActionAt(Top(es).state, TString).Shift? && LiteralText(toks[0].text) == None
    ensures Drive(es, st, toks, strtod) == Err(DecoderAssertion)
  {
    hide LiteralText, Drive;
    StreamTail(toks);
    assert toks == [toks[0]] + toks[1..];
    DriveShifts(es, st, toks[0], toks[1..], strtod);
    DecoderStops(es + [Entry(11, toks[0].text)], st, toks[1..], strtod);
  }

  /** A run that meets the same terminals as an accepting one comes to the string that cannot be decoded. */
  lemma {:induction false} FollowsToAssertion(es: seq<Entry>, es': seq<Entry>, st: Stacks, st': Stacks,
                                              toks: seq<Token>, toks': seq<Token>, i: nat, strtod: bytes -> real)
    requires Valid(es) && Valid(es') && States(es) == States(es') && StackDecodes(es)
    requires Stream(toks) && Stream(toks') && Alike(toks, toks', i) && Drive(es', st', toks', strtod).Ok?
    ensures Drive(es, st, toks, strtod) == Err(DecoderAssertion)
    decreases |toks|, |es|, Rank(Top(es).state)
  {
    hide LiteralText, Body, Head, Rank, ActionAt, GotoAt, Alike, StackDecodes, Apply, Path;
    ValidHasTop(es);
    SameTop(es, es');
    AlikeHead(toks, toks', i);
    var t := toks[0].term;
    match ActionAt(Top(es).state, t)
    case NoAction => assert false;
    case Shift(s) =>
      if i == 0 {
        AlikeEnd(toks, toks');
        StringIsReduced(es, st, toks, strtod);
      } else {
        AlikeTail(toks, toks', i);
        ShiftGoesOn(es, toks);
        ShiftGoesOn(es', toks');
        PushedDecodes(es, s, toks, toks', i);
        SamePushed(es, es', Entry(s, toks[0].text), Entry(s, toks'[0].text));
        FollowsToAssertion(es + [Entry(s, toks[0].text)], es' + [Entry(s, toks'[0].text)], st, st', toks[1..],
                           toks'[1..], i - 1, strtod);
      }
    case Reduce(r) =>
      ReduceGoesOn(es, toks);
      ReduceGoesOn(es', toks');
      StringOnTop(Top(es).state, t);
      if r == 23 {
        TopDecodes(es);
      }
      SameReduced(es, es', r);
      ReducedDecodes(es, r);
      FollowsToAssertion(Reduced(es, r), Reduced(es', r), Apply(r, Top(es).text, st, strtod),
                         Apply(r, Top(es').text, st', strtod), toks, toks', i, strtod);
  }

  lemma {:induction false} ValidHasTop(es: seq<Entry>)
    requires Valid(es)
    ensures es != []
  {
  }

  lemma {:induction false} SamePushed(es: seq<Entry>, es': seq<Entry>, e: Entry, e': Entry)
    requires States(es) == States(es') && e.state == e'.state
    ensures States(es + [e]) == States(es' + [e'])
  {
    assert States(es + [e]) == States(es) + [e.state];
    assert States(es' + [e']) == States(es') + [e'.state];
  }

  lemma {:induction false} SameTop(es: seq<Entry>, es': seq<Entry>)
    requires es != [] && States(es) == States(es')
    ensures |es'| == |es| && Top(es').state == Top(es).state
  {
    assert |States(es)| == |States(es')| && States(es)[|es| - 1] == States(es')[|es| - 1];
  }

  lemma {:induction false} AlikeHead(toks: seq<Token>, toks': seq<Token>, i: nat)
    requires Alike(toks, toks', i) && Stream(toks)
    ensures |toks| > 1 && toks' != [] && toks[0].term == toks'[0].term && toks[0].term !in {TEnd, Unrecognized}
  {
  }

  lemma {:induction false} AlikeEnd(toks: seq<Token>, toks': seq<Token>)
    requires Alike(toks, toks', 0)
    ensures |toks| > 1 && toks[0].term == TString && LiteralText(toks[0].text) == None && FollowsString(toks[1].term)
  {
  }

  lemma {:induction false} PushedDecodes(es: seq<Entry>, s: nat, toks: seq<Token>, toks': seq<Token>, i: nat)
    requires StackDecodes(es) && Alike(toks, toks', i) && i > 0 && es != []
    requires ActionAt(Top(es).state, toks[0].term) == Shift(s)
    ensures StackDecodes(es + [Entry(s, toks[0].text)])
  {
    hide LiteralText, ActionAt;
    assert StringDecodes(toks[0]);
    TransEntersBySymbol(Top(es).state, T(toks[0].term));
  }

  lemma {:induction false} StringOnTop(s: nat, t: Terminal)
    ensures ActionAt(s, t) == Reduce(23) ==> s == 11 && FollowsString(t)
  {
  }

  lemma {:induction false} TopDecodes(es: seq<Entry>)
    requires StackDecodes(es) && es != [] && Top(es).state == 11
    ensures LiteralText(Top(es).text).Some?
  {
  }

  // --- From the assertion to a document ---

  /** Where the decoder stops, with the forest behind the stack. */
  lemma {:induction false} AssertionReached(es: seq<Entry>, ds: seq<Deriv>, st0: Stacks, toks: seq<Token>,
                                            strtod: bytes -> real)
    returns (es': seq<Entry>, ds': seq<Deriv>, rest: seq<Token>)
    requires Valid(es) && Stream(toks) && Forest(es, ds)
    requires Drive(es, EffAll(ds, st0, strtod), toks, strtod) == Err(DecoderAssertion)
    ensures Valid(es') && Forest(es', ds') && Stream(rest) && YieldAll(ds') + rest == YieldAll(ds) + toks
    ensures ActionAt(Top(es').state, rest[0].term) == Reduce(23) && LiteralText(Top(es').text) == None
    decreases |toks|, |es|, Rank(Top(es).state)
  {
    hide LiteralText, Body, Head, Rank, ActionAt, GotoAt, Forest, Path, Apply;
    ValidHasTop(es);
    var t := toks[0].term;
    match ActionAt(Top(es).state, t)
    case Shift(s) =>
      ShiftStep(es, ds, st0, toks, strtod);
      es', ds', rest := AssertionReached(es + [Entry(s, toks[0].text)], ds + [Leaf(toks[0])], st0, toks[1..], strtod);
    case Reduce(r) =>
      if r == 23 && LiteralText(Top(es).text) == None {
        es', ds', rest := es, ds, toks;
      } else {
        ForestReduces(es, ds, t, r);
        DriveJoins(es, ds, r, st0, toks, strtod);
        ForestIsLonger(es, ds);
        JoinedEffect(ds, r, st0, strtod);
        ReduceGoesOn(es, toks);
        es', ds', rest := AssertionReached(Reduced(es, r), Joined(ds, r), st0, toks, strtod);
      }
  }

  /** Below a string that is not reduced yet, every string has been. */
  lemma {:induction false} NoStringBelow(es: seq<Entry>, ds: seq<Deriv>, j: nat)
    requires Valid(es) && Forest(es, ds) && j + 1 < |ds|
    ensures Derives(ds[j]) && Decodable(ds[j]) && Sym(ds[j]) != T(TString)
  {
    hide GotoAt, Derives, Decodable;
    assert Stands(es[j + 1], ds[j]);
    assert Edge(States(es)[j + 1], States(es)[j + 2]);
    NothingAfterString(States(es)[j + 1], States(es)[j + 2]);
  }

  lemma {:induction false} NothingAfterString(s: nat, s': nat)
    requires Edge(s, s') && 0 < s < STATES
    ensures Access(s) != T(TString)
  {
  }

  /** The stack with the string on top replaced by the empty one. */
  lemma {:induction false} TopHealed(es: seq<Entry>, ds: seq<Deriv>) returns (es': seq<Entry>, ds': seq<Deriv>)
    requires Valid(es) && Forest(es, ds) && Top(es).state == 11
    ensures Valid(es') && Forest(es', ds') && Top(es').state == 11 && LiteralText(Top(es').text).Some?
    ensures ds != [] && ds' == ds[..|ds| - 1] + [Leaf(Token(TString, [QUOTE, QUOTE]))]
    ensures exists tok :: ds[|ds| - 1] == Leaf(tok) && tok.term == TString && tok.text == Top(es).text
  {
    hide ActionAt, GotoAt, Derives, Decodable, LiteralText, Path;
    var n := |ds| - 1;
    ForestIsLonger(es, ds);
    StartIsNotString(es);
    assert Stands(es[n + 1], ds[n]);
    AccessOfString(ds[n]);
    var tok := Token(TString, [QUOTE, QUOTE]);
    EmptyStringDerives();
    LeafDerives(tok);
    var e := Entry(11, [QUOTE, QUOTE]);
    es', ds' := es[..n + 1] + [e], ds[..n] + [Leaf(tok)];
    assert States(es') == States(es);
    forall i | 0 <= i < |ds'| ensures Stands(es'[i + 1], ds'[i]) {
      if i < n {
        assert Stands(es[i + 1], ds[i]);
      }
    }
  }

  lemma {:induction false} StartIsNotString(es: seq<Entry>)
    requires Valid(es) && Top(es).state == 11
    ensures |es| > 1
  {
    assert States(es)[0] == es[0].state;
  }

  lemma {:induction false} AccessOfString(d: Deriv)
    requires Derives(d) && Sym(d) == Access(11)
    ensures d.Leaf? && d.tok.term == TString
  {
  }

  /** What has been read when the decoder stops is the beginning of a document, up to its strings. */
  lemma {:induction false} ReadIsViable(es: seq<Entry>, ds: seq<Deriv>)
    requires Valid(es) && Forest(es, ds) && Top(es).state == 11
    ensures Viable(YieldAll(ds))
  {
    hide Valid, Forest, LiteralText, Derives;
    var es', ds' := TopHealed(es, ds);
    var d := StackIsViable(es', ds');
    var n := |ds| - 1;
    YieldAppend(ds[..n], [ds[n]]);
    YieldAppend(ds[..n], [ds'[n]]);
    SingleTree(ds[n], EMPTY_STACKS, t => 0.0);
    SingleTree(ds'[n], EMPTY_STACKS, t => 0.0);
    assert ds == ds[..n] + [ds[n]];
    assert BeginsLike(Yield(d), YieldAll(ds));
  }

  /** No string in front of the one on top of the stack escapes a slash. */
  lemma {:induction false} ReadIsDecoded(es: seq<Entry>, ds: seq<Deriv>)
    requires Valid(es) && Forest(es, ds) && ds != [] && StringsAreLiterals(YieldAll(ds[..|ds| - 1]))
    ensures NoneEscaped(YieldAll(ds[..|ds| - 1]))
  {
    hide Valid, Forest, Decodable, NoneEscaped, StringsAreLiterals;
    var front := ds[..|ds| - 1];
    forall j | 0 <= j < |front| ensures Derives(front[j]) && Decodable(front[j]) && Sym(front[j]) != T(TString) {
      NoStringBelow(es, ds, j);
    }
    AllDecodableByYield(front);
  }

  lemma {:induction false} LiteralDecodes(tok: Token)
    requires tok.term == TString && IsStringLiteral(tok.text)
    ensures EscapedSlash(tok) <==> LiteralText(tok.text) == None
  {
    DecoderCoversLexer(tok.text[1..|tok.text| - 1]);
  }

  lemma {:induction false} AssertionMeansAbort(text: bytes, st: Stacks, strtod: bytes -> real) returns (i: nat)
    requires Parsed(text, st, strtod) == Err(DecoderAssertion)
    ensures AbortsAt(Tokens(text), i)
  {
    hide Tokens, Valid, Forest, LiteralText, NoneEscaped, StringsAreLiterals, EscapedSlash, IsStringLiteral, Viable;
    hide ActionAt, GotoAt, Stream, Drive, YieldAll, EffAll, FollowsString;
    var toks := Tokens(text);
    TokensAreStream(text);
    StringTokensAreLiterals(text);
    StartIsValid();
    StartIsForest(st, toks, strtod);
    var es, ds, rest := AssertionReached(START, [], st, toks, strtod);
    ValidHasTop(es);
    StreamIsNotEmpty(rest);
    StringOnTop(Top(es).state, rest[0].term);
    var es', ds' := TopHealed(es, ds);
    var tok :| ds[|ds| - 1] == Leaf(tok) && tok.term == TString && tok.text == Top(es).text;
    i := ReadTokens(ds, tok, rest, toks);
    NoneEscapedConcat(toks[..i], toks[i..]);
    ReadIsViable(es, ds);
    ReadIsDecoded(es, ds);
    LiteralAt(toks, i);
    LiteralDecodes(tok);
  }

  lemma {:induction false} ReadTokens(ds: seq<Deriv>, tok: Token, rest: seq<Token>, toks: seq<Token>) returns (i: nat)
    requires ds != [] && ds[|ds| - 1] == Leaf(tok) && rest != [] && toks == YieldAll(ds) + rest
    ensures i + 1 < |toks| && toks[i] == tok && toks[i + 1] == rest[0] && toks == toks[..i] + toks[i..]
    ensures toks[..i] == YieldAll(ds[..|ds| - 1]) && toks[..i + 1] == YieldAll(ds)
  {
    hide YieldAll;
    var n := |ds| - 1;
    YieldAppend(ds[..n], [ds[n]]);
    SingleTree(ds[n], EMPTY_STACKS, t => 0.0);
    assert ds == ds[..n] + [ds[n]];
    assert YieldAll(ds) == YieldAll(ds[..n]) + [tok];
    i := |YieldAll(ds[..n])|;
  }

  lemma {:induction false} LiteralAt(toks: seq<Token>, i: nat)
    requires StringsAreLiterals(toks) && i < |toks| && toks[i].term == TString
    ensures IsStringLiteral(toks[i].text)
  {
  }

  lemma {:induction false} StreamIsNotEmpty(toks: seq<Token>)
    requires Stream(toks)
    ensures toks != []
  {
  }

  lemma {:induction false} StartIsForest(st: Stacks, toks: seq<Token>, strtod: bytes -> real)
    ensures Forest(START, []) && StackDecodes(START) && EffAll([], st, strtod) == st && YieldAll([]) + toks == toks
  {
    assert YieldAll([]) + toks == toks;
  }

  lemma {:induction false} AbortMeansAssertion(text: bytes, st: Stacks, strtod: bytes -> real, i: nat)
    requires AbortsAt(Tokens(text), i)
    ensures Parsed(text, st, strtod) == Err(DecoderAssertion)
  {
    hide Tokens, Drive, LiteralText, IsStringLiteral, EscapedSlash, Valid, Derives, Decodable;
    var toks := Tokens(text);
    TokensAreStream(text);
    StringTokensAreLiterals(text);
    var d :| Is(d, Doc) && BeginsLike(Yield(d), toks[..i + 1]);
    HealedDecodes(d);
    HealedYield(d);
    DocumentAccepted(Healed(d), st, strtod);
    StartIsForest(st, toks, strtod);
    SlashMeansUndecoded(toks, i);
    AlikeDocument(toks, Yield(d), Yield(Healed(d)), i);
    FollowsToAssertion(START, START, st, st, toks, Yield(Healed(d)), i, strtod);
  }

  lemma {:induction false} SlashMeansUndecoded(toks: seq<Token>, i: nat)
    requires StringsAreLiterals(toks) && i < |toks| && EscapedSlash(toks[i]) && NoneEscaped(toks[..i])
    ensures toks[i].term == TString && LiteralText(toks[i].text) == None
    ensures forall j :: 0 <= j < i ==> StringDecodes(toks[j])
  {
    hide LiteralText, IsStringLiteral;
    LiteralDecodes(toks[i]);
    forall j | 0 <= j < i ensures StringDecodes(toks[j]) {
      assert toks[..i][j] == toks[j];
      if toks[j].term == TString {
        LiteralDecodes(toks[j]);
      }
    }
  }

  lemma {:induction false} AlikeDocument(toks: seq<Token>, all: seq<Token>, healed: seq<Token>, i: nat)
    requires i + 1 < |toks| && BeginsLike(all, toks[..i + 1]) && SameTerms(healed, all)
    requires forall j :: 0 <= j < i ==> StringDecodes(toks[j])
    requires toks[i].term == TString && LiteralText(toks[i].text) == None && FollowsString(toks[i + 1].term)
    ensures Alike(toks, healed, i)
  {
    hide LiteralText, StringDecodes;
    forall j | 0 <= j <= i ensures toks[j].term == healed[j].term {
      assert toks[..i + 1][j] == toks[j];
    }
  }

  /**
   * Parsing ends in the decoder's assertion exactly when the first escaped slash is in a string that a document
   * could continue with, and that stands in front of a terminal that can follow some string. The table does not
   * ask whether it can follow this one: after a key, a comma does as well as a colon.
   */
  lemma {:induction false} AbortsExactly(text: bytes, st: Stacks, strtod: bytes -> real)
    ensures Parsed(text, st, strtod) == Err(DecoderAssertion) <==> exists i :: AbortsAt(Tokens(text), i)
  {
    hide Tokens, Parsed, AbortsAt;
    if Parsed(text, st, strtod) == Err(DecoderAssertion) {
      var i := AssertionMeansAbort(text, st, strtod);
    }
    if i :| AbortsAt(Tokens(text), i) {
      AbortMeansAssertion(text, st, strtod, i);
    }
  }

  /** Without an escaped slash the parser accepts or reports an error. */
  lemma {:induction false} NoSlashNoAbort(text: bytes, st: Stacks, strtod: bytes -> real)
    requires NoneEscaped(Tokens(text))
    ensures Parsed(text, st, strtod) != Err(DecoderAssertion)
  {
    hide Tokens, Parsed, EscapedSlash, Viable;
    AbortsExactly(text, st, strtod);
  }

  // --- The other failures ---

  /** The text breaks off where the lexer recognizes nothing, behind terminals with which a document can begin. */
  ghost predicate BreaksDown(toks: seq<Token>) {
    var n := |toks| - 1;
    n >= 0 && toks[n].term == Unrecognized && Viable(toks[..n]) && (n > 0 ==> NoneEscaped(toks[..n - 1]))
  }

  /** States that are on top while the driver runs. */
  predicate Running(s: nat) {
    s in {0, 2} || Unfinished(s)
  }

  lemma {:induction false} ShiftRuns(s: nat, t: Terminal)
    requires ActionAt(s, t).Shift? && t != TEnd
    ensures Running(ActionAt(s, t).state)
  {
  }

  lemma {:induction false} ReducedRuns(es: seq<Entry>, r: nat)
    requires 1 < r < RULES && |Body(r)| < |es| && GotoAt(es[|es| - |Body(r)| - 1].state, Head(r)).Some?
    ensures Running(Top(Reduced(es, r)).state)
  {
    hide Body, GotoAt;
    GotoIsUnfinished(es[|es| - |Body(r)| - 1].state, Head(r));
  }

  /** Where nothing is recognized, with the forest behind the stack. */
  lemma {:induction false} BreakdownReached(es: seq<Entry>, ds: seq<Deriv>, st0: Stacks, toks: seq<Token>,
                                            strtod: bytes -> real)
    returns (es': seq<Entry>, ds': seq<Deriv>, rest: seq<Token>)
    requires Valid(es) && Stream(toks) && Forest(es, ds) && Running(Top(es).state)
    requires Drive(es, EffAll(ds, st0, strtod), toks, strtod) == Err(UnrecognizedTerminal)
    ensures Valid(es') && Forest(es', ds') && Running(Top(es').state)
    ensures Stream(rest) && YieldAll(ds') + rest == YieldAll(ds) + toks && rest[0].term == Unrecognized
    decreases |toks|, |es|, Rank(Top(es).state)
  {
    hide LiteralText, Body, Head, Rank, ActionAt, GotoAt, Forest, Path, Apply, Running;
    ValidHasTop(es);
    var t := toks[0].term;
    if t == Unrecognized {
      es', ds', rest := es, ds, toks;
    } else {
      match ActionAt(Top(es).state, t)
      case Shift(s) =>
        ShiftRuns(Top(es).state, t);
        ShiftStep(es, ds, st0, toks, strtod);
        es', ds', rest := BreakdownReached(es + [Entry(s, toks[0].text)], ds + [Leaf(toks[0])], st0, toks[1..], strtod);
      case Reduce(r) =>
        ForestReduces(es, ds, t, r);
        ReducedRuns(es, r);
        DriveJoins(es, ds, r, st0, toks, strtod);
        ForestIsLonger(es, ds);
        JoinedEffect(ds, r, st0, strtod);
        ReduceGoesOn(es, toks);
        es', ds', rest := BreakdownReached(Reduced(es, r), Joined(ds, r), st0, toks, strtod);
    }
  }

  lemma {:induction false} NothingIsViable()
    ensures Viable([])
  {
    hide ActionAt, GotoAt, Derives;
    var brace := Leaf(Token(TLBrace, []));
    StartIsValid();
    StartIsForest(EMPTY_STACKS, [], t => 0.0);
    LeafDerives(brace.tok);
    StartShiftsBrace();
    var es, ds := Push(START, [], brace);
    var d := StackIsViable(es, ds);
    assert BeginsLike(Yield(d), []);
  }

  lemma {:induction false} StartShiftsBrace()
    ensures Trans(0, T(TLBrace)) == Some(5) && Unfinished(5)
  {
  }

  lemma {:induction false} RunningIsViable(es: seq<Entry>, ds: seq<Deriv>)
    requires Valid(es) && Forest(es, ds) && Running(Top(es).state)
    ensures Viable(YieldAll(ds))
  {
    hide Valid, Forest, LiteralText, Derives, YieldAll;
    ForestIsLonger(es, ds);
    if Top(es).state == 0 {
      OnlyStartIsZero(es);
      NothingRead();
      assert ds == [];
      NothingIsViable();
    } else if Top(es).state == 11 {
      ReadIsViable(es, ds);
    } else {
      var d := StackIsViable(es, ds);
      assert BeginsLike(Yield(d), YieldAll(ds));
    }
  }

  lemma {:induction false} OnlyStartIsZero(es: seq<Entry>)
    requires Valid(es) && Top(es).state == 0
    ensures |es| == 1
  {
    PathPositive(States(es));
    assert States(es)[|es| - 1] == 0;
  }

  lemma {:induction false} NothingRead()
    ensures YieldAll([]) == []
  {
  }

  /** The strings that have been reduced are decoded; the last token may be a string that has not. */
  lemma {:induction false} RunningIsDecoded(es: seq<Entry>, ds: seq<Deriv>, all: seq<Token>)
    requires Valid(es) && Forest(es, ds) && all == YieldAll(ds) && StringsAreLiterals(all) && all != []
    ensures NoneEscaped(all[..|all| - 1])
  {
    hide Valid, Forest, NoneEscaped, StringsAreLiterals, YieldAll, Decodable, LiteralText;
    ForestIsLonger(es, ds);
    if ds == [] {
      NothingRead();
    } else if Top(es).state == 11 {
      var es', ds' := TopHealed(es, ds);
      var tok :| ds[|ds| - 1] == Leaf(tok) && tok.term == TString && tok.text == Top(es).text;
      LastIsRead(ds, tok, all);
      NoneEscapedConcat(all[..|all| - 1], [tok]);
      ReadIsDecoded(es, ds);
    } else {
      forall j | 0 <= j < |ds| ensures Derives(ds[j]) && Decodable(ds[j]) && Sym(ds[j]) != T(TString) {
        if j + 1 < |ds| {
          NoStringBelow(es, ds, j);
        } else {
          TopIsNoString(es, ds);
        }
      }
      AllDecodableByYield(ds);
      assert all == all[..|all| - 1] + [all[|all| - 1]];
      NoneEscapedConcat(all[..|all| - 1], [all[|all| - 1]]);
    }
  }

  lemma {:induction false} LastIsRead(ds: seq<Deriv>, tok: Token, all: seq<Token>)
    requires ds != [] && ds[|ds| - 1] == Leaf(tok) && all == YieldAll(ds)
    ensures all != [] && all[..|all| - 1] == YieldAll(ds[..|ds| - 1]) && all == all[..|all| - 1] + [tok]
  {
    hide YieldAll;
    var n := |ds| - 1;
    YieldAppend(ds[..n], [ds[n]]);
    SingleTree(ds[n], EMPTY_STACKS, t => 0.0);
    assert ds == ds[..n] + [ds[n]];
  }

  lemma {:induction false} TopIsNoString(es: seq<Entry>, ds: seq<Deriv>)
    requires Valid(es) && Forest(es, ds) && ds != [] && Top(es).state != 11
    ensures var d := ds[|ds| - 1]; Derives(d) && Decodable(d) && Sym(d) != T(TString)
  {
    hide ActionAt, GotoAt, Derives, Decodable;
    assert Stands(es[|ds|], ds[|ds| - 1]);
    OnlyElevenIsString(Top(es).state);
  }

  lemma {:induction false} OnlyElevenIsString(s: nat)
    requires 0 < s < STATES && s != 11
    ensures Access(s) != T(TString)
  {
  }

  /** The same terminals on both runs, up to where one of them has an unrecognized one. */
  ghost predicate AlikeUpTo(toks: seq<Token>, toks': seq<Token>, k: nat) {
    && k + 1 == |toks| && k <= |toks'| && toks[k].term == Unrecognized
    && (forall j :: 0 <= j < k ==> toks[j].term == toks'[j].term)
    && (forall j :: 0 <= j < k - 1 ==> StringDecodes(toks[j]))
  }

  lemma {:induction false} AlikeUpToTail(toks: seq<Token>, toks': seq<Token>, k: nat)
    requires AlikeUpTo(toks, toks', k) && k > 0
    ensures AlikeUpTo(toks[1..], toks'[1..], k - 1)
    ensures k > 1 ==> StringDecodes(toks[0])
  {
    hide LiteralText, StringDecodes;
    forall j | 0 <= j < k - 2 ensures StringDecodes(toks[1..][j]) {
      assert StringDecodes(toks[j + 1]);
    }
  }

  lemma {:induction false} AlikeUpToHead(toks: seq<Token>, toks': seq<Token>, k: nat)
    requires AlikeUpTo(toks, toks', k) && Stream(toks)
    ensures k == 0 ==> toks[0].term == Unrecognized
    ensures k > 0 ==> |toks| > 1 && toks' != [] && toks[0].term == toks'[0].term
    ensures k > 0 ==> toks[0].term !in {TEnd, Unrecognized}
  {
  }

  lemma {:induction false} FollowsToBreakdown(es: seq<Entry>, es': seq<Entry>, st: Stacks, st': Stacks,
                                              toks: seq<Token>, toks': seq<Token>, k: nat, strtod: bytes -> real)
    requires Valid(es) && Valid(es') && States(es) == States(es') && (k > 0 ==> StackDecodes(es))
    requires Stream(toks) && Stream(toks') && AlikeUpTo(toks, toks', k) && Drive(es', st', toks', strtod).Ok?
    ensures Drive(es, st, toks, strtod) == Err(UnrecognizedTerminal)
    decreases |toks|, |es|, Rank(Top(es).state)
  {
    hide LiteralText, Body, Head, Rank, ActionAt, GotoAt, AlikeUpTo, StackDecodes, Apply, Path;
    ValidHasTop(es);
    SameTop(es, es');
    AlikeUpToHead(toks, toks', k);
    if k > 0 {
      var t := toks[0].term;
      match ActionAt(Top(es).state, t)
      case NoAction => assert false;
      case Shift(s) =>
        AlikeUpToTail(toks, toks', k);
        ShiftGoesOn(es, toks);
        ShiftGoesOn(es', toks');
        if k > 1 {
          ShiftedDecodes(es, s, toks[0]);
        }
        SamePushed(es, es', Entry(s, toks[0].text), Entry(s, toks'[0].text));
        FollowsToBreakdown(es + [Entry(s, toks[0].text)], es' + [Entry(s, toks'[0].text)], st, st', toks[1..],
                           toks'[1..], k - 1, strtod);
      case Reduce(r) =>
        ReduceGoesOn(es, toks);
        ReduceGoesOn(es', toks');
        StringOnTop(Top(es).state, t);
        if r == 23 {
          TopDecodes(es);
        }
        SameReduced(es, es', r);
        ReducedDecodes(es, r);
        FollowsToBreakdown(Reduced(es, r), Reduced(es', r), Apply(r, Top(es).text, st, strtod),
                           Apply(r, Top(es').text, st', strtod), toks, toks', k, strtod);
    }
  }

  lemma {:induction false} ShiftedDecodes(es: seq<Entry>, s: nat, tok: Token)
    requires StackDecodes(es) && es != [] && StringDecodes(tok) && ActionAt(Top(es).state, tok.term) == Shift(s)
    ensures StackDecodes(es + [Entry(s, tok.text)])
  {
    hide LiteralText, ActionAt;
    TransEntersBySymbol(Top(es).state, T(tok.term));
  }

  lemma {:induction false} BreakdownMeansViable(text: bytes, st: Stacks, strtod: bytes -> real)
    requires Parsed(text, st, strtod) == Err(UnrecognizedTerminal)
    ensures BreaksDown(Tokens(text))
  {
    hide Tokens, Valid, Forest, LiteralText, NoneEscaped, StringsAreLiterals, Viable, ActionAt, GotoAt, Drive;
    hide YieldAll, EffAll;
    var toks := Tokens(text);
    TokensAreStream(text);
    StringTokensAreLiterals(text);
    StartIsValid();
    StartIsForest(st, toks, strtod);
    var es, ds, rest := BreakdownReached(START, [], st, toks, strtod);
    var n := |toks| - 1;
    RestIsLast(YieldAll(ds), rest, toks);
    RunningIsViable(es, ds);
    if n > 0 {
      NoneEscapedConcat(toks[..n], rest);
      RunningIsDecoded(es, ds, toks[..n]);
      assert toks[..n][..n - 1] == toks[..n - 1];
    }
  }

  lemma {:induction false} RestIsLast(read: seq<Token>, rest: seq<Token>, toks: seq<Token>)
    requires Stream(rest) && rest[0].term == Unrecognized && read + rest == toks
    ensures |toks| > 0 && read == toks[..|toks| - 1] && toks[|toks| - 1].term == Unrecognized && toks == read + rest
  {
    assert |rest| == 1;
    assert toks[|toks| - 1] == rest[0];
  }

  lemma {:induction false} ViableMeansBreakdown(text: bytes, st: Stacks, strtod: bytes -> real)
    requires BreaksDown(Tokens(text))
    ensures Parsed(text, st, strtod) == Err(UnrecognizedTerminal)
  {
    hide Tokens, Drive, LiteralText, IsStringLiteral, EscapedSlash, Valid, Derives, Decodable;
    var toks := Tokens(text);
    var n := |toks| - 1;
    TokensAreStream(text);
    StringTokensAreLiterals(text);
    var d :| Is(d, Doc) && BeginsLike(Yield(d), toks[..n]);
    HealedDecodes(d);
    HealedYield(d);
    DocumentAccepted(Healed(d), st, strtod);
    StartIsForest(st, toks, strtod);
    UpToDocument(toks, Yield(d), Yield(Healed(d)));
    FollowsToBreakdown(START, START, st, st, toks, Yield(Healed(d)), n, strtod);
  }

  lemma {:induction false} UpToDocument(toks: seq<Token>, all: seq<Token>, healed: seq<Token>)
    requires BreaksDown(toks) && StringsAreLiterals(toks)
    requires BeginsLike(all, toks[..|toks| - 1]) && SameTerms(healed, all)
    ensures AlikeUpTo(toks, healed, |toks| - 1)
  {
    hide LiteralText, IsStringLiteral, Viable, EscapedSlash;
    var k := |toks| - 1;
    forall j | 0 <= j < k ensures toks[j].term == healed[j].term {
      assert toks[..k][j] == toks[j];
    }
    forall j | 0 <= j < k - 1 ensures StringDecodes(toks[j]) {
      assert toks[..k - 1][j] == toks[j];
      if toks[j].term == TString {
        LiteralDecodes(toks[j]);
      }
    }
  }

  ghost predicate IsDocument(toks: seq<Token>) {
    exists d :: Is(d, Doc) && Yield(d) == toks
  }

  /** Every outcome by a condition on the tokens alone; what meets none of the three is a syntax error. */
  lemma {:induction false} OutcomeExactly(text: bytes, st: Stacks, strtod: bytes -> real)
    ensures var toks, r := Tokens(text), Parsed(text, st, strtod);
            && (r.Ok? <==> NoneEscaped(toks) && IsDocument(toks))
            && (r == Err(DecoderAssertion) <==> exists i :: AbortsAt(toks, i))
            && (r == Err(UnrecognizedTerminal) <==> BreaksDown(toks))
            && (r == Err(InvalidSyntax) <==>
                  && !(NoneEscaped(toks) && IsDocument(toks))
                  && !(exists i :: AbortsAt(toks, i)) && !BreaksDown(toks))
  {
    hide Tokens, Parsed, AbortsAt, BreaksDown, NoneEscaped, Derives;
    AcceptedExactly(text, st, strtod);
    AbortsExactly(text, st, strtod);
    if Parsed(text, st, strtod) == Err(UnrecognizedTerminal) {
      BreakdownMeansViable(text, st, strtod);
    }
    if BreaksDown(Tokens(text)) {
      ViableMeansBreakdown(text, st, strtod);
    }
    match Parsed(text, st, strtod)
    case Ok(_) =>
    case Err(UnrecognizedTerminal) =>
    case Err(InvalidSyntax) =>
    case Err(DecoderAssertion) =>
  }

  // --- The lookahead is not the string's own ---

  /** The text `{"\/",`, which no document begins with. */
  const COMMA_TEXT: bytes := [123] + (SLASH_LITERAL + [44])

  lemma {:induction false} TokensOfCommaText()
    ensures Tokens(COMMA_TEXT) ==
            [Token(TLBrace, [123]), Token(TString, SLASH_LITERAL), Token(TComma, [44]), Token(TEnd, [])]
  {
    hide Tokens, StringBody;
    SlashIsEscaped();
    EndOfText();
    LexInContext(TComma, [44], []);
    assert [44] + [] == [44];
    LexInContext(TString, SLASH_LITERAL, [44]);
    LexInContext(TLBrace, [123], SLASH_LITERAL + [44]);
  }

  /** No document has a comma after its first string. */
  lemma {:induction false} NoCommaAfterKey(toks: seq<Token>)
    requires |toks| >= 3 && toks[0].term == TLBrace && toks[1].term == TString && toks[2].term == TComma
    ensures !Viable(toks)
  {
    hide Derives, Decodable, Drive, LiteralText, Path, Apply;
    if d :| Is(d, Doc) && BeginsLike(Yield(d), toks) {
      HealedDecodes(d);
      HealedYield(d);
      var y, st := Yield(Healed(d)), EMPTY_STACKS;
      DocumentAccepted(Healed(d), st, t => 0.0);
      ObjectOpens(st, y, t => 0.0);
      KeyThenComma(START + [Entry(4, [])], Apply(5, y[0].text, st, t => 0.0), y[1..], t => 0.0);
    }
  }

  lemma {:induction false} KeyThenComma(es: seq<Entry>, st: Stacks, toks: seq<Token>, strtod: bytes -> real)
    requires Valid(es) && Top(es).state == 4 && Stream(toks) && |toks| > 1
    requires toks[0].term == TString && toks[1].term == TComma
    ensures Drive(es, st, toks, strtod).Err?
  {
    hide LiteralText, Drive, Apply, Path;
    ValidHasTop(es);
    StreamTail(toks);
    assert toks == [toks[0]] + toks[1..];
    DriveShifts(es, st, toks[0], toks[1..], strtod);
    var es' := es + [Entry(11, toks[0].text)];
    if LiteralText(toks[0].text).None? {
      DecoderStops(es', st, toks[1..], strtod);
    } else {
      DriveReduces(es', st, toks[1..], strtod);
      assert es'[..|es'| - 1] == es;
      StuckAtKey(Reduced(es', 23), Apply(23, toks[0].text, st, strtod), toks[1..], strtod);
    }
  }

  lemma {:induction false} StuckAtKey(es: seq<Entry>, st: Stacks, toks: seq<Token>, strtod: bytes -> real)
    requires Valid(es) && Stream(toks) && Top(es).state == 10 && toks[0].term == TComma
    ensures Drive(es, st, toks, strtod).Err?
  {
  }

  /** Though no document begins with `{"\/",`, the assertion comes before the syntax error. */
  lemma {:induction false} CommaTextAborts(st: Stacks, strtod: bytes -> real)
    ensures Parsed(COMMA_TEXT, st, strtod) == Err(DecoderAssertion)
    ensures |Tokens(COMMA_TEXT)| == 4 && !Viable(Tokens(COMMA_TEXT)[..3])
  {
    hide Tokens, Viable, Drive, LiteralText, Path, Apply;
    TokensOfCommaText();
    SlashIsEscaped();
    var toks := Tokens(COMMA_TEXT);
    TokensAreStream(COMMA_TEXT);
    NoCommaAfterKey(toks[..3]);
    ObjectOpens(st, toks, strtod);
    StringIsReduced(START + [Entry(4, [])], Apply(5, [123], st, strtod), toks[1..], strtod);
  }
}

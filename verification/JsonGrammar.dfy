/**
 * Derivation trees of the JSON grammar, the values they denote, and the effect that the semantic actions,
 * replayed bottom-up over a tree, have on the four value stacks.
 */
module JsonGrammar {
  import opened Base
  import opened Values
  import opened Containers
  import opened JsonStrings
  import opened JsonNumbers
  import opened JsonTables

  /** A terminal with the text it was recognized from. */
  datatype Token = Token(term: Terminal, text: bytes)

  datatype Deriv = Leaf(tok: Token) | Node(rule: nat, kids: seq<Deriv>)

  function Sym(d: Deriv): Symbol
    requires d.Node? ==> 1 <= d.rule < RULES
  {
    match d
    case Leaf(tok) => T(tok.term)
    case Node(r, _) => N(Head(r))
  }

  /** Every node of the tree is an instance of one of the rules 1..23. */
  ghost predicate Derives(d: Deriv) {
    match d
    case Leaf(_) => true
    case Node(r, kids) =>
      && 1 <= r < RULES && |kids| == |Body(r)|
      && forall i :: 0 <= i < |kids| ==> Derives(kids[i]) && Sym(kids[i]) == Body(r)[i]
  }

  /** The tokens at the leaves, from left to right. */
  function Yield(d: Deriv): seq<Token>
    decreases d, 0
  {
    match d
    case Leaf(tok) => [tok]
    case Node(_, kids) => YieldAll(kids)
  }

  function YieldAll(ds: seq<Deriv>): seq<Token>
    decreases ds
  {
    if ds == [] then [] else Yield(ds[0]) + YieldAll(ds[1..])
  }

  // --- What a tree denotes ---

  /** The text of a string literal, `None` where decoding runs into an assertion. */
  function LiteralText(text: bytes): Option<bytes> {
    if |text| < 2 then None else Unescape(text[1..|text| - 1])
  }

  function LiteralValue(text: bytes): Value {
    match LiteralText(text)
    case None => Str([])
    case Some(s) => Str(s)
  }

  /** No string literal of the tree makes the decoder fail. */
  ghost predicate Decodable(d: Deriv)
    requires Derives(d)
  {
    match d
    case Leaf(_) => true
    case Node(r, kids) =>
      && (r == 23 ==> LiteralText(kids[0].tok.text).Some?)
      && forall i :: 0 <= i < |kids| ==> Decodable(kids[i])
  }

  ghost predicate Is(d: Deriv, n: Nonterminal) {
    Derives(d) && Sym(d) == N(n)
  }

  /** `strtod` is a parameter: the text of a float is not interpreted. */
  ghost function ValueOf(d: Deriv, strtod: bytes -> real): Value
    requires Is(d, Val)
    decreases d
  {
    var k := d.kids[0];
    if d.rule == 15 then StringOf(k)
    else if d.rule == 16 then Int(Strtoll(k.tok.text))
    else if d.rule == 17 then Float(strtod(k.tok.text))
    else if d.rule == 18 then ObjectOf(k, strtod)
    else if d.rule == 19 then ArrayOf(k, strtod)
    else if d.rule == 20 then Bool(true)
    else if d.rule == 21 then Bool(false)
    else Blank
  }

  ghost function StringOf(d: Deriv): Value
    requires Is(d, String)
  {
    LiteralValue(d.kids[0].tok.text)
  }

  ghost function ObjectOf(d: Deriv, strtod: bytes -> real): Value
    requires Is(d, Object)
    decreases d
  {
    BodyOf(d.kids[0], strtod)
  }

  /** An object is the dictionary of its pairs, inserted from left to right. */
  ghost function BodyOf(d: Deriv, strtod: bytes -> real): Value
    requires Is(d, ObjectBody)
    decreases d
  {
    if d.rule == 3 then Dict([]) else Dict(DictOf(PairsOf(d.kids[1], strtod)))
  }

  ghost function PairsOf(d: Deriv, strtod: bytes -> real): seq<Pair>
    requires Is(d, Pairs)
    decreases d
  {
    if d.rule == 6 then PairsOf(d.kids[0], strtod) + [PairOf(d.kids[2], strtod)] else [PairOf(d.kids[0], strtod)]
  }

  ghost function PairOf(d: Deriv, strtod: bytes -> real): Pair
    requires Is(d, PairItem)
    decreases d
  {
    Pair(StringOf(d.kids[0]), ValueOf(d.kids[2], strtod))
  }

  ghost function ArrayOf(d: Deriv, strtod: bytes -> real): Value
    requires Is(d, Arr)
    decreases d
  {
    ArrayBodyOf(d.kids[0], strtod)
  }

  ghost function ArrayBodyOf(d: Deriv, strtod: bytes -> real): Value
    requires Is(d, ArrBody)
    decreases d
  {
    if d.rule == 10 then Array([]) else Array(ItemsOf(d.kids[1], strtod))
  }

  ghost function ItemsOf(d: Deriv, strtod: bytes -> real): seq<Value>
    requires Is(d, Items)
    decreases d
  {
    if d.rule == 13 then ItemsOf(d.kids[0], strtod) + [ValueOf(d.kids[2], strtod)] else [ValueOf(d.kids[0], strtod)]
  }

  // --- The semantic actions ---

  /** The value stacks `m_strings`, `m_values`, `m_arrays` and `m_objects`, top last. */
  datatype Stacks = Stacks(strings: seq<Value>, values: seq<Value>, arrays: seq<Value>, objects: seq<Value>)

  const EMPTY_STACKS := Stacks([], [], [], [])

  function Back(xs: seq<Value>): Value
    requires xs != []
  {
    xs[|xs| - 1]
  }

  function PopBack(xs: seq<Value>): seq<Value>
    requires xs != []
  {
    xs[..|xs| - 1]
  }

  /** The operands of the action of rule `r` are there: no `back` or `pop_back` meets an empty stack. */
  predicate CanAct(r: nat, st: Stacks) {
    (r == 8 ==> st.strings != [] && st.values != [] && st.objects != [] && Back(st.objects).Dict?) &&
    (r == 13 || r == 14 ==> st.values != [] && st.arrays != [] && Back(st.arrays).Array?) &&
    (r == 15 ==> st.strings != []) &&
    (r == 18 ==> st.objects != []) &&
    (r == 19 ==> st.arrays != [])
  }

  /** The action assigned to rule `r`; `text` is the source text of the top stack element. */
  function Act(r: nat, text: bytes, st: Stacks, strtod: bytes -> real): Stacks
    requires CanAct(r, st)
  {
    if r == 5 then st.(objects := st.objects + [Dict([])])
    else if r == 8 then
      var o := Back(st.objects);
      Stacks(PopBack(st.strings), PopBack(st.values), st.arrays,
             PopBack(st.objects) + [Dict(DictInsert(o.pairs, Back(st.strings), Back(st.values)))])
    else if r == 12 then st.(arrays := st.arrays + [Array([])])
    else if r == 13 || r == 14 then
      var a := Back(st.arrays);
      st.(values := PopBack(st.values), arrays := PopBack(st.arrays) + [Array(a.items + [Back(st.values)])])
    else if r == 15 then st.(values := st.values + [Back(st.strings)], strings := PopBack(st.strings))
    else if r == 16 then st.(values := st.values + [Int(Strtoll(text))])
    else if r == 17 then st.(values := st.values + [Float(strtod(text))])
    else if r == 18 then st.(values := st.values + [Back(st.objects)], objects := PopBack(st.objects))
    else if r == 19 then st.(values := st.values + [Back(st.arrays)], arrays := PopBack(st.arrays))
    else if r == 20 then st.(values := st.values + [Bool(true)])
    else if r == 21 then st.(values := st.values + [Bool(false)])
    else if r == 22 then st.(values := st.values + [Blank])
    else if r == 23 then st.(strings := st.strings + [LiteralValue(text)])
    else st
  }

  /** `Act` where its operands are there. `TreeEffect` and `SizesKept` show that they always are. */
  function Apply(r: nat, text: bytes, st: Stacks, strtod: bytes -> real): Stacks {
    if CanAct(r, st) then Act(r, text, st, strtod) else st
  }

  function TextOf(d: Deriv): bytes {
    if d.Leaf? then d.tok.text else []
  }

  /** The actions of all nodes of a tree, in the order a bottom-up parser calls them. */
  function Eff(d: Deriv, st: Stacks, strtod: bytes -> real): Stacks
    decreases d, 0
  {
    match d
    case Leaf(_) => st
    case Node(r, kids) =>
      if kids == [] then st
      else Apply(r, TextOf(kids[|kids| - 1]), EffAll(kids, st, strtod), strtod)
  }

  function EffAll(ds: seq<Deriv>, st: Stacks, strtod: bytes -> real): Stacks
    decreases ds
  {
    if ds == [] then st else EffAll(ds[1..], Eff(ds[0], st, strtod), strtod)
  }

  // --- The four stacks agree with the recursive meaning ---

  lemma {:induction false} UnfoldKids(d: Deriv, st: Stacks, strtod: bytes -> real)
    requires Derives(d) && d.Node?
    ensures |d.kids| == 1 ==> Eff(d, st, strtod) ==
                              Apply(d.rule, TextOf(d.kids[0]), Eff(d.kids[0], st, strtod), strtod)
    ensures |d.kids| == 2 ==> Eff(d, st, strtod) ==
                              Apply(d.rule, TextOf(d.kids[1]),
                                    Eff(d.kids[1], Eff(d.kids[0], st, strtod), strtod), strtod)
    ensures |d.kids| == 3 ==> Eff(d, st, strtod) ==
                              Apply(d.rule, TextOf(d.kids[2]),
                                    Eff(d.kids[2], Eff(d.kids[1], Eff(d.kids[0], st, strtod), strtod), strtod), strtod)
  {
    var s0 := Eff(d.kids[0], st, strtod);
    assert EffAll(d.kids, st, strtod) == EffAll(d.kids[1..], s0, strtod);
    if |d.kids| == 1 {
      assert d.kids[1..] == [];
    } else {
      var s1 := Eff(d.kids[1], s0, strtod);
      assert d.kids[1..][1..] == d.kids[2..];
      assert EffAll(d.kids[1..], s0, strtod) == EffAll(d.kids[2..], s1, strtod);
      if |d.kids| == 2 {
        assert d.kids[2..] == [];
      } else {
        assert d.kids[2..][1..] == [];
        assert EffAll(d.kids[2..], s1, strtod) == EffAll(d.kids[2..][1..], Eff(d.kids[2], s1, strtod), strtod);
      }
    }
  }

  /** The rules without an action. */
  predicate NullRule(r: nat) {
    r in {1, 2, 3, 4, 6, 7, 9, 10, 11}
  }

  lemma NullAction(r: nat, text: bytes, st: Stacks, strtod: bytes -> real)
    requires NullRule(r)
    ensures Apply(r, text, st, strtod) == st
  {
  }

  /*
   * Replaying the actions of a tree pushes exactly its value on one stack and leaves the other three alone;
   * a list of pairs or items goes into the fresh container on top.
   */

  lemma {:induction false} StringEffect(d: Deriv, st: Stacks, strtod: bytes -> real)
    requires Is(d, String)
    ensures Eff(d, st, strtod) == st.(strings := st.strings + [StringOf(d)])
  {
    UnfoldKids(d, st, strtod);
    assert Sym(d.kids[0]) == T(TString);
  }

  lemma {:induction false} ValueEffect(d: Deriv, st: Stacks, strtod: bytes -> real)
    requires Is(d, Val)
    ensures Eff(d, st, strtod) == st.(values := st.values + [ValueOf(d, strtod)])
    decreases d
  {
    hide ObjectOf, ArrayOf;
    UnfoldKids(d, st, strtod);
    var k := d.kids[0];
    assert Derives(k) && Sym(k) == Body(d.rule)[0];
    if d.rule == 15 {
      StringEffect(k, st, strtod);
    } else if d.rule == 18 {
      ObjectEffect(k, st, strtod);
    } else if d.rule == 19 {
      ArrayEffect(k, st, strtod);
    }
  }

  lemma {:induction false} ObjectEffect(d: Deriv, st: Stacks, strtod: bytes -> real)
    requires Is(d, Object)
    ensures Eff(d, st, strtod) == st.(objects := st.objects + [ObjectOf(d, strtod)])
    decreases d
  {
    UnfoldKids(d, st, strtod);
    assert Is(d.kids[0], ObjectBody) && Sym(d.kids[1]) == T(TRBrace);
    ObjectBodyEffect(d.kids[0], st, strtod);
  }

  lemma {:induction false} ObjectBeginEffect(d: Deriv, st: Stacks, strtod: bytes -> real)
    requires Is(d, ObjectBegin)
    ensures Eff(d, st, strtod) == st.(objects := st.objects + [Dict([])])
  {
    UnfoldKids(d, st, strtod);
    assert Sym(d.kids[0]) == T(TLBrace);
  }

  lemma {:induction false} ObjectBodyEffect(d: Deriv, st: Stacks, strtod: bytes -> real)
    requires Is(d, ObjectBody)
    ensures Eff(d, st, strtod) == st.(objects := st.objects + [BodyOf(d, strtod)])
    decreases d
  {
    hide DictOf, PairsOf, Eff;
    UnfoldKids(d, st, strtod);
    assert Is(d.kids[0], ObjectBegin);
    ObjectBeginEffect(d.kids[0], st, strtod);
    if d.rule == 4 {
      assert Is(d.kids[1], Pairs);
      var st' := st.(objects := st.objects + [Dict([])]);
      assert PopBack(st'.objects) == st.objects;
      PairsEffect(d.kids[1], st', strtod);
    }
  }

  function WithObject(st: Stacks, ps: seq<Pair>): Stacks
    requires st.objects != []
  {
    st.(objects := PopBack(st.objects) + [Dict(ps)])
  }

  lemma {:induction false} NextPair(st: Stacks, ps: seq<Pair>, p: Pair)
    requires st.objects != []
    ensures var st' := WithObject(st, DictOf(ps));
            && Back(st'.objects) == Dict(DictOf(ps))
            && WithObject(st', DictInsert(DictOf(ps), p.key, p.val)) == WithObject(st, DictOf(ps + [p]))
  {
    DictOfAppend(ps, p);
  }

  lemma {:induction false} PairsEffect(d: Deriv, st: Stacks, strtod: bytes -> real)
    requires Is(d, Pairs)
    requires st.objects != [] && Back(st.objects) == Dict([])
    ensures Eff(d, st, strtod) == WithObject(st, DictOf(PairsOf(d, strtod)))
    decreases d
  {
    UnfoldKids(d, st, strtod);
    if d.rule == 6 {
      var rest, p := d.kids[0], d.kids[2];
      assert Is(rest, Pairs) && Sym(d.kids[1]) == T(TComma) && Is(p, PairItem);
      PairsEffect(rest, st, strtod);
      NextPair(st, PairsOf(rest, strtod), PairOf(p, strtod));
      var st' := Eff(rest, st, strtod);
      PairEffect(p, st', strtod);
      NullAction(6, TextOf(p), Eff(p, st', strtod), strtod);
    } else {
      var p := d.kids[0];
      assert Is(p, PairItem);
      PairEffect(p, st, strtod);
      NullAction(7, TextOf(p), Eff(p, st, strtod), strtod);
      DictOfAppend([], PairOf(p, strtod));
      assert PairsOf(d, strtod) == [] + [PairOf(p, strtod)];
    }
  }

  lemma {:induction false} PairEffect(d: Deriv, st: Stacks, strtod: bytes -> real)
    requires Is(d, PairItem)
    requires st.objects != [] && Back(st.objects).Dict?
    ensures var p := PairOf(d, strtod);
            Eff(d, st, strtod) == WithObject(st, DictInsert(Back(st.objects).pairs, p.key, p.val))
    decreases d
  {
    UnfoldKids(d, st, strtod);
    var k, v := d.kids[0], d.kids[2];
    assert Is(k, String) && Sym(d.kids[1]) == T(TColon) && Is(v, Val);
    StringEffect(k, st, strtod);
    ValueEffect(v, Eff(k, st, strtod), strtod);
  }

  lemma {:induction false} ArrayEffect(d: Deriv, st: Stacks, strtod: bytes -> real)
    requires Is(d, Arr)
    ensures Eff(d, st, strtod) == st.(arrays := st.arrays + [ArrayOf(d, strtod)])
    decreases d
  {
    UnfoldKids(d, st, strtod);
    assert Is(d.kids[0], ArrBody) && Sym(d.kids[1]) == T(TRBracket);
    ArrayBodyEffect(d.kids[0], st, strtod);
  }

  lemma {:induction false} ArrayBeginEffect(d: Deriv, st: Stacks, strtod: bytes -> real)
    requires Is(d, ArrBegin)
    ensures Eff(d, st, strtod) == st.(arrays := st.arrays + [Array([])])
  {
    UnfoldKids(d, st, strtod);
    assert Sym(d.kids[0]) == T(TLBracket);
  }

  lemma {:induction false} ArrayBodyEffect(d: Deriv, st: Stacks, strtod: bytes -> real)
    requires Is(d, ArrBody)
    ensures Eff(d, st, strtod) == st.(arrays := st.arrays + [ArrayBodyOf(d, strtod)])
    decreases d
  {
    UnfoldKids(d, st, strtod);
    assert Is(d.kids[0], ArrBegin);
    ArrayBeginEffect(d.kids[0], st, strtod);
    if d.rule == 11 {
      assert Is(d.kids[1], Items);
      ItemsEffect(d.kids[1], Eff(d.kids[0], st, strtod), strtod);
    }
  }

  function WithArray(st: Stacks, xs: seq<Value>): Stacks
    requires st.arrays != []
  {
    st.(arrays := PopBack(st.arrays) + [Array(xs)])
  }

  lemma {:induction false} ItemAction(r: nat, text: bytes, st: Stacks, xs: seq<Value>, x: Value, strtod: bytes -> real)
    requires r == 13 || r == 14
    requires st.arrays != [] && Back(st.arrays) == Array(xs)
    ensures Apply(r, text, st.(values := st.values + [x]), strtod) == WithArray(st, xs + [x])
  {
    assert PopBack(st.values + [x]) == st.values;
  }

  lemma {:induction false} ItemsEffect(d: Deriv, st: Stacks, strtod: bytes -> real)
    requires Is(d, Items)
    requires st.arrays != [] && Back(st.arrays) == Array([])
    ensures Eff(d, st, strtod) == WithArray(st, ItemsOf(d, strtod))
    decreases d
  {
    UnfoldKids(d, st, strtod);
    if d.rule == 13 {
      var rest, v := d.kids[0], d.kids[2];
      assert Is(rest, Items) && Sym(d.kids[1]) == T(TComma) && Is(v, Val);
      ItemsEffect(rest, st, strtod);
      var st' := Eff(rest, st, strtod);
      ValueEffect(v, st', strtod);
      ItemAction(13, TextOf(v), st', ItemsOf(rest, strtod), ValueOf(v, strtod), strtod);
      assert PopBack(st'.arrays) == PopBack(st.arrays);
    } else {
      var v := d.kids[0];
      assert Is(v, Val);
      ValueEffect(v, st, strtod);
      ItemAction(14, TextOf(v), st, [], ValueOf(v, strtod), strtod);
      assert [] + [ValueOf(v, strtod)] == ItemsOf(d, strtod);
    }
  }
}

/** The finite value behind a location, and what copying and later writes do to it. */
module HeapValues {
  import opened Values
  import opened Order
  import opened Containers
  import opened RefCounts

  predicate HasSlots(v: Value) {
    v.Array? || v.Set? || v.List? || v.Dict?
  }

  function KindOf(v: Value): Kind
    requires HasSlots(v)
  {
    match v
    case Array(_) => KArray
    case Set(_) => KSet
    case List(_) => KList
    case Dict(_) => KDict
  }

  /** The key and the value of a pair take two slots. */
  function Side(ps: seq<Pair>, i: nat): (r: Value)
    requires i < 2 * |ps|
    ensures r < ps[i / 2] && ps[i / 2] in ps
  {
    if i % 2 == 0 then ps[i / 2].key else ps[i / 2].val
  }

  /** The values a container holds handles to, in slot order. */
  function Children(v: Value): seq<Value>
    requires HasSlots(v)
  {
    match v
    case Dict(ps) => seq(2 * |ps|, i requires 0 <= i < 2 * |ps| => Side(ps, i))
    case _ => v.items
  }

  lemma {:induction false} ChildIsSmaller(v: Value, i: nat)
    requires HasSlots(v) && i < |Children(v)|
    ensures Children(v)[i] < v
  {
  }

  lemma {:induction false} ChildrenDetermine(v: Value, w: Value)
    requires HasSlots(v) && HasSlots(w) && KindOf(v) == KindOf(w) && Children(v) == Children(w)
    ensures v == w
  {
    if v.Dict? {
      forall i | 0 <= i < |v.pairs| ensures v.pairs[i] == w.pairs[i] {
        assert Children(v)[2 * i] == Children(w)[2 * i];
        assert Children(v)[2 * i + 1] == Children(w)[2 * i + 1];
      }
      assert v.pairs == w.pairs;
    }
  }

  /** `l` holds the value `v`, in live locations, with every container among them at `base` or later. */
  ghost predicate Shows(cells: seq<Cell>, base: Loc, l: Loc, v: Value)
    decreases v
  {
    && Live(cells, l)
    && if HasSlots(v) then
         && base <= l && cells[l].node.Container? && cells[l].node.kind == KindOf(v)
         && |cells[l].node.slots| == |Children(v)|
         && forall i :: 0 <= i < |Children(v)| ==>
                        (ChildIsSmaller(v, i);
                         Shows(cells, base, cells[l].node.slots[i], Children(v)[i]))
       else cells[l].node == Scalar(v)
  }

  lemma {:induction false} ShowsScalar(cells: seq<Cell>, base: Loc, l: Loc, v: Value)
    requires Live(cells, l)
    ensures cells[l].node.Scalar? ==> (Shows(cells, base, l, v) <==> !HasSlots(v) && cells[l].node == Scalar(v))
  {
  }

  lemma {:induction false} ShowsChild(cells: seq<Cell>, base: Loc, l: Loc, v: Value, i: nat)
    requires Shows(cells, base, l, v) && HasSlots(v) && i < |Children(v)|
    ensures i < |Slots(cells[l])| && Shows(cells, base, Slots(cells[l])[i], Children(v)[i])
  {
    ChildIsSmaller(v, i);
  }

  lemma {:induction false} ShowsContainer(cells: seq<Cell>, base: Loc, l: Loc, v: Value)
    requires Shows(cells, base, l, v) && cells[l].node.Container?
    ensures HasSlots(v) && cells[l].node.kind == KindOf(v) && |Slots(cells[l])| == |Children(v)|
  {
  }

  lemma {:induction false} ShowsLive(cells: seq<Cell>, base: Loc, l: Loc, v: Value)
    requires Shows(cells, base, l, v)
    ensures Live(cells, l)
  {
  }

  /** A location holds at most one finite value. */
  lemma {:induction false} ShowsUnique(cells: seq<Cell>, l: Loc, v: Value, w: Value)
    requires Shows(cells, 0, l, v) && Shows(cells, 0, l, w)
    ensures v == w
    decreases v
  {
    if HasSlots(v) {
      forall i | 0 <= i < |Children(v)| ensures Children(v)[i] == Children(w)[i] {
        ChildIsSmaller(v, i);
        ShowsUnique(cells, cells[l].node.slots[i], Children(v)[i], Children(w)[i]);
      }
      ChildrenDetermine(v, w);
    }
  }

  /** The data without handles, and the containers from `base` on, are still there and the same. */
  ghost predicate KeptFrom(base: Loc, before: seq<Cell>, after: seq<Cell>) {
    forall l: Loc :: Live(before, l) && (before[l].node.Scalar? || base <= l) ==>
                       Live(after, l) && after[l].node == before[l].node
  }

  lemma {:induction false} ShowsKept(before: seq<Cell>, after: seq<Cell>, base: Loc, l: Loc, v: Value)
    requires Shows(before, base, l, v) && KeptFrom(base, before, after)
    ensures Shows(after, base, l, v)
    decreases v
  {
    if HasSlots(v) {
      forall i | 0 <= i < |Children(v)| ensures Shows(after, base, after[l].node.slots[i], Children(v)[i]) {
        ChildIsSmaller(v, i);
        ShowsKept(before, after, base, before[l].node.slots[i], Children(v)[i]);
      }
    }
  }

  lemma {:induction false} ShowsLower(cells: seq<Cell>, base: Loc, lower: Loc, l: Loc, v: Value)
    requires Shows(cells, base, l, v) && lower <= base
    ensures Shows(cells, lower, l, v)
    decreases v
  {
    if HasSlots(v) {
      forall i | 0 <= i < |Children(v)| ensures Shows(cells, lower, cells[l].node.slots[i], Children(v)[i]) {
        ChildIsSmaller(v, i);
        ShowsLower(cells, base, lower, cells[l].node.slots[i], Children(v)[i]);
      }
    }
  }

  /** The old locations keep their data and stay live or freed; only counts and new locations differ. */
  ghost predicate Extends(before: seq<Cell>, after: seq<Cell>) {
    && |before| <= |after|
    && forall l :: 0 <= l < |before| ==> after[l].live == before[l].live && after[l].node == before[l].node
  }

  /** The positions between the slots that order a container: one by one, or from key to key. */
  function Stride(v: Value): nat
    requires HasSlots(v)
  {
    if v.Dict? then 2 else 1
  }

  /** In a set or dictionary in order, a member or key is greater than all before it. */
  lemma {:induction false} OrderedBefore(v: Value, j: nat, k: nat)
    requires (v.Set? || v.Dict?) && Ordered(v) && j < k < |Children(v)| && j % Stride(v) == 0 && k % Stride(v) == 0
    ensures Compare(Children(v)[j], Children(v)[k]) < 0
  {
    hide Compare, AllOrdered, AllPairsOrdered, SortedPairs;
    if v.Dict? {
      KeyBefore(v.pairs, j, k);
    }
  }

  lemma {:induction false} KeyBefore(ps: seq<Pair>, j: nat, k: nat)
    requires SortedPairs(ps) && j < k < 2 * |ps| && j % 2 == 0 && k % 2 == 0
    ensures Compare(Side(ps, j), Side(ps, k)) < 0
  {
    hide Compare;
    assert j / 2 < k / 2;
  }

  /** The value with the given children. */
  function Assembled(kind: Kind, kids: seq<Value>): Value {
    match kind
    case KArray => Array(kids)
    case KSet => Set(kids)
    case KList => List(kids)
    case KDict => Dict(seq(|kids| / 2, i requires 0 <= i < |kids| / 2 => Pair(kids[2 * i], kids[2 * i + 1])))
  }

  lemma {:induction false} AssembledFromChildren(v: Value)
    requires HasSlots(v)
    ensures Assembled(KindOf(v), Children(v)) == v
  {
    if v.Dict? {
      var ps := Assembled(KDict, Children(v)).pairs;
      assert |ps| == |v.pairs|;
      forall i | 0 <= i < |ps| ensures ps[i] == v.pairs[i] {
        assert Children(v)[2 * i] == v.pairs[i].key && Children(v)[2 * i + 1] == v.pairs[i].val;
      }
      assert ps == v.pairs;
    }
  }

  lemma {:induction false} OrderedItem(xs: seq<Value>, i: nat)
    requires AllOrdered(xs) && i < |xs|
    ensures Ordered(xs[i])
  {
    if i > 0 {
      OrderedItem(xs[1..], i - 1);
    }
  }

  lemma {:induction false} OrderedPair(ps: seq<Pair>, i: nat)
    requires AllPairsOrdered(ps) && i < |ps|
    ensures PairOrdered(ps[i])
  {
    if i > 0 {
      OrderedPair(ps[1..], i - 1);
    }
  }

  lemma {:induction false} OrderedChild(v: Value, i: nat)
    requires HasSlots(v) && Ordered(v) && i < |Children(v)|
    ensures Ordered(Children(v)[i])
  {
    if v.Dict? {
      OrderedPair(v.pairs, i / 2);
    } else {
      OrderedItem(v.items, i);
    }
  }
}

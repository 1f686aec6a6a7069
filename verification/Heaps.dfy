/** The heap of locations as the class keeps it: counts updated in place, freed by the last `unref`. */
module Heaps {
  import opened Base
  import opened Values
  import opened Order
  import opened Containers
  import opened RefCounts
  import opened Handles
  import opened Runs
  import opened HeapValues
  import opened CopySteps

  class Heap {
    var cells: seq<Cell>
    var vars: seq<Option<Loc>>
    /** `m_str_map`, as the variables that hold its handles. */
    var interned: map<bytes, nat>

    function Now(): State
      reads this
    {
      State(cells, vars, interned)
    }

    constructor ()
      ensures Now() == START && Inv(Now())
    {
      cells, vars, interned := [], [], map[];
      StartKeeps();
    }

    /** `loc_c::ref`. */
    method Ref(l: Loc)
      requires Live(cells, l)
      modifies this`cells
      ensures cells == Raised(old(cells), l)
    {
      cells := cells[l := cells[l].(count := cells[l].count + 1)];
    }

    /** `loc_c::unref` and `~loc_c`: the last handle frees the location and drops the handles stored in it. */
    method Unref(l: Loc)
      requires Releasable(cells, l)
      modifies this`cells
      ensures cells == Release(old(cells), l)
      decreases LiveCount(cells)
    {
      if cells[l].count > 1 {
        cells := cells[l := cells[l].(count := cells[l].count - 1)];
      } else {
        LiveCountUpdate(cells, l, FREED);
        var slots := Slots(cells[l]);
        cells := cells[l := FREED];
        var i := 0;
        while i < |slots|
          invariant i <= |slots|
          invariant ReleasableAll(cells, slots[i..]) && ReleaseAll(cells, slots[i..]) == Release(old(cells), l)
          invariant LiveCount(cells) < old(LiveCount(cells))
        {
          assert slots[i..][1..] == slots[i + 1..];
          Unref(slots[i]);
          i := i + 1;
        }
      }
    }

    /** `var_c(...)`: a variable with a handle to a new location. */
    method Create(node: Node) returns (i: nat)
      requires Inv(Now()) && Allowed(Now(), Op.Create(node))
      modifies this`cells, this`vars
      ensures Step(old(Now()), Op.Create(node)) == Some(Now()) && Inv(Now())
      ensures i == old(|vars|) && Exists(Now(), Var(i)) && At(Now(), Var(i)) == old(|cells|)
    {
      StepKeeps(Now(), Op.Create(node));
      i := |vars|;
      cells, vars := cells + [Cell(true, 1, node)], vars + [Some(|cells|)];
    }

    /** `var_c(const var_c &)`. */
    method CopyHandle(source: Place) returns (i: nat)
      requires Inv(Now()) && Exists(Now(), source)
      modifies this`cells, this`vars
      ensures Step(old(Now()), Op.CopyHandle(source)) == Some(Now()) && Inv(Now())
      ensures i == old(|vars|)
    {
      StepKeeps(Now(), Op.CopyHandle(source));
      AtIsLive(Now(), source);
      i := |vars|;
      var l := At(Now(), source);
      vars := vars + [Some(l)];
      Ref(l);
    }

    /** `~var_c`. */
    method Destroy(i: nat)
      requires Inv(Now()) && Allowed(Now(), Op.Destroy(i))
      modifies this`cells, this`vars
      ensures Step(old(Now()), Op.Destroy(i)) == Some(Now()) && Inv(Now())
    {
      StepKeeps(Now(), Op.Destroy(i));
      DetachedCounted(Now(), Var(i));
      ReleaseCounted(cells, Outside(vars[i := None]), vars[i].value);
      Unref(vars[i].value);
      vars := vars[i := None];
    }

    /** `operator =`: count the source up, release the target, read the source again. */
    method Assign(target: Place, source: Place)
      requires Inv(Now()) && Exists(Now(), target) && Exists(Now(), source)
      requires Assigned(Now(), target, source).Some?
      modifies this`cells, this`vars
      ensures Assigned(old(Now()), target, source) == Some(Now()) && Exact(Now())
    {
      AtIsLive(Now(), source);
      AssignedCounted(Now(), target, source);
      var was := At(Now(), target);
      Ref(At(Now(), source));
      Unref(was);
      var l := At(Now(), source);
      match target
      case Var(i) => vars := vars[i := Some(l)];
      case Slot(h, j) => cells := Renode(cells, h, cells[h].node.(slots := cells[h].node.slots[j := l]));
    }

    /** `var_c(const char *)`: equal texts share the location of the entry made for the first of them. */
    method Literal(text: bytes) returns (i: nat)
      requires Inv(Now())
      modifies this
      ensures Step(old(Now()), Op.Literal(text)) == Some(Now()) && Inv(Now())
      ensures i == old(|vars|) && CString(text) in interned
      ensures interned[CString(text)] < |vars| && i < |vars| && vars[i] == vars[interned[CString(text)]]
    {
      hide Exact, Interned, InternedAt, Release, Counted, Outside;
      var value := CString(text);
      StepKeeps(Now(), Op.Literal(text));
      LiterallyKeeps(Now(), value);
      if value in interned {
        InternedIsVariable(Now(), value);
        i := CopyHandle(Var(interned[value]));
      } else {
        EntryMade(Now(), value);
        i := Create(Scalar(Str(value)));
        var entry := Create(Scalar(Blank));
        Assign(Var(entry), Var(i));
        interned := interned[value := entry];
      }
    }

    /** A handle to the location at `source`, stored in a container: `push_back`, `insert`. */
    method Insert(h: Loc, at: nat, source: Place)
      requires Inv(Now()) && Allowed(Now(), Op.Insert(h, at, source))
      modifies this`cells
      ensures Step(old(Now()), Op.Insert(h, at, source)) == Some(Now()) && Inv(Now())
    {
      StepKeeps(Now(), Op.Insert(h, at, source));
      AtIsLive(Now(), source);
      var l, node := At(Now(), source), cells[h].node;
      Ref(l);
      cells := Renode(cells, h, node.(slots := node.slots[..at] + [l] + node.slots[at..]));
    }

    /** `pop_back`, `erase`. */
    method Erase(h: Loc, at: nat)
      requires Inv(Now()) && Allowed(Now(), Op.Erase(h, at))
      modifies this`cells
      ensures Step(old(Now()), Op.Erase(h, at)) == Some(Now()) && Inv(Now())
    {
      StepKeeps(Now(), Op.Erase(h, at));
      var node := cells[h].node;
      DetachedCounted(Now(), Slot(h, at));
      ReleaseCounted(Detached(Now(), Slot(h, at)).cells, Outside(vars), node.slots[at]);
      cells := Renode(cells, h, node.(slots := Without(node.slots, at)));
      Unref(node.slots[at]);
    }

    /**
     * `copy`: a variable with the same value, in containers of its own. Data without handles is shared; every
     * container is built anew from copies of what it holds. The copy is a run of the operations above, so
     * whatever holds of every run holds of it.
     */
    method Copy(source: Place, ghost v: Value) returns (i: nat, ghost ops: seq<Op>)
      requires Inv(Now()) && Exists(Now(), source)
      requires Shows(cells, 0, At(Now(), source), v) && Ordered(v)
      modifies this`cells, this`vars
      ensures Copied(old(Now()), Now(), i, ops, v)
      decreases v, 1
    {
      hide Inv, Shows, Ordered, Copied;
      var l := At(Now(), source);
      ShowsLive(cells, 0, l, v);
      match cells[l].node
      case Scalar(_) =>
        i := CopyHandle(source);
        ops := [Op.CopyHandle(source)];
        CopiedScalar(old(Now()), source, v);
      case Container(kind, slots) =>
        i, ops := CopyContainer(l, kind, slots, v);
    }

    /** The branches of `copy` for the four containers. */
    method CopyContainer(l: Loc, kind: Kind, slots: seq<Loc>, ghost v: Value) returns (i: nat, ghost ops: seq<Op>)
      requires Inv(Now()) && Live(cells, l) && cells[l].node == Container(kind, slots)
      requires Shows(cells, 0, l, v) && Ordered(v)
      modifies this`cells, this`vars
      ensures Copied(old(Now()), Now(), i, ops, v)
      decreases v, 0
    {
      hide Inv, Shows, Ordered, Copied, Copying, Filled, Children;
      ShowsContainer(cells, 0, l, v);
      ghost var was := Now();
      CopyingStarts(was, v);
      var r := |cells|;
      i := Create(Container(kind, []));
      ops := [Op.Create(Container(kind, []))];
      var k := 0;
      while k < |slots|
        invariant k <= |slots| && (kind == KDict ==> k % 2 == 0)
        invariant Copying(was, Now(), i, ops, v, k)
      {
        ghost var now, ops0 := Now(), ops;
        if kind == KDict {
          PairsAreEven(v);
          ghost var more;
          more := CopyPair(l, slots, r, i, k, was, ops, v);
          ops := ops0 + more;
          k := k + 2;
        } else {
          ghost var more;
          more := CopyItem(l, kind, slots, r, i, k, was, ops, v);
          ops := ops0 + more;
          k := k + 1;
        }
      }
      CopyingEnds(was, Now(), i, ops, v);
    }

    /** One turn of the loop of an array, a list or a set. */
    method CopyItem(l: Loc, kind: Kind, slots: seq<Loc>, r: Loc, ghost i: nat, k: nat, ghost was: State,
                    ghost ops: seq<Op>, ghost v: Value)
      returns (ghost more: seq<Op>)
      requires Copying(was, Now(), i, ops, v, k) && r == |was.cells| && k < |slots|
      requires HasSlots(v) && kind == KindOf(v) && kind != KDict
      requires Live(was.cells, l) && was.cells[l].node == Container(kind, slots)
      requires Shows(was.cells, 0, l, v) && Ordered(v) && |slots| == |Children(v)|
      modifies this`cells, this`vars
      ensures Copying(was, Now(), i, ops + more, v, k + 1)
      decreases v, 0, 0
    {
      hide Inv, Shows, Ordered, Copied, Filled, Children, Step;
      ghost var now := Now();
      ChildIsReady(was, now, i, ops, v, k, l);
      ghost var ops1: seq<Op>;
      var t: nat;
      t, ops1 := Copy(Slot(l, k), Children(v)[k]);
      CopyingItem(was, now, i, ops, v, k, Now(), t, ops1);
      ChildIsTemporary(was, now, i, ops, v, k, Now(), t, ops1);
      var at := k;
      if kind == KSet {
        var present;
        at, present := Position(r, vars[t].value, 1, v, k);
        PositionIsLast(v, at, k);
      }
      AddItem(r, at, t);
      more := ops1 + ItemOps(r, k, t);
    }

    /** One turn of the loop of a dictionary. */
    method CopyPair(l: Loc, slots: seq<Loc>, r: Loc, ghost i: nat, k: nat, ghost was: State, ghost ops: seq<Op>,
                    ghost v: Value)
      returns (ghost more: seq<Op>)
      requires Copying(was, Now(), i, ops, v, k) && r == |was.cells| && k + 1 < |slots| && k % 2 == 0 && v.Dict?
      requires Live(was.cells, l) && was.cells[l].node == Container(KDict, slots)
      requires Shows(was.cells, 0, l, v) && Ordered(v) && |slots| == |Children(v)|
      modifies this`cells, this`vars
      ensures Copying(was, Now(), i, ops + more, v, k + 2)
      decreases v, 0, 0
    {
      hide Inv, Shows, Ordered, Copied, Filled, Children, Step;
      ghost var now := Now();
      ChildIsReady(was, now, i, ops, v, k, l);
      ghost var ops1: seq<Op>;
      var t: nat;
      t, ops1 := Copy(Slot(l, k), Children(v)[k]);
      ghost var now1 := Now();
      SecondIsReady(was, now, i, ops, v, k, now1, t, ops1, l);
      ghost var ops2: seq<Op>;
      var u: nat;
      u, ops2 := Copy(Slot(l, k + 1), Children(v)[k + 1]);
      CopyingPair(was, now, i, ops, v, k, now1, t, ops1, Now(), u, ops2);
      PairIsTemporary(was, now, i, ops, v, k, now1, t, ops1, Now(), u, ops2);
      var at, present := Position(r, vars[t].value, 2, v, k);
      PositionIsLast(v, at, k);
      ghost var b := |vars|;
      AddPair(r, at, t, u);
      more := ops1 + (ops2 + PairOps(r, k, t, u, b));
    }

    /** `push_back` or `insert` of a temporary, and the end of the temporary. */
    method AddItem(r: Loc, at: nat, t: nat)
      requires Inv(Now()) && Run(Now(), ItemOps(r, at, t)).Some?
      modifies this`cells, this`vars
      ensures Run(old(Now()), ItemOps(r, at, t)) == Some(Now())
    {
      hide Inv, Step;
      ghost var ops := ItemOps(r, at, t);
      RunFirst(Now(), ops);
      Insert(r, at, Var(t));
      RunFirst(Now(), ops[1..]);
      Destroy(t);
    }

    /** `target[key] = value`: the key and a blank value go in, then the value is assigned over the blank. */
    method AddPair(r: Loc, at: nat, k: nat, x: nat)
      requires Inv(Now()) && Run(Now(), PairOps(r, at, k, x, |vars|)).Some?
      modifies this`cells, this`vars
      ensures Run(old(Now()), PairOps(r, at, k, x, old(|vars|))) == Some(Now())
    {
      hide Inv, Step, Run;
      ghost var ops := PairOps(r, at, k, x, |vars|);
      ghost var end := Run(Now(), ops);
      RunFirst(Now(), ops);
      var b := Create(Scalar(Blank));
      PairTails(r, at, k, x, b);
      RunFirst(Now(), ops[1..]);
      Insert(r, at, Var(k));
      RunFirst(Now(), ops[2..]);
      Insert(r, at + 1, Var(b));
      RunFirst(Now(), ops[3..]);
      Destroy(b);
      RunFirst(Now(), ops[4..]);
      StepOfAssign(Now(), Slot(r, at + 1), Var(x));
      Assign(Slot(r, at + 1), Var(x));
      RunFirst(Now(), ops[5..]);
      Destroy(x);
      RunFirst(Now(), ops[6..]);
      Destroy(k);
      RunNothing(Now());
    }

    /** The value behind a location, read out of the heap. */
    method ReadBack(l: Loc, ghost v: Value) returns (w: Value)
      requires Shows(cells, 0, l, v)
      ensures w == v
      decreases v
    {
      hide Shows, Children;
      ShowsLive(cells, 0, l, v);
      match cells[l].node
      case Scalar(x) =>
        ShowsScalar(cells, 0, l, v);
        w := x;
      case Container(kind, slots) =>
        ShowsContainer(cells, 0, l, v);
        var kids: seq<Value> := [];
        while |kids| < |slots|
          invariant |kids| <= |slots| && kids == Children(v)[..|kids|]
        {
          var k := |kids|;
          ShowsChild(cells, 0, l, v, k);
          ChildIsSmaller(v, k);
          var x := ReadBack(slots[k], Children(v)[k]);
          kids := kids + [x];
        }
        AssembledFromChildren(v);
        w := Assembled(kind, kids);
    }

    /** Where a set or dictionary puts a new member or key: before the first that is not smaller. */
    method Position(r: Loc, c: Loc, stride: nat, ghost v: Value, ghost k: nat) returns (at: nat, present: bool)
      requires Filled(cells, r, v, k) && k < |Children(v)| && Shows(cells, r + 1, c, Children(v)[k])
      requires stride == Stride(v) && k % stride == 0
      ensures at <= k && at % stride == 0
      ensures forall j :: 0 <= j < at && j % stride == 0 ==> Compare(Children(v)[j], Children(v)[k]) < 0
      ensures at < k ==> Compare(Children(v)[at], Children(v)[k]) >= 0
      ensures present <==> at < k && Children(v)[at] == Children(v)[k]
    {
      hide Shows, Compare, Children;
      var slots := cells[r].node.slots;
      ShowsLower(cells, r + 1, 0, c, Children(v)[k]);
      var x := ReadBack(c, Children(v)[k]);
      at, present := 0, false;
      while at < |slots|
        invariant at <= k && at % stride == 0 && !present
        invariant forall j :: 0 <= j < at && j % stride == 0 ==> Compare(Children(v)[j], Children(v)[k]) < 0
      {
        ShowsLower(cells, r + 1, 0, slots[at], Children(v)[at]);
        var y := ReadBack(slots[at], Children(v)[at]);
        var sign := CompareLocs(y, x);
        CompareOrder(y, x);
        if sign >= 0 {
          present := sign == 0;
          return;
        }
        at := at + stride;
      }
    }
  }

  /** Copies of an ordered set or dictionary arrive in its own order: each belongs behind those before it. */
  lemma {:induction false} PositionIsLast(v: Value, at: nat, k: nat)
    requires (v.Set? || v.Dict?) && Ordered(v) && at <= k < |Children(v)|
    requires at % Stride(v) == 0 && k % Stride(v) == 0
    requires at < k ==> Compare(Children(v)[at], Children(v)[k]) >= 0
    ensures at == k
  {
    hide Compare, Ordered, Children;
    if at < k {
      OrderedBefore(v, at, k);
    }
  }

  lemma {:induction false} StepOfAssign(s: State, target: Place, source: Place)
    requires Inv(s) && Allowed(s, Op.Assign(target, source))
    ensures Step(s, Op.Assign(target, source)) == Assigned(s, target, source)
  {
  }

  lemma {:induction false} PairsAreEven(v: Value)
    ensures v.Dict? ==> |Children(v)| % 2 == 0
  {
  }

  lemma {:induction false} CopiedScalar(was: State, source: Place, v: Value)
    requires Inv(was) && Exists(was, source) && Shows(was.cells, 0, At(was, source), v)
    requires was.cells[At(was, source)].node.Scalar?
    ensures Step(was, Op.CopyHandle(source)).Some?
    ensures Copied(was, Step(was, Op.CopyHandle(source)).value, |was.vars|, [Op.CopyHandle(source)], v)
  {
    hide Inv, Run;
    var op, l := Op.CopyHandle(source), At(was, source);
    RunFurther(was, op, []);
    assert [op] + [] == [op];
    RunNothing(Step(was, op).value);
    ShowsScalar(was.cells, 0, l, v);
    ShowsScalar(Step(was, op).value.cells, |was.cells|, l, v);
  }

  /** A child of the source can still be copied while the new container is being filled. */
  lemma {:induction false} ChildIsReady(was: State, now: State, i: nat, ops: seq<Op>, v: Value, k: nat, l: Loc)
    requires HasSlots(v) && k < |Children(v)| && Copying(was, now, i, ops, v, k)
    requires Live(was.cells, l) && was.cells[l].node.Container? && |was.cells[l].node.slots| == |Children(v)|
    requires Shows(was.cells, 0, l, v) && Ordered(v)
    ensures Inv(now) && Exists(now, Slot(l, k)) && At(now, Slot(l, k)) == was.cells[l].node.slots[k]
    ensures Shows(now.cells, 0, At(now, Slot(l, k)), Children(v)[k]) && Ordered(Children(v)[k])
    ensures Children(v)[k] < v
  {
    hide Inv, Shows, Ordered, Filled, Run, Children;
    ShowsChild(was.cells, 0, l, v, k);
    ShowsKept(was.cells, now.cells, 0, was.cells[l].node.slots[k], Children(v)[k]);
    OrderedChild(v, k);
    ChildIsSmaller(v, k);
  }

  lemma {:induction false} SecondIsReady(was: State, now: State, i: nat, ops: seq<Op>, v: Value, k: nat, now1: State,
                                         t: nat, ops1: seq<Op>, l: Loc)
    requires HasSlots(v) && k + 1 < |Children(v)|
    requires Copying(was, now, i, ops, v, k) && Copied(now, now1, t, ops1, Children(v)[k])
    requires Live(was.cells, l) && was.cells[l].node.Container? && |was.cells[l].node.slots| == |Children(v)|
    requires Shows(was.cells, 0, l, v) && Ordered(v)
    ensures Inv(now1) && Exists(now1, Slot(l, k + 1)) && At(now1, Slot(l, k + 1)) == was.cells[l].node.slots[k + 1]
    ensures Shows(now1.cells, 0, At(now1, Slot(l, k + 1)), Children(v)[k + 1]) && Ordered(Children(v)[k + 1])
    ensures Children(v)[k + 1] < v
  {
    hide Inv, Shows, Ordered, Filled, Run, Children;
    ShowsChild(was.cells, 0, l, v, k + 1);
    ShowsKept(was.cells, now1.cells, 0, was.cells[l].node.slots[k + 1], Children(v)[k + 1]);
    OrderedChild(v, k + 1);
    ChildIsSmaller(v, k + 1);
  }

  lemma {:induction false} PairTails(r: Loc, at: nat, k: nat, x: nat, b: nat)
    ensures var ops := PairOps(r, at, k, x, b);
            && ops == [Op.Create(Scalar(Blank)), Op.Insert(r, at, Var(k)), Op.Insert(r, at + 1, Var(b)), Op.Destroy(b),
                       Op.Assign(Slot(r, at + 1), Var(x)), Op.Destroy(x), Op.Destroy(k)]
            && ops[1..][1..] == ops[2..] && ops[2..][1..] == ops[3..] && ops[3..][1..] == ops[4..]
            && ops[4..][1..] == ops[5..] && ops[5..][1..] == ops[6..] && ops[6..][1..] == []
  {
  }
}

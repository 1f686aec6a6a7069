/**
 * The steps of a deep copy, as runs of the operations of `var_c`: a fresh container, a temporary for every copied
 * child, its insertion, and its destruction.
 */
module CopySteps {
  import opened Base
  import opened Values
  import opened RefCounts
  import opened Handles
  import opened Runs
  import opened HeapValues

  lemma {:induction false} RunConcat(s: State, ops: seq<Op>, more: seq<Op>)
    requires Inv(s) && Run(s, ops).Some? && Inv(Run(s, ops).value)
    ensures Run(s, ops + more) == Run(Run(s, ops).value, more)
    decreases |ops|
  {
    hide Step, Inv, Allowed;
    if ops == [] {
      assert ops + more == more;
    } else {
      assert (ops + more)[0] == ops[0] && (ops + more)[1..] == ops[1..] + more;
      StepKeeps(s, ops[0]);
      RunConcat(Step(s, ops[0]).value, ops[1..], more);
    }
  }

  lemma {:induction false} RunFirst(s: State, ops: seq<Op>)
    requires Inv(s) && Run(s, ops).Some? && ops != []
    ensures Allowed(s, ops[0]) && Step(s, ops[0]).Some? && Inv(Step(s, ops[0]).value)
    ensures Run(Step(s, ops[0]).value, ops[1..]) == Run(s, ops)
  {
    hide Step, Inv, Allowed;
    StepKeeps(s, ops[0]);
  }

  lemma {:induction false} RunFurther(s: State, op: Op, ops: seq<Op>)
    requires Inv(s) && Allowed(s, op) && Step(s, op).Some?
    ensures Inv(Step(s, op).value) && Run(s, [op] + ops) == Run(Step(s, op).value, ops)
  {
    hide Step, Inv, Allowed;
    StepKeeps(s, op);
    assert ([op] + ops)[1..] == ops;
  }

  lemma {:induction false} RunNothing(s: State)
    requires Inv(s)
    ensures Run(s, []) == Some(s)
  {
  }

  lemma {:induction false} InternedBelow(s: State, t: nat)
    requires Inv(s) && |s.vars| <= t
    ensures t !in s.interned.Values
  {
    forall text | text in s.interned ensures s.interned[text] != t {
      InternedIsVariable(s, text);
    }
  }

  // --- One child ---

  function WithItem(node: Node, at: nat, ls: seq<Loc>): Node
    requires node.Container? && at <= |node.slots|
  {
    node.(slots := node.slots[..at] + ls + node.slots[at..])
  }

  predicate Room(s: State, r: Loc, at: nat) {
    Live(s.cells, r) && s.cells[r].node.Container? && at <= |s.cells[r].node.slots|
  }

  /** A temporary of the program, holding something other than the container `r`. */
  predicate Temporary(s: State, t: nat, r: Loc) {
    Exists(s, Var(t)) && t !in s.interned.Values && s.vars[t].value != r
  }

  /** `push_back` or `insert` of a temporary, and its destruction: the handle has moved into the container. */
  function ItemOps(r: Loc, at: nat, t: nat): seq<Op> {
    [Insert(r, at, Var(t))] + ([Destroy(t)] + [])
  }

  function Moved(s: State, r: Loc, at: nat, t: nat): State
    requires Room(s, r, at) && Exists(s, Var(t))
  {
    s.(cells := Renode(s.cells, r, WithItem(s.cells[r].node, at, [s.vars[t].value])), vars := s.vars[t := None])
  }

  lemma {:induction false} ItemMoves(s: State, r: Loc, at: nat, t: nat)
    requires Inv(s) && Room(s, r, at) && Temporary(s, t, r)
    ensures Run(s, ItemOps(r, at, t)) == Some(Moved(s, r, at, t)) && Inv(Moved(s, r, at, t))
  {
    hide Inv, Exact, Release, Outside, Run;
    var s1 := Step(s, Insert(r, at, Var(t))).value;
    StepKeeps(s, Insert(r, at, Var(t)));
    CountIsPositive(s, Var(t));
    ReleaseShared(s1.cells, s.vars[t].value);
    StepKeeps(s1, Destroy(t));
    assert Step(s1, Destroy(t)).value.cells == Moved(s, r, at, t).cells;
    RunFurther(s, Insert(r, at, Var(t)), [Destroy(t)] + []);
    RunFurther(s1, Destroy(t), []);
    RunNothing(Moved(s, r, at, t));
  }

  lemma {:induction false} CountIsPositive(s: State, p: Place)
    requires Inv(s) && Exists(s, p)
    ensures Live(s.cells, At(s, p)) && s.cells[At(s, p)].count > 0
  {
    AtIsLive(s, p);
    assert CountedAt(s.cells, Outside(s.vars), At(s, p));
  }

  lemma {:induction false} ReleaseShared(cells: seq<Cell>, l: Loc)
    requires Live(cells, l)
    ensures cells[l].count > 1 ==> Release(cells, l) == cells[l := cells[l].(count := cells[l].count - 1)]
    ensures cells[l].count == 1 && cells[l].node.Scalar? ==> Release(cells, l) == cells[l := FREED]
  {
  }

  // --- One pair ---

  /**
   * `target[key] = value` with both as temporaries: `operator []` stores the key and a blank value, the
   * assignment replaces the blank.
   */
  function PairOps(r: Loc, at: nat, k: nat, x: nat, b: nat): seq<Op> {
    [Create(Scalar(Blank))] +
    ([Insert(r, at, Var(k))] + (ItemOps(r, at + 1, b) + ([Assign(Slot(r, at + 1), Var(x))] +
                                                         ([Destroy(x)] + ([Destroy(k)] + [])))))
  }

  function PairMoved(s: State, r: Loc, at: nat, k: nat, x: nat): State
    requires Room(s, r, at) && Exists(s, Var(k)) && Exists(s, Var(x))
  {
    s.(cells := Renode(s.cells, r, WithItem(s.cells[r].node, at, [s.vars[k].value, s.vars[x].value])) + [FREED],
       vars := s.vars[k := None][x := None] + [None])
  }

  /** After the key, with the blank behind it. */
  function Blanked(s: State, r: Loc, at: nat, k: nat): State
    requires Room(s, r, at) && Exists(s, Var(k))
  {
    s.(cells := Renode(Raised(s.cells, s.vars[k].value), r, WithItem(s.cells[r].node, at, [s.vars[k].value, |s.cells|]))
                + [Cell(true, 1, Scalar(Blank))],
       vars := s.vars + [None])
  }

  lemma {:induction false} BlankStored(s: State, r: Loc, at: nat, k: nat, rest: seq<Op>)
    requires Inv(s) && Room(s, r, at) && Temporary(s, k, r)
    ensures Inv(Blanked(s, r, at, k))
    ensures Run(s, [Create(Scalar(Blank))] + ([Insert(r, at, Var(k))] + (ItemOps(r, at + 1, |s.vars|) + rest))) ==
            Run(Blanked(s, r, at, k), rest)
  {
    hide Inv, Exact, Release, Outside, Run;
    var n, b := |s.cells|, |s.vars|;
    CountIsPositive(s, Var(k));
    var s1 := Created(s, Scalar(Blank));
    RunFurther(s, Create(Scalar(Blank)), [Insert(r, at, Var(k))] + (ItemOps(r, at + 1, b) + rest));
    var s2 := Step(s1, Insert(r, at, Var(k))).value;
    RunFurther(s1, Insert(r, at, Var(k)), ItemOps(r, at + 1, b) + rest);
    InternedBelow(s, b);
    ItemMoves(s2, r, at + 1, b);
    RunConcat(s2, ItemOps(r, at + 1, b), rest);
    BlankedIs(s, s2, r, at, k);
  }

  lemma {:induction false} BlankedIs(s: State, s2: State, r: Loc, at: nat, k: nat)
    requires Room(s, r, at) && Exists(s, Var(k)) && s.vars[k].value < |s.cells|
    requires s2 == Created(s, Scalar(Blank)).(cells :=
                     Renode(Raised(Created(s, Scalar(Blank)).cells, s.vars[k].value), r,
                            WithItem(s.cells[r].node, at, [s.vars[k].value])))
    ensures Room(s2, r, at + 1) && Moved(s2, r, at + 1, |s.vars|) == Blanked(s, r, at, k)
  {
    var was := s.cells[r].node.slots;
    var one := was[..at] + [s.vars[k].value] + was[at..];
    assert one[..at + 1] == was[..at] + [s.vars[k].value] && one[at + 1..] == was[at..];
    assert one[..at + 1] + [|s.cells|] + one[at + 1..] == was[..at] + [s.vars[k].value, |s.cells|] + was[at..];
    assert Moved(s2, r, at + 1, |s.vars|).vars == Blanked(s, r, at, k).vars;
    assert Moved(s2, r, at + 1, |s.vars|).cells == Blanked(s, r, at, k).cells;
  }

  /** The value has taken the place of the blank, which is gone. */
  function Valued(s: State, r: Loc, at: nat, k: nat, x: nat): State
    requires Room(s, r, at) && Exists(s, Var(k)) && Exists(s, Var(x))
  {
    s.(cells := Raised(Renode(Raised(s.cells, s.vars[k].value), r,
                              WithItem(s.cells[r].node, at, [s.vars[k].value, s.vars[x].value])), s.vars[x].value)
                + [FREED],
       vars := s.vars + [None])
  }

  lemma {:induction false} BlankReplaced(s: State, r: Loc, at: nat, k: nat, x: nat)
    requires Inv(s) && Room(s, r, at) && Temporary(s, k, r) && Temporary(s, x, r) && Inv(Blanked(s, r, at, k))
    ensures var s4 := Blanked(s, r, at, k);
            && Allowed(s4, Assign(Slot(r, at + 1), Var(x)))
            && Assigned(s4, Slot(r, at + 1), Var(x)) == Some(Valued(s, r, at, k, x))
  {
    hide Interned, Exact, Release, Outside;
    var s4, n, l := Blanked(s, r, at, k), |s.cells|, s.vars[x].value;
    CountIsPositive(s, Var(x));
    CountIsPositive(s, Var(k));
    var slots := s4.cells[r].node.slots;
    assert slots[at + 1] == n;
    ReleaseShared(Raised(s4.cells, l), n);
    var was := s.cells[r].node.slots;
    assert slots[at + 1 := l] == was[..at] + [s.vars[k].value, l] + was[at..];
    assert Raised(s4.cells, l)[n := FREED][r].node == s4.cells[r].node;
    assert Assigned(s4, Slot(r, at + 1), Var(x)).value.cells == Valued(s, r, at, k, x).cells;
  }

  lemma {:induction false} PairMoves(s: State, r: Loc, at: nat, k: nat, x: nat)
    requires Inv(s) && Room(s, r, at) && Temporary(s, k, r) && Temporary(s, x, r) && k != x
    ensures Run(s, PairOps(r, at, k, x, |s.vars|)) == Some(PairMoved(s, r, at, k, x))
    ensures Inv(PairMoved(s, r, at, k, x))
  {
    hide Inv, Exact, Release, Outside, Run, Assigned;
    var end := [Destroy(x)] + ([Destroy(k)] + []);
    var assign := Assign(Slot(r, at + 1), Var(x));
    BlankStored(s, r, at, k, [assign] + end);
    BlankReplaced(s, r, at, k, x);
    RunFurther(Blanked(s, r, at, k), assign, end);
    TemporariesDropped(s, r, at, k, x);
  }

  /** After the value's temporary is gone. */
  function HalfDropped(s: State, r: Loc, at: nat, k: nat, x: nat): State
    requires Room(s, r, at) && Exists(s, Var(k)) && Exists(s, Var(x))
  {
    s.(cells := Renode(Raised(s.cells, s.vars[k].value), r,
                       WithItem(s.cells[r].node, at, [s.vars[k].value, s.vars[x].value])) + [FREED],
       vars := (s.vars + [None])[x := None])
  }

  lemma {:induction false} ValueDropped(s: State, r: Loc, at: nat, k: nat, x: nat)
    requires Inv(s) && Room(s, r, at) && Temporary(s, k, r) && Temporary(s, x, r) && k != x
    requires Inv(Valued(s, r, at, k, x))
    ensures Allowed(Valued(s, r, at, k, x), Destroy(x))
    ensures Step(Valued(s, r, at, k, x), Destroy(x)) == Some(HalfDropped(s, r, at, k, x))
  {
    hide Inv, Exact, Release, Outside;
    CountIsPositive(s, Var(x));
    CountIsPositive(s, Var(k));
    var s5, l := Valued(s, r, at, k, x), s.vars[x].value;
    ReleaseShared(s5.cells, l);
    assert s5.cells[l := s5.cells[l].(count := s5.cells[l].count - 1)] == HalfDropped(s, r, at, k, x).cells;
  }

  lemma {:induction false} KeyDropped(s: State, r: Loc, at: nat, k: nat, x: nat)
    requires Inv(s) && Room(s, r, at) && Temporary(s, k, r) && Temporary(s, x, r) && k != x
    requires Inv(HalfDropped(s, r, at, k, x))
    ensures Allowed(HalfDropped(s, r, at, k, x), Destroy(k))
    ensures Step(HalfDropped(s, r, at, k, x), Destroy(k)) == Some(PairMoved(s, r, at, k, x))
  {
    hide Inv, Exact, Release, Outside;
    CountIsPositive(s, Var(k));
    var s6, l := HalfDropped(s, r, at, k, x), s.vars[k].value;
    ReleaseShared(s6.cells, l);
    assert s6.cells[l := s6.cells[l].(count := s6.cells[l].count - 1)] == PairMoved(s, r, at, k, x).cells;
    assert s6.vars[k := None] == PairMoved(s, r, at, k, x).vars;
  }

  lemma {:induction false} TemporariesDropped(s: State, r: Loc, at: nat, k: nat, x: nat)
    requires Inv(s) && Room(s, r, at) && Temporary(s, k, r) && Temporary(s, x, r) && k != x
    requires Inv(Valued(s, r, at, k, x))
    ensures Run(Valued(s, r, at, k, x), [Destroy(x)] + ([Destroy(k)] + [])) == Some(PairMoved(s, r, at, k, x))
    ensures Inv(PairMoved(s, r, at, k, x))
  {
    hide Inv, Run, Step, Allowed;
    ValueDropped(s, r, at, k, x);
    RunFurther(Valued(s, r, at, k, x), Destroy(x), [Destroy(k)] + []);
    KeyDropped(s, r, at, k, x);
    RunFurther(HalfDropped(s, r, at, k, x), Destroy(k), []);
    RunNothing(PairMoved(s, r, at, k, x));
  }

  // --- A container being filled ---

  /** The new container `r` holds copies of the first `k` children of `v`, built after it. */
  ghost predicate Filled(cells: seq<Cell>, r: Loc, v: Value, k: nat) {
    && HasSlots(v) && k <= |Children(v)|
    && Live(cells, r) && cells[r].node.Container? && cells[r].node.kind == KindOf(v)
    && |cells[r].node.slots| == k
    && forall j :: 0 <= j < k ==> Shows(cells, r + 1, cells[r].node.slots[j], Children(v)[j])
  }

  lemma {:induction false} FilledKept(before: seq<Cell>, after: seq<Cell>, r: Loc, v: Value, k: nat)
    requires Filled(before, r, v, k) && Extends(before, after)
    ensures Filled(after, r, v, k)
  {
    hide Shows;
    forall j | 0 <= j < k ensures Shows(after, r + 1, after[r].node.slots[j], Children(v)[j]) {
      ShowsKept(before, after, r + 1, before[r].node.slots[j], Children(v)[j]);
    }
  }

  lemma {:induction false} FilledShows(cells: seq<Cell>, r: Loc, v: Value)
    requires HasSlots(v) && Filled(cells, r, v, |Children(v)|)
    ensures Shows(cells, r, r, v)
  {
    forall j | 0 <= j < |Children(v)| ensures Shows(cells, r, cells[r].node.slots[j], Children(v)[j]) {
      ShowsLower(cells, r + 1, r, cells[r].node.slots[j], Children(v)[j]);
    }
  }

  lemma {:induction false} FilledFurther(cells: seq<Cell>, r: Loc, v: Value, k: nat, ls: seq<Loc>, after: seq<Cell>)
    requires Filled(cells, r, v, k) && k + |ls| <= |Children(v)|
    requires forall j :: 0 <= j < |ls| ==> Shows(cells, r + 1, ls[j], Children(v)[k + j])
    requires Extends(Renode(cells, r, WithItem(cells[r].node, k, ls)), after)
    ensures Filled(after, r, v, k + |ls|)
  {
    hide Shows;
    var slots := cells[r].node.slots;
    assert slots[..k] + ls + slots[k..] == slots + ls;
    forall j | 0 <= j < k + |ls| ensures Shows(after, r + 1, (slots + ls)[j], Children(v)[j]) {
      if j >= k {
        assert Shows(cells, r + 1, ls[j - k], Children(v)[k + (j - k)]);
      }
      ShowsKept(cells, after, r + 1, (slots + ls)[j], Children(v)[j]);
    }
  }

  /** The program has one variable more, and the places of temporaries that are gone. */
  ghost predicate Added(was: State, now: State, i: nat) {
    && i == |was.vars| < |now.vars| && now.vars[..i] == was.vars && now.vars[i].Some?
    && (forall j :: i < j < |now.vars| ==> now.vars[j].None?)
    && now.interned == was.interned
  }

  /** The run `ops` has made variable `i` a deep copy of a location with the value `v`. */
  ghost predicate Copied(was: State, now: State, i: nat, ops: seq<Op>, v: Value) {
    && Inv(was) && Inv(now) && Run(was, ops) == Some(now) && Added(was, now, i)
    && Extends(was.cells, now.cells) && Shows(now.cells, |was.cells|, now.vars[i].value, v)
  }

  /** The run `ops` has made variable `i` a new container with copies of the first `k` children of `v`. */
  ghost predicate Copying(was: State, now: State, i: nat, ops: seq<Op>, v: Value, k: nat) {
    && Inv(was) && Inv(now) && Run(was, ops) == Some(now) && Added(was, now, i)
    && now.vars[i] == Some(|was.cells|) && |was.cells| < |now.cells|
    && Extends(was.cells, now.cells) && Filled(now.cells, |was.cells|, v, k)
  }

  lemma {:induction false} CopyingStarts(was: State, v: Value)
    requires Inv(was) && HasSlots(v)
    ensures var op := Create(Container(KindOf(v), []));
            && Allowed(was, op) && Step(was, op).Some?
            && Copying(was, Step(was, op).value, |was.vars|, [op], v, 0)
  {
    hide Inv, Shows, Children, Run;
    var op := Create(Container(KindOf(v), []));
    RunFurther(was, op, []);
    assert [op] + [] == [op];
    RunNothing(Step(was, op).value);
  }

  lemma {:induction false} CopyingEnds(was: State, now: State, i: nat, ops: seq<Op>, v: Value)
    requires HasSlots(v) && Copying(was, now, i, ops, v, |Children(v)|)
    ensures Copied(was, now, i, ops, v)
  {
    hide Inv, Shows, Filled, Run;
    FilledShows(now.cells, |was.cells|, v);
  }

  /** A copied child is a temporary that can go into the container. */
  lemma {:induction false} ChildIsTemporary(was: State, s: State, i: nat, ops: seq<Op>, v: Value, k: nat, s1: State,
                                            t: nat, ops1: seq<Op>)
    requires Copying(was, s, i, ops, v, k) && k < |Children(v)| && Copied(s, s1, t, ops1, Children(v)[k])
    ensures var r := |was.cells|;
            && Room(s1, r, k) && Temporary(s1, t, r) && Filled(s1.cells, r, v, k)
            && Shows(s1.cells, r + 1, s1.vars[t].value, Children(v)[k])
  {
    hide Inv, Run;
    var r, c := |was.cells|, s1.vars[t].value;
    FilledKept(s.cells, s1.cells, r, v, k);
    ShowsLower(s1.cells, |s.cells|, r + 1, c, Children(v)[k]);
    InternedBelow(s, t);
  }

  lemma {:induction false} CopyingItem(was: State, s: State, i: nat, ops: seq<Op>, v: Value, k: nat, s1: State, t: nat,
                                       ops1: seq<Op>)
    requires Copying(was, s, i, ops, v, k) && k < |Children(v)| && Copied(s, s1, t, ops1, Children(v)[k])
    ensures var r := |was.cells|;
            && Room(s1, r, k) && Temporary(s1, t, r) && Inv(s1)
            && Run(s1, ItemOps(r, k, t)) == Some(Moved(s1, r, k, t))
            && Copying(was, Moved(s1, r, k, t), i, ops + (ops1 + ItemOps(r, k, t)), v, k + 1)
  {
    hide Inv, Run, Shows, Filled, ItemOps, Temporary, Children;
    var r := |was.cells|;
    ChildIsTemporary(was, s, i, ops, v, k, s1, t, ops1);
    ItemMoves(s1, r, k, t);
    FilledFurther(s1.cells, r, v, k, [s1.vars[t].value], Moved(s1, r, k, t).cells);
    RunConcat(s, ops1, ItemOps(r, k, t));
    RunConcat(was, ops, ops1 + ItemOps(r, k, t));
  }

  lemma {:induction false} CopyingPair(was: State, s: State, i: nat, ops: seq<Op>, v: Value, k: nat, s1: State, t: nat,
                                       ops1: seq<Op>, s2: State, u: nat, ops2: seq<Op>)
    requires Copying(was, s, i, ops, v, k) && k + 1 < |Children(v)|
    requires Copied(s, s1, t, ops1, Children(v)[k]) && Copied(s1, s2, u, ops2, Children(v)[k + 1])
    ensures var r, more := |was.cells|, PairOps(|was.cells|, k, t, u, |s2.vars|);
            && Room(s2, r, k) && Temporary(s2, t, r) && Temporary(s2, u, r) && t != u && Inv(s2)
            && Run(s2, more) == Some(PairMoved(s2, r, k, t, u))
            && Copying(was, PairMoved(s2, r, k, t, u), i, ops + (ops1 + (ops2 + more)), v, k + 2)
  {
    hide Inv, Run, Shows, Filled, PairOps, Children;
    var r, more := |was.cells|, PairOps(|was.cells|, k, t, u, |s2.vars|);
    PairIsTemporary(was, s, i, ops, v, k, s1, t, ops1, s2, u, ops2);
    PairMoves(s2, r, k, t, u);
    var ls := [s2.vars[t].value, s2.vars[u].value];
    FilledFurther(s2.cells, r, v, k, ls, PairMoved(s2, r, k, t, u).cells);
    RunConcat(s1, ops2, more);
    RunConcat(s, ops1, ops2 + more);
    RunConcat(was, ops, ops1 + (ops2 + more));
  }

  lemma {:induction false} PairIsTemporary(was: State, s: State, i: nat, ops: seq<Op>, v: Value, k: nat, s1: State,
                                           t: nat, ops1: seq<Op>, s2: State, u: nat, ops2: seq<Op>)
    requires Copying(was, s, i, ops, v, k) && k + 1 < |Children(v)|
    requires Copied(s, s1, t, ops1, Children(v)[k]) && Copied(s1, s2, u, ops2, Children(v)[k + 1])
    ensures var r := |was.cells|;
            && Room(s2, r, k) && Temporary(s2, t, r) && Temporary(s2, u, r) && t != u && Filled(s2.cells, r, v, k)
            && Shows(s2.cells, r + 1, s2.vars[t].value, Children(v)[k])
            && Shows(s2.cells, r + 1, s2.vars[u].value, Children(v)[k + 1])
  {
    hide Inv, Run;
    var r := |was.cells|;
    ChildIsTemporary(was, s, i, ops, v, k, s1, t, ops1);
    FilledKept(s1.cells, s2.cells, r, v, k);
    ShowsKept(s1.cells, s2.cells, r + 1, s1.vars[t].value, Children(v)[k]);
    ShowsLower(s2.cells, |s1.cells|, r + 1, s2.vars[u].value, Children(v)[k + 1]);
    InternedBelow(s1, u);
    assert s2.vars[..u][t] == s1.vars[t];
  }
}

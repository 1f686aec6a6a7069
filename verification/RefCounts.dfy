/**
 * Intrusive reference counting: locations hold a count, containers hold handles to locations, and dropping the
 * last handle to a location drops the handles inside it. What the counts promise, as functions and lemmas.
 */
module RefCounts {
  import opened Values

  /** A `loc_c`, named by the order of allocation. Names of freed locations are not used again. */
  type Loc = nat

  datatype Kind = KArray | KSet | KList | KDict

  /**
   * The data behind a location: a value without handles, or the handles a container stores in order. A
   * dictionary stores its keys at even and its values at odd positions.
   */
  datatype Node = Scalar(v: Value) | Container(kind: Kind, slots: seq<Loc>)

  datatype Cell = Cell(live: bool, count: nat, node: Node)

  const FREED: Cell := Cell(false, 0, Scalar(Blank))

  function Slots(c: Cell): seq<Loc> {
    if c.live && c.node.Container? then c.node.slots else []
  }

  /** How many handles inside live containers refer to `l`. */
  function Refs(cells: seq<Cell>, l: Loc): nat {
    if cells == [] then 0
    else Refs(cells[..|cells| - 1], l) + multiset(Slots(cells[|cells| - 1]))[l]
  }

  predicate Live(cells: seq<Cell>, l: Loc) {
    l < |cells| && cells[l].live
  }

  /**
   * Conservation: every live location counts exactly its handles, those in live containers and those in
   * `outside`, and there is at least one; a location that is not live has none.
   */
  ghost predicate Counted(cells: seq<Cell>, outside: multiset<Loc>) {
    forall l: Loc :: CountedAt(cells, outside, l)
  }

  ghost predicate CountedAt(cells: seq<Cell>, outside: multiset<Loc>, l: Loc) {
    if Live(cells, l) then 0 < cells[l].count == Refs(cells, l) + outside[l]
    else Refs(cells, l) == 0 && outside[l] == 0
  }

  function LiveCount(cells: seq<Cell>): nat {
    if cells == [] then 0
    else LiveCount(cells[..|cells| - 1]) + (if cells[|cells| - 1].live then 1 else 0)
  }

  lemma {:induction false} LiveCountUpdate(cells: seq<Cell>, i: nat, c: Cell)
    requires i < |cells|
    ensures LiveCount(cells[i := c]) ==
            LiveCount(cells) - (if cells[i].live then 1 else 0) + (if c.live then 1 else 0)
    ensures cells[i].live ==> LiveCount(cells) > 0
  {
    var n := |cells| - 1;
    if i == n {
      assert cells[i := c][..n] == cells[..n];
    } else {
      assert cells[i := c][..n] == cells[..n][i := c];
      LiveCountUpdate(cells[..n], i, c);
    }
  }

  lemma {:induction false} RefsUpdate(cells: seq<Cell>, i: nat, c: Cell, l: Loc)
    requires i < |cells|
    ensures Refs(cells[i := c], l) + multiset(Slots(cells[i]))[l] == Refs(cells, l) + multiset(Slots(c))[l]
  {
    hide Slots;
    var n := |cells| - 1;
    if i == n {
      assert cells[i := c][..n] == cells[..n];
    } else {
      assert cells[i := c][..n] == cells[..n][i := c];
      RefsUpdate(cells[..n], i, c, l);
    }
  }

  lemma {:induction false} RefsHolder(cells: seq<Cell>, l: Loc) returns (h: Loc)
    requires Refs(cells, l) > 0
    ensures Live(cells, h) && l in Slots(cells[h])
  {
    var n := |cells| - 1;
    if l in Slots(cells[n]) {
      h := n;
    } else {
      h := RefsHolder(cells[..n], l);
    }
  }

  lemma {:induction false} RefsOfHeld(cells: seq<Cell>, h: Loc, l: Loc)
    requires Live(cells, h) && l in Slots(cells[h])
    ensures Refs(cells, l) >= multiset(Slots(cells[h]))[l] > 0
  {
    var n := |cells| - 1;
    if h < n {
      RefsOfHeld(cells[..n], h, l);
    }
  }

  // --- Releasing handles ---

  /** `unref`: one handle less; the last one frees the location and releases the handles stored in it. */
  function Release(cells: seq<Cell>, l: Loc): (r: seq<Cell>)
    ensures |r| == |cells| && LiveCount(r) <= LiveCount(cells)
    decreases LiveCount(cells), 0
  {
    if !Live(cells, l) then cells
    else if cells[l].count > 1 then
      LiveCountUpdate(cells, l, cells[l].(count := cells[l].count - 1));
      cells[l := cells[l].(count := cells[l].count - 1)]
    else
      LiveCountUpdate(cells, l, FREED);
      ReleaseAll(cells[l := FREED], Slots(cells[l]))
  }

  function ReleaseAll(cells: seq<Cell>, ls: seq<Loc>): (r: seq<Cell>)
    ensures |r| == |cells| && LiveCount(r) <= LiveCount(cells)
    decreases LiveCount(cells), |ls|
  {
    if ls == [] then cells else ReleaseAll(Release(cells, ls[0]), ls[1..])
  }

  /** The whole cascade of a release finds live locations only: nothing is freed or read twice. */
  ghost predicate Releasable(cells: seq<Cell>, l: Loc)
    decreases LiveCount(cells), 0
  {
    && Live(cells, l)
    && (cells[l].count <= 1 ==>
          (LiveCountUpdate(cells, l, FREED);
           ReleasableAll(cells[l := FREED], Slots(cells[l]))))
  }

  ghost predicate ReleasableAll(cells: seq<Cell>, ls: seq<Loc>)
    decreases LiveCount(cells), |ls|
  {
    ls == [] || (Releasable(cells, ls[0]) && ReleasableAll(Release(cells, ls[0]), ls[1..]))
  }

  lemma {:induction false} Decremented(cells: seq<Cell>, outside: multiset<Loc>, l: Loc)
    requires Live(cells, l) && cells[l].count > 1 && Counted(cells, outside + multiset{l})
    ensures Counted(cells[l := cells[l].(count := cells[l].count - 1)], outside)
  {
    var c := cells[l].(count := cells[l].count - 1);
    var cells' := cells[l := c];
    forall x: Loc ensures CountedAt(cells', outside, x) {
      assert CountedAt(cells, outside + multiset{l}, x);
      RefsUpdate(cells, l, c, x);
    }
  }

  lemma {:induction false} Freed(cells: seq<Cell>, outside: multiset<Loc>, l: Loc)
    requires Live(cells, l) && cells[l].count == 1 && Counted(cells, outside + multiset{l})
    ensures Counted(cells[l := FREED], outside + multiset(Slots(cells[l])))
  {
    assert CountedAt(cells, outside + multiset{l}, l);
    var cells', outside' := cells[l := FREED], outside + multiset(Slots(cells[l]));
    forall x: Loc ensures CountedAt(cells', outside', x) {
      assert CountedAt(cells, outside + multiset{l}, x);
      RefsUpdate(cells, l, FREED, x);
      if x == l && l in Slots(cells[l]) {
        RefsOfHeld(cells, l, l);
      }
    }
  }

  /** Dropping one outside handle, with the whole cascade it may set off, keeps every count exact. */
  lemma {:induction false} ReleaseCounted(cells: seq<Cell>, outside: multiset<Loc>, l: Loc)
    requires Counted(cells, outside + multiset{l})
    ensures Counted(Release(cells, l), outside) && Releasable(cells, l)
    decreases LiveCount(cells), 0
  {
    assert CountedAt(cells, outside + multiset{l}, l);
    if cells[l].count > 1 {
      Decremented(cells, outside, l);
    } else {
      LiveCountUpdate(cells, l, FREED);
      Freed(cells, outside, l);
      ReleaseAllCounted(cells[l := FREED], outside, Slots(cells[l]));
    }
  }

  lemma {:induction false} ReleaseAllCounted(cells: seq<Cell>, outside: multiset<Loc>, ls: seq<Loc>)
    requires Counted(cells, outside + multiset(ls))
    ensures Counted(ReleaseAll(cells, ls), outside) && ReleasableAll(cells, ls)
    decreases LiveCount(cells), |ls|
  {
    if ls == [] {
      assert outside + multiset(ls) == outside;
    } else {
      assert ls == [ls[0]] + ls[1..];
      assert outside + multiset(ls) == (outside + multiset(ls[1..])) + multiset{ls[0]};
      ReleaseCounted(cells, outside + multiset(ls[1..]), ls[0]);
      ReleaseAllCounted(Release(cells, ls[0]), outside, ls[1..]);
    }
  }

  /** Releasing never touches the data of a location that survives it, and revives none. */
  ghost predicate Survives(before: seq<Cell>, after: seq<Cell>) {
    |after| == |before| &&
    forall l: Loc :: l < |after| && after[l].live ==> before[l].live && after[l].node == before[l].node
  }

  lemma {:induction false} ReleaseSurvives(cells: seq<Cell>, l: Loc)
    ensures Survives(cells, Release(cells, l))
    decreases LiveCount(cells), 0
  {
    if Live(cells, l) && cells[l].count <= 1 {
      LiveCountUpdate(cells, l, FREED);
      ReleaseAllSurvives(cells[l := FREED], Slots(cells[l]));
    }
  }

  lemma {:induction false} ReleaseAllSurvives(cells: seq<Cell>, ls: seq<Loc>)
    ensures Survives(cells, ReleaseAll(cells, ls))
    decreases LiveCount(cells), |ls|
  {
    if ls != [] {
      ReleaseSurvives(cells, ls[0]);
      ReleaseAllSurvives(Release(cells, ls[0]), ls[1..]);
    }
  }

  // --- The other steps: one handle more, a new location, another list of slots ---

  /** `ref`. */
  function Raised(cells: seq<Cell>, l: Loc): seq<Cell> {
    if l < |cells| then cells[l := cells[l].(count := cells[l].count + 1)] else cells
  }

  lemma {:induction false} RaisedCounted(cells: seq<Cell>, outside: multiset<Loc>, l: Loc)
    requires Counted(cells, outside) && Live(cells, l)
    ensures Counted(Raised(cells, l), outside + multiset{l})
  {
    var cells', outside' := Raised(cells, l), outside + multiset{l};
    forall x: Loc ensures CountedAt(cells', outside', x) {
      assert CountedAt(cells, outside, x);
      RefsUpdate(cells, l, cells'[l], x);
    }
  }

  /** `new loc_c`: the count starts at one, for the handle that receives the new location. */
  function Allocated(cells: seq<Cell>, node: Node): seq<Cell> {
    cells + [Cell(true, 1, node)]
  }

  lemma {:induction false} AllocatedCounted(cells: seq<Cell>, outside: multiset<Loc>, node: Node)
    requires Counted(cells, outside) && (node.Container? ==> node.slots == [])
    ensures Counted(Allocated(cells, node), outside + multiset{|cells|})
  {
    var cells', outside' := Allocated(cells, node), outside + multiset{|cells|};
    assert cells'[..|cells|] == cells;
    forall x: Loc ensures CountedAt(cells', outside', x) {
      assert CountedAt(cells, outside, x);
    }
  }

  function Renode(cells: seq<Cell>, h: Loc, node: Node): seq<Cell>
    requires h < |cells|
  {
    cells[h := cells[h].(node := node)]
  }

  /** Handles may move between the outside and a container, as long as none is made or lost. */
  lemma {:induction false} RenodeCounted(cells: seq<Cell>, outside: multiset<Loc>, h: Loc, node: Node,
                                         outside': multiset<Loc>)
    requires Counted(cells, outside) && Live(cells, h) && cells[h].node.Container? && node.Container?
    requires outside + multiset(cells[h].node.slots) == outside' + multiset(node.slots)
    ensures Counted(Renode(cells, h, node), outside')
  {
    var cells' := Renode(cells, h, node);
    var m, m' := multiset(cells[h].node.slots), multiset(node.slots);
    forall x: Loc ensures CountedAt(cells', outside', x) {
      assert CountedAt(cells, outside, x);
      RefsUpdate(cells, h, cells'[h], x);
      assert (outside + m)[x] == (outside' + m')[x];
    }
  }

  /** A release that spares `h` never looks at the slots of `h`. */
  lemma {:induction false} ReleaseIgnores(cells: seq<Cell>, h: Loc, node: Node, l: Loc)
    requires Live(cells, h) && Live(Release(cells, l), h)
    ensures Release(Renode(cells, h, node), l) == Renode(Release(cells, l), h, node)
    ensures Releasable(cells, l) ==> Releasable(Renode(cells, h, node), l)
    decreases LiveCount(cells), 0
  {
    if Live(cells, l) {
      if cells[l].count > 1 {
        var c := cells[l].(count := cells[l].count - 1);
        assert Renode(cells[l := c], h, node) ==
               Renode(cells, h, node)[l := Renode(cells, h, node)[l].(count := cells[l].count - 1)];
      } else {
        LiveCountUpdate(cells, l, FREED);
        ReleaseAllSurvives(cells[l := FREED], Slots(cells[l]));
        assert Renode(cells[l := FREED], h, node) == Renode(cells, h, node)[l := FREED];
        ReleaseAllIgnores(cells[l := FREED], h, node, Slots(cells[l]));
      }
    }
  }

  lemma {:induction false} ReleaseAllIgnores(cells: seq<Cell>, h: Loc, node: Node, ls: seq<Loc>)
    requires Live(cells, h) && Live(ReleaseAll(cells, ls), h)
    ensures ReleaseAll(Renode(cells, h, node), ls) == Renode(ReleaseAll(cells, ls), h, node)
    ensures ReleasableAll(cells, ls) ==> ReleasableAll(Renode(cells, h, node), ls)
    decreases LiveCount(cells), |ls|
  {
    if ls != [] {
      ReleaseAllSurvives(Release(cells, ls[0]), ls[1..]);
      ReleaseIgnores(cells, h, node, ls[0]);
      ReleaseAllIgnores(Release(cells, ls[0]), h, node, ls[1..]);
    }
  }
}

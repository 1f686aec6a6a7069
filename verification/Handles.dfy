/**
 * The places where handles live, variables and container slots, and the assignment of one to another: it keeps
 * every count exact, and it is safe under an exact condition.
 */
module Handles {
  import opened Base
  import opened Values
  import opened RefCounts
  import opened Reachability

  /** Where a `var_c` lives: a variable of the program, or a slot of the container at `h`. */
  datatype Place = Var(i: nat) | Slot(h: Loc, j: nat)

  /** `interned` is `m_str_map`; the handles it stores are variables of their own, which nobody else names. */
  datatype State = State(cells: seq<Cell>, vars: seq<Option<Loc>>, interned: map<bytes, nat>)

  function One(v: Option<Loc>): multiset<Loc> {
    if v.Some? then multiset{v.value} else multiset{}
  }

  /** The handles held by variables. */
  function Outside(vars: seq<Option<Loc>>): multiset<Loc> {
    if vars == [] then multiset{} else Outside(vars[..|vars| - 1]) + One(vars[|vars| - 1])
  }

  lemma {:induction false} OutsideAppend(vars: seq<Option<Loc>>, v: Option<Loc>)
    ensures Outside(vars + [v]) == Outside(vars) + One(v)
  {
    assert (vars + [v])[..|vars|] == vars;
  }

  lemma {:induction false} OutsideUpdate(vars: seq<Option<Loc>>, i: nat, v: Option<Loc>)
    requires i < |vars|
    ensures Outside(vars[i := v]) + One(vars[i]) == Outside(vars) + One(v)
  {
    hide One;
    var n := |vars| - 1;
    if i == n {
      assert vars[i := v][..n] == vars[..n];
      Swap(Outside(vars[..n]), One(v), One(vars[n]));
    } else {
      assert vars[i := v][..n] == vars[..n][i := v];
      OutsideUpdate(vars[..n], i, v);
      Exchange(Outside(vars[..n][i := v]), Outside(vars[..n]), One(vars[n]), One(vars[i]), One(v));
    }
  }

  lemma {:induction false} Swap(a: multiset<Loc>, b: multiset<Loc>, c: multiset<Loc>)
    ensures a + b + c == a + c + b
  {
  }

  lemma {:induction false} Exchange(a: multiset<Loc>, b: multiset<Loc>, c: multiset<Loc>, x: multiset<Loc>,
                                    y: multiset<Loc>)
    requires a + x == b + y
    ensures (a + c) + x == (b + c) + y
  {
    forall l: Loc ensures ((a + c) + x)[l] == ((b + c) + y)[l] {
      assert (a + x)[l] == (b + y)[l];
    }
  }

  lemma {:induction false} OutsideHolds(vars: seq<Option<Loc>>, i: nat)
    requires i < |vars| && vars[i].Some?
    ensures vars[i].value in Outside(vars)
  {
    OutsideUpdate(vars, i, None);
    assert (Outside(vars) + One(None))[vars[i].value] > 0;
  }

  lemma {:induction false} MovedAside(a: multiset<Loc>, b: multiset<Loc>, c: multiset<Loc>)
    ensures a + (b + c) == (a + c) + b
  {
  }

  ghost predicate Exact(s: State) {
    Counted(s.cells, Outside(s.vars))
  }

  // --- Places ---

  predicate Exists(s: State, p: Place) {
    match p
    case Var(i) => i < |s.vars| && s.vars[i].Some?
    case Slot(h, j) => Live(s.cells, h) && s.cells[h].node.Container? && j < |s.cells[h].node.slots|
  }

  function At(s: State, p: Place): Loc
    requires Exists(s, p)
  {
    match p
    case Var(i) => s.vars[i].value
    case Slot(h, j) => s.cells[h].node.slots[j]
  }

  function Put(s: State, p: Place, l: Loc): State
    requires Exists(s, p)
  {
    match p
    case Var(i) => s.(vars := s.vars[i := Some(l)])
    case Slot(h, j) =>
      s.(cells := Renode(s.cells, h, s.cells[h].node.(slots := s.cells[h].node.slots[j := l])))
  }

  /** The state without the handle at `p`. */
  function Detached(s: State, p: Place): State
    requires Exists(s, p)
  {
    match p
    case Var(i) => s.(vars := s.vars[i := None])
    case Slot(h, j) => s.(cells := Renode(s.cells, h, s.cells[h].node.(slots := Without(s.cells[h].node.slots, j))))
  }

  function Without(ls: seq<Loc>, j: nat): seq<Loc>
    requires j < |ls|
  {
    ls[..j] + ls[j + 1..]
  }

  lemma {:induction false} WithoutOne(ls: seq<Loc>, j: nat)
    requires j < |ls|
    ensures multiset(ls) == multiset(Without(ls, j)) + multiset{ls[j]}
  {
    assert ls == ls[..j] + [ls[j]] + ls[j + 1..];
  }

  /** No handle points to a freed location. */
  lemma {:induction false} AtIsLive(s: State, p: Place)
    requires Exact(s) && Exists(s, p)
    ensures Live(s.cells, At(s, p))
  {
    assert CountedAt(s.cells, Outside(s.vars), At(s, p));
    match p
    case Var(i) => OutsideHolds(s.vars, i);
    case Slot(h, j) => RefsOfHeld(s.cells, h, At(s, p));
  }

  lemma {:induction false} DetachedCounted(s: State, p: Place)
    requires Exact(s) && Exists(s, p)
    ensures Counted(Detached(s, p).cells, Outside(Detached(s, p).vars) + multiset{At(s, p)})
  {
    match p
    case Var(i) =>
      OutsideUpdate(s.vars, i, None);
      assert Outside(s.vars) + One(None) == Outside(s.vars);
    case Slot(h, j) => WithoutCounted(s.cells, Outside(s.vars), h, j);
  }

  lemma {:induction false} WithoutCounted(cells: seq<Cell>, outside: multiset<Loc>, h: Loc, j: nat)
    requires Counted(cells, outside) && Live(cells, h) && cells[h].node.Container? && j < |cells[h].node.slots|
    ensures Counted(Renode(cells, h, cells[h].node.(slots := Without(cells[h].node.slots, j))),
                    outside + multiset{cells[h].node.slots[j]})
  {
    var node := cells[h].node;
    WithoutOne(node.slots, j);
    var rest, one := multiset(Without(node.slots, j)), multiset{node.slots[j]};
    MovedAside(outside, rest, one);
    RenodeCounted(cells, outside, h, node.(slots := Without(node.slots, j)), outside + one);
  }

  // --- Assignment ---

  /**
   * `operator =`, in the order of its three statements: count the source's location up, release the target's,
   * then read the source a second time and store it in the target. `None` when the source or the target has
   * been freed by then.
   */
  function Assigned(s: State, target: Place, source: Place): Option<State>
    requires Exact(s) && Exists(s, target) && Exists(s, source)
  {
    AtIsLive(s, source);
    var s' := s.(cells := Release(Raised(s.cells, At(s, source)), At(s, target)));
    if Exists(s', source) && Exists(s', target) then Some(Put(s', target, At(s', source))) else None
  }

  lemma {:induction false} ReplacedOne(ls: seq<Loc>, j: nat, l: Loc)
    requires j < |ls|
    ensures multiset{l} + multiset(ls) == multiset{ls[j]} + multiset(ls[j := l])
  {
    assert ls == ls[..j] + [ls[j]] + ls[j + 1..];
    assert ls[j := l] == ls[..j] + [l] + ls[j + 1..];
  }

  /** A completed assignment keeps every count exact, cycles or not, and leaves the source's location in the target. */
  lemma {:induction false} AssignedCounted(s: State, target: Place, source: Place)
    requires Exact(s) && Exists(s, target) && Exists(s, source) && Assigned(s, target, source).Some?
    ensures var s' := Assigned(s, target, source).value;
            Exact(s') && Exists(s', target) && At(s', target) == At(s, source)
    ensures Releasable(Raised(s.cells, At(s, source)), At(s, target))
  {
    hide Release, Releasable, Counted, Outside, Survives;
    AtIsLive(s, source);
    var l, was := At(s, source), At(s, target);
    var up := Raised(s.cells, l);
    RaisedCounted(s.cells, Outside(s.vars), l);
    ReadAgain(s, target, source);
    match target
    case Var(i) =>
      OutsideUpdate(s.vars, i, Some(l));
      ReleaseCounted(up, Outside(s.vars[i := Some(l)]), was);
    case Slot(h, j) => OverwrittenCounted(up, Outside(s.vars), h, j, l);
  }

  /** The second reading of the source finds what the first found. */
  lemma {:induction false} ReadAgain(s: State, target: Place, source: Place)
    requires Exact(s) && Exists(s, target) && Exists(s, source)
    ensures var s' := s.(cells := Release(Raised(s.cells, At(s, source)), At(s, target)));
            && (Exists(s', source) ==> At(s', source) == At(s, source))
            && (Exists(s', target) && target.Slot? ==>
                  s'.cells[target.h].node == Raised(s.cells, At(s, source))[target.h].node)
  {
    hide Release, Exact;
    ReleaseSurvives(Raised(s.cells, At(s, source)), At(s, target));
  }

  /** Releasing the old handle of a slot and then storing `l` is storing `l` and then releasing the old handle. */
  lemma {:induction false} OverwrittenCounted(cells: seq<Cell>, outside: multiset<Loc>, h: Loc, j: nat, l: Loc)
    requires Counted(cells, outside + multiset{l})
    requires Live(cells, h) && cells[h].node.Container? && j < |cells[h].node.slots|
    requires Live(Release(cells, cells[h].node.slots[j]), h)
    ensures var node, was := cells[h].node, cells[h].node.slots[j];
            && Counted(Renode(Release(cells, was), h, node.(slots := node.slots[j := l])), outside)
            && Releasable(cells, was)
  {
    hide Release, Releasable, Counted;
    var node, was := cells[h].node, cells[h].node.slots[j];
    var node' := node.(slots := node.slots[j := l]);
    ReplacedOne(node.slots, j, l);
    assert outside + multiset{l} + multiset(node.slots) == outside + multiset{was} + multiset(node'.slots);
    RenodeCounted(cells, outside + multiset{l}, h, node', outside + multiset{was});
    ReleaseCounted(Renode(cells, h, node'), outside, was);
    ReleaseIgnores(cells, h, node', was);
    assert Renode(Renode(cells, h, node'), h, node) == cells;
    ReleaseIgnores(Renode(cells, h, node'), h, node, was);
  }

  lemma {:induction false} RaisedKeepsHeld(cells: seq<Cell>, l: Loc, outside: multiset<Loc>, h: Loc)
    ensures Held(Raised(cells, l), outside, h) <==> Held(cells, outside, h)
  {
    hide Raised, Held;
    RaisedSurvives(cells, l);
    if Held(cells, outside, h) {
      HeldBefore(Raised(cells, l), cells, outside, h);
    }
    if Held(Raised(cells, l), outside, h) {
      HeldBefore(cells, Raised(cells, l), outside, h);
    }
  }

  lemma {:induction false} RaisedSurvives(cells: seq<Cell>, l: Loc)
    ensures Survives(cells, Raised(cells, l)) && Survives(Raised(cells, l), cells)
  {
  }

  /** The release inside an assignment spares exactly what is held without the target's handle. */
  lemma {:induction false} AssignmentSpares(s: State, target: Place, source: Place, h: Loc)
    requires Exact(s) && Exists(s, target) && Exists(s, source)
    ensures var d := Detached(s, target);
            Live(Release(Raised(d.cells, At(s, source)), At(s, target)), h) <==> HeldWithout(s, target, source, h)
  {
    hide Exact, Release, Held, Counted;
    AtIsLive(s, source);
    var d, l, was := Detached(s, target), At(s, source), At(s, target);
    var outside := Outside(d.vars) + multiset{l};
    DetachedCounted(s, target);
    RaisedCounted(d.cells, Outside(d.vars) + multiset{was}, l);
    assert Outside(d.vars) + multiset{was} + multiset{l} == outside + multiset{was};
    ReleaseSparesHeld(Raised(d.cells, l), outside, was, h);
    RaisedKeepsHeld(d.cells, l, outside, h);
  }

  /** `h` is held when the target's handle is gone, by a cycle or by the other handles and one to the source's location. */
  ghost predicate HeldWithout(s: State, target: Place, source: Place, h: Loc)
    requires Exists(s, target) && Exists(s, source)
  {
    var d := Detached(s, target);
    Held(d.cells, Outside(d.vars) + multiset{At(s, source)}, h)
  }

  /**
   * When assignment is safe, on every heap: it completes exactly when the containers that store the source and
   * the target are held without the handle about to be overwritten.
   */
  lemma {:induction false} AssignIsSafe(s: State, target: Place, source: Place)
    requires Exact(s) && Exists(s, target) && Exists(s, source)
    ensures Assigned(s, target, source).Some? <==>
            && (source.Slot? ==> HeldWithout(s, target, source, source.h))
            && (target.Slot? ==> HeldWithout(s, target, source, target.h))
  {
    hide Release, Releasable, Exact, Detached, HeldWithout;
    AssignedWhen(s, target, source);
    SlotIgnored(s, target, source);
    if target.Slot? {
      AssignmentSpares(s, target, source, target.h);
    }
    if source.Slot? {
      AssignmentSpares(s, target, source, source.h);
    }
  }

  /** An assignment completes when the containers of both places outlive its release. */
  lemma {:induction false} AssignedWhen(s: State, target: Place, source: Place)
    requires Exact(s) && Exists(s, target) && Exists(s, source)
    ensures var after := Release(Raised(s.cells, At(s, source)), At(s, target));
            Assigned(s, target, source).Some? <==>
            (source.Slot? ==> Live(after, source.h)) && (target.Slot? ==> Live(after, target.h))
  {
    hide Release, Exact;
    ReleaseSurvives(Raised(s.cells, At(s, source)), At(s, target));
  }

  lemma {:induction false} RaisedRenode(cells: seq<Cell>, l: Loc, h: Loc, node: Node)
    requires h < |cells|
    ensures Renode(Raised(cells, l), h, node) == Raised(Renode(cells, h, node), l)
    ensures Renode(Renode(Raised(cells, l), h, node), h, cells[h].node) == Raised(cells, l)
  {
  }

  /** As long as the target's container survives the release, the release runs as if the target's slot were empty. */
  lemma {:induction false} SlotIgnored(s: State, target: Place, source: Place)
    requires Exact(s) && Exists(s, target) && Exists(s, source)
    ensures var after := Release(Raised(s.cells, At(s, source)), At(s, target));
            var spared := Release(Raised(Detached(s, target).cells, At(s, source)), At(s, target));
            && (target.Slot? ==> (Live(after, target.h) <==> Live(spared, target.h)))
            && ((target.Slot? ==> Live(after, target.h)) ==> forall h: Loc :: Live(after, h) <==> Live(spared, h))
  {
    hide Release, Exact;
    if target.Slot? {
      var l, was, h := At(s, source), At(s, target), target.h;
      var d, up := Detached(s, target).cells, Raised(s.cells, l);
      AtIsLive(s, source);
      RaisedRenode(s.cells, l, h, d[h].node);
      if Live(Release(up, was), h) {
        ReleaseIgnores(up, h, d[h].node, was);
      }
      if Live(Release(Raised(d, l), was), h) {
        ReleaseIgnores(Raised(d, l), h, s.cells[h].node, was);
      }
    }
  }

  // --- Assignment without cycles ---

  lemma {:induction false} DetachedHolds(s: State, p: Place, h: Loc, l: Loc)
    requires Exists(s, p)
    ensures Holds(Detached(s, p).cells, h, l) ==> Holds(s.cells, h, l)
    ensures Holds(s.cells, h, l) && (p.Slot? ==> p.h != h) ==> Holds(Detached(s, p).cells, h, l)
  {
  }

  lemma {:induction false} DetachedRanked(s: State, p: Place, rank: seq<nat>)
    requires Exists(s, p) && Ranked(s.cells, rank)
    ensures Ranked(Detached(s, p).cells, rank)
  {
    var cells := Detached(s, p).cells;
    forall h: Loc, l: Loc | Holds(cells, h, l) && l < |rank| ensures rank[l] < rank[h] {
      DetachedHolds(s, p, h, l);
    }
  }

  /** A container is reached without the handles inside it. */
  lemma {:induction false} OwnerStaysReachable(s: State, p: Place, rank: seq<nat>)
    requires Exact(s) && Exists(s, p) && p.Slot? && Ranked(s.cells, rank)
    ensures Reachable(Detached(s, p).cells, Outside(s.vars), p.h)
  {
    LiveIsReachable(s.cells, Outside(s.vars), rank, p.h);
    var path, from :| from in Outside(s.vars) && Chain(s.cells, path, from, p.h);
    forall i | 0 < i < |path| ensures Holds(Detached(s, p).cells, path[i - 1], path[i]) {
      ChainDescends(s.cells, rank, path, from, p.h, i - 1);
      assert Holds(s.cells, path[i - 1], path[i]);
      DetachedHolds(s, p, path[i - 1], path[i]);
    }
    assert Chain(Detached(s, p).cells, path, from, p.h);
  }

  lemma {:induction false} ReachableFromMore(cells: seq<Cell>, outside: multiset<Loc>, l: Loc, h: Loc)
    requires Reachable(cells, outside, h)
    ensures Reachable(cells, outside + multiset{l}, h)
  {
    var path, from :| from in outside && Chain(cells, path, from, h);
    assert from in outside + multiset{l};
  }

  /** Nothing is reached from a handle stored in a container back to that container. */
  lemma {:induction false} ReachedWithoutItsSlot(s: State, target: Place, source: Place, rank: seq<nat>)
    requires Exact(s) && Exists(s, target) && Exists(s, source) && source.Slot? && Ranked(s.cells, rank)
    ensures var d := Detached(s, target);
            Reachable(d.cells, Outside(d.vars) + multiset{At(s, source)}, source.h) ==>
            Reachable(d.cells, Outside(d.vars), source.h)
  {
    var d, l, h := Detached(s, target), At(s, source), source.h;
    AtIsLive(s, source);
    assert Holds(s.cells, h, l);
    DetachedRanked(s, target, rank);
    forall path, from | from in Outside(d.vars) + multiset{l} && Chain(d.cells, path, from, h)
      ensures from in Outside(d.vars)
    {
      if |path| > 1 {
        ChainDescends(d.cells, rank, path, from, h, 0);
      }
    }
  }

  /**
   * On a heap without cycles the target is never in the way: assignment completes exactly when the source is a
   * variable, or sits in a container that variables reach without the handle about to be overwritten.
   */
  lemma {:induction false} AssignIsSafeWithoutCycles(s: State, target: Place, source: Place, rank: seq<nat>)
    requires Exact(s) && Exists(s, target) && Exists(s, source) && Ranked(s.cells, rank)
    ensures Assigned(s, target, source).Some? <==>
            (source.Slot? ==> Reachable(Detached(s, target).cells, Outside(Detached(s, target).vars), source.h))
  {
    hide Assigned, Reachable, Looped, Exact, Ranked, Detached;
    AssignIsSafe(s, target, source);
    DetachedRanked(s, target, rank);
    var d, l := Detached(s, target), At(s, source);
    if target.Slot? {
      OwnerStaysReachable(s, target, rank);
      assert d.vars == s.vars by {
        DetachedKeepsVariables(s, target);
      }
      ReachableFromMore(d.cells, Outside(d.vars), l, target.h);
    }
    if source.Slot? {
      RankedHasNoCycle(d.cells, Outside(d.vars) + multiset{l}, rank, source.h);
      ReachedWithoutItsSlot(s, target, source, rank);
      if Reachable(d.cells, Outside(d.vars), source.h) {
        ReachableFromMore(d.cells, Outside(d.vars), l, source.h);
      }
    }
  }

  lemma {:induction false} DetachedKeepsVariables(s: State, p: Place)
    requires Exists(s, p) && p.Slot?
    ensures Detached(s, p).vars == s.vars
  {
  }

  // --- Inputs on both sides of the condition ---

  /** The condition can fail: `x = x[0]` when `x` is the only handle to its array reads a freed slot. */
  lemma {:induction false} AssignFromOwnElement()
    ensures var s := State([Cell(true, 1, Container(KArray, [1])), Cell(true, 1, Scalar(Blank))], [Some(0)], map[]);
            && Exact(s) && Exists(s, Var(0)) && Exists(s, Slot(0, 0))
            && Assigned(s, Var(0), Slot(0, 0)) == None
  {
    var a, b := Cell(true, 1, Container(KArray, [1])), Cell(true, 1, Scalar(Blank));
    var cells, vars := [a, b], [Some(0)];
    assert cells[..1] == [a] && [a][..0] == [] && vars[..0] == [];
    forall l: Loc ensures CountedAt(cells, Outside(vars), l) {
      assert Refs(cells, l) == Refs([a], l) == multiset([1])[l];
    }
    var up := Raised(cells, 1);
    assert up == [a, b.(count := 2)];
    assert Release(up, 0) == ReleaseAll(up[0 := FREED], [1]);
    assert !Live(Release(up, 0), 0) by {
      ReleaseAllSurvives(up[0 := FREED], [1]);
    }
  }

  /** A cycle can hold what no variable does: `x = x[0]` completes when `x[0]` is the array itself. */
  lemma {:induction false} AssignFromCycle()
    ensures var s := State([Cell(true, 2, Container(KArray, [0]))], [Some(0)], map[]);
            && Exact(s) && Exists(s, Var(0)) && Exists(s, Slot(0, 0))
            && Assigned(s, Var(0), Slot(0, 0)).Some?
            && Outside(Detached(s, Var(0)).vars) == multiset{}
  {
    var a := Cell(true, 2, Container(KArray, [0]));
    var cells, vars := [a], [Some(0)];
    assert cells[..0] == [] && vars[..0] == [];
    forall l: Loc ensures CountedAt(cells, Outside(vars), l) {
      assert Refs(cells, l) == multiset([0])[l];
    }
    var gone := vars[0 := None];
    assert gone == [None] && gone[..0] == [];
  }

  /** Two arrays that hold each other, and a variable with a handle to a third location. */
  const CYCLE: seq<Cell> :=
    [Cell(true, 1, Container(KArray, [1])), Cell(true, 1, Container(KArray, [0])), Cell(true, 1, Scalar(Blank))]

  lemma {:induction false} CycleRefs(l: Loc)
    ensures Refs(CYCLE, l) == (if l < 2 then 1 else 0)
  {
    var two, one := CYCLE[..2], CYCLE[..1];
    assert two[..1] == one && one[..0] == [];
    assert Refs(one, l) == multiset([1])[l];
    assert Refs(two, l) == Refs(one, l) + multiset([0])[l];
  }

  lemma {:induction false} CycleIsExact()
    ensures Exact(State(CYCLE, [Some(2)], map[]))
  {
    hide Refs;
    var vars: seq<Option<Loc>> := [Some(2)];
    assert vars[..0] == [];
    forall l: Loc ensures CountedAt(CYCLE, Outside(vars), l) {
      CycleRefs(l);
    }
  }

  /** A cycle can also take its own slot away: storing a variable in it frees the container of the target. */
  lemma {:induction false} AssignIntoCycle()
    ensures var s := State(CYCLE, [Some(2)], map[]);
            && Exact(s) && Exists(s, Slot(0, 0)) && Exists(s, Var(0))
            && Assigned(s, Slot(0, 0), Var(0)) == None
  {
    hide Refs, Counted, Outside;
    CycleIsExact();
    var up, rest := Raised(CYCLE, 2), [0];
    assert Release(up, 1) == ReleaseAll(up[1 := FREED], rest);
    assert rest[1..] == [] && ReleaseAll(up[1 := FREED], rest) == Release(up[1 := FREED], 0);
    assert !Live(Release(up, 1), 0) by {
      ReleaseAllSurvives(up[1 := FREED][0 := FREED], [1]);
    }
  }
}

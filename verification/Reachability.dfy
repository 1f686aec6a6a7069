/**
 * Chains of handles, and what they keep alive: a location is live exactly when a handle outside the heap, or a
 * cycle inside it, leads to it; and a release frees exactly what neither leads to.
 */
module Reachability {
  import opened RefCounts

  /** A chain of handles from `from` to `l` through live containers. */
  ghost predicate Chain(cells: seq<Cell>, path: seq<Loc>, from: Loc, l: Loc) {
    && path != [] && path[0] == from && path[|path| - 1] == l
    && forall i :: 0 < i < |path| ==> Holds(cells, path[i - 1], path[i])
  }

  ghost predicate Holds(cells: seq<Cell>, h: Loc, l: Loc) {
    Live(cells, h) && l in Slots(cells[h])
  }

  ghost predicate Reachable(cells: seq<Cell>, outside: multiset<Loc>, l: Loc) {
    exists path, from :: from in outside && Chain(cells, path, from, l)
  }

  /** A chain of at least one handle leads from `x` back to `x`. */
  ghost predicate OnCycle(cells: seq<Cell>, x: Loc) {
    exists path :: |path| > 1 && Chain(cells, path, x, x)
  }

  ghost predicate Looped(cells: seq<Cell>, l: Loc) {
    exists path, from :: OnCycle(cells, from) && Chain(cells, path, from, l)
  }

  ghost predicate Held(cells: seq<Cell>, outside: multiset<Loc>, l: Loc) {
    Reachable(cells, outside, l) || Looped(cells, l)
  }

  /** Every handle leads to a location of smaller rank: there is no cycle. */
  ghost predicate Ranked(cells: seq<Cell>, rank: seq<nat>) {
    |rank| == |cells| &&
    forall h: Loc, l: Loc :: Holds(cells, h, l) && l < |rank| ==> rank[l] < rank[h]
  }

  // --- Live is held ---

  lemma {:induction false} ChainIsLive(cells: seq<Cell>, outside: multiset<Loc>, path: seq<Loc>, from: Loc, l: Loc)
    requires Counted(cells, outside) && Live(cells, from) && Chain(cells, path, from, l)
    ensures Live(cells, l)
  {
    if |path| > 1 {
      assert Holds(cells, path[|path| - 2], l);
      RefsOfHeld(cells, path[|path| - 2], l);
      assert CountedAt(cells, outside, l);
    }
  }

  lemma {:induction false} ChainLonger(cells: seq<Cell>, h: Loc, path: seq<Loc>, from: Loc, l: Loc)
    requires Chain(cells, path, from, l) && Holds(cells, h, from)
    ensures Chain(cells, [h] + path, h, l)
  {
    var p := [h] + path;
    forall i | 0 < i < |p| ensures Holds(cells, p[i - 1], p[i]) {
      if i > 1 {
        assert Holds(cells, path[i - 2], path[i - 1]);
      }
    }
  }

  lemma {:induction false} ChainShorter(cells: seq<Cell>, path: seq<Loc>, from: Loc, l: Loc, n: nat)
    requires Chain(cells, path, from, l) && 0 < n <= |path|
    ensures Chain(cells, path[..n], from, path[n - 1])
  {
    var p := path[..n];
    forall i | 0 < i < |p| ensures Holds(cells, p[i - 1], p[i]) {
      assert Holds(cells, path[i - 1], path[i]);
    }
  }

  /** Walking from a live location back to its holders ends outside the heap, or closes a cycle. */
  lemma {:induction false} WalkBack(cells: seq<Cell>, outside: multiset<Loc>, path: seq<Loc>, from: Loc, l: Loc,
                                    unseen: set<Loc>)
    requires Counted(cells, outside) && Live(cells, from) && Chain(cells, path, from, l)
    requires forall x: Loc :: Live(cells, x) && x !in path ==> x in unseen
    ensures Held(cells, outside, l)
    decreases unseen
  {
    assert CountedAt(cells, outside, from);
    if from !in outside {
      var h := RefsHolder(cells, from);
      ChainLonger(cells, h, path, from, l);
      if h in path {
        var k :| 0 <= k < |path| && path[k] == h;
        ChainShorter(cells, path, from, l, k + 1);
        ChainLonger(cells, h, path[..k + 1], from, h);
        assert OnCycle(cells, h);
      } else {
        WalkBack(cells, outside, [h] + path, h, l, unseen - {h});
      }
    }
  }

  /** The live locations are exactly those to which an outside handle or a cycle leads. */
  lemma {:induction false} LiveIsHeld(cells: seq<Cell>, outside: multiset<Loc>, l: Loc)
    requires Counted(cells, outside)
    ensures Live(cells, l) <==> Held(cells, outside, l)
  {
    if Live(cells, l) {
      WalkBack(cells, outside, [l], l, l, set x: Loc | x < |cells| && Live(cells, x));
    }
    if Reachable(cells, outside, l) {
      var path, from :| from in outside && Chain(cells, path, from, l);
      assert CountedAt(cells, outside, from);
      ChainIsLive(cells, outside, path, from, l);
    }
    if Looped(cells, l) {
      var path, from :| OnCycle(cells, from) && Chain(cells, path, from, l);
      var cycle :| |cycle| > 1 && Chain(cells, cycle, from, from);
      assert Holds(cells, cycle[0], cycle[1]);
      ChainIsLive(cells, outside, path, from, l);
    }
  }

  // --- A release spares what is held ---

  /** Every member of `s` is live, and has a handle in `outside` or in a member of `s`. */
  ghost predicate Sustained(cells: seq<Cell>, outside: multiset<Loc>, s: set<Loc>) {
    forall x: Loc :: x in s ==> Live(cells, x) && SustainedAt(cells, outside, s, x)
  }

  ghost predicate SustainedAt(cells: seq<Cell>, outside: multiset<Loc>, s: set<Loc>, x: Loc) {
    x in outside || exists h :: h in s && Holds(cells, h, x)
  }

  /** Locations that sustain one another outlive the release of any further handle. */
  lemma {:induction false} SustainedSurvives(cells: seq<Cell>, outside: multiset<Loc>, others: multiset<Loc>, l: Loc,
                                             s: set<Loc>)
    requires outside <= others && Counted(cells, others + multiset{l}) && Sustained(cells, outside, s)
    ensures Sustained(Release(cells, l), outside, s)
    decreases LiveCount(cells), 0
  {
    assert CountedAt(cells, others + multiset{l}, l);
    if cells[l].count > 1 {
      CellChanged(cells, outside, s, l, cells[l].(count := cells[l].count - 1));
    } else {
      if l in s {
        assert SustainedAt(cells, outside, s, l);
        if h :| h in s && Holds(cells, h, l) {
          RefsOfHeld(cells, h, l);
        }
        assert false;
      }
      LiveCountUpdate(cells, l, FREED);
      Freed(cells, others, l);
      CellChanged(cells, outside, s, l, FREED);
      SustainedSurvivesAll(cells[l := FREED], outside, others, Slots(cells[l]), s);
    }
  }

  lemma {:induction false} CellChanged(cells: seq<Cell>, outside: multiset<Loc>, s: set<Loc>, l: Loc, c: Cell)
    requires l < |cells| && Sustained(cells, outside, s)
    requires l in s ==> c.live && c.node == cells[l].node
    ensures Sustained(cells[l := c], outside, s)
  {
    var cells' := cells[l := c];
    forall x: Loc | x in s ensures Live(cells', x) && SustainedAt(cells', outside, s, x) {
      assert SustainedAt(cells, outside, s, x);
      if x !in outside {
        var h :| h in s && Holds(cells, h, x);
        assert Live(cells, h);
        assert Holds(cells', h, x);
      }
    }
  }

  lemma {:induction false} SustainedSurvivesAll(cells: seq<Cell>, outside: multiset<Loc>, others: multiset<Loc>,
                                                ls: seq<Loc>, s: set<Loc>)
    requires outside <= others && Counted(cells, others + multiset(ls)) && Sustained(cells, outside, s)
    ensures Sustained(ReleaseAll(cells, ls), outside, s)
    decreases LiveCount(cells), |ls|
  {
    hide Sustained, Counted;
    if ls != [] {
      assert ls == [ls[0]] + ls[1..];
      var rest := others + multiset(ls[1..]);
      assert others + multiset(ls) == rest + multiset{ls[0]};
      SustainedSurvives(cells, outside, rest, ls[0], s);
      ReleaseCounted(cells, rest, ls[0]);
      SustainedSurvivesAll(Release(cells, ls[0]), outside, others, ls[1..], s);
    }
  }

  /** What is held and not held from outside is held by something held. */
  lemma {:induction false} HeldByHeld(cells: seq<Cell>, outside: multiset<Loc>, l: Loc) returns (h: Loc)
    requires Held(cells, outside, l) && l !in outside
    ensures Holds(cells, h, l) && Held(cells, outside, h)
  {
    if Reachable(cells, outside, l) {
      var path, from :| from in outside && Chain(cells, path, from, l);
      h := path[|path| - 2];
      ChainShorter(cells, path, from, l, |path| - 1);
      assert Holds(cells, path[|path| - 2], path[|path| - 1]);
    } else {
      var path, from :| OnCycle(cells, from) && Chain(cells, path, from, l);
      if |path| == 1 {
        path :| |path| > 1 && Chain(cells, path, from, from);
      }
      h := path[|path| - 2];
      ChainShorter(cells, path, from, l, |path| - 1);
      assert Holds(cells, path[|path| - 2], path[|path| - 1]);
    }
  }

  /** Without the handle to be released, what was live and is still held sustains itself. */
  lemma {:induction false} HeldIsSustained(cells: seq<Cell>, outside: multiset<Loc>, l: Loc)
    requires Counted(cells, outside + multiset{l})
    ensures Sustained(cells, outside, set x: Loc | x < |cells| && Held(cells, outside, x))
    ensures forall x: Loc :: Held(cells, outside, x) ==> x < |cells|
  {
    var s := set x: Loc | x < |cells| && Held(cells, outside, x);
    forall x: Loc | Held(cells, outside, x) ensures Live(cells, x) && SustainedAt(cells, outside, s, x) {
      HeldIsLive(cells, outside, l, x);
      if x !in outside {
        var h := HeldByHeld(cells, outside, x);
        assert h in s;
      }
    }
  }

  lemma {:induction false} HeldIsLive(cells: seq<Cell>, outside: multiset<Loc>, l: Loc, x: Loc)
    requires Counted(cells, outside + multiset{l}) && Held(cells, outside, x)
    ensures Live(cells, x)
  {
    if Reachable(cells, outside, x) {
      var path, from :| from in outside && Chain(cells, path, from, x);
      assert from in outside + multiset{l};
    }
    LiveIsHeld(cells, outside + multiset{l}, x);
  }

  lemma {:induction false} ChainBefore(cells: seq<Cell>, after: seq<Cell>, path: seq<Loc>, from: Loc, l: Loc)
    requires Survives(cells, after) && Chain(after, path, from, l)
    ensures Chain(cells, path, from, l)
  {
    forall i | 0 < i < |path| ensures Holds(cells, path[i - 1], path[i]) {
      assert Holds(after, path[i - 1], path[i]);
    }
  }

  lemma {:induction false} HeldBefore(cells: seq<Cell>, after: seq<Cell>, outside: multiset<Loc>, l: Loc)
    requires Survives(cells, after) && Held(after, outside, l)
    ensures Held(cells, outside, l)
  {
    if Reachable(after, outside, l) {
      var path, from :| from in outside && Chain(after, path, from, l);
      ChainBefore(cells, after, path, from, l);
    } else {
      var path, from :| OnCycle(after, from) && Chain(after, path, from, l);
      var cycle :| |cycle| > 1 && Chain(after, cycle, from, from);
      ChainBefore(cells, after, cycle, from, from);
      ChainBefore(cells, after, path, from, l);
      assert OnCycle(cells, from);
    }
  }

  /** Dropping a handle spares exactly what the remaining handles and the cycles lead to. */
  lemma {:induction false} ReleaseSparesHeld(cells: seq<Cell>, outside: multiset<Loc>, l: Loc, h: Loc)
    requires Counted(cells, outside + multiset{l})
    ensures Live(Release(cells, l), h) <==> Held(cells, outside, h)
  {
    hide Release, Held, Counted;
    var after := Release(cells, l);
    ReleaseCounted(cells, outside, l);
    ReleaseSurvives(cells, l);
    LiveIsHeld(after, outside, h);
    if Live(after, h) {
      HeldBefore(cells, after, outside, h);
    }
    if Held(cells, outside, h) {
      HeldIsSustained(cells, outside, l);
      SustainedSurvives(cells, outside, outside, l, set x: Loc | x < |cells| && Held(cells, outside, x));
    }
  }

  // --- Without cycles ---

  lemma {:induction false} ChainDescends(cells: seq<Cell>, rank: seq<nat>, path: seq<Loc>, from: Loc, l: Loc, i: nat)
    requires Ranked(cells, rank) && Chain(cells, path, from, l) && l < |cells| && i < |path| - 1
    ensures path[i] < |cells| && rank[l] < rank[path[i]]
    decreases |path| - i
  {
    assert Holds(cells, path[i], path[i + 1]);
    if i + 1 < |path| - 1 {
      ChainDescends(cells, rank, path, from, l, i + 1);
    }
  }

  /** Ranks rule out cycles, so that only handles from outside hold a location. */
  lemma {:induction false} RankedHasNoCycle(cells: seq<Cell>, outside: multiset<Loc>, rank: seq<nat>, l: Loc)
    requires Ranked(cells, rank)
    ensures Held(cells, outside, l) <==> Reachable(cells, outside, l)
  {
    forall x: Loc ensures !OnCycle(cells, x) {
      if path :| |path| > 1 && Chain(cells, path, x, x) {
        assert Holds(cells, path[0], path[1]);
        ChainDescends(cells, rank, path, x, x, 0);
      }
    }
  }

  /** Without cycles the live locations are exactly those that can be reached from the outside handles. */
  lemma {:induction false} LiveIsReachable(cells: seq<Cell>, outside: multiset<Loc>, rank: seq<nat>, l: Loc)
    requires Counted(cells, outside) && Ranked(cells, rank)
    ensures Live(cells, l) <==> Reachable(cells, outside, l)
  {
    LiveIsHeld(cells, outside, l);
    RankedHasNoCycle(cells, outside, rank, l);
  }

  /** On a heap without cycles, dropping a handle frees exactly what the remaining handles do not reach. */
  lemma {:induction false} ReleaseFreesUnreachable(cells: seq<Cell>, outside: multiset<Loc>, rank: seq<nat>, l: Loc,
                                                   h: Loc)
    requires Counted(cells, outside + multiset{l}) && Ranked(cells, rank)
    ensures Live(Release(cells, l), h) <==> Reachable(cells, outside, h)
  {
    hide Counted, Release;
    ReleaseSparesHeld(cells, outside, l, h);
    RankedHasNoCycle(cells, outside, rank, h);
  }
}

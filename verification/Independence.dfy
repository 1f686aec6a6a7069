/** Values outlive every run that does not change their containers: a deep copy and its source go separate ways. */
module Independence {
  import opened Base
  import opened Values
  import opened RefCounts
  import opened Handles
  import opened Runs
  import opened HeapValues
  import opened CopySteps

  /** The operation stores into and removes from containers outside `lo..hi` only. */
  predicate Spares(op: Op, lo: Loc, hi: Loc) {
    match op
    case Assign(target, _) => target.Slot? ==> !(lo <= target.h < hi)
    case Insert(h, _, _) => !(lo <= h < hi)
    case Erase(h, _) => !(lo <= h < hi)
    case _ => true
  }

  /** No location comes back to life; those that stay alive keep their data, except containers outside `lo..hi`. */
  ghost predicate Untouched(lo: Loc, hi: Loc, before: seq<Cell>, after: seq<Cell>) {
    && hi <= |before| <= |after|
    && forall l :: 0 <= l < |before| && after[l].live ==>
                     before[l].live && (before[l].node.Scalar? || lo <= l < hi ==> after[l].node == before[l].node)
  }

  lemma {:induction false} UntouchedTransitive(lo: Loc, hi: Loc, a: seq<Cell>, b: seq<Cell>, c: seq<Cell>)
    requires Untouched(lo, hi, a, b) && Untouched(lo, hi, b, c)
    ensures Untouched(lo, hi, a, c)
  {
  }

  lemma {:induction false} ReleaseUntouched(lo: Loc, hi: Loc, cells: seq<Cell>, l: Loc)
    requires hi <= |cells|
    ensures Untouched(lo, hi, cells, Release(cells, l))
  {
    hide Release;
    ReleaseSurvives(cells, l);
  }

  lemma {:induction false} AssignedUntouched(s: State, target: Place, source: Place, lo: Loc, hi: Loc)
    requires Exact(s) && Exists(s, target) && Exists(s, source) && Assigned(s, target, source).Some?
    requires hi <= |s.cells| && (target.Slot? ==> !(lo <= target.h < hi))
    ensures Untouched(lo, hi, s.cells, Assigned(s, target, source).value.cells)
  {
    hide Release, Exact;
    ReleaseUntouched(lo, hi, Raised(s.cells, At(s, source)), At(s, target));
  }

  lemma {:induction false} StepUntouched(s: State, op: Op, lo: Loc, hi: Loc)
    requires Inv(s) && Allowed(s, op) && Step(s, op).Some? && Spares(op, lo, hi) && hi <= |s.cells|
    ensures Untouched(lo, hi, s.cells, Step(s, op).value.cells)
  {
    hide Release, Exact, Interned;
    match op
    case Create(_) =>
    case Literal(text) => LiteralUntouched(s, CString(text), lo, hi);
    case CopyHandle(_) =>
    case Destroy(i) => ReleaseUntouched(lo, hi, s.cells, s.vars[i].value);
    case Assign(target, source) => AssignedUntouched(s, target, source, lo, hi);
    case Insert(_, _, _) =>
    case Erase(h, at) =>
      ReleaseUntouched(lo, hi, Detached(s, Slot(h, at)).cells, At(s, Slot(h, at)));
  }

  lemma {:induction false} LiteralUntouched(s: State, text: bytes, lo: Loc, hi: Loc)
    requires Inv(s) && hi <= |s.cells| && Literally(s, text).Some?
    ensures Untouched(lo, hi, s.cells, Literally(s, text).value.cells)
  {
    hide Release, Exact, Interned, Assigned;
    if text !in s.interned {
      EntryMade(s, text);
      var blank := Created(Created(s, Scalar(Str(text))), Scalar(Blank));
      AssignedUntouched(blank, Var(|s.vars| + 1), Var(|s.vars|), lo, hi);
    }
  }

  lemma {:induction false} RunUntouched(s: State, ops: seq<Op>, lo: Loc, hi: Loc)
    requires Inv(s) && Run(s, ops).Some? && hi <= |s.cells|
    requires forall i :: 0 <= i < |ops| ==> Spares(ops[i], lo, hi)
    ensures Untouched(lo, hi, s.cells, Run(s, ops).value.cells) && Inv(Run(s, ops).value)
    decreases |ops|
  {
    hide Step, Inv, Spares, Allowed;
    if ops != [] {
      var s' := Step(s, ops[0]).value;
      StepKeeps(s, ops[0]);
      StepUntouched(s, ops[0], lo, hi);
      RunUntouched(s', ops[1..], lo, hi);
      UntouchedTransitive(lo, hi, s.cells, s'.cells, Run(s', ops[1..]).value.cells);
    }
  }

  /** What lives on keeps its value, because its handles keep alive what they lead to. */
  lemma {:induction false} ShowsUntouched(before: seq<Cell>, s: State, lo: Loc, l: Loc, v: Value)
    requires Exact(s) && Untouched(lo, |before|, before, s.cells) && Shows(before, lo, l, v)
    ensures Live(s.cells, l) ==> Shows(s.cells, lo, l, v)
    decreases v
  {
    hide Exact;
    if HasSlots(v) && Live(s.cells, l) {
      var kids, slots := Children(v), before[l].node.slots;
      forall i | 0 <= i < |kids| ensures Shows(s.cells, lo, slots[i], kids[i]) {
        ChildIsSmaller(v, i);
        AtIsLive(s, Slot(l, i));
        ShowsUntouched(before, s, lo, slots[i], kids[i]);
      }
    }
  }

  /**
   * A value whose containers lie in `lo..|before|` is still there after any run that spares those containers,
   * wherever its location is still alive: releases through other containers cannot change it.
   */
  lemma {:induction false} ValueOutlivesRun(before: seq<Cell>, s: State, ops: seq<Op>, lo: Loc, l: Loc, v: Value)
    requires Inv(s) && Run(s, ops).Some? && Shows(before, lo, l, v) && Untouched(lo, |before|, before, s.cells)
    requires forall i :: 0 <= i < |ops| ==> Spares(ops[i], lo, |before|)
    ensures Live(Run(s, ops).value.cells, l) ==> Shows(Run(s, ops).value.cells, lo, l, v)
  {
    hide Step, Spares, Run, Exact, Interned;
    RunUntouched(s, ops, lo, |before|);
    UntouchedTransitive(lo, |before|, before, s.cells, Run(s, ops).value.cells);
    ShowsUntouched(before, Run(s, ops).value, lo, l, v);
  }

  /**
   * After a deep copy, no run that leaves the older containers alone, whatever it does to those of the copy,
   * changes what any location held before the copy, as long as that location lives.
   */
  lemma {:induction false} SourceOutlivesCopy(was: State, s: State, i: nat, made: seq<Op>, v: Value, ops: seq<Op>,
                                              l: Loc, w: Value)
    requires Copied(was, s, i, made, v) && Run(s, ops).Some? && Shows(was.cells, 0, l, w)
    requires forall k :: 0 <= k < |ops| ==> Spares(ops[k], 0, |was.cells|)
    ensures Live(Run(s, ops).value.cells, l) ==> Shows(Run(s, ops).value.cells, 0, l, w)
  {
    hide Step, Spares, Run, Inv;
    ValueOutlivesRun(was.cells, s, ops, 0, l, w);
  }

  /** And no run that leaves the containers of the copy alone, whatever it does to the older ones, changes the copy. */
  lemma {:induction false} CopyOutlivesSource(was: State, s: State, i: nat, made: seq<Op>, v: Value, ops: seq<Op>)
    requires Copied(was, s, i, made, v) && Run(s, ops).Some?
    requires forall k :: 0 <= k < |ops| ==> Spares(ops[k], |was.cells|, |s.cells|)
    ensures var r, cells := s.vars[i].value, Run(s, ops).value.cells;
            Live(cells, r) ==> Shows(cells, |was.cells|, r, v)
  {
    hide Step, Spares, Run, Inv;
    ValueOutlivesRun(s.cells, s, ops, |was.cells|, s.vars[i].value, v);
  }
}

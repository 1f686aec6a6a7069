/** The operations of `var_c` as steps of a program, and what every run of them keeps. */
module Runs {
  import opened Base
  import opened Values
  import opened RefCounts
  import opened Reachability
  import opened Handles

  datatype Op =
    | Create(node: Node)
    | Literal(text: bytes)
    | CopyHandle(source: Place)
    | Destroy(i: nat)
    | Assign(target: Place, source: Place)
    | Insert(h: Loc, at: nat, source: Place)
    | Erase(h: Loc, at: nat)

  /** The bytes a `const char *` shows: up to the first NUL. */
  function CString(text: bytes): bytes {
    if text == [] || text[0] == 0 then [] else [text[0]] + CString(text[1..])
  }

  /** It is the longest prefix without a NUL, and a text without one is all of it. */
  lemma {:induction false} CStringIsPrefix(text: bytes)
    ensures CString(text) <= text && 0 !in CString(text)
    ensures CString(text) == text || text[|CString(text)|] == 0
    ensures 0 !in text ==> CString(text) == text
  {
    if text != [] && text[0] != 0 {
      CStringIsPrefix(text[1..]);
      assert text == [text[0]] + text[1..];
    }
  }

  /** What the program may name: places that exist, and never the handles inside `m_str_map`. */
  predicate Allowed(s: State, op: Op) {
    match op
    case Create(node) => node.Container? ==> node.slots == []
    case Literal(_) => true
    case CopyHandle(source) => Exists(s, source)
    case Destroy(i) => Exists(s, Var(i)) && i !in s.interned.Values
    case Assign(target, source) =>
      Exists(s, target) && Exists(s, source) && (target.Var? ==> target.i !in s.interned.Values)
    case Insert(h, at, source) =>
      Live(s.cells, h) && s.cells[h].node.Container? && at <= |s.cells[h].node.slots| && Exists(s, source)
    case Erase(h, at) => Exists(s, Slot(h, at))
  }

  ghost predicate Interned(s: State) {
    forall text :: text in s.interned ==> InternedAt(s, text)
  }

  /** The entry of `m_str_map` for a text holds that text. */
  ghost predicate InternedAt(s: State, text: bytes)
    requires text in s.interned
  {
    var p := Var(s.interned[text]);
    Exists(s, p) && Live(s.cells, At(s, p)) && s.cells[At(s, p)].node == Scalar(Str(text))
  }

  ghost predicate Inv(s: State) {
    Exact(s) && Interned(s)
  }

  /** `var_c(const char *)`: the handle of the entry for the text, which is made on first use. */
  function Literally(s: State, text: bytes): Option<State>
    requires Inv(s)
  {
    hide Counted, Outside, Release;
    if text in s.interned then
      assert InternedAt(s, text);
      var l := At(s, Var(s.interned[text]));
      Some(s.(cells := Raised(s.cells, l), vars := s.vars + [Some(l)]))
    else
      var n, k := |s.cells|, |s.vars|;
      var made := Created(s, Scalar(Str(text)));
      CreatedCounted(s, Scalar(Str(text)));
      var blank := Created(made, Scalar(Blank));
      CreatedCounted(made, Scalar(Blank));
      var r := Assigned(blank, Var(k + 1), Var(k));
      if r.None? then None else Some(r.value.(interned := s.interned[text := k + 1]))
  }

  function Created(s: State, node: Node): State {
    s.(cells := Allocated(s.cells, node), vars := s.vars + [Some(|s.cells|)])
  }

  lemma {:induction false} CreatedCounted(s: State, node: Node)
    requires Exact(s) && (node.Container? ==> node.slots == [])
    ensures Exact(Created(s, node))
  {
    AllocatedCounted(s.cells, Outside(s.vars), node);
    OutsideAppend(s.vars, Some(|s.cells|));
  }

  /** One operation; `None` when it touches a freed location. */
  function Step(s: State, op: Op): Option<State>
    requires Inv(s) && Allowed(s, op)
  {
    match op
    case Create(node) => Some(Created(s, node))
    case Literal(text) => Literally(s, CString(text))
    case CopyHandle(source) =>
      Some(s.(cells := Raised(s.cells, At(s, source)), vars := s.vars + [Some(At(s, source))]))
    case Destroy(i) => Some(s.(cells := Release(s.cells, s.vars[i].value), vars := s.vars[i := None]))
    case Assign(target, source) => Assigned(s, target, source)
    case Insert(h, at, source) =>
      var slots := s.cells[h].node.slots;
      Some(s.(cells := Renode(Raised(s.cells, At(s, source)), h,
                              s.cells[h].node.(slots := slots[..at] + [At(s, source)] + slots[at..]))))
    case Erase(h, at) =>
      Some(s.(cells := Release(Detached(s, Slot(h, at)).cells, At(s, Slot(h, at)))))
  }

  /** Interned texts stay: their handles are left alone, and data without handles is never rewritten. */
  lemma {:induction false} InternedKept(s: State, s': State)
    requires Interned(s) && Exact(s') && s'.interned == s.interned && |s.vars| <= |s'.vars|
    requires forall text :: text in s.interned && s.interned[text] < |s.vars| ==>
                              s'.vars[s.interned[text]] == s.vars[s.interned[text]]
    requires ScalarsKept(s.cells, s'.cells)
    ensures Interned(s')
  {
    forall text | text in s'.interned ensures InternedAt(s', text) {
      assert InternedAt(s, text);
      AtIsLive(s', Var(s.interned[text]));
    }
  }

  ghost predicate ScalarsKept(cells: seq<Cell>, after: seq<Cell>) {
    forall l: Loc :: Live(cells, l) && cells[l].node.Scalar? && Live(after, l) ==> after[l].node == cells[l].node
  }

  lemma {:induction false} AssignedKeeps(s: State, target: Place, source: Place)
    requires Inv(s) && Allowed(s, Assign(target, source)) && Assigned(s, target, source).Some?
    ensures var s' := Assigned(s, target, source).value;
            Inv(s') && s'.interned == s.interned && |s'.vars| == |s.vars| && ScalarsKept(s.cells, s'.cells)
    ensures var s' := Assigned(s, target, source).value;
            forall i :: 0 <= i < |s.vars| && target != Var(i) ==> s'.vars[i] == s.vars[i]
  {
    hide Release, Exact, Interned;
    AssignedCounted(s, target, source);
    ReleaseSurvives(Raised(s.cells, At(s, source)), At(s, target));
    InternedKept(s, Assigned(s, target, source).value);
  }

  lemma {:induction false} CreatedKeeps(s: State, node: Node)
    requires Inv(s) && (node.Container? ==> node.slots == [])
    ensures Inv(Created(s, node))
  {
    CreatedCounted(s, node);
    InternedKept(s, Created(s, node));
  }

  lemma {:induction false} CopyHandleKeeps(s: State, source: Place)
    requires Inv(s) && Exists(s, source)
    ensures var l := At(s, source);
            Inv(s.(cells := Raised(s.cells, l), vars := s.vars + [Some(l)]))
  {
    var l := At(s, source);
    var s' := s.(cells := Raised(s.cells, l), vars := s.vars + [Some(l)]);
    AtIsLive(s, source);
    RaisedCounted(s.cells, Outside(s.vars), l);
    OutsideAppend(s.vars, Some(l));
    InternedKept(s, s');
  }

  lemma {:induction false} InternedIsVariable(s: State, text: bytes)
    requires Interned(s) && text in s.interned
    ensures s.interned[text] < |s.vars| && s.vars[s.interned[text]].Some?
  {
    assert InternedAt(s, text);
  }

  /** The entry for a text is made once, and holds the text from then on. */
  lemma {:induction false} LiterallyKeeps(s: State, text: bytes)
    requires Inv(s)
    ensures Literally(s, text).Some?
    ensures var s' := Literally(s, text).value;
            && Inv(s') && text in s'.interned
            && |s.vars| < |s'.vars| && s'.interned[text] < |s'.vars|
            && s'.vars[|s.vars|] == s'.vars[s'.interned[text]]
  {
    hide Exact, Interned, Release, Created, Assigned;
    if text in s.interned {
      InternedIsVariable(s, text);
      CopyHandleKeeps(s, Var(s.interned[text]));
    } else {
      EntryMade(s, text);
    }
  }

  lemma {:induction false} EntryMade(s: State, text: bytes)
    requires Inv(s) && text !in s.interned
    ensures var blank := Created(Created(s, Scalar(Str(text))), Scalar(Blank));
            var k := |s.vars|;
            && Inv(blank) && Exists(blank, Var(k)) && Exists(blank, Var(k + 1))
            && var r := Assigned(blank, Var(k + 1), Var(k));
               && r.Some? && |r.value.vars| == k + 2 && r.value.vars[k] == r.value.vars[k + 1]
               && r.value.interned == s.interned
               && Inv(r.value.(interned := s.interned[text := k + 1]))
  {
    hide Exact, Interned, Release;
    var n, k := |s.cells|, |s.vars|;
    var made := Created(s, Scalar(Str(text)));
    var blank := Created(made, Scalar(Blank));
    CreatedKeeps(s, Scalar(Str(text)));
    CreatedKeeps(made, Scalar(Blank));
    forall t | t in s.interned ensures s.interned[t] < k {
      InternedIsVariable(s, t);
    }
    AssignedKeeps(blank, Var(k + 1), Var(k));
    AssignedCounted(blank, Var(k + 1), Var(k));
    var r := Assigned(blank, Var(k + 1), Var(k)).value;
    EntryAdded(r, text, k + 1, n);
  }

  lemma {:induction false} EntryAdded(r: State, text: bytes, k: nat, n: Loc)
    requires Inv(r) && Exists(r, Var(k)) && At(r, Var(k)) == n
    requires Live(r.cells, n) ==> r.cells[n].node == Scalar(Str(text))
    ensures Inv(r.(interned := r.interned[text := k]))
  {
    AtIsLive(r, Var(k));
    var r' := r.(interned := r.interned[text := k]);
    forall t | t in r'.interned ensures InternedAt(r', t) {
      if t != text {
        assert InternedAt(r, t);
      }
    }
  }

  lemma {:induction false} DestroyKeeps(s: State, i: nat)
    requires Inv(s) && Allowed(s, Destroy(i))
    ensures Inv(s.(cells := Release(s.cells, s.vars[i].value), vars := s.vars[i := None]))
  {
    DetachedCounted(s, Var(i));
    ReleaseCounted(s.cells, Outside(s.vars[i := None]), s.vars[i].value);
    ReleaseSurvives(s.cells, s.vars[i].value);
    InternedKept(s, Step(s, Destroy(i)).value);
  }

  lemma {:induction false} InsertedOne(ls: seq<Loc>, at: nat, l: Loc)
    requires at <= |ls|
    ensures multiset{l} + multiset(ls) == multiset(ls[..at] + [l] + ls[at..])
  {
    assert ls == ls[..at] + ls[at..];
  }

  lemma {:induction false} InsertKeeps(s: State, h: Loc, at: nat, source: Place)
    requires Inv(s) && Allowed(s, Insert(h, at, source))
    ensures Inv(Step(s, Insert(h, at, source)).value)
  {
    hide Interned, Counted, Release, Outside;
    var l, slots := At(s, source), s.cells[h].node.slots;
    AtIsLive(s, source);
    RaisedCounted(s.cells, Outside(s.vars), l);
    InsertedOne(slots, at, l);
    assert Outside(s.vars) + multiset{l} + multiset(slots) ==
           Outside(s.vars) + multiset(slots[..at] + [l] + slots[at..]);
    RenodeCounted(Raised(s.cells, l), Outside(s.vars) + multiset{l}, h,
                  s.cells[h].node.(slots := slots[..at] + [l] + slots[at..]), Outside(s.vars));
    InternedKept(s, Step(s, Insert(h, at, source)).value);
  }

  lemma {:induction false} EraseKeeps(s: State, h: Loc, at: nat)
    requires Inv(s) && Allowed(s, Erase(h, at))
    ensures Inv(Step(s, Erase(h, at)).value)
  {
    var d, l := Detached(s, Slot(h, at)), At(s, Slot(h, at));
    DetachedCounted(s, Slot(h, at));
    ReleaseCounted(d.cells, Outside(s.vars), l);
    ReleaseSurvives(d.cells, l);
    InternedKept(s, Step(s, Erase(h, at)).value);
  }

  /** The one thing that can go wrong is an assignment whose release frees its own source or target. */
  lemma {:induction false} StepKeeps(s: State, op: Op)
    requires Inv(s) && Allowed(s, op)
    ensures Step(s, op).None? ==> op.Assign?
    ensures Step(s, op).Some? ==> Inv(Step(s, op).value)
  {
    match op
    case Create(node) => CreatedKeeps(s, node);
    case Literal(text) => LiterallyKeeps(s, CString(text));
    case CopyHandle(source) => CopyHandleKeeps(s, source);
    case Destroy(i) => DestroyKeeps(s, i);
    case Assign(target, source) =>
      if Assigned(s, target, source).Some? {
        AssignedKeeps(s, target, source);
      }
    case Insert(h, at, source) => InsertKeeps(s, h, at, source);
    case Erase(h, at) => EraseKeeps(s, h, at);
  }

  /** A text without NUL is held by the variable made for it. */
  lemma {:induction false} LiteralHolds(s: State, text: bytes)
    requires Inv(s) && 0 !in text
    ensures Step(s, Literal(text)).Some?
    ensures var s' := Step(s, Literal(text)).value;
            && Exists(s', Var(|s.vars|)) && Live(s'.cells, At(s', Var(|s.vars|)))
            && s'.cells[At(s', Var(|s.vars|))].node == Scalar(Str(text))
  {
    hide Exact, Literally;
    CStringIsPrefix(text);
    LiterallyKeeps(s, text);
    var s' := Step(s, Literal(text)).value;
    assert InternedAt(s', text);
  }

  /** Insertion puts the handle at its place, and keeps the order of the others. */
  lemma {:induction false} InsertPlaces(s: State, h: Loc, at: nat, source: Place)
    requires Inv(s) && Allowed(s, Insert(h, at, source))
    ensures var before, after := s.cells[h].node, Step(s, Insert(h, at, source)).value.cells[h].node;
            && after.Container? && after.kind == before.kind && |after.slots| == |before.slots| + 1
            && after.slots[at] == At(s, source)
            && (forall j :: 0 <= j < at ==> after.slots[j] == before.slots[j])
            && (forall j :: at <= j < |before.slots| ==> after.slots[j + 1] == before.slots[j])
  {
    hide Inv;
  }

  /** Erasing takes one handle away and keeps the order of the others, if the container outlives the release. */
  lemma {:induction false} EraseRemoves(s: State, h: Loc, at: nat)
    requires Inv(s) && Allowed(s, Erase(h, at)) && Live(Step(s, Erase(h, at)).value.cells, h)
    ensures var before, after := s.cells[h].node, Step(s, Erase(h, at)).value.cells[h].node;
            && after.Container? && after.kind == before.kind && |after.slots| == |before.slots| - 1
            && (forall j :: 0 <= j < at ==> after.slots[j] == before.slots[j])
            && (forall j :: at < j < |before.slots| ==> after.slots[j - 1] == before.slots[j])
  {
    hide Inv, Release;
    ReleaseSurvives(Detached(s, Slot(h, at)).cells, At(s, Slot(h, at)));
  }

  const START: State := State([], [], map[])

  lemma {:induction false} StartKeeps()
    ensures Inv(START)
  {
    forall l: Loc ensures CountedAt(START.cells, Outside(START.vars), l) {
    }
  }

  /** A run of operations; `None` when one names a place that does not exist, or touches a freed location. */
  function Run(s: State, ops: seq<Op>): Option<State>
    requires Inv(s)
    decreases |ops|
  {
    if ops == [] then Some(s)
    else if !Allowed(s, ops[0]) || Step(s, ops[0]).None? then None
    else
      StepKeeps(s, ops[0]);
      Run(Step(s, ops[0]).value, ops[1..])
  }

  /**
   * Conservation through every run: each live location counts exactly the handles to it, in variables and in
   * live containers, and no handle points to a freed one. The live locations are exactly those to which a
   * variable or a cycle leads, and while there is no cycle those the variables reach.
   */
  lemma {:induction false} RunIsExact(s: State, ops: seq<Op>, l: Loc)
    requires Inv(s) && Run(s, ops).Some?
    ensures var s' := Run(s, ops).value;
            && Interned(s')
            && (Live(s'.cells, l) ==> 0 < s'.cells[l].count == Refs(s'.cells, l) + Outside(s'.vars)[l])
            && (!Live(s'.cells, l) ==> Refs(s'.cells, l) + Outside(s'.vars)[l] == 0)
            && (Live(s'.cells, l) <==> Held(s'.cells, Outside(s'.vars), l))
    ensures var s' := Run(s, ops).value;
            forall rank :: Ranked(s'.cells, rank) ==>
                             (Live(s'.cells, l) <==> Reachable(s'.cells, Outside(s'.vars), l))
    decreases |ops|
  {
    if ops == [] {
      assert CountedAt(s.cells, Outside(s.vars), l);
      LiveIsHeld(s.cells, Outside(s.vars), l);
      forall rank | Ranked(s.cells, rank) ensures Live(s.cells, l) <==> Reachable(s.cells, Outside(s.vars), l) {
        LiveIsReachable(s.cells, Outside(s.vars), rank, l);
      }
    } else {
      StepKeeps(s, ops[0]);
      RunIsExact(Step(s, ops[0]).value, ops[1..], l);
    }
  }

  /** A cycle leaks: an array that holds itself stays live after its last variable is gone. */
  lemma {:induction false} CycleLeaks()
    ensures var s := State([Cell(true, 2, Container(KArray, [0]))], [Some(0)], map[]);
            && Inv(s) && Allowed(s, Destroy(0))
            && Live(Step(s, Destroy(0)).value.cells, 0) && Outside(Step(s, Destroy(0)).value.vars) == multiset{}
  {
    var a := Cell(true, 2, Container(KArray, [0]));
    var s := State([a], [Some(0)], map[]);
    assert s.cells[..0] == [] && s.vars[..0] == [];
    forall l: Loc ensures CountedAt(s.cells, Outside(s.vars), l) {
      assert Refs(s.cells, l) == multiset([0])[l];
    }
    var gone := s.vars[0 := None];
    assert gone == [None] && gone[..0] == [];
  }
}

/**
 * When the recursion of the validator ends: a check that is neither accepting nor blamed goes on for ever, and a
 * schema whose names lead into no cycle decides every value.
 */
module SchemaEnds {
  import opened Base
  import opened Values
  import opened Order
  import opened Containers
  import opened Schemas
  import opened SchemaBlames

  // --- The calls of the recursion ---

  /** Checking `v` against `props` comes to check `x` against the schema `sub`, given in place or found by name. */
  ghost predicate Enters(c: Context, v: Value, props: Value, x: Value, sub: Value) {
    props.Dict? &&
    exists i :: 0 <= i < |props.pairs| && FirstAt(c, v, props.pairs, i) && EntersByPair(c, v, props.pairs[i], x, sub)
  }

  ghost predicate EntersByPair(c: Context, v: Value, p: Pair, x: Value, sub: Value) {
    && p.key.Str?
    && match PropertyNamed(p.key.s)
       case None => IsRefName(p.key.s) && EntersNamed(c, v, p.val, x, sub)
       case Some(PItems) => (v.Array? || v.Dict?) && p.val.Dict? && EntersItem(c, v, p.val.pairs, x, sub)
       case Some(POptItems) => v.Dict? && p.val.Dict? && EntersOptItem(c, v, p.val.pairs, x, sub)
       case Some(PAllKeys) => v.Dict? && EntersKey(c, v, p.val, x, sub)
       case Some(PAllItems) => HasElements(v) && EntersElement(c, v, p.val, x, sub)
       case _ => false
  }

  ghost predicate EntersItem(c: Context, v: Value, qs: seq<Pair>, x: Value, sub: Value) {
    exists i :: 0 <= i < |qs| && ItemsBefore(c, v, qs, i) && ItemAt(v, qs[i].key).Some? &&
                EntersCall(c, ItemAt(v, qs[i].key).value, qs[i].val, x, sub)
  }

  ghost predicate EntersOptItem(c: Context, v: Value, qs: seq<Pair>, x: Value, sub: Value) {
    exists i :: 0 <= i < |qs| && OptItemsBefore(c, v, qs, i) && ItemAt(v, qs[i].key).Some? &&
                EntersCall(c, ItemAt(v, qs[i].key).value, qs[i].val, x, sub)
  }

  ghost predicate EntersKey(c: Context, v: Value, arg: Value, x: Value, sub: Value)
    requires v.Dict?
  {
    exists i :: 0 <= i < |v.pairs| && KeysBefore(c, v, arg, i) && EntersCall(c, KeyOf(v, i), arg, x, sub)
  }

  ghost predicate EntersElement(c: Context, v: Value, arg: Value, x: Value, sub: Value)
    requires HasElements(v)
  {
    exists i :: 0 <= i < Size(v) && ElementsBefore(c, v, arg, i) && EntersCall(c, Element(v, i), arg, x, sub)
  }

  ghost predicate EntersCall(c: Context, y: Value, props: Value, x: Value, sub: Value) {
    if props.Str? then EntersNamed(c, y, props, x, sub) else x == y && sub == props
  }

  ghost predicate EntersNamed(c: Context, y: Value, name: Value, x: Value, sub: Value) {
    name.Str? && Lookup(c.schema, name) == Some(sub) && x == y
  }

  // --- An undecided check enters another one ---

  lemma {:induction false} EndsLonger(schema: seq<Pair>, name: Value, n: nat, m: nat)
    requires EndsWithin(schema, name, n) && n <= m
    ensures EndsWithin(schema, name, m)
    decreases n
  {
    var named := Lookup(schema, name);
    if named.Some? && named.value.Dict? {
      forall p | p in named.value.pairs && IsRef(p) ensures m > 0 && EndsWithin(schema, p.val, m - 1) {
        EndsLonger(schema, p.val, n - 1, m - 1);
      }
    }
  }

  /** A name whose schema is accepted does not lead into a cycle: each of its references has been followed. */
  lemma {:induction false} AcceptedDescends(c: Context, v: Value, name: Value)
    requires Lookup(c.schema, name).Some? && Accepts(c, v, Lookup(c.schema, name).value)
    ensures Descends(c, name)
  {
    hide PropertyNamed, IsRefName, Compare;
    var props := Lookup(c.schema, name).value;
    var n := PropsRank(c, props);
    forall p | p in props.pairs && IsRef(p) ensures n > 0 && EndsWithin(c.schema, p.val, n - 1) {
      assert Kept(c, v, p);
      assert RefRank(c, p) <= n;
      EndsLonger(c.schema, p.val, Height(c, p.val), n - 1);
    }
    assert EndsWithin(c.schema, name, n);
  }

  lemma {:induction false} UndecidedRef(c: Context, v: Value, name: Value) returns (sub: Value)
    requires !Refers(c, v, name) && forall b :: !BlamesRef(c, v, name, b)
    ensures EntersNamed(c, v, name, v, sub) && !Decided(c, v, sub)
  {
    hide Accepts, Blames, Descends;
    assert !BlamesRef(c, v, name, Blame(SchemaReference, [], [REF, name]));
    sub := Lookup(c.schema, name).value;
    if Accepts(c, v, sub) {
      AcceptedDescends(c, v, name);
    }
    forall b ensures !Blames(c, v, sub, b) {
      var b' := Blame(b.error, b.vs, [REF, name] + b.ps);
      assert b'.ps[2..] == b.ps;
      assert !BlamesRef(c, v, name, b');
    }
  }

  lemma {:induction false} UndecidedCall(c: Context, y: Value, props: Value, step: Value, at: Value)
    returns (x: Value, sub: Value)
    requires !Meets(c, y, props) && forall b :: !BlamesStep(c, y, props, step, at, b)
    ensures EntersCall(c, y, props, x, sub) && !Decided(c, x, sub)
  {
    hide Accepts, Blames, BlamesRef, Refers, EntersNamed;
    forall b
      ensures props.Str? ==> !BlamesRef(c, y, props, b)
      ensures !props.Str? ==> !Blames(c, y, props, b)
    {
      var b' := Blame(b.error, [at] + b.vs, [step, at] + b.ps);
      assert b'.vs[1..] == b.vs && b'.ps[2..] == b.ps;
      assert !BlamesStep(c, y, props, step, at, b');
    }
    x := y;
    if props.Str? {
      sub := UndecidedRef(c, y, props);
    } else {
      sub := props;
    }
  }

  lemma {:induction false} UndecidedItem(c: Context, v: Value, arg: Value) returns (x: Value, sub: Value)
    requires (v.Array? || v.Dict?) && arg.Dict? && forall b :: !BlamesItems(c, v, arg, b)
    requires exists q :: q in arg.pairs && !ItemKept(c, v, q)
    ensures EntersItem(c, v, arg.pairs, x, sub) && !Decided(c, x, sub)
  {
    hide BlamesStep, Meets, EntersCall, Decided;
    var i := 0;
    while i < |arg.pairs| && ItemKept(c, v, arg.pairs[i])
      invariant i <= |arg.pairs| && ItemsBefore(c, v, arg.pairs, i)
    {
      i := i + 1;
    }
    var q := arg.pairs[i];
    forall b ensures !BlamesItem(c, v, q, b) {
      assert !BlamesItems(c, v, arg, b);
    }
    assert !BlamesItem(c, v, q, Here(TypeRequested));
    assert !BlamesItem(c, v, q, Blame(if v.Array? then ArraySize else MissingKey, [q.key], [ITEMS, q.key]));
    forall b ensures !BlamesStep(c, ItemAt(v, q.key).value, q.val, ITEMS, q.key, b) {
      assert !BlamesItem(c, v, q, b);
    }
    x, sub := UndecidedCall(c, ItemAt(v, q.key).value, q.val, ITEMS, q.key);
  }

  lemma {:induction false} UndecidedOptItem(c: Context, v: Value, arg: Value) returns (x: Value, sub: Value)
    requires v.Dict? && arg.Dict? && forall b :: !BlamesOptItems(c, v, arg, b)
    requires exists q :: q in arg.pairs && !OptItemKept(c, v, q)
    ensures EntersOptItem(c, v, arg.pairs, x, sub) && !Decided(c, x, sub)
  {
    hide BlamesStep, Meets, EntersCall, Decided;
    var i := 0;
    while i < |arg.pairs| && OptItemKept(c, v, arg.pairs[i])
      invariant i <= |arg.pairs| && OptItemsBefore(c, v, arg.pairs, i)
    {
      i := i + 1;
    }
    var q := arg.pairs[i];
    forall b ensures !BlamesOptItem(c, v, q, b) {
      assert !BlamesOptItems(c, v, arg, b);
    }
    forall b ensures !BlamesStep(c, ItemAt(v, q.key).value, q.val, OPT_ITEMS, q.key, b) {
      assert !BlamesOptItem(c, v, q, b);
    }
    x, sub := UndecidedCall(c, ItemAt(v, q.key).value, q.val, OPT_ITEMS, q.key);
  }

  lemma {:induction false} UndecidedKey(c: Context, v: Value, arg: Value) returns (x: Value, sub: Value)
    requires v.Dict? && forall b :: !BlamesAllKeys(c, v, arg, b)
    requires exists i :: 0 <= i < |v.pairs| && !Meets(c, KeyOf(v, i), arg)
    ensures EntersKey(c, v, arg, x, sub) && !Decided(c, x, sub)
  {
    hide BlamesStep, Meets, EntersCall, Decided;
    var i := 0;
    while i < |v.pairs| && Meets(c, KeyOf(v, i), arg)
      invariant i <= |v.pairs| && KeysBefore(c, v, arg, i)
    {
      i := i + 1;
    }
    forall b ensures !BlamesStep(c, KeyOf(v, i), arg, ALL_KEYS, KeyOf(v, i), b) {
      assert !BlamesAllKeys(c, v, arg, b);
    }
    x, sub := UndecidedCall(c, KeyOf(v, i), arg, ALL_KEYS, KeyOf(v, i));
  }

  lemma {:induction false} UndecidedElement(c: Context, v: Value, arg: Value) returns (x: Value, sub: Value)
    requires HasElements(v) && forall b :: !BlamesAllItems(c, v, arg, b)
    requires exists i :: 0 <= i < Size(v) && !Meets(c, Element(v, i), arg)
    ensures EntersElement(c, v, arg, x, sub) && !Decided(c, x, sub)
  {
    hide BlamesStep, Meets, EntersCall, Decided, Label, Element;
    var i := FirstNotMet(c, v, arg);
    forall b ensures !BlamesStep(c, Element(v, i), arg, ALL_ITEMS, Label(v, i), b) {
      assert !BlamesAllItems(c, v, arg, b);
    }
    x, sub := UndecidedCall(c, Element(v, i), arg, ALL_ITEMS, Label(v, i));
  }

  lemma {:induction false} FirstNotMet(c: Context, v: Value, arg: Value) returns (i: nat)
    requires HasElements(v) && exists i :: 0 <= i < Size(v) && !Meets(c, Element(v, i), arg)
    ensures i < Size(v) && ElementsBefore(c, v, arg, i) && !Meets(c, Element(v, i), arg)
  {
    hide Meets, Element;
    i := 0;
    while i < Size(v) && Meets(c, Element(v, i), arg)
      invariant i <= Size(v) && ElementsBefore(c, v, arg, i)
    {
      i := i + 1;
    }
  }

  lemma {:induction false} OwnIsBlamed(c: Context, v: Value, p: Pair) returns (b: Blame)
    requires p.key.Str? && PropertyNamed(p.key.s).Some? && !Kept(c, v, p)
    requires var prop := PropertyNamed(p.key.s).value;
             prop.PType? || prop.PCompare? || prop.PSize? || prop.PRegex?
    ensures BlamesPair(c, v, p, b)
  {
    hide OwnFault, Kept;
    OwnFaultRejects(c, v, p);
    b := Here(OwnFault(c.matches, v, PropertyNamed(p.key.s).value, p.val).value);
  }

  lemma {:induction false} UndecidedPair(c: Context, v: Value, p: Pair) returns (x: Value, sub: Value)
    requires !Kept(c, v, p) && forall b :: !BlamesPair(c, v, p, b)
    ensures EntersByPair(c, v, p, x, sub) && !Decided(c, x, sub)
  {
    hide BlamesRef, Refers, Meets, Compare, Decided, EntersNamed, EntersItem, EntersOptItem, EntersKey, EntersElement;
    hide OwnFault, IsRefName, TypeNamed, Lookup;
    assert !BlamesPair(c, v, p, Here(TypeRequested)) && !BlamesPair(c, v, p, Here(InvalidType));
    match PropertyNamed(p.key.s)
    case None =>
      assert !BlamesPair(c, v, p, Blame(SchemaProperty, [], [p.key]));
      forall b ensures !BlamesRef(c, v, p.val, b) {
        assert !BlamesPair(c, v, p, b);
      }
      x := v;
      sub := UndecidedRef(c, v, p.val);
    case Some(PItems) =>
      forall b ensures !BlamesItems(c, v, p.val, b) {
        assert !BlamesPair(c, v, p, b);
      }
      x, sub := UndecidedItem(c, v, p.val);
    case Some(POptItems) =>
      forall b ensures !BlamesOptItems(c, v, p.val, b) {
        assert !BlamesPair(c, v, p, b);
      }
      x, sub := UndecidedOptItem(c, v, p.val);
    case Some(PAllKeys) =>
      forall b ensures !BlamesAllKeys(c, v, p.val, b) {
        assert !BlamesPair(c, v, p, b);
      }
      x, sub := UndecidedKey(c, v, p.val);
    case Some(PAllItems) =>
      forall b ensures !BlamesAllItems(c, v, p.val, b) {
        assert !BlamesPair(c, v, p, b);
      }
      x, sub := UndecidedElement(c, v, p.val);
    case Some(prop) =>
      var b := OwnIsBlamed(c, v, p);
      assert false;
      x, sub := v, v;
  }

  lemma {:induction false} FirstNotKept(c: Context, v: Value, props: Value) returns (i: nat)
    requires props.Dict? && !Accepts(c, v, props)
    ensures i < |props.pairs| && FirstAt(c, v, props.pairs, i) && !Kept(c, v, props.pairs[i])
  {
    hide Kept;
    i := 0;
    while i < |props.pairs| && Kept(c, v, props.pairs[i])
      invariant i <= |props.pairs| && FirstAt(c, v, props.pairs, i)
    {
      i := i + 1;
    }
  }

  /** A check without an outcome enters one without an outcome: the recursion does not end. */
  lemma {:induction false} UndecidedGoesOn(c: Context, v: Value, props: Value) returns (x: Value, sub: Value)
    requires !Decided(c, v, props)
    ensures Enters(c, v, props, x, sub) && !Decided(c, x, sub)
  {
    hide Kept, BlamesPair, EntersByPair;
    assert !Blames(c, v, props, Here(TypeRequested));
    var i := FirstNotKept(c, v, props);
    forall b ensures !BlamesPair(c, v, props.pairs[i], b) {
      assert !Blames(c, v, props, b);
    }
    x, sub := UndecidedPair(c, v, props.pairs[i]);
  }

  /** A run of calls, each of which enters the next: what the stack of the recursion would hold. */
  ghost predicate Endless(c: Context, calls: nat -> (Value, Value)) {
    forall n: nat :: Enters(c, calls(n).0, calls(n).1, calls(n + 1).0, calls(n + 1).1)
  }

  /** The `n`-th of a sequence of undecided checks, each entered from the one before. */
  ghost function Undecided(c: Context, v: Value, props: Value, n: nat): (r: (Value, Value))
    requires !Decided(c, v, props)
    ensures !Decided(c, r.0, r.1)
  {
    if n == 0 then (v, props)
    else
      var (x, sub) := Undecided(c, v, props, n - 1);
      assert exists y, next :: Enters(c, x, sub, y, next) && !Decided(c, y, next) by {
        var y, next := UndecidedGoesOn(c, x, sub);
      }
      var y, next :| Enters(c, x, sub, y, next) && !Decided(c, y, next);
      (y, next)
  }

  /** Where the rules give no outcome, the recursion never ends. */
  lemma {:induction false} UndecidedNeverEnds(c: Context, v: Value, props: Value)
    requires !Decided(c, v, props)
    ensures exists calls: nat -> (Value, Value) :: calls(0) == (v, props) && Endless(c, calls)
  {
    hide Enters, Decided;
    var calls := (n: nat) => if Decided(c, v, props) then (v, props) else Undecided(c, v, props, n);
    forall n: nat ensures Enters(c, calls(n).0, calls(n).1, calls(n + 1).0, calls(n + 1).1) {
      assert calls(n + 1) == Undecided(c, v, props, n + 1);
    }
    assert Endless(c, calls);
  }

  // --- Where a part of the value is entered ---

  lemma {:induction false} CallEnters(c: Context, y: Value, props: Value, x: Value, sub: Value)
    requires EntersCall(c, y, props, x, sub)
    ensures x == y
  {
  }

  lemma {:induction false} ItemEntered(c: Context, v: Value, qs: seq<Pair>, x: Value, sub: Value) returns (i: nat)
    requires EntersItem(c, v, qs, x, sub)
    ensures i < |qs| && ItemsBefore(c, v, qs, i) && ItemAt(v, qs[i].key) == Some(x) && x < v
    ensures EntersCall(c, x, qs[i].val, x, sub)
  {
    hide EntersCall, ItemKept;
    i :| 0 <= i < |qs| && ItemsBefore(c, v, qs, i) && ItemAt(v, qs[i].key).Some? &&
         EntersCall(c, ItemAt(v, qs[i].key).value, qs[i].val, x, sub);
    CallEnters(c, ItemAt(v, qs[i].key).value, qs[i].val, x, sub);
  }

  lemma {:induction false} OptItemEntered(c: Context, v: Value, qs: seq<Pair>, x: Value, sub: Value) returns (i: nat)
    requires EntersOptItem(c, v, qs, x, sub)
    ensures i < |qs| && OptItemsBefore(c, v, qs, i) && ItemAt(v, qs[i].key) == Some(x) && x < v
    ensures EntersCall(c, x, qs[i].val, x, sub)
  {
    hide EntersCall, OptItemKept;
    i :| 0 <= i < |qs| && OptItemsBefore(c, v, qs, i) && ItemAt(v, qs[i].key).Some? &&
         EntersCall(c, ItemAt(v, qs[i].key).value, qs[i].val, x, sub);
    CallEnters(c, ItemAt(v, qs[i].key).value, qs[i].val, x, sub);
  }

  lemma {:induction false} KeyEntered(c: Context, v: Value, arg: Value, x: Value, sub: Value) returns (i: nat)
    requires v.Dict? && EntersKey(c, v, arg, x, sub)
    ensures i < |v.pairs| && KeysBefore(c, v, arg, i) && x == KeyOf(v, i) && EntersCall(c, x, arg, x, sub)
  {
    hide EntersCall, Meets;
    i :| 0 <= i < |v.pairs| && KeysBefore(c, v, arg, i) && EntersCall(c, KeyOf(v, i), arg, x, sub);
    CallEnters(c, KeyOf(v, i), arg, x, sub);
  }

  lemma {:induction false} ElementEntered(c: Context, v: Value, arg: Value, x: Value, sub: Value) returns (i: nat)
    requires HasElements(v) && EntersElement(c, v, arg, x, sub)
    ensures i < Size(v) && ElementsBefore(c, v, arg, i) && x == Element(v, i) && EntersCall(c, x, arg, x, sub)
  {
    hide EntersCall, Meets, Element;
    i :| 0 <= i < Size(v) && ElementsBefore(c, v, arg, i) && EntersCall(c, Element(v, i), arg, x, sub);
    CallEnters(c, Element(v, i), arg, x, sub);
  }

  // --- A decided check enters smaller ones ---

  /** Closer to what is blamed; or as close, and on a part of the value or behind one more of its references. */
  ghost predicate Nearer(c: Context, x: Value, sub: Value, goal': Option<Blame>, v: Value, props: Value,
                         goal: Option<Blame>) {
    Depth(goal') < Depth(goal) || (Depth(goal') == Depth(goal) && Smaller(c, x, sub, v, props))
  }

  ghost predicate Smaller(c: Context, x: Value, sub: Value, v: Value, props: Value) {
    x < v || (x == v && PropsRank(c, sub) < PropsRank(c, props))
  }

  lemma {:induction false} EnteredByMeets(c: Context, props: Value, x: Value, sub: Value)
    requires Meets(c, x, props) && EntersCall(c, x, props, x, sub)
    ensures Accepts(c, x, sub)
  {
  }

  lemma {:induction false} EnteredByRef(c: Context, v: Value, p: Pair, sub: Value)
    requires IsRef(p) && EntersNamed(c, v, p.val, v, sub) && Descends(c, p.val)
    ensures PropsRank(c, sub) < RefRank(c, p)
  {
    DescendsBelow(c, p.val);
  }

  lemma {:induction false} EnteredByKept(c: Context, v: Value, p: Pair, x: Value, sub: Value)
    requires Kept(c, v, p) && EntersByPair(c, v, p, x, sub)
    ensures Accepts(c, x, sub) && (x < v || (x == v && PropsRank(c, sub) < RefRank(c, p)))
  {
    hide Meets, EntersCall, Compare, TypeNamed, Accepts, Lookup, RefRank, PropsRank, IsRefName;
    hide EntersItem, EntersOptItem, EntersKey, EntersElement, Refers, Element, EntersNamed;
    match PropertyNamed(p.key.s)
    case None => RefEntersAccepted(c, v, p, x, sub);
    case Some(PItems) =>
      var i := ItemEntered(c, v, p.val.pairs, x, sub);
      assert p.val.pairs[i] in p.val.pairs;
      EnteredByMeets(c, p.val.pairs[i].val, x, sub);
    case Some(POptItems) =>
      var i := OptItemEntered(c, v, p.val.pairs, x, sub);
      assert p.val.pairs[i] in p.val.pairs;
      EnteredByMeets(c, p.val.pairs[i].val, x, sub);
    case Some(PAllKeys) =>
      var i := KeyEntered(c, v, p.val, x, sub);
      EnteredByMeets(c, p.val, x, sub);
    case Some(PAllItems) =>
      var i := ElementEntered(c, v, p.val, x, sub);
      EnteredByMeets(c, p.val, x, sub);
  }

  lemma {:induction false} RefEntersAccepted(c: Context, v: Value, p: Pair, x: Value, sub: Value)
    requires IsRef(p) && Refers(c, v, p.val) && EntersNamed(c, v, p.val, x, sub)
    ensures x == v && Accepts(c, x, sub) && PropsRank(c, sub) < RefRank(c, p)
  {
    EnteredByRef(c, v, p, sub);
  }

  /** What is entered by the blamed step is blamed with what is left of the steps. */
  lemma {:induction false} EnteredByStep(c: Context, props: Value, step: Value, at: Value, b: Blame, x: Value,
                                         sub: Value)
    returns (goal: Option<Blame>)
    requires BlamesStep(c, x, props, step, at, b) && EntersCall(c, x, props, x, sub)
    ensures Outcome(c, x, sub, goal) && Depth(goal) < 1 + |b.ps|
  {
    hide Blames, Accepts, BlamesRef, Lookup;
    var rest := Blame(b.error, b.vs[1..], b.ps[2..]);
    if props.Str? {
      var inner := EnteredByBlamedRef(c, props, rest, x, sub);
      goal := Some(inner);
    } else {
      goal := Some(rest);
    }
  }

  lemma {:induction false} EnteredByBlamedRef(c: Context, name: Value, b: Blame, x: Value, sub: Value)
    returns (rest: Blame)
    requires BlamesRef(c, x, name, b) && EntersNamed(c, x, name, x, sub)
    ensures Blames(c, x, sub, rest) && |rest.ps| < |b.ps|
  {
    hide Blames;
    rest := Blame(b.error, b.vs, b.ps[2..]);
  }

  lemma {:induction false} EnteredByItem(c: Context, v: Value, arg: Value, b: Blame, x: Value, sub: Value)
    returns (goal: Option<Blame>)
    requires (v.Array? || v.Dict?) && arg.Dict? && BlamesItems(c, v, arg, b) && EntersItem(c, v, arg.pairs, x, sub)
    ensures Outcome(c, x, sub, goal) && Depth(goal) < 1 + |b.ps|
  {
    hide Meets, BlamesStep, EntersCall, Accepts, Blames, Outcome, EntersItem;
    var k :| 0 <= k < |arg.pairs| && ItemsBefore(c, v, arg.pairs, k) && BlamesItem(c, v, arg.pairs[k], b);
    BlamedItemFails(c, v, arg.pairs[k], b);
    var i := ItemEntered(c, v, arg.pairs, x, sub);
    if i < k {
      assert ItemKept(c, v, arg.pairs[i]);
      goal := AcceptedOutcome(c, arg.pairs[i].val, b, x, sub);
    } else {
      goal := EnteredByStep(c, arg.pairs[i].val, ITEMS, arg.pairs[i].key, b, x, sub);
    }
  }

  lemma {:induction false} AcceptedOutcome(c: Context, props: Value, b: Blame, x: Value, sub: Value)
    returns (goal: Option<Blame>)
    requires Meets(c, x, props) && EntersCall(c, x, props, x, sub)
    ensures Outcome(c, x, sub, goal) && Depth(goal) < 1 + |b.ps|
  {
    hide Meets, EntersCall, Accepts;
    EnteredByMeets(c, props, x, sub);
    goal := None;
  }

  lemma {:induction false} EnteredByOptItem(c: Context, v: Value, arg: Value, b: Blame, x: Value, sub: Value)
    returns (goal: Option<Blame>)
    requires v.Dict? && arg.Dict? && BlamesOptItems(c, v, arg, b) && EntersOptItem(c, v, arg.pairs, x, sub)
    ensures Outcome(c, x, sub, goal) && Depth(goal) < 1 + |b.ps|
  {
    hide Meets, BlamesStep, EntersCall, Accepts, Blames, Outcome, EntersOptItem;
    var k :| 0 <= k < |arg.pairs| && OptItemsBefore(c, v, arg.pairs, k) && BlamesOptItem(c, v, arg.pairs[k], b);
    BlamedStepFails(c, ItemAt(v, arg.pairs[k].key).value, arg.pairs[k].val, OPT_ITEMS, arg.pairs[k].key, b);
    var i := OptItemEntered(c, v, arg.pairs, x, sub);
    if i < k {
      assert OptItemKept(c, v, arg.pairs[i]);
      goal := AcceptedOutcome(c, arg.pairs[i].val, b, x, sub);
    } else {
      goal := EnteredByStep(c, arg.pairs[i].val, OPT_ITEMS, arg.pairs[i].key, b, x, sub);
    }
  }

  lemma {:induction false} EnteredByKey(c: Context, v: Value, arg: Value, b: Blame, x: Value, sub: Value)
    returns (goal: Option<Blame>)
    requires v.Dict? && BlamesAllKeys(c, v, arg, b) && EntersKey(c, v, arg, x, sub)
    ensures Outcome(c, x, sub, goal) && Depth(goal) < 1 + |b.ps|
  {
    hide Meets, BlamesStep, EntersCall, Accepts, Blames, Outcome, EntersKey;
    var k :| 0 <= k < |v.pairs| && KeysBefore(c, v, arg, k) &&
             BlamesStep(c, KeyOf(v, k), arg, ALL_KEYS, KeyOf(v, k), b);
    BlamedStepFails(c, KeyOf(v, k), arg, ALL_KEYS, KeyOf(v, k), b);
    var i := KeyEntered(c, v, arg, x, sub);
    if i < k {
      goal := AcceptedOutcome(c, arg, b, x, sub);
    } else {
      goal := EnteredByStep(c, arg, ALL_KEYS, x, b, x, sub);
    }
  }

  lemma {:induction false} EnteredByElement(c: Context, v: Value, arg: Value, b: Blame, x: Value, sub: Value)
    returns (goal: Option<Blame>)
    requires HasElements(v) && BlamesAllItems(c, v, arg, b) && EntersElement(c, v, arg, x, sub)
    ensures Outcome(c, x, sub, goal) && Depth(goal) < 1 + |b.ps|
  {
    hide Meets, BlamesStep, EntersCall, Accepts, Blames, Element, Label, Outcome, EntersElement;
    var k :| 0 <= k < Size(v) && ElementsBefore(c, v, arg, k) &&
             BlamesStep(c, Element(v, k), arg, ALL_ITEMS, Label(v, k), b);
    BlamedStepFails(c, Element(v, k), arg, ALL_ITEMS, Label(v, k), b);
    var i := ElementEntered(c, v, arg, x, sub);
    if i < k {
      goal := AcceptedOutcome(c, arg, b, x, sub);
    } else {
      goal := EnteredByStep(c, arg, ALL_ITEMS, Label(v, i), b, x, sub);
    }
  }

  lemma {:induction false} EnteredByBlamed(c: Context, v: Value, p: Pair, b: Blame, x: Value, sub: Value)
    returns (goal: Option<Blame>)
    requires BlamesPair(c, v, p, b) && EntersByPair(c, v, p, x, sub)
    ensures Outcome(c, x, sub, goal) && Depth(goal) < 1 + |b.ps|
  {
    hide EntersItem, EntersOptItem, EntersKey, EntersElement, BlamesItems, BlamesOptItems, BlamesAllKeys;
    hide BlamesAllItems, Accepts, Blames, OwnFault, IsRefName, BlamesRef, Lookup;
    match PropertyNamed(p.key.s)
    case None =>
      var rest := EnteredByBlamedRef(c, p.val, b, x, sub);
      goal := Some(rest);
    case Some(PItems) => goal := EnteredByItem(c, v, p.val, b, x, sub);
    case Some(POptItems) => goal := EnteredByOptItem(c, v, p.val, b, x, sub);
    case Some(PAllKeys) => goal := EnteredByKey(c, v, p.val, b, x, sub);
    case Some(PAllItems) => goal := EnteredByElement(c, v, p.val, b, x, sub);
  }

  lemma {:induction false} RankOfMember(c: Context, props: Value, i: nat)
    requires props.Dict? && i < |props.pairs|
    ensures RefRank(c, props.pairs[i]) <= PropsRank(c, props)
  {
    assert props.pairs[i] in props.pairs;
  }

  /** Whatever a check with an outcome enters has an outcome, which is nearer. */
  lemma {:induction false} EnteredHasOutcome(c: Context, v: Value, props: Value, goal: Option<Blame>, x: Value,
                                             sub: Value) returns (goal': Option<Blame>)
    requires Outcome(c, v, props, goal) && Enters(c, v, props, x, sub)
    ensures Outcome(c, x, sub, goal') && Nearer(c, x, sub, goal', v, props, goal)
  {
    hide Kept, EntersByPair, Accepts, Blames, Smaller, Enters, FirstAt;
    var i := EntersAt(c, v, props, x, sub);
    if goal.None? {
      EnteredByAccepted(c, v, props, i, x, sub);
      goal' := None;
    } else {
      goal' := EnteredOnTheWay(c, v, props, goal.value, i, x, sub);
    }
  }

  lemma {:induction false} EntersAt(c: Context, v: Value, props: Value, x: Value, sub: Value) returns (i: nat)
    requires Enters(c, v, props, x, sub)
    ensures props.Dict? && i < |props.pairs| && FirstAt(c, v, props.pairs, i)
    ensures EntersByPair(c, v, props.pairs[i], x, sub)
  {
    hide Kept, EntersByPair;
    i :| 0 <= i < |props.pairs| && FirstAt(c, v, props.pairs, i) && EntersByPair(c, v, props.pairs[i], x, sub);
  }

  lemma {:induction false} EnteredByAccepted(c: Context, v: Value, props: Value, i: nat, x: Value, sub: Value)
    requires Accepts(c, v, props) && props.Dict? && i < |props.pairs| && EntersByPair(c, v, props.pairs[i], x, sub)
    ensures Accepts(c, x, sub) && Smaller(c, x, sub, v, props)
  {
    hide Kept, EntersByPair, Accepts, RefRank, PropsRank;
    AcceptedIsKept(c, v, props, i);
    EnteredByKept(c, v, props.pairs[i], x, sub);
    RankOfMember(c, props, i);
  }

  lemma {:induction false} EnteredOnTheWay(c: Context, v: Value, props: Value, b: Blame, i: nat, x: Value, sub: Value)
    returns (goal: Option<Blame>)
    requires Blames(c, v, props, b) && props.Dict? && i < |props.pairs| && FirstAt(c, v, props.pairs, i)
    requires EntersByPair(c, v, props.pairs[i], x, sub)
    ensures Outcome(c, x, sub, goal) && Depth(goal) < 1 + |b.ps|
  {
    hide Kept, BlamesPair, EntersByPair, Accepts, Blames, RefRank, PropsRank;
    var k := BlamedAt(c, v, props, b);
    if i < k {
      EnteredByKept(c, v, props.pairs[i], x, sub);
      goal := None;
    } else {
      goal := EnteredByBlamed(c, v, props.pairs[i], b, x, sub);
    }
  }

  lemma {:induction false} BlamedAt(c: Context, v: Value, props: Value, b: Blame) returns (k: nat)
    requires Blames(c, v, props, b) && props.Dict?
    ensures k < |props.pairs| && FirstAt(c, v, props.pairs, k) && BlamesPair(c, v, props.pairs[k], b)
    ensures !Kept(c, v, props.pairs[k])
  {
    hide BlamesPair, Kept;
    k :| 0 <= k < |props.pairs| && FirstAt(c, v, props.pairs, k) && BlamesPair(c, v, props.pairs[k], b);
    BlamedPairFails(c, v, props.pairs[k], b);
  }

  lemma {:induction false} AcceptedIsKept(c: Context, v: Value, props: Value, i: nat)
    requires Accepts(c, v, props) && i < |props.pairs|
    ensures Kept(c, v, props.pairs[i])
  {
    hide Kept;
    assert props.pairs[i] in props.pairs;
  }

  lemma {:induction false} OutcomeEnds(c: Context, v: Value, props: Value, goal: Option<Blame>,
                                       calls: nat -> (Value, Value))
    requires Outcome(c, v, props, goal) && calls(0) == (v, props)
    ensures !Endless(c, calls)
    decreases Depth(goal), v, PropsRank(c, props)
  {
    hide Enters, Outcome;
    if Endless(c, calls) {
      var (x, sub) := calls(1);
      assert Enters(c, calls(0).0, calls(0).1, calls(0 + 1).0, calls(0 + 1).1);
      var goal' := EnteredHasOutcome(c, v, props, goal, x, sub);
      var later := (n: nat) => calls(n + 1);
      forall n: nat ensures Enters(c, later(n).0, later(n).1, later(n + 1).0, later(n + 1).1) {
        assert Enters(c, calls(n + 1).0, calls(n + 1).1, calls((n + 1) + 1).0, calls((n + 1) + 1).1);
      }
      OutcomeEnds(c, x, sub, goal', later);
    }
  }

  /** The recursion ends on a value exactly when the rules give it an outcome. */
  lemma {:induction false} EndsExactly(c: Context, v: Value, props: Value)
    ensures Decided(c, v, props) <==>
            !exists calls: nat -> (Value, Value) :: calls(0) == (v, props) && Endless(c, calls)
  {
    hide Endless, Accepts, Blames;
    if Decided(c, v, props) {
      var goal := None;
      if !Accepts(c, v, props) {
        var b :| Blames(c, v, props, b);
        goal := Some(b);
      }
      forall calls: nat -> (Value, Value) | calls(0) == (v, props) ensures !Endless(c, calls) {
        OutcomeEnds(c, v, props, goal, calls);
      }
    } else {
      UndecidedNeverEnds(c, v, props);
    }
  }

  // --- Schemas that decide every value ---

  /** What a schema given in place mentions; a name given instead is refused before it is looked up. */
  ghost predicate PropsWithin(names: set<Value>, props: Value) {
    props.Dict? ==> Within(names, props)
  }

  /** `names` contains whatever its own schemas mention, and none of them leads into a cycle. */
  ghost predicate Closed(c: Context, names: set<Value>) {
    forall name :: name in names && Lookup(c.schema, name).Some? ==>
      Descends(c, name) && PropsWithin(names, Lookup(c.schema, name).value)
  }

  lemma {:induction false} CallStaysWithin(c: Context, names: set<Value>, props: Value, x: Value, sub: Value)
    requires Closed(c, names) && Within(names, props) && EntersCall(c, x, props, x, sub)
    ensures PropsWithin(names, sub)
  {
  }

  lemma {:induction false} PairStaysWithin(c: Context, names: set<Value>, v: Value, p: Pair, x: Value, sub: Value)
    requires Closed(c, names) && PairWithin(names, p) && EntersByPair(c, v, p, x, sub)
    ensures PropsWithin(names, sub) && (x < v || (x == v && PropsRank(c, sub) < RefRank(c, p)))
  {
    hide Within, EntersCall, Lookup, RefRank, PropsRank, IsRefName, Closed, PropsWithin, Element;
    hide EntersItem, EntersOptItem, EntersKey, EntersElement;
    match PropertyNamed(p.key.s)
    case None => NamedStaysWithin(c, names, v, p, x, sub);
    case Some(PItems) =>
      var i := ItemEntered(c, v, p.val.pairs, x, sub);
      assert p.val.pairs[i] in p.val.pairs;
      CallStaysWithin(c, names, p.val.pairs[i].val, x, sub);
    case Some(POptItems) =>
      var i := OptItemEntered(c, v, p.val.pairs, x, sub);
      assert p.val.pairs[i] in p.val.pairs;
      CallStaysWithin(c, names, p.val.pairs[i].val, x, sub);
    case Some(PAllKeys) =>
      var i := KeyEntered(c, v, p.val, x, sub);
      CallStaysWithin(c, names, p.val, x, sub);
    case Some(PAllItems) =>
      var i := ElementEntered(c, v, p.val, x, sub);
      CallStaysWithin(c, names, p.val, x, sub);
  }

  lemma {:induction false} NamedStaysWithin(c: Context, names: set<Value>, v: Value, p: Pair, x: Value, sub: Value)
    requires Closed(c, names) && IsRef(p) && PairWithin(names, p) && EntersNamed(c, v, p.val, x, sub)
    ensures x == v && PropsWithin(names, sub) && PropsRank(c, sub) < RefRank(c, p)
  {
    EnteredByRef(c, v, p, sub);
  }

  /** A schema whose names lead into no cycle decides every value. */
  lemma {:induction false} ClosedDecides(c: Context, names: set<Value>, v: Value, props: Value)
    requires Closed(c, names) && PropsWithin(names, props)
    ensures Decided(c, v, props)
    decreases v, PropsRank(c, props)
  {
    hide Decided, Closed, EntersByPair, RefRank, PropsRank, PairWithin, FirstAt;
    if !Decided(c, v, props) {
      var x, sub := UndecidedGoesOn(c, v, props);
      var i := EntersAt(c, v, props, x, sub);
      RankOfMember(c, props, i);
      assert props.pairs[i] in props.pairs;
      PairStaysWithin(c, names, v, props.pairs[i], x, sub);
      ClosedDecides(c, names, x, sub);
    }
  }

  // --- Cycles ---

  /** A cycle that is not entered does no harm: an empty array meets any schema for its elements. */
  lemma {:induction false} EmptyNeedsNoSchema(c: Context, p: Pair)
    requires p.key.Str? && PropertyNamed(p.key.s) == Some(PAllItems)
    ensures Accepts(c, Array([]), Dict([p]))
  {
    assert Kept(c, Array([]), p);
    assert p in [p];
  }

  /** A schema that consists of a reference to itself decides no value. */
  lemma {:induction false} LoopNeverEnds(c: Context, v: Value, p: Pair)
    requires IsRef(p) && p.val.Str? && Lookup(c.schema, p.val) == Some(Dict([p]))
    ensures !Decided(c, v, Dict([p]))
  {
    hide PropertyNamed, IsRefName;
    assert p in [p];
    forall n: nat ensures !EndsWithin(c.schema, p.val, n) {
      LoopDoesNotDescend(c.schema, p, n);
    }
    assert !Kept(c, v, p);
    forall b ensures !Blames(c, v, Dict([p]), b) {
      LoopHasNoBlame(c, v, p, b);
    }
  }

  lemma {:induction false} LoopDoesNotDescend(schema: seq<Pair>, p: Pair, n: nat)
    requires IsRef(p) && Lookup(schema, p.val) == Some(Dict([p]))
    ensures !EndsWithin(schema, p.val, n)
  {
    assert p in [p];
    if n > 0 {
      LoopDoesNotDescend(schema, p, n - 1);
    }
  }

  lemma {:induction false} LoopHasNoBlame(c: Context, v: Value, p: Pair, b: Blame)
    requires IsRef(p) && p.val.Str? && Lookup(c.schema, p.val) == Some(Dict([p]))
    ensures !Blames(c, v, Dict([p]), b)
    decreases |b.ps|
  {
    hide PropertyNamed, IsRefName;
    if Blames(c, v, Dict([p]), b) {
      assert BlamesPair(c, v, p, b) && BlamesRef(c, v, p.val, b);
      LoopHasNoBlame(c, v, p, Blame(b.error, b.vs, b.ps[2..]));
    }
  }
}

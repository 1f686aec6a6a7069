/**
 * Which failure is reported, and where: the first property in the order of the dictionaries that does not hold,
 * with the steps that lead to it, outermost first.
 */
module SchemaBlames {
  import opened Base
  import opened Values
  import opened Order
  import opened Containers
  import opened Schemas

  /** An error with the two stacks as `validate` leaves them, without the leading `root`. */
  datatype Blame = Blame(error: Error, vs: seq<Value>, ps: seq<Value>)

  const REF: Value := Text("ref")
  const ITEMS: Value := Text("items")
  const OPT_ITEMS: Value := Text("opt-items")
  const ALL_KEYS: Value := Text("all-keys")
  const ALL_ITEMS: Value := Text("all-items")

  function Here(e: Error): Blame {
    Blame(e, [], [])
  }

  /** What is wrong with a property that looks at the value alone; `to_str` and `to_int` come last. */
  function OwnFault(matches: (bytes, bytes) -> bool, v: Value, prop: Property, arg: Value): Option<Error> {
    match prop
    case PType =>
      if !arg.Str? || TypeNamed(arg.s).None? then Some(SchemaType)
      else if TypeNamed(arg.s).value != Tag(v) then Some(InvalidType)
      else None
    case PCompare(rel) => if Related(rel, Compare(v, arg)) then None else Some(InvalidValue)
    case PSize(rel) =>
      if SizeOf(v).None? then Some(InvalidType)
      else if !arg.Int? then Some(TypeRequested)
      else if !Related(rel, SizeOf(v).value - arg.i) then Some(InvalidSize)
      else None
    case PRegex =>
      if !v.Str? then Some(InvalidType)
      else if !arg.Str? then Some(TypeRequested)
      else if !matches(arg.s, v.s) then Some(InvalidValue)
      else None
    case _ => None
  }

  /** The first property of `props` that fails, and how. */
  ghost predicate Blames(c: Context, v: Value, props: Value, b: Blame)
    decreases |b.ps|, 2
  {
    if !props.Dict? then b == Here(TypeRequested)
    else exists i :: 0 <= i < |props.pairs| && FirstAt(c, v, props.pairs, i) && BlamesPair(c, v, props.pairs[i], b)
  }

  ghost predicate FirstAt(c: Context, v: Value, ps: seq<Pair>, i: nat)
    requires i <= |ps|
  {
    forall j :: 0 <= j < i ==> Kept(c, v, ps[j])
  }

  ghost predicate BlamesPair(c: Context, v: Value, p: Pair, b: Blame)
    decreases |b.ps|, 1
  {
    if !p.key.Str? then b == Here(TypeRequested)
    else
      match PropertyNamed(p.key.s)
      case None =>
        if IsRefName(p.key.s) then BlamesRef(c, v, p.val, b) else b == Blame(SchemaProperty, [], [p.key])
      case Some(PItems) => BlamesItems(c, v, p.val, b)
      case Some(POptItems) => BlamesOptItems(c, v, p.val, b)
      case Some(PAllKeys) => BlamesAllKeys(c, v, p.val, b)
      case Some(PAllItems) => BlamesAllItems(c, v, p.val, b)
      case Some(prop) =>
        OwnFault(c.matches, v, prop, p.val).Some? && b == Here(OwnFault(c.matches, v, prop, p.val).value)
  }

  ghost predicate BlamesItems(c: Context, v: Value, arg: Value, b: Blame)
    decreases |b.ps|, 0, 2
  {
    if !v.Array? && !v.Dict? then b == Here(InvalidType)
    else if !arg.Dict? then b == Here(TypeRequested)
    else exists i :: 0 <= i < |arg.pairs| && ItemsBefore(c, v, arg.pairs, i) && BlamesItem(c, v, arg.pairs[i], b)
  }

  ghost predicate ItemsBefore(c: Context, v: Value, qs: seq<Pair>, i: nat)
    requires i <= |qs|
  {
    forall j :: 0 <= j < i ==> ItemKept(c, v, qs[j])
  }

  ghost predicate BlamesItem(c: Context, v: Value, q: Pair, b: Blame)
    decreases |b.ps|, 0, 1
  {
    if v.Array? && !q.key.Int? then b == Here(TypeRequested)
    else if ItemAt(v, q.key).None? then
      b == Blame(if v.Array? then ArraySize else MissingKey, [q.key], [ITEMS, q.key])
    else BlamesStep(c, ItemAt(v, q.key).value, q.val, ITEMS, q.key, b)
  }

  ghost predicate BlamesOptItems(c: Context, v: Value, arg: Value, b: Blame)
    decreases |b.ps|, 0, 2
  {
    if !v.Dict? then b == Here(InvalidType)
    else if !arg.Dict? then b == Here(TypeRequested)
    else exists i :: 0 <= i < |arg.pairs| && OptItemsBefore(c, v, arg.pairs, i) && BlamesOptItem(c, v, arg.pairs[i], b)
  }

  ghost predicate OptItemsBefore(c: Context, v: Value, qs: seq<Pair>, i: nat)
    requires i <= |qs|
  {
    forall j :: 0 <= j < i ==> OptItemKept(c, v, qs[j])
  }

  ghost predicate BlamesOptItem(c: Context, v: Value, q: Pair, b: Blame)
    decreases |b.ps|, 0, 1
  {
    ItemAt(v, q.key).Some? && BlamesStep(c, ItemAt(v, q.key).value, q.val, OPT_ITEMS, q.key, b)
  }

  ghost predicate BlamesAllKeys(c: Context, v: Value, arg: Value, b: Blame)
    decreases |b.ps|, 0, 2
  {
    if !v.Dict? then b == Here(InvalidType)
    else exists i :: 0 <= i < |v.pairs| && KeysBefore(c, v, arg, i) &&
                     BlamesStep(c, KeyOf(v, i), arg, ALL_KEYS, KeyOf(v, i), b)
  }

  ghost predicate KeysBefore(c: Context, v: Value, arg: Value, i: nat)
    requires v.Dict? && i <= |v.pairs|
  {
    forall j :: 0 <= j < i ==> Meets(c, KeyOf(v, j), arg)
  }

  ghost predicate BlamesAllItems(c: Context, v: Value, arg: Value, b: Blame)
    decreases |b.ps|, 0, 2
  {
    if !HasElements(v) then b == Here(InvalidType)
    else exists i :: 0 <= i < Size(v) && ElementsBefore(c, v, arg, i) &&
                     BlamesStep(c, Element(v, i), arg, ALL_ITEMS, Label(v, i), b)
  }

  ghost predicate ElementsBefore(c: Context, v: Value, arg: Value, i: nat)
    requires HasElements(v) && i <= Size(v)
  {
    forall j :: 0 <= j < i ==> Meets(c, Element(v, j), arg)
  }

  /** One step into a part of the value: both stacks name it, the second also says by which property. */
  ghost predicate BlamesStep(c: Context, x: Value, props: Value, step: Value, at: Value, b: Blame)
    decreases |b.ps|, 0, 0
  {
    && |b.vs| >= 1 && b.vs[0] == at && |b.ps| >= 2 && b.ps[0] == step && b.ps[1] == at
    && var rest := Blame(b.error, b.vs[1..], b.ps[2..]);
       if props.Str? then BlamesRef(c, x, props, rest) else Blames(c, x, props, rest)
  }

  /** A step through a reference stays at the same value, and only the second stack names it. */
  ghost predicate BlamesRef(c: Context, v: Value, name: Value, b: Blame)
    decreases |b.ps|, 0, 0
  {
    && |b.ps| >= 2 && b.ps[0] == REF && b.ps[1] == name
    && if name.Str? && Lookup(c.schema, name).Some? then
         Blames(c, v, Lookup(c.schema, name).value, Blame(b.error, b.vs, b.ps[2..]))
       else b.error == SchemaReference && b.vs == [] && |b.ps| == 2
  }

  /**
   * The check ends: with all properties kept, or with a failure at the end of finitely many steps. A reference
   * into a cycle is neither.
   */
  ghost predicate Decided(c: Context, v: Value, props: Value) {
    Accepts(c, v, props) || exists b :: Blames(c, v, props, b)
  }

  /** The steps still to go to what is blamed; nothing is ahead of an accepting check but smaller ones. */
  ghost function Depth(goal: Option<Blame>): nat {
    match goal
    case Some(b) => 1 + |b.ps|
    case None => 0
  }

  /** What the rules say of the value and the properties. */
  ghost predicate Outcome(c: Context, v: Value, props: Value, goal: Option<Blame>) {
    match goal
    case Some(b) => Blames(c, v, props, b)
    case None => Accepts(c, v, props)
  }

  // --- A blame is a rejection ---

  lemma {:induction false} OwnFaultRejects(c: Context, v: Value, p: Pair)
    requires p.key.Str? && PropertyNamed(p.key.s).Some?
    requires var prop := PropertyNamed(p.key.s).value;
             prop.PType? || prop.PCompare? || prop.PSize? || prop.PRegex?
    ensures Kept(c, v, p) <==> OwnFault(c.matches, v, PropertyNamed(p.key.s).value, p.val).None?
  {
  }

  /** What is blamed is not accepted. */
  lemma {:induction false} BlameRejects(c: Context, v: Value, props: Value, b: Blame)
    requires Blames(c, v, props, b)
    ensures !Accepts(c, v, props)
    decreases |b.ps|, 2
  {
    if props.Dict? {
      var i :| 0 <= i < |props.pairs| && FirstAt(c, v, props.pairs, i) && BlamesPair(c, v, props.pairs[i], b);
      BlamedPairFails(c, v, props.pairs[i], b);
      assert props.pairs[i] in props.pairs;
    }
  }

  lemma {:induction false} BlamedPairFails(c: Context, v: Value, p: Pair, b: Blame)
    requires BlamesPair(c, v, p, b)
    ensures !Kept(c, v, p)
    decreases |b.ps|, 1
  {
    if p.key.Str? {
      match PropertyNamed(p.key.s)
      case None =>
        if IsRefName(p.key.s) {
          BlamedRefFails(c, v, p.val, b);
        }
      case Some(PItems) =>
        if (v.Array? || v.Dict?) && p.val.Dict? {
          var i :| 0 <= i < |p.val.pairs| && ItemsBefore(c, v, p.val.pairs, i) && BlamesItem(c, v, p.val.pairs[i], b);
          BlamedItemFails(c, v, p.val.pairs[i], b);
          assert p.val.pairs[i] in p.val.pairs;
        }
      case Some(POptItems) =>
        if v.Dict? && p.val.Dict? {
          var i :| 0 <= i < |p.val.pairs| && OptItemsBefore(c, v, p.val.pairs, i) &&
                   BlamesOptItem(c, v, p.val.pairs[i], b);
          BlamedStepFails(c, ItemAt(v, p.val.pairs[i].key).value, p.val.pairs[i].val, OPT_ITEMS, p.val.pairs[i].key, b);
          assert p.val.pairs[i] in p.val.pairs;
        }
      case Some(PAllKeys) =>
        if v.Dict? {
          var i :| 0 <= i < |v.pairs| && KeysBefore(c, v, p.val, i) &&
                   BlamesStep(c, KeyOf(v, i), p.val, ALL_KEYS, KeyOf(v, i), b);
          BlamedStepFails(c, KeyOf(v, i), p.val, ALL_KEYS, KeyOf(v, i), b);
        }
      case Some(PAllItems) =>
        if HasElements(v) {
          var i :| 0 <= i < Size(v) && ElementsBefore(c, v, p.val, i) &&
                   BlamesStep(c, Element(v, i), p.val, ALL_ITEMS, Label(v, i), b);
          BlamedStepFails(c, Element(v, i), p.val, ALL_ITEMS, Label(v, i), b);
        }
      case Some(prop) => OwnFaultRejects(c, v, p);
    }
  }

  lemma {:induction false} BlamedItemFails(c: Context, v: Value, q: Pair, b: Blame)
    requires BlamesItem(c, v, q, b)
    ensures !ItemKept(c, v, q)
    decreases |b.ps|, 0, 1
  {
    if ItemAt(v, q.key).Some? {
      BlamedStepFails(c, ItemAt(v, q.key).value, q.val, ITEMS, q.key, b);
    }
  }

  lemma {:induction false} BlamedStepFails(c: Context, x: Value, props: Value, step: Value, at: Value, b: Blame)
    requires BlamesStep(c, x, props, step, at, b)
    ensures !Meets(c, x, props)
    decreases |b.ps|, 0, 0
  {
    var rest := Blame(b.error, b.vs[1..], b.ps[2..]);
    if props.Str? {
      BlamedRefFails(c, x, props, rest);
    } else {
      BlameRejects(c, x, props, rest);
    }
  }

  lemma {:induction false} BlamedRefFails(c: Context, v: Value, name: Value, b: Blame)
    requires BlamesRef(c, v, name, b)
    ensures !Refers(c, v, name)
    decreases |b.ps|, 0, 0
  {
    if name.Str? && Lookup(c.schema, name).Some? {
      BlameRejects(c, v, Lookup(c.schema, name).value, Blame(b.error, b.vs, b.ps[2..]));
    }
  }
}

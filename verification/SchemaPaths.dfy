/** The reported failure is determined, and the reported stacks lead to the part of the value that failed. */
module SchemaPaths {
  import opened Base
  import opened Values
  import opened Containers
  import opened Schemas
  import opened SchemaBlames

  // --- One failure is reported ---

  lemma {:induction false} BlameIsUnique(c: Context, v: Value, props: Value, a: Blame, b: Blame)
    requires Blames(c, v, props, a) && Blames(c, v, props, b)
    ensures a == b
    decreases |a.ps|, 2
  {
    hide BlamesPair, Kept, OwnFault, PropertyNamed;
    if props.Dict? {
      var i :| 0 <= i < |props.pairs| && FirstAt(c, v, props.pairs, i) && BlamesPair(c, v, props.pairs[i], a);
      var j :| 0 <= j < |props.pairs| && FirstAt(c, v, props.pairs, j) && BlamesPair(c, v, props.pairs[j], b);
      BlamedPairFails(c, v, props.pairs[i], a);
      BlamedPairFails(c, v, props.pairs[j], b);
      PairBlameIsUnique(c, v, props.pairs[i], a, b);
    }
  }

  lemma {:induction false} PairBlameIsUnique(c: Context, v: Value, p: Pair, a: Blame, b: Blame)
    requires BlamesPair(c, v, p, a) && BlamesPair(c, v, p, b)
    ensures a == b
    decreases |a.ps|, 1
  {
    hide BlamesItems, BlamesOptItems, BlamesAllKeys, BlamesAllItems, BlamesRef, OwnFault, Kept, IsRefName;
    if p.key.Str? {
      match PropertyNamed(p.key.s)
      case None =>
        if IsRefName(p.key.s) {
          RefBlameIsUnique(c, v, p.val, a, b);
        }
      case Some(PItems) => ItemsBlameIsUnique(c, v, p.val, a, b);
      case Some(POptItems) => OptItemsBlameIsUnique(c, v, p.val, a, b);
      case Some(PAllKeys) => AllKeysBlameIsUnique(c, v, p.val, a, b);
      case Some(PAllItems) => AllItemsBlameIsUnique(c, v, p.val, a, b);
      case Some(_) =>
    }
  }

  lemma {:induction false} ItemsBlameIsUnique(c: Context, v: Value, arg: Value, a: Blame, b: Blame)
    requires BlamesItems(c, v, arg, a) && BlamesItems(c, v, arg, b)
    ensures a == b
    decreases |a.ps|, 0, 2
  {
    hide BlamesStep, ItemKept, PropertyNamed, Kept, Label;
    if (v.Array? || v.Dict?) && arg.Dict? {
      var i :| 0 <= i < |arg.pairs| && ItemsBefore(c, v, arg.pairs, i) && BlamesItem(c, v, arg.pairs[i], a);
      var j :| 0 <= j < |arg.pairs| && ItemsBefore(c, v, arg.pairs, j) && BlamesItem(c, v, arg.pairs[j], b);
      BlamedItemFails(c, v, arg.pairs[i], a);
      BlamedItemFails(c, v, arg.pairs[j], b);
      var q := arg.pairs[i];
      if ItemAt(v, q.key).Some? {
        StepBlameIsUnique(c, ItemAt(v, q.key).value, q.val, ITEMS, q.key, a, b);
      }
    }
  }

  lemma {:induction false} OptItemsBlameIsUnique(c: Context, v: Value, arg: Value, a: Blame, b: Blame)
    requires BlamesOptItems(c, v, arg, a) && BlamesOptItems(c, v, arg, b)
    ensures a == b
    decreases |a.ps|, 0, 2
  {
    hide BlamesStep, Meets, PropertyNamed, Kept, Label;
    if v.Dict? && arg.Dict? {
      var i :| 0 <= i < |arg.pairs| && OptItemsBefore(c, v, arg.pairs, i) && BlamesOptItem(c, v, arg.pairs[i], a);
      var j :| 0 <= j < |arg.pairs| && OptItemsBefore(c, v, arg.pairs, j) && BlamesOptItem(c, v, arg.pairs[j], b);
      var q, r := arg.pairs[i], arg.pairs[j];
      BlamedStepFails(c, ItemAt(v, q.key).value, q.val, OPT_ITEMS, q.key, a);
      BlamedStepFails(c, ItemAt(v, r.key).value, r.val, OPT_ITEMS, r.key, b);
      StepBlameIsUnique(c, ItemAt(v, q.key).value, q.val, OPT_ITEMS, q.key, a, b);
    }
  }

  lemma {:induction false} AllKeysBlameIsUnique(c: Context, v: Value, arg: Value, a: Blame, b: Blame)
    requires BlamesAllKeys(c, v, arg, a) && BlamesAllKeys(c, v, arg, b)
    ensures a == b
    decreases |a.ps|, 0, 2
  {
    hide BlamesStep, Meets, PropertyNamed, Kept, Label;
    if v.Dict? {
      var i :| 0 <= i < |v.pairs| && KeysBefore(c, v, arg, i) &&
               BlamesStep(c, KeyOf(v, i), arg, ALL_KEYS, KeyOf(v, i), a);
      var j :| 0 <= j < |v.pairs| && KeysBefore(c, v, arg, j) &&
               BlamesStep(c, KeyOf(v, j), arg, ALL_KEYS, KeyOf(v, j), b);
      BlamedStepFails(c, KeyOf(v, i), arg, ALL_KEYS, KeyOf(v, i), a);
      BlamedStepFails(c, KeyOf(v, j), arg, ALL_KEYS, KeyOf(v, j), b);
      StepBlameIsUnique(c, KeyOf(v, i), arg, ALL_KEYS, KeyOf(v, i), a, b);
    }
  }

  lemma {:induction false} AllItemsBlameIsUnique(c: Context, v: Value, arg: Value, a: Blame, b: Blame)
    requires BlamesAllItems(c, v, arg, a) && BlamesAllItems(c, v, arg, b)
    ensures a == b
    decreases |a.ps|, 0, 2
  {
    hide BlamesStep, Meets, PropertyNamed, Kept, Label;
    if HasElements(v) {
      var i :| 0 <= i < Size(v) && ElementsBefore(c, v, arg, i) &&
               BlamesStep(c, Element(v, i), arg, ALL_ITEMS, Label(v, i), a);
      var j :| 0 <= j < Size(v) && ElementsBefore(c, v, arg, j) &&
               BlamesStep(c, Element(v, j), arg, ALL_ITEMS, Label(v, j), b);
      BlamedStepFails(c, Element(v, i), arg, ALL_ITEMS, Label(v, i), a);
      BlamedStepFails(c, Element(v, j), arg, ALL_ITEMS, Label(v, j), b);
      StepBlameIsUnique(c, Element(v, i), arg, ALL_ITEMS, Label(v, i), a, b);
    }
  }

  lemma {:induction false} StepBlameIsUnique(c: Context, x: Value, props: Value, step: Value, at: Value, a: Blame,
                                             b: Blame)
    requires BlamesStep(c, x, props, step, at, a) && BlamesStep(c, x, props, step, at, b)
    ensures a == b
    decreases |a.ps|, 0, 1
  {
    var a', b' := Blame(a.error, a.vs[1..], a.ps[2..]), Blame(b.error, b.vs[1..], b.ps[2..]);
    if props.Str? {
      RefBlameIsUnique(c, x, props, a', b');
    } else {
      BlameIsUnique(c, x, props, a', b');
    }
    assert a.vs == [at] + a'.vs && b.vs == [at] + b'.vs;
    assert a.ps == [step, at] + a'.ps && b.ps == [step, at] + b'.ps;
  }

  lemma {:induction false} RefBlameIsUnique(c: Context, v: Value, name: Value, a: Blame, b: Blame)
    requires BlamesRef(c, v, name, a) && BlamesRef(c, v, name, b)
    ensures a == b
    decreases |a.ps|, 0, 0
  {
    if name.Str? && Lookup(c.schema, name).Some? {
      BlameIsUnique(c, v, Lookup(c.schema, name).value, Blame(a.error, a.vs, a.ps[2..]),
                    Blame(b.error, b.vs, b.ps[2..]));
    }
    assert a.ps == [REF, name] + a.ps[2..] && b.ps == [REF, name] + b.ps[2..];
  }

  // --- The stacks are a path ---

  /** One step from a value to a part of it, as the two stacks name it. */
  ghost predicate StepsTo(v: Value, step: Value, at: Value, x: Value) {
    if step == ITEMS || step == OPT_ITEMS then ItemAt(v, at) == Some(x)
    else if step == ALL_KEYS then v.Dict? && x == at && exists i :: 0 <= i < |v.pairs| && KeyOf(v, i) == at
    else step == ALL_ITEMS && HasElements(v) && exists i :: 0 <= i < Size(v) && Label(v, i) == at && Element(v, i) == x
  }

  /** The same step in the schema: to the entry of an item, or to the one argument for all parts. */
  ghost predicate SchemaStepsTo(props: Value, step: Value, at: Value, sub: Value) {
    props.Dict? && exists p :: p in props.pairs && p.key == step &&
                               if step == ITEMS || step == OPT_ITEMS then p.val.Dict? && Pair(at, sub) in p.val.pairs
                               else sub == p.val
  }

  /** The schema is the name of another, or has a property that refers to it for the same value. */
  ghost predicate Mentions(props: Value, name: Value) {
    || (props == name && name.Str?)
    || (props.Dict? && exists p :: p in props.pairs && IsRef(p) && p.val == name)
  }

  /**
   * Read together, the stacks of `b` lead from the value `v` and the schema `props` to the value `x` and the
   * schema `at`, with those of `last` still unread. A reference moves in the schema only.
   */
  ghost predicate Leads(c: Context, v: Value, props: Value, b: Blame, x: Value, at: Value, last: Blame)
    decreases |b.ps|
  {
    || (b == last && x == v && at == props)
    || (|b.ps| >= 2 && if b.ps[0] == REF then LeadsByRef(c, v, props, b, x, at, last)
                       else LeadsByStep(c, v, props, b, x, at, last))
  }

  ghost predicate LeadsByRef(c: Context, v: Value, props: Value, b: Blame, x: Value, at: Value, last: Blame)
    requires |b.ps| >= 2
    decreases |b.ps|, 0
  {
    && Mentions(props, b.ps[1]) && Lookup(c.schema, b.ps[1]).Some?
    && Leads(c, v, Lookup(c.schema, b.ps[1]).value, Blame(b.error, b.vs, b.ps[2..]), x, at, last)
  }

  ghost predicate LeadsByStep(c: Context, v: Value, props: Value, b: Blame, x: Value, at: Value, last: Blame)
    requires |b.ps| >= 2
    decreases |b.ps|, 0
  {
    && b.vs != [] && b.vs[0] == b.ps[1]
    && exists y, sub ::
         && StepsTo(v, b.ps[0], b.ps[1], y) && SchemaStepsTo(props, b.ps[0], b.ps[1], sub)
         && Leads(c, y, sub, Blame(b.error, b.vs[1..], b.ps[2..]), x, at, last)
  }

  ghost predicate Unresolved(c: Context, name: Value) {
    !name.Str? || Lookup(c.schema, name).None?
  }

  /**
   * The check of `x` itself against `props` raises the error of `last`, without looking into a part of `x`; the
   * stacks of `last` name the unknown property, the missing item or the missing schema, if that is what failed.
   */
  ghost predicate FailsHere(c: Context, x: Value, props: Value, last: Blame) {
    || (!props.Dict? && last == Here(TypeRequested))
    || (Mentions(props, props) && Unresolved(c, props) && last == Blame(SchemaReference, [], [REF, props]))
    || (props.Dict? && exists p :: p in props.pairs && PairFailsHere(c, x, p, last))
  }

  ghost predicate PairFailsHere(c: Context, x: Value, p: Pair, last: Blame) {
    if !p.key.Str? then last == Here(TypeRequested)
    else
      match PropertyNamed(p.key.s)
      case None =>
        if IsRefName(p.key.s) then Unresolved(c, p.val) && last == Blame(SchemaReference, [], [REF, p.val])
        else last == Blame(SchemaProperty, [], [p.key])
      case Some(PItems) =>
        if !x.Array? && !x.Dict? then last == Here(InvalidType)
        else if !p.val.Dict? then last == Here(TypeRequested)
        else exists q :: q in p.val.pairs && ItemFailsHere(x, q, last)
      case Some(POptItems) =>
        if !x.Dict? then last == Here(InvalidType) else !p.val.Dict? && last == Here(TypeRequested)
      case Some(PAllKeys) => !x.Dict? && last == Here(InvalidType)
      case Some(PAllItems) => !HasElements(x) && last == Here(InvalidType)
      case Some(prop) =>
        OwnFault(c.matches, x, prop, p.val).Some? && last == Here(OwnFault(c.matches, x, prop, p.val).value)
  }

  ghost predicate ItemFailsHere(x: Value, q: Pair, last: Blame) {
    if x.Array? && !q.key.Int? then last == Here(TypeRequested)
    else ItemAt(x, q.key).None? && last == Blame(if x.Array? then ArraySize else MissingKey, [q.key], [ITEMS, q.key])
  }

  /** Where the path ends: a part of the value, the schema it was checked against, and what is left of the stacks. */
  datatype End = End(x: Value, at: Value, last: Blame)

  ghost predicate PathEnds(c: Context, v: Value, props: Value, b: Blame, end: End) {
    Leads(c, v, props, b, end.x, end.at, end.last) && FailsHere(c, end.x, end.at, end.last) && end.last.error == b.error
  }

  /** A blame that is raised by the check of the value itself is a path without steps. */
  lemma {:induction false} EndsHere(c: Context, v: Value, props: Value, b: Blame)
    requires FailsHere(c, v, props, b)
    ensures PathEnds(c, v, props, b, End(v, props, b))
  {
  }

  /**
   * The reported stacks, read through value and schema together, lead to a part of the value and to a schema
   * in the given one whose own check of that part raises the reported error.
   */
  lemma {:induction false} BlameIsPath(c: Context, v: Value, props: Value, b: Blame) returns (end: End)
    requires Blames(c, v, props, b)
    ensures PathEnds(c, v, props, b, end)
    decreases |b.ps|, 2
  {
    hide BlamesPair, Leads, PairFailsHere, Kept;
    if props.Dict? {
      var i :| 0 <= i < |props.pairs| && FirstAt(c, v, props.pairs, i) && BlamesPair(c, v, props.pairs[i], b);
      assert props.pairs[i] in props.pairs;
      end := PairBlameIsPath(c, v, props, props.pairs[i], b);
    } else {
      end := End(v, props, b);
      EndsHere(c, v, props, b);
    }
  }

  lemma {:induction false} PairEndsHere(c: Context, v: Value, props: Value, p: Pair, b: Blame)
    requires props.Dict? && p in props.pairs && PairFailsHere(c, v, p, b)
    ensures PathEnds(c, v, props, b, End(v, props, b))
  {
    hide PairFailsHere, Leads;
    EndsHere(c, v, props, b);
  }

  lemma {:induction false} PairBlameIsPath(c: Context, v: Value, props: Value, p: Pair, b: Blame) returns (end: End)
    requires props.Dict? && p in props.pairs && BlamesPair(c, v, p, b)
    ensures PathEnds(c, v, props, b, end)
    decreases |b.ps|, 1
  {
    hide BlamesItems, BlamesOptItems, BlamesAllKeys, BlamesAllItems, BlamesRef, IsRefName, PathEnds, OwnFault;
    end := End(v, props, b);
    if p.key.Str? {
      match PropertyNamed(p.key.s)
      case None =>
        if IsRefName(p.key.s) {
          end := RefBlameIsPath(c, v, props, p.val, b);
        } else {
          PairEndsHere(c, v, props, p, b);
        }
      case Some(PItems) => end := ItemsBlameIsPath(c, v, props, p, b);
      case Some(POptItems) => end := OptItemsBlameIsPath(c, v, props, p, b);
      case Some(PAllKeys) => end := AllKeysBlameIsPath(c, v, props, p, b);
      case Some(PAllItems) => end := AllItemsBlameIsPath(c, v, props, p, b);
      case Some(_) => PairEndsHere(c, v, props, p, b);
    } else {
      PairEndsHere(c, v, props, p, b);
    }
  }

  /** The names of the properties that lead into a value. */
  lemma {:induction false} StepName(p: Pair)
    requires p.key.Str?
    ensures PropertyNamed(p.key.s) == Some(PItems) ==> p.key == ITEMS
    ensures PropertyNamed(p.key.s) == Some(POptItems) ==> p.key == OPT_ITEMS
    ensures PropertyNamed(p.key.s) == Some(PAllKeys) ==> p.key == ALL_KEYS
    ensures PropertyNamed(p.key.s) == Some(PAllItems) ==> p.key == ALL_ITEMS
  {
  }

  lemma {:induction false} ItemsBlameIsPath(c: Context, v: Value, props: Value, p: Pair, b: Blame) returns (end: End)
    requires props.Dict? && p in props.pairs && p.key.Str? && PropertyNamed(p.key.s) == Some(PItems)
    requires BlamesItems(c, v, p.val, b)
    ensures PathEnds(c, v, props, b, end)
    decreases |b.ps|, 0, 2
  {
    hide BlamesStep, PropertyNamed, PathEnds, ItemKept;
    end := End(v, props, b);
    if (v.Array? || v.Dict?) && p.val.Dict? {
      var i :| 0 <= i < |p.val.pairs| && ItemsBefore(c, v, p.val.pairs, i) && BlamesItem(c, v, p.val.pairs[i], b);
      var q := p.val.pairs[i];
      assert q in p.val.pairs;
      if ItemAt(v, q.key).Some? {
        StepName(p);
        assert Pair(q.key, q.val) == q;
        end := StepBlameIsPath(c, v, props, ItemAt(v, q.key).value, q.val, ITEMS, q.key, b);
      } else {
        assert ItemFailsHere(v, q, b);
        PairEndsHere(c, v, props, p, b);
      }
    } else {
      PairEndsHere(c, v, props, p, b);
    }
  }

  lemma {:induction false} OptItemsBlameIsPath(c: Context, v: Value, props: Value, p: Pair, b: Blame)
    returns (end: End)
    requires props.Dict? && p in props.pairs && p.key.Str? && PropertyNamed(p.key.s) == Some(POptItems)
    requires BlamesOptItems(c, v, p.val, b)
    ensures PathEnds(c, v, props, b, end)
    decreases |b.ps|, 0, 2
  {
    hide BlamesStep, PropertyNamed, PathEnds, OptItemKept;
    end := End(v, props, b);
    if v.Dict? && p.val.Dict? {
      var i :| 0 <= i < |p.val.pairs| && OptItemsBefore(c, v, p.val.pairs, i) &&
               BlamesOptItem(c, v, p.val.pairs[i], b);
      var q := p.val.pairs[i];
      StepName(p);
      StepNamesDiffer();
      assert q in p.val.pairs && Pair(q.key, q.val) == q;
      end := StepBlameIsPath(c, v, props, ItemAt(v, q.key).value, q.val, OPT_ITEMS, q.key, b);
    } else {
      PairEndsHere(c, v, props, p, b);
    }
  }

  lemma {:induction false} AllKeysBlameIsPath(c: Context, v: Value, props: Value, p: Pair, b: Blame)
    returns (end: End)
    requires props.Dict? && p in props.pairs && p.key.Str? && PropertyNamed(p.key.s) == Some(PAllKeys)
    requires BlamesAllKeys(c, v, p.val, b)
    ensures PathEnds(c, v, props, b, end)
    decreases |b.ps|, 0, 2
  {
    hide BlamesStep, PropertyNamed, PathEnds, Meets;
    end := End(v, props, b);
    if v.Dict? {
      var i :| 0 <= i < |v.pairs| && KeysBefore(c, v, p.val, i) &&
               BlamesStep(c, KeyOf(v, i), p.val, ALL_KEYS, KeyOf(v, i), b);
      StepName(p);
      StepNamesDiffer();
      end := StepBlameIsPath(c, v, props, KeyOf(v, i), p.val, ALL_KEYS, KeyOf(v, i), b);
    } else {
      PairEndsHere(c, v, props, p, b);
    }
  }

  lemma {:induction false} AllItemsBlameIsPath(c: Context, v: Value, props: Value, p: Pair, b: Blame)
    returns (end: End)
    requires props.Dict? && p in props.pairs && p.key.Str? && PropertyNamed(p.key.s) == Some(PAllItems)
    requires BlamesAllItems(c, v, p.val, b)
    ensures PathEnds(c, v, props, b, end)
    decreases |b.ps|, 0, 2
  {
    hide BlamesStep, PropertyNamed, PathEnds, Meets;
    end := End(v, props, b);
    if HasElements(v) {
      var i :| 0 <= i < Size(v) && ElementsBefore(c, v, p.val, i) &&
               BlamesStep(c, Element(v, i), p.val, ALL_ITEMS, Label(v, i), b);
      StepName(p);
      StepNamesDiffer();
      end := StepBlameIsPath(c, v, props, Element(v, i), p.val, ALL_ITEMS, Label(v, i), b);
    } else {
      PairEndsHere(c, v, props, p, b);
    }
  }

  lemma {:induction false} StepNamesDiffer()
    ensures REF != ITEMS && REF != OPT_ITEMS && REF != ALL_KEYS && REF != ALL_ITEMS
    ensures ALL_KEYS != ITEMS && ALL_KEYS != OPT_ITEMS && ALL_ITEMS != ITEMS && ALL_ITEMS != OPT_ITEMS
    ensures ALL_KEYS != ALL_ITEMS
  {
    assert |REF.s| == 3 && |ITEMS.s| == 5 && |OPT_ITEMS.s| == 9 && |ALL_KEYS.s| == 8 && |ALL_ITEMS.s| == 9;
    assert OPT_ITEMS.s[0] == 'o' as int && ALL_ITEMS.s[0] == 'a' as int;
  }

  lemma {:induction false} StepBlameIsPath(c: Context, v: Value, props: Value, y: Value, sub: Value, step: Value,
                                           key: Value, b: Blame)
    returns (end: End)
    requires BlamesStep(c, y, sub, step, key, b) && StepsTo(v, step, key, y) && SchemaStepsTo(props, step, key, sub)
    ensures PathEnds(c, v, props, b, end)
    decreases |b.ps|, 0, 1
  {
    hide FailsHere, BlamesStep, BlamesRef, Blames, SchemaStepsTo, StepsTo, Leads, Lookup, PropertyNamed;
    hide Mentions, PathEnds;
    StepIsNoReference(v, step, key, y);
    StepOf(c, y, sub, step, key, b);
    var rest := Blame(b.error, b.vs[1..], b.ps[2..]);
    if sub.Str? {
      NameMentionsItself(sub);
      end := RefBlameIsPath(c, y, sub, sub, rest);
    } else {
      end := BlameIsPath(c, y, sub, rest);
    }
    LeadsFurther(c, v, props, y, sub, b, end);
  }

  lemma {:induction false} NameMentionsItself(name: Value)
    requires name.Str?
    ensures Mentions(name, name)
  {
  }

  lemma {:induction false} StepOf(c: Context, y: Value, sub: Value, step: Value, key: Value, b: Blame)
    requires BlamesStep(c, y, sub, step, key, b)
    ensures |b.vs| >= 1 && b.vs[0] == key && |b.ps| >= 2 && b.ps[0] == step && b.ps[1] == key
    ensures var rest := Blame(b.error, b.vs[1..], b.ps[2..]);
            if sub.Str? then BlamesRef(c, y, sub, rest) else Blames(c, y, sub, rest)
  {
  }

  lemma {:induction false} StepIsNoReference(v: Value, step: Value, key: Value, y: Value)
    requires StepsTo(v, step, key, y)
    ensures step != REF
  {
    StepNamesDiffer();
  }

  lemma {:induction false} LeadsFurther(c: Context, v: Value, props: Value, y: Value, sub: Value, b: Blame, end: End)
    requires |b.ps| >= 2 && b.ps[0] != REF && b.vs != [] && b.vs[0] == b.ps[1]
    requires StepsTo(v, b.ps[0], b.ps[1], y) && SchemaStepsTo(props, b.ps[0], b.ps[1], sub)
    requires PathEnds(c, y, sub, Blame(b.error, b.vs[1..], b.ps[2..]), end)
    ensures PathEnds(c, v, props, b, end)
  {
    hide StepsTo, SchemaStepsTo, FailsHere;
    assert LeadsByStep(c, v, props, b, end.x, end.at, end.last);
  }

  lemma {:induction false} RefBlameIsPath(c: Context, v: Value, props: Value, name: Value, b: Blame) returns (end: End)
    requires BlamesRef(c, v, name, b) && Mentions(props, name)
    ensures PathEnds(c, v, props, b, end)
    decreases |b.ps|, 0, 0
  {
    hide Blames, Mentions, LeadsByStep;
    if name.Str? && Lookup(c.schema, name).Some? {
      hide FailsHere;
      end := BlameIsPath(c, v, Lookup(c.schema, name).value, Blame(b.error, b.vs, b.ps[2..]));
      assert LeadsByRef(c, v, props, b, end.x, end.at, end.last);
    } else {
      assert b == Blame(SchemaReference, [], [REF, name]);
      UnresolvedEndsHere(c, v, props, name, b);
      end := End(v, props, b);
    }
  }

  lemma {:induction false} UnresolvedEndsHere(c: Context, v: Value, props: Value, name: Value, b: Blame)
    requires Mentions(props, name) && Unresolved(c, name) && b == Blame(SchemaReference, [], [REF, name])
    ensures PathEnds(c, v, props, b, End(v, props, b))
  {
    hide Leads, PropertyNamed;
    if props != name || !name.Str? {
      var p :| p in props.pairs && IsRef(p) && p.val == name;
      PairEndsHere(c, v, props, p, b);
    } else {
      EndsHere(c, v, props, b);
    }
  }
}

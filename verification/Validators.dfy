/**
 * The validator object: the recursion over schema and value, the cache of regular expressions, and the two
 * stacks that are filled while a failure unwinds.
 */
module Validators {
  import opened Base
  import opened Values
  import opened Order
  import opened Containers
  import opened Schemas
  import opened SchemaBlames

  function Reversed(s: seq<Value>): (r: seq<Value>)
    ensures |r| == |s|
  {
    if s == [] then [] else Reversed(s[1..]) + [s[0]]
  }

  lemma {:induction false} ReversedAppend(s: seq<Value>, t: seq<Value>)
    ensures Reversed(s + t) == Reversed(t) + Reversed(s)
  {
    if s == [] {
      assert s + t == t;
    } else {
      assert (s + t)[1..] == s[1..] + t;
      ReversedAppend(s[1..], t);
    }
  }

  lemma {:induction false} ReversedTwice(s: seq<Value>)
    ensures Reversed(Reversed(s)) == s
  {
    if s != [] {
      ReversedAppend(Reversed(s[1..]), [s[0]]);
      ReversedTwice(s[1..]);
    }
  }

  /** What one more handler pushes on a stack while it unwinds. */
  lemma {:induction false} Unwound(stack: seq<Value>, inner: seq<Value>, pushed: seq<Value>)
    ensures stack + Reversed(inner) + Reversed(pushed) == stack + Reversed(pushed + inner)
  {
    ReversedAppend(pushed, inner);
  }

  /**
   * How a call ends that comes to `goal`: the stacks are as they were if everything is kept, and otherwise grow
   * by the steps of the blame.
   */
  predicate Leaves(vs: seq<Value>, ps: seq<Value>, goal: Option<Blame>, fault: Option<Error>,
                   vs': seq<Value>, ps': seq<Value>) {
    match goal
    case Some(b) => fault == Some(b.error) && vs' == vs + Reversed(b.vs) && ps' == ps + Reversed(b.ps)
    case None => fault == None && vs' == vs && ps' == ps
  }

  lemma {:induction false} LeavesHere(vs: seq<Value>, ps: seq<Value>, e: Error)
    ensures Leaves(vs, ps, Some(Here(e)), Some(e), vs, ps)
  {
  }

  lemma {:induction false} LeavesNothing(vs: seq<Value>, ps: seq<Value>)
    ensures Leaves(vs, ps, None, None, vs, ps)
  {
  }

  lemma {:induction false} LeavesFault(vs: seq<Value>, ps: seq<Value>, goal: Option<Blame>, fault: Option<Error>,
                                       vs': seq<Value>, ps': seq<Value>)
    requires Leaves(vs, ps, goal, fault, vs', ps')
    ensures fault == (if goal.Some? then Some(goal.value.error) else None)
    ensures goal.None? ==> vs' == vs && ps' == ps
  {
  }

  /** A handler that pushes its own steps on top of those of the call it guards. */
  lemma {:induction false} LeavesStep(vs: seq<Value>, ps: seq<Value>, b: Blame, vs': seq<Value>, ps': seq<Value>,
                                      down: seq<Value>, names: seq<Value>)
    requires Leaves(vs, ps, Some(b), Some(b.error), vs', ps')
    ensures Leaves(vs, ps, Some(Blame(b.error, down + b.vs, names + b.ps)), Some(b.error),
                   vs' + Reversed(down), ps' + Reversed(names))
  {
    Unwound(vs, b.vs, down);
    Unwound(ps, b.ps, names);
  }

  ghost predicate PairOutcome(c: Context, v: Value, p: Pair, goal: Option<Blame>) {
    match goal
    case Some(b) => BlamesPair(c, v, p, b)
    case None => Kept(c, v, p)
  }

  ghost predicate RefOutcome(c: Context, v: Value, name: Value, goal: Option<Blame>) {
    match goal
    case Some(b) => BlamesRef(c, v, name, b)
    case None => Refers(c, v, name)
  }

  ghost predicate CallOutcome(c: Context, x: Value, props: Value, step: Value, at: Value, goal: Option<Blame>) {
    match goal
    case Some(b) => BlamesStep(c, x, props, step, at, b)
    case None => Meets(c, x, props)
  }

  /** The outcome behind a reference. */
  ghost function AfterRef(goal: Option<Blame>): Option<Blame>
    requires goal.Some? ==> |goal.value.ps| >= 2
  {
    match goal
    case Some(b) => Some(Blame(b.error, b.vs, b.ps[2..]))
    case None => None
  }

  /** The outcome behind a step into the value. */
  ghost function AfterStep(goal: Option<Blame>): Option<Blame>
    requires goal.Some? ==> |goal.value.vs| >= 1 && |goal.value.ps| >= 2
  {
    match goal
    case Some(b) => Some(Blame(b.error, b.vs[1..], b.ps[2..]))
    case None => None
  }

  class Validator {
    var schema: Value
    /** The text each compiled expression in `m_regex_map` was made from. */
    var regexes: map<bytes, bytes>
    var valueStack: seq<Value>
    var propsStack: seq<Value>
    const matches: (bytes, bytes) -> bool

    constructor (schema: Value, matches: (bytes, bytes) -> bool)
      ensures this.schema == schema && this.matches == matches
      ensures regexes == map[] && valueStack == [] && propsStack == []
    {
      this.schema, this.matches := schema, matches;
      regexes, valueStack, propsStack := map[], [], [];
    }

    /** The cached expression for a text is the one compiled from it. */
    predicate Cached()
      reads this
    {
      forall text :: text in regexes ==> regexes[text] == text
    }

    /** `c` is this validator's schema. */
    ghost predicate Serves(c: Context)
      reads this
    {
      schema.Dict? && c.schema == schema.pairs && c.matches == matches && Cached()
    }

    /*
     * The methods of the recursion take the outcome as a ghost parameter: whatever the rules say, in finitely
     * many steps, the methods come to, and they end.
     */

    /** `validate_pair`: every property in turn, up to the first that fails. */
    method ValidatePair(v: Value, props: Value, ghost c: Context, ghost goal: Option<Blame>)
      returns (fault: Option<Error>)
      requires Serves(c) && Outcome(c, v, props, goal)
      modifies this`regexes, this`valueStack, this`propsStack
      ensures Cached() && Leaves(old(valueStack), old(propsStack), goal, fault, valueStack, propsStack)
      ensures fault.None? <==> Accepts(c, v, props)
      decreases Depth(goal), v, PropsRank(c, props), 2
    {
      hide Kept, BlamesPair, Reversed;
      if goal.Some? {
        BlameRejects(c, v, props, goal.value);
      }
      fault := None;
      if !props.Dict? {
        fault := Some(TypeRequested);
        LeavesHere(valueStack, propsStack, TypeRequested);
        return;
      }
      ghost var stop := |props.pairs|;
      if goal.Some? {
        stop :| 0 <= stop < |props.pairs| && FirstAt(c, v, props.pairs, stop) &&
                BlamesPair(c, v, props.pairs[stop], goal.value);
      }
      var i := 0;
      while i < |props.pairs|
        invariant i <= |props.pairs| && i <= stop
        invariant fault.None? && Cached() && valueStack == old(valueStack) && propsStack == old(propsStack)
      {
        assert props.pairs[i] in props.pairs;
        fault := ValidateProperty(v, props.pairs[i], c, if i == stop then goal else None);
        if fault.Some? {
          return;
        }
        i := i + 1;
      }
    }

    /** One turn of the loop over the properties. */
    method ValidateProperty(v: Value, p: Pair, ghost c: Context, ghost goal: Option<Blame>)
      returns (fault: Option<Error>)
      requires Serves(c) && PairOutcome(c, v, p, goal)
      modifies this`regexes, this`valueStack, this`propsStack
      ensures Cached() && Leaves(old(valueStack), old(propsStack), goal, fault, valueStack, propsStack)
      decreases Depth(goal), v, RefRank(c, p), 1
    {
      hide BlamesItems, BlamesOptItems, BlamesAllKeys, BlamesAllItems, BlamesRef, Refers, Meets, Compare;
      hide OwnFault, IsRefName, TypeNamed, Lookup;
      if !p.key.Str? {
        fault := Some(TypeRequested);
        LeavesHere(valueStack, propsStack, TypeRequested);
        return;
      }
      match PropertyNamed(p.key.s)
      case None =>
        if IsRefName(p.key.s) {
          fault := ValidateReference(v, p.val, c, goal);
        } else {
          propsStack := propsStack + [p.key];
          fault := Some(SchemaProperty);
        }
      case Some(PItems) => fault := ValidateItems(v, p.val, c, goal);
      case Some(POptItems) => fault := ValidateOptItems(v, p.val, c, goal);
      case Some(PAllKeys) => fault := ValidateAllKeys(v, p.val, c, goal);
      case Some(PAllItems) => fault := ValidateAllItems(v, p.val, c, goal);
      case Some(prop) =>
        OwnFaultRejects(c, v, p);
        fault := CheckOwn(v, prop, p.val);
        if fault.Some? {
          LeavesHere(valueStack, propsStack, fault.value);
        }
    }

    /** The properties that look at the value itself. */
    method CheckOwn(v: Value, prop: Property, arg: Value) returns (fault: Option<Error>)
      requires Cached() && (prop.PType? || prop.PCompare? || prop.PSize? || prop.PRegex?)
      modifies this`regexes
      ensures Cached() && fault == OwnFault(matches, v, prop, arg)
    {
      hide OwnFault;
      match prop
      case PType => fault := CheckType(v, arg);
      case PCompare(rel) => fault := CheckCompare(v, rel, arg);
      case PSize(rel) => fault := CheckSize(v, rel, arg);
      case PRegex => fault := CheckRegex(v, arg);
    }

    method CheckType(v: Value, arg: Value) returns (fault: Option<Error>)
      ensures fault == OwnFault(matches, v, PType, arg)
    {
      hide TypeNamed;
      fault := None;
      if !arg.Str? || TypeNamed(arg.s).None? {
        fault := Some(SchemaType);
      } else if Tag(v) != TypeNamed(arg.s).value {
        fault := Some(InvalidType);
      }
    }

    method CheckCompare(v: Value, rel: Relation, arg: Value) returns (fault: Option<Error>)
      ensures fault == OwnFault(matches, v, PCompare(rel), arg)
    {
      hide Compare, Related;
      var sign := CompareLocs(v, arg);
      var bad := Violates(rel, sign);
      fault := if bad then Some(InvalidValue) else None;
    }

    method Violates(rel: Relation, sign: int) returns (bad: bool)
      ensures bad <==> !Related(rel, sign)
    {
      match rel
      case REq => bad := sign != 0;
      case RNe => bad := sign == 0;
      case RLt => bad := sign >= 0;
      case RGt => bad := sign <= 0;
      case RLe => bad := sign > 0;
      case RGe => bad := sign < 0;
    }

    method CheckSize(v: Value, rel: Relation, arg: Value) returns (fault: Option<Error>)
      ensures fault == OwnFault(matches, v, PSize(rel), arg)
    {
      if SizeOf(v).None? {
        return Some(InvalidType);
      }
      if !arg.Int? {
        return Some(TypeRequested);
      }
      var size := SizeOf(v).value;
      var bad := match rel
        case REq => size != arg.i
        case RNe => size == arg.i
        case RLt => size >= arg.i
        case RGt => size <= arg.i
        case RLe => size > arg.i
        case RGe => size < arg.i;
      fault := if bad then Some(InvalidSize) else None;
    }

    /** The compiled expression is looked up by its text, and made on first use. */
    method CheckRegex(v: Value, arg: Value) returns (fault: Option<Error>)
      requires Cached()
      modifies this`regexes
      ensures Cached() && fault == OwnFault(matches, v, PRegex, arg)
    {
      if !v.Str? {
        return Some(InvalidType);
      }
      if !arg.Str? {
        return Some(TypeRequested);
      }
      if arg.s !in regexes {
        regexes := regexes[arg.s := arg.s];
      }
      fault := if matches(regexes[arg.s], v.s) then None else Some(InvalidValue);
    }

    /** `VALIDATE_PAIR_REFERENCE`. */
    method ValidateReference(v: Value, name: Value, ghost c: Context, ghost goal: Option<Blame>)
      returns (fault: Option<Error>)
      requires Serves(c) && RefOutcome(c, v, name, goal)
      modifies this`regexes, this`valueStack, this`propsStack
      ensures Cached() && Leaves(old(valueStack), old(propsStack), goal, fault, valueStack, propsStack)
      decreases Depth(goal), v, Height(c, name), 3
    {
      hide Accepts, Blames, Reversed, Leaves;
      if name.Str? && Lookup(schema.pairs, name).Some? {
        if goal.None? {
          DescendsBelow(c, name);
        }
        fault := ValidatePair(v, Lookup(schema.pairs, name).value, c, AfterRef(goal));
      } else {
        LeavesHere(valueStack, propsStack, SchemaReference);
        assert goal.value.ps[2..] == [];
        assert AfterRef(goal) == Some(Here(SchemaReference));
        fault := Some(SchemaReference);
      }
      LeavesFault(old(valueStack), old(propsStack), AfterRef(goal), fault, valueStack, propsStack);
      if fault.Some? {
        UnwindRef(name, goal, old(valueStack), old(propsStack));
      }
    }

    /** The handler of a reference. */
    method UnwindRef(name: Value, ghost goal: Option<Blame>, ghost vs: seq<Value>, ghost ps: seq<Value>)
      requires goal.Some? && |goal.value.ps| >= 2 && goal.value.ps[0] == REF && goal.value.ps[1] == name
      requires Leaves(vs, ps, AfterRef(goal), Some(goal.value.error), valueStack, propsStack)
      modifies this`propsStack
      ensures Leaves(vs, ps, goal, Some(goal.value.error), valueStack, propsStack)
    {
      ghost var b := goal.value;
      LeavesStep(vs, ps, AfterRef(goal).value, valueStack, propsStack, [], [REF, name]);
      ReversedPair(REF, name);
      assert [] + b.vs == b.vs && [REF, name] + b.ps[2..] == b.ps && valueStack + Reversed([]) == valueStack;
      assert propsStack + [name, REF] == propsStack + [name] + [REF];
      propsStack := propsStack + [name];
      propsStack := propsStack + [REF];
    }

    /** The handler of a step into the value. */
    method UnwindStep(step: Value, at: Value, ghost goal: Option<Blame>, ghost vs: seq<Value>, ghost ps: seq<Value>)
      requires goal.Some? && |goal.value.vs| >= 1 && goal.value.vs[0] == at
      requires |goal.value.ps| >= 2 && goal.value.ps[0] == step && goal.value.ps[1] == at
      requires Leaves(vs, ps, AfterStep(goal), Some(goal.value.error), valueStack, propsStack)
      modifies this`valueStack, this`propsStack
      ensures Leaves(vs, ps, goal, Some(goal.value.error), valueStack, propsStack)
    {
      ghost var b := goal.value;
      LeavesStep(vs, ps, AfterStep(goal).value, valueStack, propsStack, [at], [step, at]);
      ReversedPair(step, at);
      assert [at] + b.vs[1..] == b.vs && [step, at] + b.ps[2..] == b.ps;
      assert propsStack + [at, step] == propsStack + [at] + [step];
      valueStack := valueStack + [at];
      propsStack := propsStack + [at];
      propsStack := propsStack + [step];
    }

    /** `VALIDATE_PAIR_CALL` on a part of the value, with the pushes of its caller. */
    method ValidateCall(x: Value, props: Value, step: Value, at: Value, ghost c: Context, ghost goal: Option<Blame>)
      returns (fault: Option<Error>)
      requires Serves(c) && CallOutcome(c, x, props, step, at, goal)
      modifies this`regexes, this`valueStack, this`propsStack
      ensures Cached() && Leaves(old(valueStack), old(propsStack), goal, fault, valueStack, propsStack)
      decreases Depth(goal), x, if props.Str? then Height(c, props) + 1 else PropsRank(c, props), 4
    {
      hide Accepts, Blames, Refers, BlamesRef, PropertyNamed, TypeNamed, Lookup, Reversed, Leaves;
      if props.Str? {
        fault := ValidateReference(x, props, c, AfterStep(goal));
      } else {
        fault := ValidatePair(x, props, c, AfterStep(goal));
      }
      LeavesFault(old(valueStack), old(propsStack), AfterStep(goal), fault, valueStack, propsStack);
      if fault.Some? {
        UnwindStep(step, at, goal, old(valueStack), old(propsStack));
      }
    }

    /** `items`, on an array by index and on a dictionary by key. */
    method ValidateItems(v: Value, arg: Value, ghost c: Context, ghost goal: Option<Blame>)
      returns (fault: Option<Error>)
      requires Serves(c)
      requires goal.None? ==>
                 (v.Array? || v.Dict?) && arg.Dict? && forall q :: q in arg.pairs ==> ItemKept(c, v, q)
      requires goal.Some? ==> BlamesItems(c, v, arg, goal.value)
      modifies this`regexes, this`valueStack, this`propsStack
      ensures Cached() && Leaves(old(valueStack), old(propsStack), goal, fault, valueStack, propsStack)
      decreases Depth(goal), v, 0, 0
    {
      hide Meets, BlamesStep, PropertyNamed, TypeNamed, Lookup, Compare, Reversed, Label, PropsRank, Leaves;
      fault := None;
      if !v.Array? && !v.Dict? {
        fault := Some(InvalidType);
        LeavesHere(valueStack, propsStack, InvalidType);
        return;
      }
      if !arg.Dict? {
        fault := Some(TypeRequested);
        LeavesHere(valueStack, propsStack, TypeRequested);
        return;
      }
      ghost var stop := |arg.pairs|;
      if goal.Some? {
        stop :| 0 <= stop < |arg.pairs| && ItemsBefore(c, v, arg.pairs, stop) &&
                BlamesItem(c, v, arg.pairs[stop], goal.value);
      }
      var i := 0;
      while i < |arg.pairs|
        invariant i <= |arg.pairs| && i <= stop
        invariant fault.None? && Cached() && valueStack == old(valueStack) && propsStack == old(propsStack)
      {
        var q := arg.pairs[i];
        assert q in arg.pairs;
        if v.Array? && !q.key.Int? {
          fault := Some(TypeRequested);
          LeavesHere(valueStack, propsStack, TypeRequested);
          return;
        }
        if ItemAt(v, q.key).None? {
          fault := Some(if v.Array? then ArraySize else MissingKey);
          LeavesHere(valueStack, propsStack, fault.value);
          assert goal.value.vs[1..] == [] && goal.value.ps[2..] == [];
          assert AfterStep(goal) == Some(Here(fault.value));
          UnwindStep(ITEMS, q.key, goal, valueStack, propsStack);
          return;
        }
        ghost var sub := if i == stop then goal else None;
        fault := ValidateCall(ItemAt(v, q.key).value, q.val, ITEMS, q.key, c, sub);
        LeavesFault(old(valueStack), old(propsStack), sub, fault, valueStack, propsStack);
        if fault.Some? {
          return;
        }
        i := i + 1;
      }
      LeavesNothing(valueStack, propsStack);
    }

    /** `opt-items`. */
    method ValidateOptItems(v: Value, arg: Value, ghost c: Context, ghost goal: Option<Blame>)
      returns (fault: Option<Error>)
      requires Serves(c)
      requires goal.None? ==> v.Dict? && arg.Dict? && forall q :: q in arg.pairs ==> OptItemKept(c, v, q)
      requires goal.Some? ==> BlamesOptItems(c, v, arg, goal.value)
      modifies this`regexes, this`valueStack, this`propsStack
      ensures Cached() && Leaves(old(valueStack), old(propsStack), goal, fault, valueStack, propsStack)
      decreases Depth(goal), v, 0, 0
    {
      hide Meets, BlamesStep, PropertyNamed, TypeNamed, Lookup, Compare, Reversed, Label, PropsRank, Leaves;
      fault := None;
      if !v.Dict? {
        fault := Some(InvalidType);
        LeavesHere(valueStack, propsStack, InvalidType);
        return;
      }
      if !arg.Dict? {
        fault := Some(TypeRequested);
        LeavesHere(valueStack, propsStack, TypeRequested);
        return;
      }
      ghost var stop := |arg.pairs|;
      if goal.Some? {
        stop :| 0 <= stop < |arg.pairs| && OptItemsBefore(c, v, arg.pairs, stop) &&
                BlamesOptItem(c, v, arg.pairs[stop], goal.value);
      }
      var i := 0;
      while i < |arg.pairs|
        invariant i <= |arg.pairs| && i <= stop
        invariant fault.None? && Cached() && valueStack == old(valueStack) && propsStack == old(propsStack)
      {
        var q := arg.pairs[i];
        assert q in arg.pairs;
        if ItemAt(v, q.key).Some? {
          ghost var sub := if i == stop then goal else None;
          fault := ValidateCall(ItemAt(v, q.key).value, q.val, OPT_ITEMS, q.key, c, sub);
          LeavesFault(old(valueStack), old(propsStack), sub, fault, valueStack, propsStack);
          if fault.Some? {
            return;
          }
        }
        i := i + 1;
      }
      LeavesNothing(valueStack, propsStack);
    }

    /** `all-keys`. */
    method ValidateAllKeys(v: Value, arg: Value, ghost c: Context, ghost goal: Option<Blame>)
      returns (fault: Option<Error>)
      requires Serves(c)
      requires goal.None? ==> v.Dict? && forall i :: 0 <= i < |v.pairs| ==> Meets(c, KeyOf(v, i), arg)
      requires goal.Some? ==> BlamesAllKeys(c, v, arg, goal.value)
      modifies this`regexes, this`valueStack, this`propsStack
      ensures Cached() && Leaves(old(valueStack), old(propsStack), goal, fault, valueStack, propsStack)
      decreases Depth(goal), v, 0, 0
    {
      hide Meets, BlamesStep, PropertyNamed, TypeNamed, Lookup, Compare, Reversed, Label, PropsRank, Leaves;
      fault := None;
      if !v.Dict? {
        fault := Some(InvalidType);
        LeavesHere(valueStack, propsStack, InvalidType);
        return;
      }
      ghost var stop := |v.pairs|;
      if goal.Some? {
        stop :| 0 <= stop < |v.pairs| && KeysBefore(c, v, arg, stop) &&
                BlamesStep(c, KeyOf(v, stop), arg, ALL_KEYS, KeyOf(v, stop), goal.value);
      }
      var i := 0;
      while i < |v.pairs|
        invariant i <= |v.pairs| && i <= stop
        invariant fault.None? && Cached() && valueStack == old(valueStack) && propsStack == old(propsStack)
      {
        ghost var sub := if i == stop then goal else None;
        fault := ValidateCall(KeyOf(v, i), arg, ALL_KEYS, KeyOf(v, i), c, sub);
        LeavesFault(old(valueStack), old(propsStack), sub, fault, valueStack, propsStack);
        if fault.Some? {
          return;
        }
        i := i + 1;
      }
      LeavesNothing(valueStack, propsStack);
    }

    /** `all-items`, whose loop over arrays, sets, lists and dictionaries differs only in how it names an element. */
    method ValidateAllItems(v: Value, arg: Value, ghost c: Context, ghost goal: Option<Blame>)
      returns (fault: Option<Error>)
      requires Serves(c)
      requires goal.None? ==> HasElements(v) && forall i :: 0 <= i < Size(v) ==> Meets(c, Element(v, i), arg)
      requires goal.Some? ==> BlamesAllItems(c, v, arg, goal.value)
      modifies this`regexes, this`valueStack, this`propsStack
      ensures Cached() && Leaves(old(valueStack), old(propsStack), goal, fault, valueStack, propsStack)
      decreases Depth(goal), v, 0, 0
    {
      hide Meets, BlamesStep, PropertyNamed, TypeNamed, Lookup, Compare, Reversed, Label, PropsRank, Leaves;
      fault := None;
      if !HasElements(v) {
        fault := Some(InvalidType);
        LeavesHere(valueStack, propsStack, InvalidType);
        return;
      }
      ghost var stop := Size(v);
      if goal.Some? {
        stop :| 0 <= stop < Size(v) && ElementsBefore(c, v, arg, stop) &&
                BlamesStep(c, Element(v, stop), arg, ALL_ITEMS, Label(v, stop), goal.value);
      }
      var i := 0;
      while i < Size(v)
        invariant i <= Size(v) && i <= stop
        invariant fault.None? && Cached() && valueStack == old(valueStack) && propsStack == old(propsStack)
      {
        ghost var sub := if i == stop then goal else None;
        fault := ValidateCall(Element(v, i), arg, ALL_ITEMS, Label(v, i), c, sub);
        LeavesFault(old(valueStack), old(propsStack), sub, fault, valueStack, propsStack);
        if fault.Some? {
          return;
        }
        i := i + 1;
      }
      LeavesNothing(valueStack, propsStack);
    }

    /**
     * `validate`: the schema under `root`, which the lookup creates blank when it is missing. Afterwards the
     * stacks are empty, or spell the blame from the root down. It can be called where the check ends.
     */
    method Validate(v: Value) returns (fault: Option<Error>, ghost b: Blame)
      requires Cached()
      requires schema.Dict? ==> Decided(Context(Rooted(schema).pairs, matches), v, RootOf(Rooted(schema)))
      modifies this`schema, this`regexes, this`valueStack, this`propsStack
      ensures Cached() && schema == Rooted(old(schema))
      ensures schema.Dict? ==> Lookup(schema.pairs, Str([114, 111, 111, 116])) == Some(RootOf(schema))
      ensures fault.None? ==> valueStack == [] && propsStack == []
      ensures fault.None? <==> schema.Dict? && Accepts(Context(schema.pairs, matches), v, RootOf(schema))
      ensures fault.Some? ==> fault.value == b.error && valueStack == b.vs && propsStack == [ROOT] + b.ps
      ensures fault.Some? ==>
                if schema.Dict? then Blames(Context(schema.pairs, matches), v, RootOf(schema), b)
                else b == Here(if schema.Array? then TypeRequested else InvalidOperation)
    {
      hide Accepts, Blames, DictInsert, Reversed;
      valueStack, propsStack := [], [];
      b := Here(InvalidOperation);
      if schema.Dict? {
        RootIsFound(schema);
        schema := Rooted(schema);
        ghost var c := Context(schema.pairs, matches);
        if !Accepts(c, v, RootOf(schema)) {
          b :| Blames(c, v, RootOf(schema), b);
        }
        fault := ValidatePair(v, RootOf(schema), c, if Accepts(c, v, RootOf(schema)) then None else Some(b));
      } else {
        var e := if schema.Array? then TypeRequested else InvalidOperation;
        LeavesHere([], [], e);
        fault, b := Some(e), Here(e);
      }
      if fault.Some? {
        BothReversed(b);
        propsStack := propsStack + [ROOT];
        valueStack, propsStack := Reversed(valueStack), Reversed(propsStack);
      }
    }
  }

  lemma {:induction false} BothReversed(b: Blame)
    ensures Reversed([] + Reversed(b.vs)) == b.vs
    ensures Reversed([] + Reversed(b.ps) + [ROOT]) == [ROOT] + b.ps
  {
    assert [] + Reversed(b.vs) == Reversed(b.vs);
    assert [] + Reversed(b.ps) + [ROOT] == Reversed(b.ps) + [ROOT];
    ReversedTwice(b.vs);
    ReversedTwice(b.ps);
    ReversedAppend(Reversed(b.ps), [ROOT]);
    ReversedPair(ROOT, ROOT);
  }

  const ROOT: Value := Text("root")

  lemma {:induction false} ReversedPair(a: Value, b: Value)
    ensures Reversed([a, b]) == [b, a] && Reversed([a]) == [a]
  {
    assert [a, b][1..] == [b] && [b][1..] == [] && [a][1..] == [];
  }

  /** `m_schema["root"]`: `std::map::operator []` inserts a blank value under a missing key. */
  function Rooted(schema: Value): (r: Value)
    ensures schema.Dict? ==> r.Dict?
    ensures !schema.Dict? ==> r == schema
  {
    if schema.Dict? && Lookup(schema.pairs, ROOT).None? then Dict(DictInsert(schema.pairs, ROOT, Blank)) else schema
  }

  /** What is found under `root`. */
  function RootOf(schema: Value): Value
    requires schema.Dict?
  {
    if Lookup(schema.pairs, ROOT).Some? then Lookup(schema.pairs, ROOT).value else Blank
  }

  lemma {:induction false} InsertedIsFound(ps: seq<Pair>, k: Value, v: Value)
    requires Lookup(ps, k).None?
    ensures Lookup(DictInsert(ps, k, v), k) == Some(v)
  {
    hide Compare;
    if ps != [] {
      CompareOrder(k, ps[0].key);
      InsertedIsFound(ps[1..], k, v);
    }
  }

  /** The schema that is checked is the entry under the four bytes of `root`. */
  lemma {:induction false} RootIsFound(schema: Value)
    requires schema.Dict?
    ensures ROOT == Str([114, 111, 111, 116])
    ensures Lookup(Rooted(schema).pairs, Str([114, 111, 111, 116])) == Some(RootOf(Rooted(schema)))
  {
    hide DictInsert;
    assert Ascii("root") == [114, 111, 111, 116];
    if Lookup(schema.pairs, ROOT).None? {
      InsertedIsFound(schema.pairs, ROOT, Blank);
    }
  }

  /** Nothing else is changed by looking it up. */
  lemma {:induction false} RootedAssociates(schema: Value, k: Value)
    requires schema.Dict? && SortedPairs(schema.pairs)
    ensures Lookup(Rooted(schema).pairs, k) ==
            if k == Str([114, 111, 111, 116]) && Lookup(schema.pairs, k).None? then Some(Blank)
            else Lookup(schema.pairs, k)
  {
    hide DictInsert, Lookup, SortedPairs;
    RootIsFound(schema);
    DictInsertLookup(schema.pairs, ROOT, Blank, k);
  }
}

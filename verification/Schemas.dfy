/**
 * What a schema asks of a value: each property has a meaning of its own, and a value is accepted when all of
 * them hold. Schemas refer to one another by name.
 */
module Schemas {
  import opened Base
  import opened Values
  import opened Order
  import opened Containers

  datatype Relation = REq | RNe | RLt | RGt | RLe | RGe

  datatype Property =
    | PType
    | PCompare(rel: Relation)
    | PSize(rel: Relation)
    | PRegex
    | PItems
    | POptItems
    | PAllKeys
    | PAllItems

  datatype Error =
    | TypeRequested
    | InvalidOperation
    | SchemaReference
    | SchemaProperty
    | SchemaType
    | InvalidType
    | InvalidValue
    | InvalidSize
    | ArraySize
    | MissingKey

  function Ascii(s: string): bytes {
    seq(|s|, i requires 0 <= i < |s| => s[i] as int % 0x100)
  }

  function Text(s: string): Value {
    Str(Ascii(s))
  }

  /** `c_prop_map`. */
  function PropertyNamed(name: bytes): Option<Property> {
    if name == Ascii("type") then Some(PType)
    else if name == Ascii("==") then Some(PCompare(REq))
    else if name == Ascii("!=") then Some(PCompare(RNe))
    else if name == Ascii("<") then Some(PCompare(RLt))
    else if name == Ascii(">") then Some(PCompare(RGt))
    else if name == Ascii("<=") then Some(PCompare(RLe))
    else if name == Ascii(">=") then Some(PCompare(RGe))
    else if name == Ascii("size ==") then Some(PSize(REq))
    else if name == Ascii("size !=") then Some(PSize(RNe))
    else if name == Ascii("size <") then Some(PSize(RLt))
    else if name == Ascii("size >") then Some(PSize(RGt))
    else if name == Ascii("size <=") then Some(PSize(RLe))
    else if name == Ascii("size >=") then Some(PSize(RGe))
    else if name == Ascii("regex") then Some(PRegex)
    else if name == Ascii("items") then Some(PItems)
    else if name == Ascii("opt-items") then Some(POptItems)
    else if name == Ascii("all-keys") then Some(PAllKeys)
    else if name == Ascii("all-items") then Some(PAllItems)
    else None
  }

  /** `c_type_map`. */
  function TypeNamed(name: bytes): Option<nat> {
    if name == Ascii("blank") then Some(0)
    else if name == Ascii("bool") then Some(1)
    else if name == Ascii("integer") then Some(2)
    else if name == Ascii("float") then Some(3)
    else if name == Ascii("string") then Some(4)
    else if name == Ascii("array") then Some(5)
    else if name == Ascii("set") then Some(6)
    else if name == Ascii("list") then Some(7)
    else if name == Ascii("dict") then Some(8)
    else None
  }

  /** A property name that is not in the map and begins with `ref` refers to another schema for the same value. */
  predicate IsRefName(name: bytes) {
    |name| >= 3 && name[..3] == Ascii("ref")
  }

  predicate IsRef(p: Pair) {
    p.key.Str? && PropertyNamed(p.key.s).None? && IsRefName(p.key.s)
  }

  predicate Related(rel: Relation, sign: int) {
    match rel
    case REq => sign == 0
    case RNe => sign != 0
    case RLt => sign < 0
    case RGt => sign > 0
    case RLe => sign <= 0
    case RGe => sign >= 0
  }

  function SizeOf(v: Value): Option<nat> {
    match v
    case Str(s) => Some(|s|)
    case Array(xs) => Some(|xs|)
    case Set(xs) => Some(|xs|)
    case List(xs) => Some(|xs|)
    case Dict(ps) => Some(|ps|)
    case _ => None
  }

  // --- Parts of a value ---

  lemma {:induction false} LookupIndex(ps: seq<Pair>, k: Value) returns (i: nat)
    requires Lookup(ps, k).Some?
    ensures i < |ps| && ps[i] == Pair(k, Lookup(ps, k).value)
  {
    if ps[0].key == k {
      i := 0;
    } else {
      i := LookupIndex(ps[1..], k);
      i := i + 1;
    }
  }

  /** The element of an array at an index, or the value of a dictionary under a key. */
  function ItemAt(v: Value, k: Value): (r: Option<Value>)
    ensures r.Some? ==> r.value < v
  {
    match v
    case Array(xs) => if k.Int? && 0 <= k.i < |xs| then Some(xs[k.i]) else None
    case Dict(ps) =>
      var r := Lookup(ps, k);
      assert r.Some? ==> r.value < v by {
        if r.Some? {
          var i := LookupIndex(ps, k);
          assert ps[i].val < ps[i] && ps[i] in ps;
        }
      }
      r
    case _ => None
  }

  predicate HasElements(v: Value) {
    v.Array? || v.Set? || v.List? || v.Dict?
  }

  function Size(v: Value): nat
    requires HasElements(v)
  {
    if v.Dict? then |v.pairs| else |v.items|
  }

  /** The elements in the order of iteration; of a dictionary, the values. */
  function Element(v: Value, i: nat): (r: Value)
    requires HasElements(v) && i < Size(v)
    ensures r < v
  {
    if v.Dict? then
      assert v.pairs[i] in v.pairs;
      v.pairs[i].val
    else v.items[i]
  }

  function KeyOf(v: Value, i: nat): (r: Value)
    requires v.Dict? && i < |v.pairs|
    ensures r < v
  {
    assert v.pairs[i] in v.pairs;
    v.pairs[i].key
  }

  /** How the stacks name an element: by its key, or by its position. No container has 2^63 elements. */
  function Label(v: Value, i: nat): Value
    requires HasElements(v) && i < Size(v)
  {
    if v.Dict? then v.pairs[i].key else if i <= INT64_MAX then Int(i) else Int(INT64_MAX)
  }

  // --- References ---

  /** The schema, and what the regular expression library answers. */
  datatype Context = Context(schema: seq<Pair>, matches: (bytes, bytes) -> bool)

  /** The references that pass on the same value, from the schema of that name on, end within `n` steps. */
  ghost predicate EndsWithin(schema: seq<Pair>, name: Value, n: nat)
    decreases n
  {
    var named := Lookup(schema, name);
    named.Some? && named.value.Dict? ==>
      forall p :: p in named.value.pairs && IsRef(p) ==> n > 0 && EndsWithin(schema, p.val, n - 1)
  }

  /** They form no cycle. */
  ghost predicate Descends(c: Context, name: Value) {
    exists n: nat :: EndsWithin(c.schema, name, n)
  }

  ghost function Least(schema: seq<Pair>, name: Value, n: nat): (r: nat)
    requires EndsWithin(schema, name, n)
    ensures EndsWithin(schema, name, r) && forall m: nat :: EndsWithin(schema, name, m) ==> r <= m
    decreases n
  {
    if exists m: nat :: m < n && EndsWithin(schema, name, m) then
      var m: nat :| m < n && EndsWithin(schema, name, m);
      Least(schema, name, m)
    else n
  }

  /** The length of the longest chain of such references. */
  ghost function Height(c: Context, name: Value): (r: nat)
    ensures Descends(c, name) ==>
              EndsWithin(c.schema, name, r) && forall m: nat :: EndsWithin(c.schema, name, m) ==> r <= m
  {
    if Descends(c, name) then
      var n: nat :| EndsWithin(c.schema, name, n);
      Least(c.schema, name, n)
    else 0
  }

  ghost function RefRank(c: Context, p: Pair): nat {
    if IsRef(p) then Height(c, p.val) + 1 else 0
  }

  ghost function PairsRank(c: Context, ps: seq<Pair>): (r: nat)
    ensures forall p :: p in ps ==> RefRank(c, p) <= r
    ensures r > 0 ==> exists p :: p in ps && RefRank(c, p) == r
  {
    if ps == [] then 0
    else
      var r := PairsRank(c, ps[1..]);
      assert ps == [ps[0]] + ps[1..];
      assert ps[0] in ps;
      if RefRank(c, ps[0]) > r then RefRank(c, ps[0]) else r
  }

  /** Above the heights of all the names that the properties refer to for the same value. */
  ghost function PropsRank(c: Context, props: Value): nat {
    if props.Dict? then PairsRank(c, props.pairs) else 0
  }

  lemma {:induction false} DescendsBelow(c: Context, name: Value)
    requires Descends(c, name) && Lookup(c.schema, name).Some?
    ensures PropsRank(c, Lookup(c.schema, name).value) <= Height(c, name)
  {
    var props, n := Lookup(c.schema, name).value, Height(c, name);
    if PropsRank(c, props) > 0 {
      var p :| p in props.pairs && RefRank(c, p) == PropsRank(c, props);
      assert EndsWithin(c.schema, p.val, n - 1);
    }
  }

  /** Every name that `props` mentions where a schema is expected is one of `names`. */
  ghost predicate Within(names: set<Value>, props: Value)
    decreases props, 1
  {
    if props.Str? then props in names
    else props.Dict? ==> forall p :: p in props.pairs ==> PairWithin(names, p)
  }

  ghost predicate PairWithin(names: set<Value>, p: Pair)
    decreases p
  {
    p.key.Str? ==>
      match PropertyNamed(p.key.s)
      case None => IsRefName(p.key.s) && p.val.Str? ==> p.val in names
      case Some(PItems) => p.val.Dict? ==> forall q :: q in p.val.pairs ==> Within(names, q.val)
      case Some(POptItems) => p.val.Dict? ==> forall q :: q in p.val.pairs ==> Within(names, q.val)
      case Some(PAllKeys) => Within(names, p.val)
      case Some(PAllItems) => Within(names, p.val)
      case _ => true
  }

  // --- Acceptance ---

  /** Every property holds. */
  ghost predicate Accepts(c: Context, v: Value, props: Value)
    decreases v, PropsRank(c, props), 2
  {
    props.Dict? && forall p :: p in props.pairs ==> Kept(c, v, p)
  }

  /** The value keeps one property. */
  ghost predicate Kept(c: Context, v: Value, p: Pair)
    decreases v, RefRank(c, p), 1
  {
    && p.key.Str?
    && match PropertyNamed(p.key.s)
       case None => IsRefName(p.key.s) && Refers(c, v, p.val)
       case Some(PType) => p.val.Str? && TypeNamed(p.val.s) == Some(Tag(v))
       case Some(PCompare(rel)) => Related(rel, Compare(v, p.val))
       case Some(PSize(rel)) => SizeOf(v).Some? && p.val.Int? && Related(rel, SizeOf(v).value - p.val.i)
       case Some(PRegex) => v.Str? && p.val.Str? && c.matches(p.val.s, v.s)
       case Some(PItems) =>
         (v.Array? || v.Dict?) && p.val.Dict? && forall q :: q in p.val.pairs ==> ItemKept(c, v, q)
       case Some(POptItems) => v.Dict? && p.val.Dict? && forall q :: q in p.val.pairs ==> OptItemKept(c, v, q)
       case Some(PAllKeys) =>
         v.Dict? && forall i :: 0 <= i < |v.pairs| ==> Meets(c, KeyOf(v, i), p.val)
       case Some(PAllItems) =>
         HasElements(v) && forall i :: 0 <= i < Size(v) ==> Meets(c, Element(v, i), p.val)
  }

  /** The item is there and meets its schema. */
  ghost predicate ItemKept(c: Context, v: Value, q: Pair)
    decreases v, 0, 0
  {
    ItemAt(v, q.key).Some? && Meets(c, ItemAt(v, q.key).value, q.val)
  }

  /** The item meets its schema if it is there. */
  ghost predicate OptItemKept(c: Context, v: Value, q: Pair)
    decreases v, 0, 0
  {
    ItemAt(v, q.key).Some? ==> Meets(c, ItemAt(v, q.key).value, q.val)
  }

  /**
   * The value is accepted by the schema of that name. A name on a cycle counts as not accepting: checking it
   * would not end.
   */
  ghost predicate Refers(c: Context, v: Value, name: Value)
    decreases v, Height(c, name), 3
  {
    && name.Str? && Lookup(c.schema, name).Some? && Descends(c, name)
    && (DescendsBelow(c, name);
        Accepts(c, v, Lookup(c.schema, name).value))
  }

  /** The value is accepted by a schema given in place, or by name. */
  ghost predicate Meets(c: Context, v: Value, props: Value)
    decreases v, if props.Str? then Height(c, props) + 1 else PropsRank(c, props), 4
  {
    if props.Str? then Refers(c, v, props) else Accepts(c, v, props)
  }
}

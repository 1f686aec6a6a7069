/**
 * What each property of a schema asks of a value, said of the bytes of its name, the value and the argument: when
 * a schema with this one property accepts, and what it reports otherwise.
 */
module SchemaMeanings {
  import opened Base
  import opened Values
  import opened Order
  import opened Containers
  import opened Schemas
  import opened SchemaBlames

  // --- The names in bytes ---

  lemma {:induction false} ShortNames()
    ensures Ascii("type") == [116, 121, 112, 101]
    ensures Ascii("==") == [61, 61]
    ensures Ascii("!=") == [33, 61]
    ensures Ascii("<") == [60]
    ensures Ascii(">") == [62]
    ensures Ascii("<=") == [60, 61]
    ensures Ascii(">=") == [62, 61]
    ensures Ascii("ref") == [114, 101, 102]
  {
  }

  lemma {:induction false} SizeNames()
    ensures Ascii("size ==") == [115, 105, 122, 101, 32, 61, 61]
    ensures Ascii("size !=") == [115, 105, 122, 101, 32, 33, 61]
    ensures Ascii("size <") == [115, 105, 122, 101, 32, 60]
    ensures Ascii("size >") == [115, 105, 122, 101, 32, 62]
    ensures Ascii("size <=") == [115, 105, 122, 101, 32, 60, 61]
    ensures Ascii("size >=") == [115, 105, 122, 101, 32, 62, 61]
  {
  }

  lemma {:induction false} PartNames()
    ensures Ascii("regex") == [114, 101, 103, 101, 120]
    ensures Ascii("items") == [105, 116, 101, 109, 115]
    ensures Ascii("opt-items") == [111, 112, 116, 45, 105, 116, 101, 109, 115]
    ensures Ascii("all-keys") == [97, 108, 108, 45, 107, 101, 121, 115]
    ensures Ascii("all-items") == [97, 108, 108, 45, 105, 116, 101, 109, 115]
  {
  }

  lemma {:induction false} TypeNames()
    ensures Ascii("blank") == [98, 108, 97, 110, 107]
    ensures Ascii("bool") == [98, 111, 111, 108]
    ensures Ascii("integer") == [105, 110, 116, 101, 103, 101, 114]
    ensures Ascii("float") == [102, 108, 111, 97, 116]
    ensures Ascii("string") == [115, 116, 114, 105, 110, 103]
    ensures Ascii("array") == [97, 114, 114, 97, 121]
    ensures Ascii("set") == [115, 101, 116]
    ensures Ascii("list") == [108, 105, 115, 116]
    ensures Ascii("dict") == [100, 105, 99, 116]
  {
  }

  /** The table of properties. */
  lemma {:induction false} PropertiesByName()
    ensures PropertyNamed([116, 121, 112, 101]) == Some(PType)
    ensures PropertyNamed([61, 61]) == Some(PCompare(REq))
    ensures PropertyNamed([33, 61]) == Some(PCompare(RNe))
    ensures PropertyNamed([60]) == Some(PCompare(RLt))
    ensures PropertyNamed([62]) == Some(PCompare(RGt))
    ensures PropertyNamed([60, 61]) == Some(PCompare(RLe))
    ensures PropertyNamed([62, 61]) == Some(PCompare(RGe))
    ensures PropertyNamed([115, 105, 122, 101, 32, 61, 61]) == Some(PSize(REq))
    ensures PropertyNamed([115, 105, 122, 101, 32, 33, 61]) == Some(PSize(RNe))
    ensures PropertyNamed([115, 105, 122, 101, 32, 60]) == Some(PSize(RLt))
    ensures PropertyNamed([115, 105, 122, 101, 32, 62]) == Some(PSize(RGt))
    ensures PropertyNamed([115, 105, 122, 101, 32, 60, 61]) == Some(PSize(RLe))
    ensures PropertyNamed([115, 105, 122, 101, 32, 62, 61]) == Some(PSize(RGe))
    ensures PropertyNamed([114, 101, 103, 101, 120]) == Some(PRegex)
    ensures PropertyNamed([105, 116, 101, 109, 115]) == Some(PItems)
    ensures PropertyNamed([111, 112, 116, 45, 105, 116, 101, 109, 115]) == Some(POptItems)
    ensures PropertyNamed([97, 108, 108, 45, 107, 101, 121, 115]) == Some(PAllKeys)
    ensures PropertyNamed([97, 108, 108, 45, 105, 116, 101, 109, 115]) == Some(PAllItems)
  {
    hide Ascii;
    ShortNames();
    SizeNames();
    PartNames();
  }

  /** The table of types, by what makes a value of the type. */
  lemma {:induction false} TypesByName(v: Value)
    ensures TypeNamed(Ascii("blank")).Some? && (TypeNamed(Ascii("blank")) == Some(Tag(v)) <==> v.Blank?)
    ensures TypeNamed(Ascii("bool")).Some? && (TypeNamed(Ascii("bool")) == Some(Tag(v)) <==> v.Bool?)
    ensures TypeNamed(Ascii("integer")).Some? && (TypeNamed(Ascii("integer")) == Some(Tag(v)) <==> v.Int?)
    ensures TypeNamed(Ascii("float")).Some? && (TypeNamed(Ascii("float")) == Some(Tag(v)) <==> v.Float?)
    ensures TypeNamed(Ascii("string")).Some? && (TypeNamed(Ascii("string")) == Some(Tag(v)) <==> v.Str?)
    ensures TypeNamed(Ascii("array")).Some? && (TypeNamed(Ascii("array")) == Some(Tag(v)) <==> v.Array?)
    ensures TypeNamed(Ascii("set")).Some? && (TypeNamed(Ascii("set")) == Some(Tag(v)) <==> v.Set?)
    ensures TypeNamed(Ascii("list")).Some? && (TypeNamed(Ascii("list")) == Some(Tag(v)) <==> v.List?)
    ensures TypeNamed(Ascii("dict")).Some? && (TypeNamed(Ascii("dict")) == Some(Tag(v)) <==> v.Dict?)
  {
    hide Ascii;
    TypeNames();
  }

  // --- Schemas with one property ---

  /** The schema with the one property `p` accepts if `ok`, and otherwise reports `e` with empty stacks and no more. */
  ghost predicate Verdict(c: Context, v: Value, p: Pair, ok: bool, e: Error) {
    && (Accepts(c, v, Dict([p])) <==> ok)
    && forall b :: Blames(c, v, Dict([p]), b) <==> !ok && b == Blame(e, [], [])
  }

  lemma {:induction false} OneProperty(c: Context, v: Value, p: Pair)
    ensures Accepts(c, v, Dict([p])) <==> Kept(c, v, p)
    ensures forall b :: Blames(c, v, Dict([p]), b) <==> BlamesPair(c, v, p, b)
  {
    hide Kept, BlamesPair;
    assert p in [p];
    forall b ensures Blames(c, v, Dict([p]), b) <==> BlamesPair(c, v, p, b) {
      if BlamesPair(c, v, p, b) {
        assert FirstAt(c, v, [p], 0) && [p][0] == p;
      }
    }
  }

  /** A property that looks at the value itself. */
  lemma {:induction false} OwnVerdict(c: Context, v: Value, name: bytes, prop: Property, arg: Value, ok: bool, e: Error)
    requires PropertyNamed(name) == Some(prop) && (prop.PType? || prop.PCompare? || prop.PSize? || prop.PRegex?)
    requires OwnFault(c.matches, v, prop, arg) == if ok then None else Some(e)
    ensures Verdict(c, v, Pair(Str(name), arg), ok, e)
  {
    hide PropertyNamed, OwnFault, Accepts, Blames, Kept;
    var p := Pair(Str(name), arg);
    OneProperty(c, v, p);
    OwnFaultRejects(c, v, p);
  }

  lemma {:induction false} SignMeans(v: Value, arg: Value)
    ensures Compare(v, arg) == 0 <==> v == arg
    ensures Compare(v, arg) < 0 <==> Below(v, arg)
    ensures Compare(v, arg) > 0 <==> Below(arg, v)
  {
    hide Below, Compare;
    CompareOrder(v, arg);
    CompareSign(v, arg);
    CompareSign(arg, v);
  }

  /** `==`, `!=`, `<`, `>`, `<=` and `>=` compare the value with the argument. */
  lemma {:induction false} ComparisonsMean(c: Context, v: Value, arg: Value)
    ensures Verdict(c, v, Pair(Text("=="), arg), v == arg, InvalidValue)
    ensures Verdict(c, v, Pair(Text("!="), arg), v != arg, InvalidValue)
    ensures Verdict(c, v, Pair(Text("<"), arg), Below(v, arg), InvalidValue)
    ensures Verdict(c, v, Pair(Text(">"), arg), Below(arg, v), InvalidValue)
    ensures Verdict(c, v, Pair(Text("<="), arg), !Below(arg, v), InvalidValue)
    ensures Verdict(c, v, Pair(Text(">="), arg), !Below(v, arg), InvalidValue)
  {
    hide PropertyNamed, Verdict, Compare, Below, Ascii;
    ShortNames();
    PropertiesByName();
    SignMeans(v, arg);
    OwnVerdict(c, v, Ascii("=="), PCompare(REq), arg, v == arg, InvalidValue);
    OwnVerdict(c, v, Ascii("!="), PCompare(RNe), arg, v != arg, InvalidValue);
    OwnVerdict(c, v, Ascii("<"), PCompare(RLt), arg, Below(v, arg), InvalidValue);
    OwnVerdict(c, v, Ascii(">"), PCompare(RGt), arg, Below(arg, v), InvalidValue);
    OwnVerdict(c, v, Ascii("<="), PCompare(RLe), arg, !Below(arg, v), InvalidValue);
    OwnVerdict(c, v, Ascii(">="), PCompare(RGe), arg, !Below(v, arg), InvalidValue);
  }

  /** On integers these are the six relations. */
  lemma {:induction false} IntegersCompare(c: Context, i: int64, n: int64)
    ensures Accepts(c, Int(i), Dict([Pair(Text("=="), Int(n))])) <==> i == n
    ensures Accepts(c, Int(i), Dict([Pair(Text("!="), Int(n))])) <==> i != n
    ensures Accepts(c, Int(i), Dict([Pair(Text("<"), Int(n))])) <==> i < n
    ensures Accepts(c, Int(i), Dict([Pair(Text(">"), Int(n))])) <==> i > n
    ensures Accepts(c, Int(i), Dict([Pair(Text("<="), Int(n))])) <==> i <= n
    ensures Accepts(c, Int(i), Dict([Pair(Text(">="), Int(n))])) <==> i >= n
  {
    hide Accepts, Blames;
    ComparisonsMean(c, Int(i), Int(n));
  }

  /** Strings have bytes, arrays, sets and lists members, and dictionaries pairs to count. */
  ghost predicate Sized(v: Value, n: nat) {
    match v
    case Str(s) => n == |s|
    case Array(xs) => n == |xs|
    case Set(xs) => n == |xs|
    case List(xs) => n == |xs|
    case Dict(ps) => n == |ps|
    case _ => false
  }

  /** `size` and a relation compare that number with the argument. */
  lemma {:induction false} SizesMean(c: Context, v: Value, n: nat, i: int64)
    requires Sized(v, n)
    ensures Verdict(c, v, Pair(Text("size =="), Int(i)), n == i, InvalidSize)
    ensures Verdict(c, v, Pair(Text("size !="), Int(i)), n != i, InvalidSize)
    ensures Verdict(c, v, Pair(Text("size <"), Int(i)), n < i, InvalidSize)
    ensures Verdict(c, v, Pair(Text("size >"), Int(i)), n > i, InvalidSize)
    ensures Verdict(c, v, Pair(Text("size <="), Int(i)), n <= i, InvalidSize)
    ensures Verdict(c, v, Pair(Text("size >="), Int(i)), n >= i, InvalidSize)
  {
    hide PropertyNamed, Verdict, Ascii;
    SizeNames();
    PropertiesByName();
    OwnVerdict(c, v, Ascii("size =="), PSize(REq), Int(i), n == i, InvalidSize);
    OwnVerdict(c, v, Ascii("size !="), PSize(RNe), Int(i), n != i, InvalidSize);
    OwnVerdict(c, v, Ascii("size <"), PSize(RLt), Int(i), n < i, InvalidSize);
    OwnVerdict(c, v, Ascii("size >"), PSize(RGt), Int(i), n > i, InvalidSize);
    OwnVerdict(c, v, Ascii("size <="), PSize(RLe), Int(i), n <= i, InvalidSize);
    OwnVerdict(c, v, Ascii("size >="), PSize(RGe), Int(i), n >= i, InvalidSize);
  }

  /** Without a size, or without a number to compare it with, there is no verdict on sizes. */
  lemma {:induction false} SizesRefuse(c: Context, v: Value, name: bytes, rel: Relation, arg: Value)
    requires PropertyNamed(name) == Some(PSize(rel))
    ensures v.Blank? || v.Bool? || v.Int? || v.Float? ==> Verdict(c, v, Pair(Str(name), arg), false, InvalidType)
    ensures (exists n :: Sized(v, n)) && !arg.Int? ==> Verdict(c, v, Pair(Str(name), arg), false, TypeRequested)
  {
    hide PropertyNamed, Verdict;
    if v.Blank? || v.Bool? || v.Int? || v.Float? {
      OwnVerdict(c, v, name, PSize(rel), arg, false, InvalidType);
    } else if !arg.Int? {
      OwnVerdict(c, v, name, PSize(rel), arg, false, TypeRequested);
    }
  }

  /** `type` asks for the kind of value that its argument names. */
  lemma {:induction false} TypesMean(c: Context, v: Value)
    ensures Verdict(c, v, Pair(Text("type"), Text("blank")), v.Blank?, InvalidType)
    ensures Verdict(c, v, Pair(Text("type"), Text("bool")), v.Bool?, InvalidType)
    ensures Verdict(c, v, Pair(Text("type"), Text("integer")), v.Int?, InvalidType)
    ensures Verdict(c, v, Pair(Text("type"), Text("float")), v.Float?, InvalidType)
    ensures Verdict(c, v, Pair(Text("type"), Text("string")), v.Str?, InvalidType)
    ensures Verdict(c, v, Pair(Text("type"), Text("array")), v.Array?, InvalidType)
    ensures Verdict(c, v, Pair(Text("type"), Text("set")), v.Set?, InvalidType)
    ensures Verdict(c, v, Pair(Text("type"), Text("list")), v.List?, InvalidType)
    ensures Verdict(c, v, Pair(Text("type"), Text("dict")), v.Dict?, InvalidType)
  {
    hide PropertyNamed, Verdict, TypeNamed, Tag, Ascii;
    ShortNames();
    TypeNames();
    PropertiesByName();
    TypesByName(v);
    OwnVerdict(c, v, Ascii("type"), PType, Text("blank"), v.Blank?, InvalidType);
    OwnVerdict(c, v, Ascii("type"), PType, Text("bool"), v.Bool?, InvalidType);
    OwnVerdict(c, v, Ascii("type"), PType, Text("integer"), v.Int?, InvalidType);
    OwnVerdict(c, v, Ascii("type"), PType, Text("float"), v.Float?, InvalidType);
    OwnVerdict(c, v, Ascii("type"), PType, Text("string"), v.Str?, InvalidType);
    OwnVerdict(c, v, Ascii("type"), PType, Text("array"), v.Array?, InvalidType);
    OwnVerdict(c, v, Ascii("type"), PType, Text("set"), v.Set?, InvalidType);
    OwnVerdict(c, v, Ascii("type"), PType, Text("list"), v.List?, InvalidType);
    OwnVerdict(c, v, Ascii("type"), PType, Text("dict"), v.Dict?, InvalidType);
  }

  /** A type that is none of the nine names is a fault of the schema. */
  lemma {:induction false} OtherTypesRefuse(c: Context, v: Value, arg: Value)
    requires arg !in {
      Text("blank"), Text("bool"), Text("integer"), Text("float"), Text("string"), Text("array"), Text("set"),
      Text("list"), Text("dict")
    }
    ensures Verdict(c, v, Pair(Text("type"), arg), false, SchemaType)
  {
    hide PropertyNamed, Verdict, Ascii;
    ShortNames();
    PropertiesByName();
    OwnVerdict(c, v, Ascii("type"), PType, arg, false, SchemaType);
  }

  /** `regex` asks the regular expression library about a string. */
  lemma {:induction false} RegexMeans(c: Context, v: Value, arg: Value)
    ensures v.Str? && arg.Str? ==>
              Verdict(c, v, Pair(Text("regex"), arg), c.matches(arg.s, v.s), InvalidValue)
    ensures v.Str? && !arg.Str? ==> Verdict(c, v, Pair(Text("regex"), arg), false, TypeRequested)
    ensures !v.Str? ==> Verdict(c, v, Pair(Text("regex"), arg), false, InvalidType)
  {
    hide PropertyNamed, Verdict, Ascii;
    PartNames();
    PropertiesByName();
    if !v.Str? || !arg.Str? {
      OwnVerdict(c, v, Ascii("regex"), PRegex, arg, false, if v.Str? then TypeRequested else InvalidType);
    } else {
      OwnVerdict(c, v, Ascii("regex"), PRegex, arg, c.matches(arg.s, v.s), InvalidValue);
    }
  }

  // --- Properties that look into the value ---

  lemma {:induction false} ItemsBlame(c: Context, v: Value, arg: Value, b: Blame)
    ensures Blames(c, v, Dict([Pair(Text("items"), arg)]), b) <==> BlamesItems(c, v, arg, b)
  {
    hide PropertyNamed, Ascii, Blames, BlamesItems;
    PartNames();
    PropertiesByName();
    OneProperty(c, v, Pair(Text("items"), arg));
  }

  lemma {:induction false} OptItemsBlame(c: Context, v: Value, arg: Value, b: Blame)
    ensures Blames(c, v, Dict([Pair(Text("opt-items"), arg)]), b) <==> BlamesOptItems(c, v, arg, b)
  {
    hide PropertyNamed, Ascii, Blames, BlamesOptItems;
    PartNames();
    PropertiesByName();
    OneProperty(c, v, Pair(Text("opt-items"), arg));
  }

  lemma {:induction false} AllKeysBlame(c: Context, v: Value, arg: Value, b: Blame)
    ensures Blames(c, v, Dict([Pair(Text("all-keys"), arg)]), b) <==> BlamesAllKeys(c, v, arg, b)
  {
    hide PropertyNamed, Ascii, Blames, BlamesAllKeys;
    PartNames();
    PropertiesByName();
    OneProperty(c, v, Pair(Text("all-keys"), arg));
  }

  lemma {:induction false} AllItemsBlame(c: Context, v: Value, arg: Value, b: Blame)
    ensures Blames(c, v, Dict([Pair(Text("all-items"), arg)]), b) <==> BlamesAllItems(c, v, arg, b)
  {
    hide PropertyNamed, Ascii, Blames, BlamesAllItems;
    PartNames();
    PropertiesByName();
    OneProperty(c, v, Pair(Text("all-items"), arg));
  }

  /** `items` on an array: every index is there, and its element meets the schema. */
  lemma {:induction false} ArrayItemsMean(c: Context, xs: seq<Value>, qs: seq<Pair>)
    ensures Accepts(c, Array(xs), Dict([Pair(Text("items"), Dict(qs))])) <==>
            forall q :: q in qs ==> q.key.Int? && 0 <= q.key.i < |xs| && Meets(c, xs[q.key.i], q.val)
  {
    hide PropertyNamed, Ascii, Meets, Accepts;
    PartNames();
    PropertiesByName();
    OneProperty(c, Array(xs), Pair(Text("items"), Dict(qs)));
    forall q ensures ItemKept(c, Array(xs), q) <==> q.key.Int? && 0 <= q.key.i < |xs| && Meets(c, xs[q.key.i], q.val) {
    }
  }

  /** `items` on a dictionary: every key is there, and its value meets the schema. */
  lemma {:induction false} DictItemsMean(c: Context, ps: seq<Pair>, qs: seq<Pair>)
    ensures Accepts(c, Dict(ps), Dict([Pair(Text("items"), Dict(qs))])) <==>
            forall q :: q in qs ==> Lookup(ps, q.key).Some? && Meets(c, Lookup(ps, q.key).value, q.val)
  {
    hide PropertyNamed, Ascii, Meets, Accepts, Lookup;
    PartNames();
    PropertiesByName();
    OneProperty(c, Dict(ps), Pair(Text("items"), Dict(qs)));
    forall q ensures ItemKept(c, Dict(ps), q) <==> Lookup(ps, q.key).Some? && Meets(c, Lookup(ps, q.key).value, q.val) {
    }
  }

  /** `opt-items`: the value under a key meets the schema if it is there. */
  lemma {:induction false} OptItemsMean(c: Context, ps: seq<Pair>, qs: seq<Pair>)
    ensures Accepts(c, Dict(ps), Dict([Pair(Text("opt-items"), Dict(qs))])) <==>
            forall q :: q in qs && Lookup(ps, q.key).Some? ==> Meets(c, Lookup(ps, q.key).value, q.val)
  {
    hide PropertyNamed, Ascii, Meets, Accepts, Lookup;
    PartNames();
    PropertiesByName();
    OneProperty(c, Dict(ps), Pair(Text("opt-items"), Dict(qs)));
    forall q
      ensures OptItemKept(c, Dict(ps), q) <==> (Lookup(ps, q.key).Some? ==> Meets(c, Lookup(ps, q.key).value, q.val))
    {
    }
  }

  /** `all-keys`: every key of a dictionary meets the schema. */
  lemma {:induction false} AllKeysMean(c: Context, ps: seq<Pair>, sub: Value)
    ensures Accepts(c, Dict(ps), Dict([Pair(Text("all-keys"), sub)])) <==>
            forall i :: 0 <= i < |ps| ==> Meets(c, ps[i].key, sub)
  {
    hide PropertyNamed, Ascii, Meets, Accepts;
    PartNames();
    PropertiesByName();
    OneProperty(c, Dict(ps), Pair(Text("all-keys"), sub));
    assert forall i :: 0 <= i < |ps| ==> KeyOf(Dict(ps), i) == ps[i].key;
  }

  /** `all-items`: every element of an array, a set or a list, and every value of a dictionary, meets the schema. */
  lemma {:induction false} AllItemsMean(c: Context, xs: seq<Value>, ps: seq<Pair>, sub: Value)
    ensures forall v :: v in {Array(xs), Set(xs), List(xs)} ==>
              (Accepts(c, v, Dict([Pair(Text("all-items"), sub)])) <==>
               forall i :: 0 <= i < |xs| ==> Meets(c, xs[i], sub))
    ensures Accepts(c, Dict(ps), Dict([Pair(Text("all-items"), sub)])) <==>
            forall i :: 0 <= i < |ps| ==> Meets(c, ps[i].val, sub)
  {
    hide PropertyNamed, Ascii, Meets, Accepts;
    PartNames();
    PropertiesByName();
    var p := Pair(Text("all-items"), sub);
    forall v | v in {Array(xs), Set(xs), List(xs)}
      ensures Accepts(c, v, Dict([p])) <==> forall i :: 0 <= i < |xs| ==> Meets(c, xs[i], sub)
    {
      OneProperty(c, v, p);
      assert forall i :: 0 <= i < |xs| ==> Element(v, i) == xs[i];
    }
    OneProperty(c, Dict(ps), p);
    assert forall i :: 0 <= i < |ps| ==> Element(Dict(ps), i) == ps[i].val;
  }

  /** On values without such parts, and with arguments that are no dictionary of schemas, they refuse. */
  lemma {:induction false} PartsRefuse(c: Context, v: Value, arg: Value, b: Blame)
    ensures !v.Array? && !v.Dict? ==>
              (Blames(c, v, Dict([Pair(Text("items"), arg)]), b) <==> b == Blame(InvalidType, [], []))
    ensures !v.Dict? ==>
              (Blames(c, v, Dict([Pair(Text("opt-items"), arg)]), b) <==> b == Blame(InvalidType, [], []))
    ensures !v.Dict? ==>
              (Blames(c, v, Dict([Pair(Text("all-keys"), arg)]), b) <==> b == Blame(InvalidType, [], []))
    ensures v.Blank? || v.Bool? || v.Int? || v.Float? || v.Str? ==>
              (Blames(c, v, Dict([Pair(Text("all-items"), arg)]), b) <==> b == Blame(InvalidType, [], []))
    ensures (v.Array? || v.Dict?) && !arg.Dict? ==>
              (Blames(c, v, Dict([Pair(Text("items"), arg)]), b) <==> b == Blame(TypeRequested, [], []))
    ensures v.Dict? && !arg.Dict? ==>
              (Blames(c, v, Dict([Pair(Text("opt-items"), arg)]), b) <==> b == Blame(TypeRequested, [], []))
  {
    hide Ascii, Blames, BlamesStep, BlamesItem, BlamesOptItem;
    ItemsBlame(c, v, arg, b);
    OptItemsBlame(c, v, arg, b);
    AllKeysBlame(c, v, arg, b);
    AllItemsBlame(c, v, arg, b);
  }

  /** An index out of range and a key that is not there are named on both stacks. */
  lemma {:induction false} MissingItem(c: Context, v: Value, key: Value, sub: Value, b: Blame)
    requires v.Array? || v.Dict?
    ensures var blames := Blames(c, v, Dict([Pair(Text("items"), Dict([Pair(key, sub)]))]), b);
            && (v.Array? && key.Int? && !(0 <= key.i < |v.items|) ==>
                  (blames <==> b == Blame(ArraySize, [key], [Text("items"), key])))
            && (v.Array? && !key.Int? ==> (blames <==> b == Blame(TypeRequested, [], [])))
            && (v.Dict? && Lookup(v.pairs, key).None? ==>
                  (blames <==> b == Blame(MissingKey, [key], [Text("items"), key])))
  {
    hide Ascii, Blames, BlamesStep, Lookup;
    var q := Pair(key, sub);
    ItemsBlame(c, v, Dict([q]), b);
    OneItem(c, v, q, b);
  }

  lemma {:induction false} OneItem(c: Context, v: Value, q: Pair, b: Blame)
    requires v.Array? || v.Dict?
    ensures BlamesItems(c, v, Dict([q]), b) <==> BlamesItem(c, v, q, b)
  {
    hide BlamesItem, ItemKept;
    if BlamesItem(c, v, q, b) {
      assert ItemsBefore(c, v, [q], 0) && BlamesItem(c, v, [q][0], b);
    }
  }

  lemma {:induction false} OneOptItem(c: Context, v: Value, q: Pair, b: Blame)
    requires v.Dict?
    ensures BlamesOptItems(c, v, Dict([q]), b) <==> BlamesOptItem(c, v, q, b)
  {
    hide BlamesOptItem, OptItemKept;
    if BlamesOptItem(c, v, q, b) {
      assert OptItemsBefore(c, v, [q], 0) && BlamesOptItem(c, v, [q][0], b);
    }
  }

  /** The element of an array, set or list that fails first is reported by its position, of a dictionary by its key. */
  lemma {:induction false} ElementReported(c: Context, v: Value, sub: Value, i: nat, b: Blame)
    requires HasElements(v) && i < Size(v) && i <= 0x7fff_ffff_ffff_ffff
    requires (forall j :: 0 <= j < i ==> Meets(c, Element(v, j), sub)) && !Meets(c, Element(v, i), sub)
    requires Blames(c, v, Dict([Pair(Text("all-items"), sub)]), b)
    ensures var at := if v.Dict? then v.pairs[i].key else Int(i);
            |b.vs| >= 1 && b.vs[0] == at && |b.ps| >= 2 && b.ps[0] == Text("all-items") && b.ps[1] == at
  {
    hide Ascii, Blames, Meets, Element, BlamesStep, Label;
    AllItemsBlame(c, v, sub, b);
    var k :| 0 <= k < Size(v) && ElementsBefore(c, v, sub, k) &&
             BlamesStep(c, Element(v, k), sub, ALL_ITEMS, Label(v, k), b);
    BlamedStepFails(c, Element(v, k), sub, ALL_ITEMS, Label(v, k), b);
    StepIsNamed(c, Element(v, i), sub, ALL_ITEMS, Label(v, i), b);
    LabelInWords(v, i);
  }

  lemma {:induction false} LabelInWords(v: Value, i: nat)
    requires HasElements(v) && i < Size(v) && i <= 0x7fff_ffff_ffff_ffff
    ensures Label(v, i) == if v.Dict? then v.pairs[i].key else Int(i)
  {
  }

  lemma {:induction false} StepIsNamed(c: Context, x: Value, sub: Value, step: Value, at: Value, b: Blame)
    requires BlamesStep(c, x, sub, step, at, b)
    ensures |b.vs| >= 1 && b.vs[0] == at && |b.ps| >= 2 && b.ps[0] == step && b.ps[1] == at
  {
  }

  /** So is a key that fails. */
  lemma {:induction false} KeyReported(c: Context, ps: seq<Pair>, sub: Value, i: nat, b: Blame)
    requires i < |ps| && (forall j :: 0 <= j < i ==> Meets(c, ps[j].key, sub)) && !Meets(c, ps[i].key, sub)
    requires Blames(c, Dict(ps), Dict([Pair(Text("all-keys"), sub)]), b)
    ensures |b.vs| >= 1 && b.vs[0] == ps[i].key
    ensures |b.ps| >= 2 && b.ps[0] == Text("all-keys") && b.ps[1] == ps[i].key
  {
    hide Ascii, Blames, Meets, BlamesStep;
    var v := Dict(ps);
    AllKeysBlame(c, v, sub, b);
    assert forall j :: 0 <= j < |ps| ==> KeyOf(v, j) == ps[j].key;
    var k :| 0 <= k < |v.pairs| && KeysBefore(c, v, sub, k) &&
             BlamesStep(c, KeyOf(v, k), sub, ALL_KEYS, KeyOf(v, k), b);
    BlamedStepFails(c, KeyOf(v, k), sub, ALL_KEYS, KeyOf(v, k), b);
    StepIsNamed(c, KeyOf(v, k), sub, ALL_KEYS, KeyOf(v, k), b);
  }

  /** An item that is there and fails is reported under the name of its property. */
  lemma {:induction false} ItemReported(c: Context, v: Value, q: Pair, b: Blame)
    requires (v.Array? || v.Dict?) && ItemAt(v, q.key).Some?
    ensures Blames(c, v, Dict([Pair(Text("items"), Dict([q]))]), b) ==>
              |b.vs| >= 1 && b.vs[0] == q.key && |b.ps| >= 2 && b.ps[0] == Text("items") && b.ps[1] == q.key
    ensures v.Dict? && Blames(c, v, Dict([Pair(Text("opt-items"), Dict([q]))]), b) ==>
              |b.vs| >= 1 && b.vs[0] == q.key && |b.ps| >= 2 && b.ps[0] == Text("opt-items") && b.ps[1] == q.key
  {
    hide Ascii, Blames, Lookup;
    ItemsBlame(c, v, Dict([q]), b);
    OptItemsBlame(c, v, Dict([q]), b);
    OneItem(c, v, q, b);
    if v.Dict? {
      OneOptItem(c, v, q, b);
    }
  }

  // --- Names outside the table ---

  /** A name that begins with `ref` is none of the table. */
  lemma {:induction false} RefIsNoProperty(s: bytes)
    requires |s| >= 3 && s[..3] == [114, 101, 102]
    ensures PropertyNamed(s).None? && IsRefName(s)
  {
    hide Ascii;
    ShortNames();
    SizeNames();
    PartNames();
    assert s[0] == s[..3][0] && s[2] == s[..3][2];
  }

  lemma {:induction false} RefBlame(c: Context, v: Value, s: bytes, name: Value, b: Blame)
    requires |s| >= 3 && s[..3] == [114, 101, 102]
    ensures Blames(c, v, Dict([Pair(Str(s), name)]), b) <==> BlamesRef(c, v, name, b)
  {
    hide PropertyNamed, IsRefName, Blames, BlamesRef;
    RefIsNoProperty(s);
    OneProperty(c, v, Pair(Str(s), name));
  }

  /** It asks for the verdict of the schema that its argument names, on the same value. */
  lemma {:induction false} ReferencesMean(c: Context, v: Value, s: bytes, name: Value)
    requires |s| >= 3 && s[..3] == [114, 101, 102]
    ensures Accepts(c, v, Dict([Pair(Str(s), name)])) <==>
            name.Str? && Lookup(c.schema, name).Some? && Descends(c, name) &&
            Accepts(c, v, Lookup(c.schema, name).value)
    ensures !name.Str? || Lookup(c.schema, name).None? ==>
              forall b :: Blames(c, v, Dict([Pair(Str(s), name)]), b) <==>
                          b == Blame(SchemaReference, [], [Text("ref"), name])
  {
    hide PropertyNamed, Ascii, IsRefName, Accepts, Blames, Lookup, Descends;
    RefIsNoProperty(s);
    OneProperty(c, v, Pair(Str(s), name));
    if !name.Str? || Lookup(c.schema, name).None? {
      forall b
        ensures Blames(c, v, Dict([Pair(Str(s), name)]), b) <==> b == Blame(SchemaReference, [], [Text("ref"), name])
      {
        RefBlame(c, v, s, name, b);
        assert |b.ps| == 2 ==> b.ps == [b.ps[0], b.ps[1]];
      }
    }
  }

  /** Any other name is a fault of the schema, and is named. */
  lemma {:induction false} OtherNamesRefuse(c: Context, v: Value, s: bytes, arg: Value)
    requires !(|s| >= 3 && s[..3] == [114, 101, 102])
    requires s !in {
      Ascii("type"), Ascii("=="), Ascii("!="), Ascii("<"), Ascii(">"), Ascii("<="), Ascii(">="), Ascii("size =="),
      Ascii("size !="), Ascii("size <"), Ascii("size >"), Ascii("size <="), Ascii("size >="), Ascii("regex"),
      Ascii("items"), Ascii("opt-items"), Ascii("all-keys"), Ascii("all-items")
    }
    ensures !Accepts(c, v, Dict([Pair(Str(s), arg)]))
    ensures forall b :: Blames(c, v, Dict([Pair(Str(s), arg)]), b) <==> b == Blame(SchemaProperty, [], [Str(s)])
  {
    hide Ascii, Accepts, Blames;
    ShortNames();
    OneProperty(c, v, Pair(Str(s), arg));
  }

  /** So is a key that is no string. */
  lemma {:induction false} OtherKeysRefuse(c: Context, v: Value, key: Value, arg: Value)
    requires !key.Str?
    ensures Verdict(c, v, Pair(key, arg), false, TypeRequested)
  {
    hide Accepts, Blames;
    OneProperty(c, v, Pair(key, arg));
  }
}

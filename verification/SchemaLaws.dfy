/** Writing a schema differently: in another order, or with named schemas put in place of their names. */
module SchemaLaws {
  import opened Base
  import opened Values
  import opened Order
  import opened Containers
  import opened Schemas

  /** The verdict depends on the properties, not on the order in which they are checked. */
  lemma {:induction false} AcceptsInAnyOrder(c: Context, v: Value, ps: seq<Pair>, qs: seq<Pair>)
    requires forall p :: p in ps <==> p in qs
    ensures Accepts(c, v, Dict(ps)) <==> Accepts(c, v, Dict(qs))
  {
  }

  /**
   * A schema with the names below it replaced by what they name, wherever a part of the value is passed on.
   * A name that stands for a string is left alone: the string would be taken for another name.
   */
  function Inlined(schema: seq<Pair>, props: Value): Value
    decreases props, 1
  {
    if props.Str? then
      var named := Lookup(schema, props);
      if named.Some? && !named.value.Str? then named.value else props
    else if props.Dict? then Dict(InlinedPairs(schema, props.pairs))
    else props
  }

  function InlinedPairs(schema: seq<Pair>, ps: seq<Pair>): (r: seq<Pair>)
    ensures |r| == |ps|
    ensures forall i :: 0 <= i < |ps| ==> r[i] == InlinedPair(schema, ps[i])
    decreases ps, 0
  {
    if ps == [] then [] else [InlinedPair(schema, ps[0])] + InlinedPairs(schema, ps[1..])
  }

  function InlinedPair(schema: seq<Pair>, p: Pair): Pair
    decreases p, 0
  {
    if !p.key.Str? then p
    else
      match PropertyNamed(p.key.s)
      case Some(PItems) => if p.val.Dict? then Pair(p.key, Dict(InlinedItems(schema, p.val.pairs))) else p
      case Some(POptItems) => if p.val.Dict? then Pair(p.key, Dict(InlinedItems(schema, p.val.pairs))) else p
      case Some(PAllKeys) => Pair(p.key, Inlined(schema, p.val))
      case Some(PAllItems) => Pair(p.key, Inlined(schema, p.val))
      case _ => p
  }

  function InlinedItems(schema: seq<Pair>, qs: seq<Pair>): (r: seq<Pair>)
    ensures |r| == |qs|
    ensures forall i :: 0 <= i < |qs| ==> r[i] == InlinedItem(schema, qs[i])
    decreases qs, 0
  {
    if qs == [] then [] else [InlinedItem(schema, qs[0])] + InlinedItems(schema, qs[1..])
  }

  function InlinedItem(schema: seq<Pair>, q: Pair): Pair
    decreases q, 0
  {
    Pair(q.key, Inlined(schema, q.val))
  }

  ghost predicate AllDescend(c: Context, names: set<Value>) {
    forall name :: name in names ==> Descends(c, name)
  }

  /** Inlining references does not change the verdict, if those inlined lead into no cycle. */
  lemma {:induction false} InliningKeepsVerdict(c: Context, names: set<Value>, v: Value, props: Value)
    requires AllDescend(c, names) && Within(names, props)
    ensures Meets(c, v, Inlined(c.schema, props)) <==> Meets(c, v, props)
    decreases props, 1
  {
    if props.Dict? {
      var ps, qs := props.pairs, InlinedPairs(c.schema, props.pairs);
      forall i | 0 <= i < |ps| ensures Kept(c, v, qs[i]) <==> Kept(c, v, ps[i]) {
        PairInlining(c, names, v, ps[i]);
      }
      SameKept(c, v, ps, qs);
    }
  }

  lemma {:induction false} SameKept(c: Context, v: Value, ps: seq<Pair>, qs: seq<Pair>)
    requires |ps| == |qs|
    requires forall i :: 0 <= i < |ps| ==> (Kept(c, v, qs[i]) <==> Kept(c, v, ps[i]))
    ensures Accepts(c, v, Dict(ps)) <==> Accepts(c, v, Dict(qs))
  {
    hide Accepts, Kept;
    AcceptsByIndex(c, v, ps);
    AcceptsByIndex(c, v, qs);
  }

  lemma {:induction false} AcceptsByIndex(c: Context, v: Value, ps: seq<Pair>)
    ensures Accepts(c, v, Dict(ps)) <==> forall i :: 0 <= i < |ps| ==> Kept(c, v, ps[i])
  {
    hide Kept;
    var props := Dict(ps);
    assert Accepts(c, v, props) <==> forall p :: p in ps ==> Kept(c, v, p);
    if Accepts(c, v, props) {
      forall i | 0 <= i < |ps| ensures Kept(c, v, ps[i]) {
        assert ps[i] in ps;
      }
    } else {
      var p :| p in ps && !Kept(c, v, p);
      var i :| 0 <= i < |ps| && ps[i] == p;
      assert !Kept(c, v, ps[i]);
    }
  }

  lemma {:induction false} PairInlining(c: Context, names: set<Value>, v: Value, p: Pair)
    requires AllDescend(c, names) && PairWithin(names, p)
    ensures Kept(c, v, InlinedPair(c.schema, p)) <==> Kept(c, v, p)
    decreases p, 0
  {
    hide PropertyNamed, Meets, Refers, Compare, ItemKept, OptItemKept, InlinedItems, Inlined;
    if p.key.Str? {
      match PropertyNamed(p.key.s)
      case Some(PItems) =>
        if p.val.Dict? {
          assert InlinedPair(c.schema, p) == Pair(p.key, Dict(InlinedItems(c.schema, p.val.pairs)));
          ItemsInlining(c, names, v, p.val.pairs);
        }
      case Some(POptItems) =>
        if p.val.Dict? {
          assert InlinedPair(c.schema, p) == Pair(p.key, Dict(InlinedItems(c.schema, p.val.pairs)));
          ItemsInlining(c, names, v, p.val.pairs);
        }
      case Some(PAllKeys) =>
        if v.Dict? {
          forall i | 0 <= i < |v.pairs|
            ensures Meets(c, KeyOf(v, i), Inlined(c.schema, p.val)) <==> Meets(c, KeyOf(v, i), p.val)
          {
            InliningKeepsVerdict(c, names, KeyOf(v, i), p.val);
          }
        }
      case Some(PAllItems) =>
        if HasElements(v) {
          forall i | 0 <= i < Size(v)
            ensures Meets(c, Element(v, i), Inlined(c.schema, p.val)) <==> Meets(c, Element(v, i), p.val)
          {
            InliningKeepsVerdict(c, names, Element(v, i), p.val);
          }
        }
      case _ =>
    }
  }

  lemma {:induction false} ItemsInlining(c: Context, names: set<Value>, v: Value, qs: seq<Pair>)
    requires AllDescend(c, names) && forall q :: q in qs ==> Within(names, q.val)
    ensures var rs := InlinedItems(c.schema, qs);
            && ((forall q :: q in rs ==> ItemKept(c, v, q)) <==> (forall q :: q in qs ==> ItemKept(c, v, q)))
            && ((forall q :: q in rs ==> OptItemKept(c, v, q)) <==> (forall q :: q in qs ==> OptItemKept(c, v, q)))
    decreases qs, 0
  {
    var rs := InlinedItems(c.schema, qs);
    forall i | 0 <= i < |qs|
      ensures ItemKept(c, v, rs[i]) <==> ItemKept(c, v, qs[i])
      ensures OptItemKept(c, v, rs[i]) <==> OptItemKept(c, v, qs[i])
    {
      ItemInlining(c, names, v, qs[i]);
    }
    AllByIndex(c, v, qs);
    AllByIndex(c, v, rs);
  }

  lemma {:induction false} AllByIndex(c: Context, v: Value, qs: seq<Pair>)
    ensures (forall q :: q in qs ==> ItemKept(c, v, q)) <==> (forall i :: 0 <= i < |qs| ==> ItemKept(c, v, qs[i]))
    ensures (forall q :: q in qs ==> OptItemKept(c, v, q)) <==>
            (forall i :: 0 <= i < |qs| ==> OptItemKept(c, v, qs[i]))
  {
    hide ItemKept, OptItemKept;
  }

  lemma {:induction false} ItemInlining(c: Context, names: set<Value>, v: Value, q: Pair)
    requires AllDescend(c, names) && Within(names, q.val)
    ensures ItemKept(c, v, InlinedItem(c.schema, q)) <==> ItemKept(c, v, q)
    ensures OptItemKept(c, v, InlinedItem(c.schema, q)) <==> OptItemKept(c, v, q)
    decreases q, 0
  {
    if ItemAt(v, q.key).Some? {
      InliningKeepsVerdict(c, names, ItemAt(v, q.key).value, q.val);
    }
  }

  // --- References that pass on the same value ---

  /** The properties with the reference at `i` replaced by the properties it stands for. */
  function Spliced(ps: seq<Pair>, i: nat, qs: seq<Pair>): seq<Pair>
    requires i < |ps|
  {
    ps[..i] + qs + ps[i + 1..]
  }

  /** Writing out a same-value reference does not change the verdict. */
  lemma {:induction false} SplicingKeepsVerdict(c: Context, v: Value, ps: seq<Pair>, i: nat, qs: seq<Pair>)
    requires i < |ps| && IsRef(ps[i]) && ps[i].val.Str? && Lookup(c.schema, ps[i].val) == Some(Dict(qs))
    requires Descends(c, ps[i].val)
    ensures Accepts(c, v, Dict(Spliced(ps, i, qs))) <==> Accepts(c, v, Dict(ps))
  {
    hide PropertyNamed, IsRefName, Accepts;
    SplitVerdict(c, v, ps[..i], qs, ps[i + 1..]);
    SplitVerdict(c, v, ps[..i], [ps[i]], ps[i + 1..]);
    assert ps == ps[..i] + [ps[i]] + ps[i + 1..];
    OneVerdict(c, v, ps[i]);
  }

  lemma {:induction false} SplitVerdict(c: Context, v: Value, front: seq<Pair>, mid: seq<Pair>, back: seq<Pair>)
    ensures Accepts(c, v, Dict(front + mid + back)) <==>
            Accepts(c, v, Dict(front)) && Accepts(c, v, Dict(mid)) && Accepts(c, v, Dict(back))
  {
    hide Kept;
    forall p ensures p in front + mid + back <==> p in front || p in mid || p in back {
    }
  }

  lemma {:induction false} OneVerdict(c: Context, v: Value, p: Pair)
    ensures Accepts(c, v, Dict([p])) <==> Kept(c, v, p)
  {
    hide Kept;
    assert p in [p];
  }

  ghost predicate DistinctKeys(ps: seq<Pair>) {
    forall i, j :: 0 <= i < j < |ps| ==> ps[i].key != ps[j].key
  }

  /** The spliced properties are those of a dictionary exactly when no key of the reference's schema is there already. */
  lemma {:induction false} SpliceIsDictionary(ps: seq<Pair>, i: nat, qs: seq<Pair>)
    requires i < |ps| && DistinctKeys(ps) && DistinctKeys(qs)
    ensures DistinctKeys(Spliced(ps, i, qs)) <==>
            forall j, k :: 0 <= j < |ps| && j != i && 0 <= k < |qs| ==> ps[j].key != qs[k].key
  {
    var s := Spliced(ps, i, qs);
    if DistinctKeys(s) {
      forall j, k | 0 <= j < |ps| && j != i && 0 <= k < |qs| ensures ps[j].key != qs[k].key {
        assert s[i + k] == qs[k];
        assert j < i ==> s[j] == ps[j];
        assert j > i ==> s[j + |qs| - 1] == ps[j];
      }
    }
  }

  /** Then the dictionary with those properties, in its own order, gives the verdict of the original. */
  lemma {:induction false} SplicedDictionaryKeepsVerdict(c: Context, v: Value, ps: seq<Pair>, i: nat, qs: seq<Pair>)
    requires i < |ps| && IsRef(ps[i]) && ps[i].val.Str? && Lookup(c.schema, ps[i].val) == Some(Dict(qs))
    requires Descends(c, ps[i].val) && DistinctKeys(Spliced(ps, i, qs))
    ensures Accepts(c, v, Dict(DictOf(Spliced(ps, i, qs)))) <==> Accepts(c, v, Dict(ps))
  {
    var s := Spliced(ps, i, qs);
    forall p ensures p in DictOf(s) <==> p in s {
      DictOfDistinct(s, p);
    }
    AcceptsInAnyOrder(c, v, DictOf(s), s);
    SplicingKeepsVerdict(c, v, ps, i, qs);
  }

  lemma {:induction false} DictOfDistinct(ps: seq<Pair>, p: Pair)
    requires DistinctKeys(ps)
    ensures p in DictOf(ps) <==> p in ps
  {
    DictOfSorted(ps);
    if p in ps {
      FirstPairWins(ps, p.key);
      LookupDistinct(ps, p);
      LookupIsMember(DictOf(ps), p.key);
    }
  }

  lemma {:induction false} LookupDistinct(ps: seq<Pair>, p: Pair)
    requires DistinctKeys(ps) && p in ps
    ensures Lookup(ps, p.key) == Some(p.val)
  {
    if ps[0] != p {
      var i :| 0 <= i < |ps| && ps[i] == p;
      assert p in ps[1..] by {
        assert ps[1..][i - 1] == p;
      }
      LookupDistinct(ps[1..], p);
    }
  }

  lemma {:induction false} LookupIsMember(ps: seq<Pair>, k: Value)
    ensures Lookup(ps, k).Some? ==> Pair(k, Lookup(ps, k).value) in ps
  {
    if Lookup(ps, k).Some? {
      var i := LookupIndex(ps, k);
      assert ps[i] in ps;
    }
  }
}

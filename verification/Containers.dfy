/**
 * `std::set` and `std::map` of values, as the sequences they enumerate: insertion, lookup, and the fact that
 * the enumeration depends on the members alone.
 */
module Containers {
  import opened Base
  import opened Values
  import opened Order

  ghost predicate SortedItems(xs: seq<Value>) {
    forall i, j :: 0 <= i < j < |xs| ==> Compare(xs[i], xs[j]) < 0
  }

  ghost predicate SortedPairs(ps: seq<Pair>) {
    forall i, j :: 0 <= i < j < |ps| ==> Compare(ps[i].key, ps[j].key) < 0
  }

  /** Every set and dictionary inside `v` is enumerated in the order its own members define. */
  ghost predicate Ordered(v: Value)
    decreases v, 1
  {
    match v
    case Array(xs) => AllOrdered(xs)
    case List(xs) => AllOrdered(xs)
    case Set(xs) => AllOrdered(xs) && SortedItems(xs)
    case Dict(ps) => AllPairsOrdered(ps) && SortedPairs(ps)
    case _ => true
  }

  ghost predicate AllOrdered(xs: seq<Value>)
    decreases xs, 0
  {
    xs == [] || (Ordered(xs[0]) && AllOrdered(xs[1..]))
  }

  ghost predicate AllPairsOrdered(ps: seq<Pair>)
    decreases ps, 0
  {
    ps == [] || (PairOrdered(ps[0]) && AllPairsOrdered(ps[1..]))
  }

  ghost predicate PairOrdered(p: Pair)
    decreases p
  {
    Ordered(p.key) && Ordered(p.val)
  }

  // --- Sets ---

  /** `std::set::insert`: an equal member already present is kept. */
  function SetInsert(xs: seq<Value>, v: Value): seq<Value> {
    if xs == [] then [v]
    else if Compare(v, xs[0]) < 0 then [v] + xs
    else if Compare(v, xs[0]) == 0 then xs
    else [xs[0]] + SetInsert(xs[1..], v)
  }

  /** The set built by inserting `vs` from left to right. */
  function SetOf(vs: seq<Value>): seq<Value> {
    if vs == [] then [] else SetInsert(SetOf(vs[..|vs| - 1]), vs[|vs| - 1])
  }

  lemma {:induction false} SetInsertSorted(xs: seq<Value>, v: Value)
    requires SortedItems(xs)
    ensures SortedItems(SetInsert(xs, v))
    ensures forall x :: x in SetInsert(xs, v) <==> x in xs || x == v
  {
    hide Compare;
    if xs != [] {
      CompareOrder(v, xs[0]);
      if Compare(v, xs[0]) < 0 {
        forall j | 0 < j < |xs| ensures Compare(v, xs[j]) < 0 {
          CompareTransitive(v, xs[0], xs[j]);
        }
      } else if Compare(v, xs[0]) > 0 {
        var rest := SetInsert(xs[1..], v);
        SetInsertSorted(xs[1..], v);
        assert xs == [xs[0]] + xs[1..];
        forall j | 0 <= j < |rest| ensures Compare(xs[0], rest[j]) < 0 {
          assert rest[j] in rest;
        }
      }
    }
  }

  lemma {:induction false} SetOfSorted(vs: seq<Value>)
    ensures SortedItems(SetOf(vs))
    ensures forall x :: x in SetOf(vs) <==> x in vs
  {
    if vs != [] {
      var n := |vs| - 1;
      assert vs == vs[..n] + [vs[n]];
      SetOfSorted(vs[..n]);
      SetInsertSorted(SetOf(vs[..n]), vs[n]);
    }
  }

  /** A sorted enumeration is determined by its members. */
  lemma {:induction false} SortedItemsUnique(xs: seq<Value>, ys: seq<Value>)
    requires SortedItems(xs) && SortedItems(ys)
    requires forall x :: x in xs <==> x in ys
    ensures xs == ys
  {
    if xs == [] {
      HasMember(ys);
    } else {
      assert xs[0] in ys;
      assert ys[0] in xs;
      SmallestFirst(xs, ys[0]);
      SmallestFirst(ys, xs[0]);
      CompareOrder(xs[0], ys[0]);
      assert xs == [xs[0]] + xs[1..] && ys == [ys[0]] + ys[1..];
      NotRepeated(xs);
      NotRepeated(ys);
      forall x ensures x in xs[1..] <==> x in ys[1..] {
        assert x in xs[1..] ==> x in xs;
        assert x in ys[1..] ==> x in ys;
      }
      SortedItemsUnique(xs[1..], ys[1..]);
    }
  }

  lemma HasMember(ys: seq<Value>)
    ensures ys == [] || exists y :: y in ys
  {
    if ys != [] {
      assert ys[0] in ys;
    }
  }

  lemma SmallestFirst(xs: seq<Value>, x: Value)
    requires SortedItems(xs) && x in xs
    ensures xs != [] && Compare(xs[0], x) <= 0
  {
    var i :| 0 <= i < |xs| && xs[i] == x;
    if i == 0 {
      CompareOrder(x, x);
    }
  }

  lemma NotRepeated(xs: seq<Value>)
    requires SortedItems(xs) && xs != []
    ensures xs[0] !in xs[1..]
  {
    CompareOrder(xs[0], xs[0]);
  }

  /** Two sets with the same members are one enumeration and compare equal, whatever the insertion order. */
  lemma SetOrderIndependent(vs: seq<Value>, ws: seq<Value>)
    requires forall x :: x in vs <==> x in ws
    ensures SetOf(vs) == SetOf(ws)
    ensures Compare(Set(SetOf(vs)), Set(SetOf(ws))) == 0
  {
    SetOfSorted(vs);
    SetOfSorted(ws);
    SortedItemsUnique(SetOf(vs), SetOf(ws));
    CompareOrder(Set(SetOf(vs)), Set(SetOf(ws)));
  }

  // --- Dictionaries ---

  /** `std::map::at`, as an option. */
  function Lookup(ps: seq<Pair>, k: Value): Option<Value> {
    if ps == [] then None
    else if ps[0].key == k then Some(ps[0].val)
    else Lookup(ps[1..], k)
  }

  /** `std::map::insert`: an entry already present under the key is kept. */
  function DictInsert(ps: seq<Pair>, k: Value, v: Value): seq<Pair> {
    if ps == [] then [Pair(k, v)]
    else if Compare(k, ps[0].key) < 0 then [Pair(k, v)] + ps
    else if Compare(k, ps[0].key) == 0 then ps
    else [ps[0]] + DictInsert(ps[1..], k, v)
  }

  /** The dictionary built by inserting `ps` from left to right. */
  function DictOf(ps: seq<Pair>): seq<Pair> {
    if ps == [] then []
    else
      var last := ps[|ps| - 1];
      DictInsert(DictOf(ps[..|ps| - 1]), last.key, last.val)
  }

  lemma {:induction false} DictOfAppend(ps: seq<Pair>, p: Pair)
    ensures DictOf(ps + [p]) == DictInsert(DictOf(ps), p.key, p.val)
  {
    assert (ps + [p])[..|ps|] == ps;
  }

  lemma {:induction false} LookupBelow(ps: seq<Pair>, k: Value)
    requires SortedPairs(ps)
    requires ps != [] ==> Compare(k, ps[0].key) < 0
    ensures Lookup(ps, k) == None
  {
    if ps != [] {
      CompareOrder(k, ps[0].key);
      if |ps| > 1 {
        CompareTransitive(k, ps[0].key, ps[1].key);
      }
      LookupBelow(ps[1..], k);
    }
  }

  lemma {:induction false} DictInsertSorted(ps: seq<Pair>, k: Value, v: Value)
    requires SortedPairs(ps)
    ensures SortedPairs(DictInsert(ps, k, v))
    ensures forall p :: p in DictInsert(ps, k, v) ==> p in ps || p == Pair(k, v)
  {
    if ps != [] {
      CompareOrder(k, ps[0].key);
      if Compare(k, ps[0].key) < 0 {
        forall j | 0 < j < |ps| ensures Compare(k, ps[j].key) < 0 {
          CompareTransitive(k, ps[0].key, ps[j].key);
        }
      } else if Compare(k, ps[0].key) > 0 {
        var rest := DictInsert(ps[1..], k, v);
        DictInsertSorted(ps[1..], k, v);
        forall j | 0 <= j < |rest| ensures Compare(ps[0].key, rest[j].key) < 0 {
          assert rest[j] in rest;
        }
      }
    }
  }

  /** Insertion adds exactly one association, and only under a key that had none. */
  lemma {:induction false} DictInsertLookup(ps: seq<Pair>, k: Value, v: Value, key: Value)
    requires SortedPairs(ps)
    ensures Lookup(DictInsert(ps, k, v), key) ==
            if key == k && Lookup(ps, k) == None then Some(v) else Lookup(ps, key)
  {
    hide Compare;
    if ps != [] {
      CompareOrder(k, ps[0].key);
      if Compare(k, ps[0].key) < 0 {
        LookupBelow(ps, k);
        assert ([Pair(k, v)] + ps)[1..] == ps;
      } else if Compare(k, ps[0].key) > 0 {
        var rest := DictInsert(ps[1..], k, v);
        DictInsertLookup(ps[1..], k, v, key);
        assert ([ps[0]] + rest)[1..] == rest;
      }
    }
  }

  lemma {:induction false} DictOfSorted(ps: seq<Pair>)
    ensures SortedPairs(DictOf(ps))
    ensures forall p :: p in DictOf(ps) ==> p in ps
  {
    if ps != [] {
      var n := |ps| - 1;
      assert ps == ps[..n] + [ps[n]];
      DictOfSorted(ps[..n]);
      DictInsertSorted(DictOf(ps[..n]), ps[n].key, ps[n].val);
    }
  }

  lemma {:induction false} LookupAppend(ps: seq<Pair>, q: Pair, key: Value)
    ensures Lookup(ps + [q], key) ==
            if Lookup(ps, key) == None && q.key == key then Some(q.val) else Lookup(ps, key)
  {
    if ps != [] {
      assert (ps + [q])[1..] == ps[1..] + [q];
      LookupAppend(ps[1..], q, key);
    }
  }

  /** Of several pairs under one key the dictionary keeps the first: `Lookup` on a plain list finds that one. */
  lemma {:induction false} FirstPairWins(ps: seq<Pair>, key: Value)
    ensures Lookup(DictOf(ps), key) == Lookup(ps, key)
  {
    if ps != [] {
      var n := |ps| - 1;
      assert ps == ps[..n] + [ps[n]];
      FirstPairWins(ps[..n], key);
      FirstPairWins(ps[..n], ps[n].key);
      DictOfSorted(ps[..n]);
      DictInsertLookup(DictOf(ps[..n]), ps[n].key, ps[n].val, key);
      LookupAppend(ps[..n], ps[n], key);
    }
  }

  /** A sorted dictionary is determined by its associations. */
  lemma {:induction false} SortedPairsUnique(ps: seq<Pair>, qs: seq<Pair>)
    requires SortedPairs(ps) && SortedPairs(qs)
    requires forall k :: Lookup(ps, k) == Lookup(qs, k)
    ensures ps == qs
  {
    if ps == [] {
      assert qs != [] ==> Lookup(ps, qs[0].key) == Lookup(qs, qs[0].key);
    } else {
      assert Lookup(ps, ps[0].key) == Lookup(qs, ps[0].key);
      assert qs != [];
      assert Lookup(ps, qs[0].key) == Lookup(qs, qs[0].key);
      CompareOrder(ps[0].key, qs[0].key);
      if Compare(ps[0].key, qs[0].key) < 0 {
        LookupBelow(qs, ps[0].key);
      } else if Compare(ps[0].key, qs[0].key) > 0 {
        LookupBelow(ps, qs[0].key);
      }
      forall k ensures Lookup(ps[1..], k) == Lookup(qs[1..], k) {
        assert Lookup(ps, k) == Lookup(qs, k);
        if k == ps[0].key {
          LookupBelow(ps[1..], k);
          LookupBelow(qs[1..], k);
        }
      }
      SortedPairsUnique(ps[1..], qs[1..]);
    }
  }

  /** Two dictionaries with the same associations compare equal, whatever the insertion order. */
  lemma DictOrderIndependent(ps: seq<Pair>, qs: seq<Pair>)
    requires forall k :: Lookup(ps, k) == Lookup(qs, k)
    ensures DictOf(ps) == DictOf(qs)
    ensures Compare(Dict(DictOf(ps)), Dict(DictOf(qs))) == 0
  {
    DictOfSorted(ps);
    DictOfSorted(qs);
    forall k ensures Lookup(DictOf(ps), k) == Lookup(DictOf(qs), k) {
      FirstPairWins(ps, k);
      FirstPairWins(qs, k);
      assert Lookup(ps, k) == Lookup(qs, k);
    }
    SortedPairsUnique(DictOf(ps), DictOf(qs));
    CompareOrder(Dict(DictOf(ps)), Dict(DictOf(qs)));
  }

  lemma {:induction false} InsertAtEnd(ps: seq<Pair>, k: Value, v: Value)
    requires forall i :: 0 <= i < |ps| ==> Compare(ps[i].key, k) < 0
    ensures DictInsert(ps, k, v) == ps + [Pair(k, v)]
  {
    if ps != [] {
      CompareOrder(ps[0].key, k);
      InsertAtEnd(ps[1..], k, v);
      assert ps == [ps[0]] + ps[1..];
    }
  }

  /** Rebuilding a dictionary from its own enumeration gives it back. */
  lemma {:induction false} DictOfEnumeration(ps: seq<Pair>)
    requires SortedPairs(ps)
    ensures DictOf(ps) == ps
  {
    if ps != [] {
      var n := |ps| - 1;
      assert ps == ps[..n] + [ps[n]];
      DictOfEnumeration(ps[..n]);
      InsertAtEnd(ps[..n], ps[n].key, ps[n].val);
    }
  }
}

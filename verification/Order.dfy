/** The three-way order of values: its specification, the loops that compute it, and its laws. */
module Order {
  import opened Base
  import opened Values

  /** `std::string::compare`: lexicographic on unsigned bytes, reduced to a sign. */
  function CompareBytes(a: bytes, b: bytes): int {
    if a == [] then (if b == [] then 0 else -1)
    else if b == [] then 1
    else if a[0] != b[0] then (if a[0] < b[0] then -1 else 1)
    else CompareBytes(a[1..], b[1..])
  }

  function BoolNumber(b: bool): int {
    if b then 1 else 0
  }

  function CompareNumbers(a: int, b: int): int {
    if a < b then -1 else if a > b then 1 else 0
  }

  function Compare(a: Value, b: Value): int
    decreases a, 2
  {
    if Tag(a) != Tag(b) then CompareNumbers(Tag(a), Tag(b)) else
      match a
      case Blank => 0
      case Bool(x) => CompareNumbers(BoolNumber(x), BoolNumber(b.b))
      case Int(x) => CompareNumbers(x, b.i)
      case Float(x) => if x < b.r then -1 else if x > b.r then 1 else 0
      case Str(x) => CompareBytes(x, b.s)
      case Array(xs) => CompareItems(xs, b.items)
      case Set(xs) => CompareItems(xs, b.items)
      case List(xs) => CompareItems(xs, b.items)
      case Dict(ps) => ComparePairs(ps, b.pairs)
  }

  /** Shorter containers come first; equally long ones are decided by the first unequal member. */
  function CompareItems(xs: seq<Value>, ys: seq<Value>): int
    decreases xs, 1
  {
    if |xs| != |ys| then CompareNumbers(|xs|, |ys|) else WalkItems(xs, ys)
  }

  function WalkItems(xs: seq<Value>, ys: seq<Value>): int
    requires |xs| == |ys|
    decreases xs, 0
  {
    if xs == [] then 0
    else if Compare(xs[0], ys[0]) != 0 then Compare(xs[0], ys[0])
    else WalkItems(xs[1..], ys[1..])
  }

  function ComparePairs(ps: seq<Pair>, qs: seq<Pair>): int
    decreases ps, 1
  {
    if |ps| != |qs| then CompareNumbers(|ps|, |qs|) else WalkPairs(ps, qs)
  }

  function WalkPairs(ps: seq<Pair>, qs: seq<Pair>): int
    requires |ps| == |qs|
    decreases ps, 0
  {
    if ps == [] then 0
    else if ComparePair(ps[0], qs[0]) != 0 then ComparePair(ps[0], qs[0])
    else WalkPairs(ps[1..], qs[1..])
  }

  function ComparePair(p: Pair, q: Pair): int
    decreases p
  {
    if Compare(p.key, q.key) != 0 then Compare(p.key, q.key) else Compare(p.val, q.val)
  }

  // --- The laws of a total order whose zero is structural equality ---

  lemma {:induction false} BytesOrder(a: bytes, b: bytes)
    ensures CompareBytes(b, a) == -CompareBytes(a, b)
    ensures CompareBytes(a, b) == 0 <==> a == b
  {
    if a != [] && b != [] {
      assert a == [a[0]] + a[1..] && b == [b[0]] + b[1..];
      BytesOrder(a[1..], b[1..]);
    }
  }

  lemma {:induction false} BytesTransitive(a: bytes, b: bytes, c: bytes)
    requires CompareBytes(a, b) < 0 && CompareBytes(b, c) < 0
    ensures CompareBytes(a, c) < 0
  {
    if a != [] && a[0] == b[0] == c[0] {
      BytesTransitive(a[1..], b[1..], c[1..]);
    }
  }

  /** Swapping the operands flips the sign, and the result is zero exactly on equal trees. */
  lemma {:induction false} CompareOrder(a: Value, b: Value)
    ensures Compare(b, a) == -Compare(a, b)
    ensures Compare(a, b) == 0 <==> a == b
    decreases a, 1
  {
    if Tag(a) == Tag(b) {
      match a
      case Str(s) => BytesOrder(s, b.s);
      case Array(xs) => if |xs| == |b.items| { WalkItemsOrder(xs, b.items); }
      case Set(xs) => if |xs| == |b.items| { WalkItemsOrder(xs, b.items); }
      case List(xs) => if |xs| == |b.items| { WalkItemsOrder(xs, b.items); }
      case Dict(ps) => if |ps| == |b.pairs| { WalkPairsOrder(ps, b.pairs); }
      case _ =>
    }
  }

  lemma {:induction false} WalkItemsOrder(xs: seq<Value>, ys: seq<Value>)
    requires |xs| == |ys|
    ensures WalkItems(ys, xs) == -WalkItems(xs, ys)
    ensures WalkItems(xs, ys) == 0 <==> xs == ys
    decreases xs, 0
  {
    if xs != [] {
      assert xs == [xs[0]] + xs[1..] && ys == [ys[0]] + ys[1..];
      CompareOrder(xs[0], ys[0]);
      WalkItemsOrder(xs[1..], ys[1..]);
    }
  }

  lemma {:induction false} WalkPairsOrder(ps: seq<Pair>, qs: seq<Pair>)
    requires |ps| == |qs|
    ensures WalkPairs(qs, ps) == -WalkPairs(ps, qs)
    ensures WalkPairs(ps, qs) == 0 <==> ps == qs
    decreases ps, 0
  {
    if ps != [] {
      assert ps == [ps[0]] + ps[1..] && qs == [qs[0]] + qs[1..];
      PairOrder(ps[0], qs[0]);
      WalkPairsOrder(ps[1..], qs[1..]);
    }
  }

  lemma {:induction false} PairOrder(p: Pair, q: Pair)
    ensures ComparePair(q, p) == -ComparePair(p, q)
    ensures ComparePair(p, q) == 0 <==> p == q
    decreases p
  {
    CompareOrder(p.key, q.key);
    CompareOrder(p.val, q.val);
  }

  /** Strictly below is transitive; with `CompareOrder` this makes `Compare` a total order. */
  lemma {:induction false} CompareTransitive(a: Value, b: Value, c: Value)
    requires Compare(a, b) < 0 && Compare(b, c) < 0
    ensures Compare(a, c) < 0
    decreases a, 1
  {
    if Tag(a) == Tag(b) == Tag(c) {
      match a
      case Str(s) => BytesTransitive(s, b.s, c.s);
      case Array(xs) => if |xs| == |b.items| == |c.items| { WalkItemsTransitive(xs, b.items, c.items); }
      case Set(xs) => if |xs| == |b.items| == |c.items| { WalkItemsTransitive(xs, b.items, c.items); }
      case List(xs) => if |xs| == |b.items| == |c.items| { WalkItemsTransitive(xs, b.items, c.items); }
      case Dict(ps) => if |ps| == |b.pairs| == |c.pairs| { WalkPairsTransitive(ps, b.pairs, c.pairs); }
      case _ =>
    }
  }

  lemma {:induction false} WalkItemsTransitive(xs: seq<Value>, ys: seq<Value>, zs: seq<Value>)
    requires |xs| == |ys| == |zs|
    requires WalkItems(xs, ys) < 0 && WalkItems(ys, zs) < 0
    ensures WalkItems(xs, zs) < 0
    decreases xs, 0
  {
    CompareOrder(xs[0], ys[0]);
    CompareOrder(ys[0], zs[0]);
    CompareOrder(xs[0], zs[0]);
    if Compare(xs[0], ys[0]) == 0 && Compare(ys[0], zs[0]) == 0 {
      WalkItemsTransitive(xs[1..], ys[1..], zs[1..]);
    } else if Compare(xs[0], ys[0]) < 0 && Compare(ys[0], zs[0]) < 0 {
      CompareTransitive(xs[0], ys[0], zs[0]);
    }
  }

  lemma {:induction false} WalkPairsTransitive(ps: seq<Pair>, qs: seq<Pair>, rs: seq<Pair>)
    requires |ps| == |qs| == |rs|
    requires WalkPairs(ps, qs) < 0 && WalkPairs(qs, rs) < 0
    ensures WalkPairs(ps, rs) < 0
    decreases ps, 0
  {
    PairOrder(ps[0], qs[0]);
    PairOrder(qs[0], rs[0]);
    PairOrder(ps[0], rs[0]);
    if ComparePair(ps[0], qs[0]) == 0 && ComparePair(qs[0], rs[0]) == 0 {
      WalkPairsTransitive(ps[1..], qs[1..], rs[1..]);
    } else if ComparePair(ps[0], qs[0]) < 0 && ComparePair(qs[0], rs[0]) < 0 {
      PairTransitive(ps[0], qs[0], rs[0]);
    }
  }

  lemma {:induction false} PairTransitive(p: Pair, q: Pair, r: Pair)
    requires ComparePair(p, q) < 0 && ComparePair(q, r) < 0
    ensures ComparePair(p, r) < 0
    decreases p
  {
    CompareOrder(p.key, q.key);
    CompareOrder(q.key, r.key);
    CompareOrder(p.key, r.key);
    if Compare(p.key, q.key) < 0 && Compare(q.key, r.key) < 0 {
      CompareTransitive(p.key, q.key, r.key);
    } else if p.key == q.key == r.key {
      CompareTransitive(p.val, q.val, r.val);
    }
  }

  // --- Which of two values comes first ---

  /** `a` is a proper prefix of `b`, or is smaller in the first byte in which they differ. */
  ghost predicate BytesBelow(a: bytes, b: bytes) {
    || (|a| < |b| && a == b[..|a|])
    || exists i :: 0 <= i < |a| && i < |b| && a[..i] == b[..i] && a[i] < b[i]
  }

  /** The order of the kinds: blank, bool, integer, float, string, array, set, list, dictionary. */
  predicate EarlierKind(a: Value, b: Value) {
    match a
    case Blank => !b.Blank?
    case Bool(_) => b.Int? || b.Float? || b.Str? || b.Array? || b.Set? || b.List? || b.Dict?
    case Int(_) => b.Float? || b.Str? || b.Array? || b.Set? || b.List? || b.Dict?
    case Float(_) => b.Str? || b.Array? || b.Set? || b.List? || b.Dict?
    case Str(_) => b.Array? || b.Set? || b.List? || b.Dict?
    case Array(_) => b.Set? || b.List? || b.Dict?
    case Set(_) => b.List? || b.Dict?
    case List(_) => b.Dict?
    case Dict(_) => false
  }

  /** The strict order that the three-way comparison decides, on the values themselves. */
  ghost predicate Below(a: Value, b: Value)
    decreases a, 1
  {
    match (a, b)
    case (Bool(x), Bool(y)) => !x && y
    case (Int(x), Int(y)) => x < y
    case (Float(x), Float(y)) => x < y
    case (Str(x), Str(y)) => BytesBelow(x, y)
    case (Array(xs), Array(ys)) => ItemsBelow(xs, ys)
    case (Set(xs), Set(ys)) => ItemsBelow(xs, ys)
    case (List(xs), List(ys)) => ItemsBelow(xs, ys)
    case (Dict(ps), Dict(qs)) => PairsBelow(ps, qs)
    case _ => EarlierKind(a, b)
  }

  /** Fewer members, or as many and the first that differs comes first. */
  ghost predicate ItemsBelow(xs: seq<Value>, ys: seq<Value>)
    decreases xs, 0
  {
    || |xs| < |ys|
    || (|xs| == |ys| && exists i :: 0 <= i < |xs| && xs[..i] == ys[..i] && Below(xs[i], ys[i]))
  }

  ghost predicate PairsBelow(ps: seq<Pair>, qs: seq<Pair>)
    decreases ps, 0
  {
    || |ps| < |qs|
    || (|ps| == |qs| && exists i :: 0 <= i < |ps| && ps[..i] == qs[..i] && PairBelow(ps[i], qs[i]))
  }

  /** By the key, and under one key by the value. */
  ghost predicate PairBelow(p: Pair, q: Pair)
    decreases p
  {
    Below(p.key, q.key) || (p.key == q.key && Below(p.val, q.val))
  }

  lemma {:induction false} BytesSign(a: bytes, b: bytes)
    ensures CompareBytes(a, b) < 0 <==> BytesBelow(a, b)
  {
    if a != [] && b != [] && a[0] == b[0] {
      BytesSign(a[1..], b[1..]);
      BytesBelowBehind(a, b);
    } else if a != [] && b != [] && a[0] < b[0] {
      assert a[..0] == b[..0];
    }
  }

  lemma {:induction false} BytesBelowBehind(a: bytes, b: bytes)
    requires a != [] && b != [] && a[0] == b[0]
    ensures BytesBelow(a, b) <==> BytesBelow(a[1..], b[1..])
  {
    var c, d := a[1..], b[1..];
    assert a == [a[0]] + c && b == [a[0]] + d;
    if i :| 0 <= i < |a| && i < |b| && a[..i] == b[..i] && a[i] < b[i] {
      assert c[..i - 1] == a[..i][1..] && d[..i - 1] == b[..i][1..] && c[i - 1] < d[i - 1];
    }
    if i :| 0 <= i < |c| && i < |d| && c[..i] == d[..i] && c[i] < d[i] {
      assert a[..i + 1] == [a[0]] + c[..i] && b[..i + 1] == [a[0]] + d[..i] && a[i + 1] < b[i + 1];
    }
    if |c| < |d| && c == d[..|c|] {
      assert b[..|a|] == [a[0]] + d[..|c|];
    }
    if |a| < |b| && a == b[..|a|] {
      assert d[..|c|] == b[..|a|][1..];
    }
  }

  /** The comparison is negative exactly when the first value comes before the second. */
  lemma {:induction false} CompareSign(a: Value, b: Value)
    ensures Compare(a, b) < 0 <==> Below(a, b)
    decreases a, 1
  {
    if Tag(a) == Tag(b) {
      match a
      case Str(s) => BytesSign(s, b.s);
      case Array(xs) => if |xs| == |b.items| { WalkItemsSign(xs, b.items); }
      case Set(xs) => if |xs| == |b.items| { WalkItemsSign(xs, b.items); }
      case List(xs) => if |xs| == |b.items| { WalkItemsSign(xs, b.items); }
      case Dict(ps) => if |ps| == |b.pairs| { WalkPairsSign(ps, b.pairs); }
      case _ =>
    }
  }

  lemma {:induction false} WalkItemsSign(xs: seq<Value>, ys: seq<Value>)
    requires |xs| == |ys|
    ensures WalkItems(xs, ys) < 0 <==> ItemsBelow(xs, ys)
    decreases xs, 0
  {
    hide Below, Compare;
    if xs != [] {
      CompareOrder(xs[0], ys[0]);
      CompareSign(xs[0], ys[0]);
      WalkItemsSign(xs[1..], ys[1..]);
      ItemsBelowBehind(xs, ys);
    }
  }

  lemma {:induction false} ItemsBelowBehind(xs: seq<Value>, ys: seq<Value>)
    requires |xs| == |ys| && xs != []
    ensures ItemsBelow(xs, ys) <==> Below(xs[0], ys[0]) || (xs[0] == ys[0] && ItemsBelow(xs[1..], ys[1..]))
  {
    hide Below;
    var us, vs := xs[1..], ys[1..];
    assert xs == [xs[0]] + us && ys == [ys[0]] + vs;
    if i :| 0 <= i < |xs| && xs[..i] == ys[..i] && Below(xs[i], ys[i]) {
      if i > 0 {
        assert us[..i - 1] == xs[..i][1..] && vs[..i - 1] == ys[..i][1..];
        assert xs[0] == xs[..i][0] == ys[..i][0] && Below(us[i - 1], vs[i - 1]);
      }
    }
    if Below(xs[0], ys[0]) {
      assert xs[..0] == ys[..0];
    }
    if i :| xs[0] == ys[0] && 0 <= i < |us| && us[..i] == vs[..i] && Below(us[i], vs[i]) {
      assert xs[..i + 1] == [xs[0]] + us[..i] && ys[..i + 1] == [ys[0]] + vs[..i] && Below(xs[i + 1], ys[i + 1]);
    }
  }

  lemma {:induction false} WalkPairsSign(ps: seq<Pair>, qs: seq<Pair>)
    requires |ps| == |qs|
    ensures WalkPairs(ps, qs) < 0 <==> PairsBelow(ps, qs)
    decreases ps, 0
  {
    hide PairBelow, ComparePair;
    if ps != [] {
      PairOrder(ps[0], qs[0]);
      PairSign(ps[0], qs[0]);
      WalkPairsSign(ps[1..], qs[1..]);
      PairsBelowBehind(ps, qs);
    }
  }

  lemma {:induction false} PairSign(p: Pair, q: Pair)
    ensures ComparePair(p, q) < 0 <==> PairBelow(p, q)
    decreases p
  {
    hide Compare, Below;
    CompareOrder(p.key, q.key);
    CompareSign(p.key, q.key);
    CompareSign(p.val, q.val);
  }

  lemma {:induction false} PairsBelowBehind(ps: seq<Pair>, qs: seq<Pair>)
    requires |ps| == |qs| && ps != []
    ensures PairsBelow(ps, qs) <==> PairBelow(ps[0], qs[0]) || (ps[0] == qs[0] && PairsBelow(ps[1..], qs[1..]))
  {
    hide PairBelow;
    var us, vs := ps[1..], qs[1..];
    assert ps == [ps[0]] + us && qs == [qs[0]] + vs;
    if i :| 0 <= i < |ps| && ps[..i] == qs[..i] && PairBelow(ps[i], qs[i]) {
      if i > 0 {
        assert us[..i - 1] == ps[..i][1..] && vs[..i - 1] == qs[..i][1..];
        assert ps[0] == ps[..i][0] == qs[..i][0] && PairBelow(us[i - 1], vs[i - 1]);
      }
    }
    if PairBelow(ps[0], qs[0]) {
      assert ps[..0] == qs[..0];
    }
    if i :| ps[0] == qs[0] && 0 <= i < |us| && us[..i] == vs[..i] && PairBelow(us[i], vs[i]) {
      assert ps[..i + 1] == [ps[0]] + us[..i] && qs[..i + 1] == [qs[0]] + vs[..i] && PairBelow(ps[i + 1], qs[i + 1]);
    }
  }

  // --- The loops of the comparison ---

  /** `loc_c::compare` and `loc_c::compare_value`: paired iterators walked until the first difference. */
  method CompareLocs(a: Value, b: Value) returns (r: int)
    ensures r == Compare(a, b)
    ensures r < 0 <==> Below(a, b)
    ensures r == 0 <==> a == b
    decreases a, 1
  {
    hide Below;
    CompareSign(a, b);
    CompareOrder(a, b);
    if Tag(a) != Tag(b) {
      return if Tag(a) < Tag(b) then -1 else 1;
    }
    match a {
      case Blank => r := 0;
      case Bool(x) => r := CompareNumbers(BoolNumber(x), BoolNumber(b.b));
      case Int(x) => r := CompareNumbers(x, b.i);
      case Float(x) => r := if x < b.r then -1 else if x > b.r then 1 else 0;
      case Str(x) => r := CompareBytes(x, b.s);
      case Array(xs) => r := CompareSequences(xs, b.items);
      case Set(xs) => r := CompareSequences(xs, b.items);
      case List(xs) => r := CompareSequences(xs, b.items);
      case Dict(ps) => r := CompareDicts(ps, b.pairs);
    }
  }

  method CompareSequences(xs: seq<Value>, ys: seq<Value>) returns (r: int)
    ensures r == CompareItems(xs, ys)
    decreases xs, 0
  {
    if |xs| != |ys| {
      return if |xs| < |ys| then -1 else 1;
    }
    var i := 0;
    while i != |xs|
      invariant 0 <= i <= |xs|
      invariant WalkItems(xs, ys) == WalkItems(xs[i..], ys[i..])
    {
      r := CompareLocs(xs[i], ys[i]);
      if r != 0 {
        return;
      }
      i := i + 1;
    }
    r := 0;
  }

  method CompareDicts(ps: seq<Pair>, qs: seq<Pair>) returns (r: int)
    ensures r == ComparePairs(ps, qs)
    decreases ps, 0
  {
    if |ps| != |qs| {
      return if |ps| < |qs| then -1 else 1;
    }
    var i := 0;
    while i != |ps|
      invariant 0 <= i <= |ps|
      invariant WalkPairs(ps, qs) == WalkPairs(ps[i..], qs[i..])
    {
      r := CompareEntries(ps[i], qs[i]);
      if r != 0 {
        return;
      }
      i := i + 1;
    }
    r := 0;
  }

  /** The loop body for dictionaries: keys first, then values. */
  method CompareEntries(p: Pair, q: Pair) returns (r: int)
    ensures r == ComparePair(p, q)
    decreases p
  {
    r := CompareLocs(p.key, q.key);
    if r != 0 {
      return;
    }
    r := CompareLocs(p.val, q.val);
  }
}

/**
 * The text of a value as a recursive function of the tree, in compact or indented layout, and the first
 * obstacle a printer meets on its way through the tree.
 */
module JsonRender {
  import opened Base
  import opened Values
  import opened JsonStrings
  import opened JsonNumbers

  datatype PrintError = UnsupportedType | NoStringKey

  datatype Layout = Compact | Nice(tab: bytes)

  function Repeat(tab: bytes, n: nat): bytes {
    if n == 0 then [] else Repeat(tab, n - 1) + tab
  }

  /** A line break and the indentation behind it; nothing in compact layout. */
  function Break(lay: Layout, depth: nat): bytes {
    match lay
    case Compact => []
    case Nice(tab) => [10] + Repeat(tab, depth)
  }

  const COMMA: byte := 44
  const COLON: byte := 58

  /** `fixed` is the stream's six-digit text of a float, which is not interpreted. */
  function Text(v: Value, lay: Layout, depth: nat, fixed: real -> bytes): bytes
    decreases v, 1
  {
    match v
    case Blank => [110, 117, 108, 108]
    case Bool(b) => if b then [116, 114, 117, 101] else [102, 97, 108, 115, 101]
    case Int(i) => IntText(i)
    case Float(r) => fixed(r)
    case Str(s) => Quoted(s)
    case Array(xs) => [91] + (if xs == [] then [93] else Break(lay, depth + 1) + ItemsText(xs, lay, depth, fixed))
    case List(xs) => [91] + (if xs == [] then [93] else Break(lay, depth + 1) + ItemsText(xs, lay, depth, fixed))
    case Dict(ps) => [123] + (if ps == [] then [125] else Break(lay, depth + 1) + PairsText(ps, lay, depth, fixed))
    case Set(_) => []
  }

  /** The members from the first of `xs` up to and including the closing bracket. */
  function ItemsText(xs: seq<Value>, lay: Layout, depth: nat, fixed: real -> bytes): bytes
    requires xs != []
    decreases xs, 0
  {
    Text(xs[0], lay, depth + 1, fixed) + MoreItems(xs[1..], lay, depth, fixed)
  }

  /** What follows a member when `xs` are still to come. */
  function MoreItems(xs: seq<Value>, lay: Layout, depth: nat, fixed: real -> bytes): bytes
    decreases xs, 1
  {
    if xs == [] then Break(lay, depth) + [93]
    else [COMMA] + Break(lay, depth + 1) + ItemsText(xs, lay, depth, fixed)
  }

  function PairsText(ps: seq<Pair>, lay: Layout, depth: nat, fixed: real -> bytes): bytes
    requires ps != []
    decreases ps, 0
  {
    PairText(ps[0], lay, depth + 1, fixed) + MorePairs(ps[1..], lay, depth, fixed)
  }

  function MorePairs(ps: seq<Pair>, lay: Layout, depth: nat, fixed: real -> bytes): bytes
    decreases ps, 1
  {
    if ps == [] then Break(lay, depth) + [125]
    else [COMMA] + Break(lay, depth + 1) + PairsText(ps, lay, depth, fixed)
  }

  function PairText(p: Pair, lay: Layout, depth: nat, fixed: real -> bytes): bytes
    decreases p
  {
    KeyText(p.key) + Text(p.val, lay, depth, fixed)
  }

  function KeyText(k: Value): bytes {
    Quoted(if k.Str? then k.s else []) + [COLON]
  }

  // --- Obstacles ---

  /** The error a left-to-right printer runs into first. */
  function FirstError(v: Value): Option<PrintError>
    decreases v, 1
  {
    match v
    case Array(xs) => FirstItemError(xs)
    case List(xs) => FirstItemError(xs)
    case Dict(ps) => FirstPairError(ps)
    case Set(_) => Some(UnsupportedType)
    case _ => None
  }

  function OrElse(a: Option<PrintError>, b: Option<PrintError>): Option<PrintError> {
    if a.Some? then a else b
  }

  function FirstItemError(xs: seq<Value>): Option<PrintError>
    decreases xs, 0
  {
    if xs == [] then None else OrElse(FirstError(xs[0]), FirstItemError(xs[1..]))
  }

  function FirstPairError(ps: seq<Pair>): Option<PrintError>
    decreases ps, 0
  {
    if ps == [] then None else OrElse(PairError(ps[0]), FirstPairError(ps[1..]))
  }

  function PairError(p: Pair): Option<PrintError>
    decreases p
  {
    if !p.key.Str? then Some(NoStringKey) else FirstError(p.val)
  }

  /** No set anywhere in the tree, and only string keys. */
  ghost predicate Printable(v: Value) {
    match v
    case Array(xs) => forall i :: 0 <= i < |xs| ==> Printable(xs[i])
    case List(xs) => forall i :: 0 <= i < |xs| ==> Printable(xs[i])
    case Dict(ps) => forall i :: 0 <= i < |ps| ==> PrintablePair(ps[i])
    case Set(_) => false
    case _ => true
  }

  ghost predicate PrintablePair(p: Pair) {
    p.key.Str? && Printable(p.val)
  }

  /** A printer meets an obstacle exactly when the tree holds a set or a key that is not a string. */
  lemma {:induction false} PrintableHasNoError(v: Value)
    ensures FirstError(v) == None <==> Printable(v)
    decreases v, 1
  {
    match v
    case Array(xs) => ItemsHaveNoError(xs);
    case List(xs) => ItemsHaveNoError(xs);
    case Dict(ps) => PairsHaveNoError(ps);
    case _ =>
  }

  lemma {:induction false} ItemsHaveNoError(xs: seq<Value>)
    ensures FirstItemError(xs) == None <==> forall i :: 0 <= i < |xs| ==> Printable(xs[i])
    decreases xs, 0
  {
    if xs != [] {
      PrintableHasNoError(xs[0]);
      ItemsHaveNoError(xs[1..]);
      assert xs == [xs[0]] + xs[1..];
    }
  }

  lemma {:induction false} PairsHaveNoError(ps: seq<Pair>)
    ensures FirstPairError(ps) == None <==> forall i :: 0 <= i < |ps| ==> PrintablePair(ps[i])
    decreases ps, 0
  {
    if ps != [] {
      PairHasNoError(ps[0]);
      PairsHaveNoError(ps[1..]);
      assert ps == [ps[0]] + ps[1..];
    }
  }

  lemma {:induction false} PairHasNoError(p: Pair)
    ensures PairError(p) == None <==> PrintablePair(p)
    decreases p
  {
    PrintableHasNoError(p.val);
  }

  // --- Which obstacle is met first ---

  /** The obstacle that comes first from left to right is `e`: everything in front of it can be printed. */
  ghost predicate Obstructs(v: Value, e: PrintError) {
    match v
    case Set(_) => e == UnsupportedType
    case Array(xs) =>
      exists i :: 0 <= i < |xs| && Obstructs(xs[i], e) && forall j :: 0 <= j < i ==> Printable(xs[j])
    case List(xs) =>
      exists i :: 0 <= i < |xs| && Obstructs(xs[i], e) && forall j :: 0 <= j < i ==> Printable(xs[j])
    case Dict(ps) =>
      exists i :: 0 <= i < |ps| && ObstructsPair(ps[i], e) && forall j :: 0 <= j < i ==> PrintablePair(ps[j])
    case _ => false
  }

  /** A key that is not a string is met before the value under it. */
  ghost predicate ObstructsPair(p: Pair, e: PrintError) {
    if p.key.Str? then Obstructs(p.val, e) else e == NoStringKey
  }

  lemma {:induction false} ItemErrorAt(xs: seq<Value>, i: nat)
    requires i < |xs| && FirstError(xs[i]).Some? && forall j :: 0 <= j < i ==> Printable(xs[j])
    ensures FirstItemError(xs) == FirstError(xs[i])
    decreases i
  {
    hide FirstError, Printable;
    PrintableHasNoError(xs[0]);
    if i > 0 {
      ItemErrorAt(xs[1..], i - 1);
    }
  }

  lemma {:induction false} PairErrorAt(ps: seq<Pair>, i: nat)
    requires i < |ps| && PairError(ps[i]).Some? && forall j :: 0 <= j < i ==> PrintablePair(ps[j])
    ensures FirstPairError(ps) == PairError(ps[i])
    decreases i
  {
    hide PairError, PrintablePair;
    PairHasNoError(ps[0]);
    if i > 0 {
      PairErrorAt(ps[1..], i - 1);
    }
  }

  lemma {:induction false} FirstUnprintable(xs: seq<Value>) returns (i: nat)
    requires FirstItemError(xs).Some?
    ensures i < |xs| && FirstError(xs[i]).Some? && forall j :: 0 <= j < i ==> Printable(xs[j])
  {
    hide Printable, FirstError;
    ItemsHaveNoError(xs);
    i := 0;
    while i < |xs| && Printable(xs[i])
      invariant i <= |xs| && forall j :: 0 <= j < i ==> Printable(xs[j])
    {
      i := i + 1;
    }
    PrintableHasNoError(xs[i]);
  }

  lemma {:induction false} FirstUnprintablePair(ps: seq<Pair>) returns (i: nat)
    requires FirstPairError(ps).Some?
    ensures i < |ps| && PairError(ps[i]).Some? && forall j :: 0 <= j < i ==> PrintablePair(ps[j])
  {
    hide PrintablePair, PairError;
    PairsHaveNoError(ps);
    i := 0;
    while i < |ps| && PrintablePair(ps[i])
      invariant i <= |ps| && forall j :: 0 <= j < i ==> PrintablePair(ps[j])
    {
      i := i + 1;
    }
    PairHasNoError(ps[i]);
  }

  /** The error a printer stops with is that of the first obstacle. */
  lemma {:induction false} FirstErrorObstructs(v: Value, e: PrintError)
    ensures FirstError(v) == Some(e) <==> Obstructs(v, e)
    decreases v, 1
  {
    match v
    case Array(xs) => ItemErrorObstructs(xs, e);
    case List(xs) => ItemErrorObstructs(xs, e);
    case Dict(ps) => PairErrorObstructs(ps, e);
    case _ =>
  }

  lemma {:induction false} ItemErrorObstructs(xs: seq<Value>, e: PrintError)
    ensures FirstItemError(xs) == Some(e) <==>
            exists i :: 0 <= i < |xs| && Obstructs(xs[i], e) && forall j :: 0 <= j < i ==> Printable(xs[j])
    decreases xs, 0
  {
    hide Obstructs, Printable, FirstError, FirstItemError;
    if FirstItemError(xs) == Some(e) {
      var i := FirstUnprintable(xs);
      ItemErrorAt(xs, i);
      FirstErrorObstructs(xs[i], e);
    }
    if i :| 0 <= i < |xs| && Obstructs(xs[i], e) && forall j :: 0 <= j < i ==> Printable(xs[j]) {
      FirstErrorObstructs(xs[i], e);
      ItemErrorAt(xs, i);
    }
  }

  lemma {:induction false} PairErrorObstructs(ps: seq<Pair>, e: PrintError)
    ensures FirstPairError(ps) == Some(e) <==>
            exists i :: 0 <= i < |ps| && ObstructsPair(ps[i], e) && forall j :: 0 <= j < i ==> PrintablePair(ps[j])
    decreases ps, 0
  {
    hide ObstructsPair, PrintablePair, PairError, FirstPairError;
    if FirstPairError(ps) == Some(e) {
      var i := FirstUnprintablePair(ps);
      PairErrorAt(ps, i);
      OnePairObstructs(ps[i], e);
    }
    if i :| 0 <= i < |ps| && ObstructsPair(ps[i], e) && forall j :: 0 <= j < i ==> PrintablePair(ps[j]) {
      OnePairObstructs(ps[i], e);
      PairErrorAt(ps, i);
    }
  }

  lemma {:induction false} OnePairObstructs(p: Pair, e: PrintError)
    ensures PairError(p) == Some(e) <==> ObstructsPair(p, e)
    decreases p
  {
    FirstErrorObstructs(p.val, e);
  }
}

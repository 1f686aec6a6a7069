/**
 * The two printers: loops over a stack of half-consumed containers, which together hold exactly the text
 * that is still to be written.
 */
module JsonPrinter {
  import opened Base
  import opened Sequences
  import opened Values
  import opened JsonStrings
  import opened JsonNumbers
  import opened JsonRender

  /** `std::stringbuf` as the printers use it. */
  class StringBuf {
    var text: bytes

    constructor ()
      ensures text == []
    {
      text := [];
    }

    method Sputc(c: byte)
      modifies this
      ensures text == old(text) + [c]
    {
      text := text + [c];
    }

    method Sputn(s: bytes)
      modifies this
      ensures text == old(text) + s
    {
      text := text + s;
    }
  }

  /** One turn of the switch. */
  method AppendByte(buf: StringBuf, c: byte)
    modifies buf
    ensures buf.text == old(buf.text) + EscapeByte(c)
  {
    match c {
      case 8 => buf.Sputc(BACKSLASH); buf.Sputc(98);
      case 12 => buf.Sputc(BACKSLASH); buf.Sputc(102);
      case 10 => buf.Sputc(BACKSLASH); buf.Sputc(110);
      case 13 => buf.Sputc(BACKSLASH); buf.Sputc(114);
      case 9 => buf.Sputc(BACKSLASH); buf.Sputc(116);
      case 92 => buf.Sputc(BACKSLASH); buf.Sputc(BACKSLASH);
      case 34 => buf.Sputc(BACKSLASH); buf.Sputc(QUOTE);
      case _ => buf.Sputc(c);
    }
  }

  /** `append_string`: one pass over the characters. */
  method AppendString(buf: StringBuf, s: bytes)
    modifies buf
    ensures buf.text == old(buf.text) + Escape(s)
  {
    hide EscapeByte;
    var i := 0;
    assert s[0..] == s;
    while i != |s|
      invariant 0 <= i <= |s|
      invariant buf.text + Escape(s[i..]) == old(buf.text) + Escape(s)
    {
      assert s[i..][1..] == s[i + 1..];
      ghost var before := buf.text;
      AppendByte(buf, s[i]);
      Associative(before, EscapeByte(s[i]), Escape(s[i + 1..]));
      i := i + 1;
    }
  }

  method PutQuoted(buf: StringBuf, s: bytes)
    modifies buf
    ensures buf.text == old(buf.text) + Quoted(s)
  {
    buf.Sputc(QUOTE);
    AppendString(buf, s);
    buf.Sputc(QUOTE);
  }

  // --- The stack of half-consumed iterators ---

  /** `create_elem_c`: a value, whether it is still untouched, and the position of its iterator. */
  datatype Elem = Elem(v: Value, init: bool, pos: nat)

  /** The number of members an iterator runs over. */
  function Members(v: Value): nat {
    match v
    case Array(xs) => |xs|
    case List(xs) => |xs|
    case Dict(ps) => |ps|
    case _ => 0
  }

  /** Containers one of whose members is being written. */
  ghost predicate Open(stack: seq<Elem>) {
    forall i :: 0 <= i < |stack| ==> ElemOk(stack[i]) && !stack[i].init
  }

  /** Below the top every element is open. */
  ghost predicate StackOk(stack: seq<Elem>) {
    stack == [] || (Open(stack[..|stack| - 1]) && ElemOk(stack[|stack| - 1]))
  }

  lemma OpenIsOk(stack: seq<Elem>)
    requires Open(stack)
    ensures StackOk(stack)
  {
  }

  predicate ElemOk(e: Elem) {
    if e.init then e.pos == 0 else 0 < e.pos <= Members(e.v)
  }

  /** The text an element still has to contribute at nesting depth `depth`. */
  function RestText(e: Elem, lay: Layout, depth: nat, fixed: real -> bytes): bytes
    requires ElemOk(e)
  {
    if e.init then Text(e.v, lay, depth, fixed)
    else
      match e.v
      case Array(xs) => MoreItems(xs[e.pos..], lay, depth, fixed)
      case List(xs) => MoreItems(xs[e.pos..], lay, depth, fixed)
      case Dict(ps) => MorePairs(ps[e.pos..], lay, depth, fixed)
  }

  /** The text still to be written: the top element first, each element at the depth of its index. */
  function Pending(stack: seq<Elem>, lay: Layout, fixed: real -> bytes): bytes
    requires StackOk(stack)
  {
    if stack == [] then []
    else
      var n := |stack| - 1;
      RestText(stack[n], lay, n, fixed) + Pending(stack[..n], lay, fixed)
  }

  function RestError(e: Elem): Option<PrintError>
    requires ElemOk(e)
  {
    if e.init then FirstError(e.v)
    else
      match e.v
      case Array(xs) => FirstItemError(xs[e.pos..])
      case List(xs) => FirstItemError(xs[e.pos..])
      case Dict(ps) => FirstPairError(ps[e.pos..])
  }

  function PendingError(stack: seq<Elem>): Option<PrintError>
    requires StackOk(stack)
  {
    if stack == [] then None
    else OrElse(RestError(stack[|stack| - 1]), PendingError(stack[..|stack| - 1]))
  }

  /** The number of iterations spent on a value: one for a leaf, one more than its members for a container. */
  function Cost(v: Value): nat
    decreases v, 1
  {
    match v
    case Array(xs) => 1 + ItemsCost(xs)
    case List(xs) => 1 + ItemsCost(xs)
    case Dict(ps) => 1 + PairsCost(ps)
    case _ => 1
  }

  function ItemsCost(xs: seq<Value>): nat
    decreases xs, 0
  {
    if xs == [] then 0 else Cost(xs[0]) + 1 + ItemsCost(xs[1..])
  }

  function PairsCost(ps: seq<Pair>): nat
    decreases ps, 0
  {
    if ps == [] then 0 else PairCost(ps[0]) + 1 + PairsCost(ps[1..])
  }

  function PairCost(p: Pair): nat
    decreases p
  {
    Cost(p.val)
  }

  function RestCost(e: Elem): nat
    requires ElemOk(e)
  {
    if e.init then Cost(e.v)
    else
      match e.v
      case Array(xs) => 1 + ItemsCost(xs[e.pos..])
      case List(xs) => 1 + ItemsCost(xs[e.pos..])
      case Dict(ps) => 1 + PairsCost(ps[e.pos..])
  }

  function PendingCost(stack: seq<Elem>): nat
    requires StackOk(stack)
  {
    if stack == [] then 0 else RestCost(stack[|stack| - 1]) + PendingCost(stack[..|stack| - 1])
  }

  // --- One iteration ---

  datatype StepResult = Done(out: bytes, stack: seq<Elem>) | Throw(error: PrintError)

  /** What one iteration of a printer writes and how it leaves the stack. */
  function Step(stack: seq<Elem>, lay: Layout, fixed: real -> bytes): StepResult
    requires stack != [] && StackOk(stack)
  {
    var n := |stack| - 1;
    var top, below := stack[n], stack[..n];
    match top.v
    case Array(xs) => StepItems(top, below, xs, lay)
    case List(xs) => StepItems(top, below, xs, lay)
    case Dict(ps) => StepPairs(top, below, ps, lay)
    case Set(_) => Throw(UnsupportedType)
    case _ => Done(Text(top.v, lay, n, fixed), below)
  }

  /** What both kinds of containers write before their next member or their end. */
  function Lead(top: Elem, open: byte, lay: Layout, d: nat): bytes {
    if top.init then [open] + (if Members(top.v) == 0 then [] else Break(lay, d + 1))
    else if top.pos == Members(top.v) then []
    else [COMMA] + Break(lay, d + 1)
  }

  /** What they write at their end. */
  function Close(top: Elem, close: byte, lay: Layout, d: nat): bytes {
    (if Members(top.v) == 0 then [] else Break(lay, d)) + [close]
  }

  function StepItems(top: Elem, below: seq<Elem>, xs: seq<Value>, lay: Layout): StepResult
    requires top.pos <= |xs|
  {
    var d := |below|;
    if top.pos == |xs| then Done(Lead(top, 91, lay, d) + Close(top, 93, lay, d), below)
    else Done(Lead(top, 91, lay, d), below + [Elem(top.v, false, top.pos + 1), Elem(xs[top.pos], true, 0)])
  }

  function StepPairs(top: Elem, below: seq<Elem>, ps: seq<Pair>, lay: Layout): StepResult
    requires top.pos <= |ps|
  {
    var d := |below|;
    if top.pos == |ps| then Done(Lead(top, 123, lay, d) + Close(top, 125, lay, d), below)
    else if !ps[top.pos].key.Str? then Throw(NoStringKey)
    else Done(Lead(top, 123, lay, d) + KeyText(ps[top.pos].key),
              below + [Elem(top.v, false, top.pos + 1), Elem(ps[top.pos].val, true, 0)])
  }

  lemma {:induction false} PendingPush(below: seq<Elem>, e: Elem, lay: Layout, fixed: real -> bytes)
    requires Open(below) && ElemOk(e)
    ensures StackOk(below) && StackOk(below + [e])
    ensures Pending(below + [e], lay, fixed) == RestText(e, lay, |below|, fixed) + Pending(below, lay, fixed)
    ensures PendingError(below + [e]) == OrElse(RestError(e), PendingError(below))
    ensures PendingCost(below + [e]) == RestCost(e) + PendingCost(below)
  {
    assert (below + [e])[..|below|] == below;
    OpenIsOk(below);
  }

  lemma {:induction false} PendingTwo(below: seq<Elem>, e: Elem, child: Elem, lay: Layout, fixed: real -> bytes)
    requires Open(below) && ElemOk(e) && ElemOk(child) && !e.init
    ensures StackOk(below) && StackOk(below + [e, child])
    ensures Pending(below + [e, child], lay, fixed) ==
            RestText(child, lay, |below| + 1, fixed) + (RestText(e, lay, |below|, fixed) + Pending(below, lay, fixed))
    ensures PendingError(below + [e, child]) == OrElse(RestError(child), OrElse(RestError(e), PendingError(below)))
    ensures PendingCost(below + [e, child]) == RestCost(child) + (RestCost(e) + PendingCost(below))
  {
    assert below + [e, child] == (below + [e]) + [child];
    PendingPush(below, e, lay, fixed);
    PendingPush(below + [e], child, lay, fixed);
  }

  /** An iteration writes a prefix of what is pending, leaves the rest pending, and is one step of the cost. */
  lemma {:induction false} StepKeepsPending(stack: seq<Elem>, lay: Layout, fixed: real -> bytes)
    requires stack != [] && StackOk(stack)
    ensures match Step(stack, lay, fixed)
            case Throw(e) => PendingError(stack) == Some(e)
            case Done(out, rest) =>
              && StackOk(rest)
              && out + Pending(rest, lay, fixed) == Pending(stack, lay, fixed)
              && PendingError(rest) == PendingError(stack)
              && PendingCost(rest) < PendingCost(stack)
  {
    hide StepItems, StepPairs, RestText, RestError, RestCost, Text, Open;
    var n := |stack| - 1;
    var top, below := stack[n], stack[..n];
    match top.v
    case Array(xs) => StepItemsKeeps(top, below, xs, lay, fixed);
    case List(xs) => StepItemsKeeps(top, below, xs, lay, fixed);
    case Dict(ps) => StepPairsKeeps(top, below, ps, lay, fixed);
    case _ => StepScalarKeeps(stack, lay, fixed);
  }

  lemma {:induction false} StepScalarKeeps(stack: seq<Elem>, lay: Layout, fixed: real -> bytes)
    requires stack != [] && StackOk(stack) && !HasMembers(stack[|stack| - 1].v)
    ensures match Step(stack, lay, fixed)
            case Throw(e) => PendingError(stack) == Some(e)
            case Done(out, rest) =>
              && StackOk(rest)
              && out + Pending(rest, lay, fixed) == Pending(stack, lay, fixed)
              && PendingError(rest) == PendingError(stack)
              && PendingCost(rest) < PendingCost(stack)
  {
    OpenIsOk(stack[..|stack| - 1]);
  }

  /** Pushing the next item splits what the container had to contribute. */
  lemma {:induction false} ItemsSplit(top: Elem, xs: seq<Value>, lay: Layout, d: nat, fixed: real -> bytes)
    requires ElemOk(top) && (top.v == Array(xs) || top.v == List(xs)) && top.pos < |xs|
    ensures var e, child := Elem(top.v, false, top.pos + 1), Elem(xs[top.pos], true, 0);
            var lead := if top.init then [91] + Break(lay, d + 1) else [COMMA] + Break(lay, d + 1);
            && RestText(top, lay, d, fixed) == lead + (RestText(child, lay, d + 1, fixed) + RestText(e, lay, d, fixed))
            && RestError(top) == OrElse(RestError(child), RestError(e))
            && RestCost(top) == 1 + RestCost(child) + RestCost(e)
  {
    var r := xs[top.pos..];
    assert r[0] == xs[top.pos] && r[1..] == xs[top.pos + 1..];
    assert top.init ==> r == xs;
    assert FirstItemError(r) == OrElse(FirstError(r[0]), FirstItemError(r[1..]));
    assert ItemsCost(r) == Cost(r[0]) + 1 + ItemsCost(r[1..]);
    assert ItemsText(r, lay, d, fixed) == Text(r[0], lay, d + 1, fixed) + MoreItems(r[1..], lay, d, fixed);
  }

  lemma {:induction false} ItemsEnd(top: Elem, xs: seq<Value>, lay: Layout, d: nat, fixed: real -> bytes)
    requires ElemOk(top) && (top.v == Array(xs) || top.v == List(xs)) && top.pos == |xs|
    ensures RestText(top, lay, d, fixed) == if top.init then [91] + [93] else Break(lay, d) + [93]
    ensures top.init <==> xs == []
    ensures RestError(top) == None && RestCost(top) == 1
  {
    var r := xs[top.pos..];
    assert r == [] && (top.init ==> xs == []);
    assert FirstItemError(r) == None;
  }

  lemma {:induction false} StepItemsKeeps(top: Elem, below: seq<Elem>, xs: seq<Value>, lay: Layout, fixed: real -> bytes)
    requires Open(below) && ElemOk(top) && (top.v == Array(xs) || top.v == List(xs))
    ensures StackOk(below)
    ensures var r := StepItems(top, below, xs, lay);
            && r.Done? && StackOk(r.stack)
            && r.out + Pending(r.stack, lay, fixed) == RestText(top, lay, |below|, fixed) + Pending(below, lay, fixed)
            && PendingError(r.stack) == OrElse(RestError(top), PendingError(below))
            && PendingCost(r.stack) < RestCost(top) + PendingCost(below)
  {
    hide RestText, Text, Escape;
    var d := |below|;
    OpenIsOk(below);
    if top.pos == |xs| {
      ItemsEnd(top, xs, lay, d, fixed);
      assert StepItems(top, below, xs, lay).out == RestText(top, lay, d, fixed);
    } else {
      var e, child := Elem(top.v, false, top.pos + 1), Elem(xs[top.pos], true, 0);
      ItemsSplit(top, xs, lay, d, fixed);
      PendingTwo(below, e, child, lay, fixed);
      Regroup(StepItems(top, below, xs, lay).out, RestText(child, lay, d + 1, fixed), RestText(e, lay, d, fixed),
              Pending(below, lay, fixed));
    }
  }

  lemma {:induction false} PairsSplit(top: Elem, ps: seq<Pair>, lay: Layout, d: nat, fixed: real -> bytes)
    requires ElemOk(top) && top.v == Dict(ps) && top.pos < |ps|
    ensures var e, child := Elem(top.v, false, top.pos + 1), Elem(ps[top.pos].val, true, 0);
            var lead := if top.init then [123] + Break(lay, d + 1) else [COMMA] + Break(lay, d + 1);
            RestText(top, lay, d, fixed) ==
            lead + KeyText(ps[top.pos].key) + (RestText(child, lay, d + 1, fixed) + RestText(e, lay, d, fixed))
  {
    hide Text, KeyText, Break, RestText;
    var r := ps[top.pos..];
    assert r[0] == ps[top.pos] && r[1..] == ps[top.pos + 1..];
    var lead := if top.init then [123] + Break(lay, d + 1) else [COMMA] + Break(lay, d + 1);
    RestOfPairs(top, ps, lay, d, fixed);
    RestOfOpenPairs(Elem(top.v, false, top.pos + 1), ps, lay, d, fixed);
    RestOfUntouched(r[0].val, lay, d + 1, fixed);
    RegroupPairs(lead, KeyText(r[0].key), Text(r[0].val, lay, d + 1, fixed), MorePairs(r[1..], lay, d, fixed));
  }

  lemma {:induction false} RestOfPairs(top: Elem, ps: seq<Pair>, lay: Layout, d: nat, fixed: real -> bytes)
    requires ElemOk(top) && top.v == Dict(ps) && top.pos < |ps|
    ensures var lead := if top.init then [123] + Break(lay, d + 1) else [COMMA] + Break(lay, d + 1);
            RestText(top, lay, d, fixed) == lead + PairsText(ps[top.pos..], lay, d, fixed)
  {
    hide Break, KeyText, PairsText;
    assert top.init ==> ps[top.pos..] == ps;
  }

  lemma {:induction false} RestOfOpenPairs(e: Elem, ps: seq<Pair>, lay: Layout, d: nat, fixed: real -> bytes)
    requires ElemOk(e) && e.v == Dict(ps) && !e.init
    ensures RestText(e, lay, d, fixed) == MorePairs(ps[e.pos..], lay, d, fixed)
  {
  }

  lemma {:induction false} RestOfUntouched(v: Value, lay: Layout, d: nat, fixed: real -> bytes)
    ensures RestText(Elem(v, true, 0), lay, d, fixed) == Text(v, lay, d, fixed)
  {
  }

  lemma {:induction false} PairsSplitError(top: Elem, ps: seq<Pair>)
    requires ElemOk(top) && top.v == Dict(ps) && top.pos < |ps|
    ensures var e, child := Elem(top.v, false, top.pos + 1), Elem(ps[top.pos].val, true, 0);
            && RestError(top) == (if ps[top.pos].key.Str? then OrElse(RestError(child), RestError(e)) else Some(NoStringKey))
            && RestCost(top) == 1 + RestCost(child) + RestCost(e)
  {
    var r := ps[top.pos..];
    assert r[0] == ps[top.pos] && r[1..] == ps[top.pos + 1..];
    assert top.init ==> r == ps;
    assert FirstPairError(r) == OrElse(PairError(r[0]), FirstPairError(r[1..]));
    assert PairsCost(r) == PairCost(r[0]) + 1 + PairsCost(r[1..]);
  }

  lemma {:induction false} PairsEnd(top: Elem, ps: seq<Pair>, lay: Layout, d: nat, fixed: real -> bytes)
    requires ElemOk(top) && top.v == Dict(ps) && top.pos == |ps|
    ensures RestText(top, lay, d, fixed) == if top.init then [123] + [125] else Break(lay, d) + [125]
    ensures top.init <==> ps == []
    ensures RestError(top) == None && RestCost(top) == 1
  {
    var r := ps[top.pos..];
    assert r == [] && (top.init ==> ps == []);
    assert FirstPairError(r) == None;
  }

  lemma {:induction false} StepPairsKeeps(top: Elem, below: seq<Elem>, ps: seq<Pair>, lay: Layout, fixed: real -> bytes)
    requires Open(below) && ElemOk(top) && top.v == Dict(ps)
    ensures StackOk(below)
    ensures match StepPairs(top, below, ps, lay)
            case Throw(e) => OrElse(RestError(top), PendingError(below)) == Some(e)
            case Done(out, rest) =>
              && StackOk(rest)
              && out + Pending(rest, lay, fixed) == RestText(top, lay, |below|, fixed) + Pending(below, lay, fixed)
              && PendingError(rest) == OrElse(RestError(top), PendingError(below))
              && PendingCost(rest) < RestCost(top) + PendingCost(below)
  {
    hide RestText, Text, KeyText, Escape;
    var d := |below|;
    OpenIsOk(below);
    if top.pos == |ps| {
      PairsEnd(top, ps, lay, d, fixed);
      assert StepPairs(top, below, ps, lay).out == RestText(top, lay, d, fixed);
    } else {
      PairsSplitError(top, ps);
      if ps[top.pos].key.Str? {
        var e, child := Elem(top.v, false, top.pos + 1), Elem(ps[top.pos].val, true, 0);
        PairsSplit(top, ps, lay, d, fixed);
        PendingTwo(below, e, child, lay, fixed);
        Regroup(StepPairs(top, below, ps, lay).out, RestText(child, lay, d + 1, fixed), RestText(e, lay, d, fixed),
                Pending(below, lay, fixed));
      }
    }
  }

  // --- Indentation ---

  lemma {:induction false} RepeatGrows(tab: bytes, m: nat, n: nat)
    requires m <= n
    ensures Repeat(tab, m) <= Repeat(tab, n)
  {
    if m < n {
      RepeatGrows(tab, m, n - 1);
    }
  }

  /** `indent_buffer` and `indent_size` of `create_nice`: the buffer only grows, the size follows the nesting. */
  class Indentation {
    const tab: bytes
    var buffer: bytes
    var size: nat
    ghost var depth: nat

    /** The first `size` bytes of the buffer are one tab for each of `depth` open containers. */
    ghost predicate Valid()
      reads this
    {
      && (exists n: nat :: depth <= n && buffer == Repeat(tab, n))
      && size == |Repeat(tab, depth)|
    }

    constructor (tab: bytes)
      ensures Valid() && depth == 0 && this.tab == tab
    {
      this.tab := tab;
      buffer, size := [], 0;
      depth := 0;
      new;
      assert buffer == Repeat(tab, 0);
    }

    method Push()
      requires Valid()
      modifies this
      ensures Valid() && depth == old(depth) + 1
    {
      ghost var n: nat :| depth <= n && buffer == Repeat(tab, n);
      RepeatGrows(tab, depth, n);
      size := size + |tab|;
      if size > |buffer| {
        if depth < n {
          RepeatGrows(tab, depth + 1, n);
        }
        buffer := buffer + tab;
        assert buffer == Repeat(tab, n + 1);
      } else if depth == n {
        assert tab == [];
        assert buffer == Repeat(tab, n + 1);
      }
      depth := depth + 1;
    }

    method Pop()
      requires Valid() && depth > 0
      modifies this
      ensures Valid() && depth == old(depth) - 1
    {
      size := size - |tab|;
      depth := depth - 1;
    }

    method Write(buf: StringBuf)
      requires Valid()
      modifies buf
      ensures buf.text == old(buf.text) + Break(Nice(tab), depth)
    {
      ghost var n: nat :| depth <= n && buffer == Repeat(tab, n);
      RepeatGrows(tab, depth, n);
      hide Repeat;
      ghost var was, spaces := buf.text, Repeat(tab, depth);
      assert buffer[..size] == spaces;
      buf.Sputc(10);
      buf.Sputn(buffer[..size]);
      assert was + [10] + spaces == was + ([10] + spaces);
    }
  }

  // --- The printers ---

  predicate HasMembers(v: Value) {
    v.Array? || v.List? || v.Dict?
  }

  /** The branches for values without members. */
  method PutScalar(buf: StringBuf, v: Value, lay: Layout, ghost depth: nat, fixed: real -> bytes)
    requires !HasMembers(v) && !v.Set?
    modifies buf
    ensures buf.text == old(buf.text) + Text(v, lay, depth, fixed)
  {
    match v {
      case Blank => buf.Sputn([110, 117, 108, 108]);
      case Bool(b) => buf.Sputn(if b then [116, 114, 117, 101] else [102, 97, 108, 115, 101]);
      case Int(i) => buf.Sputn(IntText(i));
      case Float(x) => buf.Sputn(fixed(x));
      case Str(s) => PutQuoted(buf, s);
    }
  }

  /** A loop body has written `r.out` behind `was` and left the stack `r.stack`, or has thrown. */
  ghost predicate Wrote(was: bytes, now: bytes, stack: Result<seq<Elem>, PrintError>, r: StepResult) {
    match stack
    case Err(e) => r == Throw(e)
    case Ok(rest) => r.Done? && r.stack == rest && now == was + r.out
  }

  /** The branch for arrays and the identical one for lists. */
  method PutItems(buf: StringBuf, top: Elem, below: seq<Elem>, items: seq<Value>) returns (stack: seq<Elem>)
    requires ElemOk(top) && (top.v == Array(items) || top.v == List(items))
    modifies buf
    ensures Wrote(old(buf.text), buf.text, Ok(stack), StepItems(top, below, items, Compact))
  {
    if top.init {
      buf.Sputc(91);
    } else if top.pos != |items| {
      buf.Sputc(COMMA);
    }
    if top.pos != |items| {
      stack := below + [Elem(top.v, false, top.pos + 1), Elem(items[top.pos], true, 0)];
    } else {
      buf.Sputc(93);
      stack := below;
    }
  }

  /** The branch for dictionaries. */
  method PutPairs(buf: StringBuf, top: Elem, below: seq<Elem>, ps: seq<Pair>)
    returns (stack: Result<seq<Elem>, PrintError>)
    requires ElemOk(top) && top.v == Dict(ps)
    modifies buf
    ensures Wrote(old(buf.text), buf.text, stack, StepPairs(top, below, ps, Compact))
  {
    hide Escape, Quoted;
    if top.init {
      buf.Sputc(123);
    } else if top.pos != |ps| {
      buf.Sputc(COMMA);
    }
    if top.pos != |ps| {
      var p := ps[top.pos];
      if !p.key.Str? {
        return Err(NoStringKey);
      }
      PutQuoted(buf, p.key.s);
      buf.Sputc(COLON);
      stack := Ok(below + [Elem(top.v, false, top.pos + 1), Elem(p.val, true, 0)]);
    } else {
      buf.Sputc(125);
      stack := Ok(below);
    }
  }

  /** The loop body of `create`. */
  method CreateStep(buf: StringBuf, stack: seq<Elem>, fixed: real -> bytes)
    returns (rest: Result<seq<Elem>, PrintError>)
    requires stack != [] && StackOk(stack)
    modifies buf
    ensures Wrote(old(buf.text), buf.text, rest, Step(stack, Compact, fixed))
  {
    var n := |stack| - 1;
    var top := stack[n];
    match top.v {
      case Array(items) =>
        var s := PutItems(buf, top, stack[..n], items);
        rest := Ok(s);
      case List(items) =>
        var s := PutItems(buf, top, stack[..n], items);
        rest := Ok(s);
      case Dict(ps) =>
        rest := PutPairs(buf, top, stack[..n], ps);
      case Set(_) =>
        rest := Err(UnsupportedType);
      case _ =>
        PutScalar(buf, top.v, Compact, n, fixed);
        rest := Ok(stack[..n]);
    }
  }

  lemma {:induction false} StartPending(v: Value, lay: Layout, fixed: real -> bytes)
    ensures var stack := [Elem(v, true, 0)];
            && StackOk(stack) && Pending(stack, lay, fixed) == Text(v, lay, 0, fixed)
            && PendingError(stack) == FirstError(v)
  {
    PendingPush([], Elem(v, true, 0), lay, fixed);
    assert [] + [Elem(v, true, 0)] == [Elem(v, true, 0)];
  }

  /** An iteration keeps the sum of what is written and what is pending. */
  lemma {:induction false} StepKeepsTotal(was: bytes, now: bytes, stack: seq<Elem>, rest: Result<seq<Elem>, PrintError>,
                                          lay: Layout, fixed: real -> bytes)
    requires stack != [] && StackOk(stack) && Wrote(was, now, rest, Step(stack, lay, fixed))
    ensures rest.Err? ==> PendingError(stack) == Some(rest.error)
    ensures rest.Ok? ==>
              && StackOk(rest.value)
              && now + Pending(rest.value, lay, fixed) == was + Pending(stack, lay, fixed)
              && PendingError(rest.value) == PendingError(stack)
              && PendingCost(rest.value) < PendingCost(stack)
  {
    StepKeepsPending(stack, lay, fixed);
    if rest.Ok? {
      Total(was, now, Step(stack, lay, fixed).out, Pending(rest.value, lay, fixed), Pending(stack, lay, fixed));
    }
  }

  lemma Total(was: bytes, now: bytes, out: bytes, rest: bytes, pending: bytes)
    requires now == was + out && out + rest == pending
    ensures now + rest == was + pending
  {
  }

  /** What the printers promise: the text of the value, or the first error met on the way through it. */
  function Printed(v: Value, lay: Layout, fixed: real -> bytes): Result<bytes, PrintError> {
    match FirstError(v)
    case None => Ok(Text(v, lay, 0, fixed))
    case Some(e) => Err(e)
  }

  /** `create`. */
  method Create(v: Value, fixed: real -> bytes) returns (r: Result<bytes, PrintError>)
    ensures r == Printed(v, Compact, fixed)
  {
    var buf := new StringBuf();
    var stack := [Elem(v, true, 0)];
    StartPending(v, Compact, fixed);
    while stack != []
      invariant StackOk(stack)
      invariant buf.text + Pending(stack, Compact, fixed) == Text(v, Compact, 0, fixed)
      invariant PendingError(stack) == FirstError(v)
      decreases PendingCost(stack)
    {
      ghost var was := buf.text;
      var rest := CreateStep(buf, stack, fixed);
      StepKeepsTotal(was, buf.text, stack, rest, Compact, fixed);
      if rest.Err? {
        return Err(rest.error);
      }
      stack := rest.value;
    }
    assert buf.text + [] == buf.text;
    r := Ok(buf.text);
  }

  // --- The indenting printer ---

  /** The number of open containers: `indent_size` is this many tabs. */
  function OpenElems(stack: seq<Elem>): nat {
    if stack != [] && stack[|stack| - 1].init then |stack| - 1 else |stack|
  }

  method PutLead(buf: StringBuf, indent: Indentation, top: Elem, open: byte, ghost d: nat)
    requires ElemOk(top) && indent.Valid() && indent.depth == (if top.init then d else d + 1)
    modifies buf, indent
    ensures indent.Valid() && indent.depth == (if Members(top.v) == 0 then d else d + 1)
    ensures buf.text == old(buf.text) + Lead(top, open, Nice(indent.tab), d)
  {
    hide Repeat;
    if top.init {
      buf.Sputc(open);
      if Members(top.v) != 0 {
        indent.Push();
        indent.Write(buf);
      }
    } else if top.pos != Members(top.v) {
      buf.Sputc(COMMA);
      indent.Write(buf);
    }
  }

  method PutClose(buf: StringBuf, indent: Indentation, top: Elem, close: byte, ghost d: nat)
    requires indent.Valid() && indent.depth == (if Members(top.v) == 0 then d else d + 1)
    modifies buf, indent
    ensures indent.Valid() && indent.depth == d
    ensures buf.text == old(buf.text) + Close(top, close, Nice(indent.tab), d)
  {
    if Members(top.v) != 0 {
      indent.Pop();
      indent.Write(buf);
    }
    buf.Sputc(close);
  }

  method PutItemsNice(buf: StringBuf, indent: Indentation, top: Elem, below: seq<Elem>, items: seq<Value>)
    returns (stack: seq<Elem>)
    requires ElemOk(top) && (top.v == Array(items) || top.v == List(items)) && Open(below)
    requires indent.Valid() && indent.depth == (if top.init then |below| else |below| + 1)
    modifies buf, indent
    ensures indent.Valid() && indent.depth == OpenElems(stack)
    ensures Wrote(old(buf.text), buf.text, Ok(stack), StepItems(top, below, items, Nice(indent.tab)))
  {
    PutLead(buf, indent, top, 91, |below|);
    if top.pos != |items| {
      stack := below + [Elem(top.v, false, top.pos + 1), Elem(items[top.pos], true, 0)];
    } else {
      PutClose(buf, indent, top, 93, |below|);
      stack := below;
    }
  }

  method PutPairsNice(buf: StringBuf, indent: Indentation, top: Elem, below: seq<Elem>, ps: seq<Pair>)
    returns (stack: Result<seq<Elem>, PrintError>)
    requires ElemOk(top) && top.v == Dict(ps) && Open(below)
    requires indent.Valid() && indent.depth == (if top.init then |below| else |below| + 1)
    modifies buf, indent
    ensures stack.Ok? ==> indent.Valid() && indent.depth == OpenElems(stack.value)
    ensures Wrote(old(buf.text), buf.text, stack, StepPairs(top, below, ps, Nice(indent.tab)))
  {
    hide Escape, Quoted, Break;
    PutLead(buf, indent, top, 123, |below|);
    if top.pos != |ps| {
      var p := ps[top.pos];
      if !p.key.Str? {
        return Err(NoStringKey);
      }
      PutQuoted(buf, p.key.s);
      buf.Sputc(COLON);
      stack := Ok(below + [Elem(top.v, false, top.pos + 1), Elem(p.val, true, 0)]);
    } else {
      PutClose(buf, indent, top, 125, |below|);
      stack := Ok(below);
    }
  }

  /** The loop body of `create_nice`. */
  method CreateNiceStep(buf: StringBuf, indent: Indentation, stack: seq<Elem>, fixed: real -> bytes)
    returns (rest: Result<seq<Elem>, PrintError>)
    requires stack != [] && StackOk(stack) && indent.Valid() && indent.depth == OpenElems(stack)
    modifies buf, indent
    ensures rest.Ok? ==> indent.Valid() && indent.depth == OpenElems(rest.value)
    ensures Wrote(old(buf.text), buf.text, rest, Step(stack, Nice(indent.tab), fixed))
  {
    var n := |stack| - 1;
    var top := stack[n];
    assert stack == stack[..n] + [top];
    match top.v {
      case Array(items) =>
        var s := PutItemsNice(buf, indent, top, stack[..n], items);
        rest := Ok(s);
      case List(items) =>
        var s := PutItemsNice(buf, indent, top, stack[..n], items);
        rest := Ok(s);
      case Dict(ps) =>
        rest := PutPairsNice(buf, indent, top, stack[..n], ps);
      case Set(_) =>
        rest := Err(UnsupportedType);
      case _ =>
        PutScalar(buf, top.v, Nice(indent.tab), n, fixed);
        rest := Ok(stack[..n]);
    }
  }

  /**
   * `create_nice`. Throughout, the indentation is one tab for each open container, never more than the buffer
   * holds, and at the end it is back to nothing.
   */
  method CreateNice(v: Value, tab: bytes, fixed: real -> bytes) returns (r: Result<bytes, PrintError>)
    ensures r == Printed(v, Nice(tab), fixed)
  {
    var buf := new StringBuf();
    var indent := new Indentation(tab);
    var stack := [Elem(v, true, 0)];
    StartPending(v, Nice(tab), fixed);
    while stack != []
      invariant StackOk(stack)
      invariant fresh(buf) && fresh(indent) && indent.Valid() && indent.tab == tab
      invariant indent.depth == OpenElems(stack)
      invariant buf.text + Pending(stack, Nice(tab), fixed) == Text(v, Nice(tab), 0, fixed)
      invariant PendingError(stack) == FirstError(v)
      decreases PendingCost(stack)
    {
      ghost var was := buf.text;
      var rest := CreateNiceStep(buf, indent, stack, fixed);
      StepKeepsTotal(was, buf.text, stack, rest, Nice(tab), fixed);
      if rest.Err? {
        return Err(rest.error);
      }
      stack := rest.value;
    }
    assert indent.size == 0;
    assert buf.text + [] == buf.text;
    r := Ok(buf.text);
  }
}

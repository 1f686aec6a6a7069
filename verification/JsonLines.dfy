/**
 * The printed text as lines: both layouts write the same lines, the indented one each behind a tab for every
 * container open around it and with a line break between them, the compact one without anything between them.
 */
module JsonLines {
  import opened Base
  import opened Sequences
  import opened Values
  import opened JsonStrings
  import opened JsonNumbers
  import opened JsonRender

  /** What a line holds, and how many containers are open around it. */
  datatype Line = Line(depth: nat, content: bytes)

  /** The lines of a value with `head` in front of it and `tail` behind it. */
  function Lines(v: Value, depth: nat, head: bytes, tail: bytes, fixed: real -> bytes): (ls: seq<Line>)
    ensures ls != []
    decreases v, 1
  {
    match v
    case Blank => [Line(depth, head + [110, 117, 108, 108] + tail)]
    case Bool(b) => [Line(depth, head + (if b then [116, 114, 117, 101] else [102, 97, 108, 115, 101]) + tail)]
    case Int(i) => [Line(depth, head + IntText(i) + tail)]
    case Float(r) => [Line(depth, head + fixed(r) + tail)]
    case Str(s) => [Line(depth, head + ([34] + Escape(s) + [34]) + tail)]
    case Array(xs) => Enclosed(head, 91, ItemLines(xs, depth + 1, fixed), 93, tail, depth)
    case List(xs) => Enclosed(head, 91, ItemLines(xs, depth + 1, fixed), 93, tail, depth)
    case Dict(ps) => Enclosed(head, 123, PairLines(ps, depth + 1, fixed), 125, tail, depth)
    case Set(_) => [Line(depth, head + tail)]
  }

  /** An empty container takes one line; another opens on a line, and closes on one of its own. */
  function Enclosed(head: bytes, open: byte, inner: seq<Line>, close: byte, tail: bytes, depth: nat): seq<Line> {
    if inner == [] then [Line(depth, head + [open, close] + tail)]
    else [Line(depth, head + [open])] + inner + [Line(depth, [close] + tail)]
  }

  /** Every member but the last has a comma behind it. */
  function ItemLines(xs: seq<Value>, depth: nat, fixed: real -> bytes): (ls: seq<Line>)
    ensures xs != [] ==> ls != []
    decreases xs, 0
  {
    if xs == [] then []
    else Lines(xs[0], depth, [], if |xs| > 1 then [44] else [], fixed) + ItemLines(xs[1..], depth, fixed)
  }

  function PairLines(ps: seq<Pair>, depth: nat, fixed: real -> bytes): (ls: seq<Line>)
    ensures ps != [] ==> ls != []
    decreases ps, 0
  {
    if ps == [] then []
    else PairLine(ps[0], depth, if |ps| > 1 then [44] else [], fixed) + PairLines(ps[1..], depth, fixed)
  }

  /** The key and a colon stand in front of the value. */
  function PairLine(p: Pair, depth: nat, tail: bytes, fixed: real -> bytes): (ls: seq<Line>)
    ensures ls != []
    decreases p
  {
    Lines(p.val, depth, [34] + Escape(if p.key.Str? then p.key.s else []) + [34] + [58], tail, fixed)
  }

  // --- Lines shown in a layout ---

  function Tabs(tab: bytes, n: nat): bytes {
    if n == 0 then [] else tab + Tabs(tab, n - 1)
  }

  function Indent(lay: Layout, depth: nat): bytes {
    match lay
    case Compact => []
    case Nice(tab) => Tabs(tab, depth)
  }

  function Between(lay: Layout): bytes {
    match lay
    case Compact => []
    case Nice(_) => [10]
  }

  function Shown(lay: Layout, ls: seq<Line>): bytes {
    if ls == [] then []
    else
      var first := Indent(lay, ls[0].depth) + ls[0].content;
      if |ls| == 1 then first else first + Between(lay) + Shown(lay, ls[1..])
  }

  lemma {:induction false} ShownConcat(lay: Layout, a: seq<Line>, b: seq<Line>)
    requires a != [] && b != []
    ensures Shown(lay, a + b) == Shown(lay, a) + Between(lay) + Shown(lay, b)
  {
    hide Indent, Between;
    assert (a + b)[0] == a[0] && (a + b)[1..] == a[1..] + b;
    if |a| == 1 {
      assert a[1..] + b == b;
    } else {
      ShownConcat(lay, a[1..], b);
      var first := Indent(lay, a[0].depth) + a[0].content + Between(lay);
      RegroupLeft(first, Shown(lay, a[1..]), Between(lay), Shown(lay, b));
    }
  }

  lemma {:induction false} TabsAreRepeated(tab: bytes, n: nat)
    ensures Tabs(tab, n) == Repeat(tab, n)
  {
    if n > 0 {
      TabsAreRepeated(tab, n - 1);
      TabMoves(tab, n - 1);
    }
  }

  lemma {:induction false} TabMoves(tab: bytes, n: nat)
    ensures tab + Repeat(tab, n) == Repeat(tab, n) + tab
  {
    if n > 0 {
      TabMoves(tab, n - 1);
      Associative(tab, Repeat(tab, n - 1), tab);
    } else {
      assert tab + [] == [] + tab;
    }
  }

  lemma {:induction false} BreakIsBetween(lay: Layout, depth: nat)
    ensures Break(lay, depth) == Between(lay) + Indent(lay, depth)
  {
    match lay
    case Compact =>
    case Nice(tab) => TabsAreRepeated(tab, depth);
  }

  // --- The text is its lines ---

  lemma {:induction false} EnclosedShown(lay: Layout, head: bytes, open: byte, inner: seq<Line>, close: byte, tail: bytes,
                                         depth: nat)
    ensures Shown(lay, Enclosed(head, open, inner, close, tail, depth)) ==
            if inner == [] then Indent(lay, depth) + (head + [open, close] + tail)
            else Indent(lay, depth) + (head + [open]) + Between(lay) + Shown(lay, inner) + Between(lay) +
                 (Indent(lay, depth) + ([close] + tail))
  {
    if inner != [] {
      var first, last := [Line(depth, head + [open])], [Line(depth, [close] + tail)];
      ShownConcat(lay, first + inner, last);
      ShownConcat(lay, first, inner);
    }
  }

  /** The text of a value, in either layout, is its lines in that layout. */
  lemma {:induction false} TextIsLines(v: Value, lay: Layout, depth: nat, head: bytes, tail: bytes, fixed: real -> bytes)
    ensures Shown(lay, Lines(v, depth, head, tail, fixed)) ==
            Indent(lay, depth) + (head + Text(v, lay, depth, fixed) + tail)
    decreases v, 2
  {
    match v
    case Array(xs) => ArrayIsLines(xs, lay, depth, head, tail, fixed);
    case List(xs) => ArrayIsLines(xs, lay, depth, head, tail, fixed);
    case Dict(ps) => DictIsLines(ps, lay, depth, head, tail, fixed);
    case _ =>
      assert head + [] + tail == head + tail;
  }

  lemma {:induction false} ArrayIsLines(xs: seq<Value>, lay: Layout, depth: nat, head: bytes, tail: bytes,
                                        fixed: real -> bytes)
    ensures Shown(lay, Enclosed(head, 91, ItemLines(xs, depth + 1, fixed), 93, tail, depth)) ==
            Indent(lay, depth) + (head + Text(Array(xs), lay, depth, fixed) + tail)
    decreases xs, 1
  {
    var inner := ItemLines(xs, depth + 1, fixed);
    EnclosedShown(lay, head, 91, inner, 93, tail, depth);
    if xs != [] {
      ItemsAreLines(xs, lay, depth, fixed);
      BreakIsBetween(lay, depth + 1);
      Assembled(Indent(lay, depth), head, 91, Between(lay), Shown(lay, inner), Indent(lay, depth), 93, tail,
                Indent(lay, depth + 1), ItemsText(xs, lay, depth, fixed));
    } else {
      assert [91] + [93] == [91, 93];
    }
  }

  lemma {:induction false} Assembled(i: bytes, head: bytes, open: byte, between: bytes, inner: bytes, j: bytes, close: byte,
                                     tail: bytes, k: bytes, text: bytes)
    requires inner + (between + (j + [close])) == k + text
    ensures i + (head + [open]) + between + inner + between + (j + ([close] + tail)) ==
            i + (head + ([open] + ((between + k) + text)) + tail)
  {
    var behind := inner + (between + (j + [close]));
    assert i + (head + [open]) + between + inner + between + (j + ([close] + tail)) ==
           i + (head + [open]) + between + behind + tail;
    assert i + (head + [open]) + between + (k + text) + tail == i + (head + ([open] + ((between + k) + text)) + tail);
  }

  lemma {:induction false} ItemsAreLines(xs: seq<Value>, lay: Layout, depth: nat, fixed: real -> bytes)
    requires xs != []
    ensures Shown(lay, ItemLines(xs, depth + 1, fixed)) + (Between(lay) + (Indent(lay, depth) + [93])) ==
            Indent(lay, depth + 1) + ItemsText(xs, lay, depth, fixed)
    decreases xs, 0
  {
    hide Lines, Text, Break, Between, Indent, Shown;
    var t := Text(xs[0], lay, depth + 1, fixed);
    if |xs| == 1 {
      TextIsLines(xs[0], lay, depth + 1, [], [], fixed);
      BreakIsBetween(lay, depth);
      assert Lines(xs[0], depth + 1, [], [], fixed) + [] == Lines(xs[0], depth + 1, [], [], fixed);
      LastLine(Indent(lay, depth + 1), t, Between(lay), Indent(lay, depth), 93);
    } else {
      TextIsLines(xs[0], lay, depth + 1, [], [44], fixed);
      ItemsAreLines(xs[1..], lay, depth, fixed);
      BreakIsBetween(lay, depth + 1);
      ShownConcat(lay, Lines(xs[0], depth + 1, [], [44], fixed), ItemLines(xs[1..], depth + 1, fixed));
      NextLine(Indent(lay, depth + 1), t, Between(lay), Shown(lay, ItemLines(xs[1..], depth + 1, fixed)),
               Between(lay) + (Indent(lay, depth) + [93]), ItemsText(xs[1..], lay, depth, fixed));
    }
  }

  lemma {:induction false} LastLine(i: bytes, t: bytes, between: bytes, j: bytes, close: byte)
    ensures (i + ([] + t + [])) + (between + (j + [close])) == i + (t + ((between + j) + [close]))
  {
    assert [] + t + [] == t;
  }

  lemma {:induction false} NextLine(i: bytes, t: bytes, between: bytes, more: bytes, behind: bytes, text: bytes)
    requires more + behind == i + text
    ensures ((i + ([] + t + [44])) + between + more) + behind == i + (t + ([44] + (between + i) + text))
  {
    assert ((i + ([] + t + [44])) + between + more) + behind == i + t + [44] + between + (more + behind);
    assert i + t + [44] + between + (i + text) == i + (t + ([44] + (between + i) + text));
  }

  lemma {:induction false} DictIsLines(ps: seq<Pair>, lay: Layout, depth: nat, head: bytes, tail: bytes,
                                       fixed: real -> bytes)
    ensures Shown(lay, Enclosed(head, 123, PairLines(ps, depth + 1, fixed), 125, tail, depth)) ==
            Indent(lay, depth) + (head + Text(Dict(ps), lay, depth, fixed) + tail)
    decreases ps, 1
  {
    var inner := PairLines(ps, depth + 1, fixed);
    EnclosedShown(lay, head, 123, inner, 125, tail, depth);
    if ps != [] {
      PairsAreLines(ps, lay, depth, fixed);
      BreakIsBetween(lay, depth + 1);
      Assembled(Indent(lay, depth), head, 123, Between(lay), Shown(lay, inner), Indent(lay, depth), 125, tail,
                Indent(lay, depth + 1), PairsText(ps, lay, depth, fixed));
    } else {
      assert [123] + [125] == [123, 125];
    }
  }

  lemma {:induction false} PairIsLines(p: Pair, lay: Layout, depth: nat, tail: bytes, fixed: real -> bytes)
    ensures Shown(lay, PairLine(p, depth, tail, fixed)) ==
            Indent(lay, depth) + ([] + PairText(p, lay, depth, fixed) + tail)
    decreases p
  {
    hide Lines, Text, Indent, Shown, Escape;
    var head := [34] + Escape(if p.key.Str? then p.key.s else []) + [34] + [58];
    TextIsLines(p.val, lay, depth, head, tail, fixed);
    assert head == KeyText(p.key);
    assert [] + (head + Text(p.val, lay, depth, fixed)) == head + Text(p.val, lay, depth, fixed);
  }

  lemma {:induction false} PairsAreLines(ps: seq<Pair>, lay: Layout, depth: nat, fixed: real -> bytes)
    requires ps != []
    ensures Shown(lay, PairLines(ps, depth + 1, fixed)) + (Between(lay) + (Indent(lay, depth) + [125])) ==
            Indent(lay, depth + 1) + PairsText(ps, lay, depth, fixed)
    decreases ps, 0
  {
    hide PairLine, PairText, Break, Between, Indent, Shown;
    var t := PairText(ps[0], lay, depth + 1, fixed);
    if |ps| == 1 {
      PairIsLines(ps[0], lay, depth + 1, [], fixed);
      BreakIsBetween(lay, depth);
      assert PairLine(ps[0], depth + 1, [], fixed) + [] == PairLine(ps[0], depth + 1, [], fixed);
      LastLine(Indent(lay, depth + 1), t, Between(lay), Indent(lay, depth), 125);
    } else {
      PairIsLines(ps[0], lay, depth + 1, [44], fixed);
      PairsAreLines(ps[1..], lay, depth, fixed);
      BreakIsBetween(lay, depth + 1);
      ShownConcat(lay, PairLine(ps[0], depth + 1, [44], fixed), PairLines(ps[1..], depth + 1, fixed));
      NextLine(Indent(lay, depth + 1), t, Between(lay), Shown(lay, PairLines(ps[1..], depth + 1, fixed)),
               Between(lay) + (Indent(lay, depth) + [125]), PairsText(ps[1..], lay, depth, fixed));
    }
  }

  /** What a printer writes for a value by itself: its lines, shown in the layout. */
  lemma {:induction false} PrintedIsLines(v: Value, lay: Layout, fixed: real -> bytes)
    ensures Text(v, lay, 0, fixed) == Shown(lay, Lines(v, 0, [], [], fixed))
  {
    TextIsLines(v, lay, 0, [], [], fixed);
    assert [] + ([] + Text(v, lay, 0, fixed) + []) == Text(v, lay, 0, fixed);
  }

  // --- No line breaks inside lines ---

  ghost predicate Unbroken(ls: seq<Line>) {
    forall i :: 0 <= i < |ls| ==> 10 !in ls[i].content
  }

  lemma {:induction false} NumberIsUnbroken(i: int)
    ensures 10 !in IntText(i)
  {
    NatTextReads(if i < 0 then -i else i);
  }

  lemma {:induction false} QuotedIsUnbroken(s: bytes)
    ensures 10 !in [34] + Escape(s) + [34]
  {
    EscapeWrites(s);
  }

  lemma {:induction false} EnclosedIsUnbroken(head: bytes, open: byte, inner: seq<Line>, close: byte, tail: bytes,
                                              depth: nat)
    requires Unbroken(inner) && 10 !in head && 10 !in tail && open != 10 && close != 10
    ensures Unbroken(Enclosed(head, open, inner, close, tail, depth))
  {
  }

  /** The line breaks of the printed text are those between its lines. */
  lemma {:induction false} LinesAreUnbroken(v: Value, depth: nat, head: bytes, tail: bytes, fixed: real -> bytes)
    requires 10 !in head && 10 !in tail && forall r :: 10 !in fixed(r)
    ensures Unbroken(Lines(v, depth, head, tail, fixed))
    decreases v, 1
  {
    match v
    case Int(i) => NumberIsUnbroken(i);
    case Str(s) => QuotedIsUnbroken(s);
    case Array(xs) =>
      ItemLinesAreUnbroken(xs, depth + 1, fixed);
      EnclosedIsUnbroken(head, 91, ItemLines(xs, depth + 1, fixed), 93, tail, depth);
    case List(xs) =>
      ItemLinesAreUnbroken(xs, depth + 1, fixed);
      EnclosedIsUnbroken(head, 91, ItemLines(xs, depth + 1, fixed), 93, tail, depth);
    case Dict(ps) =>
      PairLinesAreUnbroken(ps, depth + 1, fixed);
      EnclosedIsUnbroken(head, 123, PairLines(ps, depth + 1, fixed), 125, tail, depth);
    case _ =>
  }

  lemma {:induction false} ItemLinesAreUnbroken(xs: seq<Value>, depth: nat, fixed: real -> bytes)
    requires forall r :: 10 !in fixed(r)
    ensures Unbroken(ItemLines(xs, depth, fixed))
    decreases xs, 0
  {
    hide Lines;
    if xs != [] {
      LinesAreUnbroken(xs[0], depth, [], if |xs| > 1 then [44] else [], fixed);
      ItemLinesAreUnbroken(xs[1..], depth, fixed);
    }
  }

  lemma {:induction false} PairLinesAreUnbroken(ps: seq<Pair>, depth: nat, fixed: real -> bytes)
    requires forall r :: 10 !in fixed(r)
    ensures Unbroken(PairLines(ps, depth, fixed))
    decreases ps, 0
  {
    hide PairLine;
    if ps != [] {
      PairLineIsUnbroken(ps[0], depth, if |ps| > 1 then [44] else [], fixed);
      PairLinesAreUnbroken(ps[1..], depth, fixed);
    }
  }

  lemma {:induction false} PairLineIsUnbroken(p: Pair, depth: nat, tail: bytes, fixed: real -> bytes)
    requires 10 !in tail && forall r :: 10 !in fixed(r)
    ensures Unbroken(PairLine(p, depth, tail, fixed))
    decreases p
  {
    hide Escape;
    var key := if p.key.Str? then p.key.s else [];
    QuotedIsUnbroken(key);
    LinesAreUnbroken(p.val, depth, [34] + Escape(key) + [34] + [58], tail, fixed);
  }
}

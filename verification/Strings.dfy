/**
 * `split`, `join` and `replace` on plain strings: three independent loops, tied together by exact equations.
 */
module Strings {
  import opened Base
  import opened Sequences

  predicate MatchAt(s: bytes, d: bytes, p: nat) {
    p + |d| <= |s| && s[p..p + |d|] == d
  }

  /** `std::string::find`: the leftmost match from `from` on. */
  function Find(s: bytes, d: bytes, from: nat): (r: Option<nat>)
    ensures r.Some? ==> from <= r.value && r.value + |d| <= |s|
    decreases |s| - from
  {
    if from + |d| > |s| then None
    else if MatchAt(s, d, from) then Some(from)
    else Find(s, d, from + 1)
  }

  /** What makes it the leftmost: a match there, and none before. */
  lemma {:induction false} FindIsLeftmost(s: bytes, d: bytes, from: nat)
    ensures Find(s, d, from) == None ==> forall q :: from <= q ==> !MatchAt(s, d, q)
    ensures Find(s, d, from).Some? ==> MatchAt(s, d, Find(s, d, from).value)
    ensures Find(s, d, from).Some? ==> forall q :: from <= q < Find(s, d, from).value ==> !MatchAt(s, d, q)
    decreases |s| - from
  {
    if from + |d| <= |s| && !MatchAt(s, d, from) {
      FindIsLeftmost(s, d, from + 1);
    }
  }

  /** The pieces of `s` from `pos` on between leftmost, non-overlapping matches of `d`. */
  function Pieces(s: bytes, d: bytes, pos: nat): (r: seq<bytes>)
    requires d != [] && pos <= |s|
    ensures r != []
    decreases |s| - pos
  {
    match Find(s, d, pos)
    case None => [s[pos..]]
    case Some(p) => [s[pos..p]] + Pieces(s, d, p + |d|)
  }

  function Joined(ts: seq<bytes>, d: bytes): bytes {
    if ts == [] then []
    else if |ts| == 1 then ts[0]
    else ts[0] + d + Joined(ts[1..], d)
  }

  function TotalLength(ts: seq<bytes>): nat {
    if ts == [] then 0 else |ts[0]| + TotalLength(ts[1..])
  }

  /** Nothing stands in the joined text but the tokens and one delimiter less than there are tokens. */
  lemma {:induction false} JoinedLength(ts: seq<bytes>, d: bytes)
    ensures |Joined(ts, d)| == TotalLength(ts) + (if ts == [] then 0 else (|ts| - 1) * |d|)
  {
    if |ts| > 1 {
      JoinedLength(ts[1..], d);
    } else if |ts| == 1 {
      assert ts[1..] == [];
    }
  }

  /** `split`. An empty delimiter would be found at `lastPos` again and again: see `EmptyDelimiterStays`. */
  method Split(s: bytes, d: bytes) returns (tokens: seq<bytes>)
    requires d != []
    ensures tokens == Pieces(s, d, 0)
  {
    hide Find, Pieces;
    tokens := [];
    var lastPos := 0;
    var pos := Find(s, d, lastPos);
    while pos != None
      invariant lastPos <= |s| && pos == Find(s, d, lastPos)
      invariant tokens + Pieces(s, d, lastPos) == Pieces(s, d, 0)
      decreases |s| - lastPos
    {
      NextPiece(s, d, lastPos);
      tokens := tokens + [s[lastPos..pos.value]];
      lastPos := pos.value + |d|;
      pos := Find(s, d, lastPos);
    }
    LastPiece(s, d, lastPos);
    tokens := tokens + [s[lastPos..]];
  }

  /** `join`. */
  method Join(ts: seq<bytes>, d: bytes) returns (result: bytes)
    ensures result == Joined(ts, d)
    ensures ts == [] ==> result == []
  {
    result := [];
    if ts != [] {
      var i := 0;
      result := ts[0];
      assert ts[0..] == ts;
      i := i + 1;
      while i != |ts|
        invariant 1 <= i <= |ts|
        invariant Joined(ts, d) == if i == |ts| then result else result + d + Joined(ts[i..], d)
      {
        assert ts[i..][1..] == ts[i + 1..];
        result := result + d + ts[i];
        i := i + 1;
      }
    }
  }

  /** `replace`: its own search loop, without the list of pieces. An empty pattern leaves the source alone. */
  method Replace(s: bytes, a: bytes, b: bytes) returns (result: bytes)
    ensures result == if a == [] then s else Joined(Pieces(s, a, 0), b)
  {
    if a == [] {
      return s;
    }
    hide Find, Pieces, Joined;
    result := [];
    var pos := 0;
    var done := false;
    ghost var whole := Joined(Pieces(s, a, 0), b);
    assert [] + whole == whole;
    while !done
      invariant !done ==> pos <= |s| && result + Joined(Pieces(s, a, pos), b) == whole
      invariant done ==> result == whole
      decreases if done then 0 else 1, |s| - pos
    {
      var oldPos := pos;
      var found := Find(s, a, oldPos);
      pos := if found == None then |s| else found.value;
      if found == None {
        LastJoined(s, a, oldPos, b);
      } else {
        NextJoined(s, a, oldPos, b, result);
      }
      result := result + s[oldPos..pos];
      if pos >= |s| {
        done := true;
      } else {
        result := result + b;
        pos := pos + |a|;
      }
    }
  }

  lemma LastJoined(s: bytes, a: bytes, pos: nat, b: bytes)
    requires a != [] && pos <= |s| && Find(s, a, pos) == None
    ensures Joined(Pieces(s, a, pos), b) == s[pos..|s|]
  {
    LastPiece(s, a, pos);
  }

  lemma {:induction false} NextJoined(s: bytes, a: bytes, pos: nat, b: bytes, before: bytes)
    requires a != [] && pos <= |s| && Find(s, a, pos).Some?
    ensures var p := Find(s, a, pos).value;
            before + Joined(Pieces(s, a, pos), b) == before + s[pos..p] + b + Joined(Pieces(s, a, p + |a|), b)
  {
    hide Find, Pieces;
    NextPiece(s, a, pos);
    var p := Find(s, a, pos).value;
    var rest := Pieces(s, a, p + |a|);
    assert ([s[pos..p]] + rest)[1..] == rest;
    RegroupLeft(before, s[pos..p], b, Joined(rest, b));
  }

  // --- Laws ---

  /** Joining the pieces with the delimiter they were split at gives the string back. */
  lemma {:induction false} JoinUndoesSplit(s: bytes, d: bytes, pos: nat)
    requires d != [] && pos <= |s|
    ensures Joined(Pieces(s, d, pos), d) == s[pos..]
    decreases |s| - pos
  {
    match Find(s, d, pos)
    case None =>
    case Some(p) =>
      FindIsLeftmost(s, d, pos);
      JoinUndoesSplit(s, d, p + |d|);
      assert Pieces(s, d, pos)[1..] == Pieces(s, d, p + |d|);
      ThreeParts(s, pos, p, p + |d|);
  }

  lemma ThreeParts(s: bytes, i: nat, j: nat, k: nat)
    requires i <= j <= k <= |s|
    ensures s[i..] == s[i..j] + s[j..k] + s[k..]
  {
  }

  lemma SliceOfSuffix(s: bytes, pos: nat, i: nat, j: nat)
    requires pos <= i <= j <= |s|
    ensures s[pos..][i - pos..j - pos] == s[i..j] && s[pos..][i - pos..] == s[i..]
  {
  }

  /** Replacing a pattern by itself changes nothing. */
  lemma {:induction false} ReplaceBySame(s: bytes, a: bytes)
    requires a != []
    ensures Joined(Pieces(s, a, 0), a) == s
  {
    JoinUndoesSplit(s, a, 0);
    assert s[0..] == s;
  }

  /** No piece holds the delimiter, and none but the last makes one earlier together with the delimiter behind it. */
  ghost predicate Separable(ts: seq<bytes>, d: bytes) {
    && ts != []
    && Find(ts[|ts| - 1], d, 0) == None
    && forall i :: 0 <= i < |ts| - 1 ==> Find(ts[i] + d, d, 0) == Some(|ts[i]|)
  }

  /** The search only looks at what lies behind its start. */
  lemma {:induction false} FindInSuffix(s: bytes, d: bytes, pos: nat, from: nat)
    requires pos <= from && pos <= |s|
    ensures Find(s, d, from) == None <==> Find(s[pos..], d, from - pos) == None
    ensures Find(s, d, from).Some? ==> Find(s[pos..], d, from - pos) == Some(Find(s, d, from).value - pos)
    decreases |s| - from
  {
    if from + |d| <= |s| {
      assert s[pos..][from - pos..from - pos + |d|] == s[from..from + |d|];
      if !MatchAt(s, d, from) {
        FindInSuffix(s, d, pos, from + 1);
      }
    }
  }

  /** A first match is found in any string that goes on behind it. */
  lemma {:induction false} FindInPrefix(t: bytes, rest: bytes, d: bytes, from: nat)
    requires Find(t, d, from).Some?
    ensures Find(t + rest, d, from) == Find(t, d, from)
    decreases |t| - from
  {
    assert from + |d| <= |t|;
    assert (t + rest)[from..from + |d|] == t[from..from + |d|];
    if !MatchAt(t, d, from) {
      FindInPrefix(t, rest, d, from + 1);
    }
  }

  lemma {:induction false} PiecesOfSuffix(s: bytes, d: bytes, pos: nat, from: nat)
    requires d != [] && pos <= from <= |s|
    ensures Pieces(s, d, from) == Pieces(s[pos..], d, from - pos)
    decreases |s| - from
  {
    hide Find, Pieces;
    var u := s[pos..];
    FindInSuffix(s, d, pos, from);
    match Find(s, d, from)
    case None =>
      LastPiece(s, d, from);
      LastPiece(u, d, from - pos);
      SliceOfSuffix(s, pos, from, from);
    case Some(p) =>
      NextPiece(s, d, from);
      NextPiece(u, d, from - pos);
      SliceOfSuffix(s, pos, from, p);
      PiecesOfSuffix(s, d, pos, p + |d|);
  }

  lemma LastPiece(s: bytes, d: bytes, pos: nat)
    requires d != [] && pos <= |s| && Find(s, d, pos) == None
    ensures Pieces(s, d, pos) == [s[pos..]]
  {
  }

  lemma NextPiece(s: bytes, d: bytes, pos: nat)
    requires d != [] && pos <= |s| && Find(s, d, pos).Some?
    ensures var p := Find(s, d, pos).value;
            Pieces(s, d, pos) == [s[pos..p]] + Pieces(s, d, p + |d|)
  {
  }

  /** The pieces of any string are separable. */
  lemma {:induction false} PiecesAreSeparable(s: bytes, d: bytes)
    requires d != []
    ensures Separable(Pieces(s, d, 0), d)
    decreases |s|
  {
    hide Find, Pieces, Separable;
    match Find(s, d, 0)
    case None =>
      LastPiece(s, d, 0);
      assert s[0..] == s;
      SeparableOne(s, d);
    case Some(p) =>
      var rest := s[p + |d|..];
      NextPiece(s, d, 0);
      PiecesOfSuffix(s, d, p + |d|, p + |d|);
      PiecesAreSeparable(rest, d);
      FirstPiece(s, d, p);
      SeparableCons(s[0..p], Pieces(rest, d, 0), d);
  }

  lemma SeparableOne(t: bytes, d: bytes)
    requires Find(t, d, 0) == None
    ensures Separable([t], d)
  {
  }

  lemma SeparableCons(t: bytes, us: seq<bytes>, d: bytes)
    requires Separable(us, d) && Find(t + d, d, 0) == Some(|t|)
    ensures Separable([t] + us, d)
  {
    hide Find;
    var ts := [t] + us;
    forall i | 0 <= i < |ts| - 1 ensures Find(ts[i] + d, d, 0) == Some(|ts[i]|) {
      assert i > 0 ==> ts[i] == us[i - 1];
    }
  }

  lemma {:induction false} FirstPiece(s: bytes, d: bytes, p: nat)
    requires Find(s, d, 0) == Some(p)
    ensures Find(s[0..p] + d, d, 0) == Some(p)
  {
    hide Find;
    var t := s[0..p] + d;
    FindIsLeftmost(s, d, 0);
    FindIsLeftmost(t, d, 0);
    assert t == s[..p + |d|];
    assert MatchAt(t, d, p);
    forall q | 0 <= q < p ensures !MatchAt(t, d, q) {
      assert !MatchAt(s, d, q);
      assert q + |d| <= |t| ==> t[q..q + |d|] == s[q..q + |d|];
    }
  }

  /** Splitting undoes joining exactly for the separable lists: for them, and for no others, both are inverse. */
  lemma {:induction false} SplitUndoesJoin(ts: seq<bytes>, d: bytes)
    requires d != []
    ensures Pieces(Joined(ts, d), d, 0) == ts <==> Separable(ts, d)
  {
    if Pieces(Joined(ts, d), d, 0) == ts {
      PiecesAreSeparable(Joined(ts, d), d);
    }
    if Separable(ts, d) {
      SplitOfSeparable(ts, d);
    }
  }

  lemma {:induction false} SplitOfSeparable(ts: seq<bytes>, d: bytes)
    requires d != [] && Separable(ts, d)
    ensures Pieces(Joined(ts, d), d, 0) == ts
  {
    var s := Joined(ts, d);
    if |ts| == 1 {
      assert s[0..] == s;
    } else {
      var t, rest := ts[0], Joined(ts[1..], d);
      SeparableTail(ts, d);
      SplitOfSeparable(ts[1..], d);
      FirstOfJoin(t, d, rest);
      assert ts == [t] + ts[1..];
    }
  }

  lemma {:induction false} SeparableTail(ts: seq<bytes>, d: bytes)
    requires Separable(ts, d) && |ts| > 1
    ensures Separable(ts[1..], d) && Find(ts[0] + d, d, 0) == Some(|ts[0]|)
  {
    var us := ts[1..];
    forall i | 0 <= i < |us| - 1 ensures Find(us[i] + d, d, 0) == Some(|us[i]|) {
      assert us[i] == ts[i + 1];
    }
  }

  lemma {:induction false} FirstOfJoin(t: bytes, d: bytes, rest: bytes)
    requires d != [] && Find(t + d, d, 0) == Some(|t|)
    ensures Pieces(t + d + rest, d, 0) == [t] + Pieces(rest, d, 0)
  {
    hide Find, Pieces;
    var s := t + d + rest;
    FindInPrefix(t + d, rest, d, 0);
    NextPiece(s, d, 0);
    PiecesOfSuffix(s, d, |t| + |d|, |t| + |d|);
    assert s[|t| + |d|..] == rest;
    assert s[0..|t|] == t;
  }

  /** With an empty delimiter every search succeeds on the spot: the loop of `split` would never advance. */
  lemma EmptyDelimiterStays(s: bytes, pos: nat)
    requires pos <= |s|
    ensures Find(s, [], pos) == Some(pos)
  {
    assert s[pos..pos] == [];
  }
}

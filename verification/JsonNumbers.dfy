/**
 * JSON number text: printing of 64-bit integers, the number literals of the lexer, and `strtoll`.
 */
module JsonNumbers {
  import opened Base

  const MINUS: byte := 45
  const PLUS: byte := 43
  const POINT: byte := 46
  const ZERO: byte := 48

  predicate IsDigit(c: byte) {
    48 <= c < 58
  }

  predicate IsExponentMark(c: byte) {
    c == 69 || c == 101
  }

  predicate AllDigits(s: bytes) {
    forall i :: 0 <= i < |s| ==> IsDigit(s[i])
  }

  /** What remains of `s` after its longest prefix of digits. */
  function SkipDigits(s: bytes): (r: bytes)
    ensures |r| <= |s| && r == s[|s| - |r|..] && AllDigits(s[..|s| - |r|])
    ensures r == [] || !IsDigit(r[0])
  {
    if s == [] || !IsDigit(s[0]) then s
    else
      var r := SkipDigits(s[1..]);
      OneMoreDigit(s, r);
      r
  }

  lemma {:induction false} OneMoreDigit(s: bytes, r: bytes)
    requires s != [] && IsDigit(s[0]) && |r| < |s|
    requires r == s[1..][|s| - 1 - |r|..] && AllDigits(s[1..][..|s| - 1 - |r|])
    ensures r == s[|s| - |r|..] && AllDigits(s[..|s| - |r|])
  {
    var n := |s| - |r|;
    assert s[1..][n - 1..] == s[n..];
    forall i | 0 <= i < n ensures IsDigit(s[..n][i]) {
      if i > 0 {
        assert s[i] == s[1..][..n - 1][i - 1];
      }
    }
  }

  lemma {:induction false} SkipAllDigits(d: bytes, rest: bytes)
    requires AllDigits(d) && (rest == [] || !IsDigit(rest[0]))
    ensures SkipDigits(d + rest) == rest
  {
    if d == [] {
      assert d + rest == rest;
    } else {
      assert (d + rest)[1..] == d[1..] + rest;
      SkipAllDigits(d[1..], rest);
    }
  }

  // --- Literals ---

  function Unsigned(s: bytes): bytes {
    if s != [] && s[0] == MINUS then s[1..] else s
  }

  /** What remains of `s` after an integer part: a lone zero, or digits that do not start with zero. */
  function AfterInteger(s: bytes): Option<bytes> {
    var u := Unsigned(s);
    if u == [] || !IsDigit(u[0]) then None
    else if u[0] == ZERO then Some(u[1..])
    else Some(SkipDigits(u))
  }

  predicate IsInteger(s: bytes) {
    AfterInteger(s) == Some([])
  }

  predicate IsExponent(s: bytes) {
    s != [] && IsExponentMark(s[0]) && IsExponentTail(s[1..])
  }

  predicate IsExponentTail(s: bytes) {
    var d := if s != [] && (s[0] == PLUS || s[0] == MINUS) then s[1..] else s;
    d != [] && AllDigits(d)
  }

  /** A fraction, which may have no digit, an exponent, or both. */
  predicate IsFraction(s: bytes) {
    s != [] && s[0] == POINT && (var e := SkipDigits(s[1..]); e == [] || IsExponent(e))
  }

  predicate IsFloat(s: bytes) {
    match AfterInteger(s)
    case None => false
    case Some(r) => IsExponent(r) || IsFraction(r)
  }

  /** The literal `1e999`, beyond every double. */
  const HUGE: bytes := [49, 101, 57, 57, 57]

  lemma {:induction false} HugeIsFloat()
    ensures IsFloat(HUGE)
  {
    hide SkipDigits;
    var one, rest: bytes := [49], [101, 57, 57, 57];
    SkipAllDigits(one, rest);
    assert one + rest == HUGE;
    assert rest[1..] == [57, 57, 57];
  }

  // --- Printing ---

  function NatText(n: nat): bytes {
    if n < 10 then [ZERO + n] else NatText(n / 10) + [ZERO + n % 10]
  }

  /** `os << int64_t`. */
  function IntText(i: int): bytes {
    if i < 0 then [MINUS] + NatText(-i) else NatText(i)
  }

  // --- Reading ---

  function DigitsValue(s: bytes): nat
    requires AllDigits(s)
  {
    if s == [] then 0 else DigitsValue(s[..|s| - 1]) * 10 + (s[|s| - 1] - 48)
  }

  /** The number an integer literal denotes. */
  function IntegerValue(s: bytes): int
    requires IsInteger(s)
  {
    IntegerIsDigits(s);
    var n: int := DigitsValue(Unsigned(s));
    if s[0] == MINUS then -n else n
  }

  lemma IntegerIsDigits(s: bytes)
    requires IsInteger(s)
    ensures s != [] && Unsigned(s) != [] && AllDigits(Unsigned(s))
  {
    var u := Unsigned(s);
    assert u[..|u|] == u;
  }

  function Saturate(n: int): int64 {
    if n < INT64_MIN then INT64_MIN else if n > INT64_MAX then INT64_MAX else n
  }

  /** `isspace` in the C locale. */
  predicate IsSpace(c: byte) {
    9 <= c < 14 || c == 32
  }

  /** `strtoll(s, nullptr, 10)`: leading space, an optional sign, the longest run of digits, saturation. */
  function Strtoll(s: bytes): int64 {
    if s != [] && IsSpace(s[0]) then Strtoll(s[1..])
    else
      var negative := s != [] && s[0] == MINUS;
      var u := if s != [] && (s[0] == MINUS || s[0] == PLUS) then s[1..] else s;
      var n: int := LeadingValue(u);
      Saturate(if negative then -n else n)
  }

  /** The value of the longest prefix of digits. */
  function LeadingValue(u: bytes): nat {
    DigitsValue(u[..|u| - |SkipDigits(u)|])
  }

  // --- Laws ---

  /** `strtoll` started at an integer literal reads that literal and no more, if no digit follows it. */
  lemma {:induction false} StrtollReadsLiteral(s: bytes, rest: bytes)
    requires IsInteger(s)
    requires rest == [] || !IsDigit(rest[0])
    ensures Strtoll(s + rest) == Saturate(IntegerValue(s))
  {
    hide Strtoll, SkipDigits, DigitsValue, LeadingValue, Saturate, IsInteger;
    IntegerIsDigits(s);
    LeadingValueOfDigits(Unsigned(s), rest);
    StrtollAt(s + rest);
    if s[0] == MINUS {
      assert (s + rest)[1..] == s[1..] + rest;
    }
  }

  lemma StrtollAt(t: bytes)
    requires t != [] && (t[0] == MINUS || IsDigit(t[0]))
    ensures t[0] == MINUS ==> Strtoll(t) == Saturate(-(LeadingValue(t[1..]) as int))
    ensures t[0] != MINUS ==> Strtoll(t) == Saturate(LeadingValue(t))
  {
  }

  lemma {:induction false} LeadingValueOfDigits(d: bytes, rest: bytes)
    requires AllDigits(d) && (rest == [] || !IsDigit(rest[0]))
    ensures LeadingValue(d + rest) == DigitsValue(d)
  {
    SkipAllDigits(d, rest);
    assert (d + rest)[..|d|] == d;
  }

  lemma {:induction false} NatTextReads(n: nat)
    ensures var t := NatText(n); t != [] && AllDigits(t) && DigitsValue(t) == n && (t[0] == ZERO <==> n == 0)
  {
    if n >= 10 {
      NatTextReads(n / 10);
      var t := NatText(n / 10);
      assert (t + [ZERO + n % 10])[..|t|] == t;
    } else {
      assert DigitsValue([]) == 0;
      assert NatText(n)[..0] == [];
    }
  }

  /** Every printed integer is an integer literal, and reads back as itself. */
  lemma IntTextReads(i: int)
    ensures IsInteger(IntText(i))
    ensures IntegerValue(IntText(i)) == i
  {
    var n: nat := if i < 0 then -i else i;
    var t := NatText(n);
    NatTextReads(n);
    assert Unsigned(IntText(i)) == t;
    SkipAllDigits(t, []);
    assert t + [] == t;
    if n == 0 {
      assert t == [ZERO];
    }
  }

  /** Printing a 64-bit integer and reading it with `strtoll` restores it, whatever non-digit follows. */
  lemma PrintedIntReadsBack(i: int64, rest: bytes)
    requires rest == [] || !IsDigit(rest[0])
    ensures Strtoll(IntText(i) + rest) == i
  {
    IntTextReads(i);
    StrtollReadsLiteral(IntText(i), rest);
  }

  // --- The decimal digits of the text ---

  function Pow10(k: nat): (p: nat)
    ensures p > 0
  {
    if k == 0 then 1 else 10 * Pow10(k - 1)
  }

  lemma {:induction false} DivideByTen(n: nat, m: nat)
    requires m > 0
    ensures n / (10 * m) == n / 10 / m
  {
    var q, r, d := n / 10 / m, n / 10 % m, n % 10;
    assert n == 10 * (q * m + r) + d;
    assert n == (10 * m) * q + (10 * r + d) && 10 * r + d < 10 * m;
    QuotientIsUnique(n, 10 * m, q, 10 * r + d);
  }

  lemma {:induction false} QuotientIsUnique(n: nat, m: nat, q: nat, r: nat)
    requires r < m && n == m * q + r
    ensures n / m == q
  {
    var p := n / m;
    assert n == m * p + n % m;
    if p < q {
      Scaled(m, p + 1, q);
    } else if q < p {
      Scaled(m, q + 1, p);
    }
  }

  lemma {:induction false} Scaled(m: nat, a: nat, b: nat)
    requires a <= b
    ensures m * a <= m * b
  {
  }

  /** The text of a number is its decimal digits, the lowest last, without a leading zero. */
  lemma {:induction false} NatTextIsDecimal(n: nat, k: nat)
    ensures var t := NatText(n);
            && (k < |t| ==> t[|t| - 1 - k] == 48 + n / Pow10(k) % 10)
            && |t| >= 1 && n < Pow10(|t|) && (|t| > 1 ==> Pow10(|t| - 1) <= n)
  {
    if n >= 10 {
      var t := NatText(n / 10);
      if k > 0 {
        NatTextIsDecimal(n / 10, k - 1);
        DivideByTen(n, Pow10(k - 1));
      } else {
        NatTextIsDecimal(n / 10, 0);
      }
    } else if k == 0 {
      assert Pow10(0) == 1 && Pow10(1) == 10;
    } else {
      assert Pow10(1) == 10 * Pow10(0);
    }
  }

  /** A negative number has the sign 45 in front of the text of its magnitude. */
  lemma {:induction false} IntTextIsSigned(i: int)
    ensures IntText(i) == if i < 0 then [45] + NatText(-i) else NatText(i)
  {
  }

  /** A literal beyond 64 bits is read as the nearest bound. */
  lemma {:induction false} OverflowIsBound(s: bytes, rest: bytes)
    requires IsInteger(s) && (rest == [] || !IsDigit(rest[0]))
    ensures -0x8000_0000_0000_0000 <= IntegerValue(s) <= 0x7fff_ffff_ffff_ffff ==> Strtoll(s + rest) == IntegerValue(s)
    ensures IntegerValue(s) > 0x7fff_ffff_ffff_ffff ==> Strtoll(s + rest) == 0x7fff_ffff_ffff_ffff
    ensures IntegerValue(s) < -0x8000_0000_0000_0000 ==> Strtoll(s + rest) == -0x8000_0000_0000_0000
  {
    hide Strtoll, IsInteger, IntegerValue;
    StrtollReadsLiteral(s, rest);
  }

  /** `strtoll` passes over the six space characters of the C locale, and over a plus. */
  lemma {:induction false} StrtollPassesOver(c: byte, d: bytes)
    requires d != [] && AllDigits(d)
    ensures c in {9, 10, 11, 12, 13, 32, 43} ==> Strtoll([c] + d) == Strtoll(d) == Saturate(DigitsValue(d))
  {
    hide DigitsValue, Saturate;
    LeadingValueOfDigits(d, []);
    assert d + [] == d && ([c] + d)[1..] == d;
  }
}

/**
 * JSON string text: escaping on output, unescaping on input, and the body language between them.
 */
module JsonStrings {
  import opened Base

  const QUOTE: byte := 34
  const BACKSLASH: byte := 92
  const SLASH: byte := 47
  const LETTER_U: byte := 117

  // --- Escaping ---

  /** What `append_string` writes for one character. */
  function EscapeByte(c: byte): bytes {
    if c == 8 then [BACKSLASH, 98]
    else if c == 12 then [BACKSLASH, 102]
    else if c == 10 then [BACKSLASH, 110]
    else if c == 13 then [BACKSLASH, 114]
    else if c == 9 then [BACKSLASH, 116]
    else if c == BACKSLASH then [BACKSLASH, BACKSLASH]
    else if c == QUOTE then [BACKSLASH, QUOTE]
    else [c]
  }

  function Escape(s: bytes): bytes {
    if s == [] then [] else EscapeByte(s[0]) + Escape(s[1..])
  }

  /** A string literal: the escaped text between double quotes. */
  function Quoted(s: bytes): bytes {
    [QUOTE] + Escape(s) + [QUOTE]
  }

  // --- Unescaping ---

  predicate IsHex(c: byte) {
    48 <= c < 58 || 65 <= c < 71 || 97 <= c < 103
  }

  function HexDigit(c: byte): (d: nat)
    requires IsHex(c)
    ensures d < 16
  {
    if c < 58 then c - 48 else if c < 71 then 10 + (c - 65) else 10 + (c - 97)
  }

  /** The number written by the four digits at the front of `b`. */
  function HexCode(b: bytes): (code: nat)
    requires |b| >= 4 && forall i :: 0 <= i < 4 ==> IsHex(b[i])
    ensures code < 0x10000
  {
    ((HexDigit(b[0]) * 16 + HexDigit(b[1])) * 16 + HexDigit(b[2])) * 16 + HexDigit(b[3])
  }

  /** The bytes appended for a code written with four hexadecimal digits. */
  function EncodeCode(code: nat): bytes
    requires code < 0x10000
  {
    if code <= 0x7f then [code]
    else if code <= 0x7ff then [0xc0 + code / 64, 0x80 + code % 64]
    else [0xe0 + code / 4096, 0x80 + code / 64 % 64, 0x80 + code % 64]
  }

  /** The single-character escapes the decoder knows. There is no case for a slash. */
  function SimpleEscape(c: byte): Option<byte> {
    if c == 98 then Some(8)
    else if c == 102 then Some(12)
    else if c == 110 then Some(10)
    else if c == 114 then Some(13)
    else if c == 116 then Some(9)
    else if c == BACKSLASH then Some(BACKSLASH)
    else if c == QUOTE then Some(QUOTE)
    else None
  }

  /** The text a literal's body stands for; `None` where the decoder runs into an assertion. */
  function Unescape(b: bytes): Option<bytes> {
    if b == [] then Some([])
    else if b[0] != BACKSLASH then Prefixed([b[0]], Unescape(b[1..]))
    else if |b| == 1 then None
    else if b[1] == LETTER_U then
      if |b| >= 6 && forall i :: 2 <= i < 6 ==> IsHex(b[i])
      then Prefixed(EncodeCode(HexCode(b[2..6])), Unescape(b[6..]))
      else None
    else
      match SimpleEscape(b[1])
      case None => None
      case Some(c) => Prefixed([c], Unescape(b[2..]))
  }

  function Prefixed(p: bytes, rest: Option<bytes>): Option<bytes> {
    match rest
    case None => None
    case Some(s) => Some(p + s)
  }

  /** The bodies of the string literals that the lexer accepts. */
  predicate StringBody(b: bytes) {
    b == []
    || (b[0] != 0 && b[0] != QUOTE && b[0] != BACKSLASH && StringBody(b[1..]))
    || (b[0] == BACKSLASH && |b| >= 2 && (SimpleEscape(b[1]) != None || b[1] == SLASH) && StringBody(b[2..]))
    || (b[0] == BACKSLASH && |b| >= 6 && b[1] == LETTER_U && (forall i :: 2 <= i < 6 ==> IsHex(b[i]))
        && StringBody(b[6..]))
  }

  /** Somewhere in the body, outside any other escape, a slash is escaped. */
  predicate EscapesSlash(b: bytes) {
    b != [] && (
      if b[0] != BACKSLASH then EscapesSlash(b[1..])
      else if |b| == 1 then false
      else if b[1] == SLASH then true
      else if b[1] == LETTER_U then |b| >= 6 && EscapesSlash(b[6..])
      else EscapesSlash(b[2..]))
  }

  // --- Laws ---

  /** Lexer and decoder agree: on an accepted body the decoder fails exactly when a slash is escaped. */
  lemma {:induction false} DecoderCoversLexer(b: bytes)
    requires StringBody(b)
    ensures Unescape(b) == None <==> EscapesSlash(b)
  {
    if b == [] {
    } else if b[0] != BACKSLASH {
      DecoderCoversLexer(b[1..]);
    } else if b[1] == LETTER_U {
      DecoderCoversLexer(b[6..]);
    } else if b[1] != SLASH {
      DecoderCoversLexer(b[2..]);
    }
  }

  predicate NulFree(s: bytes) {
    0 !in s
  }

  lemma {:induction false} UnescapeEscape(s: bytes)
    ensures Unescape(Escape(s)) == Some(s)
  {
    if s != [] {
      var e, r := EscapeByte(s[0]), Escape(s[1..]);
      UnescapeEscape(s[1..]);
      assert (e + r)[|e|..] == r;
      assert s == [s[0]] + s[1..];
    }
  }

  /** Escaping yields a body the lexer accepts exactly when the text has no NUL. */
  lemma {:induction false} EscapeIsBody(s: bytes)
    ensures StringBody(Escape(s)) <==> NulFree(s)
  {
    if s != [] {
      var e, r := EscapeByte(s[0]), Escape(s[1..]);
      EscapeIsBody(s[1..]);
      assert (e + r)[|e|..] == r;
      assert s == [s[0]] + s[1..];
    }
  }

  /** The number in a sequence of at most three octets, put together as section 3 of RFC 3629 says. */
  function Utf8Number(s: bytes): Option<nat> {
    if |s| == 1 && s[0] < 0x80 then Some(s[0])
    else if |s| == 2 && 0xc0 <= s[0] < 0xe0 && IsTail(s[1]) then
      var a: int, b: int := s[0], s[1];
      AtLeast(0x80, (a - 0xc0) * 64 + (b - 0x80))
    else if |s| == 3 && 0xe0 <= s[0] < 0xf0 && IsTail(s[1]) && IsTail(s[2]) then
      var a: int, b: int, c: int := s[0], s[1], s[2];
      AtLeast(0x800, (a - 0xe0) * 4096 + (b - 0x80) * 64 + (c - 0x80))
    else None
  }

  /** A half of a surrogate pair is not a code point. */
  function Utf8CodePoint(s: bytes): Option<nat> {
    match Utf8Number(s)
    case Some(code) => if 0xd800 <= code < 0xe000 then None else Some(code)
    case None => None
  }

  predicate IsTail(c: byte) {
    0x80 <= c < 0xc0
  }

  /** Overlong forms are not UTF-8. */
  function AtLeast(low: nat, code: nat): Option<nat> {
    if low <= code then Some(code) else None
  }

  /**
   * A code is written as its UTF-8 encoding exactly when it is not one half of a surrogate pair; a half is
   * written as if it were a code point.
   */
  lemma {:induction false} EncodeCodeIsUtf8(code: nat)
    requires code < 0x10000
    ensures Utf8Number(EncodeCode(code)) == Some(code)
    ensures Utf8CodePoint(EncodeCode(code)) == Some(code) <==> !(0xd800 <= code < 0xe000)
  {
    var high, mid, low := code / 4096, code / 64 % 64, code % 64;
    assert code / 64 == high * 64 + mid;
    assert code == (high * 64 + mid) * 64 + low;
    if code > 0x7ff {
      assert EncodeCode(code) == [0xe0 + high, 0x80 + mid, 0x80 + low];
      assert high > 0 || mid >= 32;
    } else if code > 0x7f {
      assert EncodeCode(code) == [0xc0 + code / 64, 0x80 + low];
    }
  }

  // --- The code that four digits write ---

  /** A hexadecimal digit, in one case or the other. */
  function Digit16(d: nat, upper: bool): byte
    requires d < 16
  {
    if d < 10 then 48 + d else if upper then 55 + d else 87 + d
  }

  /** Four digits for a code, each in a case of its own. */
  function CodeText(code: nat, uppers: seq<bool>): bytes
    requires code < 0x10000 && |uppers| == 4
  {
    [Digit16(code / 4096, uppers[0]), Digit16(code / 256 % 16, uppers[1]), Digit16(code / 16 % 16, uppers[2]),
     Digit16(code % 16, uppers[3])]
  }

  lemma {:induction false} Digit16Reads(d: nat, upper: bool)
    requires d < 16
    ensures IsHex(Digit16(d, upper)) && HexDigit(Digit16(d, upper)) == d
  {
  }

  lemma {:induction false} CodeTextReads(code: nat, uppers: seq<bool>)
    requires code < 0x10000 && |uppers| == 4
    ensures var t := CodeText(code, uppers); |t| == 4 && (forall i :: 0 <= i < 4 ==> IsHex(t[i])) && HexCode(t) == code
  {
    hide IsHex, HexDigit, Digit16;
    Digit16Reads(code / 4096, uppers[0]);
    Digit16Reads(code / 256 % 16, uppers[1]);
    Digit16Reads(code / 16 % 16, uppers[2]);
    Digit16Reads(code % 16, uppers[3]);
    assert code / 16 == code / 256 * 16 + code / 16 % 16;
    assert code / 256 == code / 4096 * 16 + code / 256 % 16;
  }

  /** The escape of a code decodes to the octets of that code, whatever the case of its digits. */
  lemma {:induction false} CodeIsDecoded(code: nat, uppers: seq<bool>, rest: bytes)
    requires code < 0x10000 && |uppers| == 4
    ensures var octets := EncodeCode(code);
            && Utf8Number(octets) == Some(code)
            && Unescape([92, 117] + CodeText(code, uppers) + rest) ==
               if Unescape(rest).Some? then Some(octets + Unescape(rest).value) else None
  {
    hide EncodeCode, CodeText, HexCode, IsHex;
    EncodeCodeIsUtf8(code);
    CodeTextReads(code, uppers);
    var t := CodeText(code, uppers);
    var b := [92, 117] + t + rest;
    assert b[2..6] == t && b[6..] == rest;
    assert forall i :: 2 <= i < 6 ==> b[i] == t[i - 2];
  }

  /** Any four digits are such a text; the lexer admits no other bytes there. */
  lemma {:induction false} DigitsAreCodeText(t: bytes) returns (code: nat, uppers: seq<bool>)
    requires |t| == 4 && forall i :: 0 <= i < 4 ==> 48 <= t[i] < 58 || 65 <= t[i] < 71 || 97 <= t[i] < 103
    ensures code < 0x10000 && |uppers| == 4 && t == CodeText(code, uppers)
  {
    hide Digit16;
    var a := DigitOf(t[0]);
    var b := DigitOf(t[1]);
    var c := DigitOf(t[2]);
    var d := DigitOf(t[3]);
    code, uppers := a * 4096 + b * 256 + c * 16 + d, [t[0] < 71, t[1] < 71, t[2] < 71, t[3] < 71];
    assert code / 16 == a * 256 + b * 16 + c && code % 16 == d;
    assert code / 256 == a * 16 + b && code / 16 % 16 == c;
  }

  lemma {:induction false} DigitOf(c: byte) returns (d: nat)
    requires 48 <= c < 58 || 65 <= c < 71 || 97 <= c < 103
    ensures d < 16 && c == Digit16(d, c < 71)
  {
    d := if c < 58 then c - 48 else if c < 71 then c - 55 else c - 87;
  }

  // --- What escaping writes ---

  /** The bytes that are not written as they are. */
  predicate NeedsEscape(c: byte) {
    c in {8, 9, 10, 12, 13, 34, 92}
  }

  function CountEscaped(s: bytes): nat {
    if s == [] then 0 else (if NeedsEscape(s[0]) then 1 else 0) + CountEscaped(s[1..])
  }

  /** No control byte that has an escape is written raw, and each escape costs one byte more. */
  lemma {:induction false} EscapeWrites(s: bytes)
    ensures forall i :: 0 <= i < |Escape(s)| ==> Escape(s)[i] !in {8, 9, 10, 12, 13}
    ensures |Escape(s)| == |s| + CountEscaped(s)
  {
    if s != [] {
      EscapeWrites(s[1..]);
      var e, r := EscapeByte(s[0]), Escape(s[1..]);
      forall i | 0 <= i < |e + r| ensures (e + r)[i] !in {8, 9, 10, 12, 13} {
        if i < |e| {
          assert (e + r)[i] == e[i];
        } else {
          assert (e + r)[i] == r[i - |e|];
        }
      }
    }
  }

  lemma {:induction false} EscapeConcat(s: bytes, t: bytes)
    ensures Escape(s + t) == Escape(s) + Escape(t)
  {
    hide EscapeByte;
    if s == [] {
      assert s + t == t;
    } else {
      assert (s + t)[0] == s[0] && (s + t)[1..] == s[1..] + t;
      EscapeConcat(s[1..], t);
    }
  }

  lemma {:induction false} EscapeOne(c: byte)
    ensures Escape([c]) == EscapeByte(c)
  {
    assert [c][1..] == [];
  }

  /** The seven escapes, by section 7 of RFC 8259; any other byte stands for itself. */
  lemma {:induction false} EscapesByName(c: byte, rest: bytes)
    ensures Escape([8] + rest) == [92, 98] + Escape(rest) && Escape([9] + rest) == [92, 116] + Escape(rest)
    ensures Escape([10] + rest) == [92, 110] + Escape(rest) && Escape([12] + rest) == [92, 102] + Escape(rest)
    ensures Escape([13] + rest) == [92, 114] + Escape(rest)
    ensures Escape([34] + rest) == [92, 34] + Escape(rest) && Escape([92] + rest) == [92, 92] + Escape(rest)
    ensures c !in {8, 9, 10, 12, 13, 34, 92} ==> Escape([c] + rest) == [c] + Escape(rest)
  {
    hide Escape;
    forall d: byte ensures Escape([d] + rest) == EscapeByte(d) + Escape(rest) {
      EscapeConcat([d], rest);
      EscapeOne(d);
    }
  }
}

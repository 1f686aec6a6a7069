/**
 * The byte classes of the lexer, read off the automaton: which bytes it skips, and which it takes for digits,
 * signs, exponent marks, the point, hexadecimal digits and escapes.
 */
module JsonClasses {
  import opened Base
  import opened JsonTables
  import opened JsonLexer

  /** The last character, in the state that was entered on it. */
  lemma {:induction false} ScanLast(s: nat, c: byte)
    requires c != 0 && s != 0
    ensures Scan(s, [c]) == Lexeme(Final(s), 1)
  {
    if Next(s, 0).Some? {
      assert s == 2 && Scan(2, [c][1..]) == Lexeme(Final(2), 0);
    }
  }

  /** A character with another one behind it. */
  lemma {:induction false} ScanOn(s: nat, c: byte, d: byte, rest: bytes)
    requires c != 0
    ensures Next(s, d).None? ==> Scan(s, [c, d] + rest) == Lexeme(Final(s), 1)
    ensures Next(s, d).Some? ==>
              var r := Scan(Next(s, d).value, [d] + rest);
              Scan(s, [c, d] + rest) == Lexeme(r.term, r.length + 1)
  {
    hide Next, Final;
    assert ([c, d] + rest)[1..] == [d] + rest;
  }

  /** The bytes that are skipped. */
  lemma {:induction false} SkipBytes(c: byte, rest: bytes)
    ensures Lex([c] + rest).term == TSkip <==> 8 <= c < 14 || c == 32
  {
    var text := [c] + rest;
    if Next(0, c).Some? {
      SkipStays(Next(0, c).value, text);
    }
  }

  lemma {:induction false} SkipStays(s: nat, text: bytes)
    requires s != 0 && text != []
    ensures Scan(s, text).term == TSkip <==> s == 15
    decreases text
  {
    if text[0] != 0 {
      match Next(s, CharAt(text, 1))
      case Some(s') =>
        if text[1..] != [] {
          SkipStays(s', text[1..]);
        }
      case None =>
    }
  }

  /** One byte is an integer by itself when it is one of ten. */
  lemma {:induction false} DigitBytes(c: byte)
    ensures Lex([c]) == Lexeme(TInteger, 1) <==> 48 <= c < 58
  {
    if c != 0 && Next(0, c).Some? {
      ScanLast(Next(0, c).value, c);
    }
  }

  /** A minus may stand in front of an integer, and no other sign. */
  lemma {:induction false} SignBytes(c: byte)
    ensures Lex([c, 49]) == Lexeme(TInteger, 2) <==> c == 45 || 49 <= c < 58
  {
    if c != 0 && Next(0, c).Some? {
      var s := Next(0, c).value;
      ScanOn(s, c, 49, []);
      if Next(s, 49).Some? {
        ScanLast(Next(s, 49).value, 49);
      }
    }
  }

  /** What follows a one: the state entered on the next character, if there is one. */
  lemma {:induction false} BehindOne(c: byte, rest: bytes)
    ensures Next(6, c).None? ==> Lex([49, c] + rest) == Lexeme(TInteger, 1)
    ensures Next(6, c).Some? ==>
              var r := Scan(Next(6, c).value, [c] + rest);
              Lex([49, c] + rest) == Lexeme(r.term, r.length + 1)
  {
    ScanOn(6, 49, c, rest);
  }

  /** The point makes a float of an integer. */
  lemma {:induction false} PointByte(c: byte)
    ensures Lex([49, c]) == Lexeme(TFloat, 2) <==> c == 46
  {
    BehindOne(c, []);
    if Next(6, c).Some? {
      ScanLast(Next(6, c).value, c);
    }
  }

  /** So does an exponent mark with a digit behind it. */
  lemma {:induction false} ExponentBytes(c: byte)
    ensures Lex([49, c, 49]) == Lexeme(TFloat, 3) <==> c in {46, 69, 101}
  {
    BehindOne(c, [49]);
    assert [49, c] + [49] == [49, c, 49] && [c] + [49] == [c, 49];
    if Next(6, c).Some? {
      var s := Next(6, c).value;
      ScanOn(s, c, 49, []);
      if Next(s, 49).Some? {
        ScanLast(Next(s, 49).value, 49);
      }
    }
  }

  /** An exponent has one of two signs, or none. */
  lemma {:induction false} ExponentSignBytes(c: byte)
    ensures Lex([49, 101, c, 49]) == Lexeme(TFloat, 4) <==> c in {43, 45} || 48 <= c < 58
  {
    BehindOne(101, [c, 49]);
    assert [49, 101] + [c, 49] == [49, 101, c, 49] && [101] + [c, 49] == [101, c] + [49];
    ScanOn(19, 101, c, [49]);
    assert [c] + [49] == [c, 49];
    if c != 0 && Next(19, c).Some? {
      var s := Next(19, c).value;
      ScanOn(s, c, 49, []);
      if Next(s, 49).Some? {
        ScanLast(Next(s, 49).value, 49);
      }
    }
  }

  /** What follows the quote that opens a string. */
  lemma {:induction false} BehindQuote(c: byte, rest: bytes)
    ensures var r := Scan(Next(2, c).value, [c] + rest);
            Next(2, c).Some? && Lex([34, c] + rest) == Lexeme(r.term, r.length + 1)
  {
    ScanOn(2, 34, c, rest);
  }

  /** The bytes that stand for themselves inside a string. */
  lemma {:induction false} PlainBytes(c: byte)
    ensures Lex([34, c, 34]) == Lexeme(TString, 3) <==> c !in {0, 34, 92}
  {
    BehindQuote(c, [34]);
    assert [34, c] + [34] == [34, c, 34] && [c] + [34] == [c, 34];
    if c != 0 {
      var s := Next(2, c).value;
      ScanOn(s, c, 34, []);
      if Next(s, 34).Some? {
        ScanLast(Next(s, 34).value, 34);
      }
    }
  }

  /** The bytes that make an escape behind a backslash. */
  lemma {:induction false} EscapeBytes(c: byte)
    ensures Lex([34, 92, c, 34]) == Lexeme(TString, 4) <==> c in {34, 47, 92, 98, 102, 110, 114, 116}
  {
    BehindQuote(92, [c, 34]);
    assert [34, 92] + [c, 34] == [34, 92, c, 34] && [92] + [c, 34] == [92, c] + [34];
    ScanOn(17, 92, c, [34]);
    assert [c] + [34] == [c, 34];
    if Next(17, c).Some? {
      var s := Next(17, c).value;
      ScanOn(s, c, 34, []);
      if Next(s, 34).Some? {
        ScanLast(Next(s, 34).value, 34);
      }
    }
  }

  predicate IsHexByte(c: byte) {
    48 <= c <= 57 || 65 <= c <= 70 || 97 <= c <= 102
  }

  lemma {:induction false} HexStep(s: nat, c: byte, d: byte, rest: bytes)
    requires c != 0 && s in {23, 29, 33, 35}
    ensures var s' := if s == 23 then 29 else if s == 29 then 33 else if s == 33 then 35 else 2;
            var r := Scan(s', [d] + rest);
            Scan(s, [c, d] + rest) == if IsHexByte(d) then Lexeme(r.term, r.length + 1) else Lexeme(Unrecognized, 1)
  {
    ScanOn(s, c, d, rest);
  }

  /** The bytes that may stand in the four places behind an escaped `u`. */
  lemma {:induction false} HexBytes(a: byte, b: byte, c: byte, d: byte)
    ensures Lex([34, 92, 117, a, b, c, d, 34]) == Lexeme(TString, 8) <==>
            IsHexByte(a) && IsHexByte(b) && IsHexByte(c) && IsHexByte(d)
  {
    hide Next, IsHexByte;
    HexTail(a, b, c, d);
    var tail := [a, b, c, d, 34];
    assert [34, 92] + ([117] + tail) == [34, 92, 117, a, b, c, d, 34];
    UnicodeEscape(tail);
  }

  lemma {:induction false} UnicodeEscape(rest: bytes)
    ensures var r := Scan(23, [117] + rest);
            Lex([34, 92] + ([117] + rest)) == Lexeme(r.term, r.length + 2)
  {
    BehindQuote(92, [117] + rest);
    ScanOn(17, 92, 117, rest);
    assert [92] + ([117] + rest) == [92, 117] + rest;
  }

  lemma {:induction false} HexTail(a: byte, b: byte, c: byte, d: byte)
    ensures Scan(23, [117] + [a, b, c, d, 34]) == Lexeme(TString, 6) <==>
            IsHexByte(a) && IsHexByte(b) && IsHexByte(c) && IsHexByte(d)
  {
    hide Next;
    assert [117] + [a, b, c, d, 34] == [117, a] + [b, c, d, 34] && [a] + [b, c, d, 34] == [a, b] + [c, d, 34];
    assert [b] + [c, d, 34] == [b, c] + [d, 34] && [c] + [d, 34] == [c, d] + [34] && [d] + [34] == [d, 34];
    HexStep(23, 117, a, [b, c, d, 34]);
    if IsHexByte(a) {
      HexStep(29, a, b, [c, d, 34]);
      if IsHexByte(b) {
        HexStep(33, b, c, [d, 34]);
        if IsHexByte(c) {
          HexStep(35, c, d, [34]);
          if IsHexByte(d) {
            StringCloses(d);
          }
        }
      }
    }
  }

  lemma {:induction false} StringCloses(d: byte)
    requires d != 0
    ensures Scan(2, [d, 34]) == Lexeme(TString, 2)
  {
    ScanOn(2, d, 34, []);
    ScanLast(16, 34);
  }
}

/**
 * The hand-compiled lexer: its 36 states, the loop they form, and the literals they recognize.
 */
module JsonLexer {
  import opened Base
  import opened JsonStrings
  import opened JsonNumbers
  import opened JsonTables

  predicate IsSpaceByte(c: byte) {
    8 <= c < 14 || c == 32
  }

  /** The state entered from state `s` on character `c`. */
  function Next(s: nat, c: byte): Option<nat> {
    match s
    case 0 => NextOfStart(c)
    case 2 => if c == QUOTE then Some(16) else if c == BACKSLASH then Some(17) else Some(2)
    case 4 => if c == ZERO then Some(5) else if IsDigit(c) then Some(6) else None
    case 5 => if c == POINT then Some(18) else if IsExponentMark(c) then Some(19) else None
    case 6 =>
      if c == POINT then Some(18)
      else if IsDigit(c) then Some(6)
      else if IsExponentMark(c) then Some(19)
      else None
    case 10 => On(c, 97, 20)
    case 11 => On(c, 117, 21)
    case 12 => On(c, 114, 22)
    case 15 => if IsSpaceByte(c) then Some(15) else None
    case 17 => if SimpleEscape(c).Some? || c == SLASH then Some(2) else On(c, LETTER_U, 23)
    case 18 => if IsDigit(c) then Some(18) else if IsExponentMark(c) then Some(19) else None
    case 19 => if c == PLUS || c == MINUS then Some(24) else if IsDigit(c) then Some(25) else None
    case 20 => On(c, 108, 26)
    case 21 => On(c, 108, 27)
    case 22 => On(c, 117, 28)
    case 23 => if IsHex(c) then Some(29) else None
    case 24 => if IsDigit(c) then Some(25) else None
    case 25 => if IsDigit(c) then Some(25) else None
    case 26 => On(c, 115, 30)
    case 27 => On(c, 108, 31)
    case 28 => On(c, 101, 32)
    case 29 => if IsHex(c) then Some(33) else None
    case 30 => On(c, 101, 34)
    case 33 => if IsHex(c) then Some(35) else None
    case 35 => if IsHex(c) then Some(2) else None
    case _ => None
  }

  function NextOfStart(c: byte): Option<nat> {
    if c == 0 then Some(1)
    else if IsSpaceByte(c) then Some(15)
    else if c == QUOTE then Some(2)
    else if c == 44 then Some(3)
    else if c == MINUS then Some(4)
    else if c == ZERO then Some(5)
    else if IsDigit(c) then Some(6)
    else if c == 58 then Some(7)
    else if c == 91 then Some(8)
    else if c == 93 then Some(9)
    else if c == 102 then Some(10)
    else if c == 110 then Some(11)
    else if c == 116 then Some(12)
    else if c == 123 then Some(13)
    else if c == 125 then Some(14)
    else None
  }

  function On(c: byte, expected: byte, s: nat): Option<nat> {
    if c == expected then Some(s) else None
  }

  /** The terminal returned where state `s` cannot go on. */
  function Final(s: nat): Terminal {
    match s
    case 1 => TEnd
    case 3 => TComma
    case 5 => TInteger
    case 6 => TInteger
    case 7 => TColon
    case 8 => TLBracket
    case 9 => TRBracket
    case 13 => TLBrace
    case 14 => TRBrace
    case 15 => TSkip
    case 16 => TString
    case 18 => TFloat
    case 25 => TFloat
    case 31 => TNull
    case 32 => TTrue
    case 34 => TFalse
    case _ => Unrecognized
  }

  /** A terminal and the number of characters it takes. */
  datatype Lexeme = Lexeme(term: Terminal, length: nat)

  /** From state `s`, entered on the first character of `text`: a NUL is never consumed. */
  function Scan(s: nat, text: bytes): (r: Lexeme)
    ensures r.length <= |text|
    decreases |text|
  {
    if CharAt(text, 0) == 0 then Lexeme(Final(s), 0)
    else
      match Next(s, CharAt(text, 1))
      case None => Lexeme(Final(s), 1)
      case Some(s') => var r := Scan(s', text[1..]); Lexeme(r.term, r.length + 1)
  }

  /** `recognize_terminal` at the front of `text`. */
  function Lex(text: bytes): (r: Lexeme)
    ensures r.length <= |text|
  {
    match Next(0, CharAt(text, 0))
    case None => Lexeme(Unrecognized, 0)
    case Some(s) => Scan(s, text)
  }

  // --- The walk of a whole word ---

  function Run(s: nat, w: bytes): Option<nat>
    decreases w
  {
    if w == [] then Some(s)
    else
      match Next(s, w[0])
      case None => None
      case Some(s') => Run(s', w[1..])
  }

  /** The terminals that stand for some text. */
  predicate Proper(t: Terminal) {
    t != Unrecognized && t != TEnd
  }

  lemma NulIsNeverProper(s: nat, s': nat)
    requires Next(s, 0) == Some(s')
    ensures !Proper(Final(s'))
  {
  }

  /** `Scan` finds a terminal exactly where the walk of its text stops for good in an accepting state. */
  lemma {:induction false} ScanExact(s: nat, text: bytes, t: Terminal, n: nat)
    requires Proper(t)
    requires CharAt(text, 0) == 0 ==> !Proper(Final(s))
    ensures Scan(s, text) == Lexeme(t, n) <==>
            && 0 < n <= |text| && NulFree(text[..n])
            && Run(s, text[1..n]).Some?
            && var e := Run(s, text[1..n]).value; Final(e) == t && Next(e, CharAt(text, n)) == None
    decreases text
  {
    if CharAt(text, 0) == 0 {
      if 0 < n <= |text| {
        assert text[..n][0] == 0;
      }
    } else {
      assert text[..1] == [text[0]];
      match Next(s, CharAt(text, 1))
      case None =>
        if 1 < n <= |text| {
          assert text[1..n][0] == text[1];
        } else if n == 1 {
          assert text[1..1] == [];
        }
      case Some(s') =>
        if CharAt(text, 1) == 0 {
          NulIsNeverProper(s, s');
        }
        if n > 0 {
          assert |text| > 1 ==> text[1..][0] == text[1];
          ScanExact(s', text[1..], t, n - 1);
          ScanTail(s, s', text, n);
        }
    }
  }

  lemma {:induction false} ScanTail(s: nat, s': nat, text: bytes, n: nat)
    requires text != [] && text[0] != 0 && Next(s, CharAt(text, 1)) == Some(s') && n > 0
    ensures 1 < n <= |text| ==> Run(s, text[1..n]) == Run(s', text[1..][1..n - 1])
    ensures 1 < n <= |text| ==> (NulFree(text[..n]) <==> NulFree(text[1..][..n - 1]))
    ensures CharAt(text, n) == CharAt(text[1..], n - 1)
  {
    if 1 < n <= |text| {
      assert text[1..n][1..] == text[2..n] == text[1..][1..n - 1];
      assert text[1..n][0] == text[1];
      assert text[..n] == [text[0]] + text[1..][..n - 1];
    }
  }
}

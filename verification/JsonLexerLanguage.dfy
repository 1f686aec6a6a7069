/**
 * The lexer recognizes exactly the literals of each terminal, and stops exactly where no longer one can follow.
 */
module JsonLexerLanguage {
  import opened Base
  import opened JsonStrings
  import opened JsonNumbers
  import opened JsonTables
  import opened JsonLexer

  predicate IsStringLiteral(w: bytes) {
    |w| >= 2 && w[0] == QUOTE && w[|w| - 1] == QUOTE && StringBody(w[1..|w| - 1])
  }

  predicate IsSkip(w: bytes) {
    w != [] && forall i :: 0 <= i < |w| ==> 8 <= w[i] < 14 || w[i] == 32
  }

  /** The literals of a terminal. */
  predicate Literal(t: Terminal, w: bytes) {
    match t
    case TString => IsStringLiteral(w)
    case TInteger => IsInteger(w)
    case TFloat => IsFloat(w)
    case TSkip => IsSkip(w)
    case TTrue => w == [116, 114, 117, 101]
    case TFalse => w == [102, 97, 108, 115, 101]
    case TNull => w == [110, 117, 108, 108]
    case TLBrace => w == [123]
    case TRBrace => w == [125]
    case TLBracket => w == [91]
    case TRBracket => w == [93]
    case TComma => w == [44]
    case TColon => w == [58]
    case _ => false
  }

  /** A float literal whose last part is the fraction. */
  predicate EndsInFraction(w: bytes) {
    match AfterInteger(w)
    case None => false
    case Some(r) => r != [] && r[0] == POINT && SkipDigits(r[1..]) == []
  }

  /** The lexer goes on from a literal `w` of `t` when the next character is `c`. */
  predicate GoesOn(t: Terminal, w: bytes, c: byte) {
    match t
    case TSkip => 8 <= c < 14 || c == 32
    case TInteger =>
      c == POINT || IsExponentMark(c) || (IsDigit(c) && Unsigned(w) != [] && Unsigned(w)[0] != ZERO)
    case TFloat => IsDigit(c) || (IsExponentMark(c) && EndsInFraction(w))
    case _ => false
  }

  // --- Strings ---

  lemma {:induction false} RunHex(h: bytes)
    ensures |h| >= 4 && (forall i :: 0 <= i < 4 ==> IsHex(h[i])) ==> Run(23, h) == Run(2, h[4..])
    ensures !(|h| >= 4 && (forall i :: 0 <= i < 4 ==> IsHex(h[i]))) ==> Run(23, h) != Some(16)
  {
    if h != [] && IsHex(h[0]) {
      var h1 := h[1..];
      assert Run(23, h) == Run(29, h1);
      if h1 != [] && IsHex(h1[0]) {
        var h2 := h1[1..];
        assert Run(29, h1) == Run(33, h2);
        if h2 != [] && IsHex(h2[0]) {
          var h3 := h2[1..];
          assert Run(33, h2) == Run(35, h3);
          if h3 != [] && IsHex(h3[0]) {
            assert h3[1..] == h[4..];
          }
        }
      }
    }
  }

  /** After the opening quote: the walk ends behind a closing quote exactly when a body precedes it. */
  lemma {:induction false} RunBody(b: bytes)
    requires NulFree(b)
    ensures Run(2, b) == Some(16) <==> b != [] && b[|b| - 1] == QUOTE && StringBody(b[..|b| - 1])
    decreases |b|, 1
  {
    if b != [] {
      var body, r := b[..|b| - 1], b[1..];
      if b[0] == QUOTE {
        assert r == [] ==> body == [];
        assert r != [] ==> body[0] == QUOTE && Run(16, r) == None;
      } else if b[0] != BACKSLASH {
        assert Run(2, b) == Run(2, r);
        RunBody(r);
        assert r != [] ==> body[0] == b[0] && body[1..] == r[..|r| - 1];
      } else {
        assert Run(2, b) == Run(17, r);
        RunEscape(b);
      }
    }
  }

  lemma {:induction false} RunEscape(b: bytes)
    requires NulFree(b) && b != [] && b[0] == BACKSLASH
    ensures Run(17, b[1..]) == Some(16) <==> b != [] && b[|b| - 1] == QUOTE && StringBody(b[..|b| - 1])
    decreases |b|, 0
  {
    var body, r := b[..|b| - 1], b[1..];
    if r != [] {
      var c, q := r[0], r[1..];
      assert q == b[2..] && c == b[1];
      if SimpleEscape(c).Some? || c == SLASH {
        assert Run(17, r) == Run(2, q);
        RunBody(q);
        if q != [] {
          assert body[2..] == q[..|q| - 1] && body[0] == BACKSLASH && body[1] == c;
        } else {
          assert body == [BACKSLASH];
        }
      } else if c == LETTER_U {
        assert Run(17, r) == Run(23, q);
        RunHex(q);
        if |q| >= 4 && forall i :: 0 <= i < 4 ==> IsHex(q[i]) {
          var p := q[4..];
          assert p == b[6..];
          RunBody(p);
          assert forall i :: 2 <= i < 6 ==> b[i] == q[i - 2];
          if p != [] {
            assert body[6..] == p[..|p| - 1];
          }
        } else if |body| >= 6 {
          assert forall i :: 0 <= i < 4 ==> body[i + 2] == q[i];
        }
      }
    }
  }

  lemma {:induction false} BodyIsNulFree(b: bytes)
    requires StringBody(b)
    ensures NulFree(b)
  {
    if b != [] {
      var n := if b[0] != BACKSLASH then 1 else if b[1] == LETTER_U then 6 else 2;
      BodyIsNulFree(b[n..]);
      assert b == b[..n] + b[n..];
      assert forall i :: 0 <= i < n ==> b[i] != 0;
    }
  }

  // --- Numbers ---

  lemma DigitLoops(s: nat, c: byte)
    requires s in {6, 18, 25} && IsDigit(c)
    ensures Next(s, c) == Some(s)
  {
  }

  lemma {:induction false} RunDigits(s: nat, r: bytes)
    requires s in {6, 18, 25}
    ensures Run(s, r) == Run(s, SkipDigits(r))
  {
    hide Next;
    if r != [] && IsDigit(r[0]) {
      DigitLoops(s, r[0]);
    }
    if r != [] && IsDigit(r[0]) {
      RunDigits(s, r[1..]);
    }
  }

  lemma {:induction false} RunExponentDigits(d: bytes)
    ensures Run(25, d) == if AllDigits(d) then Some(25) else None
  {
    var r := SkipDigits(d);
    RunDigits(25, d);
    if r == [] {
      assert d[..|d|] == d;
    } else {
      assert d[|d| - |r|] == r[0];
    }
  }

  /** Behind the exponent mark. */
  lemma {:induction false} RunExponentTail(r: bytes)
    ensures Run(19, r) == Some(25) <==> IsExponentTail(r)
    ensures Run(19, r).Some? ==> Run(19, r).value in {19, 24, 25}
  {
    if r != [] {
      var d := r[1..];
      RunExponentDigits(d);
      if r[0] == PLUS || r[0] == MINUS {
        if d != [] {
          RunExponentDigits(d[1..]);
          assert AllDigits(d) <==> IsDigit(d[0]) && AllDigits(d[1..]);
        }
      } else {
        assert AllDigits(r) <==> IsDigit(r[0]) && AllDigits(d);
      }
    }
  }

  /** Behind the point. */
  lemma {:induction false} RunFraction(r: bytes)
    ensures Run(18, r) == Some(18) <==> SkipDigits(r) == []
    ensures Run(18, r) == Some(25) <==> IsExponent(SkipDigits(r))
    ensures Run(18, r).Some? ==> Run(18, r).value in {18, 19, 24, 25}
  {
    var e := SkipDigits(r);
    RunDigits(18, r);
    if e != [] {
      RunExponentTail(e[1..]);
    }
  }

  /** Behind the integer part. */
  lemma {:induction false} RunAfterInteger(r: bytes)
    requires r != []
    ensures Run(5, r) == Some(18) <==> r[0] == POINT && SkipDigits(r[1..]) == []
    ensures Run(5, r) == Some(25) <==> IsExponent(r) || (r[0] == POINT && IsExponent(SkipDigits(r[1..])))
    ensures Run(5, r).Some? ==> Run(5, r).value in {18, 19, 24, 25}
  {
    RunFraction(r[1..]);
    RunExponentTail(r[1..]);
  }

  lemma {:induction false} RunUnsigned(s: nat, u: bytes)
    requires s in {0, 4} && u != [] && IsDigit(u[0])
    ensures var r := if u[0] == ZERO then u[1..] else SkipDigits(u);
            Run(s, u) == if r == [] then Some(if u[0] == ZERO then 5 else 6) else Run(5, r)
  {
    if u[0] == ZERO {
      assert Run(s, u) == Run(5, u[1..]);
    } else {
      assert Run(s, u) == Run(6, u[1..]);
      RunDigits(6, u[1..]);
      var r := SkipDigits(u);
      assert r == SkipDigits(u[1..]);
      if r != [] {
        assert Next(6, r[0]) == Next(5, r[0]);
      }
    }
  }

  /** The walk of a word that starts like a number, by what follows its integer part. */
  lemma {:induction false} RunNumber(w: bytes)
    requires w != [] && (w[0] == MINUS || IsDigit(w[0]))
    ensures AfterInteger(w) == None ==> Run(0, w) == None || Run(0, w) == Some(4)
    ensures AfterInteger(w) == Some([]) ==> Run(0, w) == Some(if Unsigned(w)[0] == ZERO then 5 else 6)
    ensures AfterInteger(w).Some? && AfterInteger(w).value != [] ==> Run(0, w) == Run(5, AfterInteger(w).value)
  {
    var u := Unsigned(w);
    if w[0] == MINUS {
      assert Run(0, w) == Run(4, u);
      if u != [] && IsDigit(u[0]) {
        RunUnsigned(4, u);
      }
    } else {
      RunUnsigned(0, w);
    }
  }

  /** Numbers: what the final state says about the word, and on what it goes on. */
  lemma {:induction false} NumberLanguage(w: bytes, t: Terminal, c: byte)
    requires w != [] && (w[0] == MINUS || IsDigit(w[0])) && Proper(t)
    ensures Run(0, w).Some? && Final(Run(0, w).value) == t <==> Literal(t, w)
    ensures Literal(t, w) ==> (Next(Run(0, w).value, c).Some? <==> GoesOn(t, w, c))
  {
    NotOtherLiteral(w, t);
    RunNumber(w);
    if AfterInteger(w).Some? && AfterInteger(w).value != [] {
      FloatLanguage(w, AfterInteger(w).value, t, c);
    } else {
      assert !IsFloat(w);
      assert t == TInteger && AfterInteger(w).Some? ==> Unsigned(w) != [];
    }
  }

  lemma {:induction false} FloatStates(w: bytes, r: bytes)
    requires r != [] && AfterInteger(w) == Some(r)
    ensures Run(5, r) == Some(18) <==> EndsInFraction(w)
    ensures Run(5, r) == Some(25) <==> IsFloat(w) && !EndsInFraction(w)
    ensures EndsInFraction(w) ==> IsFloat(w)
    ensures Run(5, r).Some? ==> Run(5, r).value in {18, 19, 24, 25}
  {
    RunAfterInteger(r);
    assert IsExponent(r) ==> r[0] != POINT;
    assert !IsExponent([]);
  }

  lemma {:induction false} FloatLanguage(w: bytes, r: bytes, t: Terminal, c: byte)
    requires r != [] && AfterInteger(w) == Some(r) && Proper(t)
    ensures Run(5, r).Some? && Final(Run(5, r).value) == t <==> t == TFloat && IsFloat(w)
    ensures IsFloat(w) ==> Run(5, r).Some? && (Next(Run(5, r).value, c).Some? <==> GoesOn(TFloat, w, c))
  {
    FloatStates(w, r);
  }

  lemma NotOtherLiteral(w: bytes, t: Terminal)
    requires w != [] && (w[0] == MINUS || IsDigit(w[0]))
    ensures Literal(t, w) ==> t == TInteger || t == TFloat
  {
  }

  // --- The other terminals ---

  lemma NumbersBegin(w: bytes)
    requires w != [] && w[0] != MINUS && !IsDigit(w[0])
    ensures !IsInteger(w) && !IsFloat(w)
  {
  }

  lemma {:induction false} RunSpaces(r: bytes)
    ensures Run(15, r) == if (forall i :: 0 <= i < |r| ==> IsSpaceByte(r[i])) then Some(15) else None
  {
    if r != [] {
      RunSpaces(r[1..]);
      if IsSpaceByte(r[0]) && forall i :: 0 <= i < |r[1..]| ==> IsSpaceByte(r[1..][i]) {
        forall i | 0 <= i < |r| ensures IsSpaceByte(r[i]) {
          assert i > 0 ==> r[i] == r[1..][i - 1];
        }
      }
    }
  }

  lemma {:induction false} SkipLanguage(w: bytes, t: Terminal, c: byte)
    requires w != [] && IsSpaceByte(w[0]) && Proper(t)
    ensures Run(0, w).Some? && Final(Run(0, w).value) == t <==> Literal(t, w)
    ensures Literal(t, w) ==> (Next(Run(0, w).value, c).Some? <==> GoesOn(t, w, c))
  {
    hide IsInteger, IsFloat, StringBody;
    NumbersBegin(w);
    RunSpaces(w[1..]);
    assert (forall i :: 0 <= i < |w| ==> IsSpaceByte(w[i])) <==> forall i :: 0 <= i < |w[1..]| ==> IsSpaceByte(w[1..][i]) by {
      assert w == [w[0]] + w[1..];
    }
  }

  lemma {:induction false} RunInsideString(s: nat, r: bytes)
    requires s in {2, 16, 17, 23, 29, 33, 35}
    ensures Run(s, r).Some? ==> Run(s, r).value in {2, 16, 17, 23, 29, 33, 35}
    decreases r
  {
    if r != [] && Next(s, r[0]).Some? {
      RunInsideString(Next(s, r[0]).value, r[1..]);
    }
  }

  lemma {:induction false} StringLanguage(w: bytes, t: Terminal, c: byte)
    requires w != [] && w[0] == QUOTE && NulFree(w) && Proper(t)
    ensures Run(0, w).Some? && Final(Run(0, w).value) == t <==> Literal(t, w)
    ensures Literal(t, w) ==> (Next(Run(0, w).value, c).Some? <==> GoesOn(t, w, c))
  {
    hide IsInteger, IsFloat, StringBody;
    NumbersBegin(w);
    var b := w[1..];
    RunBody(b);
    RunInsideString(2, b);
    if b != [] {
      assert b[..|b| - 1] == w[1..|w| - 1];
    }
  }

  /** The walk along states that each go on with one character only spells one word. */
  lemma {:induction false} RunFixedWord(ss: seq<nat>, word: bytes, w: bytes)
    requires |ss| == |word| + 1
    requires forall i, c: byte :: 0 <= i < |word| ==> Next(ss[i], c) == On(c, word[i], ss[i + 1])
    requires forall c: byte :: Next(ss[|word|], c) == None
    requires forall i :: 0 <= i < |word| ==> ss[i] != ss[|word|]
    ensures Run(ss[0], w) == Some(ss[|word|]) <==> w == word
    ensures Run(ss[0], w).Some? ==> Run(ss[0], w).value in ss
    decreases w
  {
    if w != [] && word != [] {
      RunFixedWord(ss[1..], word[1..], w[1..]);
      assert w == [w[0]] + w[1..] && word == [word[0]] + word[1..];
    }
  }

  lemma RunTrue(w: bytes)
    ensures Run(12, w) == Some(32) <==> w == [114, 117, 101]
    ensures Run(12, w).Some? ==> Run(12, w).value in {12, 22, 28, 32}
  {
    RunFixedWord([12, 22, 28, 32], [114, 117, 101], w);
  }

  lemma RunFalse(w: bytes)
    ensures Run(10, w) == Some(34) <==> w == [97, 108, 115, 101]
    ensures Run(10, w).Some? ==> Run(10, w).value in {10, 20, 26, 30, 34}
  {
    RunFixedWord([10, 20, 26, 30, 34], [97, 108, 115, 101], w);
  }

  lemma RunNull(w: bytes)
    ensures Run(11, w) == Some(31) <==> w == [117, 108, 108]
    ensures Run(11, w).Some? ==> Run(11, w).value in {11, 21, 27, 31}
  {
    RunFixedWord([11, 21, 27, 31], [117, 108, 108], w);
  }

  lemma {:induction false} WordLanguage(w: bytes, t: Terminal, c: byte)
    requires w != [] && w[0] in {102, 110, 116} && Proper(t)
    ensures Run(0, w).Some? && Final(Run(0, w).value) == t <==> Literal(t, w)
    ensures Literal(t, w) ==> (Next(Run(0, w).value, c).Some? <==> GoesOn(t, w, c))
  {
    hide Next, NextOfStart, IsInteger, IsFloat, StringBody, Run;
    var r := w[1..];
    assert w == [w[0]] + r;
    FirstOfWord(w);
    NumbersBegin(w);
    if w[0] == 116 {
      RunTrue(r);
      StopsFor(32, c);
    } else if w[0] == 102 {
      RunFalse(r);
      StopsFor(34, c);
    } else {
      RunNull(r);
      StopsFor(31, c);
    }
  }

  lemma {:induction false} FirstOfWord(w: bytes)
    requires w != [] && w[0] in {102, 110, 116}
    ensures Run(0, w) == Run(if w[0] == 116 then 12 else if w[0] == 102 then 10 else 11, w[1..])
  {
    assert Next(0, w[0]) == NextOfStart(w[0]);
    if w[0] == 116 {
      assert NextOfStart(w[0]) == Some(12);
    } else if w[0] == 102 {
      assert NextOfStart(w[0]) == Some(10);
    } else {
      assert NextOfStart(w[0]) == Some(11);
    }
  }

  lemma StopsFor(s: nat, c: byte)
    requires s in {31, 32, 34}
    ensures Next(s, c) == None
  {
  }

  /** Every word: the walk ends in a state of terminal `t` exactly on the literals of `t`. */
  lemma {:induction false} Language(w: bytes, t: Terminal, c: byte)
    requires w != [] && NulFree(w) && Proper(t)
    ensures Run(0, w).Some? && Final(Run(0, w).value) == t <==> Literal(t, w)
    ensures Literal(t, w) ==> (Next(Run(0, w).value, c).Some? <==> GoesOn(t, w, c))
  {
    if w[0] == MINUS || IsDigit(w[0]) {
      NumberLanguage(w, t, c);
    } else if IsSpaceByte(w[0]) {
      SkipLanguage(w, t, c);
    } else if w[0] == QUOTE {
      StringLanguage(w, t, c);
    } else if w[0] in {102, 110, 116} {
      WordLanguage(w, t, c);
    } else {
      PunctuationLanguage(w, t, c);
    }
  }

  lemma {:induction false} PunctuationLanguage(w: bytes, t: Terminal, c: byte)
    requires w != [] && Proper(t) && w[0] != 0
    requires !(w[0] == MINUS || IsDigit(w[0]) || IsSpaceByte(w[0]) || w[0] == QUOTE || w[0] in {102, 110, 116})
    ensures Run(0, w).Some? && Final(Run(0, w).value) == t <==> Literal(t, w)
    ensures Literal(t, w) ==> (Next(Run(0, w).value, c).Some? <==> GoesOn(t, w, c))
  {
    hide IsInteger, IsFloat, StringBody;
    NumbersBegin(w);
    assert w == [w[0]] + w[1..];
  }

  /**
   * The lexer returns terminal `t` with `n` characters exactly when these are a literal of `t` that the next
   * character does not continue. In particular it never backs up: a word that cannot be completed is an error.
   */
  lemma {:induction false} LexExact(text: bytes, t: Terminal, n: nat)
    requires Proper(t)
    ensures Lex(text) == Lexeme(t, n) <==>
            0 < n <= |text| && Literal(t, text[..n]) && !GoesOn(t, text[..n], CharAt(text, n))
  {
    if CharAt(text, 0) == 0 {
      if 0 < n <= |text| {
        assert text[..n][0] == text[0];
        LiteralIsNulFree(t, text[..n]);
      }
    } else if 0 < n <= |text| {
      var w := text[..n];
      if NulFree(w) {
        Language(w, t, CharAt(text, n));
      } else {
        LiteralIsNulFree(t, w);
      }
      assert w[1..] == text[1..n];
    }
    if Next(0, CharAt(text, 0)).Some? && CharAt(text, 0) != 0 {
      ScanExact(Next(0, CharAt(text, 0)).value, text, t, n);
    }
  }

  lemma {:induction false} LiteralIsNulFree(t: Terminal, w: bytes)
    ensures Literal(t, w) ==> w != [] && NulFree(w)
  {
    if Literal(t, w) {
      match t
      case TString =>
        BodyIsNulFree(w[1..|w| - 1]);
        assert w == [QUOTE] + w[1..|w| - 1] + [QUOTE];
      case TInteger => IntegerIsDigits(w);
        assert w == Unsigned(w) || w == [MINUS] + Unsigned(w);
      case TFloat => FloatIsNulFree(w);
      case _ =>
    }
  }

  lemma NulFreeConcat(a: bytes, b: bytes)
    requires NulFree(a) && NulFree(b)
    ensures NulFree(a + b)
  {
  }

  lemma DigitsAreNulFree(d: bytes)
    requires AllDigits(d)
    ensures NulFree(d)
  {
  }

  /** A suffix behind digits: the whole is as free of NULs as the suffix. */
  lemma {:induction false} BehindDigits(s: bytes)
    requires NulFree(SkipDigits(s))
    ensures NulFree(s)
  {
    var r := SkipDigits(s);
    DigitsAreNulFree(s[..|s| - |r|]);
    NulFreeConcat(s[..|s| - |r|], r);
    assert s == s[..|s| - |r|] + r;
  }

  lemma {:induction false} BehindFirst(s: bytes)
    requires s != [] && s[0] != 0 && NulFree(s[1..])
    ensures NulFree(s)
  {
    NulFreeConcat([s[0]], s[1..]);
    assert s == [s[0]] + s[1..];
  }

  lemma {:induction false} FloatIsNulFree(w: bytes)
    requires IsFloat(w)
    ensures w != [] && NulFree(w)
  {
    var r := AfterInteger(w).value;
    if IsExponent(r) {
      ExponentIsNulFree(r);
    } else {
      FractionIsNulFree(r);
    }
    var u := Unsigned(w);
    if u[0] == ZERO {
      BehindFirst(u);
    } else {
      BehindDigits(u);
    }
    if w[0] == MINUS {
      BehindFirst(w);
    }
  }

  lemma {:induction false} FractionIsNulFree(r: bytes)
    ensures IsFraction(r) ==> NulFree(r)
  {
    if IsFraction(r) {
      var e := SkipDigits(r[1..]);
      if e != [] {
        ExponentIsNulFree(e);
      }
      BehindDigits(r[1..]);
      BehindFirst(r);
    }
  }

  lemma {:induction false} ExponentIsNulFree(e: bytes)
    requires IsExponent(e)
    ensures NulFree(e)
  {
    var s := e[1..];
    if s[0] == PLUS || s[0] == MINUS {
      DigitsAreNulFree(s[1..]);
      BehindFirst(s);
    } else {
      DigitsAreNulFree(s);
    }
    BehindFirst(e);
  }
}

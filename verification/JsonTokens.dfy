/**
 * The token string of a source text, and the parse of a text as a function: lexer, driver and actions together.
 */
module JsonTokens {
  import opened Base
  import opened JsonStrings
  import opened JsonTables
  import opened JsonGrammar
  import opened JsonMachine
  import opened JsonLexer
  import opened JsonLexerLanguage

  /** The terminals that the driver reads, skips left out, up to the end or to what the lexer does not recognize. */
  function Tokens(text: bytes): seq<Token>
    decreases |text|
  {
    var r := Lex(text);
    if !Proper(r.term) then [Token(r.term, [])]
    else
      LexExact(text, r.term, r.length);
      if r.term == TSkip then Tokens(text[r.length..])
      else [Token(r.term, text[..r.length])] + Tokens(text[r.length..])
  }

  /** The result of parsing: the value on top of the object stack. */
  function Parsed(text: bytes, st: Stacks, strtod: bytes -> real): Result<Stacks, Failure> {
    StartIsValid();
    TokensAreStream(text);
    Drive(START, st, Tokens(text), strtod)
  }

  lemma {:induction false} TokensAreStream(text: bytes)
    ensures Stream(Tokens(text))
    decreases |text|
  {
    var r := Lex(text);
    if Proper(r.term) {
      LexExact(text, r.term, r.length);
      TokensAreStream(text[r.length..]);
      if r.term != TSkip {
        StreamCons(Token(r.term, text[..r.length]), Tokens(text[r.length..]));
      }
    }
  }

  lemma StreamCons(tok: Token, toks: seq<Token>)
    requires Stream(toks) && tok.term !in {TEnd, Unrecognized, TSkip}
    ensures Stream([tok] + toks)
  {
    var all := [tok] + toks;
    assert all[|all| - 1] == toks[|toks| - 1];
  }

  /** Every token but the last carries a literal of its terminal. */
  lemma {:induction false} TokensAreLiterals(text: bytes)
    ensures forall i :: 0 <= i < |Tokens(text)| - 1 ==> Literal(Tokens(text)[i].term, Tokens(text)[i].text)
    decreases |text|
  {
    var r := Lex(text);
    if Proper(r.term) {
      LexExact(text, r.term, r.length);
      TokensAreLiterals(text[r.length..]);
    }
  }

  // --- Lexing in context ---

  /** A literal is read as one token whatever follows, unless the next character continues it. */
  lemma {:induction false} LexInContext(t: Terminal, w: bytes, rest: bytes)
    requires Proper(t) && t != TSkip && Literal(t, w) && !GoesOn(t, w, CharAt(rest, 0))
    ensures Tokens(w + rest) == [Token(t, w)] + Tokens(rest)
  {
    LiteralIsNulFree(t, w);
    var text := w + rest;
    assert text[..|w|] == w && text[|w|..] == rest;
    assert CharAt(text, |w|) == CharAt(rest, 0);
    LexExact(text, t, |w|);
  }

  function SkipSpaces(text: bytes): bytes {
    if text != [] && IsSpaceByte(text[0]) then SkipSpaces(text[1..]) else text
  }

  lemma {:induction false} LexSpaces(text: bytes)
    ensures |SkipSpaces(text)| <= |text| && text[|text| - |SkipSpaces(text)|..] == SkipSpaces(text)
    ensures text != [] && IsSpaceByte(text[0]) ==>
              |SkipSpaces(text)| < |text| && Lex(text) == Lexeme(TSkip, |text| - |SkipSpaces(text)|)
  {
    if text != [] && IsSpaceByte(text[0]) {
      LexSpaces(text[1..]);
    }
  }

  lemma {:induction false} TokensSkip(text: bytes)
    ensures Tokens(text) == Tokens(SkipSpaces(text))
  {
    LexSpaces(text);
  }

  /** Space between tokens makes no difference. */
  lemma {:induction false} TokensSkipSpaces(b: bytes, rest: bytes)
    requires forall i :: 0 <= i < |b| ==> 8 <= b[i] < 14 || b[i] == 32
    ensures Tokens(b + rest) == Tokens(rest)
  {
    TokensSkip(b + rest);
    TokensSkip(rest);
    SkipOnlySpaces(b, rest);
  }

  lemma {:induction false} SkipOnlySpaces(b: bytes, rest: bytes)
    requires forall i :: 0 <= i < |b| ==> IsSpaceByte(b[i])
    ensures SkipSpaces(b + rest) == SkipSpaces(rest)
  {
    if b == [] {
      assert b + rest == rest;
    } else {
      assert (b + rest)[1..] == b[1..] + rest;
      SkipOnlySpaces(b[1..], rest);
    }
  }

  // --- String literals ---

  /** Only a NUL at the front is the end of the input. */
  lemma {:induction false} EndIsNul(text: bytes)
    ensures Lex(text).term == TEnd <==> CharAt(text, 0) == 0
  {
    if Next(0, CharAt(text, 0)).Some? && CharAt(text, 0) != 0 {
      ScanIsNotEnd(Next(0, CharAt(text, 0)).value, text);
    }
  }

  lemma {:induction false} ScanIsNotEnd(s: nat, text: bytes)
    requires s > 1
    ensures Scan(s, text).term != TEnd
    decreases text
  {
    if CharAt(text, 0) != 0 && Next(s, CharAt(text, 1)).Some? {
      ScanIsNotEnd(Next(s, CharAt(text, 1)).value, text[1..]);
    }
  }

  /** No quote can close a literal before a NUL in its text has been passed. */
  lemma {:induction false} NulBlocksBody(s: bytes, rest: bytes, k: nat)
    requires !NulFree(s) && k < |Escape(s) + rest|
    ensures !(StringBody((Escape(s) + rest)[..k]) && (Escape(s) + rest)[k] == QUOTE)
  {
    hide SimpleEscape, IsHex;
    var e, r := EscapeByte(s[0]), Escape(s[1..]);
    var text := Escape(s) + rest;
    var tail := r + rest;
    assert s == [s[0]] + s[1..];
    assert Escape(s) == e + r;
    assert text == e + tail;
    if s[0] != 0 && k >= |e| {
      NulBlocksBody(s[1..], rest, k - |e|);
      assert text[..k][|e|..] == tail[..k - |e|];
      assert text[k] == tail[k - |e|];
    }
  }

  lemma {:induction false} NulIsNotRecognized(s: bytes, rest: bytes)
    requires !NulFree(s)
    ensures Lex(Quoted(s) + rest).term == Unrecognized
  {
    var text := Quoted(s) + rest;
    var inner := Escape(s) + ([QUOTE] + rest);
    assert text == [QUOTE] + inner;
    var r := Lex(text);
    EndIsNul(text);
    if Proper(r.term) {
      LexExact(text, r.term, r.length);
      ClosesInner(text, inner, r.length);
      NulBlocksBody(s, [QUOTE] + rest, r.length - 2);
    }
  }

  lemma {:induction false} ClosesInner(text: bytes, inner: bytes, n: nat)
    requires text == [QUOTE] + inner && 0 < n <= |text| && exists t :: Proper(t) && Literal(t, text[..n])
    ensures n >= 2 && n - 2 < |inner| && StringBody(inner[..n - 2]) && inner[n - 2] == QUOTE
  {
    var w := text[..n];
    assert w[0] == QUOTE;
    var t :| Proper(t) && Literal(t, w);
    assert IsStringLiteral(w);
    assert w[1..n - 1] == text[1..n - 1] == inner[..n - 2];
  }

  /**
   * A printed string is read back as one token whatever follows it, exactly when it holds no NUL;
   * otherwise the lexer recognizes nothing.
   */
  lemma {:induction false} QuotedInContext(s: bytes, rest: bytes)
    ensures Tokens(Quoted(s) + rest) ==
            if NulFree(s) then [Token(TString, Quoted(s))] + Tokens(rest) else [Token(Unrecognized, [])]
  {
    if NulFree(s) {
      EscapeIsBody(s);
      assert Quoted(s)[1..|Quoted(s)| - 1] == Escape(s);
      LexInContext(TString, Quoted(s), rest);
    } else {
      NulIsNotRecognized(s, rest);
    }
  }

  /** The literal of a printed string decodes to that string. */
  lemma {:induction false} QuotedDecodes(s: bytes)
    ensures LiteralText(Quoted(s)) == Some(s)
  {
    UnescapeEscape(s);
    assert Quoted(s)[1..|Quoted(s)| - 1] == Escape(s);
  }
}

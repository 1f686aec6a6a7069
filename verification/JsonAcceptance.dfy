/**
 * Which texts are accepted, said of the text alone: its tokens are derived from the grammar and none of its
 * strings escapes a slash.
 */
module JsonAcceptance {
  import opened Base
  import opened JsonStrings
  import opened JsonTables
  import opened JsonGrammar
  import opened JsonMachine
  import opened JsonCompleteness
  import opened JsonSoundness
  import opened JsonLexerLanguage
  import opened JsonTokens

  /** A string literal with an escaped slash in it. */
  predicate EscapedSlash(tok: Token) {
    tok.term == TString && |tok.text| >= 2 && EscapesSlash(tok.text[1..|tok.text| - 1])
  }

  ghost predicate NoneEscaped(toks: seq<Token>) {
    forall i :: 0 <= i < |toks| ==> !EscapedSlash(toks[i])
  }

  ghost predicate StringsAreLiterals(toks: seq<Token>) {
    forall i :: 0 <= i < |toks| && toks[i].term == TString ==> IsStringLiteral(toks[i].text)
  }

  lemma {:induction false} NoneEscapedConcat(s: seq<Token>, t: seq<Token>)
    ensures NoneEscaped(s + t) <==> NoneEscaped(s) && NoneEscaped(t)
    ensures StringsAreLiterals(s + t) <==> StringsAreLiterals(s) && StringsAreLiterals(t)
  {
    hide EscapedSlash, IsStringLiteral;
    assert forall i :: 0 <= i < |s| ==> (s + t)[i] == s[i];
    assert forall i :: 0 <= i < |t| ==> (s + t)[|s| + i] == t[i];
  }

  /** A tree can be decoded exactly when no string in its yield escapes a slash. */
  lemma {:induction false} DecodableByYield(d: Deriv)
    requires Derives(d) && Sym(d) != T(TString) && StringsAreLiterals(Yield(d))
    ensures Decodable(d) <==> NoneEscaped(Yield(d))
    decreases d, 1
  {
    match d
    case Leaf(tok) => assert Yield(d)[0] == tok;
    case Node(r, kids) =>
      if r == 23 {
        LiteralByYield(d);
      } else {
        forall i | 0 <= i < |kids| ensures Derives(kids[i]) && Sym(kids[i]) != T(TString) {
          OnlyStringsHoldStrings(r, i);
          assert Sym(kids[i]) == Body(r)[i];
        }
        AllDecodableByYield(kids);
      }
  }

  lemma {:induction false} OnlyStringsHoldStrings(r: nat, i: nat)
    requires 1 <= r < RULES && r != 23 && i < |Body(r)|
    ensures Body(r)[i] != T(TString)
  {
  }

  lemma {:induction false} LiteralByYield(d: Deriv)
    requires d.Node? && d.rule == 23 && Derives(d) && StringsAreLiterals(Yield(d))
    ensures Decodable(d) <==> NoneEscaped(Yield(d))
  {
    var k := d.kids[0];
    assert Sym(k) == Body(23)[0];
    assert d.kids == [k] && d.kids[1..] == [];
    assert YieldAll(d.kids) == Yield(k) + YieldAll(d.kids[1..]);
    assert Yield(d)[0] == k.tok;
    DecoderCoversLexer(k.tok.text[1..|k.tok.text| - 1]);
  }

  lemma {:induction false} AllDecodableByYield(ds: seq<Deriv>)
    requires forall i :: 0 <= i < |ds| ==> Derives(ds[i]) && Sym(ds[i]) != T(TString)
    requires StringsAreLiterals(YieldAll(ds))
    ensures (forall i :: 0 <= i < |ds| ==> Decodable(ds[i])) <==> NoneEscaped(YieldAll(ds))
    decreases ds, 0
  {
    hide Decodable, NoneEscaped, StringsAreLiterals;
    if ds == [] {
      NothingEscaped();
    } else {
      NoneEscapedConcat(Yield(ds[0]), YieldAll(ds[1..]));
      DecodableByYield(ds[0]);
      AllDecodableByYield(ds[1..]);
      HeadAndTail(ds);
    }
  }

  lemma {:induction false} NothingEscaped()
    ensures NoneEscaped([])
  {
  }

  lemma {:induction false} HeadAndTail(ds: seq<Deriv>)
    requires ds != [] && forall i :: 0 <= i < |ds| ==> Derives(ds[i])
    ensures (forall i :: 0 <= i < |ds| ==> Decodable(ds[i])) <==>
            Decodable(ds[0]) && forall i :: 0 <= i < |ds[1..]| ==> Decodable(ds[1..][i])
  {
    hide Decodable, Derives;
    if Decodable(ds[0]) && forall i :: 0 <= i < |ds[1..]| ==> Decodable(ds[1..][i]) {
      forall i | 0 <= i < |ds| ensures Decodable(ds[i]) {
        assert i > 0 ==> ds[i] == ds[1..][i - 1];
      }
    }
  }

  /** The parser accepts a text if and only if its tokens are a document and no string in it escapes a slash. */
  lemma {:induction false} AcceptedExactly(text: bytes, st: Stacks, strtod: bytes -> real)
    ensures Parsed(text, st, strtod).Ok? <==>
            NoneEscaped(Tokens(text)) && exists d :: Is(d, Doc) && Yield(d) == Tokens(text)
  {
    hide Tokens, NoneEscaped, StringsAreLiterals, Decodable, Derives;
    var toks := Tokens(text);
    TokensAreStream(text);
    DriveExact(st, toks, strtod);
    StringTokensAreLiterals(text);
    forall d | Is(d, Doc) && Yield(d) == toks ensures Decodable(d) <==> NoneEscaped(toks) {
      DecodableByYield(d);
    }
  }

  lemma {:induction false} StringTokensAreLiterals(text: bytes)
    ensures StringsAreLiterals(Tokens(text))
  {
    hide Tokens, Literal;
    TokensAreLiterals(text);
    TokensAreStream(text);
    var toks := Tokens(text);
    forall i | 0 <= i < |toks| && toks[i].term == TString ensures IsStringLiteral(toks[i].text) {
      LiteralOfString(toks[i].text);
    }
  }

  lemma {:induction false} LiteralOfString(w: bytes)
    ensures Literal(TString, w) <==> IsStringLiteral(w)
  {
  }

  // --- The failing input ---

  /** The text `{"\/":null}`. */
  const SLASH_TEXT: bytes := [123] + (SLASH_LITERAL + ([58] + (NULL_TEXT + [125])))

  const SLASH_LITERAL: bytes := [34, 92, 47, 34]

  const NULL_TEXT: bytes := [110, 117, 108, 108]

  /** A dictionary with one key literal and a null or a float under it. */
  lemma {:induction false} TokensOfSinglePair(key: bytes, t: Terminal, w: bytes)
    requires IsStringLiteral(key) && t in {TNull, TFloat} && Literal(t, w)
    ensures Tokens([123] + (key + ([58] + (w + [125])))) ==
            [Token(TLBrace, [123]), Token(TString, key), Token(TColon, [58]), Token(t, w),
             Token(TRBrace, [125]), Token(TEnd, [])]
  {
    hide Tokens, StringBody;
    EndOfText();
    LexInContext(TRBrace, [125], []);
    assert [125] + [] == [125];
    LexInContext(t, w, [125]);
    LexInContext(TColon, [58], w + [125]);
    LexInContext(TString, key, [58] + (w + [125]));
    LexInContext(TLBrace, [123], key + ([58] + (w + [125])));
  }

  lemma {:induction false} EndOfText()
    ensures Tokens([]) == [Token(TEnd, [])]
  {
  }

  lemma {:induction false} SlashIsEscaped()
    ensures IsStringLiteral(SLASH_LITERAL) && EscapesSlash([92, 47]) && LiteralText(SLASH_LITERAL) == None
  {
    var b := SLASH_LITERAL[1..3];
    assert b == [92, 47];
    assert b[2..] == [];
    assert StringBody(b);
    DecoderCoversLexer(b);
  }

  /** An opening brace in front of a key is shifted and reduced to the start of an object. */
  lemma {:induction false} ObjectOpens(st: Stacks, toks: seq<Token>, strtod: bytes -> real)
    requires Stream(toks) && |toks| > 1 && toks[0].term == TLBrace && toks[1].term == TString
    ensures Valid(START) && Stream(toks[1..]) && Valid(START + [Entry(4, [])])
    ensures Drive(START, st, toks, strtod) ==
            Drive(START + [Entry(4, [])], Apply(5, toks[0].text, st, strtod), toks[1..], strtod)
  {
    hide Apply, Drive;
    StartIsValid();
    StreamTail(toks);
    assert toks == [toks[0]] + toks[1..];
    DriveShifts(START, st, toks[0], toks[1..], strtod);
    var es := START + [Entry(5, toks[0].text)];
    DriveReduces(es, st, toks[1..], strtod);
    assert Reduced(es, 5) == START + [Entry(4, [])];
  }

  /** The lexer takes `"\/"` for a string, and the decoder runs into its assertion. */
  lemma {:induction false} SlashTextFails(st: Stacks, strtod: bytes -> real)
    ensures Parsed(SLASH_TEXT, st, strtod) == Err(DecoderAssertion)
  {
    hide Tokens, LiteralText, Apply, Drive, Path, Stream;
    SlashIsEscaped();
    TokensOfSinglePair(SLASH_LITERAL, TNull, NULL_TEXT);
    var toks := Tokens(SLASH_TEXT);
    TokensAreStream(SLASH_TEXT);
    ObjectOpens(st, toks, strtod);
    var es, st' := START + [Entry(4, [])], Apply(5, [123], st, strtod);
    StreamTail(toks[1..]);
    assert toks[1..] == [toks[1]] + toks[2..] && toks[1..][1..] == toks[2..];
    DriveShifts(es, st', toks[1], toks[2..], strtod);
    DecoderStops(es + [Entry(11, SLASH_LITERAL)], st', toks[2..], strtod);
  }

  lemma {:induction false} DecoderStops(es: seq<Entry>, st: Stacks, toks: seq<Token>, strtod: bytes -> real)
    requires Valid(es) && Stream(toks)
    requires ActionAt(Top(es).state, toks[0].term) == Reduce(23) && LiteralText(Top(es).text) == None
    ensures Drive(es, st, toks, strtod) == Err(DecoderAssertion)
  {
    hide LiteralText;
  }
}

/**
 * The parser object: the lexer loop, the semantic actions on its value stacks, and the driver loop, each proved
 * against the functions that specify it.
 */
module JsonParser {
  import opened Base
  import opened Values
  import opened Containers
  import opened JsonStrings
  import opened JsonNumbers
  import opened JsonTables
  import opened JsonGrammar
  import opened JsonMachine
  import opened JsonStackSizes
  import opened JsonSoundness
  import opened JsonLexer
  import opened JsonLexerLanguage
  import opened JsonTokens

  /** `stack_elem_c`: a state and the range of the source its terminal covers. */
  datatype StackElem = StackElem(state: nat, termStart: nat, termEnd: nat)

  predicate InRange(source: bytes, e: StackElem) {
    e.termStart <= e.termEnd <= |source|
  }

  function EntryAt(source: bytes, e: StackElem): Entry
    requires InRange(source, e)
  {
    Entry(e.state, source[e.termStart..e.termEnd])
  }

  ghost predicate AllInRange(source: bytes, es: seq<StackElem>) {
    forall i :: 0 <= i < |es| ==> InRange(source, es[i])
  }

  function Entries(source: bytes, es: seq<StackElem>): (r: seq<Entry>)
    requires AllInRange(source, es)
    ensures |r| == |es|
  {
    seq(|es|, i requires 0 <= i < |es| => EntryAt(source, es[i]))
  }

  lemma {:induction false} TopOfEntries(source: bytes, es: seq<StackElem>)
    requires AllInRange(source, es) && es != []
    ensures Top(Entries(source, es)).state == es[|es| - 1].state
  {
  }

  datatype Caller =
    | PaNull | PaObjectBegin | PaObjectPair | PaArrayBegin | PaArrayValue
    | PaValString | PaValInteger | PaValFloat | PaValObject | PaValArray | PaValTrue | PaValFalse | PaValNull
    | PaString

  /** `json_pa_callers`, rule by rule. */
  function CallerOf(r: nat): Caller
    requires r < RULES
  {
    match r
    case 5 => PaObjectBegin
    case 8 => PaObjectPair
    case 12 => PaArrayBegin
    case 13 => PaArrayValue
    case 14 => PaArrayValue
    case 15 => PaValString
    case 16 => PaValInteger
    case 17 => PaValFloat
    case 18 => PaValObject
    case 19 => PaValArray
    case 20 => PaValTrue
    case 21 => PaValFalse
    case 22 => PaValNull
    case 23 => PaString
    case _ => PaNull
  }

  class Parser {
    const source: bytes
    const strtod: bytes -> real

    var oldInputIdx: nat
    var lalrStack: seq<StackElem>

    var integerMap: map<int64, Value>
    var doubleMap: map<real, Value>
    var stringMap: map<bytes, Value>

    var strings: seq<Value>
    var values: seq<Value>
    var arrays: seq<Value>
    var objects: seq<Value>

    /** Interned values are the values of their keys. */
    ghost predicate Valid()
      reads this`integerMap, this`doubleMap, this`stringMap
    {
      && (forall k :: k in integerMap ==> integerMap[k] == Int(k))
      && (forall k :: k in doubleMap ==> doubleMap[k] == Float(k))
      && (forall k :: k in stringMap ==> stringMap[k] == Str(k))
    }

    ghost function StacksNow(): Stacks
      reads this`strings, this`values, this`arrays, this`objects
    {
      Stacks(strings, values, arrays, objects)
    }

    constructor (source: bytes, strtod: bytes -> real)
      ensures Valid() && this.source == source && this.strtod == strtod && StacksNow() == EMPTY_STACKS
    {
      this.source := source;
      this.strtod := strtod;
      oldInputIdx, lalrStack := 0, [];
      integerMap, doubleMap, stringMap := map[], map[], map[];
      strings, values, arrays, objects := [], [], [], [];
    }

    // --- The lexer ---

    /** `recognize_terminal`: the jumps between the states of the lexer, as a loop over the current one. */
    method RecognizeTerminal(inputIdx: nat) returns (term: Terminal, idx: nat)
      requires inputIdx <= |source|
      ensures idx <= |source| && inputIdx <= idx
      ensures Lexeme(term, idx - inputIdx) == Lex(source[inputIdx..])
    {
      idx := inputIdx;
      var inChar := CharAt(source, idx);
      var next := Next(0, inChar);
      if next == None {
        return Unrecognized, idx;
      }
      var s := next.value;
      while true
        invariant inputIdx <= idx <= |source| && inChar == CharAt(source, idx)
        invariant var r := Scan(s, source[idx..]);
                  Lex(source[inputIdx..]) == Lexeme(r.term, r.length + (idx - inputIdx))
        decreases |source| - idx
      {
        if inChar == 0 {
          return Final(s), idx;
        }
        assert source[idx..][1..] == source[idx + 1..];
        idx := idx + 1;
        inChar := CharAt(source, idx);
        next := Next(s, inChar);
        if next == None {
          return Final(s), idx;
        }
        s := next.value;
      }
    }

    /** The inner loop of the driver: the next terminal that is not a skip, and where it starts. */
    method NextTerminal(inputIdx: nat) returns (term: Terminal, idx: nat)
      requires inputIdx <= |source|
      modifies this`oldInputIdx
      ensures inputIdx <= oldInputIdx <= idx <= |source| && term != TSkip
      ensures Tokens(source[inputIdx..]) == Ahead(source, term, oldInputIdx, idx)
      ensures Proper(term) ==> Literal(term, source[oldInputIdx..idx])
      ensures EndsValue(term) ==> !IsDigit(CharAt(source, inputIdx))
      ensures term == TEnd ==> oldInputIdx == idx
    {
      idx := inputIdx;
      term := TSkip;
      while term == TSkip
        invariant inputIdx <= idx <= |source|
        invariant term == TSkip ==> Tokens(source[inputIdx..]) == Tokens(source[idx..])
        invariant term == TSkip ==> inputIdx < idx ==> !IsDigit(CharAt(source, inputIdx))
        invariant term != TSkip ==>
                    && inputIdx <= oldInputIdx <= idx
                    && Tokens(source[inputIdx..]) == Ahead(source, term, oldInputIdx, idx)
                    && (Proper(term) ==> Literal(term, source[oldInputIdx..idx]))
                    && (EndsValue(term) ==> !IsDigit(CharAt(source, inputIdx)))
                    && (term == TEnd ==> oldInputIdx == idx)
        decreases if term == TSkip then 1 else 0, |source| - idx
      {
        oldInputIdx := idx;
        term, idx := RecognizeTerminal(idx);
        LexemeAt(source, oldInputIdx, term, idx);
      }
    }

    // --- The semantic actions ---

    ghost predicate CanActNow(r: nat)
      reads this`strings, this`values, this`arrays, this`objects
    {
      CanAct(r, StacksNow())
    }

    method PaJsonObjectBegin()
      modifies this`objects
      ensures StacksNow() == Act(5, [], old(StacksNow()), strtod)
    {
      objects := objects + [Dict([])];
    }

    method PaJsonObjectPair()
      requires CanActNow(8)
      modifies this`objects, this`strings, this`values
      ensures StacksNow() == Act(8, [], old(StacksNow()), strtod)
    {
      var o := Back(objects);
      objects := PopBack(objects) + [Dict(DictInsert(o.pairs, Back(strings), Back(values)))];
      strings := PopBack(strings);
      values := PopBack(values);
    }

    method PaJsonArrayBegin()
      modifies this`arrays
      ensures StacksNow() == Act(12, [], old(StacksNow()), strtod)
    {
      arrays := arrays + [Array([])];
    }

    method PaJsonArrayValue()
      requires CanActNow(13)
      modifies this`arrays, this`values
      ensures StacksNow() == Act(13, [], old(StacksNow()), strtod)
    {
      arrays := PopBack(arrays) + [Array(Back(arrays).items + [Back(values)])];
      values := PopBack(values);
    }

    method PaJsonValString()
      requires CanActNow(15)
      modifies this`values, this`strings
      ensures StacksNow() == Act(15, [], old(StacksNow()), strtod)
    {
      values := values + [Back(strings)];
      strings := PopBack(strings);
    }

    /** Values are shared through the interning maps. */
    method PushInteger(n: int64)
      requires Valid()
      modifies this`values, this`integerMap
      ensures Valid() && values == old(values) + [Int(n)]
    {
      if n !in integerMap {
        integerMap := integerMap[n := Int(n)];
      }
      values := values + [integerMap[n]];
    }

    method PushFloat(r: real)
      requires Valid()
      modifies this`values, this`doubleMap
      ensures Valid() && values == old(values) + [Float(r)]
    {
      if r !in doubleMap {
        doubleMap := doubleMap[r := Float(r)];
      }
      values := values + [doubleMap[r]];
    }

    method PushString(s: bytes)
      requires Valid()
      modifies this`strings, this`stringMap
      ensures Valid() && strings == old(strings) + [Str(s)]
    {
      if s !in stringMap {
        stringMap := stringMap[s := Str(s)];
      }
      strings := strings + [stringMap[s]];
    }

    ghost predicate TopCovers(text: bytes)
      reads this`lalrStack
    {
      lalrStack != [] &&
      var e := lalrStack[|lalrStack| - 1]; InRange(source, e) && source[e.termStart..e.termEnd] == text
    }

    /** The number is read from the source where its literal starts, not from the literal alone. */
    method PaJsonValInteger(ghost text: bytes)
      requires Valid() && TopCovers(text) && IsInteger(text)
      requires !IsDigit(CharAt(source, lalrStack[|lalrStack| - 1].termEnd))
      modifies this`values, this`integerMap
      ensures Valid() && StacksNow() == Act(16, text, old(StacksNow()), strtod)
    {
      hide Strtoll, IsInteger, IsDigit, ActionAt, GotoAt, Body;
      var lse := lalrStack[|lalrStack| - 1];
      ReadsOnlyLiteral(source, lse);
      var constInt := Strtoll(source[lse.termStart..]);
      PushInteger(constInt);
    }

    method PaJsonValFloat(ghost text: bytes)
      requires Valid() && TopCovers(text)
      modifies this`values, this`doubleMap
      ensures Valid() && StacksNow() == Act(17, text, old(StacksNow()), strtod)
    {
      var lse := lalrStack[|lalrStack| - 1];
      PushFloat(strtod(source[lse.termStart..lse.termEnd]));
    }

    method PaJsonValObject()
      requires CanActNow(18)
      modifies this`values, this`objects
      ensures StacksNow() == Act(18, [], old(StacksNow()), strtod)
    {
      values := values + [Back(objects)];
      objects := PopBack(objects);
    }

    method PaJsonValArray()
      requires CanActNow(19)
      modifies this`values, this`arrays
      ensures StacksNow() == Act(19, [], old(StacksNow()), strtod)
    {
      values := values + [Back(arrays)];
      arrays := PopBack(arrays);
    }

    /** `pa_json_val_true`, `pa_json_val_false` and `pa_json_val_null` push a shared constant. */
    method PaJsonValConstant(v: Value)
      modifies this`values
      ensures StacksNow() == old(StacksNow()).(values := old(values) + [v])
    {
      values := values + [v];
    }

    /** The value of four hexadecimal digits, by shifting them in one at a time. */
    method ReadHex(start: nat) returns (value: nat)
      requires start + 4 <= |source| && FourHex(source[start..start + 4])
      ensures value == HexCode(source[start..start + 4])
    {
      value := 0;
      var i := 0;
      ghost var b := source[start..start + 4];
      while i < 4
        invariant 0 <= i <= 4
        invariant value == HexPrefix(b, i)
      {
        assert source[start + i] == b[i];
        value := value * 16 + HexDigit(source[start + i]);
        i := i + 1;
      }
      HexPrefixOfFour(b);
    }

    /** The branch of the decoder behind a backslash; `None` where the source asserts. */
    method DecodeEscape(iter: nat, iterEnd: nat) returns (piece: Option<bytes>, next: nat)
      requires iter < iterEnd <= |source| && source[iter] == BACKSLASH && StringBody(source[iter..iterEnd])
      ensures piece == None ==> Unescape(source[iter..iterEnd]) == None
      ensures piece.Some? ==>
                && iter < next <= iterEnd && StringBody(source[next..iterEnd])
                && Unescape(source[iter..iterEnd]) == Prefixed(piece.value, Unescape(source[next..iterEnd]))
    {
      ghost var rest := source[iter..iterEnd];
      next := iter + 1;
      assert source[next] == rest[1];
      if source[next] == LETTER_U {
        next := next + 1;
        FourAfterEscape(rest);
        SliceOfSlice(source, iter, iterEnd, 2, 6);
        var value := ReadHex(next);
        next := next + 4;
        SliceOfSlice(source, iter, iterEnd, 6, |rest|);
        piece := Some(EncodeCode(value));
      } else {
        var c := SimpleEscape(source[next]);
        next := next + 1;
        SliceOfSlice(source, iter, iterEnd, 2, |rest|);
        piece := if c == None then None else Some([c.value]);
      }
    }

    /**
     * The decoding loop. `None` stands for the assertion. The loop ends by meeting the end exactly: it is never
     * stepped over.
     */
    method DecodeString(start: nat, iterEnd: nat) returns (constStr: Option<bytes>)
      requires start <= iterEnd <= |source| && StringBody(source[start..iterEnd])
      ensures constStr == Unescape(source[start..iterEnd])
    {
      var iter := start;
      var result: bytes := [];
      PrefixedNothing(Unescape(source[start..iterEnd]));
      while iter != iterEnd
        invariant start <= iter <= iterEnd && StringBody(source[iter..iterEnd])
        invariant Prefixed(result, Unescape(source[iter..iterEnd])) == Unescape(source[start..iterEnd])
        decreases iterEnd - iter
      {
        if source[iter] == BACKSLASH {
          var piece, next := DecodeEscape(iter, iterEnd);
          if piece == None {
            return None;
          }
          PrefixedTwice(result, piece.value, Unescape(source[next..iterEnd]));
          result := result + piece.value;
          iter := next;
        } else {
          assert source[iter..iterEnd][1..] == source[iter + 1..iterEnd];
          PrefixedTwice(result, [source[iter]], Unescape(source[iter + 1..iterEnd]));
          result := result + [source[iter]];
          iter := iter + 1;
        }
      }
      assert source[iter..iterEnd] == [] && result + [] == result;
      constStr := Some(result);
    }

    /** `pa_json_string`. The result is false where the source asserts. */
    method PaJsonString(ghost text: bytes) returns (ok: bool)
      requires Valid() && TopCovers(text) && IsStringLiteral(text)
      modifies this`strings, this`stringMap
      ensures Valid() && ok == LiteralText(text).Some?
      ensures ok ==> StacksNow() == Act(23, text, old(StacksNow()), strtod)
    {
      hide Unescape, StringBody, ActionAt, GotoAt, Body;
      var lse := lalrStack[|lalrStack| - 1];
      SliceOfSlice(source, lse.termStart, lse.termEnd, 1, |text| - 1);
      var constStr := DecodeString(lse.termStart + 1, lse.termEnd - 1);
      if constStr == None {
        return false;
      }
      PushString(constStr.value);
      ok := true;
    }

    // --- The driver ---

    /** The call of an entry of `json_pa_callers`. The function that asserts is not one that can be called. */
    method Call(caller: Caller, ghost r: nat, ghost text: bytes) returns (ok: bool)
      requires caller != PaNull && 1 < r < RULES && CallerOf(r) == caller
      requires Valid() && CanActNow(r) && TopCovers(text)
      requires r == 23 ==> IsStringLiteral(text)
      requires r == 16 ==> IsInteger(text) && !IsDigit(CharAt(source, lalrStack[|lalrStack| - 1].termEnd))
      modifies this`strings, this`values, this`arrays, this`objects, this`integerMap, this`doubleMap, this`stringMap
      ensures Valid() && ok == (r == 23 ==> LiteralText(text).Some?)
      ensures ok ==> StacksNow() == Act(r, text, old(StacksNow()), strtod)
    {
      ok := true;
      match caller
      case PaObjectBegin => PaJsonObjectBegin();
      case PaObjectPair => PaJsonObjectPair();
      case PaArrayBegin => PaJsonArrayBegin();
      case PaArrayValue => PaJsonArrayValue();
      case PaValString => PaJsonValString();
      case PaValInteger => PaJsonValInteger(text);
      case PaValFloat => PaJsonValFloat(text);
      case PaValObject => PaJsonValObject();
      case PaValArray => PaJsonValArray();
      case PaValTrue => PaJsonValConstant(Bool(true));
      case PaValFalse => PaJsonValConstant(Bool(false));
      case PaValNull => PaJsonValConstant(Blank);
      case PaString => ok := PaJsonString(text);
    }

    /** The action of a rule: the call through the table, unless its entry is the function that asserts. */
    method CallAction(r: nat, ghost text: bytes) returns (ok: bool)
      requires Valid() && 1 < r < RULES && CanActNow(r) && TopCovers(text)
      requires r == 23 ==> IsStringLiteral(text)
      requires r == 16 ==> IsInteger(text) && !IsDigit(CharAt(source, lalrStack[|lalrStack| - 1].termEnd))
      modifies this`strings, this`values, this`arrays, this`objects, this`integerMap, this`doubleMap, this`stringMap
      ensures Valid() && ok == (r == 23 ==> LiteralText(text).Some?)
      ensures ok ==> StacksNow() == Act(r, text, old(StacksNow()), strtod)
    {
      ok := true;
      if CallerOf(r) != PaNull {
        ok := Call(CallerOf(r), r, text);
      }
    }

    /** The stack inside the source and on a path of the automaton. */
    ghost predicate OnPath()
      reads this`lalrStack
    {
      AllInRange(source, lalrStack) && JsonMachine.Valid(Entries(source, lalrStack))
    }

    ghost function Stack(): seq<Entry>
      requires OnPath()
      reads this`lalrStack
    {
      Entries(source, lalrStack)
    }

    /** What the top element and the terminal ahead say about the text that the actions read. */
    ghost predicate TextAhead(retTerm: Terminal, inputIdx: nat)
      requires OnPath()
      reads this`lalrStack, this`oldInputIdx
    {
      var e := lalrStack[|lalrStack| - 1];
      && oldInputIdx <= inputIdx <= |source|
      && (Proper(retTerm) ==> Literal(retTerm, source[oldInputIdx..inputIdx]))
      && (e.state == 11 ==> IsStringLiteral(source[e.termStart..e.termEnd]))
      && (e.state == 17 ==> IsInteger(source[e.termStart..e.termEnd]))
      && (e.state == 17 && retTerm == Unrecognized ==> inputIdx == e.termEnd)
      && (e.state == 17 && EndsValue(retTerm) ==> !IsDigit(CharAt(source, e.termEnd)))
    }

    /** The driver and its specification agree on everything that is still to come. */
    ghost predicate Agrees(retTerm: Terminal, inputIdx: nat, toks: seq<Token>, st0: Stacks)
      requires OnPath() && TextAhead(retTerm, inputIdx)
      reads this`lalrStack, this`oldInputIdx, this`strings, this`values, this`arrays, this`objects
    {
      && Stream(toks)
      && toks == (if retTerm == Unrecognized then Tokens(source[inputIdx..])
                  else Ahead(source, retTerm, oldInputIdx, inputIdx))
      && Drive(Stack(), StacksNow(), toks, strtod) == Parsed(source, st0, strtod)
      && Sized(Stack(), StacksNow(), st0)
    }

    /** The shift branch of the loop. */
    method Shift(s: nat, retTerm: Terminal, inputIdx: nat, ghost toks: seq<Token>, ghost st0: Stacks)
      requires Valid() && OnPath() && TextAhead(retTerm, inputIdx) && Agrees(retTerm, inputIdx, toks, st0)
      requires retTerm != Unrecognized && retTerm != TEnd
      requires ActionAt(lalrStack[|lalrStack| - 1].state, retTerm) == JsonTables.Shift(s)
      modifies this`lalrStack
      ensures Valid() && OnPath() && TextAhead(Unrecognized, inputIdx)
      ensures Agrees(Unrecognized, inputIdx, toks[1..], st0) && lalrStack != []
    {
      hide Drive, ActionAt, GotoAt, Body, Sized, Parsed, IsStringLiteral, IsInteger, Tokens, Ahead, IsDigit;
      ghost var es, e := Stack(), Entry(s, source[oldInputIdx..inputIdx]);
      AheadFirst(source, retTerm, oldInputIdx, inputIdx);
      ShiftAgrees(es, e, toks, StacksNow(), st0, strtod);
      lalrStack := lalrStack + [StackElem(s, oldInputIdx, inputIdx)];
      assert Entries(source, lalrStack) == es + [e];
    }

    /** The body of the rule off the stack, the goto state on. */
    method PopAndGoto(r: nat)
      requires OnPath() && 1 < r < RULES && |Body(r)| < |lalrStack|
      requires GotoAt(lalrStack[|lalrStack| - |Body(r)| - 1].state, Head(r)).Some?
      modifies this`lalrStack
      ensures AllInRange(source, lalrStack)
      ensures Entries(source, lalrStack) == Reduced(old(Stack()), r)
    {
      var n := |lalrStack| - |Body(r)|;
      var gotoVal := GotoAt(lalrStack[n - 1].state, Head(r)).value;
      EntriesPopPush(source, lalrStack, n, gotoVal);
      lalrStack := lalrStack[..n] + [StackElem(gotoVal, 0, 0)];
    }

    /** The operands and the text that the action of the reduction reads. */
    lemma ActionFits(r: nat, retTerm: Terminal, inputIdx: nat, toks: seq<Token>, st0: Stacks)
      requires OnPath() && retTerm != Unrecognized && ActionAt(lalrStack[|lalrStack| - 1].state, retTerm) == Reduce(r)
      ensures TextAhead(retTerm, inputIdx) && Agrees(retTerm, inputIdx, toks, st0) ==>
                && toks[0].term == retTerm
                && 1 < r < RULES && CanActNow(r) && TopCovers(Top(Stack()).text)
                && (r == 23 ==> IsStringLiteral(Top(Stack()).text))
                && (r == 16 ==> IsInteger(Top(Stack()).text))
                && (r == 16 ==> !IsDigit(CharAt(source, lalrStack[|lalrStack| - 1].termEnd)))
    {
      hide Drive, ActionAt, GotoAt, Body, Head, Sized, Act, Parsed, CanAct, EndsValue, IsStringLiteral, IsInteger;
      hide Ahead, Tokens, Literal;
      if TextAhead(retTerm, inputIdx) && Agrees(retTerm, inputIdx, toks, st0) {
        AheadFirst(source, retTerm, oldInputIdx, inputIdx);
        TopOfEntries(source, lalrStack);
        LiteralRules(lalrStack[|lalrStack| - 1].state, retTerm);
        ReduceKeepsSizes(Stack(), retTerm, StacksNow(), st0, strtod);
      }
    }

    /** The reduce branch of the loop; the result is false where an action asserts. */
    method ReduceBy(r: nat, retTerm: Terminal, inputIdx: nat, ghost toks: seq<Token>, ghost st0: Stacks)
      returns (ok: bool)
      requires Valid() && OnPath() && TextAhead(retTerm, inputIdx) && Agrees(retTerm, inputIdx, toks, st0)
      requires retTerm != Unrecognized && ActionAt(lalrStack[|lalrStack| - 1].state, retTerm) == Reduce(r)
      modifies this`lalrStack, this`strings, this`values, this`arrays, this`objects
      modifies this`integerMap, this`doubleMap, this`stringMap
      ensures Valid()
      ensures !ok ==> Parsed(source, st0, strtod) == Err(DecoderAssertion)
      ensures ok ==> OnPath() && TextAhead(retTerm, inputIdx) && Agrees(retTerm, inputIdx, toks, st0)
      ensures ok ==> 0 < |lalrStack| <= old(|lalrStack|)
      ensures ok && |lalrStack| == old(|lalrStack|) ==>
                Rank(lalrStack[|lalrStack| - 1].state) < old(Rank(lalrStack[|lalrStack| - 1].state))
    {
      hide Drive, ActionAt, GotoAt, Body, Head, Rank, Sized, CanAct, Act, Parsed, Ahead, Stream;
      hide LiteralText, IsStringLiteral, IsInteger, Literal, Reduced, EndsValue, Tokens;
      ghost var es, st := Stack(), StacksNow();
      ghost var text := Top(es).text;
      ActionFits(r, retTerm, inputIdx, toks, st0);
      ReduceAgrees(es, r, toks, st, st0, strtod);
      ok := CallAction(r, text);
      if ok {
        PopAndGoto(r);
      }
    }

    /** The lexer is asked for the next terminal. */
    method Fetch(inputIdx: nat, ghost toks: seq<Token>, ghost st0: Stacks) returns (term: Terminal, idx: nat)
      requires Valid() && OnPath() && lalrStack != []
      requires TextAhead(Unrecognized, inputIdx) && Agrees(Unrecognized, inputIdx, toks, st0)
      modifies this`oldInputIdx
      ensures term == Unrecognized ==> Parsed(source, st0, strtod) == Err(UnrecognizedTerminal)
      ensures term != Unrecognized ==> TextAhead(term, idx) && Agrees(term, idx, toks, st0)
    {
      hide Drive, ActionAt, GotoAt, Sized, Tokens, Literal, IsStringLiteral, IsInteger, Ahead, IsDigit;
      term, idx := NextTerminal(inputIdx);
      AheadFirst(source, term, oldInputIdx, idx);
      DriveStops(Stack(), StacksNow(), toks, strtod);
    }

    /** What the row of the top state says about a terminal settles the outcome, unless it is to go on. */
    lemma Decides(retTerm: Terminal, inputIdx: nat, toks: seq<Token>, st0: Stacks)
      requires OnPath() && lalrStack != [] && retTerm != Unrecognized
      ensures TextAhead(retTerm, inputIdx) && Agrees(retTerm, inputIdx, toks, st0) ==>
                && toks != []
                && match ActionAt(lalrStack[|lalrStack| - 1].state, retTerm)
                   case NoAction => Parsed(source, st0, strtod) == Err(InvalidSyntax)
                   case Shift(_) => retTerm == TEnd ==> Parsed(source, st0, strtod) == Ok(StacksNow())
                   case Reduce(_) => true
    {
      hide Drive, ActionAt, GotoAt, Sized, Tokens, Literal, IsStringLiteral, IsInteger, Ahead, IsDigit, Entries;
      if TextAhead(retTerm, inputIdx) && Agrees(retTerm, inputIdx, toks, st0) {
        AheadFirst(source, retTerm, oldInputIdx, inputIdx);
        TopOfEntries(source, lalrStack);
        DriveStops(Stack(), StacksNow(), toks, strtod);
      }
    }

    /** The state before the loop. */
    method Begin()
      requires Valid()
      modifies this`oldInputIdx, this`lalrStack
      ensures Valid() && lalrStack == [StackElem(0, 0, 0)] && oldInputIdx == 0
      ensures OnPath() && TextAhead(Unrecognized, 0) && Agrees(Unrecognized, 0, Tokens(source), StacksNow())
    {
      hide Drive, ActionAt, GotoAt, Sized, Tokens, Stream;
      oldInputIdx := 0;
      lalrStack := [StackElem(0, 0, 0)];
      StartIsValid();
      StartIsSized(StacksNow());
      TokensAreStream(source);
      assert Entries(source, lalrStack) == START;
      assert source[0..] == source;
    }

    /**
     * `parse_source`: the result of the specification, and on success one object more on the object stack and
     * nothing more on the others.
     */
    method ParseSource() returns (r: Result<Value, Failure>)
      requires Valid()
      modifies this
      ensures Valid()
      ensures match Parsed(source, old(StacksNow()), strtod)
              case Ok(st) => StacksNow() == st && st.objects != [] && r == Ok(Back(st.objects))
              case Err(e) => r == Err(e)
    {
      hide Drive, ActionAt, GotoAt, Body, Rank, Sized, Tokens, Literal, IsStringLiteral, IsInteger, EndsValue, IsDigit;
      hide Ahead, Stream, Lex, Path, Entries, TextAhead, Agrees;
      ghost var st0 := StacksNow();
      Begin();
      var inputIdx := 0;
      var retTerm := Unrecognized;
      ghost var toks := Tokens(source);
      while true
        invariant Valid() && lalrStack != []
        invariant OnPath() && TextAhead(retTerm, inputIdx) && Agrees(retTerm, inputIdx, toks, st0)
        decreases |toks|, |lalrStack|, Rank(lalrStack[|lalrStack| - 1].state), if retTerm == Unrecognized then 1 else 0
      {
        if retTerm == Unrecognized {
          retTerm, inputIdx := Fetch(inputIdx, toks, st0);
          if retTerm == Unrecognized {
            return Err(UnrecognizedTerminal);
          }
        }
        Decides(retTerm, inputIdx, toks, st0);
        match ActionAt(lalrStack[|lalrStack| - 1].state, retTerm) {
          case NoAction =>
            return Err(InvalidSyntax);
          case Shift(s) =>
            if retTerm == TEnd {
              break;
            }
            Shift(s, retTerm, inputIdx, toks, st0);
            toks := toks[1..];
            retTerm := Unrecognized;
          case Reduce(rule) =>
            var ok := ReduceBy(rule, retTerm, inputIdx, toks, st0);
            if !ok {
              return Err(DecoderAssertion);
            }
        }
      }
      AcceptedObject(source, st0, strtod);
      r := Ok(Back(objects));
    }
  }

  /** The tokens ahead when `term`, recognized between `start` and `idx`, is the next one. */
  ghost function Ahead(source: bytes, term: Terminal, start: nat, idx: nat): seq<Token>
    requires start <= idx <= |source|
  {
    if Proper(term) then [Token(term, source[start..idx])] + Tokens(source[idx..]) else [Token(term, [])]
  }

  lemma AheadFirst(source: bytes, term: Terminal, start: nat, idx: nat)
    requires start <= idx <= |source|
    ensures Ahead(source, term, start, idx) != [] && Ahead(source, term, start, idx)[0].term == term
    ensures Proper(term) ==> Ahead(source, term, start, idx)[0].text == source[start..idx]
    ensures Proper(term) ==> Ahead(source, term, start, idx)[1..] == Tokens(source[idx..])
  {
  }

  lemma {:induction false} SliceOfSlice(s: bytes, a: nat, b: nat, c: nat, d: nat)
    requires a <= b <= |s| && c <= d <= b - a
    ensures s[a..b][c..d] == s[a + c..a + d]
  {
    var t, u := s[a..b][c..d], s[a + c..a + d];
    assert |t| == |u|;
    forall i | 0 <= i < |t| ensures t[i] == u[i] {
      assert t[i] == s[a..b][c + i] == s[a + c + i];
    }
  }

  lemma {:induction false} LexemeAt(source: bytes, start: nat, term: Terminal, idx: nat)
    requires start <= idx <= |source| && Lex(source[start..]) == Lexeme(term, idx - start)
    ensures Proper(term) ==> start < idx && Literal(term, source[start..idx])
    ensures Tokens(source[start..]) == if term == TSkip then Tokens(source[idx..]) else Ahead(source, term, start, idx)
    ensures EndsValue(term) || term == TSkip ==> !IsDigit(CharAt(source, start))
    ensures term == TEnd ==> start == idx
  {
    hide Next, IsFloat, IsInteger, StringBody;
    var text := source[start..];
    if Proper(term) {
      LexExact(text, term, idx - start);
      assert text[..idx - start] == source[start..idx];
      assert text[idx - start..] == source[idx..];
      assert source[start..idx][0] == source[start];
    } else if term == TEnd {
      EndIsNul(text);
    }
  }

  lemma {:induction false} ReadsOnlyLiteral(source: bytes, e: StackElem)
    requires InRange(source, e) && IsInteger(source[e.termStart..e.termEnd]) && !IsDigit(CharAt(source, e.termEnd))
    ensures Strtoll(source[e.termStart..]) == Strtoll(source[e.termStart..e.termEnd])
  {
    hide IsInteger, IntegerValue, Strtoll, Saturate;
    var w, rest := source[e.termStart..e.termEnd], source[e.termEnd..];
    StrtollReadsLiteral(w, rest);
    StrtollReadsLiteral(w, []);
    assert source[e.termStart..] == w + rest;
    assert w + [] == w;
  }

  lemma {:induction false} FourAfterEscape(b: bytes)
    requires StringBody(b) && |b| >= 2 && b[0] == BACKSLASH && b[1] == LETTER_U
    ensures |b| >= 6 && FourHex(b[2..6]) && StringBody(b[6..])
  {
    assert SimpleEscape(LETTER_U) == None;
  }

  predicate FourHex(b: bytes) {
    |b| == 4 && forall i :: 0 <= i < 4 ==> IsHex(b[i])
  }

  /** The value of the first `n` of four digits. */
  function HexPrefix(b: bytes, n: nat): nat
    requires n <= 4 && FourHex(b)
  {
    if n == 0 then 0 else HexPrefix(b, n - 1) * 16 + HexDigit(b[n - 1])
  }

  lemma {:induction false} HexPrefixOfFour(b: bytes)
    requires FourHex(b)
    ensures HexPrefix(b, 4) == HexCode(b)
  {
    assert HexPrefix(b, 1) == HexDigit(b[0]);
    assert HexPrefix(b, 2) == HexDigit(b[0]) * 16 + HexDigit(b[1]);
    assert HexPrefix(b, 3) == HexPrefix(b, 2) * 16 + HexDigit(b[2]);
  }

  lemma PrefixedNothing(rest: Option<bytes>)
    ensures Prefixed([], rest) == rest
  {
    if rest.Some? {
      assert [] + rest.value == rest.value;
    }
  }

  lemma PrefixedTwice(p: bytes, q: bytes, rest: Option<bytes>)
    ensures Prefixed(p + q, rest) == Prefixed(p, Prefixed(q, rest))
  {
    if rest.Some? {
      assert (p + q) + rest.value == p + (q + rest.value);
    }
  }

  lemma {:induction false} EntriesPopPush(source: bytes, es: seq<StackElem>, n: nat, g: nat)
    requires AllInRange(source, es) && 0 < n <= |es|
    ensures AllInRange(source, es[..n] + [StackElem(g, 0, 0)])
    ensures Entries(source, es[..n] + [StackElem(g, 0, 0)]) == Entries(source, es)[..n] + [Entry(g, [])]
    ensures Entries(source, es)[n - 1].state == es[n - 1].state
  {
  }

  /** The reductions that read the source text, and what stands behind an integer. */
  lemma {:induction false} LiteralRules(s: nat, t: Terminal)
    ensures ActionAt(s, t) == Reduce(23) ==> s == 11
    ensures ActionAt(s, t) == Reduce(16) ==> s == 17 && EndsValue(t)
  {
    RowReducesByOneRule(s, t);
  }

  /** Where the driver stops on its next terminal. */
  lemma {:induction false} DriveStops(es: seq<Entry>, st: Stacks, toks: seq<Token>, strtod: bytes -> real)
    requires JsonMachine.Valid(es) && Stream(toks)
    ensures toks[0].term == Unrecognized ==> Drive(es, st, toks, strtod) == Err(UnrecognizedTerminal)
    ensures toks[0].term != Unrecognized ==>
              match ActionAt(Top(es).state, toks[0].term)
              case NoAction => Drive(es, st, toks, strtod) == Err(InvalidSyntax)
              case Shift(_) => toks[0].term == TEnd ==> Drive(es, st, toks, strtod) == Ok(st)
              case Reduce(_) => true
  {
  }

  /** A shift takes the first token off the specification's input. */
  lemma {:induction false} ShiftAgrees(es: seq<Entry>, e: Entry, toks: seq<Token>, st: Stacks, st0: Stacks,
                                       strtod: bytes -> real)
    requires JsonMachine.Valid(es) && Stream(toks) && Sized(es, st, st0)
    requires toks[0].term != TEnd && ActionAt(Top(es).state, toks[0].term) == JsonTables.Shift(e.state)
    requires e.text == toks[0].text
    ensures JsonMachine.Valid(es + [e]) && Stream(toks[1..]) && Sized(es + [e], st, st0)
    ensures Drive(es + [e], st, toks[1..], strtod) == Drive(es, st, toks, strtod)
    ensures (e.state == 11 ==> toks[0].term == TString) && (e.state == 17 ==> toks[0].term == TInteger)
  {
    TransEntersBySymbol(Top(es).state, T(toks[0].term));
    StreamTail(toks);
    PushKeepsValid(es, e, T(toks[0].term));
    ShiftKeepsSizes(es, e, toks[0].term, st, st0);
  }

  lemma NoActionOnUnrecognized(s: nat)
    ensures ActionAt(s, Unrecognized) == NoAction
  {
  }

  /** A reduction finds its operands and takes the specification along, unless the decoder asserts. */
  lemma {:induction false} ReduceAgrees(es: seq<Entry>, r: nat, toks: seq<Token>, st: Stacks, st0: Stacks,
                                        strtod: bytes -> real)
    requires JsonMachine.Valid(es) && Stream(toks) && Sized(es, st, st0)
    requires ActionAt(Top(es).state, toks[0].term) == Reduce(r)
    ensures 1 < r < RULES && CanAct(r, st)
    ensures |Body(r)| < |es| && GotoAt(es[|es| - |Body(r)| - 1].state, Head(r)).Some?
    ensures JsonMachine.Valid(Reduced(es, r)) && Sized(Reduced(es, r), Act(r, Top(es).text, st, strtod), st0)
    ensures Drive(es, st, toks, strtod) ==
            if r == 23 && LiteralText(Top(es).text) == None then Err(DecoderAssertion)
            else Drive(Reduced(es, r), Act(r, Top(es).text, st, strtod), toks, strtod)
    ensures Top(Reduced(es, r)).state !in {11, 17}
    ensures |Reduced(es, r)| <= |es|
    ensures |Reduced(es, r)| == |es| ==> Rank(Top(Reduced(es, r)).state) < Rank(Top(es).state)
  {
    hide Sized, CanAct, Act, LiteralText, Path, HandleOnTop, ActionAt, GotoAt, Rank, Head, Body;
    var t := toks[0].term;
    ReduceKeepsValid(es, t);
    NoActionOnUnrecognized(Top(es).state);
    ReduceKeepsSizes(es, t, st, st0, strtod);
    TransEntersBySymbol(es[|es| - |Body(r)| - 1].state, N(Head(r)));
  }

  lemma {:induction false} AcceptedObject(text: bytes, st0: Stacks, strtod: bytes -> real)
    requires Parsed(text, st0, strtod).Ok?
    ensures Parsed(text, st0, strtod).value.objects != []
  {
    TokensAreStream(text);
    DriveExact(st0, Tokens(text), strtod);
  }

  /** `parse`: a fresh parser on the text. */
  method Parse(text: bytes, strtod: bytes -> real) returns (r: Result<Value, Failure>)
    ensures match Parsed(text, EMPTY_STACKS, strtod)
            case Ok(st) => st.objects != [] && r == Ok(Back(st.objects))
            case Err(e) => r == Err(e)
  {
    var parser := new Parser(text, strtod);
    r := parser.ParseSource();
  }
}

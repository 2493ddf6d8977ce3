/** `com.study.json.Json`, the entry points: a `StringReader` or any
    `Reader` goes through the pojo `CharReader`, `Tokenizer.tokenize` and
    `JsonParser.parse`; the typed variants check the kind of the root. */
module Json {
  import opened Base
  import opened Tokens
  import opened LexSpec
  import opened Values
  import opened Numbers
  import PR = PojoCharReader
  import TK = Tokenizer
  import JP = JsonParser
  import JA = JsonArrays

  /** The exceptions that leave `Json`. */
  datatype JsonError =
    // JsonParseException from the tokenizer
    | Lexing(lex: LexError)
    // JsonParseException or NumberFormatException from the parser
    | Parsing(parse: JP.ParseError)
    // parseToJsonObject: JsonParseException "Not a JSON Object"
    | NotAnObject
    // parseToJsonArray: JsonParseException "Not a JSON Array"
    | NotAnArray

  /** How a call ends: a value, an exception, or a token or string loop
      that never stops and grows its list until the heap is exhausted. */
  datatype Outcome<+T> = Returns(value: T) | Throws(error: JsonError) | OutOfMemory

  /** The parser run on whatever a lexer produced. */
  function Finish<S>(lexed: Step<seq<Token>, S>): (r: Outcome<Value>)
    ensures lexed.Error? <==> r.Throws? && r.error.Lexing?
    ensures lexed.Error? ==> r.error.lex == lexed.failure
    ensures lexed.Diverges? <==> r.OutOfMemory?
    ensures lexed.Done? ==> (r.Returns? <==> JP.Parse(lexed.value).Ok?)
    ensures r.Returns? ==> lexed.Done? && JP.Parse(lexed.value) == Ok(r.value)
  {
    match lexed
    case Error(e) => Throws(Lexing(e))
    case Diverges => OutOfMemory
    case Done(toks, _) =>
      match JP.Parse(toks)
      case Ok(v) => Returns(v)
      case Fail(e) => Throws(Parsing(e))
  }

  /** The reader-independent meaning of a text: the reference lexer, then
      the strict parser. */
  function Reference(str: Text): (r: Outcome<Value>)
    ensures r.Returns? ==> JP.Producible(r.value)
  {
    Finish(SpecTokens(str, TokenizerRules))
  }

  /** `parse(Reader)`: a reader delivering `pieces`, one read each (split
      into buffer-sized reads when longer). While the whole input arrives
      in one read, the result is that of the reference pipeline. */
  function ParseReader(pieces: seq<Text>): (r: Outcome<Value>)
    requires NonEmptyPieces(pieces)
    ensures r.Returns? ==> JP.Producible(r.value)
    ensures |pieces| <= 1 && (forall i | 0 <= i < |pieces| :: |pieces[i]| <= PR.BufferSize) ==> r == Reference(Flatten(pieces))
  {
    var s := PR.New(pieces);
    var lexed := TK.Tokenize(s, TK.AsWritten);
    AgreedFinish(lexed, SpecTokens(PR.Pending(s), TokenizerRules));
    Finish(lexed)
  }

  /** `parse(String)`: a `StringReader` over the text. Up to one buffer of
      8192 characters it means what the reference pipeline says. */
  function Parse(str: Text): (r: Outcome<Value>)
    ensures r.Returns? ==> JP.Producible(r.value)
    ensures |str| <= PR.BufferSize ==> r == Reference(str)
  {
    var pieces := if str == [] then [] else [str];
    assert Flatten(pieces) == str;
    ParseReader(pieces)
  }

  /** `parseToJsonObject`: the root must be an object. */
  function ParseToJsonObject(str: Text): (r: Outcome<JsonObject>)
    ensures r.OutOfMemory? <==> Parse(str).OutOfMemory?
    ensures r == Throws(NotAnObject) <==> Parse(str).Returns? && !Parse(str).value.Obj?
  {
    match Parse(str)
    case Returns(v) => if v.Obj? then Returns(v.obj) else Throws(NotAnObject)
    case Throws(e) => Throws(e)
    case OutOfMemory => OutOfMemory
  }

  /** `parseToJsonArray`: the root must be an array. */
  function ParseToJsonArray(str: Text): (r: Outcome<JsonArray>)
    ensures r.OutOfMemory? <==> Parse(str).OutOfMemory?
    ensures r == Throws(NotAnArray) <==> Parse(str).Returns? && !Parse(str).value.Arr?
  {
    match Parse(str)
    case Returns(v) => if v.Arr? then Returns(v.arr) else Throws(NotAnArray)
    case Throws(e) => Throws(e)
    case OutOfMemory => OutOfMemory
  }

  /** `parse(Reader)` with the refilling `peek`: whatever the reads, the
      result is that of the reference pipeline on the characters. */
  function ParseReaderWhole(pieces: seq<Text>): (r: Outcome<Value>)
    requires NonEmptyPieces(pieces)
    ensures r == Reference(Flatten(pieces))
  {
    var s := PR.New(pieces);
    var lexed := TK.Tokenize(s, TK.Refilling);
    AgreedFinish(lexed, SpecTokens(PR.Pending(s), TokenizerRules));
    Finish(lexed)
  }

  /** `parse(String)` with the refilling `peek`. */
  function ParseWhole(str: Text): (r: Outcome<Value>)
    ensures r == Reference(str)
  {
    var pieces := if str == [] then [] else [str];
    assert Flatten(pieces) == str;
    ParseReaderWhole(pieces)
  }

  /** Lexers that agree give the parser the same tokens, so `Json` ends
      the same way. */
  lemma AgreedFinish(r: Step<seq<Token>, PR.State>, q: Step<seq<Token>, Text>)
    ensures TK.Agrees(r, q) ==> Finish(r) == Finish(q)
  {
  }

  /** `parseToJsonObject` returns an object exactly when `parse` returns
      that object, and passes on every exception of `parse`. */
  lemma ObjectEntryPoint(str: Text, o: JsonObject)
    ensures ParseToJsonObject(str) == Returns(o) <==> Parse(str) == Returns(Obj(o))
    ensures Parse(str).Throws? ==> ParseToJsonObject(str) == Throws(Parse(str).error)
  {
  }

  /** `parseToJsonArray` returns an array exactly when `parse` returns that
      array, and passes on every exception of `parse`. */
  lemma ArrayEntryPoint(str: Text, a: JsonArray)
    ensures ParseToJsonArray(str) == Returns(a) <==> Parse(str) == Returns(Arr(a))
    ensures Parse(str).Throws? ==> ParseToJsonArray(str) == Throws(Parse(str).error)
  {
  }

  /** No text is both an object and an array: at most one typed entry
      point returns. */
  lemma TypedEntryPointsExclusive(str: Text)
    ensures !(ParseToJsonObject(str).Returns? && ParseToJsonArray(str).Returns?)
  {
  }

  const One: Unit := '1' as Unit
  const Two: Unit := '2' as Unit

  /** A bare number is a JSON text `parse` accepts, and one that both typed
      entry points reject. */
  lemma ScalarRoot()
    ensures Parse([One]) == Returns(Int32(1))
    ensures ParseToJsonObject([One]) == Throws(NotAnObject)
    ensures ParseToJsonArray([One]) == Throws(NotAnArray)
  {
    var p := [One];
    assert DigitRun(p);
    DigitRunIsOneToken(p);
    ParseShowInteger(1, Int32Min, Int32Max);
    assert ShowInteger(1) == p;
    assert JP.ParseNumber(p) == Ok(Int32(1));
    assert JP.Parse([Token(Number, p), EndToken]) == Ok(Int32(1));
  }

  /** Every `-` stalls `Tokenizer`: a negative number, alone or inside an
      array, never returns, and the Java token list grows until the heap
      runs out. */
  lemma NegativeNumbersNeverReturn()
    ensures Parse([Minus, One]) == OutOfMemory
    ensures Parse([LeftBracket, Minus, One, RightBracket]) == OutOfMemory
  {
    MinusFirst();
    MinusInArray();
  }

  /** `-1`: the first token stalls. */
  lemma MinusFirst()
    ensures SpecTokens([Minus, One], TokenizerRules).Diverges?
  {
    var a: Text := [Minus, One];
    assert DropWhitespace(a, JsonWhitespace) == a by {
      assert a[0] !in JsonWhitespace;
    }
    MinusStalls(a);
  }

  /** `[-1]`: the token after `[` stalls. */
  lemma MinusInArray()
    ensures SpecTokens([LeftBracket, Minus, One, RightBracket], TokenizerRules).Diverges?
  {
    var b: Text := [LeftBracket, Minus, One, RightBracket];
    var c: Text := [Minus, One, RightBracket];
    assert DropWhitespace(b, JsonWhitespace) == b by {
      assert b[0] !in JsonWhitespace;
    }
    assert DropWhitespace(c, JsonWhitespace) == c by {
      assert c[0] !in JsonWhitespace;
    }
    MinusStalls(c);
    assert b[1..] == c;
    assert SpecToken(b, TokenizerRules) == Done(Token(BeginArray, [LeftBracket]), c);
  }

  /** A string without its closing quote never returns: the string loop
      appends EOF until the heap runs out. */
  lemma UnterminatedStringNeverReturns()
    ensures Parse([Quote, One]) == OutOfMemory
  {
    var p: Text := [Quote, One];
    assert DropWhitespace(p, JsonWhitespace) == p by {
      assert p[0] !in JsonWhitespace;
    }
    assert p[1..] == [One];
    UnterminatedStringStalls(p, TokenizerRules);
  }

  /** `[`, spaces up to the 8191st character, then `12]`: the `1` is the
      last character of the first 8192-character read of the
      `StringReader`, and the `2` is the first of the second. */
  const Straddling: Text := [LeftBracket] + seq(PR.BufferSize - 2, _ => Space) + [One, Two, RightBracket]

  /** With the original `peek`, the number is cut at the end of the first
      read: the parser sees two numbers in a row and fails at the second,
      where the reference pipeline and the refilling `peek` read `[12]`. */
  lemma StraddlingNumber()
    ensures TK.Tokenize(PR.FromString(Straddling), TK.AsWritten).Done?
    ensures TK.Tokenize(PR.FromString(Straddling), TK.AsWritten).value
              == [Token(BeginArray, [LeftBracket]), Token(Number, [One]), Token(Number, [Two]), Token(EndArray, [RightBracket]), EndToken]
    ensures Parse(Straddling) == Throws(Parsing(JP.ExpectedKind(SepComma, Token(Number, [Two]))))
    ensures ParseWhole(Straddling) == Returns(Arr(JsonArray([Int32(12)])))
  {
    StraddlingTokens();
    SplitTokensRejected(TK.Tokenize(PR.FromString(Straddling), TK.AsWritten).value);
    WholeNumberAccepted();
  }

  /** The tokens of the straddling text with the original `peek`. */
  lemma StraddlingTokens()
    ensures TK.Tokenize(PR.FromString(Straddling), TK.AsWritten).Done?
    ensures TK.Tokenize(PR.FromString(Straddling), TK.AsWritten).value
              == [Token(BeginArray, [LeftBracket]), Token(Number, [One]), Token(Number, [Two]), Token(EndArray, [RightBracket]), EndToken]
  {
    var s0 := PR.FromString(Straddling);
    var s1 := StraddlingFirstRead();
    var s2 := StraddlingPadding(s1);
    var u := StraddlingSecondRead(s2);
    assert |PR.Pending(s2)| < |PR.Pending(s1)| < |PR.Pending(s0)|;
    TK.TokenizeStep(s1, TK.AsWritten, Token(Number, [One]), s2, u);
    TK.TokenizeStep(s0, TK.AsWritten, Token(BeginArray, [LeftBracket]), s1, [Token(Number, [One])] + u);
    ConsTwo(Token(BeginArray, [LeftBracket]), Token(Number, [One]), u);
  }

  lemma ConsTwo(a: Token, b: Token, u: seq<Token>)
    requires |u| == 3
    ensures [a] + ([b] + u) == [a, b, u[0], u[1], u[2]]
  {
  }

  /** The first read fills the buffer with the first 8192 characters, and
      `[` is the first token. */
  lemma StraddlingFirstRead() returns (s1: PR.State)
    ensures PR.Valid(s1) && s1.buffer == Straddling[..PR.BufferSize] && s1.pos == 1 && s1.size == PR.BufferSize
    ensures s1.rest == [[Two, RightBracket]]
    ensures PR.Pending(s1) == Straddling[1..]
    ensures TK.Start(PR.FromString(Straddling), TK.AsWritten) == Done(Token(BeginArray, [LeftBracket]), s1)
  {
    var s0 := PR.FromString(Straddling);
    var f := PR.FillBuffer(s0);
    assert Straddling[PR.BufferSize..] == [Two, RightBracket];
    assert f == PR.State([[Two, RightBracket]], Straddling[..PR.BufferSize], 0, PR.BufferSize);
    assert PR.HasMore(s0) == (true, f);
    s1 := f.(pos := 1);
    assert PR.Next(f) == (LeftBracket, s1);
    assert TK.Start(s0, TK.AsWritten) == TK.Dispatch(f, TK.AsWritten);
  }

  /** The spaces are skipped inside the window, and the `1` that ends it is
      a number on its own. */
  lemma StraddlingPadding(s1: PR.State) returns (s2: PR.State)
    requires PR.Valid(s1) && s1.buffer == Straddling[..PR.BufferSize] && s1.pos == 1 && s1.size == PR.BufferSize
    requires s1.rest == [[Two, RightBracket]]
    ensures s2 == s1.(pos := PR.BufferSize) && PR.Valid(s2) && PR.OneWindow(s2)
    ensures PR.Pending(s2) == [Two, RightBracket]
    ensures TK.Start(s1, TK.AsWritten) == Done(Token(Number, [One]), s2)
  {
    var t := s1.(pos := PR.BufferSize - 1);
    assert forall j | 1 <= j < PR.BufferSize - 1 :: s1.buffer[j] == Straddling[j] == Space;
    TK.WhitespaceInWindow(s1, t, TK.AsWritten);
    assert t.buffer[t.pos] == One;
    TK.DigitEndsWindow(t);
    s2 := s1.(pos := PR.BufferSize);
    assert PR.Pending(s2) == [] + Flatten([[Two, RightBracket]]);
  }

  /** The second read brings in `2]`, which fits one window: the rest of
      the tokens are those of the reference lexer. */
  lemma StraddlingSecondRead(s2: PR.State) returns (u: seq<Token>)
    requires PR.Valid(s2) && PR.OneWindow(s2) && PR.Pending(s2) == [Two, RightBracket]
    ensures u == [Token(Number, [Two]), Token(EndArray, [RightBracket]), EndToken]
    ensures TK.Tokenize(s2, TK.AsWritten).Done? && TK.Tokenize(s2, TK.AsWritten).value == u
  {
    var p: Text := [Two, RightBracket];
    assert [Two] + [RightBracket] == p;
    DigitsThenClose([Two]);
    u := [Token(Number, [Two]), Token(EndArray, [RightBracket]), EndToken];
    var q := SpecTokens(p, TokenizerRules);
    assert q == Done(u, []);
    TK.AgreedDone(TK.Tokenize(s2, TK.AsWritten), q);
  }

  /** A digit run and `]`: a number, the bracket and the end. */
  lemma DigitsThenClose(d: Text)
    requires d != [] && DigitRun(d)
    ensures SpecTokens(d + [RightBracket], TokenizerRules)
              == Done([Token(Number, d), Token(EndArray, [RightBracket]), EndToken], [])
  {
    var p := d + [RightBracket];
    assert DropWhitespace(p, JsonWhitespace) == p by {
      assert p[0] !in JsonWhitespace;
    }
    NumberBeforeClose(d);
    SpecTokensStep(p, TokenizerRules);
    assert [Token(Number, d)] + [Token(EndArray, [RightBracket]), EndToken]
        == [Token(Number, d), Token(EndArray, [RightBracket]), EndToken];
  }

  /** The number token of a digit run stops at `]`, which is a token of its
      own before the end. */
  lemma NumberBeforeClose(d: Text)
    requires d != [] && DigitRun(d)
    ensures SpecTokenAt(d + [RightBracket], TokenizerRules) == Done(Token(Number, d), [RightBracket])
    ensures SpecTokens([RightBracket], TokenizerRules) == Done([Token(EndArray, [RightBracket]), EndToken], [])
  {
    DigitsThenOther(d, [RightBracket], AsciiDigits);
    var e: Text := [RightBracket];
    assert SpecFraction(e, AsciiDigits) == ([], e);
    assert SpecExponent(e, AsciiDigits) == ([], e);
    assert d + [] + [] == d;
    OneTokenThenEnd(e, TokenizerRules, Token(EndArray, [RightBracket]));
  }

  /** The parser meets the second number where it expects `,` or `]`. */
  lemma SplitTokensRejected(toks: seq<Token>)
    requires toks == [Token(BeginArray, [LeftBracket]), Token(Number, [One]), Token(Number, [Two]), Token(EndArray, [RightBracket]), EndToken]
    ensures JP.Parse(toks) == Fail(JP.ExpectedKind(SepComma, Token(Number, [Two])))
  {
    ParseShowInteger(1, Int32Min, Int32Max);
    assert ShowInteger(1) == [One];
    assert JP.ParseValue(toks, 1) == Ok((Int32(1), 2));
    assert JP.Consume(toks, 2, SepComma) == Fail(JP.ExpectedKind(SepComma, Token(Number, [Two])));
    assert JP.ParseElements(toks, 1, JA.Empty()) == Fail(JP.ExpectedKind(SepComma, Token(Number, [Two])));
    assert JP.ParseValue(toks, 0) == JP.ParseArray(toks, 0);
  }

  /** The reference pipeline reads one number 12 in an array. */
  lemma WholeNumberAccepted()
    ensures Reference(Straddling) == Returns(Arr(JsonArray([Int32(12)])))
  {
    var rest := Straddling[1..];
    assert SpecToken(Straddling, TokenizerRules) == Done(Token(BeginArray, [LeftBracket]), rest) by {
      assert DropWhitespace(Straddling, JsonWhitespace) == Straddling;
    }
    PaddedTwelve(rest);
    SpecTokensStep(Straddling, TokenizerRules);
    var toks := [Token(BeginArray, [LeftBracket]), Token(Number, [One, Two]), Token(EndArray, [RightBracket]), EndToken];
    assert [Token(BeginArray, [LeftBracket])] + [Token(Number, [One, Two]), Token(EndArray, [RightBracket]), EndToken] == toks;
    TwelveAccepted(toks);
  }

  /** After the `[`: spaces, then `12]`. */
  lemma PaddedTwelve(rest: Text)
    requires rest == Straddling[1..]
    ensures SpecTokens(rest, TokenizerRules) == Done([Token(Number, [One, Two]), Token(EndArray, [RightBracket]), EndToken], [])
  {
    var pad := seq(PR.BufferSize - 2, _ => Space);
    var twelve := [One, Two];
    var x := twelve + [RightBracket];
    assert rest == pad + x;
    DropWhitespacePrefix(pad, x, JsonWhitespace);
    assert DropWhitespace(x, JsonWhitespace) == x by {
      assert x[0] !in JsonWhitespace;
    }
    assert DigitRun(twelve);
    NumberBeforeClose(twelve);
    assert SpecToken(rest, TokenizerRules) == Done(Token(Number, twelve), [RightBracket]);
    SpecTokensStep(rest, TokenizerRules);
    assert [Token(Number, twelve)] + [Token(EndArray, [RightBracket]), EndToken]
        == [Token(Number, twelve), Token(EndArray, [RightBracket]), EndToken];
  }

  lemma TwelveAccepted(toks: seq<Token>)
    requires toks == [Token(BeginArray, [LeftBracket]), Token(Number, [One, Two]), Token(EndArray, [RightBracket]), EndToken]
    ensures JP.Parse(toks) == Ok(Arr(JsonArray([Int32(12)])))
  {
    ParseShowInteger(12, Int32Min, Int32Max);
    assert ShowInteger(12) == [One, Two];
    assert JP.ParseValue(toks, 1) == Ok((Int32(12), 2));
    assert JP.ParseElements(toks, 1, JA.Empty()) == Ok((Arr(JsonArray([Int32(12)])), 3));
    assert JP.ParseValue(toks, 0) == JP.ParseArray(toks, 0);
    assert JP.Current(toks, 3) == EndToken;
  }
}

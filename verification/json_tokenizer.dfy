/** `JsonTokenizer`: the lexer over the cached `CharReader`. Each function
    follows one private method of the source, threading the reader state
    through; each is proved to agree with the reference lexer `LexSpec` on
    the input the reader has left, so how the reader happens to split the
    input into reads never changes the token list. */
module JsonTokenizer {
  import opened Base
  import opened Tokens
  import opened LexSpec
  import CR = CharReader

  /** A step of this lexer agrees with a reference step when both produce
      the same value, the reader is left before the same input, or both
      fail alike, or both run forever. */
  predicate Agrees<T(==)>(r: Step<T, CR.State>, q: Step<T, Text>) {
    && (r.Done? ==> q.Done? && r.value == q.value && CR.Settled(r.state) && CR.Input(r.state) == q.state)
    && (r.Error? ==> q.Error? && r.failure == q.failure)
    && (r.Diverges? ==> q.Diverges?)
  }

  /** `validateExpectedChar`: no error exactly when the characters match. */
  function ValidateExpectedChar(expected: Unit, actual: Unit): (r: Option<LexError>)
    ensures r.None? <==> actual == expected
    ensures r.Some? ==> r.value == Expected(expected, actual)
  {
    if actual != expected then Some(Expected(expected, actual)) else None
  }

  /** The loop of `readBoolean` from index `i` on: read `word` (the rest of
      the literal) one character at a time. */
  function ReadWord(s: CR.State, word: Text): (r: Step<Text, CR.State>)
    requires CR.Settled(s) && EOF !in word
    ensures Agrees(r, SpecWord(CR.Input(s), word))
    decreases |word|
  {
    if word == [] then Done([], s)
    else
      var (ch, s1) := CR.Next(s);
      match ValidateExpectedChar(word[0], ch)
      case Some(e) => Error(e)
      case None =>
        var r := ReadWord(s1, word[1..]);
        if r.Done? then Done([ch] + r.value, r.state) else r
  }

  /** `readBoolean`: the rest of `true` or `false`, chosen by the first
      character; the token's text is the literal. */
  function ReadBoolean(first: Unit, s: CR.State): (r: Step<Token, CR.State>)
    requires CR.Settled(s) && (first == 't' as Unit || first == 'f' as Unit)
    ensures var word := if first == 't' as Unit then TrueText else FalseText;
            Agrees(r, TokenOf(Boolean, word, SpecWord(CR.Input(s), word[1..])))
  {
    var expected := if first == 't' as Unit then TrueText else FalseText;
    assert [first] + expected[1..] == expected;
    match ReadWord(s, expected[1..])
    case Done(text, s1) => Done(Token(Boolean, [first] + text), s1)
    case Error(e) => Error(e)
    case Diverges => Diverges
  }

  /** `readNull`: three checked reads of `u`, `l`, `l`. */
  function ReadNull(s: CR.State): (r: Step<Token, CR.State>)
    requires CR.Settled(s)
    ensures Agrees(r, TokenOf(Null, NullText, SpecWord(CR.Input(s), NullText[1..])))
  {
    match ReadNullChars(s)
    case Done(_, s1) => Done(Token(Null, NullText), s1)
    case Error(e) => Error(e)
    case Diverges => Diverges
  }

  function ReadNullChars(s: CR.State): (r: Step<Text, CR.State>)
    requires CR.Settled(s)
    ensures Agrees(r, SpecWord(CR.Input(s), NullText[1..]))
  {
    var p := CR.Input(s);
    var w := NullText[1..];
    SpecWordStep(p, w);
    match ExpectChar(s, w[0])
    case Fail(e) => Error(e)
    case Ok(s1) =>
      SpecWordStep(p[1..], w[1..]);
      match ExpectChar(s1, w[1])
      case Fail(e) => Error(e)
      case Ok(s2) =>
        assert p[1..][1..] == p[2..];
        SpecWordStep(p[2..], w[2..]);
        match ExpectChar(s2, w[2])
        case Fail(e) => Error(e)
        case Ok(s3) => Done(w, s3)
  }

  /** `validateExpectedChar(expected, charReader.next())`. */
  function ExpectChar(s: CR.State, expected: Unit): (r: Result<CR.State, LexError>)
    requires CR.Settled(s) && expected != EOF
    ensures r.Ok? <==> CR.Input(s) != [] && CR.Input(s)[0] == expected
    ensures r.Ok? ==> CR.Settled(r.value) && CR.Input(r.value) == CR.Input(s)[1..]
    ensures r.Fail? ==> r.error == Expected(expected, Head(CR.Input(s)))
  {
    var (ch, s1) := CR.Next(s);
    match ValidateExpectedChar(expected, ch)
    case Some(e) => Fail(e)
    case None => Ok(s1)
  }

  /** `readString`: the loop after the opening quote, with `acc` what the
      builder holds so far. At end of input `next` keeps returning EOF, which
      is neither a quote, a backslash nor a control character, so the loop
      appends it forever. */
  function ReadStringBody(s: CR.State, acc: Text): (r: Step<Text, CR.State>)
    requires CR.Settled(s)
    ensures Agrees(r, Prepend(acc, SpecString(CR.Input(s))))
    decreases |CR.Input(s)|
  {
    var (ch, s1) := CR.Next(s);
    if ch == Quote then
      assert acc + [] == acc;
      Done(acc, s1)
    else if ch == Backslash then
      match ProcessEscape(s1)
      case Ok((d, s2)) =>
        PrependPrepend(acc, [d], SpecString(CR.Input(s2)));
        ReadStringBody(s2, acc + [d])
      case Fail(e) => Error(e)
    else if ch < 0x20 then Error(ControlCharacter(ch))
    else if ch == EOF then Diverges
    else
      PrependPrepend(acc, [ch], SpecString(CR.Input(s1)));
      ReadStringBody(s1, acc + [ch])
  }

  function ReadString(s: CR.State): (r: Step<Token, CR.State>)
    requires CR.Settled(s)
    ensures Agrees(r, StringToken(SpecString(CR.Input(s))))
  {
    match ReadStringBody(s, [])
    case Done(text, s1) => Done(Token(String, text), s1)
    case Error(e) => Error(e)
    case Diverges => Diverges
  }

  /** `processEscape`: the character after a backslash decides the decoded
      character. */
  function ProcessEscape(s: CR.State): (r: Result<(Unit, CR.State), LexError>)
    requires CR.Settled(s)
    ensures var q := SpecEscape(CR.Input(s));
            && (r.Ok? <==> q.Ok?)
            && (r.Ok? ==> r.value.0 == q.value.0 && CR.Settled(r.value.1) && CR.Input(r.value.1) == q.value.1)
            && (r.Fail? ==> r.error == q.error)
  {
    var (ch, s1) := CR.Next(s);
    match SimpleEscape(ch)
    case Some(d) => Ok((d, s1))
    case None =>
      if ch == 'u' as Unit then ReadUnicodeEscape(s1)
      else Fail(InvalidEscape(ch))
  }

  /** `readUnicodeEscape`: four reads, then `Integer.parseInt(hex, 16)`. */
  function ReadUnicodeEscape(s: CR.State): (r: Result<(Unit, CR.State), LexError>)
    requires CR.Settled(s)
    ensures var hex := Take(CR.Input(s), 4);
            && (r.Ok? <==> ParseHexUnit(hex).Some?)
            && (r.Ok? ==> r.value.0 == ParseHexUnit(hex).value && CR.Settled(r.value.1)
                          && CR.Input(r.value.1) == Skip(CR.Input(s), 4))
            && (r.Fail? ==> r.error == BadUnicodeEscape(hex))
  {
    var (hex, s1) := ReadChars(s, 4);
    match ParseHexUnit(hex)
    case Some(d) => Ok((d, s1))
    case None => Fail(BadUnicodeEscape(hex))
  }

  /** `n` calls of `next`: the characters returned, EOF once the input is
      used up. */
  function ReadChars(s: CR.State, n: nat): (r: (Text, CR.State))
    requires CR.Settled(s)
    ensures CR.Settled(r.1)
    ensures r.0 == Take(CR.Input(s), n) && CR.Input(r.1) == Skip(CR.Input(s), n)
    decreases n
  {
    if n == 0 then ([], s)
    else
      var (c, s1) := CR.Next(s);
      var (cs, s2) := ReadChars(s1, n - 1);
      TakeSkipStep(CR.Input(s), n);
      ([c] + cs, s2)
  }

  /** `readDigits`: take characters while `peek` shows a digit. */
  function ReadDigits(s: CR.State, digits: set<Unit>): (r: (Text, CR.State))
    requires CR.Settled(s) && EOF !in digits
    ensures CR.Settled(r.1)
    ensures r.0 == SpecDigits(CR.Input(s), digits).0 && CR.Input(r.1) == SpecDigits(CR.Input(s), digits).1
    decreases |CR.Input(s)|
  {
    var (c, s1) := CR.Peek(s);
    if c in digits then
      var (d, s2) := CR.Next(s1);
      var (ds, s3) := ReadDigits(s2, digits);
      ([d] + ds, s3)
    else ([], s1)
  }

  /** `readIntegerPart`: an optional `-`, then digits. */
  function ReadIntegerPart(s: CR.State, digits: set<Unit>): (r: (Text, CR.State))
    requires CR.Settled(s) && EOF !in digits
    ensures CR.Settled(r.1)
    ensures var p := CR.Input(s);
            var q := if Head(p) == Minus then p[1..] else p;
            r.0 == p[..|p| - |q|] + SpecDigits(q, digits).0 && CR.Input(r.1) == SpecDigits(q, digits).1
  {
    var (c, s1) := CR.Peek(s);
    if c == Minus then
      var (m, s2) := CR.Next(s1);
      var (ds, s3) := ReadDigits(s2, digits);
      assert CR.Input(s)[..1] == [m];
      ([m] + ds, s3)
    else
      assert CR.Input(s)[..0] == [];
      ReadDigits(s1, digits)
  }

  /** `readFractionPart`: `.` and digits, if `peek` shows a `.`. */
  function ReadFractionPart(s: CR.State, digits: set<Unit>): (r: (Text, CR.State))
    requires CR.Settled(s) && EOF !in digits
    ensures CR.Settled(r.1)
    ensures r.0 == SpecFraction(CR.Input(s), digits).0 && CR.Input(r.1) == SpecFraction(CR.Input(s), digits).1
  {
    var (c, s1) := CR.Peek(s);
    if c == Dot then
      var (d, s2) := CR.Next(s1);
      var (ds, s3) := ReadDigits(s2, digits);
      ([d] + ds, s3)
    else ([], s1)
  }

  /** `readExponentPart`: `e` or `E`, an optional sign, then digits. The
      source calls `peek` twice per test; `peek` is idempotent
      (`CharReader.PeekIdempotent`), so one call stands for both. */
  function ReadExponentPart(s: CR.State, digits: set<Unit>): (r: (Text, CR.State))
    requires CR.Settled(s) && EOF !in digits
    ensures CR.Settled(r.1)
    ensures r.0 == SpecExponent(CR.Input(s), digits).0 && CR.Input(r.1) == SpecExponent(CR.Input(s), digits).1
  {
    var (c, s1) := CR.Peek(s);
    if c == SmallE || c == BigE then
      var (e, s2) := CR.Next(s1);
      var (ds, s3) := ReadSignedDigits(s2, digits);
      ([e] + ds, s3)
    else ([], s1)
  }

  /** The rest of the exponent: an optional sign, then digits. */
  function ReadSignedDigits(s: CR.State, digits: set<Unit>): (r: (Text, CR.State))
    requires CR.Settled(s) && EOF !in digits
    ensures CR.Settled(r.1)
    ensures r.0 == SpecSignedDigits(CR.Input(s), digits).0 && CR.Input(r.1) == SpecSignedDigits(CR.Input(s), digits).1
  {
    var (c, s1) := CR.Peek(s);
    if c == Plus || c == Minus then
      var (sign, s2) := CR.Next(s1);
      var (ds, s3) := ReadDigits(s2, digits);
      ([sign] + ds, s3)
    else ReadDigits(s1, digits)
  }

  /** `readNumber`: step back onto the character `generateToken` consumed,
      then the three parts. `back` throws at the start of the buffer. */
  function ReadNumber(s: CR.State, digits: set<Unit>): (r: Step<Token, CR.State>)
    requires CR.Settled(s) && s.pos <= s.size && EOF !in digits
    ensures s.pos == 0 ==> r == Error(BackAtStart)
    ensures s.pos > 0 ==>
              var p := CR.Input(CR.Back(s).value);
              var n := SpecNumber(p, true, digits);
              Agrees(r, Done(Token(Number, n.0), n.1))
  {
    match CR.Back(s)
    case Fail(e) => Error(e)
    case Ok(s1) =>
      SpecNumberParts(CR.Input(s1), digits);
      var (ip, s2) := ReadIntegerPart(s1, digits);
      var (fp, s3) := ReadFractionPart(s2, digits);
      var (ep, s4) := ReadExponentPart(s3, digits);
      Done(Token(Number, ip + fp + ep), s4)
  }

  /** `generateToken`: end of document when nothing remains; otherwise skip
      whitespace and dispatch on the next character. */
  function GenerateToken(s: CR.State, t: CharClasses): (r: Step<Token, CR.State>)
    requires CR.Settled(s) && JavaClasses(t)
    ensures Agrees(r, SpecToken(CR.Input(s), JsonTokenizerRules(t)))
  {
    var (more, s1) := CR.HasMore(s);
    if !more then Done(EndToken, s1)
    else DispatchToken(CR.SkipWhitespace(s1, t.whitespace), t)
  }

  /** The `switch` of `generateToken` on the character `next` returns. A
      character no case claims, and EOF after trailing whitespace, end the
      document. */
  function DispatchToken(s: CR.State, t: CharClasses): (r: Step<Token, CR.State>)
    requires CR.Settled(s) && JavaClasses(t)
    ensures Agrees(r, SpecTokenAt(CR.Input(s), JsonTokenizerRules(t)))
  {
    var (ch, s1) := CR.Next(s);
    match Structural(ch)
    case Some(tok) => Done(tok, s1)
    case None => ReadScalar(s, t)
  }

  /** The cases of the `switch` that read further: strings, literals and
      numbers. */
  function ReadScalar(s: CR.State, t: CharClasses): (r: Step<Token, CR.State>)
    requires CR.Settled(s) && JavaClasses(t) && Structural(CR.Next(s).0).None?
    ensures Agrees(r, SpecTokenAt(CR.Input(s), JsonTokenizerRules(t)))
  {
    var (ch, s1) := CR.Next(s);
    ghost var q := CR.Input(s);
    assert ch != EOF ==> q != [] && q[0] == ch && q[1..] == CR.Input(s1);
    if ch == Quote then ReadString(s1)
    else if ch == 'n' as Unit then ReadNull(s1)
    else if ch == 't' as Unit || ch == 'f' as Unit then ReadBoolean(ch, s1)
    else if ch == Minus || ch in t.digits then
      CR.NextBackNext(s);
      ReadNumber(s1, t.digits)
    else Done(EndToken, s1)
  }

  /** `tokenize`: generate tokens until END_DOCUMENT, which is kept. */
  function Tokenize(s: CR.State, t: CharClasses): (r: Step<seq<Token>, CR.State>)
    requires CR.Settled(s) && JavaClasses(t)
    ensures Agrees(r, SpecTokens(CR.Input(s), JsonTokenizerRules(t)))
    decreases |CR.Input(s)|
  {
    match GenerateToken(s, t)
    case Error(e) => Error(e)
    case Diverges => Diverges
    case Done(tok, s1) =>
      if tok.kind == EndDocument then Done([tok], s1)
      else
        var r := Tokenize(s1, t);
        if r.Done? then Done([tok] + r.value, r.state) else r
  }

  /** `tokenizer(Reader)`: a fresh reader with the default buffer size.
      Since every step agrees with the reference lexer, the token list
      depends only on the characters the reader delivers (up to the first
      U+FFFF), never on how it splits them into reads. */
  function TokenizeReader(pieces: seq<Text>, t: CharClasses): (r: Step<seq<Token>, CR.State>)
    requires NonEmptyPieces(pieces) && JavaClasses(t)
    ensures Agrees(r, SpecTokens(CR.Truncate(Flatten(pieces)), JsonTokenizerRules(t)))
    ensures r.Done? ==> EndsOnce(r.value)
    ensures r.Error? ==> r.failure != BackAtStart
  {
    var s := CR.New(Some(pieces), CR.DefaultBufferSize).value;
    Tokenize(s, t)
  }

  /** `tokenizer(String)`: a `StringReader` over the string. */
  function TokenizeString(str: Text, t: CharClasses): (r: Step<seq<Token>, CR.State>)
    requires JavaClasses(t)
    ensures Agrees(r, SpecTokens(CR.Truncate(str), JsonTokenizerRules(t)))
  {
    var pieces := if str == [] then [] else [str];
    assert Flatten(pieces) == str;
    TokenizeReader(pieces, t)
  }

  /** A string without its closing quote never ends: `next` returns EOF,
      which the loop appends like any other character. */
  lemma UnterminatedStringLoops(t: CharClasses)
    requires JavaClasses(t)
    ensures TokenizeString([Quote, 'a' as Unit], t).Diverges?
  {
    var p: Text := [Quote, 'a' as Unit];
    assert CR.Truncate(p) == p by {
      assert CR.Truncate(p[1..]) == ['a' as Unit] + CR.Truncate([]);
    }
    assert DropWhitespace(p, t.whitespace) == p by {
      assert Quote < 0x80 && Quote !in AsciiJavaWhitespace;
    }
    assert p[1..] == ['a' as Unit];
    UnterminatedStringStalls(p, JsonTokenizerRules(t));
  }

  /** `tokenizer(CharReader)`: every exception becomes the one
      "Failed to tokenize" error. */
  function TokenizeCharReader(s: CR.State, t: CharClasses): (r: Step<seq<Token>, CR.State>)
    requires CR.Settled(s) && JavaClasses(t)
    ensures var q := SpecTokens(CR.Input(s), JsonTokenizerRules(t));
            && (r.Done? <==> q.Done?)
            && (r.Done? ==> r.value == q.value)
            && (r.Error? <==> q.Error?)
            && (r.Error? ==> r.failure == TokenizeFailed)
  {
    match Tokenize(s, t)
    case Error(_) => Error(TokenizeFailed)
    case other => other
  }

  /** Two readers delivering the same characters in different pieces give
      the same outcome. */
  lemma ChunkingIrrelevant(a: seq<Text>, b: seq<Text>, t: CharClasses)
    requires NonEmptyPieces(a) && NonEmptyPieces(b) && JavaClasses(t)
    requires Flatten(a) == Flatten(b)
    ensures TokenizeReader(a, t).Done? <==> TokenizeReader(b, t).Done?
    ensures TokenizeReader(a, t).Done? ==> TokenizeReader(a, t).value == TokenizeReader(b, t).value
    ensures TokenizeReader(a, t).Error? <==> TokenizeReader(b, t).Error?
    ensures TokenizeReader(a, t).Error? ==> TokenizeReader(a, t).failure == TokenizeReader(b, t).failure
  {
    var q := SpecTokens(CR.Truncate(Flatten(a)), JsonTokenizerRules(t));
    SameOutcome(TokenizeReader(a, t), TokenizeReader(b, t), q);
  }

  /** Two steps that agree with the same reference step have the same
      outcome. */
  lemma SameOutcome(ra: Step<seq<Token>, CR.State>, rb: Step<seq<Token>, CR.State>, q: Step<seq<Token>, Text>)
    requires Agrees(ra, q) && Agrees(rb, q)
    ensures ra.Done? <==> rb.Done?
    ensures ra.Done? ==> ra.value == rb.value
    ensures ra.Error? <==> rb.Error?
    ensures ra.Error? ==> ra.failure == rb.failure
  {
  }
}

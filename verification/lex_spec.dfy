/** A reference lexer over the plain input text, free of buffers, caches
    and pushback. Both buffered lexers are proved to agree with it: what
    `JsonTokenizer` and `Tokenizer` do character by character through their
    readers is what these functions say about the whole input at once. The
    two lexers differ only in the points `Rules` names. */
module LexSpec {
  import opened Base
  import opened Tokens

  /** The lexer-specific choices: `JsonTokenizer` uses the JDK character
      classes, reads a leading `-` into a number and ends the token list at
      an unknown character; `Tokenizer` uses the four JSON whitespace
      characters and ASCII digits, leaves `-` unread and rejects unknown
      characters. */
  datatype Rules = JsonTokenizerRules(classes: CharClasses) | TokenizerRules

  function Whitespace(rules: Rules): set<Unit> {
    if rules.JsonTokenizerRules? then rules.classes.whitespace else JsonWhitespace
  }

  function Digits(rules: Rules): set<Unit> {
    if rules.JsonTokenizerRules? then rules.classes.digits else AsciiDigits
  }

  predicate WellFormedRules(rules: Rules) {
    rules.JsonTokenizerRules? ==> JavaClasses(rules.classes)
  }

  /** `ESCAPE_MAP` of `JsonTokenizer` and the matching `switch` cases of
      `Tokenizer`: the eight escapes of section 7 of RFC 8259 other than
      `\u`. */
  function SimpleEscape(c: Unit): (r: Option<Unit>)
    ensures r.Some? <==> c in {Quote, Backslash, Slash, 'b' as Unit, 'f' as Unit, 'n' as Unit, 'r' as Unit, 't' as Unit}
  {
    if c == Quote then Some(Quote)
    else if c == Backslash then Some(Backslash)
    else if c == Slash then Some(Slash)
    else if c == 'b' as Unit then Some(Backspace)
    else if c == 'f' as Unit then Some(FormFeed)
    else if c == 'n' as Unit then Some(LineFeed)
    else if c == 'r' as Unit then Some(CarriageReturn)
    else if c == 't' as Unit then Some(Tab)
    else None
  }

  /** The `n` characters `n` calls of `next` return (EOF once the input is
      used up), and what is left afterwards. */
  function Take(p: Text, n: nat): (r: Text)
    ensures |r| == n
    ensures forall i | 0 <= i < n :: r[i] == (if i < |p| then p[i] else EOF)
  {
    seq(n, i requires 0 <= i < n => if i < |p| then p[i] else EOF)
  }

  function Skip(p: Text, n: nat): Text {
    if n >= |p| then [] else p[n..]
  }

  /** Read the characters of `word` one by one; the first mismatch is
      reported with the character expected and the one found. */
  function SpecWord(p: Text, word: Text): (r: Step<Text, Text>)
    requires EOF !in word
    ensures r.Done? ==> r.value == word && |p| >= |word| && p[..|word|] == word && r.state == p[|word|..]
    ensures !r.Diverges?
    ensures r.Error? ==> r.failure.Expected?
    ensures (|p| >= |word| && p[..|word|] == word) ==> r.Done?
  {
    if word == [] then Done([], p)
    else if p == [] || p[0] != word[0] then Error(Expected(word[0], Head(p)))
    else
      var r := SpecWord(p[1..], word[1..]);
      assert r.Done? ==> p[..|word|] == [p[0]] + p[1..][..|word| - 1];
      Prepend([word[0]], r)
  }

  /** One character of `SpecWord`. */
  lemma SpecWordStep(p: Text, word: Text)
    requires EOF !in word && word != []
    ensures SpecWord(p, word) ==
              if p == [] || p[0] != word[0] then Error(Expected(word[0], Head(p)))
              else Prepend([word[0]], SpecWord(p[1..], word[1..]))
  {
  }

  /** The body of a string after its opening quote: characters up to the
      closing quote with escapes decoded. Running out of input never ends
      the loop in the source, which keeps appending EOF. */
  function SpecString(p: Text): (r: Step<Text, Text>)
    ensures r.Done? ==> |r.state| < |p|
    ensures r.Error? ==> r.failure.ControlCharacter? || r.failure.InvalidEscape? || r.failure.BadUnicodeEscape?
    decreases |p|
  {
    if p == [] then Diverges
    else
      var c := p[0];
      if c == Quote then Done([], p[1..])
      else if c == Backslash then
        match SpecEscape(p[1..])
        case Ok((d, rest)) => Prepend([d], SpecString(rest))
        case Fail(e) => Error(e)
      else if c < 0x20 then Error(ControlCharacter(c))
      else Prepend([c], SpecString(p[1..]))
  }

  /** The escape after a backslash: one of the eight simple escapes, or `u`
      and four characters that `Integer.parseInt(_, 16)` accepts, cast to a
      `char`. Running out of input reads EOF, which is no escape. */
  function SpecEscape(p: Text): (r: Result<(Unit, Text), LexError>)
    ensures r.Ok? ==> |r.value.1| <= |p|
    ensures r.Ok? && p != [] ==> |r.value.1| < |p|
    ensures p == [] ==> r == Fail(InvalidEscape(EOF))
    ensures r.Fail? ==> r.error.InvalidEscape? || r.error.BadUnicodeEscape?
  {
    var e := Head(p);
    match SimpleEscape(e)
    case Some(d) => Ok((d, Tail(p)))
    case None =>
      if e == 'u' as Unit then
        var hex := Take(Tail(p), 4);
        match ParseHexUnit(hex)
        case Some(d) => Ok((d, Skip(Tail(p), 4)))
        case None => Fail(BadUnicodeEscape(hex))
      else Fail(InvalidEscape(e))
  }

  /** `\u0041` is `A`. */
  lemma UnicodeEscapeExample()
    ensures SpecEscape(['u' as Unit, '0' as Unit, '0' as Unit, '4' as Unit, '1' as Unit]) == Ok(('A' as Unit, []))
  {
    var a: Text := ['0' as Unit, '0' as Unit, '4' as Unit, '1' as Unit];
    assert Take(a, 4) == a;
  }

  /** `\u-001` is U+FFFF: `Integer.parseInt` accepts the sign, and the
      cast to `char` wraps. */
  lemma SignedUnicodeEscape()
    ensures SpecEscape(['u' as Unit, Minus, '0' as Unit, '0' as Unit, '1' as Unit]) == Ok((0xFFFF, []))
  {
    var b: Text := [Minus, '0' as Unit, '0' as Unit, '1' as Unit];
    assert Take(b, 4) == b;
  }

  /** Put `prefix` in front of a decoded text, leaving failures alone. */
  function Prepend(prefix: Text, r: Step<Text, Text>): (r': Step<Text, Text>)
    ensures r'.Done? <==> r.Done?
    ensures r'.Done? ==> r'.value == prefix + r.value && r'.state == r.state
    ensures !r.Done? ==> r' == r
  {
    match r
    case Done(t, rest) => Done(prefix + t, rest)
    case other => other
  }

  /** Prepending in two steps is prepending the concatenation. */
  lemma PrependPrepend(a: Text, b: Text, r: Step<Text, Text>)
    ensures Prepend(a + b, r) == Prepend(a, Prepend(b, r))
  {
    if r.Done? {
      assert (a + b) + r.value == a + (b + r.value);
    }
  }

  /** `n` reads advance through `Take` and leave `Skip`, one at a time. */
  lemma TakeSkipStep(p: Text, n: nat)
    requires n > 0
    ensures Take(p, n) == [Head(p)] + Take(Tail(p), n - 1)
    ensures Skip(p, n) == Skip(Tail(p), n - 1)
  {
  }

  /** The longest prefix of `p` made of `digits`. */
  function SpecDigits(p: Text, digits: set<Unit>): (r: (Text, Text))
    ensures r.0 + r.1 == p
    ensures forall i | 0 <= i < |r.0| :: r.0[i] in digits
    ensures r.1 == [] || r.1[0] !in digits
  {
    if p != [] && p[0] in digits then
      var (d, rest) := SpecDigits(p[1..], digits);
      ([p[0]] + d, rest)
    else ([], p)
  }

  /** The number grammar both lexers read, looser than section 6 of RFC
      8259: an optional `-` (only where `signed`), a digit run, then
      optionally `.` and a digit run, then optionally `e` or `E`, an optional
      sign and a digit run. Every digit run may be empty. */
  function SpecNumber(p: Text, signed: bool, digits: set<Unit>): (r: (Text, Text))
    ensures r.0 + r.1 == p
  {
    if signed && Head(p) == Minus then
      var u := SpecUnsigned(p[1..], digits);
      assert p == [Minus] + p[1..];
      ([Minus] + u.0, u.1)
    else SpecUnsigned(p, digits)
  }

  /** A signed number read part by part: the sign with the integer digits,
      then fraction, then exponent. */
  lemma SpecNumberParts(p: Text, digits: set<Unit>)
    ensures var q := if Head(p) == Minus then p[1..] else p;
            var ip := SpecDigits(q, digits);
            var fp := SpecFraction(ip.1, digits);
            var ep := SpecExponent(fp.1, digits);
            SpecNumber(p, true, digits) == ((p[..|p| - |q|] + ip.0) + fp.0 + ep.0, ep.1)
  {
    if Head(p) == Minus {
      SignedNumberParts(p, digits);
    } else {
      var ip := SpecDigits(p, digits);
      assert SpecNumber(p, true, digits) == SpecUnsigned(p, digits);
      assert p[..0] + ip.0 == ip.0;
    }
  }

  /** `SpecNumberParts` after a `-`. */
  lemma SignedNumberParts(p: Text, digits: set<Unit>)
    requires Head(p) == Minus
    ensures var ip := SpecDigits(p[1..], digits);
            var fp := SpecFraction(ip.1, digits);
            var ep := SpecExponent(fp.1, digits);
            SpecNumber(p, true, digits) == ((p[..1] + ip.0) + fp.0 + ep.0, ep.1)
  {
    var ip := SpecDigits(p[1..], digits);
    var fp := SpecFraction(ip.1, digits);
    var ep := SpecExponent(fp.1, digits);
    var u := SpecUnsigned(p[1..], digits);
    assert u == (ip.0 + fp.0 + ep.0, ep.1);
    assert SpecNumber(p, true, digits) == ([Minus] + u.0, u.1);
    assert p[..1] == [Minus];
    AppendAssoc(p[..1], ip.0, fp.0, ep.0);
  }

  /** Appending four texts does not depend on the grouping. */
  lemma AppendAssoc(a: Text, b: Text, c: Text, d: Text)
    ensures ((a + b) + c) + d == a + ((b + c) + d)
  {
    assert ((a + b) + c) + d == a + (b + (c + d));
    assert (b + c) + d == b + (c + d);
  }

  /** A number after its sign: digits, fraction, exponent. */
  function SpecUnsigned(p: Text, digits: set<Unit>): (r: (Text, Text))
    ensures r.0 + r.1 == p
  {
    var ip := SpecDigits(p, digits);
    var fp := SpecFraction(ip.1, digits);
    var ep := SpecExponent(fp.1, digits);
    ThreeSplits(p, ip.0, ip.1, fp.0, fp.1, ep.0, ep.1);
    (ip.0 + fp.0 + ep.0, ep.1)
  }

  /** Three successive splits of `p` put back together. */
  lemma ThreeSplits(p: Text, a: Text, a': Text, b: Text, b': Text, c: Text, c': Text)
    requires a + a' == p && b + b' == a' && c + c' == b'
    ensures (a + b + c) + c' == p
  {
    assert (a + b + c) + c' == a + (b + (c + c'));
  }

  /** `.` and a digit run, if the input continues with `.`. */
  function SpecFraction(p: Text, digits: set<Unit>): (r: (Text, Text))
    ensures r.0 + r.1 == p
    ensures Head(p) != Dot ==> r.0 == []
  {
    if Head(p) == Dot then
      var d := SpecDigits(p[1..], digits);
      assert p == [Dot] + p[1..];
      ([Dot] + d.0, d.1)
    else ([], p)
  }

  /** `e` or `E`, an optional sign and a digit run, if the input continues
      with `e` or `E`. */
  function SpecExponent(p: Text, digits: set<Unit>): (r: (Text, Text))
    ensures r.0 + r.1 == p
    ensures Head(p) != SmallE && Head(p) != BigE ==> r.0 == []
  {
    if Head(p) == SmallE || Head(p) == BigE then
      var d := SpecSignedDigits(p[1..], digits);
      ConsSplit(p, d.0, d.1);
      ([p[0]] + d.0, d.1)
    else ([], p)
  }

  /** A split of everything after the first character, with the first
      character put back in front. */
  lemma ConsSplit(p: Text, a: Text, b: Text)
    requires p != [] && a + b == p[1..]
    ensures ([p[0]] + a) + b == p
  {
    assert p == [p[0]] + p[1..];
    assert ([p[0]] + a) + b == [p[0]] + (a + b);
  }

  /** The exponent after `e` or `E`: an optional `+` or `-`, then a digit
      run. */
  function SpecSignedDigits(p: Text, digits: set<Unit>): (r: (Text, Text))
    ensures r.0 + r.1 == p
  {
    if Head(p) == Plus || Head(p) == Minus then
      var d := SpecDigits(p[1..], digits);
      ConsSplit(p, d.0, d.1);
      ([p[0]] + d.0, d.1)
    else SpecDigits(p, digits)
  }

  /** One token, from the input left after the previous one. */
  function SpecToken(p: Text, rules: Rules): (r: Step<Token, Text>)
    requires WellFormedRules(rules)
    ensures r.Done? ==> |r.state| <= |p|
    ensures r.Done? && r.value.kind != EndDocument && rules.JsonTokenizerRules? ==> |r.state| < |p|
    ensures r.Error? ==> LexingError(r.failure)
  {
    SpecTokenAt(DropWhitespace(p, Whitespace(rules)), rules)
  }

  /** One token, once leading whitespace is skipped: the first character
      decides its kind. */
  function SpecTokenAt(q: Text, rules: Rules): (r: Step<Token, Text>)
    requires WellFormedRules(rules)
    ensures r.Done? ==> |r.state| <= |q|
    ensures r.Done? && r.value.kind != EndDocument && rules.JsonTokenizerRules? ==> |r.state| < |q|
    ensures r.Error? ==> LexingError(r.failure)
  {
    if q == [] then Done(EndToken, q)
    else
      var c := q[0];
      match Structural(c)
      case Some(t) => Done(t, q[1..])
      case None =>
        if c == Quote then StringToken(SpecString(q[1..]))
        else if c == 'n' as Unit then
          TokenOf(Null, NullText, LiteralStep(SpecWord(q[1..], NullText[1..]), rules, InvalidNull))
        else if c == 't' as Unit || c == 'f' as Unit then
          var word := if c == 't' as Unit then TrueText else FalseText;
          TokenOf(Boolean, word, LiteralStep(SpecWord(q[1..], word[1..]), rules, InvalidBoolean))
        else if c == Minus || c in Digits(rules) then
          var (text, rest) := SpecNumber(q, rules.JsonTokenizerRules?, Digits(rules));
          Done(Token(Number, text), rest)
        else if rules.JsonTokenizerRules? then Done(EndToken, q[1..])
        else Error(IllegalCharacter(c))
  }

  /** A mismatch inside a literal: `JsonTokenizer` reports the characters
      expected and found, `Tokenizer` one fixed error per literal. */
  function LiteralStep(q: Step<Text, Text>, rules: Rules, fixed: LexError): (r: Step<Text, Text>)
    ensures r.Done? <==> q.Done?
    ensures r.Done? ==> r == q
    ensures r.Error? <==> q.Error?
    ensures r.Error? ==> r.failure == (if rules.TokenizerRules? then fixed else q.failure)
  {
    match q
    case Error(e) => Error(if rules.TokenizerRules? then fixed else e)
    case other => other
  }

  /** The token a successful literal step stands for. */
  function TokenOf(kind: TokenType, word: Text, q: Step<Text, Text>): (r: Step<Token, Text>)
    ensures r.Done? <==> q.Done?
    ensures r.Done? ==> r.value == Token(kind, word) && r.state == q.state
    ensures r.Error? <==> q.Error?
    ensures r.Error? ==> r.failure == q.failure
    ensures r.Diverges? <==> q.Diverges?
  {
    match q
    case Done(_, rest) => Done(Token(kind, word), rest)
    case Error(e) => Error(e)
    case Diverges => Diverges
  }

  /** The string token a string body step stands for. */
  function StringToken(q: Step<Text, Text>): (r: Step<Token, Text>)
    ensures r.Done? <==> q.Done?
    ensures r.Done? ==> r.value == Token(String, q.value) && r.state == q.state
    ensures r.Error? <==> q.Error?
    ensures r.Error? ==> r.failure == q.failure
    ensures r.Diverges? <==> q.Diverges?
  {
    match q
    case Done(text, rest) => Done(Token(String, text), rest)
    case Error(e) => Error(e)
    case Diverges => Diverges
  }

  /** The whole token list. A step that produces a token without consuming
      anything repeats forever in the source, so it is `Diverges` here. */
  function SpecTokens(p: Text, rules: Rules): (r: Step<seq<Token>, Text>)
    requires WellFormedRules(rules)
    ensures r.Done? ==> EndsOnce(r.value)
    ensures r.Error? ==> LexingError(r.failure)
    decreases |p|
  {
    match SpecToken(p, rules)
    case Error(e) => Error(e)
    case Diverges => Diverges
    case Done(t, rest) =>
      if t.kind == EndDocument then Done([t], rest)
      else if |rest| >= |p| then Diverges
      else
        match SpecTokens(rest, rules)
        case Done(ts, last) => Done([t] + ts, last)
        case other => other
  }

  /** `Tokenizer` never reads a `-`: the number it starts is empty and
      leaves the `-` in place, so the token loop makes no progress. */
  lemma {:induction false} MinusStalls(p: Text)
    requires Head(DropWhitespace(p, JsonWhitespace)) == Minus
    ensures SpecTokens(p, TokenizerRules).Diverges?
  {
    var q := DropWhitespace(p, JsonWhitespace);
    MinusStallsAt(q);
    assert SpecToken(p, TokenizerRules) == Done(Token(Number, []), q);
    if |q| < |p| {
      assert DropWhitespace(q, JsonWhitespace) == q;
      assert SpecToken(q, TokenizerRules) == Done(Token(Number, []), q);
      assert SpecTokens(q, TokenizerRules) == Diverges;
    }
  }

  /** Text a string loop appends as is: no quote, no backslash and no
      control character. */
  predicate PlainText(p: Text) {
    forall i | 0 <= i < |p| :: p[i] != Quote && p[i] != Backslash && p[i] >= 0x20
  }

  /** A string whose closing quote never comes: the source keeps appending
      EOF once the input is used up. */
  lemma {:induction false} PlainStringDiverges(p: Text)
    requires PlainText(p)
    ensures SpecString(p).Diverges?
    decreases |p|
  {
    if p != [] {
      assert PlainText(p[1..]) by {
        forall i | 0 <= i < |p[1..]| ensures p[1..][i] == p[i + 1] { }
      }
      PlainStringDiverges(p[1..]);
    }
  }

  /** A document whose first token is a string without its closing quote
      never ends, under both lexers' rules. */
  lemma UnterminatedStringStalls(p: Text, rules: Rules)
    requires WellFormedRules(rules)
    requires var q := DropWhitespace(p, Whitespace(rules)); q != [] && q[0] == Quote && PlainText(q[1..])
    ensures SpecTokens(p, rules).Diverges?
  {
    var q := DropWhitespace(p, Whitespace(rules));
    PlainStringDiverges(q[1..]);
    assert Structural(Quote).None?;
    assert SpecTokenAt(q, rules).Diverges?;
  }

  /** `Tokenizer` at a `-` or an ASCII digit reads an unsigned number from
      that very character. */
  lemma UnsignedNumberAt(q: Text)
    requires q != [] && (q[0] == Minus || q[0] in AsciiDigits)
    ensures SpecTokenAt(q, TokenizerRules)
            == Done(Token(Number, SpecUnsigned(q, AsciiDigits).0), SpecUnsigned(q, AsciiDigits).1)
  {
    assert Structural(q[0]).None?;
    assert SpecNumber(q, false, AsciiDigits) == SpecUnsigned(q, AsciiDigits);
  }

  /** One token at a `-`: the empty number, nothing consumed. */
  lemma MinusStallsAt(q: Text)
    requires Head(q) == Minus
    ensures SpecTokenAt(q, TokenizerRules) == Done(Token(Number, []), q)
  {
    assert q[0] == Minus && !IsAsciiDigit(Minus);
    assert Minus !in AsciiDigits;
    assert SpecDigits(q, AsciiDigits) == ([], q);
    assert SpecFraction(q, AsciiDigits) == ([], q);
    assert SpecExponent(q, AsciiDigits) == ([], q);
    assert SpecNumber(q, false, AsciiDigits) == ([], q);
  }

  /** `JsonTokenizer`, by contrast, reads the sign into the number and
      moves past it. */
  lemma SignedNumberAt(q: Text, t: CharClasses)
    requires JavaClasses(t) && Head(q) == Minus
    ensures var r := SpecTokenAt(q, JsonTokenizerRules(t));
            && r.Done? && r.value.kind == Number
            && r.value.text == [Minus] + SpecUnsigned(q[1..], t.digits).0
            && r.state == SpecUnsigned(q[1..], t.digits).1
  {
  }

  /** A text made only of digits is one digit run. */
  lemma {:induction false} AllDigits(p: Text, digits: set<Unit>)
    requires forall i | 0 <= i < |p| :: p[i] in digits
    ensures SpecDigits(p, digits) == (p, [])
  {
    if p != [] {
      AllDigits(p[1..], digits);
      assert [p[0]] + p[1..] == p;
    }
  }

  /** A digit run stops at the first character that is not a digit. */
  lemma {:induction false} DigitsThenOther(p: Text, x: Text, digits: set<Unit>)
    requires forall i | 0 <= i < |p| :: p[i] in digits
    requires x == [] || x[0] !in digits
    ensures SpecDigits(p + x, digits) == (p, x)
    decreases |p|
  {
    if p != [] {
      assert (p + x)[1..] == p[1..] + x;
      DigitsThenOther(p[1..], x, digits);
      assert [p[0]] + p[1..] == p;
    } else {
      assert p + x == x;
    }
  }

  /** For `Tokenizer`, a run of ASCII digits is read as one number token. */
  lemma DigitRunIsOneToken(p: Text)
    requires p != [] && DigitRun(p)
    ensures SpecTokens(p, TokenizerRules) == Done([Token(Number, p), EndToken], [])
  {
    DigitRunFirstToken(p);
    OneTokenThenEnd(p, TokenizerRules, Token(Number, p));
  }

  /** An input that is one token and nothing after it lexes to that token
      and END_DOCUMENT. */
  lemma OneTokenThenEnd(p: Text, rules: Rules, t: Token)
    requires WellFormedRules(rules) && p != [] && t.kind != EndDocument
    requires SpecToken(p, rules) == Done(t, [])
    ensures SpecTokens(p, rules) == Done([t, EndToken], [])
  {
    EmptyInputTokens(rules);
    assert [t] + [EndToken] == [t, EndToken];
  }

  /** Empty input gives END_DOCUMENT alone. */
  lemma EmptyInputTokens(rules: Rules)
    requires WellFormedRules(rules)
    ensures SpecTokens([], rules) == Done([EndToken], [])
  {
  }

  /** The token list is the first token followed by the list of the rest. */
  lemma SpecTokensStep(p: Text, rules: Rules)
    requires WellFormedRules(rules)
    requires SpecToken(p, rules).Done? && SpecToken(p, rules).value.kind != EndDocument
    requires |SpecToken(p, rules).state| < |p|
    ensures SpecTokens(SpecToken(p, rules).state, rules).Done? ==>
              SpecTokens(p, rules) == Done([SpecToken(p, rules).value] + SpecTokens(SpecToken(p, rules).state, rules).value,
                                          SpecTokens(SpecToken(p, rules).state, rules).state)
  {
  }

  lemma DigitRunFirstToken(p: Text)
    requires p != [] && DigitRun(p)
    ensures SpecToken(p, TokenizerRules) == Done(Token(Number, p), [])
  {
    assert DropWhitespace(p, JsonWhitespace) == p by {
      assert p[0] !in JsonWhitespace;
    }
    DigitRunToken(p);
  }

  lemma DigitRunToken(p: Text)
    requires p != [] && DigitRun(p)
    ensures SpecTokenAt(p, TokenizerRules) == Done(Token(Number, p), [])
  {
    DigitRunNumber(p);
    assert p[0] != Minus && p[0] in AsciiDigits;
  }

  lemma DigitRunNumber(p: Text)
    requires DigitRun(p)
    ensures SpecUnsigned(p, AsciiDigits) == (p, [])
  {
    assert forall i | 0 <= i < |p| :: p[i] in AsciiDigits;
    AllDigits(p, AsciiDigits);
    var e: Text := [];
    assert SpecFraction(e, AsciiDigits) == ([], []);
    assert SpecExponent(e, AsciiDigits) == ([], []);
    assert p + [] + [] == p;
  }
}

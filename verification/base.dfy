/** Shared vocabulary of the JSON reader model: UTF-16 code units, the EOF
    sentinel, the character constants the lexers test for, the Unicode
    character classes the JDK supplies, and the generic outcome types. */
module Base {

  /** A Java `char`: one UTF-16 code unit. */
  type Unit = c: int | 0 <= c < 0x1_0000

  /** A Java `String` or `StringBuilder` content. */
  type Text = seq<Unit>

  /** `(char) -1`, the end-of-input marker both readers return. A literal
      U+FFFF in the input is indistinguishable from it. */
  const EOF: Unit := 0xFFFF

  const Tab: Unit := 0x09
  const LineFeed: Unit := 0x0A
  const CarriageReturn: Unit := 0x0D
  const Backspace: Unit := 0x08
  const FormFeed: Unit := 0x0C
  const Space: Unit := 0x20

  const LeftBrace: Unit := '{' as Unit
  const RightBrace: Unit := '}' as Unit
  const LeftBracket: Unit := '[' as Unit
  const RightBracket: Unit := ']' as Unit
  const Colon: Unit := ':' as Unit
  const Comma: Unit := ',' as Unit
  const Quote: Unit := '"' as Unit
  const Backslash: Unit := '\\' as Unit
  const Slash: Unit := '/' as Unit
  const Minus: Unit := '-' as Unit
  const Plus: Unit := '+' as Unit
  const Dot: Unit := '.' as Unit
  const SmallE: Unit := 'e' as Unit
  const BigE: Unit := 'E' as Unit

  const TrueText: Text := ['t' as Unit, 'r' as Unit, 'u' as Unit, 'e' as Unit]
  const FalseText: Text := ['f' as Unit, 'a' as Unit, 'l' as Unit, 's' as Unit, 'e' as Unit]
  const NullText: Text := ['n' as Unit, 'u' as Unit, 'l' as Unit, 'l' as Unit]

  /** Java's `ch >= '0' && ch <= '9'`. */
  predicate IsAsciiDigit(c: Unit) {
    '0' as Unit <= c <= '9' as Unit
  }

  /** `p` is made of ASCII digits only. */
  predicate DigitRun(p: Text) {
    forall i | 0 <= i < |p| :: IsAsciiDigit(p[i])
  }

  /** The digits `Tokenizer` accepts: ASCII only. */
  const AsciiDigits: set<Unit> := set c: Unit | IsAsciiDigit(c)

  /** JSON whitespace as `Tokenizer.isWhitespace` states it: space, tab,
      line feed and carriage return. */
  const JsonWhitespace: set<Unit> := {Space, Tab, LineFeed, CarriageReturn}

  /** The characters `Character.isWhitespace` accepts below 0x80. */
  const AsciiJavaWhitespace: set<Unit> := {0x09, 0x0A, 0x0B, 0x0C, 0x0D, 0x1C, 0x1D, 0x1E, 0x1F, 0x20}

  /** The JDK's Unicode tables behind `Character.isWhitespace` and
      `Character.isDigit`. Only their ASCII part is pinned down (see
      `JavaClasses`); beyond ASCII they are left open. */
  datatype CharClasses = CharClasses(whitespace: set<Unit>, digits: set<Unit>)

  /** What the model relies on about the JDK tables: they agree with the
      ASCII definitions below 0x80, and U+FFFF (a noncharacter) is in
      neither. */
  predicate JavaClasses(t: CharClasses) {
    && (forall c: Unit | c < 0x80 :: c in t.whitespace <==> c in AsciiJavaWhitespace)
    && (forall c: Unit | c < 0x80 :: c in t.digits <==> IsAsciiDigit(c))
    && EOF !in t.whitespace
    && EOF !in t.digits
  }

  /** An example table satisfying `JavaClasses`: the ASCII facts alone. */
  const AsciiClasses: CharClasses := CharClasses(AsciiJavaWhitespace, AsciiDigits)

  datatype Option<+T> = None | Some(value: T)

  datatype Result<+T, +E> = Ok(value: T) | Fail(error: E)

  /** The outcome of one lexing step: a value and the state after it, an
      exception, or a Java loop that never returns. */
  datatype Step<+T, +S> = Done(value: T, state: S) | Error(failure: LexError) | Diverges

  /** The exceptions the two lexers and the readers under them raise. */
  datatype LexError =
    // JsonTokenizer.validateExpectedChar: ReadException "Expected '%c' but found '%c'"
    | Expected(expected: Unit, found: Unit)
    // ReadException / JsonParseException "Invalid control character in string"
    | ControlCharacter(c: Unit)
    // JsonParseException "Invalid escape sequence" / "Invalid escape character"
    | InvalidEscape(c: Unit)
    // NumberFormatException from Integer.parseInt on the four \u digits
    | BadUnicodeEscape(hex: Text)
    // Tokenizer: JsonParseException "Illegal character: "
    | IllegalCharacter(c: Unit)
    // Tokenizer: JsonParseException "Invalid null value"
    | InvalidNull
    // Tokenizer: JsonParseException "Invalid boolean value"
    | InvalidBoolean
    // CharReader.back: IllegalArgumentException "pos <= 0"
    | BackAtStart
    // JsonTokenizer.tokenizer(CharReader): JsonParseException "Failed to tokenize JSON string"
    | TokenizeFailed

  /** The errors that lexing itself raises, as opposed to a failed `back`
      or the wrapping done by `tokenizer(CharReader)`. */
  predicate LexingError(e: LexError) {
    !e.BackAtStart? && !e.TokenizeFailed?
  }

  /** The characters a sequence of reads delivers, in order. */
  function Flatten(chunks: seq<Text>): (r: Text)
    ensures |chunks| == 0 ==> r == []
  {
    if |chunks| == 0 then [] else chunks[0] + Flatten(chunks[1..])
  }

  /** The `Reader` contract: a read into a non-empty buffer blocks until at
      least one character is available, so no piece of input is empty. */
  predicate NonEmptyPieces(pieces: seq<Text>) {
    forall i | 0 <= i < |pieces| :: |pieces[i]| > 0
  }

  /** What one `reader.read(buffer)` returns: -1 at end of stream, or the
      characters it copied into the buffer's first slots. */
  datatype ReadResult = EndOfStream | Chars(data: Text, rest: seq<Text>)

  /** A reader is modelled by the pieces it will deliver: each read copies
      at most `cap` characters of the first piece and keeps the remainder for
      the next read. A `StringReader` is the single piece of its string. */
  function Read(pieces: seq<Text>, cap: int): (r: ReadResult)
    requires cap > 0 && NonEmptyPieces(pieces)
    ensures pieces == [] <==> r.EndOfStream?
    ensures r.Chars? ==> 0 < |r.data| <= cap && NonEmptyPieces(r.rest)
    ensures r.Chars? ==> r.data + Flatten(r.rest) == Flatten(pieces)
    ensures pieces != [] && |pieces[0]| <= cap ==> r == Chars(pieces[0], pieces[1..])
  {
    if pieces == [] then EndOfStream
    else
      var first := pieces[0];
      if |first| <= cap then Chars(first, pieces[1..])
      else
        var rest := [first[cap..]] + pieces[1..];
        SplitFirstPiece(pieces, cap);
        Chars(first[..cap], rest)
  }

  /** Cutting the first piece after `cap` characters keeps the characters
      and the non-empty pieces. */
  lemma SplitFirstPiece(pieces: seq<Text>, cap: nat)
    requires NonEmptyPieces(pieces) && pieces != [] && cap < |pieces[0]|
    ensures var rest := [pieces[0][cap..]] + pieces[1..];
            && NonEmptyPieces(rest)
            && pieces[0][..cap] + Flatten(rest) == Flatten(pieces)
  {
    var first := pieces[0];
    var rest := [first[cap..]] + pieces[1..];
    assert rest[0] == first[cap..] && rest[1..] == pieces[1..];
    assert Flatten(rest) == first[cap..] + Flatten(pieces[1..]);
    assert Flatten(pieces) == first + Flatten(pieces[1..]);
    assert first == first[..cap] + first[cap..];
    assert first[..cap] + (first[cap..] + Flatten(pieces[1..])) == (first[..cap] + first[cap..]) + Flatten(pieces[1..]);
    forall i | 0 <= i < |rest|
      ensures |rest[i]| > 0
    {
      if i > 0 {
        assert rest[i] == pieces[i];
      }
    }
  }

  /** The value of an ASCII hexadecimal digit. Java's `Character.digit(c, 16)`
      also accepts the non-ASCII Unicode decimal digits and the fullwidth
      letters A to F; this model does not. */
  function HexDigitValue(c: Unit): (r: Option<nat>)
    ensures r.Some? ==> r.value < 16
  {
    if '0' as Unit <= c <= '9' as Unit then Some(c - '0' as Unit)
    else if 'a' as Unit <= c <= 'f' as Unit then Some(c - 'a' as Unit + 10)
    else if 'A' as Unit <= c <= 'F' as Unit then Some(c - 'A' as Unit + 10)
    else None
  }

  /** 16 to the power `n`. */
  function Power16(n: nat): (r: nat)
    ensures r > 0
  {
    if n == 0 then 1 else 16 * Power16(n - 1)
  }

  /** The value of a run of hexadecimal digits, most significant first. */
  function HexValue(digits: Text): (r: Option<nat>)
    ensures r.Some? <==> forall i | 0 <= i < |digits| :: HexDigitValue(digits[i]).Some?
    ensures r.Some? ==> r.value < Power16(|digits|)
  {
    if |digits| == 0 then Some(0)
    else
      match (HexValue(digits[..|digits| - 1]), HexDigitValue(digits[|digits| - 1]))
      case (Some(high), Some(low)) => Some(high * 16 + low)
      case _ => None
  }

  /** `Integer.parseInt(hex, 16)` on a four-character escape, then the cast
      to `char`, over ASCII hexadecimal digits only. Java accepts a leading
      sign, so `\u-001` decodes to U+FFFF. */
  function ParseHexUnit(hex: Text): (r: Option<Unit>)
    requires |hex| == 4
    ensures r.Some? <==> (forall i | 0 <= i < 4 :: HexDigitValue(hex[i]).Some?)
                         || ((hex[0] == Minus || hex[0] == Plus) && forall i | 1 <= i < 4 :: HexDigitValue(hex[i]).Some?)
    ensures (forall i | 0 <= i < 4 :: HexDigitValue(hex[i]).Some?) ==>
              r == Some(0x1000 * HexDigitValue(hex[0]).value + 0x100 * HexDigitValue(hex[1]).value
                        + 0x10 * HexDigitValue(hex[2]).value + HexDigitValue(hex[3]).value)
    ensures (hex[0] == Minus || hex[0] == Plus) && (forall i | 1 <= i < 4 :: HexDigitValue(hex[i]).Some?) ==>
              var m := 0x100 * HexDigitValue(hex[1]).value + 0x10 * HexDigitValue(hex[2]).value + HexDigitValue(hex[3]).value;
              r == Some(if hex[0] == Plus || m == 0 then m else 0x1_0000 - m)
  {
    if hex[0] == Minus || hex[0] == Plus then SignedHexUnit(hex) else UnsignedHexUnit(hex)
  }

  /** `Integer.parseInt(hex, 16)` cast to `char` when `hex` starts with a sign. */
  function SignedHexUnit(hex: Text): (r: Option<Unit>)
    requires |hex| == 4 && (hex[0] == Minus || hex[0] == Plus)
    ensures r.Some? <==> forall i | 1 <= i < 4 :: HexDigitValue(hex[i]).Some?
    ensures (forall i | 1 <= i < 4 :: HexDigitValue(hex[i]).Some?) ==>
              var m := 0x100 * HexDigitValue(hex[1]).value + 0x10 * HexDigitValue(hex[2]).value + HexDigitValue(hex[3]).value;
              r == Some(if hex[0] == Plus || m == 0 then m else 0x1_0000 - m)
  {
    SignedHexValue(hex);
    match HexValue(hex[1..])
    case None => None
    case Some(v) =>
      assert v < 0x1000 by { Power16Three(); }
      Some(CharCast(if hex[0] == Minus then 0 - v as int else v))
  }

  /** The cast `(char) n`: the low 16 bits of `n`, read without sign. */
  function CharCast(n: int): (r: Unit)
    ensures 0 <= n < 0x1_0000 ==> r == n
    ensures -0x1_0000 < n < 0 ==> r == n + 0x1_0000
  {
    n % 0x1_0000
  }

  /** `Integer.parseInt(hex, 16)` cast to `char` when `hex` has no sign. */
  function UnsignedHexUnit(hex: Text): (r: Option<Unit>)
    requires |hex| == 4
    ensures r.Some? <==> forall i | 0 <= i < 4 :: HexDigitValue(hex[i]).Some?
    ensures (forall i | 0 <= i < 4 :: HexDigitValue(hex[i]).Some?) ==>
              r == Some(0x1000 * HexDigitValue(hex[0]).value + 0x100 * HexDigitValue(hex[1]).value
                        + 0x10 * HexDigitValue(hex[2]).value + HexDigitValue(hex[3]).value)
  {
    HexValueOfFour(hex);
    match HexValue(hex)
    case None => None
    case Some(v) => Some(CharCast(v))
  }

  lemma Power16Three()
    ensures Power16(3) == 0x1000
  {
  }

  /** Four hexadecimal digits in closed form. */
  lemma HexValueOfFour(d: Text)
    requires |d| == 4
    ensures (forall i | 0 <= i < 4 :: HexDigitValue(d[i]).Some?) ==>
              HexValue(d) == Some(0x1000 * HexDigitValue(d[0]).value + 0x100 * HexDigitValue(d[1]).value
                                  + 0x10 * HexDigitValue(d[2]).value + HexDigitValue(d[3]).value)
  {
    HexValueOfThree(d[..3]);
    if forall i | 0 <= i < 4 :: HexDigitValue(d[i]).Some? {
      assert forall i | 0 <= i < 3 :: d[..3][i] == d[i];
      assert d[3] == d[|d| - 1] && d[..|d| - 1] == d[..3];
    }
  }

  /** The three digits after a sign in closed form. */
  lemma SignedHexValue(hex: Text)
    requires |hex| == 4
    ensures HexValue(hex[1..]).Some? <==> forall i | 1 <= i < 4 :: HexDigitValue(hex[i]).Some?
    ensures (forall i | 1 <= i < 4 :: HexDigitValue(hex[i]).Some?) ==>
              HexValue(hex[1..]) == Some(0x100 * HexDigitValue(hex[1]).value + 0x10 * HexDigitValue(hex[2]).value
                                         + HexDigitValue(hex[3]).value)
  {
    assert forall i | 0 <= i < 3 :: hex[1..][i] == hex[i + 1];
    HexValueOfThree(hex[1..]);
  }

  /** Three hexadecimal digits in closed form. */
  lemma HexValueOfThree(d: Text)
    requires |d| == 3
    ensures (forall i | 0 <= i < 3 :: HexDigitValue(d[i]).Some?) ==>
              HexValue(d) == Some(0x100 * HexDigitValue(d[0]).value + 0x10 * HexDigitValue(d[1]).value
                                  + HexDigitValue(d[2]).value)
  {
    if forall i | 0 <= i < 3 :: HexDigitValue(d[i]).Some? {
      var a, b, c := HexDigitValue(d[0]).value, HexDigitValue(d[1]).value, HexDigitValue(d[2]).value;
      assert d[..1][..0] == [] && d[..1][0] == d[0];
      assert HexValue(d[..1]) == Some(a);
      assert d[..2][..1] == d[..1] && d[..2][1] == d[1];
      assert HexValue(d[..2]) == Some(a * 16 + b);
      assert d[..3] == d;
    }
  }

  /** The lower-case hexadecimal digit of a value below 16. */
  function HexDigit(v: nat): (r: Unit)
    requires v < 16
    ensures HexDigitValue(r) == Some(v)
  {
    if v < 10 then '0' as Unit + v else 'a' as Unit + (v - 10)
  }

  /** `v` written with exactly `n` hexadecimal digits, most significant
      first. */
  function HexText(v: nat, n: nat): (r: Text)
    requires v < Power16(n)
    ensures |r| == n
    decreases n
  {
    if n == 0 then []
    else HexText(v / 16, n - 1) + [HexDigit(v % 16)]
  }

  /** Every value fits its digits: `HexValue` reads back what `HexText`
      writes. */
  lemma {:induction false} HexRoundTrip(v: nat, n: nat)
    requires v < Power16(n)
    ensures HexValue(HexText(v, n)) == Some(v)
  {
    if n > 0 {
      var t := HexText(v, n);
      HexRoundTrip(v / 16, n - 1);
      assert t[..n - 1] == HexText(v / 16, n - 1);
      assert HexDigitValue(t[n - 1]) == Some(v % 16);
    }
  }

  /** Every code unit has an escape: its four hexadecimal digits decode to
      it. */
  lemma EveryUnitEscapes(u: Unit)
    ensures ParseHexUnit(HexText(u, 4)) == Some(u)
  {
    assert Power16(4) == 0x1_0000;
    var d := HexText(u, 4);
    HexRoundTrip(u, 4);
    assert HexValue(d).Some?;
    assert forall i | 0 <= i < 4 :: HexDigitValue(d[i]).Some?;
    HexValueOfFour(d);
    assert HexDigitValue(d[0]).Some? && d[0] != Minus && d[0] != Plus;
  }

  /** The character a reader positioned before `p` returns: the first one,
      or EOF once nothing is left. */
  function Head(p: Text): Unit {
    if p == [] then EOF else p[0]
  }

  /** What is left after reading one character; reading at the end leaves
      the end. */
  function Tail(p: Text): Text {
    if p == [] then [] else p[1..]
  }

  /** Consuming the first character of a buffer window `b[i..j]` that
      more input follows. */
  lemma WindowStep(b: Text, i: int, j: int, rest: Text)
    requires 0 <= i < j <= |b|
    ensures (b[i..j] + rest)[1..] == b[i + 1..j] + rest
    ensures i + 1 == j ==> b[i + 1..j] + rest == rest
  {
    assert b[i..j][1..] == b[i + 1..j];
  }

  /** The input left once a leading run of `ws` characters is skipped. */
  function DropWhitespace(p: Text, ws: set<Unit>): (r: Text)
    ensures r == [] || r[0] !in ws
    ensures |r| <= |p|
    ensures forall i | 0 <= i < |p| - |r| :: p[i] in ws
  {
    if p != [] && p[0] in ws then DropWhitespace(p[1..], ws) else p
  }

  /** What is left after the whitespace is a suffix of the input. */
  lemma {:induction false} DropWhitespaceSuffix(p: Text, ws: set<Unit>)
    ensures DropWhitespace(p, ws) == p[|p| - |DropWhitespace(p, ws)|..]
    decreases |p|
  {
    if p != [] && p[0] in ws {
      DropWhitespaceSuffix(p[1..], ws);
      assert p[1..][|p| - 1 - |DropWhitespace(p, ws)|..] == p[|p| - |DropWhitespace(p, ws)|..];
    }
  }

  /** Whitespace in front of a text is dropped with the rest. */
  lemma {:induction false} DropWhitespacePrefix(w: Text, x: Text, ws: set<Unit>)
    requires forall i | 0 <= i < |w| :: w[i] in ws
    ensures DropWhitespace(w + x, ws) == DropWhitespace(x, ws)
    decreases |w|
  {
    if w != [] {
      assert (w + x)[1..] == w[1..] + x;
      DropWhitespacePrefix(w[1..], x, ws);
    } else {
      assert w + x == x;
    }
  }
}

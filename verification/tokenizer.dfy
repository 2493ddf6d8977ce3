/** `Tokenizer`: the lexer `Json` uses, over the pojo `CharReader`. It
    differs from `JsonTokenizer` in the points `LexSpec.Rules` names, and in
    one more: its `peek` never refills the buffer, so a number whose digits
    run past the end of one read is cut in two. `PeekMode` selects that
    `peek` (`AsWritten`) or one that refills first (`Refilling`); with the
    second every step agrees with the reference lexer whatever the reads,
    with the first only while the rest of the input fits in one window. */
module Tokenizer {
  import opened Base
  import opened Tokens
  import opened LexSpec
  import PR = PojoCharReader

  datatype PeekMode = AsWritten | Refilling

  /** A step of this lexer agrees with a reference step when both produce
      the same value, the reader is left before the same input, or both
      fail alike, or both run forever. */
  predicate Agrees<T(==)>(r: Step<T, PR.State>, q: Step<T, Text>) {
    && (r.Done? ==> q.Done? && r.value == q.value && PR.Valid(r.state) && PR.Pending(r.state) == q.state)
    && (r.Error? ==> q.Error? && r.failure == q.failure)
    && (r.Diverges? ==> q.Diverges?)
  }

  /** When a step can be claimed to agree: always with the refilling
      `peek`, and with the original one while the reader holds nothing
      beyond the window. */
  predicate Exact(m: PeekMode, s: PR.State) {
    m.Refilling? || s.rest == []
  }

  /** A state every step may continue from, keeping an empty reader empty. */
  predicate Follows(r: PR.State, s: PR.State) {
    PR.Valid(r) && (s.rest == [] ==> r.rest == [])
  }

  /** `isWhitespace`: the four JSON whitespace characters. */
  function IsWhitespace(c: Unit): (r: bool)
    ensures r <==> c in JsonWhitespace
  {
    c == Space || c == Tab || c == LineFeed || c == CarriageReturn
  }

  /** `isDigit`: ASCII digits only. */
  function IsDigit(c: Unit): (r: bool)
    ensures r <==> c in AsciiDigits
  {
    IsAsciiDigit(c)
  }

  /** `peek` as written, or the corrected `peek` that asks `hasMore` first.
      With an empty reader, or with the refill, it shows the next
      character of the input. */
  function PeekWith(m: PeekMode, s: PR.State): (r: (Unit, PR.State))
    requires PR.Valid(s)
    ensures Follows(r.1, s) && PR.Pending(r.1) == PR.Pending(s)
    ensures r.0 != EOF ==> PR.Pending(s) != [] && r.0 == PR.Pending(s)[0]
    ensures Exact(m, s) ==> r.0 == Head(PR.Pending(s))
    ensures m.AsWritten? ==> r == (PR.Peek(s), s)
  {
    match m
    case AsWritten => (PR.Peek(s), s)
    case Refilling =>
      var (more, s1) := PR.HasMore(s);
      (if more then PR.Peek(s1) else EOF, s1)
  }

  /** `readNull`: the three reads must give `u`, `l`, `l`. */
  function ReadNull(s: PR.State): (r: Step<Token, PR.State>)
    requires PR.Valid(s)
    ensures Agrees(r, TokenOf(Null, NullText, LiteralStep(SpecWord(PR.Pending(s), NullText[1..]), TokenizerRules, InvalidNull)))
    ensures r.Done? ==> Follows(r.state, s)
  {
    var p := PR.Pending(s);
    var w := NullText[1..];
    SpecWordStep(p, w);
    var (c1, s1) := PR.Next(s);
    if c1 != w[0] then Error(InvalidNull)
    else
      SpecWordStep(p[1..], w[1..]);
      var (c2, s2) := PR.Next(s1);
      if c2 != w[1] then Error(InvalidNull)
      else
        assert p[1..][1..] == p[2..];
        SpecWordStep(p[2..], w[2..]);
        var (c3, s3) := PR.Next(s2);
        if c3 != w[2] then Error(InvalidNull)
        else Done(Token(Null, NullText), s3)
  }

  /** `readBoolean`: the rest of `true` or `false`, chosen by the first
      character. */
  function ReadBoolean(first: Unit, s: PR.State): (r: Step<Token, PR.State>)
    requires PR.Valid(s) && (first == 't' as Unit || first == 'f' as Unit)
    ensures var word := if first == 't' as Unit then TrueText else FalseText;
            Agrees(r, TokenOf(Boolean, word, LiteralStep(SpecWord(PR.Pending(s), word[1..]), TokenizerRules, InvalidBoolean)))
    ensures r.Done? ==> Follows(r.state, s)
  {
    var expected := if first == 't' as Unit then TrueText else FalseText;
    assert [first] + expected[1..] == expected;
    match ReadExpected(s, expected[1..])
    case Done(text, s1) => Done(Token(Boolean, [first] + text), s1)
    case Error(e) => Error(e)
    case Diverges => Diverges
  }

  /** The loop of `readBoolean` over the expected characters. */
  function ReadExpected(s: PR.State, word: Text): (r: Step<Text, PR.State>)
    requires PR.Valid(s) && EOF !in word
    ensures Agrees(r, LiteralStep(SpecWord(PR.Pending(s), word), TokenizerRules, InvalidBoolean))
    ensures r.Done? ==> Follows(r.state, s)
    decreases |word|
  {
    if word == [] then Done([], s)
    else
      SpecWordStep(PR.Pending(s), word);
      var (c, s1) := PR.Next(s);
      if c != word[0] then Error(InvalidBoolean)
      else
        var r := ReadExpected(s1, word[1..]);
        if r.Done? then Done([c] + r.value, r.state) else r
  }

  /** `readString`: the loop after the opening quote, escapes decoded in
      place. At end of input `next` returns EOF without moving, and EOF is
      appended like any other character, so the loop never ends. */
  function ReadStringBody(s: PR.State, acc: Text): (r: Step<Text, PR.State>)
    requires PR.Valid(s)
    ensures Agrees(r, Prepend(acc, SpecString(PR.Pending(s))))
    ensures r.Done? ==> Follows(r.state, s)
    decreases |PR.Pending(s)|
  {
    var (ch, s1) := PR.Next(s);
    if ch == Backslash then
      match ReadEscape(s1)
      case Ok((d, s2)) =>
        PrependPrepend(acc, [d], SpecString(PR.Pending(s2)));
        ReadStringBody(s2, acc + [d])
      case Fail(e) => Error(e)
    else if ch == Quote then
      assert acc + [] == acc;
      Done(acc, s1)
    else if ch < 0x20 then Error(ControlCharacter(ch))
    else if s1 == s then Diverges
    else
      PrependPrepend(acc, [ch], SpecString(PR.Pending(s1)));
      ReadStringBody(s1, acc + [ch])
  }

  function ReadString(s: PR.State): (r: Step<Token, PR.State>)
    requires PR.Valid(s)
    ensures Agrees(r, StringToken(SpecString(PR.Pending(s))))
    ensures r.Done? ==> Follows(r.state, s)
  {
    match ReadStringBody(s, [])
    case Done(text, s1) => Done(Token(String, text), s1)
    case Error(e) => Error(e)
    case Diverges => Diverges
  }

  /** The `switch` after a backslash in `readString`. */
  function ReadEscape(s: PR.State): (r: Result<(Unit, PR.State), LexError>)
    requires PR.Valid(s)
    ensures var q := SpecEscape(PR.Pending(s));
            && (r.Ok? <==> q.Ok?)
            && (r.Ok? ==> r.value.0 == q.value.0 && Follows(r.value.1, s) && PR.Pending(r.value.1) == q.value.1)
            && (r.Fail? ==> r.error == q.error)
  {
    var (ch, s1) := PR.Next(s);
    match SimpleEscape(ch)
    case Some(d) => Ok((d, s1))
    case None =>
      if ch == 'u' as Unit then
        var (hex, s2) := ReadChars(s1, 4);
        match ParseHexUnit(hex)
        case Some(d) => Ok((d, s2))
        case None => Fail(BadUnicodeEscape(hex))
      else Fail(InvalidEscape(ch))
  }

  /** `n` calls of `next`: the characters returned, EOF once the input is
      used up. */
  function ReadChars(s: PR.State, n: nat): (r: (Text, PR.State))
    requires PR.Valid(s)
    ensures Follows(r.1, s)
    ensures r.0 == Take(PR.Pending(s), n) && PR.Pending(r.1) == Skip(PR.Pending(s), n)
    decreases n
  {
    if n == 0 then ([], s)
    else
      var (c, s1) := PR.Next(s);
      var (cs, s2) := ReadChars(s1, n - 1);
      TakeSkipStep(PR.Pending(s), n);
      ([c] + cs, s2)
  }

  /** `readDigits`: take characters while `peek` shows an ASCII digit. */
  function ReadDigits(s: PR.State, m: PeekMode): (r: (Text, PR.State))
    requires PR.Valid(s)
    ensures Follows(r.1, s)
    ensures Exact(m, s) ==> r.0 == SpecDigits(PR.Pending(s), AsciiDigits).0
                            && PR.Pending(r.1) == SpecDigits(PR.Pending(s), AsciiDigits).1
    decreases |PR.Pending(s)|
  {
    var (c, s1) := PeekWith(m, s);
    if IsDigit(c) then
      var (d, s2) := PR.Next(s1);
      var (ds, s3) := ReadDigits(s2, m);
      ([d] + ds, s3)
    else ([], s1)
  }

  /** The fraction part of `readNumber`: `.` and digits, if `peek` shows
      a `.`. */
  function ReadFraction(s: PR.State, m: PeekMode): (r: (Text, PR.State))
    requires PR.Valid(s)
    ensures Follows(r.1, s)
    ensures Exact(m, s) ==> r.0 == SpecFraction(PR.Pending(s), AsciiDigits).0
                            && PR.Pending(r.1) == SpecFraction(PR.Pending(s), AsciiDigits).1
  {
    var (c, s1) := PeekWith(m, s);
    if c == Dot then
      var (d, s2) := PR.Next(s1);
      var (ds, s3) := ReadDigits(s2, m);
      ([d] + ds, s3)
    else ([], s1)
  }

  /** The exponent part of `readNumber`: `e` or `E`, an optional sign, then
      digits. */
  function ReadExponent(s: PR.State, m: PeekMode): (r: (Text, PR.State))
    requires PR.Valid(s)
    ensures Follows(r.1, s)
    ensures Exact(m, s) ==> r.0 == SpecExponent(PR.Pending(s), AsciiDigits).0
                            && PR.Pending(r.1) == SpecExponent(PR.Pending(s), AsciiDigits).1
  {
    var (c, s1) := PeekWith(m, s);
    if c == SmallE || c == BigE then
      var (e, s2) := PR.Next(s1);
      var (ds, s3) := ReadSignedDigits(s2, m);
      ([e] + ds, s3)
    else ([], s1)
  }

  /** The rest of the exponent: an optional sign, then digits. */
  function ReadSignedDigits(s: PR.State, m: PeekMode): (r: (Text, PR.State))
    requires PR.Valid(s)
    ensures Follows(r.1, s)
    ensures Exact(m, s) ==> r.0 == SpecSignedDigits(PR.Pending(s), AsciiDigits).0
                            && PR.Pending(r.1) == SpecSignedDigits(PR.Pending(s), AsciiDigits).1
  {
    var (c, s1) := PeekWith(m, s);
    if c == Plus || c == Minus then
      var (sign, s2) := PR.Next(s1);
      var (ds, s3) := ReadDigits(s2, m);
      ([sign] + ds, s3)
    else ReadDigits(s1, m)
  }

  /** `readNumber`: step back onto the character `start` consumed, then
      digits, fraction and exponent. No sign is read: a leading `-` stays
      unread. */
  function ReadNumber(s: PR.State, m: PeekMode): (r: (Text, PR.State))
    requires PR.Valid(s)
    ensures Follows(r.1, s)
    ensures Exact(m, s) ==> r.0 == SpecUnsigned(PR.Pending(PR.Back(s)), AsciiDigits).0
                            && PR.Pending(r.1) == SpecUnsigned(PR.Pending(PR.Back(s)), AsciiDigits).1
  {
    var s1 := PR.Back(s);
    var (ip, s2) := ReadDigits(s1, m);
    var (fp, s3) := ReadFraction(s2, m);
    var (ep, s4) := ReadExponent(s3, m);
    (ip + fp + ep, s4)
  }

  /** `start`: skip whitespace through `next`; end of document once
      nothing remains; otherwise dispatch on the first other character. */
  function Start(s: PR.State, m: PeekMode): (r: Step<Token, PR.State>)
    requires PR.Valid(s)
    ensures r.Done? ==> PR.Valid(r.state)
    ensures r.Done? && PR.OneWindow(s) ==> r.state.rest == []
    ensures m.Refilling? || PR.OneWindow(s) ==> Agrees(r, SpecToken(PR.Pending(s), TokenizerRules))
    decreases |PR.Pending(s)|
  {
    var (more, s1) := PR.HasMore(s);
    if !more then Done(EndToken, s1)
    else
      var (ch, s2) := PR.Next(s1);
      if IsWhitespace(ch) then Start(s2, m)
      else Dispatch(s1, m)
  }

  /** The `switch` of `start` and the digit test after it; any other
      character is illegal. */
  function Dispatch(s: PR.State, m: PeekMode): (r: Step<Token, PR.State>)
    requires PR.Valid(s) && PR.Pending(s) != []
    ensures r.Done? ==> Follows(r.state, s)
    ensures Exact(m, s) ==> Agrees(r, SpecTokenAt(PR.Pending(s), TokenizerRules))
  {
    var (ch, s1) := PR.Next(s);
    match Structural(ch)
    case Some(tok) => Done(tok, s1)
    case None =>
      if ch == 'n' as Unit || ch == 't' as Unit || ch == 'f' as Unit || ch == Quote then
        assert PR.Pending(s) == [ch] + PR.Pending(s1);
        ReadLiteral(ch, s1)
      else if ch == Minus || IsDigit(ch) then ReadNumberToken(s, m)
      else Error(IllegalCharacter(ch))
  }

  /** The cases of `start` for `n`, `t`, `f` and `"`, with `s` the reader
      after that first character. */
  function ReadLiteral(ch: Unit, s: PR.State): (r: Step<Token, PR.State>)
    requires PR.Valid(s) && (ch == 'n' as Unit || ch == 't' as Unit || ch == 'f' as Unit || ch == Quote)
    ensures r.Done? ==> Follows(r.state, s)
    ensures Agrees(r, SpecTokenAt([ch] + PR.Pending(s), TokenizerRules))
  {
    var q := [ch] + PR.Pending(s);
    assert q[0] == ch && q[1..] == PR.Pending(s);
    if ch == 'n' as Unit then ReadNull(s)
    else if ch == 't' as Unit || ch == 'f' as Unit then ReadBoolean(ch, s)
    else ReadString(s)
  }

  /** The default case of `start` for `-` or a digit: `back`, then
      `readNumber`. */
  function ReadNumberToken(s: PR.State, m: PeekMode): (r: Step<Token, PR.State>)
    requires PR.Valid(s) && PR.Pending(s) != []
    requires Head(PR.Pending(s)) == Minus || IsDigit(Head(PR.Pending(s)))
    ensures r.Done? ==> Follows(r.state, s)
    ensures Exact(m, s) ==> Agrees(r, SpecTokenAt(PR.Pending(s), TokenizerRules))
  {
    var (ch, s1) := PR.Next(s);
    PR.NextBackNext(s);
    assert Exact(m, s) ==> Exact(m, s1);
    var (text, s2) := ReadNumber(s1, m);
    UnsignedNumberAt(PR.Pending(s));
    Done(Token(Number, text), s2)
  }

  /** `tokenize`: tokens until END_DOCUMENT, which is kept. A token that
      consumed nothing leaves the reader where it was, so the loop repeats
      it forever. */
  function Tokenize(s: PR.State, m: PeekMode): (r: Step<seq<Token>, PR.State>)
    requires PR.Valid(s)
    ensures r.Done? ==> EndsOnce(r.value)
    ensures m.Refilling? || PR.OneWindow(s) ==> Agrees(r, SpecTokens(PR.Pending(s), TokenizerRules))
    decreases |PR.Pending(s)|
  {
    match Start(s, m)
    case Error(e) => Error(e)
    case Diverges => Diverges
    case Done(tok, s1) =>
      if tok.kind == EndDocument then Done([tok], s1)
      else if |PR.Pending(s1)| >= |PR.Pending(s)| then Diverges
      else
        var r := Tokenize(s1, m);
        if r.Done? then
          EndsOnceCons(tok, r.value);
          Done([tok] + r.value, r.state)
        else r
  }

  /** With the original `peek`, the reader is exact as long as what is
      left fits in one window: then both `peek`s give the same outcome. */
  lemma ModesAgreeInOneWindow(s: PR.State)
    requires PR.Valid(s) && PR.OneWindow(s)
    ensures Tokenize(s, AsWritten).Done? <==> Tokenize(s, Refilling).Done?
    ensures Tokenize(s, AsWritten).Done? ==> Tokenize(s, AsWritten).value == Tokenize(s, Refilling).value
    ensures Tokenize(s, AsWritten).Error? <==> Tokenize(s, Refilling).Error?
    ensures Tokenize(s, AsWritten).Error? ==> Tokenize(s, AsWritten).failure == Tokenize(s, Refilling).failure
  {
    var q := SpecTokens(PR.Pending(s), TokenizerRules);
    SameOutcome(Tokenize(s, AsWritten), Tokenize(s, Refilling), q);
  }

  /** Two steps that agree with the same reference step have the same
      outcome. */
  lemma SameOutcome(ra: Step<seq<Token>, PR.State>, rb: Step<seq<Token>, PR.State>, q: Step<seq<Token>, Text>)
    requires Agrees(ra, q) && Agrees(rb, q)
    ensures ra.Done? <==> rb.Done?
    ensures ra.Done? ==> ra.value == rb.value
    ensures ra.Error? <==> rb.Error?
    ensures ra.Error? ==> ra.failure == rb.failure
  {
  }

  /** With the refilling `peek`, two readers delivering the same characters
      in different pieces give the same outcome. */
  lemma ChunkingIrrelevant(a: seq<Text>, b: seq<Text>)
    requires NonEmptyPieces(a) && NonEmptyPieces(b) && Flatten(a) == Flatten(b)
    ensures Tokenize(PR.New(a), Refilling).Done? <==> Tokenize(PR.New(b), Refilling).Done?
    ensures Tokenize(PR.New(a), Refilling).Done? ==> Tokenize(PR.New(a), Refilling).value == Tokenize(PR.New(b), Refilling).value
    ensures Tokenize(PR.New(a), Refilling).Error? <==> Tokenize(PR.New(b), Refilling).Error?
    ensures Tokenize(PR.New(a), Refilling).Error? ==> Tokenize(PR.New(a), Refilling).failure == Tokenize(PR.New(b), Refilling).failure
  {
    var sa, sb := PR.New(a), PR.New(b);
    assert PR.Pending(sa) == PR.Pending(sb);
    SameOutcome(Tokenize(sa, Refilling), Tokenize(sb, Refilling), SpecTokens(PR.Pending(sa), TokenizerRules));
  }

  /** A `-` after any whitespace makes the token loop run forever. */
  lemma MinusLoopsForever(s: PR.State, m: PeekMode)
    requires PR.Valid(s) && (m.Refilling? || PR.OneWindow(s))
    requires Head(DropWhitespace(PR.Pending(s), JsonWhitespace)) == Minus
    ensures Tokenize(s, m).Diverges?
  {
    MinusStalls(PR.Pending(s));
  }

  /** With the original `peek`, a number whose one digit is the last
      character of the window ends there, whatever the reader still holds. */
  lemma DigitAtWindowEnd(s: PR.State)
    requires PR.Valid(s) && 0 < s.pos == s.size && IsAsciiDigit(s.buffer[s.pos - 1])
    ensures ReadNumber(s, AsWritten) == ([s.buffer[s.pos - 1]], s)
  {
    var c := s.buffer[s.pos - 1];
    var b := PR.Back(s);
    assert b.pos == s.pos - 1 && PR.Peek(b) == c;
    var (d, b1) := PR.Next(b);
    assert b1 == s && d == c;
    assert PR.Peek(s) == EOF;
    assert ReadDigits(s, AsWritten) == ([], s);
    assert [d] + [] == [c];
    assert PeekWith(AsWritten, b) == (c, b);
    assert ReadDigits(b, AsWritten) == ([c], s);
    assert ReadFraction(s, AsWritten) == ([], s);
    assert ReadExponent(s, AsWritten) == ([], s);
  }

  /** Whitespace inside the window is skipped by `next` alone, one
      character at a time, in either mode. */
  lemma {:induction false} WhitespaceInWindow(s: PR.State, t: PR.State, m: PeekMode)
    requires PR.Valid(s) && t == s.(pos := t.pos) && s.pos <= t.pos <= s.size
    requires forall j | s.pos <= j < t.pos :: IsWhitespace(s.buffer[j])
    ensures Start(s, m) == Start(t, m)
    decreases t.pos - s.pos
  {
    if s.pos < t.pos {
      var s1 := WhitespaceStep(s, t, m);
      WhitespaceInWindow(s1, t, m);
    }
  }

  /** One whitespace character of the window, on the way to `t`. */
  lemma WhitespaceStep(s: PR.State, t: PR.State, m: PeekMode) returns (s1: PR.State)
    requires PR.Valid(s) && t == s.(pos := t.pos) && s.pos < t.pos <= s.size
    requires forall j | s.pos <= j < t.pos :: IsWhitespace(s.buffer[j])
    ensures PR.Valid(s1) && t == s1.(pos := t.pos) && s1.pos <= t.pos <= s1.size
    ensures forall j | s1.pos <= j < t.pos :: IsWhitespace(s1.buffer[j])
    ensures t.pos - s1.pos < t.pos - s.pos
    ensures Start(s, m) == Start(s1, m)
  {
    s1 := s.(pos := s.pos + 1);
    assert IsWhitespace(s.buffer[s.pos]);
    assert PR.HasMore(s) == (true, s);
    assert PR.Next(s) == (s.buffer[s.pos], s1);
    assert s1.(pos := t.pos) == t;
  }

  /** A digit that is the last character of the window, the reader still
      holding more: with the original `peek` it is a number on its own. */
  lemma DigitEndsWindow(s: PR.State)
    requires PR.Valid(s) && s.pos + 1 == s.size && IsAsciiDigit(s.buffer[s.pos])
    ensures Start(s, AsWritten) == Done(Token(Number, [s.buffer[s.pos]]), s.(pos := s.size))
  {
    var c := s.buffer[s.pos];
    var s1 := s.(pos := s.size);
    assert PR.HasMore(s) == (true, s);
    assert PR.Next(s) == (c, s1);
    StartDispatches(s, s, AsWritten);
    DispatchNumber(s, AsWritten);
    DigitAtWindowEnd(s1);
    assert ReadNumberToken(s, AsWritten) == Done(Token(Number, [c]), s1);
  }

  /** `start` past the whitespace test: a character that is not whitespace
      goes to the `switch`. */
  lemma StartDispatches(s: PR.State, s1: PR.State, m: PeekMode)
    requires PR.Valid(s) && PR.HasMore(s) == (true, s1) && !IsWhitespace(PR.Next(s1).0)
    ensures Start(s, m) == Dispatch(s1, m)
  {
  }

  /** The `switch` of `start` at a digit goes to `readNumber`. */
  lemma DispatchNumber(s: PR.State, m: PeekMode)
    requires PR.Valid(s) && PR.Pending(s) != [] && IsDigit(PR.Next(s).0)
    ensures Dispatch(s, m) == ReadNumberToken(s, m)
  {
    assert Structural(PR.Next(s).0).None?;
  }

  /** A reader whose window is used up and whose next two reads bring in
      `c1` and then `c2`, as `new CharReader(reader)` is before its first
      read. */
  predicate TwoReads(s: PR.State, c1: Unit, c2: Unit) {
    PR.Valid(s) && s.pos == s.size && s.rest == [[c1], [c2]]
  }

  /** A fresh reader over a source that delivers `c1` and `c2` in separate
      reads is such a reader. */
  lemma FreshReaderTwoReads(c1: Unit, c2: Unit)
    ensures TwoReads(PR.New([[c1], [c2]]), c1, c2)
  {
  }

  /** The first read brings in `c1` alone; with the original `peek` the
      digit loop stops at the end of that window. */
  lemma FirstDigitAlone(s: PR.State, c1: Unit, c2: Unit) returns (r: PR.State)
    requires TwoReads(s, c1, c2) && IsAsciiDigit(c1) && IsAsciiDigit(c2)
    ensures Start(s, AsWritten) == Done(Token(Number, [c1]), r)
    ensures PR.Valid(r) && PR.Pending(r) == [c2] && PR.OneWindow(r)
  {
    var s1 := FirstWindow(s, c1, c2);
    r := DigitAloneInWindow(s1, c1, c2);
    StartDispatches(s, s1, AsWritten);
  }

  /** The first read fills the window with `c1` alone. */
  lemma FirstWindow(s: PR.State, c1: Unit, c2: Unit) returns (s1: PR.State)
    requires TwoReads(s, c1, c2)
    ensures PR.HasMore(s) == (true, s1) && PR.Valid(s1)
    ensures s1.pos == 0 && s1.size == 1 && s1.rest == [[c2]] && s1.buffer[0] == c1
  {
    var f := PR.FillBuffer(s);
    assert f.rest == [[c2]] && f.size == 1 && f.pos == 0 && f.buffer[..1] == [c1];
    s1 := f;
  }

  /** A window holding one digit and nothing after it: with the original
      `peek` the number ends there, and `c2` is left for the next read. */
  lemma DigitAloneInWindow(s1: PR.State, c1: Unit, c2: Unit) returns (s2: PR.State)
    requires PR.Valid(s1) && s1.pos == 0 && s1.size == 1 && s1.rest == [[c2]] && s1.buffer[0] == c1
    requires IsAsciiDigit(c1)
    ensures PR.Next(s1) == (c1, s2) && Dispatch(s1, AsWritten) == Done(Token(Number, [c1]), s2)
    ensures PR.Valid(s2) && PR.Pending(s2) == [c2] && PR.OneWindow(s2)
  {
    var (ch, t) := PR.Next(s1);
    s2 := t;
    assert ch == c1 && s2.pos == 1 && s2.size == 1 && s2.buffer[0] == c1 && s2.rest == [[c2]];
    DispatchNumber(s1, AsWritten);
    DigitAtWindowEnd(s2);
    assert ReadNumberToken(s1, AsWritten) == Done(Token(Number, [c1]), s2);
    assert PR.Pending(s2) == [] + [c2];
  }

  /** A number split across two reads: two digits delivered by reads of
      one character each come out as two numbers with the original `peek`. */
  lemma SplitNumber(s: PR.State, c1: Unit, c2: Unit)
    requires TwoReads(s, c1, c2) && IsAsciiDigit(c1) && IsAsciiDigit(c2)
    ensures Tokenize(s, AsWritten).Done?
    ensures Tokenize(s, AsWritten).value == [Token(Number, [c1]), Token(Number, [c2]), EndToken]
  {
    var s1 := FirstDigitAlone(s, c1, c2);
    assert |PR.Pending(s1)| < |PR.Pending(s)| by {
      assert PR.Pending(s) == [c1, c2];
    }
    LastDigit(s1, c2);
    var u := [Token(Number, [c2]), EndToken];
    TokenizeStep(s, AsWritten, Token(Number, [c1]), s1, u);
    ConsPair(Token(Number, [c1]), u, Token(Number, [c2]), EndToken);
  }

  /** A reader holding one digit in its window and nothing beyond gives
      that number and the end of the document. */
  lemma LastDigit(s: PR.State, c: Unit)
    requires PR.Valid(s) && PR.OneWindow(s) && PR.Pending(s) == [c] && IsAsciiDigit(c)
    ensures Tokenize(s, AsWritten).Done?
    ensures Tokenize(s, AsWritten).value == [Token(Number, [c]), EndToken]
  {
    assert DigitRun([c]);
    DigitRunIsOneToken([c]);
    AgreedDone(Tokenize(s, AsWritten), SpecTokens([c], TokenizerRules));
  }

  /** A step that agrees with a reference step that succeeded succeeded
      too, with the same value. */
  lemma AgreedDone<T>(r: Step<T, PR.State>, q: Step<T, Text>)
    requires Agrees(r, q) && q.Done?
    ensures r.Done? && r.value == q.value
  {
  }

  /** One turn of the `tokenize` loop after a token that made progress. */
  lemma TokenizeStep(s: PR.State, m: PeekMode, t: Token, s1: PR.State, u: seq<Token>)
    requires PR.Valid(s) && Start(s, m) == Done(t, s1) && t.kind != EndDocument
    requires |PR.Pending(s1)| < |PR.Pending(s)|
    requires Tokenize(s1, m).Done? && Tokenize(s1, m).value == u
    ensures Tokenize(s, m).Done? && Tokenize(s, m).value == [t] + u
  {
  }

  lemma ConsPair(t: Token, u: seq<Token>, a: Token, b: Token)
    requires u == [a, b]
    ensures [t] + u == [t, a, b]
  {
  }

  /** With the refilling `peek`, any reader holding two digits gives the
      one number the reference lexer sees, however it delivers them. */
  lemma WholeNumber(s: PR.State, c1: Unit, c2: Unit)
    requires PR.Valid(s) && PR.Pending(s) == [c1, c2]
    requires IsAsciiDigit(c1) && IsAsciiDigit(c2)
    ensures Tokenize(s, Refilling).Done?
    ensures Tokenize(s, Refilling).value == [Token(Number, [c1, c2]), EndToken]
  {
    var p := PR.Pending(s);
    assert DigitRun(p);
    DigitRunIsOneToken(p);
    AgreedDone(Tokenize(s, Refilling), SpecTokens(p, TokenizerRules));
  }
}

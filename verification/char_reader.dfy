/** The buffered reader `com.study.json.CharReader`: a window of `size`
    characters in a fixed buffer, a cursor `pos`, and a cached copy of the
    character under the cursor. Every operation is a pure transition from
    one `State` to the next. */
module CharReader {
  import opened Base

  /** `BUFFER_SIZE`, used when no size is given. */
  const DefaultBufferSize: int := 8192

  /** `rest` is what the underlying `Reader` has not delivered yet;
      `buffer` is the whole backing array, including stale characters beyond
      `size` that an earlier, longer read left behind. */
  datatype State = State(rest: seq<Text>, buffer: Text, pos: int, size: int, current: Unit)

  datatype ConstructionError =
    | NullReader          // IllegalArgumentException "reader is null"
    | InvalidBufferSize   // IllegalArgumentException "bufferSize is invalid"

  /** Every state the public operations can reach. After end of stream
      `size` is 0 while `pos` keeps its old value, and `back` may then put a
      stale character of the old window into the cache. */
  predicate Valid(s: State) {
    && 0 < |s.buffer|
    && NonEmptyPieces(s.rest)
    && 0 <= s.size <= |s.buffer|
    && 0 <= s.pos <= |s.buffer|
    && (s.pos < s.size ==> s.current == s.buffer[s.pos])
    && (s.pos > s.size ==> s.size == 0 && s.rest == [])
    && (s.current != EOF && s.pos >= s.size ==>
          s.size == 0 && s.rest == [] && s.pos < |s.buffer| && s.current == s.buffer[s.pos])
  }

  /** The states the lexer works in: a cached character always lies inside
      the live window. */
  predicate Settled(s: State) {
    Valid(s) && (s.current != EOF ==> s.pos < s.size)
  }

  /** The characters not yet consumed: the rest of the window, then
      everything the reader still holds. */
  function Pending(s: State): Text
    requires Valid(s)
  {
    (if s.pos < s.size then s.buffer[s.pos..s.size] else []) + Flatten(s.rest)
  }

  /** The reader stops at the first U+FFFF: `next` returns EOF there and
      does not advance, so only the characters before it can ever be read. */
  function Truncate(p: Text): (r: Text)
    ensures EOF !in r
    ensures |r| <= |p| && r == p[..|r|]
    ensures |r| < |p| ==> p[|r|] == EOF
  {
    if p == [] || p[0] == EOF then [] else [p[0]] + Truncate(p[1..])
  }

  /** The input as the lexer sees it through this reader. */
  function Input(s: State): Text
    requires Valid(s)
  {
    Truncate(Pending(s))
  }

  /** `new CharReader(reader, bufferSize)`; `None` stands for a null reader. */
  function New(reader: Option<seq<Text>>, bufferSize: int): (r: Result<State, ConstructionError>)
    requires reader.Some? ==> NonEmptyPieces(reader.value)
    ensures reader.None? ==> r == Fail(NullReader)
    ensures reader.Some? && bufferSize <= 0 ==> r == Fail(InvalidBufferSize)
    ensures reader.Some? && bufferSize > 0 ==>
              r.Ok? && Settled(r.value) && |r.value.buffer| == bufferSize
              && Pending(r.value) == Flatten(reader.value)
  {
    if reader.None? then Fail(NullReader)
    else if bufferSize <= 0 then Fail(InvalidBufferSize)
    else Ok(State(reader.value, seq(bufferSize, _ => 0), 0, 0, EOF))
  }

  /** `fillBuffer`, which `hasMore` calls once the window is used up. At end
      of stream it empties the window but leaves `pos` where it was. */
  function FillBuffer(s: State): (r: State)
    requires Valid(s) && s.pos >= s.size
    ensures Settled(r) && Pending(r) == Pending(s)
    ensures s.rest == [] ==> r == s.(size := 0, current := EOF)
    ensures s.rest != [] ==> r.pos == 0 && 0 < r.size <= |s.buffer|
  {
    match Read(s.rest, |s.buffer|)
    case EndOfStream => s.(size := 0, current := EOF)
    case Chars(data, rest) =>
      var b := data + s.buffer[|data|..];
      var r := s.(rest := rest, buffer := b, pos := 0, size := |data|, current := b[0]);
      assert |b| == |s.buffer| && b[0..|data|] == data;
      assert Pending(s) == Flatten(s.rest);
      assert Pending(r) == data + Flatten(rest);
      r
  }

  /** `hasMore`: true exactly when unconsumed characters remain; refills
      only when the window is used up. */
  function HasMore(s: State): (r: (bool, State))
    requires Valid(s)
    ensures Valid(r.1) && Pending(r.1) == Pending(s)
    ensures r.0 <==> Pending(s) != []
    ensures r.0 ==> Settled(r.1) && r.1.pos < r.1.size
    ensures s.pos < s.size ==> r.1 == s
    ensures Settled(s) ==> Settled(r.1)
    ensures !r.0 ==> r.1.size == 0 && r.1.current == EOF && r.1.pos == s.pos && r.1.rest == []
  {
    if s.pos < s.size then (true, s)
    else
      var s1 := FillBuffer(s);
      (s1.pos < s1.size, s1)
  }

  /** `peek`: the cached character, fetched from the buffer (refilling if
      needed) when the cache holds EOF. */
  function Peek(s: State): (r: (Unit, State))
    requires Valid(s)
    ensures Valid(r.1)
    ensures Settled(s) ==> Settled(r.1) && r.0 == Head(Input(s))
    ensures Settled(s) ==> Pending(r.1) == Pending(s)
    ensures r.0 != EOF ==> r.0 == r.1.current && r.1.pos < |r.1.buffer| && r.1.buffer[r.1.pos] == r.0
    ensures r.0 == EOF ==> r.1.current == EOF
  {
    if s.current == EOF then
      var (more, s1) := HasMore(s);
      if more then
        var c := s1.buffer[s1.pos];
        (c, s1.(current := c))
      else (s1.current, s1)
    else (s.current, s)
  }

  /** The cursor step inside `next`: `pos++` and reload the cache. */
  function Advance(s: State): (r: State)
    requires Valid(s) && s.current != EOF && s.pos < |s.buffer|
    ensures Valid(r) && r.pos == s.pos + 1 && r.buffer == s.buffer && r.size == s.size
    ensures Settled(s) ==> Settled(r) && Pending(r) == Pending(s)[1..]
  {
    var p := s.pos + 1;
    var r := s.(pos := p, current := if p < s.size then s.buffer[p] else EOF);
    if Settled(s) then
      WindowStep(s.buffer, s.pos, s.size, Flatten(s.rest));
      r
    else r
  }

  /** `next`: what `peek` returns, consuming it unless it is EOF. */
  function Next(s: State): (r: (Unit, State))
    requires Valid(s)
    ensures Valid(r.1)
    ensures r.0 == Peek(s).0
    ensures r.0 == EOF ==> r.1 == Peek(s).1
    ensures r.0 != EOF ==> r.1.pos == Peek(s).1.pos + 1 && r.1.buffer[r.1.pos - 1] == r.0
    ensures Settled(s) ==> Settled(r.1) && r.0 == Head(Input(s)) && Input(r.1) == Tail(Input(s))
    ensures Settled(s) && r.0 != EOF ==> Pending(r.1) == Pending(s)[1..] && r.1.pos <= r.1.size
  {
    var (c, s1) := Peek(s);
    if c != EOF then (c, Advance(s1)) else (c, s1)
  }

  /** `back`: one step back inside the buffer, reloading the cache from it.
      Throws at the start of the buffer. */
  function Back(s: State): (r: Result<State, LexError>)
    requires Valid(s)
    ensures r.Fail? <==> s.pos <= 0
    ensures r.Fail? ==> r.error == BackAtStart
    ensures r.Ok? ==> Valid(r.value) && r.value.pos == s.pos - 1 && r.value.current == s.buffer[s.pos - 1]
    ensures r.Ok? && Settled(s) && s.pos <= s.size ==> Settled(r.value)
  {
    if s.pos <= 0 then Fail(BackAtStart)
    else Ok(s.(pos := s.pos - 1, current := s.buffer[s.pos - 1]))
  }

  /** `skipWhitespace`: consume characters while more remain and the next
      one is in `ws`. */
  function SkipWhitespace(s: State, ws: set<Unit>): (r: State)
    requires Valid(s) && EOF !in ws
    ensures Valid(r)
    ensures Settled(s) ==> Settled(r) && Input(r) == DropWhitespace(Input(s), ws)
    decreases |Pending(s)|
  {
    var (more, s1) := HasMore(s);
    if !more then s1
    else
      var (c, s2) := Peek(s1);
      if c !in ws then s2
      else SkipWhitespace(Next(s2).1, ws)
  }

  /** Two `peek`s in a row return the same character and leave the same
      state as one. */
  lemma PeekIdempotent(s: State)
    requires Valid(s)
    ensures Peek(Peek(s).1) == Peek(s)
  {
  }

  /** `peek` moves the cursor only through a refill, which restarts the
      window at 0; the unconsumed input never changes. */
  lemma PeekMovesOnlyByRefill(s: State)
    requires Valid(s)
    ensures Peek(s).1.pos != s.pos ==> s.current == EOF && s.pos >= s.size && s.rest != [] && Peek(s).1.pos == 0
    ensures Pending(Peek(s).1) == Pending(s)
  {
  }

  /** Right after a `next` that returned a character, `back` succeeds and
      the following `next` returns that character again; on a settled
      reader the round trip restores the state `peek` left. */
  lemma NextBackNext(s: State)
    requires Valid(s) && Next(s).0 != EOF
    ensures Back(Next(s).1).Ok?
    ensures Next(Back(Next(s).1).value).0 == Next(s).0
    ensures Settled(s) ==> Back(Next(s).1) == Ok(Peek(s).1)
  {
    var (c, s1) := Peek(s);
    var t := Advance(s1);
    assert Next(s) == (c, t);
    assert t.pos == s1.pos + 1 && t.buffer == s1.buffer;
    assert Back(t) == Ok(s1);
    assert Peek(s1) == (c, s1);
  }

  /** Once `hasMore` has answered false, asking again changes nothing. */
  lemma EndOfStreamIsStable(s: State)
    requires Valid(s) && !HasMore(s).0
    ensures HasMore(HasMore(s).1) == (false, HasMore(s).1)
  {
  }

  /** After `skipWhitespace` either no input remains or the next character
      is not whitespace. */
  lemma {:induction false} SkipWhitespaceStops(s: State, ws: set<Unit>)
    requires Valid(s) && EOF !in ws
    ensures HasMore(SkipWhitespace(s, ws)).0 ==> Peek(SkipWhitespace(s, ws)).0 !in ws
    decreases |Pending(s)|
  {
    var (more, s1) := HasMore(s);
    if more {
      var (c, s2) := Peek(s1);
      if c in ws {
        SkipWhitespaceStops(Next(s2).1, ws);
      } else {
        PeekIdempotent(s1);
      }
    }
  }

  /** Skipping whitespace twice has the effect of skipping it once. */
  lemma {:induction false} SkipWhitespaceIdempotent(s: State, ws: set<Unit>)
    requires Valid(s) && EOF !in ws
    ensures SkipWhitespace(SkipWhitespace(s, ws), ws) == SkipWhitespace(s, ws)
    decreases |Pending(s)|
  {
    var (more, s1) := HasMore(s);
    if more {
      var (c, s2) := Peek(s1);
      if c in ws {
        SkipWhitespaceIdempotent(Next(s2).1, ws);
      } else {
        PeekIdempotent(s1);
      }
    }
  }
}

/** The second buffered reader, `com.study.json.pojo.CharReader`, used by
    `Tokenizer` and `Json`. It has no cached character: `peek` looks at the
    buffer directly and never refills it, and `back` clamps at 0. */
module PojoCharReader {
  import opened Base

  /** `BUFFER_SIZE`: the buffer is always this long. */
  const BufferSize: int := 8192

  datatype State = State(rest: seq<Text>, buffer: Text, pos: int, size: int)

  /** The invariant every operation keeps: `0 <= pos <= size <= 8192`. */
  predicate Valid(s: State) {
    && |s.buffer| == BufferSize
    && NonEmptyPieces(s.rest)
    && 0 <= s.pos <= s.size <= |s.buffer|
  }

  /** Everything not yet consumed is in the window, or the window is used
      up and the next refill brings in all that is left. */
  predicate OneWindow(s: State) {
    || s.rest == []
    || (s.pos >= s.size && |s.rest| == 1 && |s.rest[0]| <= |s.buffer|)
  }

  /** The characters not yet consumed: the rest of the window, then
      everything the reader still holds. */
  function Pending(s: State): Text
    requires Valid(s)
  {
    s.buffer[s.pos..s.size] + Flatten(s.rest)
  }

  /** `new CharReader(reader)` over a reader that will deliver `pieces`. */
  function New(pieces: seq<Text>): (r: State)
    requires NonEmptyPieces(pieces)
    ensures Valid(r) && Pending(r) == Flatten(pieces)
  {
    State(pieces, seq(BufferSize, _ => 0), 0, 0)
  }

  /** `new CharReader(str)`: a `StringReader` delivers the whole string,
      at most one buffer at a time. */
  function FromString(str: Text): (r: State)
    ensures Valid(r) && Pending(r) == str
  {
    New(if str == [] then [] else [str])
  }

  /** `fillBuffer`. At end of stream it returns without touching anything. */
  function FillBuffer(s: State): (r: State)
    requires Valid(s)
    ensures Valid(r)
    ensures s.pos == s.size ==> Pending(r) == Pending(s)
    ensures s.rest == [] ==> r == s
    ensures s.rest != [] ==> r.pos == 0 && 0 < r.size
    ensures s.rest != [] && |s.rest[0]| <= |s.buffer| ==>
              r.rest == s.rest[1..] && r.size == |s.rest[0]| && r.buffer[..r.size] == s.rest[0]
  {
    match Read(s.rest, |s.buffer|)
    case EndOfStream => s
    case Chars(data, rest) =>
      var b := data + s.buffer[|data|..];
      assert b[0..|data|] == data;
      s.(rest := rest, buffer := b, pos := 0, size := |data|)
  }

  /** `hasMore`: true exactly when unconsumed characters remain. */
  function HasMore(s: State): (r: (bool, State))
    requires Valid(s)
    ensures Valid(r.1) && Pending(r.1) == Pending(s)
    ensures r.0 <==> Pending(s) != []
    ensures r.0 ==> r.1.pos < r.1.size
    ensures s.pos < s.size ==> r.1 == s
    ensures !r.0 ==> r.1 == s && s.rest == []
    ensures OneWindow(s) ==> r.1.rest == []
  {
    if s.pos < s.size then (true, s)
    else
      var s1 := FillBuffer(s);
      (s1.pos < s1.size, s1)
  }

  /** `peek`: the character under the cursor, or EOF once the window is
      used up, even if the reader still holds input. It never reads. */
  function Peek(s: State): (r: Unit)
    requires Valid(s)
    ensures s.pos >= s.size ==> r == EOF
    ensures s.pos < s.size ==> r == Pending(s)[0]
  {
    if s.pos >= s.size then EOF
    else s.buffer[if s.pos < 0 then 0 else s.pos]
  }

  /** The `buffer[pos++]` step of `next`. */
  function Advance(s: State): (r: State)
    requires Valid(s) && s.pos < s.size
    ensures Valid(r) && r.pos == s.pos + 1 && r.buffer == s.buffer
    ensures Pending(r) == Pending(s)[1..]
  {
    WindowStep(s.buffer, s.pos, s.size, Flatten(s.rest));
    s.(pos := s.pos + 1)
  }

  /** `next`: EOF when nothing remains, otherwise the next character, which
      is consumed even if it is U+FFFF. */
  function Next(s: State): (r: (Unit, State))
    requires Valid(s)
    ensures Valid(r.1)
    ensures r.0 == Head(Pending(s)) && Pending(r.1) == Tail(Pending(s))
    ensures Pending(s) == [] ==> r.1 == s
    ensures Pending(s) != [] ==> r.1.pos > 0 && r.1.buffer[r.1.pos - 1] == r.0
    ensures OneWindow(s) ==> r.1.rest == []
  {
    var (more, s1) := HasMore(s);
    if !more then (EOF, s1)
    else (s1.buffer[s1.pos], Advance(s1))
  }

  /** `back`: `pos = max(0, pos - 1)`; it never fails. */
  function Back(s: State): (r: State)
    requires Valid(s)
    ensures Valid(r) && r.pos == (if s.pos > 0 then s.pos - 1 else 0)
    ensures s.pos > 0 ==> Pending(r) == [s.buffer[s.pos - 1]] + Pending(s)
    ensures s.pos == 0 ==> r == s
    ensures r.rest == s.rest
  {
    var r := s.(pos := if s.pos - 1 > 0 then s.pos - 1 else 0);
    assert s.pos > 0 ==> s.buffer[s.pos - 1..s.size] == [s.buffer[s.pos - 1]] + s.buffer[s.pos..s.size];
    r
  }

  /** `next; back; next` returns the same character twice whenever the
      first `next` read one. */
  lemma NextBackNext(s: State)
    requires Valid(s) && Pending(s) != []
    ensures Next(Back(Next(s).1)).0 == Next(s).0
    ensures Pending(Back(Next(s).1)) == Pending(s)
  {
  }

  /** At the end of input the first `next` returns EOF, yet `back` still
      steps into the old window, so the second `next` returns its last
      character. */
  lemma NextBackNextAtEnd(s: State)
    requires Valid(s) && Pending(s) == [] && s.size > 0
    ensures Next(s).0 == EOF
    ensures Next(Back(Next(s).1)).0 == s.buffer[s.size - 1]
  {
    assert s.pos == s.size;
  }

  /** At end of stream a refill leaves `pos` and `size` alone, so `hasMore`
      keeps answering false. */
  lemma EndOfStreamIsStable(s: State)
    requires Valid(s) && !HasMore(s).0
    ensures HasMore(s).1 == s && s.pos == s.size && s.rest == []
  {
  }
}

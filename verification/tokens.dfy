/** Tokens: the kinds of `enums/TokenType` and the `(kind, text)` pairs of
    `pojo/Token`. */
module Tokens {
  import opened Base

  datatype TokenType =
    | BeginObject | EndObject | BeginArray | EndArray | Null
    | Number | String | Boolean | SepColon | SepComma | EndDocument

  /** `getCode`: the numbers 1 to 11 in declaration order. */
  function Code(k: TokenType): (r: int)
    ensures 1 <= r <= 11
  {
    match k
    case BeginObject => 1
    case EndObject => 2
    case BeginArray => 3
    case EndArray => 4
    case Null => 5
    case Number => 6
    case String => 7
    case Boolean => 8
    case SepColon => 9
    case SepComma => 10
    case EndDocument => 11
  }

  /** No two kinds share a code. */
  lemma CodeInjective(a: TokenType, b: TokenType)
    ensures Code(a) == Code(b) ==> a == b
  {
  }

  /** A token. The lexers give END_DOCUMENT a null text; it is never read
      and is modelled as the empty text. */
  datatype Token = Token(kind: TokenType, text: Text)

  const EndToken: Token := Token(EndDocument, [])

  /** The one-character tokens both lexers emit, with the character as text. */
  function Structural(c: Unit): (r: Option<Token>)
    ensures r.Some? ==> r.value.text == [c]
    ensures r.Some? <==> c in {LeftBrace, RightBrace, LeftBracket, RightBracket, Colon, Comma}
    ensures c == LeftBrace ==> r.value.kind == BeginObject
    ensures c == RightBrace ==> r.value.kind == EndObject
    ensures c == LeftBracket ==> r.value.kind == BeginArray
    ensures c == RightBracket ==> r.value.kind == EndArray
    ensures c == Colon ==> r.value.kind == SepColon
    ensures c == Comma ==> r.value.kind == SepComma
  {
    if c == LeftBrace then Some(Token(BeginObject, [c]))
    else if c == RightBrace then Some(Token(EndObject, [c]))
    else if c == LeftBracket then Some(Token(BeginArray, [c]))
    else if c == RightBracket then Some(Token(EndArray, [c]))
    else if c == Colon then Some(Token(SepColon, [c]))
    else if c == Comma then Some(Token(SepComma, [c]))
    else None
  }

  /** A token list as both lexers produce it: END_DOCUMENT exactly once,
      as the last element. */
  predicate EndsOnce(ts: seq<Token>) {
    && |ts| > 0
    && ts[|ts| - 1].kind == EndDocument
    && forall i | 0 <= i < |ts| - 1 :: ts[i].kind != EndDocument
  }

  /** A token other than END_DOCUMENT in front of such a list keeps it one. */
  lemma EndsOnceCons(t: Token, ts: seq<Token>)
    requires t.kind != EndDocument && EndsOnce(ts)
    ensures EndsOnce([t] + ts)
  {
    assert forall i | 1 <= i < |ts| + 1 :: ([t] + ts)[i] == ts[i - 1];
  }
}

/** The two recursive-descent parsers, `com.study.json.JsonParser` and
    `com.study.json.util.JsonParser`. Their productions are the same text;
    they are modelled once over a token list and a cursor `i`, and only
    `parse` differs: the first rejects tokens left after the value, the
    second ignores them. */
module JsonParser {
  import opened Base
  import opened Tokens
  import opened Numbers
  import opened Values
  import JO = JsonObjects
  import JA = JsonArrays

  /** The exceptions the parsers raise. */
  datatype ParseError =
    // parseValue: "Unexpected token: "
    | UnexpectedToken(found: Token)
    // consume: "Expected <kind> but found <token>"
    | ExpectedKind(expected: TokenType, found: Token)
    // parse: "Extra data after end of JSON: "
    | ExtraData(found: Token)
    // parseNumber: NumberFormatException from parseDouble or parseLong
    | BadNumber(text: Text)
    // the constructor leaves currentToken null on an empty list, and the
    // first getType() throws a NullPointerException
    | NoTokens

  /** `currentToken` with the cursor at `i`: once the list is used up,
      `consume` puts a fresh END_DOCUMENT token there. */
  function Current(toks: seq<Token>, i: nat): (r: Token)
    ensures i >= |toks| ==> r == EndToken
  {
    if i < |toks| then toks[i] else EndToken
  }

  /** `consume`: the current token must have kind `kind`; the cursor then
      moves on, and stays on the final END_DOCUMENT once the list is used
      up. */
  function Consume(toks: seq<Token>, i: nat, kind: TokenType): (r: Result<nat, ParseError>)
    requires i <= |toks|
    ensures r.Ok? <==> Current(toks, i).kind == kind
    ensures r.Fail? ==> r.error == ExpectedKind(kind, Current(toks, i))
    ensures r.Ok? ==> r.value <= |toks| && r.value == (if i < |toks| then i + 1 else i)
    ensures r.Ok? && kind != EndDocument ==> r.value == i + 1
  {
    if Current(toks, i).kind != kind then Fail(ExpectedKind(kind, Current(toks, i)))
    else if i < |toks| then Ok(i + 1)
    else Ok(i)
  }

  /** `Boolean.valueOf`: true exactly for `true` in any mix of case. The
      letters of `true` are ASCII, and only ASCII letters fold onto them. */
  function BooleanValueOf(t: Text): (r: bool)
    ensures r <==> |t| == 4 && forall i | 0 <= i < 4 :: t[i] == TrueText[i] || t[i] as int + 32 == TrueText[i]
  {
    |t| == 4 && forall i | 0 <= i < 4 :: LowerAscii(t[i]) == TrueText[i]
  }

  function LowerAscii(c: Unit): (r: Unit)
    ensures 'A' as Unit <= c <= 'Z' as Unit ==> r == c + 32
    ensures !('A' as Unit <= c <= 'Z' as Unit) ==> r == c
  {
    if 'A' as Unit <= c <= 'Z' as Unit then c + 32 else c
  }

  /** A BOOLEAN token as the lexers make it reads back as its own text. */
  lemma BooleanLiterals()
    ensures BooleanValueOf(TrueText)
    ensures !BooleanValueOf(FalseText)
  {
  }

  /** `parseNumber`: a text with `.`, `e` or `E` goes to `parseDouble`;
      any other to `parseInt`, and to `parseLong` when that fails. */
  function ParseNumber(t: Text): (r: Result<Value, ParseError>)
    ensures r.Ok? ==> Producible(r.value)
    ensures r.Ok? && r.value.Fractional? <==> LooksFractional(t) && DecimalFloatSyntax(t)
    ensures r.Ok? && r.value.Fractional? ==> r.value.text == t
    ensures r.Ok? && r.value.Int32? ==> ParseInteger(t, Int32Min, Int32Max) == Some(r.value.i)
    ensures r.Ok? && r.value.Int64? ==> ParseInteger(t, Int64Min, Int64Max) == Some(r.value.l)
    ensures r.Fail? ==> r.error == BadNumber(t)
  {
    if LooksFractional(t) then
      if DecimalFloatSyntax(t) then Ok(Fractional(t)) else Fail(BadNumber(t))
    else
      match ParseInteger(t, Int32Min, Int32Max)
      case Some(n) => Ok(Int32(n))
      case None =>
        match ParseInteger(t, Int64Min, Int64Max)
        case Some(n) => Ok(Int64(n))
        case None => Fail(BadNumber(t))
  }

  /** Which outcome `parseNumber` gives, case by case: text with `.`, `e`
      or `E` goes to `parseDouble` alone; other text is an `Integer` when
      `parseInt` accepts it, else a `Long` when `parseLong` does, and a
      `NumberFormatException` only when both refuse it. */
  lemma ParseNumberCases(t: Text)
    ensures LooksFractional(t) ==> ParseNumber(t) == (if DecimalFloatSyntax(t) then Ok(Fractional(t)) else Fail(BadNumber(t)))
    ensures (!LooksFractional(t) && ParseInteger(t, Int32Min, Int32Max).Some?)
            ==> ParseNumber(t) == Ok(Int32(ParseInteger(t, Int32Min, Int32Max).value))
    ensures (!LooksFractional(t) && ParseInteger(t, Int32Min, Int32Max).None? && ParseInteger(t, Int64Min, Int64Max).Some?)
            ==> ParseNumber(t) == Ok(Int64(ParseInteger(t, Int64Min, Int64Max).value))
    ensures ParseNumber(t).Fail? <==>
              if LooksFractional(t) then !DecimalFloatSyntax(t)
              else ParseInteger(t, Int32Min, Int32Max).None? && ParseInteger(t, Int64Min, Int64Max).None?
  {
  }

  /** What the parsers can hand out: an `Integer` only in `int` range, a
      `Long` only when `parseInt` refused it, a `Double` only from text
      `parseDouble` accepts, and containers of such values. */
  predicate Producible(v: Value) {
    match v
    case Int32(n) => Int32Min <= n <= Int32Max
    case Int64(n) => Int64Min <= n <= Int64Max && !(Int32Min <= n <= Int32Max)
    case Fractional(t) => LooksFractional(t) && DecimalFloatSyntax(t)
    case Arr(a) => forall j | 0 <= j < |a.items| :: Producible(a.items[j])
    case Obj(o) => forall k | k in o.fields :: Producible(o.fields[k])
    case _ => true
  }

  /** The kinds `parseValue` dispatches on. */
  predicate StartsValue(k: TokenType) {
    k.BeginObject? || k.BeginArray? || k.String? || k.Number? || k.Boolean? || k.Null?
  }

  /** `parseValue`: dispatch on the current token's kind. On success the
      cursor has moved past at least one token. */
  function ParseValue(toks: seq<Token>, i: nat): (r: Result<(Value, nat), ParseError>)
    requires i <= |toks|
    ensures r.Ok? ==> i < r.value.1 <= |toks| && Producible(r.value.0)
    ensures !StartsValue(Current(toks, i).kind) ==> r == Fail(UnexpectedToken(Current(toks, i)))
    decreases |toks| - i, 2
  {
    var t := Current(toks, i);
    if t.kind == BeginObject then ParseObject(toks, i)
    else if t.kind == BeginArray then ParseArray(toks, i)
    else if t.kind == String then Ok((Str(t.text), i + 1))
    else if t.kind == Number then
      match ParseNumber(t.text)
      case Ok(v) => Ok((v, i + 1))
      case Fail(e) => Fail(e)
    else if t.kind == Boolean then Ok((Bool(BooleanValueOf(t.text)), i + 1))
    else if t.kind == TokenType.Null then Ok((Value.Null, i + 1))
    else Fail(UnexpectedToken(t))
  }

  /** `parseObject`: consume `{`, then the loop over the members. */
  function ParseObject(toks: seq<Token>, i: nat): (r: Result<(Value, nat), ParseError>)
    requires i < |toks|
    ensures r.Ok? ==> i + 1 < r.value.1 <= |toks| && r.value.0.Obj?
    ensures Current(toks, i + 1).kind == EndObject ==> r == Ok((Obj(JO.Empty()), i + 2))
    ensures !Current(toks, i + 1).kind.EndObject? && !Current(toks, i + 1).kind.String?
            ==> r == Fail(ExpectedKind(String, Current(toks, i + 1)))
    decreases |toks| - i, 1
  {
    ParseMembers(toks, i + 1, JO.Empty())
  }

  /** `parseArray`: consume `[`, then the loop over the elements. */
  function ParseArray(toks: seq<Token>, i: nat): (r: Result<(Value, nat), ParseError>)
    requires i < |toks|
    ensures r.Ok? ==> i + 1 < r.value.1 <= |toks| && r.value.0.Arr?
    ensures Current(toks, i + 1).kind == EndArray ==> r == Ok((Arr(JA.Empty()), i + 2))
    ensures !Current(toks, i + 1).kind.EndArray? && !StartsValue(Current(toks, i + 1).kind)
            ==> r == Fail(UnexpectedToken(Current(toks, i + 1)))
    decreases |toks| - i, 1
  {
    ParseElements(toks, i + 1, JA.Empty())
  }

  /** The loop of `parseObject` after `{`: until `}`, a STRING key, `:`, a
      value stored with `put`, and a `,` unless `}` follows. */
  function ParseMembers(toks: seq<Token>, j: nat, acc: JsonObject): (r: Result<(Value, nat), ParseError>)
    requires j <= |toks|
    ensures r.Ok? ==> j < r.value.1 <= |toks| && r.value.0.Obj?
    ensures r.Ok? ==> acc.fields.Keys <= r.value.0.obj.fields.Keys
    ensures r.Ok? && (forall k | k in acc.fields :: Producible(acc.fields[k])) ==> Producible(r.value.0)
    ensures Current(toks, j).kind == EndObject ==> r == Ok((Obj(acc), j + 1))
    ensures !Current(toks, j).kind.EndObject? && !Current(toks, j).kind.String?
            ==> r == Fail(ExpectedKind(String, Current(toks, j)))
    ensures Current(toks, j).kind == String && Current(toks, j + 1).kind != SepColon
            ==> r == Fail(ExpectedKind(SepColon, Current(toks, j + 1)))
    ensures Current(toks, j).kind == String && Current(toks, j + 1).kind == SepColon && ParseValue(toks, j + 2).Fail?
            ==> r == Fail(ParseValue(toks, j + 2).error)
    decreases |toks| - j + 1, 0
  {
    var t := Current(toks, j);
    if t.kind == EndObject then Ok((Obj(acc), j + 1))
    else if t.kind != String then Fail(ExpectedKind(String, t))
    else
      match Consume(toks, j + 1, SepColon)
      case Fail(e) => Fail(e)
      case Ok(k) =>
        match ParseValue(toks, k)
        case Fail(e) => Fail(e)
        case Ok((v, n)) =>
          var acc' := JO.Put(acc, t.text, v);
          if Current(toks, n).kind == EndObject then ParseMembers(toks, n, acc')
          else
            match Consume(toks, n, SepComma)
            case Fail(e) => Fail(e)
            case Ok(n') => ParseMembers(toks, n', acc')
  }

  /** The loop of `parseArray` after `[`: until `]`, a value appended with
      `add`, and a `,` unless `]` follows. */
  function ParseElements(toks: seq<Token>, j: nat, acc: JsonArray): (r: Result<(Value, nat), ParseError>)
    requires j <= |toks|
    ensures r.Ok? ==> j < r.value.1 <= |toks| && r.value.0.Arr?
    ensures r.Ok? ==> |acc.items| <= |r.value.0.arr.items| && r.value.0.arr.items[..|acc.items|] == acc.items
    ensures r.Ok? && (forall k | 0 <= k < |acc.items| :: Producible(acc.items[k])) ==> Producible(r.value.0)
    ensures Current(toks, j).kind == EndArray ==> r == Ok((Arr(acc), j + 1))
    ensures !Current(toks, j).kind.EndArray? && ParseValue(toks, j).Fail? ==> r == Fail(ParseValue(toks, j).error)
    decreases |toks| - j + 1, 0
  {
    var t := Current(toks, j);
    if t.kind == EndArray then Ok((Arr(acc), j + 1))
    else
      match ParseValue(toks, j)
      case Fail(e) => Fail(e)
      case Ok((v, n)) =>
        var acc' := JA.Add(acc, v);
        assert acc'.items[..|acc.items|] == acc.items;
        if Current(toks, n).kind == EndArray then ParseElements(toks, n, acc')
        else
          match Consume(toks, n, SepComma)
          case Fail(e) => Fail(e)
          case Ok(n') => ParseElements(toks, n', acc')
  }

  /** One turn of the `parseArray` loop after an element. */
  lemma ElementsStep(toks: seq<Token>, j: nat, acc: JsonArray)
    requires j <= |toks| && Current(toks, j).kind != EndArray && ParseValue(toks, j).Ok?
    ensures var (v, n) := ParseValue(toks, j).value;
            var t := Current(toks, n);
            ParseElements(toks, j, acc)
              == if t.kind == EndArray then ParseElements(toks, n, JA.Add(acc, v))
                 else if t.kind == SepComma then ParseElements(toks, n + 1, JA.Add(acc, v))
                 else Fail(ExpectedKind(SepComma, t))
  {
    var n := ParseValue(toks, j).value.1;
    var t := Current(toks, n);
    if t.kind == SepComma {
      assert Consume(toks, n, SepComma) == Ok(n + 1);
    } else if t.kind != EndArray {
      assert Consume(toks, n, SepComma) == Fail(ExpectedKind(SepComma, t));
    }
  }

  /** One turn of the `parseObject` loop after a member. */
  lemma MembersStep(toks: seq<Token>, j: nat, acc: JsonObject)
    requires j + 2 <= |toks| && Current(toks, j).kind == String && Current(toks, j + 1).kind == SepColon
    requires ParseValue(toks, j + 2).Ok?
    ensures var (v, n) := ParseValue(toks, j + 2).value;
            var t := Current(toks, n);
            ParseMembers(toks, j, acc)
              == if t.kind == EndObject then ParseMembers(toks, n, JO.Put(acc, Current(toks, j).text, v))
                 else if t.kind == SepComma then ParseMembers(toks, n + 1, JO.Put(acc, Current(toks, j).text, v))
                 else Fail(ExpectedKind(SepComma, t))
  {
    assert Consume(toks, j + 1, SepColon) == Ok(j + 2);
  }

  /** `com.study.json.JsonParser.parse`: one value, then END_DOCUMENT. */
  function Parse(toks: seq<Token>): (r: Result<Value, ParseError>)
    ensures r.Ok? ==> Producible(r.value)
    ensures toks == [] ==> r == Fail(NoTokens)
  {
    if toks == [] then Fail(NoTokens)
    else
      match ParseValue(toks, 0)
      case Fail(e) => Fail(e)
      case Ok((v, n)) =>
        if Current(toks, n).kind != EndDocument then Fail(ExtraData(Current(toks, n))) else Ok(v)
  }

  /** `com.study.json.util.JsonParser.parse`: one value, whatever follows. */
  function ParseLenient(toks: seq<Token>): (r: Result<Value, ParseError>)
    ensures r.Ok? ==> Producible(r.value)
    ensures toks == [] ==> r == Fail(NoTokens)
  {
    if toks == [] then Fail(NoTokens)
    else
      match ParseValue(toks, 0)
      case Fail(e) => Fail(e)
      case Ok((v, _)) => Ok(v)
  }

  /** Whenever the strict parser accepts a token list, the lenient one
      accepts it with the same value; it also accepts lists the strict one
      rejects only for what follows the value. */
  lemma StrictImpliesLenient(toks: seq<Token>)
    ensures Parse(toks).Ok? ==> ParseLenient(toks) == Parse(toks)
    ensures ParseLenient(toks).Ok? && Parse(toks).Fail? ==> Parse(toks).error.ExtraData?
    ensures ParseLenient(toks).Fail? ==> Parse(toks) == ParseLenient(toks)
  {
  }
}

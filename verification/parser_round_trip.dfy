/** A reference writer from values to token lists, and the round trip: the
    parsers read back exactly the value written, with or without a comma
    before each closing bracket. The writer is the independent definition
    the parsing functions are checked against. */
module ParserRoundTrip {
  import opened Base
  import opened Tokens
  import opened Numbers
  import opened Values
  import opened JsonParser
  import JO = JsonObjects
  import JA = JsonArrays

  const LBraceToken: Token := Token(BeginObject, [LeftBrace])
  const RBraceToken: Token := Token(EndObject, [RightBrace])
  const LBracketToken: Token := Token(BeginArray, [LeftBracket])
  const RBracketToken: Token := Token(EndArray, [RightBracket])
  const ColonToken: Token := Token(SepColon, [Colon])
  const CommaToken: Token := Token(SepComma, [Comma])

  /** Some order of a set of keys; a `HashMap` fixes one, and any will do. */
  ghost function KeyOrder(keys: set<Text>): (r: seq<Text>)
    ensures forall m | 0 <= m < |r| :: r[m] in keys
    decreases |keys|
  {
    if keys == {} then []
    else
      var k :| k in keys;
      [k] + KeyOrder(keys - {k})
  }

  /** The order lists every key. */
  lemma {:induction false} KeyOrderComplete(keys: set<Text>)
    ensures forall k | k in keys :: k in KeyOrder(keys)
    decreases |keys|
  {
    if keys != {} {
      var r := KeyOrder(keys);
      var k0 := r[0];
      KeyOrderComplete(keys - {k0});
      assert r == [k0] + KeyOrder(keys - {k0});
    }
  }

  /** The first token the writer puts down for `v`: the whole of a scalar,
      the opening bracket of a container. */
  function FirstToken(v: Value): (r: Token)
    ensures StartsValue(r.kind)
  {
    match v
    case Null => Token(TokenType.Null, NullText)
    case Bool(b) => Token(Boolean, if b then TrueText else FalseText)
    case Int32(n) => Token(Number, ShowInteger(n))
    case Int64(n) => Token(Number, ShowInteger(n))
    case Fractional(t) => Token(Number, t)
    case Str(s) => Token(String, s)
    case Arr(_) => LBracketToken
    case Obj(_) => LBraceToken
  }

  /** What the writer puts after the last element or member. */
  function Trailer(trailing: bool): (r: seq<Token>)
    ensures |r| <= 1 && (r != [] <==> trailing)
  {
    if trailing then [CommaToken] else []
  }

  /** The tokens of `v`; `trailing` puts a comma before every closing
      bracket of a non-empty container. */
  ghost function ValueTokens(v: Value, trailing: bool): (r: seq<Token>)
    decreases v, 1
  {
    match v
    case Arr(a) => ArrTokens(a, trailing)
    case Obj(o) => ObjTokens(o, trailing)
    case _ => [FirstToken(v)]
  }

  /** `[`, the elements, `]`. */
  ghost function ArrTokens(a: JsonArray, trailing: bool): (r: seq<Token>)
    decreases Arr(a), 0
  {
    [LBracketToken] + ItemTokens(a, 0, trailing) + [RBracketToken]
  }

  /** `{`, the members in the order `KeyOrder` picks, `}`. */
  ghost function ObjTokens(o: JsonObject, trailing: bool): (r: seq<Token>)
    decreases Obj(o), 0
  {
    [LBraceToken] + FieldTokens(o, KeyOrder(o.fields.Keys), 0, trailing) + [RBraceToken]
  }

  /** The elements of `a` from index `n` on, comma-separated. */
  ghost function ItemTokens(a: JsonArray, n: nat, trailing: bool): (r: seq<Token>)
    requires n <= |a.items|
    decreases a, |a.items| - n
  {
    if n == |a.items| then []
    else
      var rest := if n + 1 == |a.items| then Trailer(trailing)
                  else [CommaToken] + ItemTokens(a, n + 1, trailing);
      ValueTokens(a.items[n], trailing) + rest
  }

  /** Every key of `ks` is a key of `o`. */
  predicate KeysIn(o: JsonObject, ks: seq<Text>) {
    forall m | 0 <= m < |ks| :: ks[m] in o.fields
  }

  /** The members of `o` under the keys `ks` from index `n` on, in that
      order, comma-separated. */
  ghost function FieldTokens(o: JsonObject, ks: seq<Text>, n: nat, trailing: bool): (r: seq<Token>)
    requires n <= |ks| && KeysIn(o, ks)
    decreases o, |ks| - n
  {
    if n == |ks| then []
    else
      var rest := if n + 1 == |ks| then Trailer(trailing)
                  else [CommaToken] + FieldTokens(o, ks, n + 1, trailing);
      [Token(String, ks[n]), ColonToken] + ValueTokens(o.fields[ks[n]], trailing) + rest
  }

  /** How many tokens the writer puts down for `v`, counted without
      building them. */
  ghost function Len(v: Value, trailing: bool): (r: nat)
    ensures r >= 1
    decreases v, 1
  {
    match v
    case Arr(a) => ArrLen(a, trailing)
    case Obj(o) => ObjLen(o, trailing)
    case _ => 1
  }

  ghost function ArrLen(a: JsonArray, trailing: bool): nat
    decreases Arr(a), 0
  {
    ItemsLen(a, 0, trailing) + 2
  }

  ghost function ObjLen(o: JsonObject, trailing: bool): nat
    decreases Obj(o), 0
  {
    FieldsLen(o, KeyOrder(o.fields.Keys), 0, trailing) + 2
  }

  ghost function ItemsLen(a: JsonArray, n: nat, trailing: bool): nat
    requires n <= |a.items|
    decreases a, |a.items| - n
  {
    if n == |a.items| then 0
    else if n + 1 == |a.items| then Len(a.items[n], trailing) + |Trailer(trailing)|
    else Len(a.items[n], trailing) + 1 + ItemsLen(a, n + 1, trailing)
  }

  ghost function FieldsLen(o: JsonObject, ks: seq<Text>, n: nat, trailing: bool): nat
    requires n <= |ks| && KeysIn(o, ks)
    decreases o, |ks| - n
  {
    if n == |ks| then 0
    else if n + 1 == |ks| then 2 + Len(o.fields[ks[n]], trailing) + |Trailer(trailing)|
    else 2 + Len(o.fields[ks[n]], trailing) + 1 + FieldsLen(o, ks, n + 1, trailing)
  }

  /** The writer's tokens of `v` lie in `toks` from position `i` on, told
      position by position. */
  ghost predicate Spans(toks: seq<Token>, i: nat, v: Value, trailing: bool)
    decreases v, 1
  {
    match v
    case Arr(a) => ArrSpans(toks, i, a, trailing)
    case Obj(o) => ObjSpans(toks, i, o, trailing)
    case _ => Current(toks, i) == FirstToken(v)
  }

  ghost predicate ArrSpans(toks: seq<Token>, i: nat, a: JsonArray, trailing: bool)
    decreases Arr(a), 0
  {
    && Current(toks, i) == LBracketToken && ItemsSpan(toks, i + 1, a, 0, trailing)
    && Current(toks, i + 1 + ItemsLen(a, 0, trailing)) == RBracketToken
  }

  ghost predicate ObjSpans(toks: seq<Token>, i: nat, o: JsonObject, trailing: bool)
    decreases Obj(o), 0
  {
    && Current(toks, i) == LBraceToken && FieldsSpan(toks, i + 1, o, KeyOrder(o.fields.Keys), 0, trailing)
    && Current(toks, i + 1 + FieldsLen(o, KeyOrder(o.fields.Keys), 0, trailing)) == RBraceToken
  }

  /** The writer's elements of `a` from index `n` on lie in `toks` from `j` on. */
  ghost predicate ItemsSpan(toks: seq<Token>, j: nat, a: JsonArray, n: nat, trailing: bool)
    requires n <= |a.items|
    decreases a, |a.items| - n
  {
    || n == |a.items|
    || (&& Spans(toks, j, a.items[n], trailing)
        && var k := j + Len(a.items[n], trailing);
           if n + 1 == |a.items| then trailing ==> Current(toks, k) == CommaToken
           else Current(toks, k) == CommaToken && ItemsSpan(toks, k + 1, a, n + 1, trailing))
  }

  /** The writer's members of `o` under `ks` from index `n` on lie in `toks`
      from `j` on. */
  ghost predicate FieldsSpan(toks: seq<Token>, j: nat, o: JsonObject, ks: seq<Text>, n: nat, trailing: bool)
    requires n <= |ks| && KeysIn(o, ks)
    decreases o, |ks| - n
  {
    || n == |ks|
    || (&& Current(toks, j) == Token(String, ks[n]) && Current(toks, j + 1) == ColonToken
        && Spans(toks, j + 2, o.fields[ks[n]], trailing)
        && var k := j + 2 + Len(o.fields[ks[n]], trailing);
           if n + 1 == |ks| then trailing ==> Current(toks, k) == CommaToken
           else Current(toks, k) == CommaToken && FieldsSpan(toks, k + 1, o, ks, n + 1, trailing))
  }

  /** `toks` holds `x` from position `j` on. */
  ghost predicate Holds(toks: seq<Token>, j: nat, x: seq<Token>) {
    j + |x| <= |toks| && forall m {:trigger x[m]} | 0 <= m < |x| :: toks[j + m] == x[m]
  }

  /** Wherever the writer's list for `v` stands in a token list, it has
      `Len` tokens and spells `v` in the sense of `Spans`. */
  lemma {:induction false} WriterSpans(toks: seq<Token>, i: nat, v: Value, trailing: bool)
    requires Holds(toks, i, ValueTokens(v, trailing))
    ensures |ValueTokens(v, trailing)| == Len(v, trailing)
    ensures Spans(toks, i, v, trailing)
    decreases Len(v, trailing), 2
  {
    match v
    case Arr(a) => WriterArray(toks, i, a, trailing);
    case Obj(o) => WriterObject(toks, i, o, trailing);
    case _ => HoldsHead(toks, i, [FirstToken(v)]);
  }

  /** `[`, the elements, `]`. */
  lemma {:induction false} WriterArray(toks: seq<Token>, i: nat, a: JsonArray, trailing: bool)
    requires Holds(toks, i, ArrTokens(a, trailing))
    ensures |ArrTokens(a, trailing)| == ArrLen(a, trailing)
    ensures ArrSpans(toks, i, a, trailing)
    decreases ArrLen(a, trailing), 1
  {
    HoldsBracketed(toks, i, LBracketToken, ItemTokens(a, 0, trailing), RBracketToken);
    WriterItems(toks, i + 1, a, 0, trailing);
  }

  /** `{`, the members, `}`. */
  lemma {:induction false} WriterObject(toks: seq<Token>, i: nat, o: JsonObject, trailing: bool)
    requires Holds(toks, i, ObjTokens(o, trailing))
    ensures |ObjTokens(o, trailing)| == ObjLen(o, trailing)
    ensures ObjSpans(toks, i, o, trailing)
    decreases ObjLen(o, trailing), 1
  {
    var ks := KeyOrder(o.fields.Keys);
    HoldsBracketed(toks, i, LBraceToken, FieldTokens(o, ks, 0, trailing), RBraceToken);
    WriterFields(toks, i + 1, o, ks, 0, trailing);
  }

  /** The same for the elements of an array from index `n` on. */
  lemma {:induction false} WriterItems(toks: seq<Token>, j: nat, a: JsonArray, n: nat, trailing: bool)
    requires n <= |a.items| && Holds(toks, j, ItemTokens(a, n, trailing))
    ensures |ItemTokens(a, n, trailing)| == ItemsLen(a, n, trailing)
    ensures ItemsSpan(toks, j, a, n, trailing)
    decreases ItemsLen(a, n, trailing), 4
  {
    if n + 1 == |a.items| {
      WriterLastItem(toks, j, a, n, trailing);
    } else if n + 1 < |a.items| {
      WriterNextItem(toks, j, a, n, trailing);
    }
  }

  /** The last element, perhaps followed by a comma. */
  lemma {:induction false} WriterLastItem(toks: seq<Token>, j: nat, a: JsonArray, n: nat, trailing: bool)
    requires n + 1 == |a.items| && Holds(toks, j, ItemTokens(a, n, trailing))
    ensures |ItemTokens(a, n, trailing)| == ItemsLen(a, n, trailing)
    ensures ItemsSpan(toks, j, a, n, trailing)
    decreases ItemsLen(a, n, trailing), 3
  {
    var vt := ValueTokens(a.items[n], trailing);
    HoldsSplit(toks, j, vt, Trailer(trailing));
    WriterSpans(toks, j, a.items[n], trailing);
    if trailing {
      HoldsHead(toks, j + |vt|, Trailer(trailing));
    }
  }

  /** An element, a comma, and the elements after it. */
  lemma {:induction false} WriterNextItem(toks: seq<Token>, j: nat, a: JsonArray, n: nat, trailing: bool)
    requires n + 1 < |a.items| && Holds(toks, j, ItemTokens(a, n, trailing))
    ensures |ItemTokens(a, n, trailing)| == ItemsLen(a, n, trailing)
    ensures ItemsSpan(toks, j, a, n, trailing)
    decreases ItemsLen(a, n, trailing), 3
  {
    var vt := ValueTokens(a.items[n], trailing);
    var rest := ItemTokens(a, n + 1, trailing);
    ItemHolds(toks, j, a, n, trailing);
    WriterSpans(toks, j, a.items[n], trailing);
    WriterItems(toks, j + |vt| + 1, a, n + 1, trailing);
    assert ItemsLen(a, n, trailing) == |vt| + 1 + |rest|;
  }

  /** The writer's tokens for an element that is not the last, split into
      its value, the comma and the elements after it. */
  lemma ItemHolds(toks: seq<Token>, j: nat, a: JsonArray, n: nat, trailing: bool)
    requires n + 1 < |a.items| && Holds(toks, j, ItemTokens(a, n, trailing))
    ensures Holds(toks, j, ValueTokens(a.items[n], trailing))
    ensures Current(toks, j + |ValueTokens(a.items[n], trailing)|) == CommaToken
    ensures Holds(toks, j + |ValueTokens(a.items[n], trailing)| + 1, ItemTokens(a, n + 1, trailing))
    ensures |ItemTokens(a, n, trailing)| == |ValueTokens(a.items[n], trailing)| + 1 + |ItemTokens(a, n + 1, trailing)|
  {
    var vt := ValueTokens(a.items[n], trailing);
    var rest := ItemTokens(a, n + 1, trailing);
    ItemTokensStep(a, n, trailing);
    HoldsSplit(toks, j, vt, [CommaToken] + rest);
    HoldsSplit(toks, j + |vt|, [CommaToken], rest);
    HoldsHead(toks, j + |vt|, [CommaToken]);
  }

  /** The writer's elements from `n` on: the `n`th, a comma, the rest. */
  lemma ItemTokensStep(a: JsonArray, n: nat, trailing: bool)
    requires n + 1 < |a.items|
    ensures ItemTokens(a, n, trailing) == ValueTokens(a.items[n], trailing) + ([CommaToken] + ItemTokens(a, n + 1, trailing))
  {
  }

  /** The same for the members of an object under `ks` from index `n` on. */
  lemma {:induction false} WriterFields(toks: seq<Token>, j: nat, o: JsonObject, ks: seq<Text>, n: nat, trailing: bool)
    requires n <= |ks| && KeysIn(o, ks) && Holds(toks, j, FieldTokens(o, ks, n, trailing))
    ensures |FieldTokens(o, ks, n, trailing)| == FieldsLen(o, ks, n, trailing)
    ensures FieldsSpan(toks, j, o, ks, n, trailing)
    decreases FieldsLen(o, ks, n, trailing), 4
  {
    if n + 1 == |ks| {
      WriterLastField(toks, j, o, ks, n, trailing);
    } else if n + 1 < |ks| {
      WriterNextField(toks, j, o, ks, n, trailing);
    }
  }

  /** The last member, perhaps followed by a comma. */
  lemma {:induction false} WriterLastField(toks: seq<Token>, j: nat, o: JsonObject, ks: seq<Text>, n: nat, trailing: bool)
    requires n + 1 == |ks| && KeysIn(o, ks) && Holds(toks, j, FieldTokens(o, ks, n, trailing))
    ensures |FieldTokens(o, ks, n, trailing)| == FieldsLen(o, ks, n, trailing)
    ensures FieldsSpan(toks, j, o, ks, n, trailing)
    decreases FieldsLen(o, ks, n, trailing), 3
  {
    var head := [Token(String, ks[n]), ColonToken];
    var vt := ValueTokens(o.fields[ks[n]], trailing);
    HoldsSplit(toks, j, head + vt, Trailer(trailing));
    HoldsSplit(toks, j, head, vt);
    HoldsPair(toks, j, head[0], ColonToken);
    WriterSpans(toks, j + 2, o.fields[ks[n]], trailing);
    if trailing {
      HoldsHead(toks, j + 2 + |vt|, Trailer(trailing));
    }
  }

  /** A member, a comma, and the members after it. */
  lemma {:induction false} WriterNextField(toks: seq<Token>, j: nat, o: JsonObject, ks: seq<Text>, n: nat, trailing: bool)
    requires n + 1 < |ks| && KeysIn(o, ks) && Holds(toks, j, FieldTokens(o, ks, n, trailing))
    ensures |FieldTokens(o, ks, n, trailing)| == FieldsLen(o, ks, n, trailing)
    ensures FieldsSpan(toks, j, o, ks, n, trailing)
    decreases FieldsLen(o, ks, n, trailing), 3
  {
    var vt := ValueTokens(o.fields[ks[n]], trailing);
    var rest := FieldTokens(o, ks, n + 1, trailing);
    FieldHolds(toks, j, o, ks, n, trailing);
    WriterSpans(toks, j + 2, o.fields[ks[n]], trailing);
    WriterFields(toks, j + 2 + |vt| + 1, o, ks, n + 1, trailing);
  }

  /** A member followed by a comma, held at `j`, taken apart. */
  lemma FieldHolds(toks: seq<Token>, j: nat, o: JsonObject, ks: seq<Text>, n: nat, trailing: bool)
    requires n + 1 < |ks| && KeysIn(o, ks) && Holds(toks, j, FieldTokens(o, ks, n, trailing))
    ensures Current(toks, j) == Token(String, ks[n]) && Current(toks, j + 1) == ColonToken
    ensures Holds(toks, j + 2, ValueTokens(o.fields[ks[n]], trailing))
    ensures Current(toks, j + 2 + |ValueTokens(o.fields[ks[n]], trailing)|) == CommaToken
    ensures Holds(toks, j + 2 + |ValueTokens(o.fields[ks[n]], trailing)| + 1, FieldTokens(o, ks, n + 1, trailing))
    ensures |FieldTokens(o, ks, n, trailing)| == 2 + |ValueTokens(o.fields[ks[n]], trailing)| + 1 + |FieldTokens(o, ks, n + 1, trailing)|
  {
    var vt := ValueTokens(o.fields[ks[n]], trailing);
    var rest := FieldTokens(o, ks, n + 1, trailing);
    FieldTokensStep(o, ks, n, trailing);
    HoldsMember(toks, j, ks[n], vt, [CommaToken] + rest);
    HoldsSplit(toks, j + 2 + |vt|, [CommaToken], rest);
    HoldsHead(toks, j + 2 + |vt|, [CommaToken]);
  }

  /** The writer's members from `n` on: the `n`th, a comma, the rest. */
  lemma FieldTokensStep(o: JsonObject, ks: seq<Text>, n: nat, trailing: bool)
    requires n + 1 < |ks| && KeysIn(o, ks)
    ensures FieldTokens(o, ks, n, trailing)
            == [Token(String, ks[n]), ColonToken] + ValueTokens(o.fields[ks[n]], trailing) + ([CommaToken] + FieldTokens(o, ks, n + 1, trailing))
  {
  }

  /** A key, a colon, a value's tokens and what follows, held at `j`. */
  lemma HoldsMember(toks: seq<Token>, j: nat, key: Text, vt: seq<Token>, tail: seq<Token>)
    requires Holds(toks, j, [Token(String, key), ColonToken] + vt + tail)
    ensures Current(toks, j) == Token(String, key) && Current(toks, j + 1) == ColonToken
    ensures Holds(toks, j + 2, vt) && Holds(toks, j + 2 + |vt|, tail)
  {
    var head := [Token(String, key), ColonToken];
    HoldsSplit(toks, j, head + vt, tail);
    HoldsSplit(toks, j, head, vt);
    HoldsPair(toks, j, head[0], ColonToken);
  }

  /** Two tokens held at `j`. */
  lemma HoldsPair(toks: seq<Token>, j: nat, c: Token, d: Token)
    requires Holds(toks, j, [c, d])
    ensures Current(toks, j) == c && Current(toks, j + 1) == d
  {
    var x := [c, d];
    assert toks[j + 0] == x[0] && toks[j + 1] == x[1];
  }

  /** A list held at `j` starts with its first token there. */
  lemma HoldsHead(toks: seq<Token>, j: nat, x: seq<Token>)
    requires x != [] && Holds(toks, j, x)
    ensures Current(toks, j) == x[0]
  {
    assert toks[j + 0] == x[0];
  }

  /** A concatenation held at `j` is its two parts held one after the other. */
  lemma HoldsSplit(toks: seq<Token>, j: nat, x: seq<Token>, y: seq<Token>)
    requires Holds(toks, j, x + y)
    ensures Holds(toks, j, x) && Holds(toks, j + |x|, y)
  {
    forall m | 0 <= m < |x|
      ensures toks[j + m] == x[m]
    {
      assert (x + y)[m] == x[m];
    }
    forall m | 0 <= m < |y|
      ensures toks[j + |x| + m] == y[m]
    {
      assert (x + y)[|x| + m] == y[m];
    }
  }

  /** An opening token, a body and a closing token held at `i`. */
  lemma HoldsBracketed(toks: seq<Token>, i: nat, c: Token, x: seq<Token>, d: Token)
    requires Holds(toks, i, [c] + x + [d])
    ensures Current(toks, i) == c && Holds(toks, i + 1, x) && Current(toks, i + 1 + |x|) == d
  {
    HoldsSplit(toks, i, [c] + x, [d]);
    HoldsSplit(toks, i, [c], x);
    HoldsHead(toks, i, [c]);
    HoldsHead(toks, i + 1 + |x|, [d]);
  }

  /** A list holds itself at the front, whatever follows it. */
  lemma HoldsFront(x: seq<Token>, s: seq<Token>)
    ensures Holds(x + s, 0, x)
  {
    forall m | 0 <= m < |x|
      ensures (x + s)[0 + m] == x[m]
    {
    }
  }

  /** Every value the parsers can produce is read back from its tokens,
      and the cursor ends right after them. */
  lemma {:induction false} ValueRoundTrip(toks: seq<Token>, i: nat, v: Value, trailing: bool)
    requires i <= |toks| && Producible(v) && Spans(toks, i, v, trailing)
    ensures ParseValue(toks, i) == Ok((v, i + Len(v, trailing)))
    decreases Len(v, trailing), 2
  {
    match v
    case Arr(a) => ArrayRoundTrip(toks, i, v, trailing);
    case Obj(o) => ObjectRoundTrip(toks, i, v, trailing);
    case _ => ScalarRoundTrip(toks, i, v, trailing);
  }

  /** A scalar is one token, and `parseValue` turns it back into the
      same value. */
  lemma ScalarRoundTrip(toks: seq<Token>, i: nat, v: Value, trailing: bool)
    requires !v.Arr? && !v.Obj?
    requires i <= |toks| && Producible(v) && Current(toks, i) == FirstToken(v)
    ensures Len(v, trailing) == 1
    ensures ParseValue(toks, i) == Ok((v, i + Len(v, trailing)))
  {
    if v.Int32? || v.Int64? {
      IntegerRoundTrip(toks, i, v, trailing);
    } else {
      LiteralRoundTrip(toks, i, v, trailing);
    }
  }

  /** An integer token reads back as the same `Integer` or `Long`. */
  lemma IntegerRoundTrip(toks: seq<Token>, i: nat, v: Value, trailing: bool)
    requires v.Int32? || v.Int64?
    requires i <= |toks| && Producible(v) && Current(toks, i) == FirstToken(v)
    ensures Len(v, trailing) == 1
    ensures ParseValue(toks, i) == Ok((v, i + Len(v, trailing)))
  {
    var n := if v.Int32? then v.i else v.l;
    assert Current(toks, i) == Token(Number, ShowInteger(n));
    NumberRoundTrip(n);
    assert ParseNumber(ShowInteger(n)) == Ok(v);
    assert Len(v, trailing) == 1;
    NumberToken(toks, i, ShowInteger(n), v);
  }

  /** `parseValue` at a NUMBER token gives what `parseNumber` makes of its
      text. */
  lemma NumberToken(toks: seq<Token>, i: nat, t: Text, v: Value)
    requires i <= |toks| && Current(toks, i) == Token(Number, t) && ParseNumber(t) == Ok(v)
    ensures ParseValue(toks, i) == Ok((v, i + 1))
  {
  }

  /** `null`, a boolean, a string or a fraction reads back as itself. */
  lemma LiteralRoundTrip(toks: seq<Token>, i: nat, v: Value, trailing: bool)
    requires v.Null? || v.Bool? || v.Str? || v.Fractional?
    requires i <= |toks| && Producible(v) && Current(toks, i) == FirstToken(v)
    ensures Len(v, trailing) == 1
    ensures ParseValue(toks, i) == Ok((v, i + Len(v, trailing)))
  {
  }

  /** `[`, the elements, `]`. */
  lemma {:induction false} ArrayRoundTrip(toks: seq<Token>, i: nat, v: Value, trailing: bool)
    requires v.Arr? && i <= |toks| && Producible(v) && ArrSpans(toks, i, v.arr, trailing)
    ensures ParseValue(toks, i) == Ok((v, i + Len(v, trailing)))
    decreases Len(v, trailing), 1
  {
    var e := ElementsShape(toks, i, v, trailing);
    ItemsRoundTrip(toks, i + 1, v.arr, 0, trailing, JA.Empty(), e);
    OpenArray(toks, i, Ok((v, e + 1)));
  }

  /** Where the elements of an array written at `i` lie, and where its
      `]` is. */
  lemma ElementsShape(toks: seq<Token>, i: nat, v: Value, trailing: bool) returns (e: nat)
    requires v.Arr? && i <= |toks| && Producible(v) && ArrSpans(toks, i, v.arr, trailing)
    ensures Current(toks, i) == LBracketToken && ItemsRest(toks, i + 1, v.arr, 0, trailing, JA.Empty(), e)
    ensures e + 1 == i + Len(v, trailing) && Arr(v.arr) == v
  {
    e := i + 1 + ItemsLen(v.arr, 0, trailing);
    assert v.arr.items[..0] == JA.Empty().items;
  }

  /** `{`, the members, `}`. */
  lemma {:induction false} ObjectRoundTrip(toks: seq<Token>, i: nat, v: Value, trailing: bool)
    requires v.Obj? && i <= |toks| && Producible(v) && ObjSpans(toks, i, v.obj, trailing)
    ensures ParseValue(toks, i) == Ok((v, i + Len(v, trailing)))
    decreases Len(v, trailing), 1
  {
    OpenObject(toks, i);
    MembersRoundTrip(toks, i, v, trailing);
  }

  /** The loop of `parseObject`, started on an empty object after the `{`
      at `i`, rebuilds the whole object. */
  lemma {:induction false} MembersRoundTrip(toks: seq<Token>, i: nat, v: Value, trailing: bool)
    requires v.Obj? && i <= |toks| && Producible(v) && ObjSpans(toks, i, v.obj, trailing)
    ensures i < |toks| && ParseMembers(toks, i + 1, JO.Empty()) == Ok((v, i + Len(v, trailing)))
    decreases Len(v, trailing), 0
  {
    var o := v.obj;
    var e := MembersShape(toks, i, v, trailing);
    ObjectRebuilt(o);
    FieldsRoundTrip(toks, i + 1, o, KeyOrder(o.fields.Keys), 0, trailing, JO.Empty(), e);
  }

  /** Where the members of an object written at `i` lie, and where its
      `}` is. */
  lemma MembersShape(toks: seq<Token>, i: nat, v: Value, trailing: bool) returns (e: nat)
    requires v.Obj? && i <= |toks| && Producible(v) && ObjSpans(toks, i, v.obj, trailing)
    ensures i < |toks| && FieldsRest(toks, i + 1, v.obj, KeyOrder(v.obj.fields.Keys), 0, trailing, e)
    ensures e + 1 == i + Len(v, trailing) && e - (i + 1) + 1 < Len(v, trailing)
  {
    e := i + 1 + FieldsLen(v.obj, KeyOrder(v.obj.fields.Keys), 0, trailing);
  }

  /** Putting the members of `o` into an empty object, in the writer's
      order, gives `o` back. */
  lemma ObjectRebuilt(o: JsonObject)
    ensures Obj(PutFrom(JO.Empty(), o, KeyOrder(o.fields.Keys), 0)) == Obj(o)
  {
    KeyOrderComplete(o.fields.Keys);
    PutFromEmpty(o, KeyOrder(o.fields.Keys));
  }

  /** `parseValue` at `[` enters the loop of `parseArray`. */
  lemma OpenArray(toks: seq<Token>, i: nat, r: Result<(Value, nat), ParseError>)
    requires i <= |toks| && Current(toks, i) == LBracketToken && ParseElements(toks, i + 1, JA.Empty()) == r
    ensures ParseValue(toks, i) == r
  {
  }

  /** `parseValue` at `{` enters the loop of `parseObject`. */
  lemma OpenObject(toks: seq<Token>, i: nat)
    requires i <= |toks| && Current(toks, i) == LBraceToken
    ensures ParseValue(toks, i) == ParseMembers(toks, i + 1, JO.Empty())
  {
  }

  /** Where the loop of `parseArray` stands: the elements from `n` on lie
      from `j` on, `]` follows at `e`, and `acc` holds the first `n`
      elements. */
  ghost predicate ItemsRest(toks: seq<Token>, j: nat, a: JsonArray, n: nat, trailing: bool, acc: JsonArray, e: nat) {
    && n <= |a.items| && acc.items == a.items[..n] && Producible(Arr(a))
    && ItemsSpan(toks, j, a, n, trailing)
    && e == j + ItemsLen(a, n, trailing) && Current(toks, e) == RBracketToken
  }

  /** The loop of `parseArray` reads the remaining elements back, in order,
      and stops after the closing bracket. */
  lemma {:induction false} ItemsRoundTrip(toks: seq<Token>, j: nat, a: JsonArray, n: nat, trailing: bool, acc: JsonArray, e: nat)
    requires ItemsRest(toks, j, a, n, trailing, acc, e)
    ensures j <= |toks| && ParseElements(toks, j, acc) == Ok((Arr(a), e + 1))
    decreases e - j + 1, 3
  {
    if n == |a.items| {
      assert acc == a;
      ElementsClose(toks, j, acc);
    } else if n + 1 == |a.items| {
      ItemsLast(toks, j, a, n, trailing, acc, e);
    } else {
      ItemsNext(toks, j, a, n, trailing, acc, e);
    }
  }

  /** An element and a comma, then the rest of the loop. */
  lemma {:induction false} ItemsNext(toks: seq<Token>, j: nat, a: JsonArray, n: nat, trailing: bool, acc: JsonArray, e: nat)
    requires n + 1 < |a.items| && ItemsRest(toks, j, a, n, trailing, acc, e)
    ensures j <= |toks| && ParseElements(toks, j, acc) == Ok((Arr(a), e + 1))
    decreases e - j + 1, 2
  {
    var k := ItemsMiddle(toks, j, a, n, trailing, acc, e);
    ItemsRoundTrip(toks, k + 1, a, n + 1, trailing, JA.Add(acc, a.items[n]), e);
  }

  /** An element followed by a comma: one turn of the loop. */
  lemma {:induction false} ItemsMiddle(toks: seq<Token>, j: nat, a: JsonArray, n: nat, trailing: bool, acc: JsonArray, e: nat) returns (k: nat)
    requires n + 1 < |a.items| && ItemsRest(toks, j, a, n, trailing, acc, e)
    ensures j < k && ItemsRest(toks, k + 1, a, n + 1, trailing, JA.Add(acc, a.items[n]), e)
    ensures j <= |toks| && ParseElements(toks, j, acc) == ParseElements(toks, k + 1, JA.Add(acc, a.items[n]))
    decreases e - j + 1, 1
  {
    var v := a.items[n];
    k := ItemShape(toks, j, a, n, trailing, acc, e);
    ItemProducible(a, n);
    ValueRoundTrip(toks, j, v, trailing);
    ElementsComma(toks, j, acc, v, k);
  }

  /** What the tokens of an element followed by a comma look like. */
  lemma ItemShape(toks: seq<Token>, j: nat, a: JsonArray, n: nat, trailing: bool, acc: JsonArray, e: nat) returns (k: nat)
    requires n + 1 < |a.items| && ItemsRest(toks, j, a, n, trailing, acc, e)
    ensures j <= |toks| && Spans(toks, j, a.items[n], trailing) && k == j + Len(a.items[n], trailing)
    ensures Current(toks, k) == CommaToken && j < k && ItemsRest(toks, k + 1, a, n + 1, trailing, JA.Add(acc, a.items[n]), e)
  {
    k := j + Len(a.items[n], trailing);
    assert JA.Add(acc, a.items[n]).items == a.items[..n + 1];
  }

  /** The last element, perhaps a comma, and the closing bracket. */
  lemma {:induction false} ItemsLast(toks: seq<Token>, j: nat, a: JsonArray, n: nat, trailing: bool, acc: JsonArray, e: nat)
    requires n + 1 == |a.items| && ItemsRest(toks, j, a, n, trailing, acc, e)
    ensures j <= |toks| && ParseElements(toks, j, acc) == Ok((Arr(a), e + 1))
    decreases e - j + 1, 1
  {
    var v := a.items[n];
    var k := j + Len(v, trailing);
    ItemProducible(a, n);
    ValueRoundTrip(toks, j, v, trailing);
    var acc' := JA.Add(acc, v);
    assert acc'.items == a.items;
    if trailing {
      ElementsComma(toks, j, acc, v, k);
      ElementsClose(toks, k + 1, acc');
    } else {
      ElementsEnd(toks, j, acc, v, k);
      ElementsClose(toks, k, acc');
    }
  }

  /** The elements of a value the parsers produce are themselves such values. */
  lemma ItemProducible(a: JsonArray, n: nat)
    requires n < |a.items| && Producible(Arr(a))
    ensures Producible(a.items[n])
  {
  }

  /** `ks` lists every key of `o` and nothing else, in some order. */
  predicate KeyList(o: JsonObject, ks: seq<Text>) {
    KeysIn(o, ks) && forall k | k in o.fields :: k in ks
  }

  /** `acc` after the members of `o` under `ks` from index `n` on have been
      put into it, in that order. */
  ghost function PutFrom(acc: JsonObject, o: JsonObject, ks: seq<Text>, n: nat): JsonObject
    requires n <= |ks| && KeysIn(o, ks)
    decreases |ks| - n
  {
    if n == |ks| then acc else PutFrom(JO.Put(acc, ks[n], o.fields[ks[n]]), o, ks, n + 1)
  }

  /** Where the loop of `parseObject` stands: the members under `ks` from
      `n` on lie from `j` on and `}` follows at `e`. */
  ghost predicate FieldsRest(toks: seq<Token>, j: nat, o: JsonObject, ks: seq<Text>, n: nat, trailing: bool, e: nat) {
    && n <= |ks| && KeysIn(o, ks) && Producible(Obj(o))
    && FieldsSpan(toks, j, o, ks, n, trailing)
    && e == j + FieldsLen(o, ks, n, trailing) && Current(toks, e) == RBraceToken
  }

  /** The loop of `parseObject` puts the remaining members into the object
      it holds and stops after the closing brace. */
  lemma {:induction false} FieldsRoundTrip(toks: seq<Token>, j: nat, o: JsonObject, ks: seq<Text>, n: nat, trailing: bool, acc: JsonObject, e: nat)
    requires FieldsRest(toks, j, o, ks, n, trailing, e)
    ensures j <= |toks| && ParseMembers(toks, j, acc) == Ok((Obj(PutFrom(acc, o, ks, n)), e + 1))
    decreases e - j + 1, 3
  {
    if n == |ks| {
      MembersClose(toks, j, acc);
    } else if n + 1 == |ks| {
      FieldsLast(toks, j, o, ks, n, trailing, acc, e);
    } else {
      FieldsNext(toks, j, o, ks, n, trailing, acc, e);
    }
  }

  /** A member and a comma, then the rest of the loop. */
  lemma {:induction false} FieldsNext(toks: seq<Token>, j: nat, o: JsonObject, ks: seq<Text>, n: nat, trailing: bool, acc: JsonObject, e: nat)
    requires n + 1 < |ks| && FieldsRest(toks, j, o, ks, n, trailing, e)
    ensures j <= |toks| && ParseMembers(toks, j, acc) == Ok((Obj(PutFrom(acc, o, ks, n)), e + 1))
    decreases e - j + 1, 2
  {
    var acc' := JO.Put(acc, ks[n], o.fields[ks[n]]);
    var k := FieldsMiddle(toks, j, o, ks, n, trailing, acc, e);
    FieldsRoundTrip(toks, k + 1, o, ks, n + 1, trailing, acc', e);
    assert PutFrom(acc, o, ks, n) == PutFrom(acc', o, ks, n + 1);
  }

  /** A member followed by a comma: one turn of the loop. */
  lemma {:induction false} FieldsMiddle(toks: seq<Token>, j: nat, o: JsonObject, ks: seq<Text>, n: nat, trailing: bool, acc: JsonObject, e: nat) returns (k: nat)
    requires n + 1 < |ks| && FieldsRest(toks, j, o, ks, n, trailing, e)
    ensures j < k && FieldsRest(toks, k + 1, o, ks, n + 1, trailing, e)
    ensures j <= |toks| && ParseMembers(toks, j, acc) == ParseMembers(toks, k + 1, JO.Put(acc, ks[n], o.fields[ks[n]]))
    decreases e - j + 1, 1
  {
    var v := o.fields[ks[n]];
    k := MiddleShape(toks, j, o, ks, n, trailing, e);
    FieldProducible(o, ks[n]);
    ValueRoundTrip(toks, j + 2, v, trailing);
    MembersComma(toks, j, acc, ks[n], v, k);
  }

  /** What the tokens of a member followed by a comma look like. */
  lemma MiddleShape(toks: seq<Token>, j: nat, o: JsonObject, ks: seq<Text>, n: nat, trailing: bool, e: nat) returns (k: nat)
    requires n + 1 < |ks| && FieldsRest(toks, j, o, ks, n, trailing, e)
    ensures j + 2 <= |toks| && Current(toks, j) == Token(String, ks[n]) && Current(toks, j + 1) == ColonToken
    ensures Spans(toks, j + 2, o.fields[ks[n]], trailing) && k == j + 2 + Len(o.fields[ks[n]], trailing)
    ensures Current(toks, k) == CommaToken && j < k && FieldsRest(toks, k + 1, o, ks, n + 1, trailing, e)
  {
    k := j + 2 + Len(o.fields[ks[n]], trailing);
  }

  /** The last member, perhaps a comma, and the closing brace. */
  lemma {:induction false} FieldsLast(toks: seq<Token>, j: nat, o: JsonObject, ks: seq<Text>, n: nat, trailing: bool, acc: JsonObject, e: nat)
    requires n + 1 == |ks| && FieldsRest(toks, j, o, ks, n, trailing, e)
    ensures j <= |toks| && ParseMembers(toks, j, acc) == Ok((Obj(PutFrom(acc, o, ks, n)), e + 1))
    decreases e - j + 1, 1
  {
    var v := o.fields[ks[n]];
    var k := LastShape(toks, j, o, ks, n, trailing, e);
    FieldProducible(o, ks[n]);
    ValueRoundTrip(toks, j + 2, v, trailing);
    assert PutFrom(acc, o, ks, n) == JO.Put(acc, ks[n], v);
    LastMember(toks, j, ks[n], v, k, e, trailing, acc);
  }

  /** What the tokens of the last member look like. */
  lemma LastShape(toks: seq<Token>, j: nat, o: JsonObject, ks: seq<Text>, n: nat, trailing: bool, e: nat) returns (k: nat)
    requires n + 1 == |ks| && FieldsRest(toks, j, o, ks, n, trailing, e)
    ensures j + 2 <= |toks| && Current(toks, j) == Token(String, ks[n]) && Current(toks, j + 1) == ColonToken
    ensures Spans(toks, j + 2, o.fields[ks[n]], trailing) && k == j + 2 + Len(o.fields[ks[n]], trailing)
    ensures if trailing then Current(toks, k) == CommaToken && e == k + 1 else e == k
    ensures Current(toks, e) == RBraceToken
  {
    k := j + 2 + Len(o.fields[ks[n]], trailing);
  }

  /** A member whose value ends at `k`, perhaps a comma, and `}` at `e`. */
  lemma LastMember(toks: seq<Token>, j: nat, key: Text, v: Value, k: nat, e: nat, trailing: bool, acc: JsonObject)
    requires j + 2 <= |toks| && Current(toks, j) == Token(String, key) && Current(toks, j + 1) == ColonToken
    requires ParseValue(toks, j + 2) == Ok((v, k))
    requires if trailing then Current(toks, k) == CommaToken && e == k + 1 else e == k
    requires Current(toks, e) == RBraceToken
    ensures ParseMembers(toks, j, acc) == Ok((Obj(JO.Put(acc, key, v)), e + 1))
  {
    var p := JO.Put(acc, key, v);
    if trailing {
      MembersComma(toks, j, acc, key, v, k);
      MembersClose(toks, k + 1, p);
    } else {
      MembersEnd(toks, j, acc, key, v, k);
      MembersClose(toks, k, p);
    }
  }

  /** The members of a value the parsers produce are themselves such values. */
  lemma FieldProducible(o: JsonObject, key: Text)
    requires key in o.fields && Producible(Obj(o))
    ensures Producible(o.fields[key])
  {
  }

  /** Putting every member of `o`, in any order of its keys, into an empty
      object rebuilds `o`. */
  lemma PutFromEmpty(o: JsonObject, ks: seq<Text>)
    requires KeyList(o, ks)
    ensures PutFrom(JO.Empty(), o, ks, 0) == o
  {
    PutFromPrefix(o, ks, 0);
    PrefixAll(o, ks);
  }

  /** Finishing the puts from the state after `n` of them is doing them all. */
  lemma {:induction false} PutFromPrefix(o: JsonObject, ks: seq<Text>, n: nat)
    requires n <= |ks| && KeysIn(o, ks)
    ensures PutFrom(Prefix(o, ks, n), o, ks, n) == Prefix(o, ks, |ks|)
    decreases |ks| - n
  {
    if n < |ks| {
      PutFromPrefix(o, ks, n + 1);
    }
  }

  /** The object the loop of `parseObject` has built after the first `n`
      members, put in the order `ks`. */
  ghost function Prefix(o: JsonObject, ks: seq<Text>, n: nat): (r: JsonObject)
    requires n <= |ks| && KeysIn(o, ks)
    decreases n
  {
    if n == 0 then JO.Empty()
    else JO.Put(Prefix(o, ks, n - 1), ks[n - 1], o.fields[ks[n - 1]])
  }

  /** After `n` puts the object holds exactly the first `n` keys, each with
      its value in `o`. */
  lemma {:induction false} PrefixFields(o: JsonObject, ks: seq<Text>, n: nat)
    requires n <= |ks| && KeysIn(o, ks)
    ensures Prefix(o, ks, n).fields.Keys == set m | 0 <= m < n :: ks[m]
    ensures forall k | k in Prefix(o, ks, n).fields :: Prefix(o, ks, n).fields[k] == o.fields[k]
    decreases n
  {
    if n > 0 {
      PrefixFields(o, ks, n - 1);
      var p := Prefix(o, ks, n - 1);
      assert (set m | 0 <= m < n :: ks[m]) == (set m | 0 <= m < n - 1 :: ks[m]) + {ks[n - 1]};
      forall k | k in Prefix(o, ks, n).fields
        ensures Prefix(o, ks, n).fields[k] == o.fields[k]
      {
        assert JO.Get(Prefix(o, ks, n), k) == Prefix(o, ks, n).fields[k];
        if k != ks[n - 1] {
          assert JO.Get(p, k) == p.fields[k];
        }
      }
    }
  }

  /** Once every key has been put, the loop has rebuilt `o` itself. */
  lemma PrefixAll(o: JsonObject, ks: seq<Text>)
    requires KeyList(o, ks)
    ensures Prefix(o, ks, |ks|) == o
  {
    PrefixFields(o, ks, |ks|);
    var r := Prefix(o, ks, |ks|);
    forall k | k in o.fields
      ensures k in r.fields
    {
      var m :| 0 <= m < |ks| && ks[m] == k;
    }
    assert r.fields == o.fields;
  }


  /** One turn of the `parseArray` loop: an element, then a comma. */
  lemma ElementsComma(toks: seq<Token>, j: nat, acc: JsonArray, v: Value, k: nat)
    requires j <= |toks| && ParseValue(toks, j) == Ok((v, k))
    requires Current(toks, k).kind == SepComma
    ensures ParseElements(toks, j, acc) == ParseElements(toks, k + 1, JA.Add(acc, v))
  {
    assert Current(toks, j).kind != EndArray by {
      assert StartsValue(Current(toks, j).kind);
    }
    assert Current(toks, k).kind != EndArray;
    assert Consume(toks, k, SepComma) == Ok(k + 1);
  }

  /** The last turn of the `parseArray` loop: an element, then `]`. */
  lemma ElementsEnd(toks: seq<Token>, j: nat, acc: JsonArray, v: Value, k: nat)
    requires j <= |toks| && ParseValue(toks, j) == Ok((v, k))
    requires Current(toks, k).kind == EndArray
    ensures ParseElements(toks, j, acc) == ParseElements(toks, k, JA.Add(acc, v))
  {
  }

  /** The `parseArray` loop stops at `]` with the elements read so far. */
  lemma ElementsClose(toks: seq<Token>, j: nat, acc: JsonArray)
    requires j <= |toks| && Current(toks, j).kind == EndArray
    ensures ParseElements(toks, j, acc) == Ok((Arr(acc), j + 1))
  {
  }

  /** One turn of the `parseObject` loop: a member, then a comma. */
  lemma MembersComma(toks: seq<Token>, j: nat, acc: JsonObject, key: Text, v: Value, k: nat)
    requires j + 2 <= |toks| && Current(toks, j) == Token(String, key) && Current(toks, j + 1).kind == SepColon
    requires ParseValue(toks, j + 2) == Ok((v, k)) && Current(toks, k).kind == SepComma
    ensures ParseMembers(toks, j, acc) == ParseMembers(toks, k + 1, JO.Put(acc, key, v))
  {
    MembersTurn(toks, j, acc, key, v, k);
    assert Consume(toks, k, SepComma) == Ok(k + 1);
  }

  /** What the `parseObject` loop does after a member's value: stop at `}`,
      or consume `,` and go on. */
  function MembersTail(toks: seq<Token>, n: nat, acc: JsonObject): Result<(Value, nat), ParseError>
    requires n <= |toks|
  {
    if Current(toks, n).kind == EndObject then ParseMembers(toks, n, acc)
    else
      match Consume(toks, n, SepComma)
      case Fail(e) => Fail(e)
      case Ok(n') => ParseMembers(toks, n', acc)
  }

  /** One turn of the `parseObject` loop up to the member's value. */
  lemma MembersTurn(toks: seq<Token>, j: nat, acc: JsonObject, key: Text, v: Value, k: nat)
    requires j + 2 <= |toks| && Current(toks, j) == Token(String, key) && Current(toks, j + 1).kind == SepColon
    requires ParseValue(toks, j + 2) == Ok((v, k))
    ensures k <= |toks| && ParseMembers(toks, j, acc) == MembersTail(toks, k, JO.Put(acc, key, v))
  {
    assert Current(toks, j).kind != EndObject;
    assert Consume(toks, j + 1, SepColon) == Ok(j + 2);
  }

  /** The last turn of the `parseObject` loop: a member, then `}`. */
  lemma MembersEnd(toks: seq<Token>, j: nat, acc: JsonObject, key: Text, v: Value, k: nat)
    requires j + 2 <= |toks| && Current(toks, j) == Token(String, key) && Current(toks, j + 1).kind == SepColon
    requires ParseValue(toks, j + 2) == Ok((v, k)) && Current(toks, k).kind == EndObject
    ensures ParseMembers(toks, j, acc) == ParseMembers(toks, k, JO.Put(acc, key, v))
  {
    MembersTurn(toks, j, acc, key, v, k);
  }

  /** The `parseObject` loop stops at `}` with the members read so far. */
  lemma MembersClose(toks: seq<Token>, j: nat, acc: JsonObject)
    requires j <= |toks| && Current(toks, j).kind == EndObject
    ensures ParseMembers(toks, j, acc) == Ok((Obj(acc), j + 1))
  {
  }

  /** The spelling of an integer the parser produced reads back as the same
      variant: `Integer` in `int` range, `Long` beyond it. */
  lemma NumberRoundTrip(n: int)
    requires Int64Min <= n <= Int64Max
    ensures !(Int32Min <= n <= Int32Max) ==> ParseNumber(ShowInteger(n)) == Ok(Int64(n))
    ensures Int32Min <= n <= Int32Max ==> ParseNumber(ShowInteger(n)) == Ok(Int32(n))
  {
    var t := ShowInteger(n);
    NoPointInIntegers(n);
    ParseShowInteger(n, Int64Min, Int64Max);
    if Int32Min <= n <= Int32Max {
      ParseShowInteger(n, Int32Min, Int32Max);
    }
  }

  /** `Integer.toString` never writes `.`, `e` or `E`. */
  lemma NoPointInIntegers(n: int)
    ensures !LooksFractional(ShowInteger(n))
  {
    var t := ShowInteger(n);
    var d := ShowDigits(if n < 0 then -n else n);
    assert forall c | c in d :: IsAsciiDigit(c);
    assert forall c | c in t :: c == Minus || IsAsciiDigit(c);
  }

  /** The strict parser reads back a written value, whether or not the
      END_DOCUMENT token is there: after the list is used up `consume`
      supplies one. */
  lemma StrictRoundTrip(v: Value, trailing: bool)
    requires Producible(v)
    ensures Parse(ValueTokens(v, trailing) + [EndToken]) == Ok(v)
    ensures Parse(ValueTokens(v, trailing)) == Ok(v)
  {
    var w := ValueTokens(v, trailing);
    HoldsFront(w, [EndToken]);
    WriterSpans(w + [EndToken], 0, v, trailing);
    ValueRoundTrip(w + [EndToken], 0, v, trailing);
    HoldsFront(w, []);
    assert w + [] == w;
    WriterSpans(w, 0, v, trailing);
    ValueRoundTrip(w, 0, v, trailing);
  }

  /** Any token other than END_DOCUMENT after a complete value is "Extra
      data" for the strict parser, which the lenient one ignores. */
  lemma ExtraTokensRejected(v: Value, trailing: bool, extra: seq<Token>)
    requires Producible(v) && extra != [] && extra[0].kind != EndDocument
    ensures Parse(ValueTokens(v, trailing) + extra) == Fail(ExtraData(extra[0]))
    ensures ParseLenient(ValueTokens(v, trailing) + extra) == Ok(v)
  {
    var w := ValueTokens(v, trailing);
    var toks := w + extra;
    HoldsFront(w, extra);
    WriterSpans(toks, 0, v, trailing);
    ValueRoundTrip(toks, 0, v, trailing);
    assert Current(toks, |w|) == extra[0];
  }
}

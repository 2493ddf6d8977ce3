# simple-json: a verified model of the JSON reader

This project models the core of `com.study.json`, a small Java JSON reader.
It proves properties of that model.

Text goes through three stages:

1. A **character reader** buffers UTF-16 input in windows of 8192 code units.
   - `pojo.CharReader` is used by `Json` and `Tokenizer`.
   - `CharReader` caches the current character and is used by `JsonTokenizer`.
2. A **lexer** turns the characters into a token list that ends with
   `END_DOCUMENT`. There are two lexers, `Tokenizer` and `JsonTokenizer`.
3. A **recursive-descent parser** builds `JsonObject`, `JsonArray`, `String`,
   `Integer`, `Long`, `Double`, `Boolean` and `null` values.
   - `com.study.json.JsonParser` is strict and rejects trailing tokens.
   - `com.study.json.util.JsonParser` is lenient and ignores them.

`Json.parse` chains the pojo reader, `Tokenizer` and the strict parser.

## How it is modelled

- **Characters.** A character is a UTF-16 code unit (`Unit`, 0 to 0xFFFF). Text is `seq<Unit>`. `EOF` is `(char) -1`, that is 0xFFFF.
- **Readers.** A `Reader` is a sequence of non-empty chunks, one per `read` call.
  - Each chunk is cut to the buffer's capacity (`Base.Read`).
  - The buffer is modelled as the whole array. Stale characters behind a short read stay visible to `back`, as they do in Java.
  - Each reader state has an abstraction: `Pending` is the text not yet consumed. The cached reader also has `Input`, the text up to the first literal U+FFFF, which that reader can never read past.
- **Lexers.** Both lexers are proved against one reference lexer over plain text, `LexSpec.SpecTokens`. A rule set selects each lexer's differences.
  - A lexer step either yields a token, raises an error, or runs forever (`Diverges`). `Diverges` stands for a Java loop that never ends, and there are two:
    - the string loop of both lexers on a string without its closing quote, which appends EOF to its `StringBuilder` forever;
    - `Tokenizer`'s token loop at a `-`, which adds an empty NUMBER token to its list forever.

    Both end in `OutOfMemoryError`.
  - `Tokenizer` peeks in one of two modes. `AsWritten` is the code, where `peek` never refills the buffer. `Refilling` is the corrected peek; see "## Findings".
- **Parsers.** Both parsers share their productions, which are identical in behaviour: `parseValue` is a switch expression in one and a switch statement in the other, with the same cases. They are modelled once over a token list and a cursor. Only `parse` differs: `Parse` is the strict parser, `ParseLenient` the lenient one.
- **Values.** Values are an immutable datatype.
  - `JsonObject` is a `map`. Like the source's `HashMap`, a duplicate key overwrites and iteration order is left open.
  - `JsonArray` is a `seq`.
  - A `Double` keeps its decimal text.
- **Exceptions.** Java exceptions become the error constructors of `LexError`, `ParseError`, `AccessError` and `Json.JsonError`.

In these places the code departs from what a JSON reader would be expected to do. The model follows the code:

- A `-` is not read as a sign by `Tokenizer`.
  - Every `-` makes `Tokenizer` loop forever, so `Json.parse("-1")` and `Json.parse("[-1]")` never return (`Tokenizer.MinusLoopsForever`, `Json.NegativeNumbersNeverReturn`).
  - The cause: `readNumber` steps back onto the `-`, reads no digit, and returns an empty NUMBER token without consuming anything.
  - `JsonTokenizer` reads the sign. A lone `-` becomes the NUMBER token `-`, and `parseNumber` then fails.
- A string without its closing quote never ends in either lexer.
  - At end of input `next` returns EOF. EOF is neither a quote, a backslash nor a control character, so it is appended to the `StringBuilder` until the heap runs out.
  - See `JsonTokenizer.UnterminatedStringLoops` and `Json.UnterminatedStringNeverReturns`.
- `pojo.CharReader.back` never fails at the start of a window. It clamps to 0. Only the cached `CharReader.back` throws.
- Keys keep no insertion order.
- `com.study.json.util.JsonParser` keeps its lenient `parse`.

## Model

| member | source | states |
|---|---|---|
| Base.Read | src/main/java/com/study/json/pojo/CharReader.java:116 | one `Reader.read(buffer)` returns at most the buffer's capacity, loses and invents nothing, and returns -1 exactly when the stream is used up |
| Base.HexDigitValue | src/main/java/com/study/json/JsonTokenizer.java:239 | the digit values `Integer.parseInt(_, 16)` uses: an ASCII hexadecimal digit is worth 0 to 15 |
| Base.HexValue | src/main/java/com/study/json/JsonTokenizer.java:239 | a run of digits has a value iff every character is a hexadecimal digit, and the value is below 16 to the power of the length |
| Base.HexDigit | src/main/java/com/study/json/JsonTokenizer.java:239 | each value below 16 has a digit that reads back as that value |
| Base.HexRoundTrip | src/main/java/com/study/json/JsonTokenizer.java:239 | a value written with `n` hexadecimal digits reads back as itself |
| Base.CharCast | src/main/java/com/study/json/JsonTokenizer.java:239 | the cast `(char) n` keeps a value from 0 to 0xFFFF and wraps a negative one above -0x10000 to `n + 0x10000` |
| Base.ParseHexUnit | src/main/java/com/study/json/JsonTokenizer.java:234-240 | `(char) Integer.parseInt(hex, 16)`: it succeeds iff all four characters are hexadecimal digits, or a sign is followed by three. Four digits `d0 d1 d2 d3` give `0x1000*d0 + 0x100*d1 + 0x10*d2 + d3`. A sign gives `±m` for the three-digit value `m`, cast to `char`, so `-001` is U+FFFF |
| Base.SignedHexUnit | src/main/java/com/study/json/JsonTokenizer.java:234-240 | with a leading `+` or `-`: succeeds iff three hexadecimal digits follow, giving `m` or `(char) -m` |
| Base.UnsignedHexUnit | src/main/java/com/study/json/JsonTokenizer.java:234-240 | without a sign: succeeds iff all four are hexadecimal digits, giving their value in closed form |
| Base.EveryUnitEscapes | src/main/java/com/study/json/JsonTokenizer.java:234-240 | every code unit from 0 to 0xFFFF decodes from its own four hexadecimal digits |
| Tokens.Code | src/main/java/com/study/json/enums/TokenType.java:9-76 | every token kind has a code from 1 to 11 |
| Tokens.CodeInjective | src/main/java/com/study/json/enums/TokenType.java:9-76 | no two token kinds share a code |
| Tokens.Structural | src/main/java/com/study/json/JsonTokenizer.java:118-123 | exactly the six punctuation characters give a one-character token, each of its own kind |
| PojoCharReader.New | src/main/java/com/study/json/pojo/CharReader.java:45-50 | a new reader is well formed, and everything the `Reader` will deliver is still pending |
| PojoCharReader.FromString | src/main/java/com/study/json/pojo/CharReader.java:41-43 | a reader over a `StringReader` has the whole string pending |
| PojoCharReader.FillBuffer | src/main/java/com/study/json/pojo/CharReader.java:114-125 | at end of stream nothing changes; otherwise the next read becomes the window, from position 0; a refill at the window's end loses no input |
| PojoCharReader.HasMore | src/main/java/com/study/json/pojo/CharReader.java:97-107 | true iff input is pending; refills only when the window is used up; at end of stream leaves the reader unchanged |
| PojoCharReader.Peek | src/main/java/com/study/json/pojo/CharReader.java:57-66 | EOF once the window is used up, even when the `Reader` still holds input; otherwise the next pending character |
| PojoCharReader.Next | src/main/java/com/study/json/pojo/CharReader.java:74-82 | returns the first pending character (EOF when none) and removes exactly that one; the returned character sits just behind the new position |
| PojoCharReader.Advance | src/main/java/com/study/json/pojo/CharReader.java:81 | `buffer[pos++]` removes exactly the first pending character and leaves the buffer as it is |
| PojoCharReader.Back | src/main/java/com/study/json/pojo/CharReader.java:87-89 | steps one position back, never below 0; that character becomes pending again; the `Reader` is not touched |
| PojoCharReader.NextBackNext | src/main/java/com/study/json/pojo/CharReader.java:74-89 | `back` undoes a `next` that returned a character: the pending text is restored, and the next `next` returns the same character |
| PojoCharReader.NextBackNextAtEnd | src/main/java/com/study/json/pojo/CharReader.java:74-89 | at end of stream `next` returns EOF, yet `back` then exposes the last character of the old window again |
| PojoCharReader.EndOfStreamIsStable | src/main/java/com/study/json/pojo/CharReader.java:97-107 | once `hasMore` is false, the reader is at the end of its window with no reads left, and `hasMore` changes nothing |
| CharReader.New | src/main/java/com/study/json/CharReader.java:51-73 | a null reader or a buffer size of 0 or less throws `IllegalArgumentException`; otherwise a reader whose pending text is the whole stream |
| CharReader.FillBuffer | src/main/java/com/study/json/CharReader.java:142-156 | loses no input; at end of stream the window becomes empty and the cached character becomes EOF; otherwise a fresh window starting at 0 |
| CharReader.HasMore | src/main/java/com/study/json/CharReader.java:125-135 | true iff input is pending, and then a character is in the window; refills only when the window is used up |
| CharReader.Peek | src/main/java/com/study/json/CharReader.java:80-87 | returns the first character of the input (EOF when none) without consuming it; refills only when the cache holds EOF |
| CharReader.Advance | src/main/java/com/study/json/CharReader.java:113-116 | moving on by one removes exactly the first pending character |
| CharReader.Next | src/main/java/com/study/json/CharReader.java:107-117 | returns what `peek` returns; the input loses exactly that character; at EOF the reader stays as `peek` leaves it |
| CharReader.Back | src/main/java/com/study/json/CharReader.java:92-99 | throws iff the position is at the window's start; otherwise steps back and caches the character there |
| CharReader.SkipWhitespace | src/main/java/com/study/json/CharReader.java:163-171 | the input loses exactly its leading run of whitespace |
| CharReader.PeekIdempotent | src/main/java/com/study/json/CharReader.java:80-87 | a second `peek` returns the same character and leaves the same state |
| CharReader.PeekMovesOnlyByRefill | src/main/java/com/study/json/CharReader.java:80-87 | `peek` moves the position only by a refill from an empty cache at the window's end, and never changes the pending text |
| CharReader.NextBackNext | src/main/java/com/study/json/CharReader.java:92-117 | after a `next` that returned a character, `back` succeeds and the next `next` returns that character again; on a settled reader `back` restores exactly the state `peek` left |
| CharReader.EndOfStreamIsStable | src/main/java/com/study/json/CharReader.java:125-135 | once `hasMore` is false, calling it again is still false and changes nothing |
| CharReader.SkipWhitespaceStops | src/main/java/com/study/json/CharReader.java:163-171 | after skipping, the next character, if any, is not whitespace |
| CharReader.SkipWhitespaceIdempotent | src/main/java/com/study/json/CharReader.java:163-171 | skipping twice is the same as skipping once |
| LexSpec.SpecTokens | src/main/java/com/study/json/JsonTokenizer.java:85-96 | the reference lexer: its token list ends with exactly one END_DOCUMENT, and its errors are lexing errors |
| LexSpec.MinusStalls | src/main/java/com/study/json/Tokenizer.java:158-183 | under `Tokenizer`'s rules, input whose first non-blank character is `-` makes the lexer loop forever |
| LexSpec.UnicodeEscapeExample | src/main/java/com/study/json/JsonTokenizer.java:234-240 | `\u0041` decodes to `A` and consumes the four digits |
| LexSpec.SignedUnicodeEscape | src/main/java/com/study/json/Tokenizer.java:136-143 | `\u-001` decodes to U+FFFF: `Integer.parseInt` accepts the sign and the cast to `char` wraps |
| LexSpec.PlainStringDiverges | src/main/java/com/study/json/JsonTokenizer.java:189-201 | a string body with no quote, backslash or control character never closes: the loop runs on past the end of input |
| LexSpec.UnterminatedStringStalls | src/main/java/com/study/json/Tokenizer.java:106-155 | under both lexers' rules, a document that opens a string and never closes it makes the lexer loop forever |
| LexSpec.DigitRunIsOneToken | src/main/java/com/study/json/Tokenizer.java:158-189 | with the whole input at hand, a run of digits is one NUMBER token followed by END_DOCUMENT |
| JsonTokenizer.ValidateExpectedChar | src/main/java/com/study/json/JsonTokenizer.java:329-333 | passes iff the characters are equal; otherwise the error names both |
| JsonTokenizer.ReadWord | src/main/java/com/study/json/JsonTokenizer.java:148-178 | reads a fixed word exactly as the reference lexer does |
| JsonTokenizer.ReadBoolean | src/main/java/com/study/json/JsonTokenizer.java:148-162 | `t` or `f` followed by the rest of `true` or `false` gives a BOOLEAN token, and anything else the reference lexer's error |
| JsonTokenizer.ReadNull | src/main/java/com/study/json/JsonTokenizer.java:169-178 | `n` followed by `ull` gives a NULL token, and anything else the reference lexer's error |
| JsonTokenizer.ReadNullChars | src/main/java/com/study/json/JsonTokenizer.java:169-178 | the three checked reads of `u`, `l`, `l` agree with the reference lexer's word match: the first mismatch is reported with the character found |
| JsonTokenizer.ExpectChar | src/main/java/com/study/json/JsonTokenizer.java:329-333 | succeeds iff the next input character is the expected one, and then consumes only it; otherwise reports the character found |
| JsonTokenizer.ReadStringBody | src/main/java/com/study/json/JsonTokenizer.java:185-207 | the loop after the opening quote, with what the builder holds so far, agrees with the reference string body: the text is that prefix plus the decoded rest, and at end of input the loop never ends |
| JsonTokenizer.UnterminatedStringLoops | src/main/java/com/study/json/JsonTokenizer.java:189-201 | `"a` without its closing quote never yields a token list: `next` returns EOF and the loop appends it forever |
| JsonTokenizer.ReadString | src/main/java/com/study/json/JsonTokenizer.java:185-207 | agrees with the reference lexer on the string's contents, escapes, control-character errors and end of input |
| JsonTokenizer.ProcessEscape | src/main/java/com/study/json/JsonTokenizer.java:215-226 | decodes one escape, or reports an illegal one, exactly as the reference lexer does |
| JsonTokenizer.ReadUnicodeEscape | src/main/java/com/study/json/JsonTokenizer.java:234-240 | takes the next four characters: it succeeds iff they parse as a hex code unit, and then consumes exactly those four |
| JsonTokenizer.ReadChars | src/main/java/com/study/json/JsonTokenizer.java:234-237 | reading `n` characters takes the first `n` of the input and consumes exactly them |
| JsonTokenizer.ReadDigits | src/main/java/com/study/json/JsonTokenizer.java:313-321 | consumes the longest leading run of digits, and only that |
| JsonTokenizer.ReadIntegerPart | src/main/java/com/study/json/JsonTokenizer.java:272-277 | an optional `-`, then the longest digit run |
| JsonTokenizer.ReadFractionPart | src/main/java/com/study/json/JsonTokenizer.java:285-290 | a `.` and the digits after it, or nothing when there is no `.` |
| JsonTokenizer.ReadExponentPart | src/main/java/com/study/json/JsonTokenizer.java:298-306 | `e` or `E`, an optional sign, then digits; or nothing |
| JsonTokenizer.ReadSignedDigits | src/main/java/com/study/json/JsonTokenizer.java:301-304 | an optional `+` or `-`, then the longest digit run |
| JsonTokenizer.ReadNumber | src/main/java/com/study/json/JsonTokenizer.java:248-264 | steps back over the first character, then reads the longest signed number; `back` at a window's start throws |
| JsonTokenizer.GenerateToken | src/main/java/com/study/json/JsonTokenizer.java:103-140 | one token, as the reference lexer gives it: END_DOCUMENT at end of input and for any character no rule starts with |
| JsonTokenizer.DispatchToken | src/main/java/com/study/json/JsonTokenizer.java:114-133 | the switch on the first non-blank character agrees with the reference lexer |
| JsonTokenizer.ReadScalar | src/main/java/com/study/json/JsonTokenizer.java:125-132 | strings, literals and numbers agree with the reference lexer |
| JsonTokenizer.Tokenize | src/main/java/com/study/json/JsonTokenizer.java:85-96 | the token list, error or endless loop agrees with the reference lexer on the reader's input |
| JsonTokenizer.TokenizeReader | src/main/java/com/study/json/JsonTokenizer.java:60-69 | over any chunking of the stream, agrees with the reference lexer up to the first U+FFFF; ends with exactly one END_DOCUMENT; never fails on `back` |
| JsonTokenizer.TokenizeString | src/main/java/com/study/json/JsonTokenizer.java:56-58 | agrees with the reference lexer on the string up to its first U+FFFF |
| JsonTokenizer.TokenizeCharReader | src/main/java/com/study/json/JsonTokenizer.java:71-80 | returns the reference token list; every lexing error surfaces as one wrapping exception |
| JsonTokenizer.ChunkingIrrelevant | src/main/java/com/study/json/JsonTokenizer.java:60-69 | two `Reader`s that deliver the same text in different chunks give the same tokens or the same error |
| Tokenizer.IsWhitespace | src/main/java/com/study/json/Tokenizer.java:191-193 | true exactly for space, tab, line feed and carriage return |
| Tokenizer.IsDigit | src/main/java/com/study/json/Tokenizer.java:195-197 | true exactly for `0` to `9` |
| Tokenizer.PeekWith | src/main/java/com/study/json/pojo/CharReader.java:57-66 | as written it is `peek` and never refills; a character it returns is always the next pending one; the refilling peek is exact |
| Tokenizer.ReadNull | src/main/java/com/study/json/Tokenizer.java:83-88 | `n` then `ull` gives a NULL token; any other next three characters throw "Invalid null value", as in the reference lexer |
| Tokenizer.ReadBoolean | src/main/java/com/study/json/Tokenizer.java:90-102 | `true` or `false` gives a BOOLEAN token, and anything else the reference lexer's failure |
| Tokenizer.ReadExpected | src/main/java/com/study/json/Tokenizer.java:94-99 | the next characters must spell the expected word; the first mismatch throws "Invalid boolean value", as in the reference lexer |
| Tokenizer.ReadStringBody | src/main/java/com/study/json/Tokenizer.java:104-156 | the loop after the opening quote agrees with the reference string body given what the builder holds; at end of input, where `next` returns EOF without moving, it never ends |
| Tokenizer.ReadString | src/main/java/com/study/json/Tokenizer.java:104-156 | agrees with the reference lexer on the string's contents, escapes and end of input |
| Tokenizer.ReadEscape | src/main/java/com/study/json/Tokenizer.java:108-146 | decodes one escape, including `\u` followed by four hex digits, as the reference lexer does |
| Tokenizer.ReadChars | src/main/java/com/study/json/Tokenizer.java:136-143 | reading `n` characters takes the first `n` pending ones and consumes exactly them |
| Tokenizer.ReadDigits | src/main/java/com/study/json/Tokenizer.java:185-189 | when the peek is exact, consumes the longest digit run and only that |
| Tokenizer.ReadFraction | src/main/java/com/study/json/Tokenizer.java:158-183 | when the peek is exact, reads `.` and the digits after it, or nothing |
| Tokenizer.ReadExponent | src/main/java/com/study/json/Tokenizer.java:158-183 | when the peek is exact, reads the exponent part, or nothing |
| Tokenizer.ReadSignedDigits | src/main/java/com/study/json/Tokenizer.java:158-183 | when the peek is exact, reads an optional sign and then a digit run |
| Tokenizer.ReadNumber | src/main/java/com/study/json/Tokenizer.java:158-183 | when the peek is exact, steps back and reads the longest unsigned number |
| Tokenizer.Start | src/main/java/com/study/json/Tokenizer.java:37-81 | skips whitespace and reads one token as the reference lexer does: with the refilling peek always, and as written while the input fits one window |
| Tokenizer.Dispatch | src/main/java/com/study/json/Tokenizer.java:51-80 | the switch on the first character agrees with the reference lexer whenever the peek is exact |
| Tokenizer.Tokenize | src/main/java/com/study/json/Tokenizer.java:22-35 | the list ends with exactly one END_DOCUMENT; with the refilling peek, or within one window, the result agrees with the reference lexer |
| Tokenizer.ModesAgreeInOneWindow | src/main/java/com/study/json/pojo/CharReader.java:57-66 | within one window the peek as written and the refilling peek give the same tokens or the same error |
| Tokenizer.ChunkingIrrelevant | src/main/java/com/study/json/Tokenizer.java:22-35 | with the refilling peek, two chunkings of the same text give the same tokens or the same error |
| Tokenizer.MinusLoopsForever | src/main/java/com/study/json/Tokenizer.java:158-183 | a value starting with `-` never yields a token: `readNumber` keeps returning the empty text before `-` |
| Tokenizer.DigitAtWindowEnd | src/main/java/com/study/json/Tokenizer.java:185-186 | as written, a digit that ends its window is a number by itself: the peek sees EOF, not the next read |
| Tokenizer.WhitespaceInWindow | src/main/java/com/study/json/Tokenizer.java:40-48 | skipping whitespace inside the window does not change the next token |
| Tokenizer.DigitEndsWindow | src/main/java/com/study/json/Tokenizer.java:76-80 | as written, the last character of a window, if a digit, is a whole NUMBER token |
| Tokenizer.FirstDigitAlone | src/main/java/com/study/json/Tokenizer.java:185-186 | with reads `c1` then `c2`, both digits, the first token is the number `c1` alone |
| Tokenizer.SplitNumber | src/main/java/com/study/json/Tokenizer.java:185-186 | as written, digits delivered in two reads become two NUMBER tokens |
| Tokenizer.LastDigit | src/main/java/com/study/json/Tokenizer.java:29-35 | one digit left in the last window gives that number and END_DOCUMENT |
| Tokenizer.WholeNumber | src/main/java/com/study/json/Tokenizer.java:185-189 | with the refilling peek, two digits are one NUMBER token however they are read |
| Numbers.ShowInteger | src/main/java/com/study/json/JsonParser.java:121-123 | the decimal text of an integer: never empty, and it starts with `-` exactly for negative numbers |
| Numbers.ParseInteger | src/main/java/com/study/json/JsonParser.java:121-123 | `Integer.parseInt`/`Long.parseLong` over ASCII: it succeeds iff the text is an optional sign plus at least one digit whose signed decimal value is in range (`007`, `+5` and `-0` included), and the result is that value |
| Numbers.ParseShowInteger | src/main/java/com/study/json/JsonParser.java:121-123 | every integer in range parses back from its decimal text |
| Numbers.ShowParseInteger | src/main/java/com/study/json/JsonParser.java:121-123 | canonical integer text survives parsing and printing unchanged |
| Numbers.ParseIntegerWidens | src/main/java/com/study/json/JsonParser.java:120-124 | text that `parseInt` accepts, `parseLong` accepts with the same value |
| Numbers.FloatSyntaxEnd | src/main/java/com/study/json/JsonParser.java:116-117 | decimal float text ends in a digit or `.` |
| Numbers.PointedDigitsAreFloat | src/main/java/com/study/json/JsonParser.java:116-117 | digits, a point and digits, with or without `-`, are text `parseDouble` accepts |
| JsonParser.Current | src/main/java/com/study/json/JsonParser.java:147-152 | past the end of the list the current token is END_DOCUMENT |
| JsonParser.Consume | src/main/java/com/study/json/JsonParser.java:139-153 | succeeds iff the current token has the expected kind, then moves on by exactly one; otherwise names the expected kind and the token found |
| JsonParser.LowerAscii | src/main/java/com/study/json/JsonParser.java:129 | maps `A` to `Z` to lower case and leaves every other character alone |
| JsonParser.BooleanValueOf | src/main/java/com/study/json/JsonParser.java:128-132 | `Boolean.valueOf` is true iff the text is `true` in any mix of upper and lower case |
| JsonParser.BooleanLiterals | src/main/java/com/study/json/JsonParser.java:128-132 | `Boolean.valueOf` reads `true` as true and `false` as false |
| JsonParser.ParseNumber | src/main/java/com/study/json/JsonParser.java:112-126 | text with `.`, `e` or `E` becomes a Double iff it is decimal float syntax, and keeps its text; other text is an Integer or a Long by its value; failures are NumberFormatException |
| JsonParser.ParseNumberCases | src/main/java/com/study/json/JsonParser.java:112-126 | in-range integer text succeeds: an Integer when it fits 32 bits, otherwise a Long; it fails iff neither `parseInt` nor `parseLong` (or `parseDouble`) accepts it |
| JsonParser.ParseValue | src/main/java/com/study/json/JsonParser.java:44-54 | a value consumes at least one token; a token that starts no value throws "Unexpected token" |
| JsonParser.ParseObject | src/main/java/com/study/json/JsonParser.java:56-84 | `parseObject` gives an object and ends past `{`; `{}` gives the empty object; a token other than `}` or a STRING key after `{` throws "Expected STRING" |
| JsonParser.ParseArray | src/main/java/com/study/json/JsonParser.java:86-101 | `parseArray` gives an array and ends past `[`; `[]` gives the empty array; a token that is neither `]` nor the start of a value throws "Unexpected token" |
| JsonParser.ParseMembers | src/main/java/com/study/json/JsonParser.java:62-81 | `}` ends the object with the members read so far; a key that is not a STRING throws "Expected STRING", a STRING key not followed by `:` throws "Expected SEP_COLON", a failing value's exception passes through; on success the object only gains keys and at least one token is consumed |
| JsonParser.ParseElements | src/main/java/com/study/json/JsonParser.java:91-99 | `]` ends the array with the elements read so far; a failing element's exception passes through; on success the elements read so far stay first and in order, and at least one token is consumed |
| JsonParser.ElementsStep | src/main/java/com/study/json/JsonParser.java:91-97 | after a value the array continues at `,`, closes at `]`, and otherwise throws "Expected SEP_COMMA" |
| JsonParser.MembersStep | src/main/java/com/study/json/JsonParser.java:62-77 | after `key : value` the key is put, then the object continues at `,`, closes at `}`, and otherwise throws "Expected SEP_COMMA" |
| JsonParser.Parse | src/main/java/com/study/json/JsonParser.java:33-42 | an empty token list throws; a result is a value the parser can produce |
| JsonParser.ParseLenient | src/main/java/com/study/json/util/JsonParser.java:28-30 | an empty token list throws; a result is a value the parser can produce |
| JsonParser.StrictImpliesLenient | src/main/java/com/study/json/util/JsonParser.java:28-30 | the two parsers agree except that the strict one rejects data after the value |
| ParserRoundTrip.StrictRoundTrip | src/main/java/com/study/json/JsonParser.java:33-153 | every value the parser can produce is parsed back from its own tokens, with or without END_DOCUMENT |
| ParserRoundTrip.ExtraTokensRejected | src/main/java/com/study/json/JsonParser.java:37-39 | a value followed by a token other than END_DOCUMENT: the strict parser throws "Extra data", the lenient one returns the value |
| ParserRoundTrip.NumberRoundTrip | src/main/java/com/study/json/JsonParser.java:112-126 | every 64-bit integer's decimal text parses back to it, as an Integer when it fits 32 bits and as a Long otherwise |
| ParserRoundTrip.NoPointInIntegers | src/main/java/com/study/json/JsonParser.java:116 | an integer's decimal text is never taken for a Double |
| ParserRoundTrip.KeyOrderComplete | src/main/java/com/study/json/JsonObject.java:38-40 | the order in which the writer emits an object's keys lists every key |
| JsonObjects.Empty | src/main/java/com/study/json/JsonObject.java:26-28 | a new object has no keys |
| JsonObjects.Get | src/main/java/com/study/json/JsonObject.java:34-36 | the value stored under the key, and `null` for a missing key |
| JsonObjects.Put | src/main/java/com/study/json/JsonObject.java:30-32 | after `put`, `get` on that key returns the new value, every other key is unchanged, and the key set gains just that key |
| JsonObjects.PutPut | src/main/java/com/study/json/JsonObject.java:30-32 | a second `put` on the same key overwrites the first |
| JsonObjects.PutCommutes | src/main/java/com/study/json/JsonObject.java:30-32 | `put`s on different keys commute |
| JsonObjects.GetJsonObject | src/main/java/com/study/json/JsonObject.java:42-55 | succeeds iff the key holds an object; a missing key and a non-object value give their own errors |
| JsonObjects.GetJsonArray | src/main/java/com/study/json/JsonObject.java:57-70 | succeeds iff the key holds an array; a missing key and a non-array value give their own errors |
| JsonObjects.PutThenGetJsonObject | src/main/java/com/study/json/JsonObject.java:30-55 | an object just put under a key is read back by `getJsonObject` |
| JsonObjects.GetAllKeyValue | src/main/java/com/study/json/JsonObject.java:38-40 | one entry per key, each with that key's value, and no key twice |
| JsonArrays.Empty | src/main/java/com/study/json/JsonArray.java:18-20 | a new array is empty |
| JsonArrays.Get | src/main/java/com/study/json/JsonArray.java:26-28 | succeeds iff the index is within the size; otherwise `IndexOutOfBoundsException` with the index and the size |
| JsonArrays.Add | src/main/java/com/study/json/JsonArray.java:22-24 | appends: the size grows by one, the new last element is the value, and earlier elements are unchanged |
| JsonArrays.GetJsonObject | src/main/java/com/study/json/JsonArray.java:34-43 | succeeds iff the element exists and is an object; the index error passes through, and a non-object has its own error |
| JsonArrays.GetJsonArray | src/main/java/com/study/json/JsonArray.java:45-54 | succeeds iff the element exists and is an array; the index error passes through, and a non-array has its own error |
| JsonArrays.Elements | src/main/java/com/study/json/JsonArray.java:57-59 | iteration yields every element once, in index order |
| JsonArrays.AddAll | src/main/java/com/study/json/JsonArray.java:22-24 | adding a list grows the size by its length |
| JsonArrays.AddAllKeepsOrder | src/main/java/com/study/json/JsonArray.java:22-24 | adding a list keeps the old elements and puts the new ones after them, in order |
| Json.Finish | src/main/java/com/study/json/Json.java:26-28 | a lexing error is thrown as is, an endless lexer is `OutOfMemoryError`, and otherwise the result is the strict parser's on the tokens |
| Json.Reference | src/main/java/com/study/json/Json.java:23-29 | the reference pipeline: the reference lexer's tokens, then the strict parser; a result is a value the parser can produce |
| Json.ParseReader | src/main/java/com/study/json/Json.java:23-29 | `parse(Reader)`: for a stream delivered in one read, the same outcome as the reference pipeline |
| Json.Parse | src/main/java/com/study/json/Json.java:17-21 | `parse(String)`: for a string of at most 8192 characters, the same outcome as the reference pipeline |
| Json.ParseToJsonObject | src/main/java/com/study/json/Json.java:31-37 | throws "Not a JSON Object" iff `parse` returns something else than an object |
| Json.ParseToJsonArray | src/main/java/com/study/json/Json.java:49-55 | throws "Not a JSON Array" iff `parse` returns something else than an array |
| Json.ObjectEntryPoint | src/main/java/com/study/json/Json.java:31-37 | returns object `o` iff `parse` returns `o`; `parse`'s exceptions pass through |
| Json.ArrayEntryPoint | src/main/java/com/study/json/Json.java:49-55 | returns array `a` iff `parse` returns `a`; `parse`'s exceptions pass through |
| Json.TypedEntryPointsExclusive | src/main/java/com/study/json/Json.java:31-55 | no text is both a JSON object and a JSON array |
| Json.ScalarRoot | src/main/java/com/study/json/Json.java:17-55 | `1` parses to the Integer 1, and both typed entry points reject it |
| Json.NegativeNumbersNeverReturn | src/main/java/com/study/json/Tokenizer.java:158-163 | `parse("-1")` and `parse("[-1]")` never return: the lexer loops at the `-` until the heap runs out |
| Json.UnterminatedStringNeverReturns | src/main/java/com/study/json/Tokenizer.java:106-155 | `parse("\"1")` never returns: the string loop appends EOF forever |
| Json.StraddlingNumber | src/main/java/com/study/json/Json.java:17-21 | `[`, 8190 spaces and `12]` as one string: the `StringReader` read ends between `1` and `2`, so `parse` throws "Expected SEP_COMMA", while the corrected reader returns `[12]` |
| Json.ParseReaderWhole | src/main/java/com/study/json/Json.java:23-29 | with the refilling peek, `parse(Reader)` is the reference pipeline for every chunking |
| Json.ParseWhole | src/main/java/com/study/json/Json.java:17-21 | with the refilling peek, `parse(String)` is the reference pipeline at every length |

## Left out

- Tokenizer.Tokenize: with the peek as written, agreement with the reference lexer is proved only while the input fits one 8192-character window. Beyond that only the single END_DOCUMENT at the end is proved. The split-number behaviour at a window boundary is exhibited by `Tokenizer.SplitNumber` and `Json.StraddlingNumber`.
- Json.Parse: equality with the reference pipeline is stated only for strings of at most 8192 characters, for the same reason. Longer strings are covered by `Json.ParseWhole` with the corrected peek.
- Json.ParseReader: equality with the reference pipeline is stated only for a stream delivered in one read, for the same reason.
- JsonParser.ParseValue, JsonParser.ParseMembers, JsonParser.ParseElements: recursion has no depth bound. The `StackOverflowError` that deep nesting raises in Java is not modelled.
- JsonTokenizer.Tokenize: the `Diverges` outcome stands for the string loop that appends EOF to its `StringBuilder` forever. In Java that loop ends in `OutOfMemoryError`, which `Json.Finish` names `OutOfMemory`; the model does not count the heap. The same holds for `Tokenizer.Tokenize`, where `Diverges` also stands for the token loop that adds empty NUMBER tokens at a `-`.
- JsonTokenizer.TokenizeCharReader: requires a settled reader, one in a state the lexer itself reaches. This excludes states the public `tokenizer(CharReader)` accepts, for example a reader read to the end, then `hasMore()`, then `back()`.
- PojoCharReader.FillBuffer: `IOException` from `Reader.read` is not modelled. A `Reader` is a fixed sequence of successful reads. The same holds for `CharReader.FillBuffer` and the `ReadException` wrappers in `JsonTokenizer`.
- Tokens.EndToken: END_DOCUMENT's `null` text is modelled as the empty text.
- Numbers.DecimalFloatSyntax: models only part of what `Double.parseDouble` accepts. It has no surrounding-space trimming, hex floats, `d`/`f` suffixes, `NaN` or `Infinity`. A Double keeps its text; no floating-point value is computed.
- Numbers.ParseInteger: ASCII digits only. `Integer.parseInt` and `Long.parseLong` also accept non-ASCII Unicode decimal digits through `Character.digit`; for example `١٢` is 12 in Java and a `BadNumber` here. The same holds for `JsonParser.ParseNumber`.
- Base.HexDigitValue: ASCII hex digits only. `Character.digit(c, 16)` also accepts Unicode decimal digits and fullwidth `A` to `F`; for example `\u０041` decodes to `A` in Java and is a bad escape here. The same holds for `Base.ParseHexUnit`, `JsonTokenizer.ReadUnicodeEscape` and `Tokenizer.ReadEscape`.
- Base.JavaClasses: `Character.isWhitespace` and `Character.isDigit` are parameters. Only their ASCII facts are fixed, plus the fact that EOF belongs to neither.
- `Json.parseToClass` and `JsonObject.convertClass` are reflection into user classes.
- `toString` of `JsonObject`, `JsonArray` and `Token` is left out; it is formatting only.
- `CharReader.close` is left out, because resources are not modelled.
- `Token`'s accessors are the datatype's fields.
- The `ReadException`/`JsonParseException` message texts are carried as error constructors, not strings.
- `FileUtils` and `DateUtils` lie outside the reader.

## Findings

| source | as written | input that shows it | evidently intended | confidence | as-written member | corrected member |
|---|---|---|---|---|---|---|
| src/main/java/com/study/json/pojo/CharReader.java:57-60 with src/main/java/com/study/json/Tokenizer.java:185-186 | `peek` returns EOF once the window is used up without refilling it, so `readDigits` stops at a read boundary and a number crossing it becomes two NUMBER tokens | `Json.parse("[" + 8190 spaces + "12]")`: the first 8192-character read ends after `1`, the tokens are `[`, `1`, `2`, `]`, and the parser throws "Expected SEP_COMMA"; likewise `parse(Reader)` with reads `"1"`, `"2"` | the number `12`, as when the whole text fits one read | not executed | Tokenizer.SplitNumber, Json.StraddlingNumber | Tokenizer.WholeNumber, Json.ParseWhole |

/** The value tree the parsers build. Java hands out plain `Object`s:
    `null`, `Boolean`, `Integer`, `Long`, `Double`, `String`, `JsonArray`
    and `JsonObject`; each becomes a variant here. A `Double` keeps the text
    it was parsed from, as floating point is not modelled. */
module Values {
  import opened Base

  datatype Value =
    | Null
    | Bool(b: bool)
    | Int32(i: int)
    | Int64(l: int)
    | Fractional(text: Text)
    | Str(s: Text)
    | Arr(arr: JsonArray)
    | Obj(obj: JsonObject)

  /** `JsonObject`: a `HashMap<String, Object>`, so keys are unordered and
      unique. */
  datatype JsonObject = JsonObject(fields: map<Text, Value>)

  /** `JsonArray`: an `ArrayList<Object>`. */
  datatype JsonArray = JsonArray(items: seq<Value>)

  /** The exceptions the typed accessors of both containers raise. */
  datatype AccessError =
    // JsonObject.getJsonObject / getJsonArray: IllegalArgumentException "Invalid key"
    | InvalidKey(key: Text)
    // JsonParseException "Type of value is not JsonObject"
    | NotJsonObject
    // JsonParseException "Type of value is not JsonArray"
    | NotJsonArray
    // ArrayList.get: IndexOutOfBoundsException
    | IndexOutOfBounds(index: int, size: int)
}

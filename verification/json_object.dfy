/** `JsonObject`: a map from keys to values with type-checked lookups. */
module JsonObjects {
  import opened Base
  import opened Values

  /** `new JsonObject()`. */
  function Empty(): (r: JsonObject)
    ensures r.fields.Keys == {}
  {
    JsonObject(map[])
  }

  /** `get`: the value stored under `key`, or `null` when there is none. A
      key mapped to `null` and an absent key look the same. */
  function Get(o: JsonObject, key: Text): (r: Value)
    ensures key !in o.fields ==> r.Null?
    ensures key in o.fields ==> r == o.fields[key]
  {
    if key in o.fields then o.fields[key] else Null
  }

  /** `put`: store `value` under `key`, replacing any earlier value. */
  function Put(o: JsonObject, key: Text, value: Value): (r: JsonObject)
    ensures r.fields.Keys == o.fields.Keys + {key}
    ensures Get(r, key) == value
    ensures forall k | k != key :: Get(r, k) == Get(o, k)
  {
    JsonObject(o.fields[key := value])
  }

  /** A later `put` on the same key wins, and the first leaves no trace. */
  lemma PutPut(o: JsonObject, key: Text, a: Value, b: Value)
    ensures Put(Put(o, key, a), key, b) == Put(o, key, b)
  {
    assert Put(Put(o, key, a), key, b).fields == Put(o, key, b).fields;
  }

  /** Puts on different keys commute. */
  lemma PutCommutes(o: JsonObject, k1: Text, v1: Value, k2: Text, v2: Value)
    requires k1 != k2
    ensures Put(Put(o, k1, v1), k2, v2) == Put(Put(o, k2, v2), k1, v1)
  {
    assert Put(Put(o, k1, v1), k2, v2).fields == Put(Put(o, k2, v2), k1, v1).fields;
  }

  /** `getJsonObject`: a missing key is an `IllegalArgumentException`; a
      value that is not an object, `null` included, a `JsonParseException`. */
  function GetJsonObject(o: JsonObject, key: Text): (r: Result<JsonObject, AccessError>)
    ensures r.Ok? <==> key in o.fields && o.fields[key].Obj?
    ensures r.Ok? ==> Get(o, key) == Obj(r.value)
    ensures r.Fail? && key !in o.fields ==> r.error == InvalidKey(key)
    ensures r.Fail? && key in o.fields ==> r.error == NotJsonObject
  {
    if key !in o.fields then Fail(InvalidKey(key))
    else match o.fields[key]
      case Obj(inner) => Ok(inner)
      case _ => Fail(NotJsonObject)
  }

  /** `getJsonArray`: the same checks for an array. */
  function GetJsonArray(o: JsonObject, key: Text): (r: Result<JsonArray, AccessError>)
    ensures r.Ok? <==> key in o.fields && o.fields[key].Arr?
    ensures r.Ok? ==> Get(o, key) == Arr(r.value)
    ensures r.Fail? && key !in o.fields ==> r.error == InvalidKey(key)
    ensures r.Fail? && key in o.fields ==> r.error == NotJsonArray
  {
    if key !in o.fields then Fail(InvalidKey(key))
    else match o.fields[key]
      case Arr(inner) => Ok(inner)
      case _ => Fail(NotJsonArray)
  }

  /** A `put` of an object is read back by `getJsonObject`. */
  lemma PutThenGetJsonObject(o: JsonObject, key: Text, inner: JsonObject)
    ensures GetJsonObject(Put(o, key, Obj(inner)), key) == Ok(inner)
  {
  }

  /** `getAllKeyValue`: the entries of the map, one per key, in the
      `HashMap`'s iteration order, which is left open. */
  method GetAllKeyValue(o: JsonObject) returns (r: seq<(Text, Value)>)
    ensures |r| == |o.fields.Keys|
    ensures forall i | 0 <= i < |r| :: r[i].0 in o.fields && o.fields[r[i].0] == r[i].1
    ensures forall i, j | 0 <= i < j < |r| :: r[i].0 != r[j].0
    ensures forall k | k in o.fields :: (k, o.fields[k]) in r
  {
    var keys := o.fields.Keys;
    r := [];
    while keys != {}
      invariant keys <= o.fields.Keys
      invariant |r| + |keys| == |o.fields.Keys|
      invariant forall i | 0 <= i < |r| :: r[i].0 in o.fields && r[i].0 !in keys && o.fields[r[i].0] == r[i].1
      invariant forall i, j | 0 <= i < j < |r| :: r[i].0 != r[j].0
      invariant forall k | k in o.fields && k !in keys :: (k, o.fields[k]) in r
      decreases |keys|
    {
      var k :| k in keys;
      r := r + [(k, o.fields[k])];
      keys := keys - {k};
    }
  }
}

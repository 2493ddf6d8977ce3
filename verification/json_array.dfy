/** `JsonArray`: a list of values with index-checked, type-checked
    access. */
module JsonArrays {
  import opened Base
  import opened Values

  /** `new JsonArray()`. */
  function Empty(): (r: JsonArray)
    ensures Size(r) == 0
  {
    JsonArray([])
  }

  /** `size`. */
  function Size(a: JsonArray): nat {
    |a.items|
  }

  /** `get`: `ArrayList.get` throws outside `[0, size)`. */
  function Get(a: JsonArray, index: int): (r: Result<Value, AccessError>)
    ensures r.Ok? <==> 0 <= index < Size(a)
    ensures r.Fail? ==> r.error == IndexOutOfBounds(index, Size(a))
  {
    if 0 <= index < |a.items| then Ok(a.items[index]) else Fail(IndexOutOfBounds(index, |a.items|))
  }

  /** `add`: append at the end. */
  function Add(a: JsonArray, value: Value): (r: JsonArray)
    ensures Size(r) == Size(a) + 1
    ensures Get(r, Size(a)) == Ok(value)
    ensures forall i | 0 <= i < Size(a) :: Get(r, i) == Get(a, i)
  {
    JsonArray(a.items + [value])
  }

  /** `getJsonObject`: the element if it is an object; an index outside the
      list fails as `get` does. */
  function GetJsonObject(a: JsonArray, index: int): (r: Result<JsonObject, AccessError>)
    ensures r.Ok? <==> Get(a, index).Ok? && Get(a, index).value.Obj?
    ensures r.Ok? ==> Get(a, index) == Ok(Obj(r.value))
    ensures r.Fail? && Get(a, index).Fail? ==> r.error == Get(a, index).error
    ensures r.Fail? && Get(a, index).Ok? ==> r.error == NotJsonObject
  {
    match Get(a, index)
    case Fail(e) => Fail(e)
    case Ok(v) => if v.Obj? then Ok(v.obj) else Fail(NotJsonObject)
  }

  /** `getJsonArray`: the same for a nested array. */
  function GetJsonArray(a: JsonArray, index: int): (r: Result<JsonArray, AccessError>)
    ensures r.Ok? <==> Get(a, index).Ok? && Get(a, index).value.Arr?
    ensures r.Ok? ==> Get(a, index) == Ok(Arr(r.value))
    ensures r.Fail? && Get(a, index).Fail? ==> r.error == Get(a, index).error
    ensures r.Fail? && Get(a, index).Ok? ==> r.error == NotJsonArray
  {
    match Get(a, index)
    case Fail(e) => Fail(e)
    case Ok(v) => if v.Arr? then Ok(v.arr) else Fail(NotJsonArray)
  }

  /** `iterator`: walks the list from the front. */
  method Elements(a: JsonArray) returns (r: seq<Value>)
    ensures |r| == Size(a)
    ensures forall i | 0 <= i < |r| :: Get(a, i) == Ok(r[i])
  {
    r := [];
    var i := 0;
    while i < Size(a)
      invariant 0 <= i <= Size(a) && |r| == i
      invariant forall j | 0 <= j < i :: Get(a, j) == Ok(r[j])
    {
      var v := Get(a, i);
      r := r + [v.value];
      i := i + 1;
    }
  }

  /** The array built by adding `values` one by one. */
  function AddAll(a: JsonArray, values: seq<Value>): (r: JsonArray)
    ensures Size(r) == Size(a) + |values|
    decreases |values|
  {
    if values == [] then a else AddAll(Add(a, values[0]), values[1..])
  }

  /** Elements come back in the order they were added, after the ones
      already there. */
  lemma {:induction false} AddAllKeepsOrder(a: JsonArray, values: seq<Value>)
    ensures forall i | 0 <= i < Size(a) :: Get(AddAll(a, values), i) == Get(a, i)
    ensures forall i | 0 <= i < |values| :: Get(AddAll(a, values), Size(a) + i) == Ok(values[i])
    decreases |values|
  {
    if values != [] {
      var b := Add(a, values[0]);
      AddAllKeepsOrder(b, values[1..]);
      forall i | 0 <= i < |values|
        ensures Get(AddAll(a, values), Size(a) + i) == Ok(values[i])
      {
        if i > 0 {
          assert Size(a) + i == Size(b) + (i - 1);
        }
      }
    }
  }
}

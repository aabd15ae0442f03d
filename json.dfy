/**
 * The loosely-typed JSON value the services exchange (serde_json's `Value`), with the
 * accessors the producer and the receiver use on it.
 */
module Json {
  import opened Wrappers
  import opened Integers

  /** A JSON number is either an integer (`Int`) or a floating-point value (`Float`). */
  datatype Value =
    | Null
    | Bool(b: bool)
    | Int(i: int)
    | Float(f: real)
    | Str(s: string)
    | Arr(items: seq<Value>)
    | Obj(fields: map<string, Value>)

  /** `value.get(key)`: the member `key` of an object, nothing for any other value. */
  function Get(v: Value, key: string): (r: Option<Value>)
    ensures r.Some? <==> v.Obj? && key in v.fields
    ensures r.Some? ==> r.value == v.fields[key]
  {
    if v.Obj? && key in v.fields then Some(v.fields[key]) else None
  }

  /** `value[key]`: like `Get`, but a missing member reads as `Null`. */
  function At(v: Value, key: string): (r: Value)
    ensures Get(v, key).Some? ==> r == Get(v, key).value
    ensures Get(v, key).None? ==> r == Null
  {
    match Get(v, key)
    case Some(m) => m
    case None => Null
  }

  /** `value.as_str()`. */
  function AsStr(v: Value): (r: Option<string>)
    ensures r.Some? <==> v.Str?
    ensures r.Some? ==> r.value == v.s
  {
    if v.Str? then Some(v.s) else None
  }

  /** `value.as_i64()`: only integers that fit in 64 signed bits; never a float. */
  function AsI64(v: Value): (r: Option<int>)
    ensures r.Some? <==> v.Int? && I64Min <= v.i <= I64Max
    ensures r.Some? ==> r.value == v.i
  {
    if v.Int? && I64Min <= v.i <= I64Max then Some(v.i) else None
  }
}

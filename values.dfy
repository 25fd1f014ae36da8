/**
 * The Python values the structured fields are given and hold: JSON values
 * (`None`, `bool`, `int`, `str`, `list`, `dict`) and `bytes`.
 */
module Values {
  import opened Wrappers
  import opened Json
  import JsonDecoder
  import Utf8

  datatype Value = Py(j: Json) | Bytes(bytes: seq<Utf8.Byte>)

  const PyNone := Py(JNull)

  /** `isinstance(v, int)`; a `bool` is an `int` in Python. */
  predicate IsInt(v: Value) {
    v.Py? && (v.j.JInt? || v.j.JBool?)
  }

  /** `isinstance(v, str)`. */
  predicate IsStr(v: Value) {
    v.Py? && v.j.JString?
  }

  /** Python truthiness: `None`, `False`, zero and empty containers are false. */
  predicate Truthy(v: Value) {
    match v
    case Bytes(bs) => |bs| > 0
    case Py(j) =>
      match j
      case JNull => false
      case JBool(b) => b
      case JInt(i) => i != 0
      case JString(s) => |s| > 0
      case JArray(items) => |items| > 0
      case JObject(ms) => |ms| > 0
  }

  /**
   * The value a JSON field's `with_values(values)` stores: a `str` is parsed
   * with `json.loads` first (its error propagates); when the result is `None`
   * the field keeps `current`, otherwise it takes the result. Any other
   * argument, `bytes` among them, is stored as it is.
   */
  function JsonWithValues(current: Value, values: Value): (r: Result<Value, string>)
    ensures !IsStr(values) && values != PyNone ==> r == Ok(values)
    ensures values == PyNone ==> r == Ok(current)
    ensures IsStr(values) ==> (r.Err? <==> JsonDecoder.Loads(values.j.s).Err?)
    ensures IsStr(values) && r.Ok? ==>
              r.value == if JsonDecoder.Loads(values.j.s).value == JNull then current
                         else Py(JsonDecoder.Loads(values.j.s).value)
  {
    var parsed: Result<Value, string> :=
      if IsStr(values) then
        match JsonDecoder.Loads(values.j.s)
        case Err(e) => Err(e)
        case Ok(j) => Ok(Py(j))
      else Ok(values);
    match parsed
    case Err(e) => Err(e)
    case Ok(v) => if v == PyNone then Ok(current) else Ok(v)
  }
}

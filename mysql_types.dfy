/**
 * Field types for the relational adapter: a boolean column stored as an
 * integer, and JSON columns stored as compact JSON text.
 */
module MysqlTypes {
  import opened Wrappers
  import opened Json
  import opened JsonEncoder
  import opened JsonDecoder
  import JsonRoundTrip
  import JsonFacts
  import opened Values

  /** The coercion `DbBool.with_values` applies: an `int` becomes `bool(values)`. */
  function AsBool(values: Value): (r: Value)
    ensures IsInt(values) ==> r.Py? && r.j.JBool? && (r.j.b <==> Truthy(values))
    ensures IsInt(values) && values.j.JInt? ==> (r == Py(JBool(false)) <==> values.j.i == 0)
    ensures !IsInt(values) ==> r == values
  {
    match values
    case Py(JInt(i)) => Py(JBool(i != 0))
    case _ => values
  }

  class DbBool {
    var value: Value

    constructor (initial: Value)
      ensures value == initial
    {
      value := initial;
    }

    /**
     * `int(self.value)`: `True` is 1, `False` is 0, an `int` is itself;
     * every other value is a `TypeError`.
     */
    function ToDb(): (r: Result<int, string>)
      reads this
      ensures r.Ok? <==> IsInt(value)
      ensures value == Py(JBool(true)) ==> r == Ok(1)
      ensures value == Py(JBool(false)) ==> r == Ok(0)
      ensures value.Py? && value.j.JInt? ==> r == Ok(value.j.i)
    {
      match value
      case Py(JBool(b)) => Ok(if b then 1 else 0)
      case Py(JInt(i)) => Ok(i)
      case _ => Err("TypeError: int()")
    }

    /** Stores `values`, turned into a `bool` when it is an `int`, and returns the field. */
    method WithValues(values: Value) returns (r: DbBool)
      modifies this
      ensures r == this
      ensures value == AsBool(values)
    {
      value := AsBool(values);
      r := this;
    }
  }

  /** Reading back the number a boolean field writes restores the boolean. */
  lemma BoolColumnRoundTrip(f: DbBool, b: bool)
    requires f.value == Py(JBool(b))
    ensures f.ToDb().Ok? && f.ToDb().value in {0, 1}
    ensures AsBool(Py(JInt(f.ToDb().value))) == f.value
  {
  }

  /** What compact JSON text promises about any value it is written for. */
  lemma CompactText(v: Json)
    ensures WellFormed(v) ==> Loads(Dumps(v, Compact)) == Ok(v)
    ensures JsonFacts.SpaceFree(v) ==> JsonFacts.NoWs(Dumps(v, Compact))
    ensures AllPrintableAscii(Dumps(v, Compact))
  {
    JsonRoundTrip.StandardSeparatorsReadable();
    if WellFormed(v) {
      JsonRoundTrip.DumpsLoads(v, Compact);
    }
    if JsonFacts.SpaceFree(v) {
      JsonFacts.CompactHasNoWs(v);
    }
    JsonFacts.DumpsPrintable(v, Compact);
  }

  /**
   * `json.dumps(value, separators=(',', ':'))`: `bytes` cannot be written;
   * other values give ASCII text without the spaces the default separators
   * add, which `json.loads` reads back to the same value.
   */
  function CompactToDb(value: Value): (r: Result<string, string>)
    ensures r.Ok? <==> value.Py?
    ensures r.Ok? ==> r.value == Dumps(value.j, Compact)
    ensures r.Ok? && WellFormed(value.j) ==> Loads(r.value) == Ok(value.j)
    ensures r.Ok? && JsonFacts.SpaceFree(value.j) ==> JsonFacts.NoWs(r.value)
    ensures r.Ok? ==> AllPrintableAscii(r.value)
  {
    match value
    case Bytes(_) => Err("TypeError: bytes")
    case Py(j) => CompactText(j); Ok(Dumps(j, Compact))
  }

  class DbJsonDict {
    var value: Value

    constructor (initial: Value)
      ensures value == initial
    {
      value := initial;
    }

    function ToDb(): (r: Result<string, string>)
      reads this
      ensures r == CompactToDb(value)
    {
      CompactToDb(value)
    }
  }

  class DbJsonArray {
    var value: Value

    constructor (initial: Value)
      ensures value == initial
    {
      value := initial;
    }

    function ToDb(): (r: Result<string, string>)
      reads this
      ensures r == CompactToDb(value)
    {
      CompactToDb(value)
    }

    /**
     * Parses a `str` argument as JSON; stores the result unless it is `None`.
     * A parse error leaves the field as it was.
     */
    method WithValues(values: Value) returns (r: Result<DbJsonArray, string>)
      modifies this
      ensures JsonWithValues(old(value), values).Ok? ==>
                r == Ok(this) && value == JsonWithValues(old(value), values).value
      ensures JsonWithValues(old(value), values).Err? ==>
                r.Err? && value == old(value)
    {
      var next := JsonWithValues(value, values);
      if next.Err? {
        return Err(next.error);
      }
      value := next.value;
      r := Ok(this);
    }
  }

  /** Giving a JSON column the text it writes restores the list it held, whatever it holds now. */
  lemma ArrayColumnRoundTrip(f: DbJsonArray, current: Value)
    requires f.value.Py? && f.value.j.JArray? && WellFormed(f.value.j)
    ensures f.ToDb().Ok?
    ensures JsonWithValues(current, Py(JString(f.ToDb().value))) == Ok(f.value)
  {
    CompactText(f.value.j);
  }

  /** `None` and the text `null` leave a JSON column unchanged. */
  lemma NullKeepsValue(current: Value)
    ensures JsonWithValues(current, PyNone) == Ok(current)
    ensures JsonWithValues(current, Py(JString("null"))) == Ok(current)
  {
    assert Loads("null") == Ok(JNull);
  }
}

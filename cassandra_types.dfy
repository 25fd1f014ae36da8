/**
 * The JSON mapping field of the columnar adapter: stored as the UTF-8 bytes
 * of JSON text written with the default separators.
 */
module CassandraTypes {
  import opened Wrappers
  import opened Json
  import opened JsonEncoder
  import opened JsonDecoder
  import JsonRoundTrip
  import JsonFacts
  import Utf8
  import opened Values

  /** Every character of default-separator JSON text is printable ASCII, and the text reads back. */
  lemma DefaultText(v: Json)
    ensures WellFormed(v) ==> Loads(Dumps(v, Default)) == Ok(v)
    ensures AllPrintableAscii(Dumps(v, Default))
  {
    JsonRoundTrip.StandardSeparatorsReadable();
    if WellFormed(v) {
      JsonRoundTrip.DumpsLoads(v, Default);
    }
    JsonFacts.DumpsPrintable(v, Default);
  }

  /**
   * `json.dumps(value).encode('utf-8')`: one byte per character of the text,
   * each below 0x80, and decoding then parsing the bytes gives the value back.
   */
  function DefaultBytes(value: Value): (r: Result<seq<Utf8.Byte>, string>)
    ensures r.Ok? <==> value.Py?
    ensures r.Ok? ==> r.value == Utf8.Encode(Dumps(value.j, Default))
    ensures r.Ok? ==> |r.value| == |Dumps(value.j, Default)|
    ensures r.Ok? ==> forall i :: 0 <= i < |r.value| ==>
              r.value[i] < 0x80 && r.value[i] == Dumps(value.j, Default)[i] as int
    ensures r.Ok? && WellFormed(value.j) ==>
              Utf8.Decode(r.value).Ok? && Loads(Utf8.Decode(r.value).value) == Ok(value.j)
  {
    match value
    case Bytes(_) => Err("TypeError: bytes")
    case Py(j) =>
      var text := Dumps(j, Default);
      DefaultText(j);
      Utf8.EncodeAscii(text);
      Utf8.EncodeDecode(text);
      Ok(Utf8.Encode(text))
  }

  class DbJsonDict {
    var value: Value

    constructor (initial: Value)
      ensures value == initial
    {
      value := initial;
    }

    function ToDb(): (r: Result<seq<Utf8.Byte>, string>)
      reads this
      ensures r == DefaultBytes(value)
    {
      DefaultBytes(value)
    }

    /**
     * Parses a `str` argument as JSON; stores the result unless it is `None`.
     * `bytes` and mappings are stored without parsing. A parse error leaves
     * the field as it was.
     */
    method WithValues(values: Value) returns (r: Result<DbJsonDict, string>)
      modifies this
      ensures JsonWithValues(old(value), values).Ok? ==>
                r == Ok(this) && value == JsonWithValues(old(value), values).value
      ensures JsonWithValues(old(value), values).Err? ==>
                r.Err? && value == old(value)
    {
      var next := JsonWithValues(value, values);
      if next.Err? {
        return Err(next.error);
      }
      value := next.value;
      r := Ok(this);
    }
  }

  /**
   * The bytes the field writes, decoded as UTF-8 and given back as text,
   * restore the mapping it held.
   */
  lemma DictColumnRoundTrip(f: DbJsonDict, current: Value)
    requires f.value.Py? && f.value.j.JObject? && WellFormed(f.value.j)
    ensures f.ToDb().Ok? && Utf8.Decode(f.ToDb().value).Ok?
    ensures JsonWithValues(current, Py(JString(Utf8.Decode(f.ToDb().value).value))) == Ok(f.value)
  {
  }

  /** The field's own bytes are not decoded by `with_values`: they are stored as bytes. */
  lemma BytesStoredRaw(current: Value, bs: seq<Utf8.Byte>)
    ensures JsonWithValues(current, Bytes(bs)) == Ok(Bytes(bs))
  {
  }
}

/**
 * Python's `json.loads` on a `str`, restricted to the values of module Json:
 * a number with a fraction or an exponent, `NaN`, `Infinity` and a lone UTF-16
 * surrogate (which a Dafny `char` cannot hold) are reported as errors.
 */
module JsonDecoder {
  import opened Wrappers
  import opened Json

  /** A parsed prefix and the text that follows it, or the decoding error. */
  type Parsed<T> = Result<(T, string), string>

  predicate IsDigit(c: char) {
    '0' <= c <= '9'
  }

  /** The number of leading decimal digits of `s`. */
  function DigitSpan(s: string): (n: nat)
    ensures n <= |s|
    ensures forall i :: 0 <= i < n ==> IsDigit(s[i])
    ensures n == |s| || !IsDigit(s[n])
  {
    if |s| > 0 && IsDigit(s[0]) then 1 + DigitSpan(s[1..]) else 0
  }

  /** The value of a run of decimal digits, most significant first. */
  function DigitsValue(ds: string): nat
    requires forall i :: 0 <= i < |ds| ==> IsDigit(ds[i])
  {
    if |ds| == 0 then 0
    else
      assert IsDigit(ds[|ds| - 1]);
      DigitsValue(ds[..|ds| - 1]) * 10 + (ds[|ds| - 1] as int - '0' as int)
  }

  /** The digits of a JSON integer, `0|[1-9][0-9]*`; a following fraction or exponent is not supported. */
  function ParseDigits(t: string): (r: Parsed<nat>)
    ensures r.Ok? ==> |r.value.1| < |t|
  {
    if |t| == 0 || !IsDigit(t[0]) then Err("Expecting value")
    else
      var n := if t[0] == '0' then 1 else DigitSpan(t);
      var rest := t[n..];
      if |rest| > 0 && (rest[0] == '.' || rest[0] == 'e' || rest[0] == 'E') then
        Err("Unsupported number: fraction or exponent")
      else Ok((DigitsValue(t[..n]), rest))
  }

  /** A JSON integer, `-?(0|[1-9][0-9]*)`. */
  function ParseNumber(s: string): (r: Parsed<Json>)
    requires |s| > 0
    ensures r.Ok? ==> |r.value.1| < |s|
  {
    if s[0] == '-' then
      match ParseDigits(s[1..])
      case Err(e) => Err(e)
      case Ok((m, rest)) => Ok((JInt(-(m as int)), rest))
    else
      match ParseDigits(s)
      case Err(e) => Err(e)
      case Ok((m, rest)) => Ok((JInt(m), rest))
  }

  function HexValue(c: char): (r: Option<int>)
    ensures r.Some? ==> 0 <= r.value < 16
  {
    if '0' <= c <= '9' then Some(c as int - '0' as int)
    else if 'a' <= c <= 'f' then Some(c as int - 'a' as int + 10)
    else if 'A' <= c <= 'F' then Some(c as int - 'A' as int + 10)
    else None
  }

  /** The four hexadecimal digits of a `\uXXXX` escape. */
  function ParseHex4(s: string): (r: Option<int>)
    requires |s| == 4
    ensures r.Some? ==> 0 <= r.value < 0x1_0000
  {
    match (HexValue(s[0]), HexValue(s[1]), HexValue(s[2]), HexValue(s[3]))
    case (Some(a), Some(b), Some(c), Some(d)) => Some(((a * 0x10 + b) * 0x10 + c) * 0x10 + d)
    case _ => None
  }

  /** The escape after a backslash; a high surrogate must be followed by an escaped low one. */
  function ParseEscape(s: string): (r: Parsed<char>)
    ensures r.Ok? ==> |r.value.1| < |s|
  {
    if |s| == 0 then Err("Unterminated string")
    else if s[0] == '"' then Ok(('"', s[1..]))
    else if s[0] == '\\' then Ok(('\\', s[1..]))
    else if s[0] == '/' then Ok(('/', s[1..]))
    else if s[0] == 'b' then Ok((8 as char, s[1..]))
    else if s[0] == 'f' then Ok((12 as char, s[1..]))
    else if s[0] == 'n' then Ok(('\n', s[1..]))
    else if s[0] == 'r' then Ok(('\r', s[1..]))
    else if s[0] == 't' then Ok(('\t', s[1..]))
    else if s[0] != 'u' then Err("Invalid \\escape")
    else if |s| < 5 then Err("Invalid \\uXXXX escape")
    else
      match ParseHex4(s[1..5])
      case None => Err("Invalid \\uXXXX escape")
      case Some(hi) =>
        if 0xDC00 <= hi < 0xE000 then Err("Unsupported lone surrogate")
        else if !(0xD800 <= hi < 0xDC00) then Ok((hi as char, s[5..]))
        else if |s| < 11 || s[5] != '\\' || s[6] != 'u' then Err("Unsupported lone surrogate")
        else
          match ParseHex4(s[7..11])
          case None => Err("Invalid \\uXXXX escape")
          case Some(lo) =>
            if 0xDC00 <= lo < 0xE000 then
              Ok(((0x1_0000 + (hi - 0xD800) * 0x400 + (lo - 0xDC00)) as char, s[11..]))
            else Err("Unsupported lone surrogate")
  }

  /** One character of a string literal: an escape, or any character but a control character. */
  function ParseChar(s: string): (r: Parsed<char>)
    requires |s| > 0
    ensures r.Ok? ==> |r.value.1| < |s|
  {
    if s[0] == '\\' then ParseEscape(s[1..])
    else if s[0] < ' ' then Err("Invalid control character")
    else Ok((s[0], s[1..]))
  }

  /** The rest of a string literal whose opening quote has been read. */
  function ParseString(s: string): (r: Parsed<string>)
    ensures r.Ok? ==> |r.value.1| < |s|
    decreases |s|
  {
    if |s| == 0 then Err("Unterminated string")
    else if s[0] == '"' then Ok(("", s[1..]))
    else
      match ParseChar(s)
      case Err(e) => Err(e)
      case Ok((c, t)) =>
        match ParseString(t)
        case Err(e) => Err(e)
        case Ok((str, rest)) => Ok(([c] + str, rest))
  }

  /** Sets key `k` to `v`: in place when the key is present, at the end otherwise (`d[k] = v`). */
  function Put(d: seq<(string, Json)>, k: string, v: Json): (r: seq<(string, Json)>)
  {
    if |d| == 0 then [(k, v)]
    else if d[0].0 == k then [(k, v)] + d[1..]
    else [d[0]] + Put(d[1..], k, v)
  }

  /** `dict(pairs)`: each key at the place of its first occurrence, with the value of its last. */
  function BuildDict(ps: seq<(string, Json)>): seq<(string, Json)>
  {
    if |ps| == 0 then [] else Put(BuildDict(ps[..|ps| - 1]), ps[|ps| - 1].0, ps[|ps| - 1].1)
  }

  /** A JSON value at the start of `s` (no leading whitespace). */
  function ParseValue(s: string): (r: Parsed<Json>)
    ensures r.Ok? ==> |r.value.1| < |s|
    decreases |s|, 1
  {
    if |s| == 0 then Err("Expecting value")
    else if s[0] == '"' then
      match ParseString(s[1..])
      case Err(e) => Err(e)
      case Ok((str, rest)) => Ok((JString(str), rest))
    else if s[0] == '{' then ParseObject(s[1..])
    else if s[0] == '[' then ParseArray(s[1..])
    else if s[0] == 'n' && |s| >= 4 && s[..4] == "null" then Ok((JNull, s[4..]))
    else if s[0] == 't' && |s| >= 4 && s[..4] == "true" then Ok((JBool(true), s[4..]))
    else if s[0] == 'f' && |s| >= 5 && s[..5] == "false" then Ok((JBool(false), s[5..]))
    else if s[0] == '-' || IsDigit(s[0]) then ParseNumber(s)
    else Err("Expecting value")
  }

  /** The rest of an array whose `[` has been read. */
  function ParseArray(s: string): (r: Parsed<Json>)
    ensures r.Ok? ==> |r.value.1| < |s|
    decreases |s|, 3
  {
    var t := SkipWs(s);
    if |t| > 0 && t[0] == ']' then Ok((JArray([]), t[1..]))
    else
      match ParseItems(t)
      case Err(e) => Err(e)
      case Ok((items, rest)) => Ok((JArray(items), rest))
  }

  /** One or more elements separated by `,`, then the closing `]`. */
  function ParseItems(s: string): (r: Parsed<seq<Json>>)
    ensures r.Ok? ==> |r.value.1| < |s|
    decreases |s|, 2
  {
    match ParseValue(s)
    case Err(e) => Err(e)
    case Ok((v, r1)) =>
      var t := SkipWs(r1);
      if |t| > 0 && t[0] == ']' then Ok(([v], t[1..]))
      else if |t| > 0 && t[0] == ',' then
        match ParseItems(SkipWs(t[1..]))
        case Err(e) => Err(e)
        case Ok((vs, rest)) => Ok(([v] + vs, rest))
      else Err("Expecting ',' delimiter")
  }

  /** The rest of an object whose `{` has been read. */
  function ParseObject(s: string): (r: Parsed<Json>)
    ensures r.Ok? ==> |r.value.1| < |s|
    decreases |s|, 3
  {
    var t := SkipWs(s);
    if |t| > 0 && t[0] == '}' then Ok((JObject([]), t[1..]))
    else
      match ParseMembers(t)
      case Err(e) => Err(e)
      case Ok((ps, rest)) => Ok((JObject(BuildDict(ps)), rest))
  }

  /** One or more `"key": value` pairs separated by `,`, then the closing `}`. */
  function ParseMembers(s: string): (r: Parsed<seq<(string, Json)>>)
    ensures r.Ok? ==> |r.value.1| < |s|
    decreases |s|, 2
  {
    if |s| == 0 || s[0] != '"' then Err("Expecting property name enclosed in double quotes")
    else
      match ParseString(s[1..])
      case Err(e) => Err(e)
      case Ok((k, r1)) =>
        var t := SkipWs(r1);
        if |t| == 0 || t[0] != ':' then Err("Expecting ':' delimiter")
        else
          match ParseValue(SkipWs(t[1..]))
          case Err(e) => Err(e)
          case Ok((v, r2)) =>
            var u := SkipWs(r2);
            if |u| > 0 && u[0] == '}' then Ok(([(k, v)], u[1..]))
            else if |u| > 0 && u[0] == ',' then
              match ParseMembers(SkipWs(u[1..]))
              case Err(e) => Err(e)
              case Ok((ps, rest)) => Ok(([(k, v)] + ps, rest))
            else Err("Expecting ',' delimiter")
  }

  /** `json.loads(s)` for a `str` argument. */
  function Loads(s: string): Result<Json, string> {
    if |s| > 0 && s[0] == 0xFEFF as char then Err("Unexpected UTF-8 BOM (decode using utf-8-sig)")
    else
      match ParseValue(SkipWs(s))
      case Err(e) => Err(e)
      case Ok((v, rest)) => if SkipWs(rest) == [] then Ok(v) else Err("Extra data")
  }
}

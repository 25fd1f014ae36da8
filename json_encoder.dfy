/**
 * Python's `json.dumps` with its default options (`ensure_ascii=True`,
 * `sort_keys=False`, no indentation) and a chosen pair of separators.
 */
module JsonEncoder {
  import opened Json

  /** The `separators=(item, key)` argument of `json.dumps`. */
  datatype Separators = Separators(item: string, key: string)

  /** `separators=(',', ':')`: the compact form the relational adapters ask for. */
  const Compact := Separators(",", ":")

  /** The separators `json.dumps` uses when none are given. */
  const Default := Separators(", ", ": ")

  /** `sep` is the character `c` with JSON whitespace on either side. */
  predicate SeparatorAround(sep: string, c: char) {
    exists i :: 0 <= i < |sep| && sep[i] == c && AllWs(sep[..i]) && AllWs(sep[i + 1..])
  }

  /** Separators a JSON parser reads back: an item separator around `,`, a key separator around `:`. */
  predicate Readable(seps: Separators) {
    SeparatorAround(seps.item, ',') && SeparatorAround(seps.key, ':')
  }

  predicate IsPrintableAscii(c: char) {
    ' ' <= c <= '~'
  }

  predicate AllPrintableAscii(s: string) {
    forall i :: 0 <= i < |s| ==> IsPrintableAscii(s[i])
  }

  function DigitChar(d: int): (c: char)
    requires 0 <= d < 10
    ensures '0' <= c <= '9' && c as int - '0' as int == d
  {
    ('0' as int + d) as char
  }

  /** The decimal text of a natural number, most significant digit first. */
  function NatText(n: nat): string
    decreases n
  {
    if n < 10 then [DigitChar(n)] else NatText(n / 10) + [DigitChar(n % 10)]
  }

  /** Python's `int.__repr__`: an optional minus sign, then the decimal digits. */
  function IntText(i: int): string {
    if i < 0 then "-" + NatText(-i) else NatText(i)
  }

  /** The lower-case hexadecimal digit of `d`. */
  function HexDigit(d: int): (c: char)
    requires 0 <= d < 16
  {
    if d < 10 then ('0' as int + d) as char else ('a' as int + d - 10) as char
  }

  /** Four lower-case hexadecimal digits, as `'\\u{0:04x}'.format(n)` writes them. */
  function Hex4(n: int): (h: string)
    requires 0 <= n < 0x1_0000
    ensures |h| == 4
  {
    [HexDigit(n / 16 / 16 / 16), HexDigit(n / 16 / 16 % 16), HexDigit(n / 16 % 16), HexDigit(n % 16)]
  }

  function UEscape(n: int): (e: string)
    requires 0 <= n < 0x1_0000
    ensures |e| == 6
  {
    "\\u" + Hex4(n)
  }

  /**
   * The ASCII-only escape of one character: the short escapes for the quote,
   * the backslash and five control characters, the character itself when it is
   * printable ASCII, otherwise `\uXXXX`, as a UTF-16 surrogate pair above U+FFFF.
   */
  function EscapeChar(c: char): string {
    if c == '"' then "\\\""
    else if c == '\\' then "\\\\"
    else if c == '\n' then "\\n"
    else if c == '\r' then "\\r"
    else if c == '\t' then "\\t"
    else if c == 8 as char then "\\b"
    else if c == 12 as char then "\\f"
    else if IsPrintableAscii(c) then [c]
    else if c as int < 0x1_0000 then UEscape(c as int)
    else
      var n := c as int - 0x1_0000;
      UEscape(0xD800 + n / 0x400) + UEscape(0xDC00 + n % 0x400)
  }

  /** A character above U+FFFF escapes as a surrogate pair of `\\uXXXX` escapes. */
  lemma SurrogateEscape(c: char)
    requires c as int >= 0x1_0000
    ensures var n := c as int - 0x1_0000;
      && 0 <= 0xD800 + n / 0x400 < 0x1_0000 && 0 <= 0xDC00 + n % 0x400 < 0x1_0000
      && EscapeChar(c) == UEscape(0xD800 + n / 0x400) + UEscape(0xDC00 + n % 0x400)
  {
  }

  /** Any other character that is not printable ASCII escapes as one `\\uXXXX`. */
  lemma BmpEscape(c: char)
    requires c as int < 0x1_0000 && !IsPrintableAscii(c)
    requires c != '\n' && c != '\r' && c != '\t' && c != 8 as char && c != 12 as char
    ensures EscapeChar(c) == UEscape(c as int)
  {
  }

  function EscapeText(s: string): string {
    if |s| == 0 then "" else EscapeChar(s[0]) + EscapeText(s[1..])
  }

  /** A JSON string literal. */
  function Quote(s: string): string {
    "\"" + EscapeText(s) + "\""
  }

  /** `json.dumps(v, separators=(seps.item, seps.key))`. */
  function Dumps(v: Json, seps: Separators): string
    decreases v
  {
    match v
    case JNull => "null"
    case JBool(b) => if b then "true" else "false"
    case JInt(i) => IntText(i)
    case JString(s) => Quote(s)
    case JArray(items) => "[" + ItemsText(items, seps) + "]"
    case JObject(ms) => "{" + MembersText(ms, seps) + "}"
  }

  /** The elements of a list, each followed by the item separator except the last. */
  function ItemsText(items: seq<Json>, seps: Separators): string
    decreases items
  {
    if |items| == 0 then ""
    else Dumps(items[0], seps) + (if |items| == 1 then "" else seps.item + ItemsText(items[1..], seps))
  }

  /** One `key<sep>value` pair. */
  function MemberText(m: (string, Json), seps: Separators): string
    decreases m
  {
    assert m.1 < m;
    Quote(m.0) + seps.key + Dumps(m.1, seps)
  }

  /** The members of a dict in insertion order, separated by the item separator. */
  function MembersText(ms: seq<(string, Json)>, seps: Separators): string
    decreases ms
  {
    if |ms| == 0 then ""
    else
      var m := ms[0];
      assert m in ms;
      MemberText(m, seps) + (if |ms| == 1 then "" else seps.item + MembersText(ms[1..], seps))
  }
}

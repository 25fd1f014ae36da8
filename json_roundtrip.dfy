/**
 * What `json.loads` does with the text `json.dumps` writes: it gives back the
 * value, for every separator pair made of `,` and `:` padded with whitespace.
 */
module JsonRoundTrip {
  import opened Wrappers
  import opened Json
  import opened JsonEncoder
  import opened JsonDecoder

  // ---------------------------------------------------------------- integers

  lemma {:induction false} NatTextDigits(n: nat)
    ensures |NatText(n)| > 0
    ensures forall k :: 0 <= k < |NatText(n)| ==> IsDigit(NatText(n)[k])
    ensures NatText(n)[0] == '0' <==> n == 0
    decreases n
  {
    if n >= 10 {
      NatTextDigits(n / 10);
    }
  }

  lemma {:induction false} NatTextValue(n: nat)
    ensures forall k :: 0 <= k < |NatText(n)| ==> IsDigit(NatText(n)[k])
    ensures DigitsValue(NatText(n)) == n
    decreases n
  {
    NatTextDigits(n);
    if n >= 10 {
      var s := NatText(n);
      assert s[..|s| - 1] == NatText(n / 10);
      NatTextValue(n / 10);
    }
  }

  lemma {:induction false} DigitSpanOf(ds: string, rest: string)
    requires forall k :: 0 <= k < |ds| ==> IsDigit(ds[k])
    requires rest == [] || !IsDigit(rest[0])
    ensures DigitSpan(ds + rest) == |ds|
  {
    if |ds| > 0 {
      assert (ds + rest)[1..] == ds[1..] + rest;
      DigitSpanOf(ds[1..], rest);
    } else {
      assert ds + rest == rest;
    }
  }

  /** Text that cannot extend a number written just before it. */
  predicate StopsNumber(rest: string) {
    rest == [] || !(IsDigit(rest[0]) || rest[0] == '.' || rest[0] == 'e' || rest[0] == 'E')
  }

  lemma NatDigitsRoundTrip(n: nat, rest: string)
    requires StopsNumber(rest)
    ensures ParseDigits(NatText(n) + rest) == Ok((n, rest))
  {
    var d := NatText(n);
    var s := d + rest;
    NatTextValue(n);
    NatTextDigits(n);
    assert s[0] == d[0];
    var span := if s[0] == '0' then 1 else DigitSpan(s);
    if n == 0 {
      assert d == "0";
    } else {
      DigitSpanOf(d, rest);
    }
    assert span == |d|;
    assert s[..span] == d && s[span..] == rest;
  }

  lemma NatNumberRoundTrip(m: nat, rest: string)
    requires StopsNumber(rest)
    ensures ParseNumber(NatText(m) + rest) == Ok((JInt(m), rest))
  {
    NatTextDigits(m);
    NatDigitsRoundTrip(m, rest);
    assert (NatText(m) + rest)[0] == NatText(m)[0];
  }

  lemma NegNumberRoundTrip(m: nat, rest: string)
    requires StopsNumber(rest)
    ensures ParseNumber("-" + (NatText(m) + rest)) == Ok((JInt(-(m as int)), rest))
  {
    var t := NatText(m) + rest;
    NatDigitsRoundTrip(m, rest);
    var s := "-" + t;
    assert s[0] == '-' && s[1..] == t;
  }

  lemma Assoc3(a: string, b: string, c: string)
    ensures a + b + c == a + (b + c)
  {
  }

  lemma IntNumberRoundTrip(i: int, rest: string)
    requires StopsNumber(rest)
    ensures ParseNumber(IntText(i) + rest) == Ok((JInt(i), rest))
  {
    if i < 0 {
      NegNumberRoundTrip(-i, rest);
      Assoc3("-", NatText(-i), rest);
    } else {
      NatNumberRoundTrip(i, rest);
    }
  }


  // ---------------------------------------------------------------- strings

  lemma HexDigitValue(d: int)
    requires 0 <= d < 16
    ensures HexValue(HexDigit(d)) == Some(d)
  {
  }

  /** Reading the four digits back, most significant first, rebuilds the number. */
  lemma Hex4Digits(n: int)
    requires 0 <= n < 0x1_0000
    ensures n / 16 / 16 / 16 < 16
    ensures ((n / 16 / 16 / 16 * 16 + n / 16 / 16 % 16) * 16 + n / 16 % 16) * 16 + n % 16 == n
  {
    var m1 := n / 16;
    var m2 := m1 / 16;
    assert n == m1 * 16 + n % 16;
    assert m1 == m2 * 16 + m1 % 16;
    assert m2 == m2 / 16 * 16 + m2 % 16;
  }

  lemma HexRoundTrip(n: int)
    requires 0 <= n < 0x1_0000
    ensures ParseHex4(Hex4(n)) == Some(n)
  {
    Hex4Digits(n);
    HexDigitValue(n / 16 / 16 / 16);
    HexDigitValue(n / 16 / 16 % 16);
    HexDigitValue(n / 16 % 16);
    HexDigitValue(n % 16);
  }

  lemma UEscapeRoundTrip(c: char, t: string)
    requires c as int < 0x1_0000
    ensures ParseChar(UEscape(c as int) + t) == Ok((c, t))
  {
    var s := UEscape(c as int) + t;
    HexRoundTrip(c as int);
    var e := s[1..];
    assert s[0] == '\\' && e[0] == 'u';
    assert e[1..5] == Hex4(c as int);
    assert e[5..] == t;
  }

  /** The two halves of a surrogate pair lie in their ranges and recombine to the code point. */
  lemma SurrogateHalves(n: int)
    requires 0 <= n < 0x10_0000
    ensures 0xD800 <= 0xD800 + n / 0x400 < 0xDC00 && 0xDC00 <= 0xDC00 + n % 0x400 < 0xE000
    ensures 0x1_0000 + ((0xD800 + n / 0x400) - 0xD800) * 0x400 + ((0xDC00 + n % 0x400) - 0xDC00) == 0x1_0000 + n
  {
  }

  /** The layout of two `\\u` escapes after the leading backslash. */
  lemma PairText(h1: string, h2: string, t: string)
    requires |h1| == 4 && |h2| == 4
    ensures var s := "\\u" + h1 + ("\\u" + h2) + t; var e := s[1..];
      && s[0] == '\\' && |e| >= 11 && e[0] == 'u' && e[1..5] == h1
      && e[5] == '\\' && e[6] == 'u' && e[7..11] == h2 && e[11..] == t
  {
    var s := "\\u" + h1 + ("\\u" + h2) + t;
    var e := s[1..];
    assert e == ['u'] + h1 + ['\\', 'u'] + h2 + t;
  }

  lemma ParseEscapePair(e: string, hi: int, lo: int, t: string)
    requires 0xD800 <= hi < 0xDC00 && 0xDC00 <= lo < 0xE000
    requires |e| >= 11 && e[0] == 'u' && ParseHex4(e[1..5]) == Some(hi)
    requires e[5] == '\\' && e[6] == 'u' && ParseHex4(e[7..11]) == Some(lo) && e[11..] == t
    ensures ParseEscape(e) == Ok(((0x1_0000 + (hi - 0xD800) * 0x400 + (lo - 0xDC00)) as char, t))
  {
  }

  /** A high and a low surrogate escape read back as the character they combine to. */
  lemma PairRoundTrip(hi: int, lo: int, c: char, t: string)
    requires 0xD800 <= hi < 0xDC00 && 0xDC00 <= lo < 0xE000
    requires c as int == 0x1_0000 + (hi - 0xD800) * 0x400 + (lo - 0xDC00)
    ensures ParseChar(UEscape(hi) + UEscape(lo) + t) == Ok((c, t))
  {
    var h1, h2 := Hex4(hi), Hex4(lo);
    HexRoundTrip(hi);
    HexRoundTrip(lo);
    PairText(h1, h2, t);
    var s := "\\u" + h1 + ("\\u" + h2) + t;
    assert UEscape(hi) + UEscape(lo) + t == s;
    ParseEscapePair(s[1..], hi, lo, t);
  }

  lemma SurrogatePairRoundTrip(c: char, hi: int, lo: int, t: string)
    requires c as int >= 0x1_0000
    requires hi == 0xD800 + (c as int - 0x1_0000) / 0x400 && lo == 0xDC00 + (c as int - 0x1_0000) % 0x400
    ensures 0 <= hi < 0x1_0000 && 0 <= lo < 0x1_0000
    ensures ParseChar(UEscape(hi) + UEscape(lo) + t) == Ok((c, t))
  {
    SurrogateHalves(c as int - 0x1_0000);
    PairRoundTrip(hi, lo, c, t);
  }

  lemma SurrogateCharRoundTrip(c: char, t: string)
    requires c as int >= 0x1_0000
    ensures |EscapeChar(c)| > 0 && EscapeChar(c)[0] != '"'
    ensures ParseChar(EscapeChar(c) + t) == Ok((c, t))
  {
    var n := c as int - 0x1_0000;
    var hi, lo := 0xD800 + n / 0x400, 0xDC00 + n % 0x400;
    SurrogateEscape(c);
    SurrogatePairRoundTrip(c, hi, lo, t);
    assert EscapeChar(c)[0] == UEscape(hi)[0];
  }

  /** Every escape starts with a character other than the closing quote, and reads back as its character. */
  lemma EscapeCharRoundTrip(c: char, t: string)
    ensures |EscapeChar(c)| > 0 && EscapeChar(c)[0] != '"'
    ensures ParseChar(EscapeChar(c) + t) == Ok((c, t))
  {
    var e := EscapeChar(c);
    var s := e + t;
    if c == '"' || c == '\\' || c == '\n' || c == '\r' || c == '\t' || c == 8 as char || c == 12 as char {
      assert |e| == 2 && s[0] == '\\' && s[1] == e[1] && s[1..][1..] == t;
    } else if IsPrintableAscii(c) {
      assert s[0] == c && s[1..] == t;
    } else if c as int < 0x1_0000 {
      UEscapeRoundTrip(c, t);
    } else {
      SurrogateCharRoundTrip(c, t);
    }
  }

  lemma {:induction false} QuoteRoundTrip(str: string, rest: string)
    ensures ParseString(EscapeText(str) + "\"" + rest) == Ok((str, rest))
  {
    var s := EscapeText(str) + "\"" + rest;
    if |str| == 0 {
      assert s == "\"" + rest;
    } else {
      var tail := EscapeText(str[1..]) + "\"" + rest;
      assert s == EscapeChar(str[0]) + tail;
      EscapeCharRoundTrip(str[0], tail);
      QuoteRoundTrip(str[1..], rest);
      assert [str[0]] + str[1..] == str;
    }
  }

  // ---------------------------------------------------------------- dicts

  lemma {:induction false} PutAbsent(d: seq<(string, Json)>, k: string, v: Json)
    requires forall i :: 0 <= i < |d| ==> d[i].0 != k
    ensures Put(d, k, v) == d + [(k, v)]
  {
    if |d| > 0 {
      PutAbsent(d[1..], k, v);
      assert [d[0]] + (d[1..] + [(k, v)]) == d + [(k, v)];
    }
  }

  /** Building a dict from pairs with distinct keys keeps every pair, in order. */
  lemma {:induction false} BuildDictDistinct(ps: seq<(string, Json)>)
    requires DistinctKeys(ps)
    ensures BuildDict(ps) == ps
  {
    if |ps| > 0 {
      var n := |ps| - 1;
      var prefix := ps[..n];
      assert DistinctKeys(prefix);
      BuildDictDistinct(prefix);
      assert forall i :: 0 <= i < |prefix| ==> prefix[i].0 != ps[n].0;
      PutAbsent(prefix, ps[n].0, ps[n].1);
      assert prefix + [(ps[n].0, ps[n].1)] == ps;
    }
  }

  // ---------------------------------------------------------------- values

  /** The characters a JSON text written by `Dumps` can start with. */
  predicate StartsValue(c: char) {
    c == 'n' || c == 't' || c == 'f' || c == '"' || c == '[' || c == '{' || c == '-' || IsDigit(c)
  }

  lemma DumpsStart(v: Json, seps: Separators)
    ensures |Dumps(v, seps)| > 0 && StartsValue(Dumps(v, seps)[0])
  {
    match v
    case JInt(i) =>
      NatTextDigits(if i < 0 then -i else i);
    case _ =>
  }

  lemma MembersStart(ms: seq<(string, Json)>, seps: Separators)
    requires |ms| > 0
    ensures |MembersText(ms, seps)| > 0 && MembersText(ms, seps)[0] == '"'
  {
  }

  lemma ItemsStart(items: seq<Json>, seps: Separators)
    requires |items| > 0
    ensures |ItemsText(items, seps)| > 0 && StartsValue(ItemsText(items, seps)[0])
  {
    DumpsStart(items[0], seps);
  }

  lemma SeparatorFirst(sep: string, c: char)
    requires SeparatorAround(sep, c)
    ensures |sep| > 0 && (IsWs(sep[0]) || sep[0] == c)
  {
    var i :| 0 <= i < |sep| && sep[i] == c && AllWs(sep[..i]) && AllWs(sep[i + 1..]);
    if i > 0 {
      assert sep[..i][0] == sep[0];
    }
  }

  /** Text after a value that starts with a separator cannot extend a number. */
  lemma SeparatorStopsNumber(sep: string, c: char, x: string)
    requires SeparatorAround(sep, c) && (c == ',' || c == ':')
    ensures StopsNumber(sep + x)
  {
    SeparatorFirst(sep, c);
    assert (sep + x)[0] == sep[0];
  }

  /** Whitespace, then the separator's character, then whitespace, then text that does not start with whitespace. */
  lemma SplitAt(s: string, i: nat, x: string)
    requires i < |s|
    ensures s + x == s[..i] + ([s[i]] + (s[i + 1..] + x))
  {
  }

  lemma SeparatorSkip(sep: string, c: char, x: string)
    requires SeparatorAround(sep, c) && (c == ',' || c == ':')
    requires x == [] || !IsWs(x[0])
    ensures var t := SkipWs(sep + x); |t| > 0 && t[0] == c && SkipWs(t[1..]) == x
  {
    var i :| 0 <= i < |sep| && sep[i] == c && AllWs(sep[..i]) && AllWs(sep[i + 1..]);
    var after := sep[i + 1..] + x;
    SplitAt(sep, i, x);
    assert SkipWs(sep + x) == [c] + after by {
      SkipWsLeading(sep[..i], [c] + after);
      SkipWsNone([c] + after);
    }
    assert ([c] + after)[1..] == after;
    assert SkipWs(after) == x by {
      SkipWsLeading(sep[i + 1..], x);
      SkipWsNone(x);
    }
  }

  lemma ParseItemsLast(s: string, v: Json, rest: string)
    requires ParseValue(s) == Ok((v, "]" + rest))
    ensures ParseItems(s) == Ok(([v], rest))
  {
    assert SkipWs("]" + rest) == "]" + rest;
  }

  lemma ParseItemsMore(s: string, v: Json, after: string, next: string, vs: seq<Json>, rest: string)
    requires ParseValue(s) == Ok((v, after))
    requires var t := SkipWs(after); |t| > 0 && t[0] == ',' && SkipWs(t[1..]) == next
    requires ParseItems(next) == Ok((vs, rest))
    ensures ParseItems(s) == Ok(([v] + vs, rest))
  {
  }

  lemma ParseMembersStep(s: string, k: string, r1: string, value: string, v: Json, after: string)
    requires |s| > 0 && s[0] == '"' && ParseString(s[1..]) == Ok((k, r1))
    requires var t := SkipWs(r1); |t| > 0 && t[0] == ':' && SkipWs(t[1..]) == value
    requires ParseValue(value) == Ok((v, after))
    ensures var u := SkipWs(after);
      && (|u| > 0 && u[0] == '}' ==> ParseMembers(s) == Ok(([(k, v)], u[1..])))
      && (|u| > 0 && u[0] == ',' ==>
           ParseMembers(s) == match ParseMembers(SkipWs(u[1..]))
                              case Err(e) => Err(e)
                              case Ok((ps, rest)) => Ok(([(k, v)] + ps, rest)))
  {
  }

  lemma NullRoundTrip(rest: string)
    ensures ParseValue("null" + rest) == Ok((JNull, rest))
  {
    var s := "null" + rest;
    assert s[..4] == "null" && s[4..] == rest;
  }

  lemma BoolRoundTrip(b: bool, rest: string)
    ensures ParseValue((if b then "true" else "false") + rest) == Ok((JBool(b), rest))
  {
    var s := (if b then "true" else "false") + rest;
    if b {
      assert s[..4] == "true" && s[4..] == rest;
    } else {
      assert s[0] == 'f' && s[..4][0] == 'f';
      assert s[..5] == "false" && s[5..] == rest;
    }
  }

  /** A value that starts with a minus sign or a digit is read as a number. */
  lemma ParseValueNumber(s: string)
    requires |s| > 0 && (s[0] == '-' || IsDigit(s[0]))
    ensures ParseValue(s) == ParseNumber(s)
  {
    assert s[0] != '"' && s[0] != '{' && s[0] != '[' && s[0] != 'n' && s[0] != 't' && s[0] != 'f';
  }

  lemma IntRoundTrip(i: int, rest: string)
    requires StopsNumber(rest)
    ensures ParseValue(IntText(i) + rest) == Ok((JInt(i), rest))
  {
    var s := IntText(i) + rest;
    NatTextDigits(if i < 0 then -i else i);
    IntNumberRoundTrip(i, rest);
    assert s[0] == IntText(i)[0];
    ParseValueNumber(s);
  }

  lemma StringRoundTrip(str: string, rest: string)
    ensures ParseValue(Quote(str) + rest) == Ok((JString(str), rest))
  {
    var s := Quote(str) + rest;
    assert s[1..] == EscapeText(str) + "\"" + rest;
    QuoteRoundTrip(str, rest);
  }

  lemma ArrayFromItems(body: string, items: seq<Json>, rest: string)
    requires |items| == 0 ==> body == "]" + rest
    requires |items| > 0 ==> |body| > 0 && !IsWs(body[0]) && body[0] != ']' && ParseItems(body) == Ok((items, rest))
    ensures ParseValue("[" + body) == Ok((JArray(items), rest))
  {
    var s := "[" + body;
    assert s[1..] == body;
  }

  lemma ObjectFromMembers(body: string, ms: seq<(string, Json)>, rest: string)
    requires |ms| == 0 ==> body == "}" + rest
    requires |ms| > 0 ==> |body| > 0 && body[0] == '"' && ParseMembers(body) == Ok((ms, rest)) && BuildDict(ms) == ms
    ensures ParseValue("{" + body) == Ok((JObject(ms), rest))
  {
    var s := "{" + body;
    assert s[1..] == body;
  }

  lemma Wrap(open: string, inner: string, close: string, rest: string)
    ensures open + inner + close + rest == open + (inner + close + rest)
  {
  }

  lemma {:induction false} ValueRoundTrip(v: Json, seps: Separators, rest: string)
    requires WellFormed(v) && Readable(seps) && StopsNumber(rest)
    ensures ParseValue(Dumps(v, seps) + rest) == Ok((v, rest))
    decreases v, 1
  {
    match v
    case JNull => NullRoundTrip(rest);
    case JBool(b) => BoolRoundTrip(b, rest);
    case JInt(i) => IntRoundTrip(i, rest);
    case JString(str) => StringRoundTrip(str, rest);
    case JArray(items) => ArrayRoundTrip(v, seps, rest);
    case JObject(ms) => ObjectRoundTrip(v, seps, rest);
  }

  lemma {:induction false} ArrayRoundTrip(v: Json, seps: Separators, rest: string)
    requires v.JArray? && WellFormed(v) && Readable(seps)
    ensures ParseValue(Dumps(v, seps) + rest) == Ok((v, rest))
    decreases v, 0
  {
    var items := v.items;
    var body := ItemsText(items, seps) + "]" + rest;
    Wrap("[", ItemsText(items, seps), "]", rest);
    if |items| > 0 {
      ItemsStart(items, seps);
      assert body[0] == ItemsText(items, seps)[0];
      ItemsRoundTrip(items, seps, rest);
    }
    ArrayFromItems(body, items, rest);
  }

  lemma {:induction false} ObjectRoundTrip(v: Json, seps: Separators, rest: string)
    requires v.JObject? && WellFormed(v) && Readable(seps)
    ensures ParseValue(Dumps(v, seps) + rest) == Ok((v, rest))
    decreases v, 0
  {
    var ms := v.members;
    var body := MembersText(ms, seps) + "}" + rest;
    Wrap("{", MembersText(ms, seps), "}", rest);
    if |ms| > 0 {
      MembersStart(ms, seps);
      assert body[0] == MembersText(ms, seps)[0];
      MembersRoundTrip(ms, seps, rest);
      BuildDictDistinct(ms);
    }
    ObjectFromMembers(body, ms, rest);
  }

  lemma ItemsTextSplit(items: seq<Json>, seps: Separators, rest: string)
    requires |items| > 1
    ensures ItemsText(items, seps) + "]" + rest
         == Dumps(items[0], seps) + (seps.item + (ItemsText(items[1..], seps) + "]" + rest))
  {
    var a, b, c := Dumps(items[0], seps), seps.item, ItemsText(items[1..], seps);
    assert ItemsText(items, seps) == a + (b + c);
    RegroupItems(a, b, c, "]", rest);
  }

  lemma RegroupItems(a: string, b: string, c: string, d: string, e: string)
    ensures a + (b + c) + d + e == a + (b + (c + d + e))
  {
  }

  /** The text after the first item's value: the remaining items and the closing bracket. */
  function AfterFirstItem(items: seq<Json>, seps: Separators, rest: string): string
    requires |items| > 0
  {
    if |items| == 1 then "]" + rest else seps.item + (ItemsText(items[1..], seps) + "]" + rest)
  }

  lemma AfterFirstItemStops(items: seq<Json>, seps: Separators, rest: string)
    requires |items| > 0 && Readable(seps)
    ensures StopsNumber(AfterFirstItem(items, seps, rest))
  {
    if |items| > 1 {
      SeparatorStopsNumber(seps.item, ',', ItemsText(items[1..], seps) + "]" + rest);
    }
  }

  /** The last item is followed by the closing bracket. */
  lemma LastItemParse(items: seq<Json>, seps: Separators, rest: string)
    requires |items| == 1
    requires ParseValue(Dumps(items[0], seps) + AfterFirstItem(items, seps, rest))
          == Ok((items[0], AfterFirstItem(items, seps, rest)))
    ensures ParseItems(ItemsText(items, seps) + "]" + rest) == Ok((items, rest))
  {
    assert ItemsText(items, seps) + "]" + rest == Dumps(items[0], seps) + ("]" + rest);
    ParseItemsLast(ItemsText(items, seps) + "]" + rest, items[0], rest);
    assert [items[0]] == items;
  }

  /** An item followed by the item separator and the remaining items. */
  lemma NextItemParse(items: seq<Json>, seps: Separators, rest: string)
    requires |items| > 1 && Readable(seps)
    requires ParseValue(Dumps(items[0], seps) + AfterFirstItem(items, seps, rest))
          == Ok((items[0], AfterFirstItem(items, seps, rest)))
    requires ParseItems(ItemsText(items[1..], seps) + "]" + rest) == Ok((items[1..], rest))
    ensures ParseItems(ItemsText(items, seps) + "]" + rest) == Ok((items, rest))
  {
    var tail := items[1..];
    var next := ItemsText(tail, seps) + "]" + rest;
    ItemsTextSplit(items, seps, rest);
    ItemsStart(tail, seps);
    assert next[0] == ItemsText(tail, seps)[0];
    SeparatorSkip(seps.item, ',', next);
    assert AfterFirstItem(items, seps, rest) == seps.item + next;
    ParseItemsMore(ItemsText(items, seps) + "]" + rest, items[0], seps.item + next, next, tail, rest);
    assert [items[0]] + tail == items;
  }

  lemma {:induction false} ItemsRoundTrip(items: seq<Json>, seps: Separators, rest: string)
    requires |items| > 0
    requires forall i :: 0 <= i < |items| ==> WellFormed(items[i])
    requires Readable(seps)
    ensures ParseItems(ItemsText(items, seps) + "]" + rest) == Ok((items, rest))
    decreases items
  {
    AfterFirstItemStops(items, seps, rest);
    ValueRoundTrip(items[0], seps, AfterFirstItem(items, seps, rest));
    if |items| == 1 {
      LastItemParse(items, seps, rest);
    } else {
      ItemsRoundTrip(items[1..], seps, rest);
      NextItemParse(items, seps, rest);
    }
  }

  /** The key of a member, then the key separator, read up to the value text. */
  lemma MemberHead(k: string, seps: Separators, value: string)
    requires SeparatorAround(seps.key, ':')
    requires |value| > 0 && !IsWs(value[0])
    ensures var s := Quote(k) + (seps.key + value);
      && |s| > 0 && s[0] == '"'
      && ParseString(s[1..]) == Ok((k, seps.key + value))
      && var t := SkipWs(seps.key + value); |t| > 0 && t[0] == ':' && SkipWs(t[1..]) == value
  {
    var s := Quote(k) + (seps.key + value);
    assert s[1..] == EscapeText(k) + "\"" + (seps.key + value);
    QuoteRoundTrip(k, seps.key + value);
    SeparatorSkip(seps.key, ':', value);
  }

  /** The text after the first member's value: the remaining members and the closing brace. */
  function AfterFirstMember(ms: seq<(string, Json)>, seps: Separators, rest: string): string
    requires |ms| > 0
  {
    (if |ms| == 1 then "" else seps.item + MembersText(ms[1..], seps)) + "}" + rest
  }

  lemma Regroup(a: string, b: string, c: string, d: string, e: string, f: string)
    ensures a + b + c + d + e + f == a + (b + (c + (d + e + f)))
  {
  }

  lemma MembersTextSplit(ms: seq<(string, Json)>, seps: Separators, rest: string)
    requires |ms| > 0
    ensures MembersText(ms, seps) + "}" + rest
         == Quote(ms[0].0) + (seps.key + (Dumps(ms[0].1, seps) + AfterFirstMember(ms, seps, rest)))
  {
    var m := ms[0];
    var a, b, c := Quote(m.0), seps.key, Dumps(m.1, seps);
    var more := if |ms| == 1 then "" else seps.item + MembersText(ms[1..], seps);
    assert MembersText(ms, seps) == a + b + c + more;
    Regroup(a, b, c, more, "}", rest);
  }

  lemma ValueTextStart(v: Json, seps: Separators, after: string)
    ensures |Dumps(v, seps) + after| > 0 && !IsWs((Dumps(v, seps) + after)[0])
  {
    DumpsStart(v, seps);
    assert (Dumps(v, seps) + after)[0] == Dumps(v, seps)[0];
  }

  lemma AfterFirstMemberShape(ms: seq<(string, Json)>, seps: Separators, rest: string)
    requires |ms| > 0
    ensures |ms| == 1 ==> AfterFirstMember(ms, seps, rest) == "}" + rest
    ensures |ms| > 1 ==> AfterFirstMember(ms, seps, rest) == seps.item + (MembersText(ms[1..], seps) + "}" + rest)
    ensures |ms| > 1 ==> var next := MembersText(ms[1..], seps) + "}" + rest; |next| > 0 && next[0] == '"'
  {
    if |ms| == 1 {
      assert "" + "}" == "}";
    } else {
      Wrap(seps.item, MembersText(ms[1..], seps), "}", rest);
      MembersStart(ms[1..], seps);
    }
  }

  /** Once the first member's value parses, the member list reads on past it. */
  lemma FirstMemberParse(ms: seq<(string, Json)>, seps: Separators, rest: string)
    requires |ms| > 0 && Readable(seps)
    requires var after := AfterFirstMember(ms, seps, rest);
      ParseValue(Dumps(ms[0].1, seps) + after) == Ok((ms[0].1, after))
    ensures var s, after := MembersText(ms, seps) + "}" + rest, AfterFirstMember(ms, seps, rest);
      var u := SkipWs(after);
      && (|u| > 0 && u[0] == '}' ==> ParseMembers(s) == Ok(([ms[0]], u[1..])))
      && (|u| > 0 && u[0] == ',' ==>
           ParseMembers(s) == match ParseMembers(SkipWs(u[1..]))
                              case Err(e) => Err(e)
                              case Ok((ps, rest)) => Ok(([ms[0]] + ps, rest)))
  {
    var m := ms[0];
    var s := MembersText(ms, seps) + "}" + rest;
    var after := AfterFirstMember(ms, seps, rest);
    var value := Dumps(m.1, seps) + after;
    MembersTextSplit(ms, seps, rest);
    ValueTextStart(m.1, seps, after);
    MemberHead(m.0, seps, value);
    ParseMembersStep(s, m.0, seps.key + value, value, m.1, after);
  }

  lemma AfterFirstMemberStops(ms: seq<(string, Json)>, seps: Separators, rest: string)
    requires |ms| > 0 && Readable(seps)
    ensures StopsNumber(AfterFirstMember(ms, seps, rest))
  {
    AfterFirstMemberShape(ms, seps, rest);
    if |ms| > 1 {
      SeparatorStopsNumber(seps.item, ',', MembersText(ms[1..], seps) + "}" + rest);
    }
  }

  /** The last member is followed by the closing brace. */
  lemma LastMemberParse(ms: seq<(string, Json)>, seps: Separators, rest: string)
    requires |ms| == 1 && Readable(seps)
    requires var after := AfterFirstMember(ms, seps, rest);
      ParseValue(Dumps(ms[0].1, seps) + after) == Ok((ms[0].1, after))
    ensures ParseMembers(MembersText(ms, seps) + "}" + rest) == Ok((ms, rest))
  {
    var after := AfterFirstMember(ms, seps, rest);
    FirstMemberParse(ms, seps, rest);
    AfterFirstMemberShape(ms, seps, rest);
    SkipWsNone(after);
    assert after[1..] == rest;
    assert [ms[0]] == ms;
  }

  /** A member followed by the item separator and the remaining members. */
  lemma NextMemberParse(ms: seq<(string, Json)>, seps: Separators, rest: string)
    requires |ms| > 1 && Readable(seps)
    requires var after := AfterFirstMember(ms, seps, rest);
      ParseValue(Dumps(ms[0].1, seps) + after) == Ok((ms[0].1, after))
    requires ParseMembers(MembersText(ms[1..], seps) + "}" + rest) == Ok((ms[1..], rest))
    ensures ParseMembers(MembersText(ms, seps) + "}" + rest) == Ok((ms, rest))
  {
    var next := MembersText(ms[1..], seps) + "}" + rest;
    AfterFirstMemberShape(ms, seps, rest);
    SeparatorSkip(seps.item, ',', next);
    var u := SkipWs(AfterFirstMember(ms, seps, rest));
    assert |u| > 0 && u[0] == ',' && SkipWs(u[1..]) == next;
    FirstMemberParse(ms, seps, rest);
    assert [ms[0]] + ms[1..] == ms;
  }

  lemma {:induction false} MembersRoundTrip(ms: seq<(string, Json)>, seps: Separators, rest: string)
    requires |ms| > 0
    requires forall i :: 0 <= i < |ms| ==> WellFormed(ms[i].1)
    requires Readable(seps)
    ensures ParseMembers(MembersText(ms, seps) + "}" + rest) == Ok((ms, rest))
    decreases ms
  {
    var m := ms[0];
    assert m in ms;
    assert m.1 < m;
    AfterFirstMemberStops(ms, seps, rest);
    ValueRoundTrip(m.1, seps, AfterFirstMember(ms, seps, rest));
    if |ms| == 1 {
      LastMemberParse(ms, seps, rest);
    } else {
      MembersRoundTrip(ms[1..], seps, rest);
      NextMemberParse(ms, seps, rest);
    }
  }

  // ---------------------------------------------------------------- whole texts

  lemma StandardSeparatorsReadable()
    ensures Readable(Compact) && Readable(Default)
  {
    assert Compact.item[0] == ',' && Compact.item[..0] == [] && Compact.item[1..] == [];
    assert Compact.key[0] == ':' && Compact.key[..0] == [] && Compact.key[1..] == [];
    assert Default.item[0] == ',' && Default.item[..0] == [] && AllWs(Default.item[1..]);
    assert Default.key[0] == ':' && Default.key[..0] == [] && AllWs(Default.key[1..]);
  }

  /** `json.loads(json.dumps(v, separators=seps)) == v`. */
  lemma DumpsLoads(v: Json, seps: Separators)
    requires WellFormed(v) && Readable(seps)
    ensures Loads(Dumps(v, seps)) == Ok(v)
  {
    var s := Dumps(v, seps);
    DumpsStart(v, seps);
    assert SkipWs(s) == s;
    assert s + [] == s;
    ValueRoundTrip(v, seps, []);
  }
}

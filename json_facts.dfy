/**
 * Properties of the JSON text `json.dumps` writes and of the values
 * `json.loads` builds, beside the round trip of module JsonRoundTrip.
 */
module JsonFacts {
  import opened Wrappers
  import opened Json
  import opened JsonEncoder
  import opened JsonDecoder
  import JsonRoundTrip

  // ---------------------------------------------------------------- dict(pairs)

  /** The value the last pair with key `k` carries. */
  function LastValue(ps: seq<(string, Json)>, k: string): Option<Json> {
    if |ps| == 0 then None
    else if ps[|ps| - 1].0 == k then Some(ps[|ps| - 1].1)
    else LastValue(ps[..|ps| - 1], k)
  }

  function KeySet(ms: seq<(string, Json)>): set<string> {
    set i | 0 <= i < |ms| :: ms[i].0
  }

  /** Setting a key changes what that key reads and nothing else. */
  lemma {:induction false} PutLookup(d: seq<(string, Json)>, k: string, v: Json, k2: string)
    ensures Lookup(Put(d, k, v), k2) == if k2 == k then Some(v) else Lookup(d, k2)
  {
    if |d| > 0 && d[0].0 != k {
      PutLookup(d[1..], k, v, k2);
      assert (([d[0]] + Put(d[1..], k, v))[1..]) == Put(d[1..], k, v);
    } else if |d| > 0 {
      assert ([(k, v)] + d[1..])[1..] == d[1..];
    }
  }

  /** `dict(pairs)[k]` is the value of the last pair with key `k`. */
  lemma {:induction false} BuildDictLookup(ps: seq<(string, Json)>, k: string)
    ensures Lookup(BuildDict(ps), k) == LastValue(ps, k)
  {
    if |ps| > 0 {
      var n := |ps| - 1;
      BuildDictLookup(ps[..n], k);
      PutLookup(BuildDict(ps[..n]), ps[n].0, ps[n].1, k);
    }
  }

  lemma {:induction false} PutKeySet(d: seq<(string, Json)>, k: string, v: Json)
    ensures KeySet(Put(d, k, v)) == KeySet(d) + {k}
  {
    if |d| == 0 {
      assert KeySet([(k, v)]) == {k} by { assert [(k, v)][0].0 == k; }
    } else if d[0].0 == k {
      var r := [(k, v)] + d[1..];
      assert forall i :: 0 <= i < |r| ==> r[i].0 == d[i].0;
      assert KeySet(r) == KeySet(d);
    } else {
      var p := Put(d[1..], k, v);
      var r := [d[0]] + p;
      PutKeySet(d[1..], k, v);
      assert KeySet(r) == {d[0].0} + KeySet(p) by {
        forall x | x in KeySet(r) ensures x in {d[0].0} + KeySet(p) {
          var i :| 0 <= i < |r| && r[i].0 == x;
          if i > 0 { assert p[i - 1].0 == x; }
        }
        forall x | x in KeySet(p) ensures x in KeySet(r) {
          var i :| 0 <= i < |p| && p[i].0 == x;
          assert r[i + 1].0 == x;
        }
        assert r[0].0 == d[0].0;
      }
      assert KeySet(d) == {d[0].0} + KeySet(d[1..]) by {
        forall x | x in KeySet(d) ensures x in {d[0].0} + KeySet(d[1..]) {
          var i :| 0 <= i < |d| && d[i].0 == x;
          if i > 0 { assert d[1..][i - 1].0 == x; }
        }
        forall x | x in KeySet(d[1..]) ensures x in KeySet(d) {
          var i :| 0 <= i < |d[1..]| && d[1..][i].0 == x;
          assert d[i + 1].0 == x;
        }
      }
    }
  }

  lemma {:induction false} PutDistinct(d: seq<(string, Json)>, k: string, v: Json)
    requires DistinctKeys(d)
    ensures DistinctKeys(Put(d, k, v))
  {
    if |d| > 0 && d[0].0 != k {
      var p := Put(d[1..], k, v);
      PutDistinct(d[1..], k, v);
      PutKeySet(d[1..], k, v);
      var r := [d[0]] + p;
      forall i, j | 0 <= i < j < |r| ensures r[i].0 != r[j].0 {
        if i == 0 {
          assert r[j].0 == p[j - 1].0 && p[j - 1].0 in KeySet(p);
        } else {
          assert r[i].0 == p[i - 1].0 && r[j].0 == p[j - 1].0;
        }
      }
    } else if |d| > 0 {
      var r := [(k, v)] + d[1..];
      assert forall i :: 0 <= i < |r| ==> r[i].0 == d[i].0;
    }
  }

  lemma {:induction false} PutValues(d: seq<(string, Json)>, k: string, v: Json)
    requires forall i :: 0 <= i < |d| ==> WellFormed(d[i].1)
    requires WellFormed(v)
    ensures forall i :: 0 <= i < |Put(d, k, v)| ==> WellFormed(Put(d, k, v)[i].1)
  {
    if |d| > 0 && d[0].0 != k {
      PutValues(d[1..], k, v);
      var p := Put(d[1..], k, v);
      assert forall i :: 0 < i < |[d[0]] + p| ==> ([d[0]] + p)[i] == p[i - 1];
    } else if |d| > 0 {
      var r := [(k, v)] + d[1..];
      assert forall i :: 0 < i < |r| ==> r[i] == d[i];
    }
  }

  /** `dict(pairs)` has distinct keys, and its values are values of the pairs. */
  lemma {:induction false} BuildDictWellFormed(ps: seq<(string, Json)>)
    requires forall i :: 0 <= i < |ps| ==> WellFormed(ps[i].1)
    ensures DistinctKeys(BuildDict(ps))
    ensures forall i :: 0 <= i < |BuildDict(ps)| ==> WellFormed(BuildDict(ps)[i].1)
  {
    if |ps| > 0 {
      var n := |ps| - 1;
      assert forall i :: 0 <= i < n ==> ps[..n][i] == ps[i];
      BuildDictWellFormed(ps[..n]);
      PutDistinct(BuildDict(ps[..n]), ps[n].0, ps[n].1);
      PutValues(BuildDict(ps[..n]), ps[n].0, ps[n].1);
    }
  }

  // ---------------------------------------------------------------- decoding builds Python values

  lemma {:induction false} ParseValueWellFormed(s: string)
    ensures ParseValue(s).Ok? ==> WellFormed(ParseValue(s).value.0)
    decreases |s|, 1
  {
    if |s| > 0 && s[0] == '{' {
      ParseObjectWellFormed(s[1..]);
    } else if |s| > 0 && s[0] == '[' {
      ParseArrayWellFormed(s[1..]);
    }
  }

  lemma {:induction false} ParseArrayWellFormed(s: string)
    ensures ParseArray(s).Ok? ==> WellFormed(ParseArray(s).value.0)
    decreases |s|, 3
  {
    ParseItemsWellFormed(SkipWs(s));
  }

  lemma {:induction false} ParseItemsWellFormed(s: string)
    ensures ParseItems(s).Ok? ==> forall i :: 0 <= i < |ParseItems(s).value.0| ==> WellFormed(ParseItems(s).value.0[i])
    decreases |s|, 2
  {
    ParseValueWellFormed(s);
    match ParseValue(s)
    case Err(_) =>
    case Ok((v, r1)) =>
      var t := SkipWs(r1);
      if |t| > 0 && t[0] != ']' && t[0] == ',' {
        ParseItemsWellFormed(SkipWs(t[1..]));
      }
  }

  lemma {:induction false} ParseObjectWellFormed(s: string)
    ensures ParseObject(s).Ok? ==> WellFormed(ParseObject(s).value.0)
    decreases |s|, 3
  {
    var t := SkipWs(s);
    ParseMembersWellFormed(t);
    match ParseMembers(t)
    case Err(_) =>
    case Ok((ps, _)) => BuildDictWellFormed(ps);
  }

  lemma {:induction false} ParseMembersWellFormed(s: string)
    ensures ParseMembers(s).Ok? ==>
      forall i :: 0 <= i < |ParseMembers(s).value.0| ==> WellFormed(ParseMembers(s).value.0[i].1)
    decreases |s|, 2
  {
    if |s| > 0 && s[0] == '"' {
      match ParseString(s[1..])
      case Err(_) =>
      case Ok((k, r1)) =>
        var t := SkipWs(r1);
        if |t| > 0 && t[0] == ':' {
          ParseValueWellFormed(SkipWs(t[1..]));
          match ParseValue(SkipWs(t[1..]))
          case Err(_) =>
          case Ok((v, r2)) =>
            var u := SkipWs(r2);
            if |u| > 0 && u[0] != '}' && u[0] == ',' {
              ParseMembersWellFormed(SkipWs(u[1..]));
            }
        }
    }
  }

  /** Whatever `json.loads` returns is a value a Python program can hold. */
  lemma LoadsWellFormed(s: string)
    ensures Loads(s).Ok? ==> WellFormed(Loads(s).value)
  {
    ParseValueWellFormed(SkipWs(s));
  }

  // ---------------------------------------------------------------- the text is ASCII

  lemma HexPrintable(n: int)
    requires 0 <= n < 0x1_0000
    ensures AllPrintableAscii(UEscape(n))
  {
  }

  lemma PrintableAppend(a: string, b: string)
    requires AllPrintableAscii(a) && AllPrintableAscii(b)
    ensures AllPrintableAscii(a + b)
  {
  }

  lemma EscapeCharPrintable(c: char)
    ensures AllPrintableAscii(EscapeChar(c))
  {
    if c as int >= 0x1_0000 {
      var n := c as int - 0x1_0000;
      SurrogateEscape(c);
      HexPrintable(0xD800 + n / 0x400);
      HexPrintable(0xDC00 + n % 0x400);
      PrintableAppend(UEscape(0xD800 + n / 0x400), UEscape(0xDC00 + n % 0x400));
    } else if !IsPrintableAscii(c) && c != '\n' && c != '\r' && c != '\t' && c != 8 as char && c != 12 as char {
      BmpEscape(c);
      HexPrintable(c as int);
    }
  }

  lemma {:induction false} EscapeTextPrintable(s: string)
    ensures AllPrintableAscii(EscapeText(s))
  {
    if |s| > 0 {
      EscapeCharPrintable(s[0]);
      EscapeTextPrintable(s[1..]);
      PrintableAppend(EscapeChar(s[0]), EscapeText(s[1..]));
    }
  }

  lemma {:induction false} NatTextPrintable(n: nat)
    ensures AllPrintableAscii(NatText(n))
    decreases n
  {
    if n >= 10 {
      NatTextPrintable(n / 10);
    }
  }

  /** With ASCII separators, every character `json.dumps` writes is printable ASCII. */
  lemma {:induction false} DumpsPrintable(v: Json, seps: Separators)
    requires AllPrintableAscii(seps.item) && AllPrintableAscii(seps.key)
    ensures AllPrintableAscii(Dumps(v, seps))
    decreases v
  {
    match v
    case JNull =>
    case JBool(_) =>
    case JInt(i) => NatTextPrintable(if i < 0 then -i else i);
    case JString(str) => EscapeTextPrintable(str);
    case JArray(items) => ItemsPrintable(items, seps);
    case JObject(ms) => MembersPrintable(ms, seps);
  }

  lemma {:induction false} ItemsPrintable(items: seq<Json>, seps: Separators)
    requires AllPrintableAscii(seps.item) && AllPrintableAscii(seps.key)
    ensures AllPrintableAscii(ItemsText(items, seps))
    decreases items
  {
    if |items| > 0 {
      DumpsPrintable(items[0], seps);
      ItemsPrintable(items[1..], seps);
    }
  }

  lemma {:induction false} MembersPrintable(ms: seq<(string, Json)>, seps: Separators)
    requires AllPrintableAscii(seps.item) && AllPrintableAscii(seps.key)
    ensures AllPrintableAscii(MembersText(ms, seps))
    decreases ms
  {
    if |ms| > 0 {
      var m := ms[0];
      assert m in ms;
      assert m.1 < m;
      EscapeTextPrintable(m.0);
      DumpsPrintable(m.1, seps);
      MembersPrintable(ms[1..], seps);
    }
  }

  // ---------------------------------------------------------------- compactness

  /** No key and no string, at any depth, contains a space. */
  predicate SpaceFree(v: Json) {
    match v
    case JString(s) => ' ' !in s
    case JArray(items) => forall i :: 0 <= i < |items| ==> SpaceFree(items[i])
    case JObject(ms) => forall i :: 0 <= i < |ms| ==> ' ' !in ms[i].0 && SpaceFree(ms[i].1)
    case _ => true
  }

  predicate NoWs(s: string) {
    forall i :: 0 <= i < |s| ==> !IsWs(s[i])
  }

  lemma NoWsAppend(a: string, b: string)
    requires NoWs(a) && NoWs(b)
    ensures NoWs(a + b)
  {
  }

  lemma HexNoWs(n: int)
    requires 0 <= n < 0x1_0000
    ensures NoWs(UEscape(n))
  {
  }

  /** Only a space escapes to text holding whitespace. */
  lemma EscapeCharNoWs(c: char)
    requires c != ' '
    ensures NoWs(EscapeChar(c))
  {
    if c as int >= 0x1_0000 {
      var n := c as int - 0x1_0000;
      SurrogateEscape(c);
      HexNoWs(0xD800 + n / 0x400);
      HexNoWs(0xDC00 + n % 0x400);
      NoWsAppend(UEscape(0xD800 + n / 0x400), UEscape(0xDC00 + n % 0x400));
    } else if !IsPrintableAscii(c) && c != '\n' && c != '\r' && c != '\t' && c != 8 as char && c != 12 as char {
      BmpEscape(c);
      HexNoWs(c as int);
    }
  }

  lemma {:induction false} EscapeTextNoWs(s: string)
    requires ' ' !in s
    ensures NoWs(EscapeText(s))
  {
    if |s| > 0 {
      assert s[0] != ' ';
      assert ' ' !in s[1..];
      EscapeCharNoWs(s[0]);
      EscapeTextNoWs(s[1..]);
      NoWsAppend(EscapeChar(s[0]), EscapeText(s[1..]));
    }
  }

  /**
   * `separators=(',', ':')` adds no whitespace: the compact text of a value
   * whose strings hold no space has no whitespace at all (tabs, newlines and
   * carriage returns inside strings are always escaped).
   */
  lemma {:induction false} CompactHasNoWs(v: Json)
    requires SpaceFree(v)
    ensures NoWs(Dumps(v, Compact))
    decreases v
  {
    match v
    case JNull =>
    case JBool(_) =>
    case JInt(i) => JsonRoundTrip.NatTextDigits(if i < 0 then -i else i);
    case JString(str) => EscapeTextNoWs(str);
    case JArray(items) => CompactItemsNoWs(items);
    case JObject(ms) => CompactMembersNoWs(ms);
  }

  lemma {:induction false} CompactItemsNoWs(items: seq<Json>)
    requires forall i :: 0 <= i < |items| ==> SpaceFree(items[i])
    ensures NoWs(ItemsText(items, Compact))
    decreases items
  {
    if |items| > 0 {
      CompactHasNoWs(items[0]);
      CompactItemsNoWs(items[1..]);
    }
  }

  lemma {:induction false} CompactMembersNoWs(ms: seq<(string, Json)>)
    requires forall i :: 0 <= i < |ms| ==> ' ' !in ms[i].0 && SpaceFree(ms[i].1)
    ensures NoWs(MembersText(ms, Compact))
    decreases ms
  {
    if |ms| > 0 {
      var m := ms[0];
      assert m in ms;
      assert m.1 < m;
      EscapeTextNoWs(m.0);
      CompactHasNoWs(m.1);
      CompactMembersNoWs(ms[1..]);
    }
  }
}

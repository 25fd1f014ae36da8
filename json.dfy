/**
 * The JSON values that the structured fields hold, as Python's `json` module
 * sees them: `None`, `bool`, `int`, `str`, `list` and `dict` with string keys.
 * An object keeps its members in insertion order, as a Python `dict` does.
 */
module Json {
  import opened Wrappers

  datatype Json =
    | JNull
    | JBool(b: bool)
    | JInt(i: int)
    | JString(s: string)
    | JArray(items: seq<Json>)
    | JObject(members: seq<(string, Json)>)

  /** The keys of an object's members, in order. */
  function Keys(ms: seq<(string, Json)>): (ks: seq<string>)
    ensures |ks| == |ms|
    ensures forall i :: 0 <= i < |ms| ==> ks[i] == ms[i].0
  {
    if |ms| == 0 then [] else [ms[0].0] + Keys(ms[1..])
  }

  /** `d.get(k)`: the value of the first member whose key is `k`. */
  function Lookup(ms: seq<(string, Json)>, k: string): Option<Json> {
    if |ms| == 0 then None else if ms[0].0 == k then Some(ms[0].1) else Lookup(ms[1..], k)
  }

  /** No key occurs twice, as in every Python `dict`. */
  predicate DistinctKeys(ms: seq<(string, Json)>) {
    forall i, j :: 0 <= i < j < |ms| ==> ms[i].0 != ms[j].0
  }

  /** A value that a Python program can hold: every object, at every depth, has distinct keys. */
  predicate WellFormed(v: Json) {
    match v
    case JArray(items) => forall i :: 0 <= i < |items| ==> WellFormed(items[i])
    case JObject(ms) => DistinctKeys(ms) && forall i :: 0 <= i < |ms| ==> WellFormed(ms[i].1)
    case _ => true
  }

  /** The four characters JSON treats as insignificant whitespace. */
  predicate IsWs(c: char) {
    c == ' ' || c == '\t' || c == '\n' || c == '\r'
  }

  predicate AllWs(s: string) {
    forall i :: 0 <= i < |s| ==> IsWs(s[i])
  }

  /** Drops the leading whitespace of `s`. */
  function SkipWs(s: string): (r: string)
    ensures |r| <= |s|
    ensures r == [] || !IsWs(r[0])
  {
    if |s| > 0 && IsWs(s[0]) then SkipWs(s[1..]) else s
  }

  /** Text that does not start with whitespace is left as it is. */
  lemma SkipWsNone(s: string)
    requires s == [] || !IsWs(s[0])
    ensures SkipWs(s) == s
  {
  }

  lemma {:induction false} SkipWsLeading(w: string, s: string)
    requires AllWs(w)
    ensures SkipWs(w + s) == SkipWs(s)
  {
    if |w| > 0 {
      assert (w + s)[1..] == w[1..] + s;
      SkipWsLeading(w[1..], s);
    } else {
      assert w + s == s;
    }
  }

  lemma {:induction false} SkipWsAppend(a: string, s: string)
    requires SkipWs(a) != []
    ensures SkipWs(a + s) == SkipWs(a) + s
  {
    if |a| > 0 && IsWs(a[0]) {
      assert (a + s)[1..] == a[1..] + s;
      SkipWsAppend(a[1..], s);
    }
  }
}

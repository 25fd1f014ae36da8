/**
 * Python's `str.encode('utf-8')` and strict `bytes.decode('utf-8')` on the
 * Unicode scalar values a Dafny `char` holds.
 */
module Utf8 {
  import opened Wrappers

  type Byte = b: int | 0 <= b < 0x100

  /** The one to four bytes of a character's UTF-8 form. */
  function EncodeChar(c: char): (bs: seq<Byte>)
    ensures 1 <= |bs| <= 4
  {
    var n := c as int;
    if n < 0x80 then [n]
    else if n < 0x800 then [0xC0 + n / 64, 0x80 + n % 64]
    else if n < 0x1_0000 then [0xE0 + n / 64 / 64, 0x80 + n / 64 % 64, 0x80 + n % 64]
    else [0xF0 + n / 64 / 64 / 64, 0x80 + n / 64 / 64 % 64, 0x80 + n / 64 % 64, 0x80 + n % 64]
  }

  /** `s.encode('utf-8')`. */
  function Encode(s: string): seq<Byte> {
    if |s| == 0 then [] else EncodeChar(s[0]) + Encode(s[1..])
  }

  predicate IsContinuation(b: Byte) {
    0x80 <= b < 0xC0
  }

  /**
   * The character at the start of `bs` and the number of bytes it takes, or
   * `None` for an invalid sequence: a stray continuation byte, an overlong form,
   * an encoded surrogate, a value above U+10FFFF, or a truncated sequence.
   */
  function DecodeChar(bs: seq<Byte>): (r: Option<(char, nat)>)
    requires |bs| > 0
    ensures r.Some? ==> 1 <= r.value.1 <= |bs|
  {
    var b0: int := bs[0];
    if b0 < 0x80 then Some((b0 as char, 1))
    else if 0xC2 <= b0 < 0xE0 then
      if |bs| >= 2 && IsContinuation(bs[1]) then
        Some((((b0 - 0xC0) * 0x40 + (bs[1] as int - 0x80)) as char, 2))
      else None
    else if 0xE0 <= b0 < 0xF0 then
      var lo := if b0 == 0xE0 then 0xA0 else 0x80;
      var hi := if b0 == 0xED then 0xA0 else 0xC0;
      if |bs| >= 3 && lo <= bs[1] < hi && IsContinuation(bs[2]) then
        Some(((((b0 - 0xE0) * 0x40 + (bs[1] as int - 0x80)) * 0x40 + (bs[2] as int - 0x80)) as char, 3))
      else None
    else if 0xF0 <= b0 < 0xF5 then
      var lo := if b0 == 0xF0 then 0x90 else 0x80;
      var hi := if b0 == 0xF4 then 0x90 else 0xC0;
      if |bs| >= 4 && lo <= bs[1] < hi && IsContinuation(bs[2]) && IsContinuation(bs[3]) then
        Some((((((b0 - 0xF0) * 0x40 + (bs[1] as int - 0x80)) * 0x40 + (bs[2] as int - 0x80)) * 0x40 + (bs[3] as int - 0x80)) as char, 4))
      else None
    else None
  }

  /** `bs.decode('utf-8')` with `errors='strict'`. */
  function Decode(bs: seq<Byte>): Result<string, string>
    decreases |bs|
  {
    if |bs| == 0 then Ok("")
    else
      match DecodeChar(bs)
      case None => Err("invalid utf-8")
      case Some((c, n)) =>
        match Decode(bs[n..])
        case Err(e) => Err(e)
        case Ok(s) => Ok([c] + s)
  }

  lemma TwoBytesDecode(c: char, rest: seq<Byte>)
    requires 0x80 <= c as int < 0x800
    ensures DecodeChar(EncodeChar(c) + rest) == Some((c, 2))
  {
    var n := c as int;
    var bs := EncodeChar(c) + rest;
    assert n == n / 64 * 64 + n % 64;
    assert bs[0] == 0xC0 + n / 64 && bs[1] == 0x80 + n % 64;
  }

  lemma ThreeBytesDecode(c: char, rest: seq<Byte>)
    requires 0x800 <= c as int < 0x1_0000
    ensures DecodeChar(EncodeChar(c) + rest) == Some((c, 3))
  {
    var n := c as int;
    var m1 := n / 64;
    var m2 := m1 / 64;
    assert n == m1 * 64 + n % 64;
    assert m1 == m2 * 64 + m1 % 64;
    assert m2 < 16;
    assert m2 == 0 ==> m1 % 64 >= 0x20;
    assert m2 == 0xD ==> m1 % 64 < 0x20;
    var bs := EncodeChar(c) + rest;
    assert bs[0] == 0xE0 + m2 && bs[1] == 0x80 + m1 % 64 && bs[2] == 0x80 + n % 64;
  }

  lemma FourBytesDecode(c: char, rest: seq<Byte>)
    requires 0x1_0000 <= c as int
    ensures DecodeChar(EncodeChar(c) + rest) == Some((c, 4))
  {
    var n := c as int;
    var m1 := n / 64;
    var m2 := m1 / 64;
    var m3 := m2 / 64;
    assert n == m1 * 64 + n % 64;
    assert m1 == m2 * 64 + m1 % 64;
    assert m2 == m3 * 64 + m2 % 64;
    assert m3 <= 4;
    assert m3 == 0 ==> m2 % 64 >= 0x10;
    assert m3 == 4 ==> m2 % 64 < 0x10;
    var bs := EncodeChar(c) + rest;
    assert bs[0] == 0xF0 + m3 && bs[1] == 0x80 + m2 % 64;
    assert bs[2] == 0x80 + m1 % 64 && bs[3] == 0x80 + n % 64;
  }

  lemma EncodeCharDecodes(c: char, rest: seq<Byte>)
    ensures DecodeChar(EncodeChar(c) + rest) == Some((c, |EncodeChar(c)|))
  {
    var n := c as int;
    if n < 0x80 {
      assert (EncodeChar(c) + rest)[0] == n;
    } else if n < 0x800 {
      TwoBytesDecode(c, rest);
    } else if n < 0x1_0000 {
      ThreeBytesDecode(c, rest);
    } else {
      FourBytesDecode(c, rest);
    }
  }

  /** `s.encode('utf-8').decode('utf-8') == s`. */
  lemma {:induction false} EncodeDecode(s: string)
    ensures Decode(Encode(s)) == Ok(s)
  {
    if |s| > 0 {
      var head := EncodeChar(s[0]);
      var bs := Encode(s);
      EncodeCharDecodes(s[0], Encode(s[1..]));
      assert bs[|head|..] == Encode(s[1..]);
      EncodeDecode(s[1..]);
      assert [s[0]] + s[1..] == s;
    }
  }

  /** The UTF-8 form of an ASCII text is its character codes, byte for byte. */
  lemma {:induction false} EncodeAscii(s: string)
    requires forall i :: 0 <= i < |s| ==> s[i] as int < 0x80
    ensures |Encode(s)| == |s|
    ensures forall i :: 0 <= i < |s| ==> Encode(s)[i] == s[i] as int
  {
    if |s| > 0 {
      EncodeAscii(s[1..]);
    }
  }
}

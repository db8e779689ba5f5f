/**
 * `str.encode("utf8")`: the bytes the digests of apollo_script_master/_asm/files.py and
 * apollo_script_master/_asm/file_management.py are computed over. The decoder is the partner
 * that shows the encoding loses nothing, so distinct contents are hashed as distinct bytes.
 */
module Utf8 {
  import opened Wrappers

  newtype byte = x: int | 0 <= x < 256

  /** The one- to four-byte UTF-8 form of a Unicode scalar value. */
  function EncodeChar(c: char): (r: seq<byte>)
    ensures 1 <= |r| <= 4
    ensures |r| == 1 <==> c as int < 0x80
  {
    var n := c as int;
    if n < 0x80 then
      [n as byte]
    else if n < 0x800 then
      [(0xC0 + n / 0x40) as byte, (0x80 + n % 0x40) as byte]
    else if n < 0x1_0000 then
      [(0xE0 + n / 0x1000) as byte, (0x80 + n / 0x40 % 0x40) as byte, (0x80 + n % 0x40) as byte]
    else
      [(0xF0 + n / 0x4_0000) as byte, (0x80 + n / 0x1000 % 0x40) as byte,
       (0x80 + n / 0x40 % 0x40) as byte, (0x80 + n % 0x40) as byte]
  }

  function Encode(s: string): seq<byte> {
    if s == [] then [] else EncodeChar(s[0]) + Encode(s[1..])
  }

  /** Text made of ASCII characters encodes to one byte per character, of the same value. */
  lemma {:induction false} EncodeAscii(s: string)
    requires forall k :: 0 <= k < |s| ==> s[k] as int < 0x80
    ensures |Encode(s)| == |s|
    ensures forall k :: 0 <= k < |s| ==> Encode(s)[k] as int == s[k] as int
  {
    if s != [] {
      EncodeAscii(s[1..]);
      var e := Encode(s);
      assert e == [s[0] as int as byte] + Encode(s[1..]);
      forall k | 0 < k < |s| ensures e[k] as int == s[k] as int {
        assert e[k] == Encode(s[1..])[k - 1];
        assert s[k] == s[1..][k - 1];
      }
    }
  }

  /** `n` is a Unicode scalar value, the range of `char`. */
  predicate IsScalar(n: int) {
    0 <= n < 0xD800 || 0xE000 <= n < 0x11_0000
  }

  predicate IsContinuation(b: byte) {
    0x80 <= b < 0xC0
  }

  /** The character at the start of `bs` and the number of bytes it takes, if well formed. */
  function DecodeFirst(bs: seq<byte>): (r: Option<(char, nat)>)
    ensures r.Some? ==> 1 <= r.value.1 <= |bs|
  {
    if bs == [] then None
    else
      var b0 := bs[0] as int;
      if b0 < 0x80 then
        Some((b0 as char, 1))
      else if 0xC0 <= b0 < 0xE0 && |bs| >= 2 && IsContinuation(bs[1]) then
        var n := (b0 - 0xC0) * 0x40 + (bs[1] as int - 0x80);
        if 0x80 <= n then Some((n as char, 2)) else None
      else if 0xE0 <= b0 < 0xF0 && |bs| >= 3 && IsContinuation(bs[1]) && IsContinuation(bs[2]) then
        var n := (b0 - 0xE0) * 0x1000 + (bs[1] as int - 0x80) * 0x40 + (bs[2] as int - 0x80);
        if 0x800 <= n && IsScalar(n) then Some((n as char, 3)) else None
      else if 0xF0 <= b0 < 0xF8 && |bs| >= 4 && IsContinuation(bs[1]) && IsContinuation(bs[2]) && IsContinuation(bs[3]) then
        var n := (b0 - 0xF0) * 0x4_0000 + (bs[1] as int - 0x80) * 0x1000 + (bs[2] as int - 0x80) * 0x40 + (bs[3] as int - 0x80);
        if 0x1_0000 <= n && IsScalar(n) then Some((n as char, 4)) else None
      else
        None
  }

  /** The decoder: `None` on malformed input. */
  function Decode(bs: seq<byte>): Option<string>
    decreases |bs|
  {
    if bs == [] then Some([])
    else
      match DecodeFirst(bs)
      case None => None
      case Some((c, n)) =>
        match Decode(bs[n..])
        case None => None
        case Some(rest) => Some([c] + rest)
  }

  /** The decoder reads back exactly the character the encoder wrote, and its length. */
  lemma {:induction false} DecodeFirstOfEncodeChar(c: char, rest: seq<byte>)
    ensures DecodeFirst(EncodeChar(c) + rest) == Some((c, |EncodeChar(c)|))
  {
    var n := c as int;
    if n < 0x80 {
    } else if n < 0x800 {
      DecodeTwoBytes(c, rest);
    } else if n < 0x1_0000 {
      DecodeThreeBytes(c, rest);
    } else {
      DecodeFourBytes(c, rest);
    }
  }

  lemma {:induction false} DecodeTwoBytes(c: char, rest: seq<byte>)
    requires 0x80 <= c as int < 0x800
    ensures DecodeFirst(EncodeChar(c) + rest) == Some((c, 2))
  {
    var n := c as int;
    var bs := EncodeChar(c) + rest;
    var hi, lo := n / 0x40, n % 0x40;
    assert n == hi * 0x40 + lo;
    assert bs[0] as int == 0xC0 + hi && bs[1] as int == 0x80 + lo;
  }

  lemma {:induction false} DecodeThreeBytes(c: char, rest: seq<byte>)
    requires 0x800 <= c as int < 0x1_0000
    ensures DecodeFirst(EncodeChar(c) + rest) == Some((c, 3))
  {
    var n := c as int;
    var bs := EncodeChar(c) + rest;
    var hi, mid, lo := n / 0x1000, n / 0x40 % 0x40, n % 0x40;
    assert n == hi * 0x1000 + mid * 0x40 + lo;
    assert bs[0] as int == 0xE0 + hi && bs[1] as int == 0x80 + mid && bs[2] as int == 0x80 + lo;
  }

  lemma {:induction false} DecodeFourBytes(c: char, rest: seq<byte>)
    requires 0x1_0000 <= c as int
    ensures DecodeFirst(EncodeChar(c) + rest) == Some((c, 4))
  {
    var n := c as int;
    var bs := EncodeChar(c) + rest;
    var top, hi, mid, lo := n / 0x4_0000, n / 0x1000 % 0x40, n / 0x40 % 0x40, n % 0x40;
    FourByteDigits(n);
    assert bs[0] as int == 0xF0 + top && bs[1] as int == 0x80 + hi;
    assert bs[2] as int == 0x80 + mid && bs[3] as int == 0x80 + lo;
    assert (bs[0] as int - 0xF0) * 0x4_0000 + (bs[1] as int - 0x80) * 0x1000 + (bs[2] as int - 0x80) * 0x40 + (bs[3] as int - 0x80) == n;
  }

  /** The four six-bit groups of a code point above the Basic Multilingual Plane. */
  lemma {:induction false} FourByteDigits(n: int)
    requires 0x1_0000 <= n < 0x11_0000
    ensures n == (n / 0x4_0000) * 0x4_0000 + (n / 0x1000 % 0x40) * 0x1000 + (n / 0x40 % 0x40) * 0x40 + n % 0x40
  {
    var a := n / 0x40;
    var b := a / 0x40;
    assert n / 0x1000 == b;
    assert n / 0x4_0000 == b / 0x40;
  }

  /** Decoding an encoding gives the text back. */
  lemma {:induction false} DecodeEncode(s: string)
    ensures Decode(Encode(s)) == Some(s)
  {
    if s != [] {
      var e := EncodeChar(s[0]);
      DecodeFirstOfEncodeChar(s[0], Encode(s[1..]));
      assert Encode(s)[|e|..] == Encode(s[1..]);
      DecodeEncode(s[1..]);
      assert [s[0]] + s[1..] == s;
    }
  }

  /** So the encoding is injective: different contents never give the same bytes. */
  lemma {:induction false} EncodeInjective(s: string, t: string)
    requires Encode(s) == Encode(t)
    ensures s == t
  {
    DecodeEncode(s);
    DecodeEncode(t);
  }
}

/**
 * Strict UTF-8 decoding, as Python's `bytes.decode('utf-8')` does it:
 * a byte string either decodes completely or raises `UnicodeDecodeError`
 * (modelled as `None`). Only shortest forms, no surrogates and nothing
 * above U+10FFFF are accepted (RFC 3629, section 3).
 */
module Utf8 {
  import opened Common

  type byte = x: int | 0 <= x < 0x100

  /** A continuation byte 10xxxxxx. */
  predicate IsContinuation(x: byte) {
    0x80 <= x < 0xC0
  }

  /** The encoding of one Unicode scalar value, six bits per continuation byte. */
  function EncodeChar(c: char): (r: seq<byte>)
    ensures 1 <= |r| <= 4
  {
    var n := c as int;
    var n1 := n / 0x40;
    var n2 := n1 / 0x40;
    if n < 0x80 then [n]
    else if n < 0x800 then [0xC0 + n1, 0x80 + n % 0x40]
    else if n < 0x1_0000 then [0xE0 + n2, 0x80 + n1 % 0x40, 0x80 + n % 0x40]
    else [0xF0 + n2 / 0x40, 0x80 + n2 % 0x40, 0x80 + n1 % 0x40, 0x80 + n % 0x40]
  }

  function Encode(s: string): (r: seq<byte>)
    ensures |s| <= |r| <= 4 * |s|
  {
    if s == [] then [] else EncodeChar(s[0]) + Encode(s[1..])
  }

  /** Decodes the character at the front of `b` and says how many bytes it used. */
  function DecodeOne(b: seq<byte>): (r: Option<(char, nat)>)
    requires |b| > 0
    ensures r.Some? ==> 1 <= r.value.1 <= |b|
  {
    var b0: int := b[0];
    if b0 < 0x80 then
      Some((b0 as char, 1))
    else if 0xC2 <= b0 < 0xE0 then
      if |b| >= 2 && IsContinuation(b[1])
      then Some((Code2(b0, b[1]) as char, 2))
      else None
    else if 0xE0 <= b0 < 0xF0 then
      var lo := if b0 == 0xE0 then 0xA0 else 0x80;
      var hi := if b0 == 0xED then 0xA0 else 0xC0;
      if |b| >= 3 && lo <= b[1] < hi && IsContinuation(b[2])
      then Some((Code3(b0, b[1], b[2]) as char, 3))
      else None
    else if 0xF0 <= b0 < 0xF5 then
      var lo := if b0 == 0xF0 then 0x90 else 0x80;
      var hi := if b0 == 0xF4 then 0x90 else 0xC0;
      if |b| >= 4 && lo <= b[1] < hi && IsContinuation(b[2]) && IsContinuation(b[3])
      then Some((Code4(b0, b[1], b[2], b[3]) as char, 4))
      else None
    else
      None
  }

  /** The code point carried by a two-, three- or four-byte sequence. */
  function Code2(b0: int, b1: int): int {
    (b0 - 0xC0) * 0x40 + (b1 - 0x80)
  }

  function Code3(b0: int, b1: int, b2: int): int {
    (b0 - 0xE0) * 0x1000 + (b1 - 0x80) * 0x40 + (b2 - 0x80)
  }

  function Code4(b0: int, b1: int, b2: int, b3: int): int {
    (b0 - 0xF0) * 0x4_0000 + (b1 - 0x80) * 0x1000 + (b2 - 0x80) * 0x40 + (b3 - 0x80)
  }

  /** `bytes.decode('utf-8')`: `None` when `b` is not well-formed UTF-8. */
  function Decode(b: seq<byte>): (r: Option<string>)
    decreases |b|
  {
    if b == [] then Some("")
    else match DecodeOne(b)
      case None => None
      case Some((c, n)) =>
        match Decode(b[n..])
        case None => None
        case Some(rest) => Some([c] + rest)
  }

  lemma DecodeOneEncodeChar(c: char, rest: seq<byte>)
    ensures DecodeOne(EncodeChar(c) + rest) == Some((c, |EncodeChar(c)|))
  {
    var n := c as int;
    var n1, n2 := n / 0x40, n / 0x40 / 0x40;
    assert n == n1 * 0x40 + n % 0x40;
    assert n1 == n2 * 0x40 + n1 % 0x40;
    assert n2 == n2 / 0x40 * 0x40 + n2 % 0x40;
    var b := EncodeChar(c) + rest;
    if n < 0x80 {
    } else if n < 0x800 {
      assert Code2(b[0], b[1]) == n;
    } else if n < 0x1_0000 {
      assert Code3(b[0], b[1], b[2]) == n;
    } else {
      assert Code4(b[0], b[1], b[2], b[3]) == n;
    }
  }

  lemma EncodeCharDecodeOne(b: seq<byte>)
    requires |b| > 0 && DecodeOne(b).Some?
    ensures EncodeChar(DecodeOne(b).value.0) == b[..DecodeOne(b).value.1]
  {
    var (c, k) := DecodeOne(b).value;
    var n := c as int;
    var x0: int, x1: int, x2: int, x3: int := b[0], if k > 1 then b[1] else 0, if k > 2 then b[2] else 0, if k > 3 then b[3] else 0;
    if k == 2 {
      assert n == Code2(b[0], b[1]);
      assert n / 0x40 == x0 - 0xC0 && n % 0x40 == x1 - 0x80;
    } else if k == 3 {
      assert n == Code3(b[0], b[1], b[2]);
      assert n / 0x40 == (x0 - 0xE0) * 0x40 + (x1 - 0x80) && n % 0x40 == x2 - 0x80;
    } else if k == 4 {
      assert n == Code4(b[0], b[1], b[2], b[3]);
      assert n / 0x40 == (x0 - 0xF0) * 0x1000 + (x1 - 0x80) * 0x40 + (x2 - 0x80) && n % 0x40 == x3 - 0x80;
      assert n / 0x40 / 0x40 == (x0 - 0xF0) * 0x40 + (x1 - 0x80);
    }
  }

  /** Decoding undoes encoding: every string survives the round trip. */
  lemma {:induction false} DecodeEncode(s: string)
    ensures Decode(Encode(s)) == Some(s)
  {
    if s != [] {
      var e := EncodeChar(s[0]);
      var b := Encode(s);
      assert b == e + Encode(s[1..]);
      DecodeOneEncodeChar(s[0], Encode(s[1..]));
      assert b[|e|..] == Encode(s[1..]);
      DecodeEncode(s[1..]);
      assert [s[0]] + s[1..] == s;
    }
  }

  /** Encoding undoes decoding: the decoder accepts only canonical encodings. */
  lemma {:induction false} EncodeDecode(b: seq<byte>)
    requires Decode(b).Some?
    ensures Encode(Decode(b).value) == b
  {
    if b != [] {
      var (c, n) := DecodeOne(b).value;
      EncodeCharDecodeOne(b);
      EncodeDecode(b[n..]);
      assert b == b[..n] + b[n..];
    }
  }

  /** Distinct byte strings never decode to the same text. */
  lemma DecodeInjective(b1: seq<byte>, b2: seq<byte>)
    requires Decode(b1).Some? && Decode(b1) == Decode(b2)
    ensures b1 == b2
  {
    EncodeDecode(b1);
    EncodeDecode(b2);
  }
}

/**
 * UTF-8 encoding of Swift strings: `string.data(using: .utf8)`, the payload of the
 * `Data.append(String)` extension. A `char` here is a Unicode scalar value, which is
 * exactly what a Swift `String` is made of, so the encoding never fails.
 */
module Utf8 {
  import opened Wrappers

  type Byte = b: int | 0 <= b < 256

  /** The UTF-8 encoding of one scalar value (1 to 4 bytes, shortest form). */
  function EncodeScalar(c: char): (r: seq<Byte>)
    ensures 1 <= |r| <= 4
    ensures |r| == 1 <==> (c as int) < 0x80
  {
    var n := c as int;
    if n < 0x80 then [n]
    else if n < 0x800 then [0xC0 + n / 64, 0x80 + n % 64]
    else if n < 0x10000 then [0xE0 + n / 4096, 0x80 + (n / 64) % 64, 0x80 + n % 64]
    else [0xF0 + n / 262144, 0x80 + (n / 4096) % 64, 0x80 + (n / 64) % 64, 0x80 + n % 64]
  }

  /** The UTF-8 encoding of a string: its scalars' encodings, in order. */
  function Encode(s: string): (r: seq<Byte>)
    ensures |s| <= |r| <= 4 * |s|
  {
    if s == [] then [] else EncodeScalar(s[0]) + Encode(s[1..])
  }

  predicate IsContinuation(b: Byte) {
    0x80 <= b < 0xC0
  }

  predicate IsScalarValue(n: int) {
    0 <= n < 0xD800 || 0xE000 <= n < 0x110000
  }

  /**
   * Decodes the scalar at the head of `b`: the scalar and the number of bytes it used,
   * or None for a malformed, overlong, surrogate or out-of-range sequence.
   */
  function DecodeScalar(b: seq<Byte>): (r: Option<(char, nat)>)
    requires |b| > 0
    ensures r.Some? ==> 1 <= r.value.1 <= |b|
  {
    var b0: int := b[0];
    if b0 < 0x80 then Some((b0 as char, 1))
    else if 0xC0 <= b0 < 0xE0 then
      if |b| < 2 || !IsContinuation(b[1]) then None
      else
        var n := (b0 - 0xC0) * 64 + (b[1] as int - 0x80);
        if 0x80 <= n && IsScalarValue(n) then Some((n as char, 2)) else None
    else if 0xE0 <= b0 < 0xF0 then
      if |b| < 3 || !IsContinuation(b[1]) || !IsContinuation(b[2]) then None
      else
        var n := (b0 - 0xE0) * 4096 + (b[1] as int - 0x80) * 64 + (b[2] as int - 0x80);
        if 0x800 <= n && IsScalarValue(n) then Some((n as char, 3)) else None
    else if 0xF0 <= b0 < 0xF8 then
      if |b| < 4 || !IsContinuation(b[1]) || !IsContinuation(b[2]) || !IsContinuation(b[3]) then None
      else
        var n := (b0 - 0xF0) * 262144 + (b[1] as int - 0x80) * 4096 + (b[2] as int - 0x80) * 64 + (b[3] as int - 0x80);
        if 0x10000 <= n && IsScalarValue(n) then Some((n as char, 4)) else None
    else None
  }

  /** Decodes a whole byte sequence, or None if any part of it is not well-formed UTF-8. */
  function Decode(b: seq<Byte>): (r: Option<string>)
    decreases |b|
  {
    if b == [] then Some([])
    else match DecodeScalar(b)
      case None => None
      case Some((c, k)) =>
        match Decode(b[k..])
        case None => None
        case Some(rest) => Some([c] + rest)
  }

  /** Encoding distributes over concatenation: appending `a` then `b` appends the bytes of `a + b`. */
  lemma {:induction false} EncodeAppend(a: string, b: string)
    ensures Encode(a + b) == Encode(a) + Encode(b)
  {
    if a == [] {
      assert a + b == b;
    } else {
      assert (a + b)[0] == a[0];
      assert (a + b)[1..] == a[1..] + b;
      EncodeAppend(a[1..], b);
    }
  }

  /** The head scalar of any encoded string decodes back, whatever follows it. */
  lemma DecodeEncodeScalar(c: char, rest: seq<Byte>)
    ensures DecodeScalar(EncodeScalar(c) + rest) == Some((c, |EncodeScalar(c)|))
  {
    var n := c as int;
    if n < 0x80 {
    } else if n < 0x800 {
      DecodeTwoBytes(c, rest);
    } else if n < 0x10000 {
      DecodeThreeBytes(c, rest);
    } else {
      DecodeFourBytes(c, rest);
    }
  }

  /** A scalar in 0x80 to 0x7FF: a lead byte 110xxxxx and one continuation byte. */
  lemma DecodeTwoBytes(c: char, rest: seq<Byte>)
    requires 0x80 <= c as int < 0x800
    ensures DecodeScalar(EncodeScalar(c) + rest) == Some((c, 2))
  {
    var n := c as int;
    var b := EncodeScalar(c) + rest;
    assert b[0] == 0xC0 + n / 64 && b[1] == 0x80 + n % 64;
    assert (n / 64) * 64 + n % 64 == n;
  }

  /** A scalar in 0x800 to 0xFFFF: a lead byte 1110xxxx and two continuation bytes. */
  lemma DecodeThreeBytes(c: char, rest: seq<Byte>)
    requires 0x800 <= c as int < 0x10000
    ensures DecodeScalar(EncodeScalar(c) + rest) == Some((c, 3))
  {
    var n := c as int;
    var b := EncodeScalar(c) + rest;
    assert b[0] == 0xE0 + n / 4096 && b[1] == 0x80 + (n / 64) % 64 && b[2] == 0x80 + n % 64;
    ThreeDigits(n);
  }

  /** A scalar from 0x10000 on: a lead byte 11110xxx and three continuation bytes. */
  lemma DecodeFourBytes(c: char, rest: seq<Byte>)
    requires 0x10000 <= c as int
    ensures DecodeScalar(EncodeScalar(c) + rest) == Some((c, 4))
  {
    var n := c as int;
    var b := EncodeScalar(c) + rest;
    assert b[0] == 0xF0 + n / 262144 && b[1] == 0x80 + (n / 4096) % 64;
    assert b[2] == 0x80 + (n / 64) % 64 && b[3] == 0x80 + n % 64;
    FourDigits(n);
  }

  /** `n` written with three base-64 digits. */
  lemma ThreeDigits(n: nat)
    ensures (n / 4096) * 4096 + ((n / 64) % 64) * 64 + n % 64 == n
  {
    assert n / 4096 == (n / 64) / 64;
  }

  /** `n` written with four base-64 digits. */
  lemma FourDigits(n: nat)
    ensures (n / 262144) * 262144 + ((n / 4096) % 64) * 4096 + ((n / 64) % 64) * 64 + n % 64 == n
  {
    assert n / 262144 == (n / 4096) / 64;
    ThreeDigits(n);
  }

  /** Round trip: decoding the UTF-8 encoding of a string gives the string back. */
  lemma {:induction false} DecodeEncode(s: string)
    ensures Decode(Encode(s)) == Some(s)
  {
    if s != [] {
      var e := EncodeScalar(s[0]);
      var tail := Encode(s[1..]);
      DecodeEncodeScalar(s[0], tail);
      assert (e + tail)[|e|..] == tail;
      DecodeEncode(s[1..]);
      assert [s[0]] + s[1..] == s;
    }
  }

  /** Encoding is injective: distinct strings never share a byte encoding. */
  lemma EncodeInjective(a: string, b: string)
    requires Encode(a) == Encode(b)
    ensures a == b
  {
    DecodeEncode(a);
    DecodeEncode(b);
  }

  /** A string of ASCII characters is encoded one byte per character, as its code. */
  lemma {:induction false} EncodeAscii(s: string)
    requires forall i :: 0 <= i < |s| ==> (s[i] as int) < 0x80
    ensures |Encode(s)| == |s|
    ensures forall i :: 0 <= i < |s| ==> Encode(s)[i] == s[i] as int
  {
    if s != [] {
      EncodeAscii(s[1..]);
    }
  }

  /**
   * `Data.append(_ string: String)`: appends the UTF-8 bytes of `s`. The `if let` of the
   * extension never takes its empty branch, because every Swift string encodes.
   */
  method Append(data: seq<Byte>, s: string) returns (r: seq<Byte>)
    ensures r == data + Encode(s)
  {
    r := data + Encode(s);
  }
}

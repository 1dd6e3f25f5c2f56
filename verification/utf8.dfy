/** UTF-8 (RFC 3629): the encoding `String.getBytes(UTF_8)` applies to the Basic credentials
    text before base 64, and the strict decoder that reads them back. A Dafny `char` is a Unicode
    scalar value, so every string is encodable. */
module Utf8 {
  import opened Wrappers
  import opened Octets

  /** The one to four octets of one scalar value. */
  function EncodeChar(c: char): (b: Bytes)
    ensures 1 <= |b| <= 4
  {
    var n := c as int;
    if n < 0x80 then [n]
    else if n < 0x800 then [0xC0 + n / 64, 0x80 + n % 64]
    else if n < 0x1_0000 then [0xE0 + n / 4096, 0x80 + n / 64 % 64, 0x80 + n % 64]
    else [0xF0 + n / 262144, 0x80 + n / 4096 % 64, 0x80 + n / 64 % 64, 0x80 + n % 64]
  }

  function Encode(s: string): Bytes {
    if |s| == 0 then [] else EncodeChar(s[0]) + Encode(s[1..])
  }

  predicate IsContinuation(b: Byte) {
    0x80 <= b < 0xC0
  }

  /** The first scalar value of `b` and the number of octets it takes; None for a malformed,
      overlong, surrogate or out-of-range sequence. */
  function DecodeFirst(b: Bytes): (r: Option<(char, nat)>)
    ensures r.Some? ==> 1 <= r.value.1 <= |b|
  {
    if |b| == 0 then None
    else if b[0] < 0x80 then Some((b[0] as char, 1))
    else if 0xC2 <= b[0] < 0xE0 then
      if |b| >= 2 && IsContinuation(b[1])
      then Some((((b[0] as int - 0xC0) * 64 + (b[1] as int - 0x80)) as char, 2))
      else None
    else if 0xE0 <= b[0] < 0xF0 then
      if |b| >= 3 && IsContinuation(b[1]) && IsContinuation(b[2]) then
        var n := (b[0] as int - 0xE0) * 4096 + (b[1] as int - 0x80) * 64 + (b[2] as int - 0x80);
        if n < 0x800 || 0xD800 <= n < 0xE000 then None else Some((n as char, 3))
      else None
    else if 0xF0 <= b[0] < 0xF5 then
      if |b| >= 4 && IsContinuation(b[1]) && IsContinuation(b[2]) && IsContinuation(b[3]) then
        var n := (b[0] as int - 0xF0) * 262144 + (b[1] as int - 0x80) * 4096 + (b[2] as int - 0x80) * 64 + (b[3] as int - 0x80);
        if n < 0x1_0000 || n > 0x10_FFFF then None else Some((n as char, 4))
      else None
    else None
  }

  /** Strict decoding of a whole octet string. */
  function Decode(b: Bytes): Option<string>
    decreases |b|
  {
    if |b| == 0 then Some("")
    else
      var (c, k) :- DecodeFirst(b);
      var rest :- Decode(b[k..]);
      Some([c] + rest)
  }

  lemma DecodeFirstOfTwo(n: int, rest: Bytes)
    requires 0x80 <= n < 0x800
    ensures DecodeFirst([0xC0 + n / 64, 0x80 + n % 64] + rest) == Some((n as char, 2))
  {
  }

  lemma DecodeFirstOfThree(n: int, rest: Bytes)
    requires 0x800 <= n < 0x1_0000 && !(0xD800 <= n < 0xE000)
    ensures DecodeFirst([0xE0 + n / 4096, 0x80 + n / 64 % 64, 0x80 + n % 64] + rest) == Some((n as char, 3))
  {
    assert n / 64 == (n / 4096) * 64 + n / 64 % 64;
    assert n == (n / 64) * 64 + n % 64;
  }

  lemma DecodeFirstOfFour(n: int, rest: Bytes)
    requires 0x1_0000 <= n <= 0x10_FFFF
    ensures DecodeFirst([0xF0 + n / 262144, 0x80 + n / 4096 % 64, 0x80 + n / 64 % 64, 0x80 + n % 64] + rest)
         == Some((n as char, 4))
  {
    assert n / 4096 == (n / 262144) * 64 + n / 4096 % 64;
    assert n / 64 == (n / 4096) * 64 + n / 64 % 64;
    assert n == (n / 64) * 64 + n % 64;
  }

  /** The decoder reads back exactly the scalar value the encoder wrote, and consumes exactly
      its octets. */
  lemma DecodeFirstOfEncodeChar(c: char, rest: Bytes)
    ensures DecodeFirst(EncodeChar(c) + rest) == Some((c, |EncodeChar(c)|))
  {
    var n := c as int;
    if n < 0x80 {
    } else if n < 0x800 {
      DecodeFirstOfTwo(n, rest);
    } else if n < 0x1_0000 {
      DecodeFirstOfThree(n, rest);
    } else {
      DecodeFirstOfFour(n, rest);
    }
  }

  /** Decoding an encoding gives back the text, whatever it is. */
  lemma {:induction false} DecodeEncode(s: string)
    ensures Decode(Encode(s)) == Some(s)
    decreases |s|
  {
    if |s| > 0 {
      var e := EncodeChar(s[0]);
      DecodeFirstOfEncodeChar(s[0], Encode(s[1..]));
      assert (e + Encode(s[1..]))[|e|..] == Encode(s[1..]);
      DecodeEncode(s[1..]);
      assert s == [s[0]] + s[1..];
    }
  }

  /** Seven-bit text is encoded octet for octet. */
  lemma {:induction false} EncodeAscii(s: string)
    requires forall i :: 0 <= i < |s| ==> s[i] < '\U{0080}'
    ensures |Encode(s)| == |s|
    ensures forall i :: 0 <= i < |s| ==> Encode(s)[i] == s[i] as int
    decreases |s|
  {
    if |s| > 0 {
      EncodeAscii(s[1..]);
    }
  }
}

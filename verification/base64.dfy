/** Base 64 encoding (section 4 of RFC 4648): the standard alphabet A-Z a-z 0-9 + /, three
    octets to four characters, a final partial group padded with "=". The decoder is the lenient
    one of Guava's `BaseEncoding.base64()`: trailing padding characters are stripped first, a
    remaining length of 1 modulo 4 is refused, any character outside the alphabet is refused, and
    the unused low bits of a final partial group are ignored. */
module Base64 {
  import opened Wrappers
  import opened Octets

  type Sextet = v: nat | v < 64

  const Pad: char := '='

  /** The character of the alphabet standing for a six-bit value. */
  function SextetChar(v: Sextet): (c: char)
    ensures c != Pad
  {
    if v < 26 then ('A' as int + v) as char
    else if v < 52 then ('a' as int + (v - 26)) as char
    else if v < 62 then ('0' as int + (v - 52)) as char
    else if v == 62 then '+'
    else '/'
  }

  /** The six-bit value of an alphabet character; None for anything else, padding included. */
  function CharSextet(c: char): (r: Option<Sextet>)
    ensures r.Some? ==> SextetChar(r.value) == c
  {
    if 'A' <= c <= 'Z' then Some(c as int - 'A' as int)
    else if 'a' <= c <= 'z' then Some(c as int - 'a' as int + 26)
    else if '0' <= c <= '9' then Some(c as int - '0' as int + 52)
    else if c == '+' then Some(62)
    else if c == '/' then Some(63)
    else None
  }

  lemma CharSextetOfSextetChar(v: Sextet)
    ensures CharSextet(SextetChar(v)) == Some(v)
  {
  }

  predicate InAlphabet(c: char) {
    CharSextet(c).Some?
  }

  // ---------------------------------------------------------------------------
  // One group
  // ---------------------------------------------------------------------------

  /** Four characters for three octets. */
  function EncodeTriple(x: Byte, y: Byte, z: Byte): string {
    [SextetChar(x / 4), SextetChar((x % 4) * 16 + y / 16),
     SextetChar((y % 16) * 4 + z / 64), SextetChar(z % 64)]
  }

  /** Three characters for a final pair of octets (padding comes separately). */
  function EncodePair(x: Byte, y: Byte): string {
    [SextetChar(x / 4), SextetChar((x % 4) * 16 + y / 16), SextetChar((y % 16) * 4)]
  }

  /** Two characters for a final single octet. */
  function EncodeSingle(x: Byte): string {
    [SextetChar(x / 4), SextetChar((x % 4) * 16)]
  }

  function DecodeQuad(a: Sextet, b: Sextet, c: Sextet, d: Sextet): Bytes {
    [a * 4 + b / 16, (b % 16) * 16 + c / 4, (c % 4) * 64 + d]
  }

  function DecodeTrio(a: Sextet, b: Sextet, c: Sextet): Bytes {
    [a * 4 + b / 16, (b % 16) * 16 + c / 4]
  }

  function DecodeDuo(a: Sextet, b: Sextet): Bytes {
    [a * 4 + b / 16]
  }

  lemma QuadOfTriple(x: Byte, y: Byte, z: Byte)
    ensures DecodeQuad(x / 4, (x % 4) * 16 + y / 16, (y % 16) * 4 + z / 64, z % 64) == [x, y, z]
  {
    assert ((x % 4) * 16 + y / 16) / 16 == x % 4;
    assert ((x % 4) * 16 + y / 16) % 16 == y / 16;
    assert ((y % 16) * 4 + z / 64) / 4 == y % 16;
    assert ((y % 16) * 4 + z / 64) % 4 == z / 64;
  }

  lemma TrioOfPair(x: Byte, y: Byte)
    ensures DecodeTrio(x / 4, (x % 4) * 16 + y / 16, (y % 16) * 4) == [x, y]
  {
    assert ((x % 4) * 16 + y / 16) / 16 == x % 4;
    assert ((x % 4) * 16 + y / 16) % 16 == y / 16;
    assert ((y % 16) * 4) / 4 == y % 16;
  }

  lemma DuoOfSingle(x: Byte)
    ensures DecodeDuo(x / 4, (x % 4) * 16) == [x]
  {
    assert ((x % 4) * 16) / 16 == x % 4;
  }

  // ---------------------------------------------------------------------------
  // Encoding
  // ---------------------------------------------------------------------------

  /** The encoding without its padding characters. */
  function EncodeUnpadded(b: Bytes): (s: string)
    ensures |s| == 4 * (|b| / 3) + (if |b| % 3 == 0 then 0 else |b| % 3 + 1)
    ensures forall i :: 0 <= i < |s| ==> InAlphabet(s[i])
    decreases |b|
  {
    if |b| == 0 then ""
    else if |b| == 1 then EncodeSingle(b[0])
    else if |b| == 2 then EncodePair(b[0], b[1])
    else
      var s := EncodeTriple(b[0], b[1], b[2]) + EncodeUnpadded(b[3..]);
      assert forall i :: 0 <= i < 4 ==> InAlphabet(s[i]);
      s
  }

  /** The padding that completes the last group to four characters. */
  function Padding(n: nat): (p: string)
    ensures |p| == (if n % 3 == 0 then 0 else 3 - n % 3)
    ensures forall i :: 0 <= i < |p| ==> p[i] == Pad
  {
    if n % 3 == 1 then "==" else if n % 3 == 2 then "=" else ""
  }

  /** `BaseEncoding.base64().encode(b)`. */
  function Encode(b: Bytes): (s: string)
    ensures |s| == 4 * (|b| / 3) + (if |b| % 3 == 0 then 0 else 4)
  {
    EncodeUnpadded(b) + Padding(|b|)
  }

  // ---------------------------------------------------------------------------
  // Decoding
  // ---------------------------------------------------------------------------

  /** Drops every padding character at the end. */
  function TrimPadding(s: string): (t: string)
    ensures |t| <= |s| && t == s[..|t|]
    ensures |t| > 0 ==> t[|t| - 1] != Pad
  {
    if |s| > 0 && s[|s| - 1] == Pad then TrimPadding(s[..|s| - 1]) else s
  }

  /** Decodes an unpadded character string group by group. */
  function DecodeUnpadded(t: string): (r: Option<Bytes>)
    ensures r.Some? ==> |r.value| == 3 * (|t| / 4) + (if |t| % 4 == 0 then 0 else |t| % 4 - 1)
    decreases |t|
  {
    if |t| == 0 then Some([])
    else if |t| == 1 then None
    else
      var a :- CharSextet(t[0]);
      var b :- CharSextet(t[1]);
      if |t| == 2 then Some(DecodeDuo(a, b))
      else
        var c :- CharSextet(t[2]);
        if |t| == 3 then Some(DecodeTrio(a, b, c))
        else
          var d :- CharSextet(t[3]);
          var rest :- DecodeUnpadded(t[4..]);
          Some(DecodeQuad(a, b, c, d) + rest)
  }

  /** `BaseEncoding.base64().decode(s)`; None where Guava throws. Guava accepts exactly the texts
      whose padding-trimmed form is made of alphabet characters and is not 1 longer than a
      multiple of four. */
  function Decode(s: string): (r: Option<Bytes>)
    ensures r.Some? <==> |TrimPadding(s)| % 4 != 1
                         && forall i :: 0 <= i < |TrimPadding(s)| ==> InAlphabet(TrimPadding(s)[i])
  {
    var t := TrimPadding(s);
    if |t| % 4 == 1 then None
    else
      var r := DecodeUnpadded(t);
      assert r.Some? <==> forall i :: 0 <= i < |t| ==> InAlphabet(t[i]) by {
        if r.Some? {
          DecodeUnpaddedOnlyAlphabet(t);
        }
        if forall i :: 0 <= i < |t| ==> InAlphabet(t[i]) {
          DecodeUnpaddedAccepts(t);
        }
      }
      r
  }

  /** Every alphabet text whose length is not 1 modulo 4 decodes. */
  lemma {:induction false} DecodeUnpaddedAccepts(t: string)
    requires |t| % 4 != 1
    requires forall i :: 0 <= i < |t| ==> InAlphabet(t[i])
    ensures DecodeUnpadded(t).Some?
    decreases |t|
  {
    if |t| >= 4 {
      assert forall i :: 0 <= i < |t| - 4 ==> t[4..][i] == t[i + 4];
      DecodeUnpaddedAccepts(t[4..]);
    }
  }

  lemma {:induction false} DecodeUnpaddedOnlyAlphabet(t: string)
    requires DecodeUnpadded(t).Some?
    ensures forall i :: 0 <= i < |t| ==> InAlphabet(t[i])
    decreases |t|
  {
    if |t| > 4 {
      DecodeUnpaddedOnlyAlphabet(t[4..]);
      assert forall i :: 4 <= i < |t| ==> t[i] == t[4..][i - 4];
    }
  }

  // ---------------------------------------------------------------------------
  // Round trip
  // ---------------------------------------------------------------------------

  lemma DecodeEncodeSingle(x: Byte)
    ensures DecodeUnpadded(EncodeSingle(x)) == Some([x])
  {
    DuoOfSingle(x);
    CharSextetOfSextetChar(x / 4);
    CharSextetOfSextetChar((x % 4) * 16);
  }

  lemma DecodeEncodePair(x: Byte, y: Byte)
    ensures DecodeUnpadded(EncodePair(x, y)) == Some([x, y])
  {
    TrioOfPair(x, y);
    CharSextetOfSextetChar(x / 4);
    CharSextetOfSextetChar((x % 4) * 16 + y / 16);
    CharSextetOfSextetChar((y % 16) * 4);
  }

  /** A final partial group of one or two octets comes back. */
  lemma DecodeEncodeShort(b: Bytes)
    requires 0 < |b| < 3
    ensures DecodeUnpadded(EncodeUnpadded(b)) == Some(b)
  {
    if |b| == 1 {
      DecodeEncodeSingle(b[0]);
      assert b == [b[0]];
    } else {
      DecodeEncodePair(b[0], b[1]);
      assert b == [b[0], b[1]];
    }
  }

  lemma DecodeEncodeTripleThen(x: Byte, y: Byte, z: Byte, rest: string)
    ensures DecodeUnpadded(rest).Some? ==>
      DecodeUnpadded(EncodeTriple(x, y, z) + rest) == Some([x, y, z] + DecodeUnpadded(rest).value)
    ensures DecodeUnpadded(rest).None? ==> DecodeUnpadded(EncodeTriple(x, y, z) + rest).None?
  {
    QuadOfTriple(x, y, z);
    DecodeGroupThen(x / 4, (x % 4) * 16 + y / 16, (y % 16) * 4 + z / 64, z % 64, rest);
  }

  /** Four alphabet characters decode to their group, ahead of whatever follows. */
  lemma DecodeGroupThen(a: Sextet, b: Sextet, c: Sextet, d: Sextet, rest: string)
    ensures var s := [SextetChar(a), SextetChar(b), SextetChar(c), SextetChar(d)] + rest;
      DecodeUnpadded(s) ==
        if DecodeUnpadded(rest).Some? then Some(DecodeQuad(a, b, c, d) + DecodeUnpadded(rest).value) else None
  {
    var s := [SextetChar(a), SextetChar(b), SextetChar(c), SextetChar(d)] + rest;
    CharSextetOfSextetChar(a);
    CharSextetOfSextetChar(b);
    CharSextetOfSextetChar(c);
    CharSextetOfSextetChar(d);
    assert s[0] == SextetChar(a) && s[1] == SextetChar(b) && s[2] == SextetChar(c) && s[3] == SextetChar(d);
    assert s[4..] == rest;
  }

  lemma {:induction false} DecodeEncodeUnpadded(b: Bytes)
    ensures DecodeUnpadded(EncodeUnpadded(b)) == Some(b)
    decreases |b|
  {
    if 0 < |b| < 3 {
      DecodeEncodeShort(b);
    } else if |b| >= 3 {
      DecodeEncodeUnpadded(b[3..]);
      FirstThree(b);
      DecodeEncodeGroupThen(b[0], b[1], b[2], b[3..]);
    }
  }

  lemma FirstThree(b: Bytes)
    requires |b| >= 3
    ensures b == [b[0], b[1], b[2]] + b[3..]
  {
  }

  /** A leading group of three octets comes back ahead of whatever the rest decodes to. */
  lemma DecodeEncodeGroupThen(x: Byte, y: Byte, z: Byte, tail: Bytes)
    requires DecodeUnpadded(EncodeUnpadded(tail)) == Some(tail)
    ensures DecodeUnpadded(EncodeUnpadded([x, y, z] + tail)) == Some([x, y, z] + tail)
  {
    EncodeUnpaddedGroup(x, y, z, tail);
    DecodeEncodeTripleThen(x, y, z, EncodeUnpadded(tail));
  }

  lemma EncodeUnpaddedGroup(x: Byte, y: Byte, z: Byte, tail: Bytes)
    ensures EncodeUnpadded([x, y, z] + tail) == EncodeTriple(x, y, z) + EncodeUnpadded(tail)
  {
    var b := [x, y, z] + tail;
    assert b[0] == x && b[1] == y && b[2] == z && b[3..] == tail;
  }

  lemma {:induction false} TrimPaddingOfPadded(u: string, p: string)
    requires |u| == 0 || u[|u| - 1] != Pad
    requires forall i :: 0 <= i < |p| ==> p[i] == Pad
    ensures TrimPadding(u + p) == u
    decreases |p|
  {
    if |p| == 0 {
      assert u + p == u;
    } else {
      assert (u + p)[..|u + p| - 1] == u + p[..|p| - 1];
      TrimPaddingOfPadded(u, p[..|p| - 1]);
    }
  }

  /** Decoding an encoding gives back the octets, whatever they are. */
  lemma DecodeEncode(b: Bytes)
    ensures Decode(Encode(b)) == Some(b)
  {
    var u := EncodeUnpadded(b);
    assert |u| > 0 ==> InAlphabet(u[|u| - 1]);
    TrimPaddingOfPadded(u, Padding(|b|));
    assert |u| % 4 != 1 by {
      assert |u| % 4 == (if |b| % 3 == 0 then 0 else |b| % 3 + 1);
    }
    DecodeEncodeUnpadded(b);
  }

  /** Every character of an encoding is an alphabet character or padding, and padding only
      occurs as the last one or two characters. */
  lemma EncodeShape(b: Bytes)
    ensures forall i :: 0 <= i < |EncodeUnpadded(b)| ==> Encode(b)[i] != Pad && InAlphabet(Encode(b)[i])
    ensures forall i :: |EncodeUnpadded(b)| <= i < |Encode(b)| ==> Encode(b)[i] == Pad
    ensures |Encode(b)| - |EncodeUnpadded(b)| <= 2
  {
  }
}

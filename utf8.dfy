/**
 * UTF-8, as String.getBytes(UTF_8) uses it: every character becomes one to
 * four bytes. The decoder agrees with new String(bytes, UTF_8) on
 * well-formed bytes. On ill-formed bytes it replaces each byte that does
 * not start a well-formed sequence by its own U+FFFD, where the JDK may
 * replace a longer ill-formed run (an encoded surrogate, a truncated
 * sequence at the end) by a single U+FFFD; either way a character takes at
 * least one byte.
 */
module Utf8 {
  import opened Bytes

  const REPLACEMENT: char := 0xFFFD as char

  /** A continuation byte carrying the six bits `v`. */
  function Cont(v: int): int8
    requires 0 <= v < 64
  {
    Signed(0x80 + v)
  }

  function EncodeChar(c: char): (bs: seq<int8>)
    ensures 1 <= |bs| <= 4
  {
    var v := c as int;
    if v < 0x80 then [Signed(v)]
    else if v < 0x800 then [Signed(0xC0 + v / 64), Cont(v % 64)]
    else if v < 0x10000 then [Signed(0xE0 + v / 4096), Cont(v / 64 % 64), Cont(v % 64)]
    else [Signed(0xF0 + v / 262144), Cont(v / 4096 % 64), Cont(v / 64 % 64), Cont(v % 64)]
  }

  /** String.getBytes(UTF_8). */
  function Encode(s: string): (bs: seq<int8>)
    ensures |bs| >= |s|
  {
    if s == [] then [] else EncodeChar(s[0]) + Encode(s[1..])
  }

  predicate IsCont(bs: seq<int8>, i: nat)
  {
    i < |bs| && 0x80 <= Unsigned(bs[i]) < 0xC0
  }

  function Bits(b: int8): int
  {
    Unsigned(b) % 64
  }

  /**
   * The first character of `bs` and how many bytes it takes; an ill-formed
   * start decodes to U+FFFD and takes one byte.
   */
  function DecodeChar(bs: seq<int8>): (r: (char, nat))
    requires bs != []
    ensures 1 <= r.1 <= |bs|
  {
    var b0 := Unsigned(bs[0]);
    if b0 < 0x80 then (b0 as char, 1)
    else if 0xC2 <= b0 < 0xE0 && IsCont(bs, 1) then
      (((b0 - 0xC0) * 64 + Bits(bs[1])) as char, 2)
    else if 0xE0 <= b0 < 0xF0 && IsCont(bs, 1) && IsCont(bs, 2) then
      var v := (b0 - 0xE0) * 4096 + Bits(bs[1]) * 64 + Bits(bs[2]);
      if 0x800 <= v && !(0xD800 <= v < 0xE000) then (v as char, 3) else (REPLACEMENT, 1)
    else if 0xF0 <= b0 < 0xF5 && IsCont(bs, 1) && IsCont(bs, 2) && IsCont(bs, 3) then
      var v := (b0 - 0xF0) * 262144 + Bits(bs[1]) * 4096 + Bits(bs[2]) * 64 + Bits(bs[3]);
      if 0x10000 <= v < 0x110000 then (v as char, 4) else (REPLACEMENT, 1)
    else (REPLACEMENT, 1)
  }

  /** new String(bytes, UTF_8) on well-formed bytes; one U+FFFD per rejected byte otherwise. */
  function Decode(bs: seq<int8>): (s: string)
    ensures |s| <= |bs|
    decreases |bs|
  {
    if bs == [] then "" else var (c, n) := DecodeChar(bs); [c] + Decode(bs[n..])
  }

  lemma ContBits(v: int)
    requires 0 <= v < 64
    ensures Bits(Cont(v)) == v && 0x80 <= Unsigned(Cont(v)) < 0xC0
  {
  }

  lemma DecodeTwo(c: char, rest: seq<int8>)
    requires 0x80 <= c as int < 0x800
    ensures DecodeChar(EncodeChar(c) + rest) == (c, 2)
  {
    var v := c as int;
    var bs := EncodeChar(c) + rest;
    assert Unsigned(bs[0]) == 0xC0 + v / 64;
    ContBits(v % 64);
    assert IsCont(bs, 1) && Bits(bs[1]) == v % 64;
  }

  lemma DecodeThree(c: char, rest: seq<int8>)
    requires 0x800 <= c as int < 0x10000
    ensures DecodeChar(EncodeChar(c) + rest) == (c, 3)
  {
    var v := c as int;
    var bs := EncodeChar(c) + rest;
    assert Unsigned(bs[0]) == 0xE0 + v / 4096;
    ContBits(v / 64 % 64);
    ContBits(v % 64);
    assert IsCont(bs, 1) && Bits(bs[1]) == v / 64 % 64;
    assert IsCont(bs, 2) && Bits(bs[2]) == v % 64;
    assert v / 64 == v / 4096 * 64 + v / 64 % 64;
    assert v == v / 64 * 64 + v % 64;
  }

  lemma DecodeFour(c: char, rest: seq<int8>)
    requires 0x10000 <= c as int
    ensures DecodeChar(EncodeChar(c) + rest) == (c, 4)
  {
    var v := c as int;
    var bs := EncodeChar(c) + rest;
    assert v < 0x110000;
    assert Unsigned(bs[0]) == 0xF0 + v / 262144;
    ContBits(v / 4096 % 64);
    ContBits(v / 64 % 64);
    ContBits(v % 64);
    assert IsCont(bs, 1) && Bits(bs[1]) == v / 4096 % 64;
    assert IsCont(bs, 2) && Bits(bs[2]) == v / 64 % 64;
    assert IsCont(bs, 3) && Bits(bs[3]) == v % 64;
    assert v / 4096 == v / 262144 * 64 + v / 4096 % 64;
    assert v / 64 == v / 4096 * 64 + v / 64 % 64;
    assert v == v / 64 * 64 + v % 64;
  }

  /** The bytes of one character decode back to it, whatever follows. */
  lemma DecodeEncodeChar(c: char, rest: seq<int8>)
    ensures DecodeChar(EncodeChar(c) + rest) == (c, |EncodeChar(c)|)
  {
    var v := c as int;
    if v < 0x80 {
    } else if v < 0x800 {
      DecodeTwo(c, rest);
    } else if v < 0x10000 {
      DecodeThree(c, rest);
    } else {
      DecodeFour(c, rest);
    }
  }

  /** Decoding the UTF-8 bytes of a string gives the string back. */
  lemma {:induction false} DecodeEncode(s: string)
    ensures Decode(Encode(s)) == s
  {
    if s != [] {
      var e := EncodeChar(s[0]);
      assert Encode(s) == e + Encode(s[1..]);
      DecodeEncodeChar(s[0], Encode(s[1..]));
      assert Encode(s)[|e|..] == Encode(s[1..]);
      DecodeEncode(s[1..]);
    }
  }

  /** Encoding distributes over concatenation. */
  lemma {:induction false} EncodeAppend(a: string, b: string)
    ensures Encode(a + b) == Encode(a) + Encode(b)
  {
    if a == [] {
      assert a + b == b;
    } else {
      assert (a + b)[0] == a[0] && (a + b)[1..] == a[1..] + b;
      EncodeAppend(a[1..], b);
      calc {
        Encode(a + b);
        EncodeChar(a[0]) + Encode(a[1..] + b);
        EncodeChar(a[0]) + (Encode(a[1..]) + Encode(b));
        (EncodeChar(a[0]) + Encode(a[1..])) + Encode(b);
      }
    }
  }

  /** ASCII text is its own encoding, byte for character. */
  lemma {:induction false} EncodeAscii(s: string)
    requires forall i :: 0 <= i < |s| ==> s[i] as int < 0x80
    ensures |Encode(s)| == |s|
    ensures forall i :: 0 <= i < |s| ==> Unsigned(Encode(s)[i]) == s[i] as int
  {
    if s != [] {
      EncodeAscii(s[1..]);
    }
  }
}

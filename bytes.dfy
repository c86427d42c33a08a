/**
 * Java's signed bytes and the big-endian two's-complement layout that
 * ByteBuffer.putInt/putLong write and getInt/getLong read.
 */
module Bytes {

  /** A Java `byte`. */
  type int8 = x: int | -0x80 <= x < 0x80
  /** A Java `int`. */
  type int32 = x: int | -0x8000_0000 <= x < 0x8000_0000
  /** A Java `long`. */
  type int64 = x: int | -0x8000_0000_0000_0000 <= x < 0x8000_0000_0000_0000

  /** Byte.MAX_VALUE and Byte.MIN_VALUE. */
  const BYTE_MAX: int8 := 127
  const BYTE_MIN: int8 := -128

  const TWO_32: int := 0x1_0000_0000
  const TWO_64: int := 0x1_0000_0000_0000_0000

  function Pow256(n: nat): (p: nat)
    ensures p > 0
  {
    if n == 0 then 1 else 256 * Pow256(n - 1)
  }

  /** The unsigned value (0..255) of a byte. */
  function Unsigned(b: int8): (u: nat)
    ensures u < 256
  {
    if b < 0 then b + 256 else b
  }

  /** The byte whose unsigned value is `u`. */
  function Signed(u: int): (b: int8)
    requires 0 <= u < 256
    ensures Unsigned(b) == u
  {
    if u < 128 then u else u - 256
  }

  /** A byte is recovered from its unsigned value. */
  lemma SignedUnsigned(b: int8)
    ensures Signed(Unsigned(b)) == b
  {
  }

  /** The unsigned big-endian value of a byte sequence. */
  function BEValue(bs: seq<int8>): (u: nat)
    ensures u < Pow256(|bs|)
  {
    if bs == [] then 0 else BEValue(bs[..|bs| - 1]) * 256 + Unsigned(bs[|bs| - 1])
  }

  /** The `n`-byte big-endian encoding of `u` (its lowest `n` bytes). */
  function BEBytes(u: nat, n: nat): (bs: seq<int8>)
    ensures |bs| == n
  {
    if n == 0 then [] else BEBytes(u / 256, n - 1) + [Signed(u % 256)]
  }

  lemma {:induction false} BERoundTrip(u: nat, n: nat)
    requires u < Pow256(n)
    ensures BEValue(BEBytes(u, n)) == u
  {
    if n > 0 {
      var bs := BEBytes(u, n);
      BERoundTrip(u / 256, n - 1);
      assert bs[..|bs| - 1] == BEBytes(u / 256, n - 1);
    }
  }

  /** ByteBuffer.putInt: four big-endian bytes of the two's complement. */
  function IntBytes(x: int32): (bs: seq<int8>)
    ensures |bs| == 4
  {
    BEBytes(x % TWO_32, 4)
  }

  /** ByteBuffer.getInt on four bytes: the big-endian value, read as two's complement. */
  function GetInt(bs: seq<int8>): int32
    requires |bs| == 4
  {
    var u := ((Unsigned(bs[0]) * 256 + Unsigned(bs[1])) * 256 + Unsigned(bs[2])) * 256 + Unsigned(bs[3]);
    if u < 0x8000_0000 then u else u - TWO_32
  }

  /** Four bytes' big-endian value, byte by byte. */
  lemma BEValue4(bs: seq<int8>)
    requires |bs| == 4
    ensures BEValue(bs) == ((Unsigned(bs[0]) * 256 + Unsigned(bs[1])) * 256 + Unsigned(bs[2])) * 256 + Unsigned(bs[3])
  {
    assert bs[..3][..2] == bs[..2] && bs[..2][..1] == bs[..1] && bs[..1][..0] == [];
    assert BEValue(bs[..1]) == Unsigned(bs[0]);
    assert BEValue(bs[..2]) == Unsigned(bs[0]) * 256 + Unsigned(bs[1]);
    assert BEValue(bs[..3]) == BEValue(bs[..2]) * 256 + Unsigned(bs[2]);
  }

  /** ByteBuffer.putLong: eight big-endian bytes of the two's complement. */
  function LongBytes(x: int64): (bs: seq<int8>)
    ensures |bs| == 8
  {
    BEBytes(x % TWO_64, 8)
  }

  /** ByteBuffer.getLong on eight bytes. */
  function GetLong(bs: seq<int8>): int64
    requires |bs| == 8
  {
    var u := BEValue(bs);
    assert Pow256(8) == TWO_64;
    if u < 0x8000_0000_0000_0000 then u else u - TWO_64
  }

  /** getInt reads back what putInt wrote. */
  lemma IntRoundTrip(x: int32)
    ensures GetInt(IntBytes(x)) == x
  {
    assert Pow256(4) == TWO_32;
    BERoundTrip(x % TWO_32, 4);
    BEValue4(IntBytes(x));
  }

  /** getLong reads back what putLong wrote. */
  lemma LongRoundTrip(x: int64)
    ensures GetLong(LongBytes(x)) == x
  {
    assert Pow256(8) == TWO_64;
    BERoundTrip(x % TWO_64, 8);
  }
}

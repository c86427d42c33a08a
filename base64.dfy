/**
 * Base64 with the standard alphabet of RFC 4648, section 4, as
 * java.util.Base64.getEncoder() and getDecoder() use it: the encoder pads
 * with '=', and the decoder accepts a final group with or without padding.
 */
module Base64 {
  import opened Wrappers
  import opened Bytes

  /** The character for the six-bit value `i`. */
  function CharOf(i: nat): (c: char)
    requires i < 64
    ensures c != '='
  {
    if i < 26 then ('A' as int + i) as char
    else if i < 52 then ('a' as int + i - 26) as char
    else if i < 62 then ('0' as int + i - 52) as char
    else if i == 62 then '+'
    else '/'
  }

  /** The six-bit value of an alphabet character. */
  function IndexOf(c: char): Option<nat>
  {
    if 'A' <= c <= 'Z' then Some(c as int - 'A' as int)
    else if 'a' <= c <= 'z' then Some(c as int - 'a' as int + 26)
    else if '0' <= c <= '9' then Some(c as int - '0' as int + 52)
    else if c == '+' then Some(62)
    else if c == '/' then Some(63)
    else None
  }

  lemma IndexOfCharOf(i: nat)
    requires i < 64
    ensures IndexOf(CharOf(i)) == Some(i)
  {
  }

  /** The characters of a sequence of six-bit values. */
  function Chars(vs: seq<nat>): (s: string)
    requires forall i :: 0 <= i < |vs| ==> vs[i] < 64
    ensures |s| == |vs|
  {
    seq(|vs|, i requires 0 <= i < |vs| => CharOf(vs[i]))
  }

  /** Three bytes as four characters. */
  function EncodeGroup(b0: int8, b1: int8, b2: int8): (s: string)
    ensures |s| == 4
  {
    var n := Unsigned(b0) * 65536 + Unsigned(b1) * 256 + Unsigned(b2);
    Chars([n / 262144, n / 4096 % 64, n / 64 % 64, n % 64])
  }

  /** One final byte as two characters and two '='. */
  function EncodeLastOne(b: int8): (s: string)
    ensures |s| == 4
  {
    var u := Unsigned(b);
    Chars([u / 4, u % 4 * 16]) + "=="
  }

  /** Two final bytes as three characters and one '='. */
  function EncodeLastTwo(b0: int8, b1: int8): (s: string)
    ensures |s| == 4
  {
    var n := Unsigned(b0) * 256 + Unsigned(b1);
    Chars([n / 1024, n / 16 % 64, n % 16 * 4]) + "="
  }

  /** Base64.getEncoder().encode, read as text. */
  function Encode(bs: seq<int8>): (s: string)
    ensures bs != [] ==> |s| >= 4
  {
    if |bs| == 0 then ""
    else if |bs| == 1 then EncodeLastOne(bs[0])
    else if |bs| == 2 then EncodeLastTwo(bs[0], bs[1])
    else EncodeGroup(bs[0], bs[1], bs[2]) + Encode(bs[3..])
  }

  /** Every three bytes, or part thereof, take four characters. */
  lemma {:induction false} EncodeLength(bs: seq<int8>)
    ensures |Encode(bs)| == (|bs| + 2) / 3 * 4
  {
    if |bs| > 2 {
      EncodeLength(bs[3..]);
    }
  }

  /** The values of `cs`, or None if one of them is outside the alphabet. */
  function Values(cs: string): (r: Option<seq<nat>>)
    ensures r.Some? ==> |r.value| == |cs| && forall i :: 0 <= i < |cs| ==> r.value[i] < 64
  {
    if cs == [] then Some([])
    else match (IndexOf(cs[0]), Values(cs[1..]))
      case (Some(v), Some(vs)) => (assert v < 64; Some([v] + vs))
      case _ => None
  }

  /** The bytes of a group with two, three or four characters of data. */
  function DecodeTail(vs: seq<nat>): seq<int8>
    requires 2 <= |vs| <= 4 && forall i :: 0 <= i < |vs| ==> vs[i] < 64
  {
    if |vs| == 2 then DecodeOneByte(vs[0], vs[1])
    else if |vs| == 3 then DecodeTwoBytes(vs[0], vs[1], vs[2])
    else DecodeThreeBytes(vs[0], vs[1], vs[2], vs[3])
  }

  function DecodeOneByte(v0: nat, v1: nat): seq<int8>
    requires v0 < 64 && v1 < 64
  {
    [Signed((v0 * 64 + v1) / 16)]
  }

  function DecodeTwoBytes(v0: nat, v1: nat, v2: nat): seq<int8>
    requires v0 < 64 && v1 < 64 && v2 < 64
  {
    var n := (v0 * 4096 + v1 * 64 + v2) / 4;
    [Signed(n / 256), Signed(n % 256)]
  }

  function DecodeThreeBytes(v0: nat, v1: nat, v2: nat, v3: nat): seq<int8>
    requires v0 < 64 && v1 < 64 && v2 < 64 && v3 < 64
  {
    var n := v0 * 262144 + v1 * 4096 + v2 * 64 + v3;
    [Signed(n / 65536), Signed(n / 256 % 256), Signed(n % 256)]
  }

  /** The data characters of the final group: the group without its padding. */
  function Unpad(g: string): string
  {
    if |g| == 4 && g[2] == '=' && g[3] == '=' then g[..2]
    else if |g| == 4 && g[3] == '=' then g[..3]
    else g
  }

  /**
   * Base64.getDecoder().decode: groups of four characters; the last group
   * may carry one or two '=' or be two or three characters long; any other
   * character, or a lone trailing character, is an error.
   */
  function Decode(s: string): (r: Result<seq<int8>, string>)
    decreases |s|
  {
    if s == [] then Success([])
    else if |s| > 4 then
      match Values(s[..4])
      case None => Failure("Illegal base64 character")
      case Some(vs) =>
        var rest :- Decode(s[4..]);
        Success(DecodeTail(vs) + rest)
    else
      var data := Unpad(s);
      if |data| < 2 then Failure("Last unit does not have enough valid bits")
      else match Values(data)
        case None => Failure("Illegal base64 character")
        case Some(vs) => Success(DecodeTail(vs))
  }

  /** Every four characters, or part thereof, decode to at most three bytes. */
  lemma {:induction false} DecodeLength(s: string)
    requires Decode(s).Success?
    ensures 4 * |Decode(s).value| <= 3 * |s|
    decreases |s|
  {
    if |s| > 4 {
      DecodeLength(s[4..]);
    }
  }

  /** The values of the characters of `vs` are `vs`. */
  lemma {:induction false} ValuesChars(vs: seq<nat>)
    requires forall i :: 0 <= i < |vs| ==> vs[i] < 64
    ensures Values(Chars(vs)) == Some(vs)
  {
    if vs != [] {
      IndexOfCharOf(vs[0]);
      ValuesChars(vs[1..]);
      assert Chars(vs)[1..] == Chars(vs[1..]);
      assert [vs[0]] + vs[1..] == vs;
    }
  }

  lemma DecodeOne(b: int8)
    ensures Decode(Encode([b])) == Success([b])
  {
    var u := Unsigned(b);
    var vs := [u / 4, u % 4 * 16];
    var s := Encode([b]);
    assert s == EncodeLastOne(b);
    assert Unpad(s) == Chars(vs);
    ValuesChars(vs);
    assert (u / 4 * 64 + u % 4 * 16) / 16 == u;
    SignedUnsigned(b);
  }

  lemma Split16(n: nat)
    requires n < 65536
    ensures (n / 1024 * 4096 + n / 16 % 64 * 64 + n % 16 * 4) / 4 == n
  {
    assert n / 16 == n / 1024 * 64 + n / 16 % 64;
    assert n == n / 16 * 16 + n % 16;
  }

  /** The three characters of a two-byte tail decode to the two bytes. */
  lemma TwoBytes(b0: int8, b1: int8)
    ensures var n := Unsigned(b0) * 256 + Unsigned(b1);
      DecodeTwoBytes(n / 1024, n / 16 % 64, n % 16 * 4) == [b0, b1]
  {
    var n := Unsigned(b0) * 256 + Unsigned(b1);
    Split16(n);
    Bytes16(Unsigned(b0), Unsigned(b1));
    SignedUnsigned(b0);
    SignedUnsigned(b1);
  }

  lemma DecodeTwo(b0: int8, b1: int8)
    ensures Decode(Encode([b0, b1])) == Success([b0, b1])
  {
    var n := Unsigned(b0) * 256 + Unsigned(b1);
    var vs := [n / 1024, n / 16 % 64, n % 16 * 4];
    var s := Encode([b0, b1]);
    assert s == EncodeLastTwo(b0, b1);
    assert Unpad(s) == Chars(vs);
    ValuesChars(vs);
    TwoBytes(b0, b1);
    assert DecodeTail(vs) == [b0, b1];
  }

  lemma Bytes16(u0: nat, u1: nat)
    requires u0 < 256 && u1 < 256
    ensures (u0 * 256 + u1) / 256 == u0 && (u0 * 256 + u1) % 256 == u1
  {
  }

  lemma Split24(n: nat)
    requires n < 16777216
    ensures n / 262144 * 262144 + n / 4096 % 64 * 4096 + n / 64 % 64 * 64 + n % 64 == n
  {
    assert n / 4096 == n / 262144 * 64 + n / 4096 % 64;
    assert n / 64 == n / 4096 * 64 + n / 64 % 64;
    assert n == n / 64 * 64 + n % 64;
  }

  lemma Bytes24(u0: nat, u1: nat, u2: nat)
    requires u0 < 256 && u1 < 256 && u2 < 256
    ensures var n := u0 * 65536 + u1 * 256 + u2;
      n / 65536 == u0 && n / 256 % 256 == u1 && n % 256 == u2
  {
  }

  /** The four characters of a three-byte group decode to the three bytes. */
  lemma ThreeBytes(b0: int8, b1: int8, b2: int8)
    ensures var n := Unsigned(b0) * 65536 + Unsigned(b1) * 256 + Unsigned(b2);
      DecodeThreeBytes(n / 262144, n / 4096 % 64, n / 64 % 64, n % 64) == [b0, b1, b2]
  {
    var n := Unsigned(b0) * 65536 + Unsigned(b1) * 256 + Unsigned(b2);
    Split24(n);
    Bytes24(Unsigned(b0), Unsigned(b1), Unsigned(b2));
    SignedUnsigned(b0);
    SignedUnsigned(b1);
    SignedUnsigned(b2);
  }

  lemma DecodeGroup(bs: seq<int8>)
    requires |bs| >= 3
    ensures Values(EncodeGroup(bs[0], bs[1], bs[2])).Some?
    ensures DecodeTail(Values(EncodeGroup(bs[0], bs[1], bs[2])).value) == bs[..3]
  {
    var n := Unsigned(bs[0]) * 65536 + Unsigned(bs[1]) * 256 + Unsigned(bs[2]);
    var vs := [n / 262144, n / 4096 % 64, n / 64 % 64, n % 64];
    assert EncodeGroup(bs[0], bs[1], bs[2]) == Chars(vs);
    ValuesChars(vs);
    ThreeBytes(bs[0], bs[1], bs[2]);
    assert DecodeTail(vs) == [bs[0], bs[1], bs[2]];
  }

  lemma DecodeThree(b0: int8, b1: int8, b2: int8)
    ensures Decode(Encode([b0, b1, b2])) == Success([b0, b1, b2])
  {
    var bs := [b0, b1, b2];
    var g := EncodeGroup(b0, b1, b2);
    DecodeGroup(bs);
    assert bs[3..] == [] && bs[..3] == bs;
    assert Encode(bs) == g;
    assert Unpad(g) == g;
  }

  /** A full leading group decodes on its own, ahead of the rest. */
  lemma DecodeCons(g: string, rest: string)
    requires |g| == 4 && Values(g).Some? && rest != []
    requires Decode(rest).Success?
    ensures Decode(g + rest) == Success(DecodeTail(Values(g).value) + Decode(rest).value)
  {
    assert (g + rest)[..4] == g && (g + rest)[4..] == rest;
  }

  lemma SplitThree(bs: seq<int8>)
    requires |bs| >= 3
    ensures bs[..3] + bs[3..] == bs
  {
  }

  lemma EncodeCons(bs: seq<int8>)
    requires |bs| > 3
    ensures Encode(bs) == EncodeGroup(bs[0], bs[1], bs[2]) + Encode(bs[3..])
  {
  }

  lemma DecodeLonger(bs: seq<int8>)
    requires |bs| > 3
    requires Decode(Encode(bs[3..])) == Success(bs[3..])
    ensures Decode(Encode(bs)) == Success(bs)
  {
    var g := EncodeGroup(bs[0], bs[1], bs[2]);
    var rest := Encode(bs[3..]);
    EncodeCons(bs);
    calc {
      Decode(Encode(bs));
      Decode(g + rest);
      { DecodeGroup(bs); DecodeCons(g, rest); }
      Success(bs[..3] + bs[3..]);
      { SplitThree(bs); }
      Success(bs);
    }
  }

  /** Decoding the encoding of any byte array gives it back. */
  lemma {:induction false} DecodeEncode(bs: seq<int8>)
    ensures Decode(Encode(bs)) == Success(bs)
    decreases |bs|
  {
    if |bs| == 1 {
      DecodeOne(bs[0]);
      assert bs == [bs[0]];
    } else if |bs| == 2 {
      DecodeTwo(bs[0], bs[1]);
      assert bs == [bs[0], bs[1]];
    } else if |bs| == 3 {
      DecodeThree(bs[0], bs[1], bs[2]);
      assert bs == [bs[0], bs[1], bs[2]];
    } else if |bs| > 3 {
      DecodeEncode(bs[3..]);
      DecodeLonger(bs);
    }
  }

  /** Encoding is injective: different ids have different texts. */
  lemma EncodeInjective(a: seq<int8>, b: seq<int8>)
    requires Encode(a) == Encode(b)
    ensures a == b
  {
    DecodeEncode(a);
    DecodeEncode(b);
  }
}

/** Bytes and big-endian 32-bit integers (net/endian.h). */
module Bytes {
  import opened CInts

  type byte = x: int | 0 <= x < 256

  const TWO32: int := 0x1_0000_0000

  function UnsignedBytes(u: int): (b: seq<byte>)
    requires 0 <= u < TWO32
    ensures |b| == 4
  {
    var q1 := u / 256;
    var q2 := q1 / 256;
    [q2 / 256, q2 % 256, q1 % 256, u % 256]
  }

  function Unsigned32(b: seq<byte>): (u: int)
    requires |b| == 4
    ensures 0 <= u < TWO32
  {
    var b0: int, b1: int, b2: int, b3: int := b[0], b[1], b[2], b[3];
    ((b0 * 256 + b1) * 256 + b2) * 256 + b3
  }

  /** The four bytes `hostToNetwork32` stores, most significant first. */
  function EncodeInt32(x: int): (b: seq<byte>)
    ensures |b| == 4
    ensures (b[0] as int * 0x100_0000 + b[1] as int * 0x1_0000 + b[2] as int * 0x100 + b[3] as int - x) % TWO32 == 0
  {
    SignificanceOrder(x % TWO32);
    UnsignedBytes(x % TWO32)
  }

  lemma SignificanceOrder(u: int)
    requires 0 <= u < TWO32
    ensures var b := UnsignedBytes(u);
            b[0] as int * 0x100_0000 + b[1] as int * 0x1_0000 + b[2] as int * 0x100 + b[3] as int == u
  {
  }

  /** What `networkToHost32` makes of four bytes, as a signed integer. */
  function DecodeInt32(b: seq<byte>): (x: int)
    requires |b| == 4
    ensures FitsInt32(x)
  {
    WrapInt32(Unsigned32(b))
  }

  lemma UnsignedRoundTrip(u: int)
    requires 0 <= u < TWO32
    ensures Unsigned32(UnsignedBytes(u)) == u
  {
  }

  lemma UnsignedBytesRoundTrip(b: seq<byte>)
    requires |b| == 4
    ensures UnsignedBytes(Unsigned32(b)) == b
  {
    var u := Unsigned32(b);
    var b0: int, b1: int, b2: int, b3: int := b[0], b[1], b[2], b[3];
    assert u / 256 == (b0 * 256 + b1) * 256 + b2;
    assert u / 256 / 256 == b0 * 256 + b1;
    assert u / 256 / 256 / 256 == b0;
  }

  lemma WrapUndoesModulo(x: int)
    ensures FitsInt32(x) ==> WrapInt32(x % TWO32) == x
    ensures 0 <= x < TWO32 ==> WrapInt32(x) % TWO32 == x
  {
    if -TWO32 <= x < 0 {
      assert x % TWO32 == x + TWO32;
    }
  }

  /** A signed 32-bit integer survives the network representation. */
  lemma Int32RoundTrip(x: int)
    requires FitsInt32(x)
    ensures DecodeInt32(EncodeInt32(x)) == x
  {
    hide WrapInt32, UnsignedBytes, Unsigned32;
    UnsignedRoundTrip(x % TWO32);
    WrapUndoesModulo(x);
  }

  /** And every four bytes are the representation of the integer they decode to. */
  lemma BytesRoundTrip(b: seq<byte>)
    requires |b| == 4
    ensures EncodeInt32(DecodeInt32(b)) == b
  {
    hide WrapInt32, UnsignedBytes, Unsigned32;
    UnsignedBytesRoundTrip(b);
    WrapUndoesModulo(Unsigned32(b));
  }
}

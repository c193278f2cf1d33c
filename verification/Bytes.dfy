/** Bytes, fixed-width integers and their little-endian forms. */
module Bytes {
  type byte = b: int | 0 <= b < 0x100
  type uint16 = v: int | 0 <= v < 0x1_0000
  type uint32 = v: int | 0 <= v < 0x1_0000_0000
  type uint64 = v: int | 0 <= v < 0x1_0000_0000_0000_0000
  type int64 = v: int | -0x8000_0000_0000_0000 <= v < 0x8000_0000_0000_0000

  const TWO_32: nat := 0x1_0000_0000
  const TWO_63: nat := 0x8000_0000_0000_0000
  const TWO_64: nat := 0x1_0000_0000_0000_0000

  /** Go's conversion uint32(v) of a wider unsigned value. */
  function Truncate32(v: nat): uint32 {
    v % TWO_32
  }

  /** Go's conversion uint64(v) of a signed value: two's complement. */
  function ToUnsigned(v: int64): uint64 {
    if v < 0 then v + TWO_64 else v
  }

  /** Go's conversion int64(v) of an unsigned value. */
  function ToSigned(v: uint64): int64 {
    if v < TWO_63 then v else v - TWO_64
  }

  function Pow256(n: nat): (p: nat)
    ensures p > 0
  {
    if n == 0 then 1 else 256 * Pow256(n - 1)
  }

  /** The number whose base-256 digits are bs, least significant first. */
  function LittleValue(bs: seq<byte>): (v: nat)
    ensures v < Pow256(|bs|)
  {
    if bs == [] then 0 else bs[0] + 256 * LittleValue(bs[1..])
  }

  /** The n lowest base-256 digits of v, least significant first. */
  function LittleBytes(v: nat, n: nat): (bs: seq<byte>)
    ensures |bs| == n
  {
    if n == 0 then [] else [v % 256] + LittleBytes(v / 256, n - 1)
  }

  lemma {:induction false} LittleRoundTrip(v: nat, n: nat)
    requires v < Pow256(n)
    ensures LittleValue(LittleBytes(v, n)) == v
  {
    if n > 0 {
      LittleRoundTrip(v / 256, n - 1);
      assert LittleBytes(v, n)[1..] == LittleBytes(v / 256, n - 1);
    }
  }

  lemma {:induction false} LittleBytesOfValue(bs: seq<byte>)
    ensures LittleBytes(LittleValue(bs), |bs|) == bs
  {
    if bs != [] {
      LittleBytesOfValue(bs[1..]);
      assert LittleValue(bs) / 256 == LittleValue(bs[1..]);
    }
  }

  function ByteAt(bs: seq<byte>, i: nat): nat
    requires i < |bs|
  {
    bs[i]
  }

  lemma LittleFirst(bs: seq<byte>, n: nat)
    requires |bs| == n + 1
    ensures LittleValue(bs) == ByteAt(bs, 0) + 0x100 * LittleValue(bs[1..])
  {
  }

  /** The weight of each byte. */
  lemma LittlePlaces(bs: seq<byte>)
    requires |bs| == 8
    ensures LittleValue(bs[..2]) == ByteAt(bs, 0) + 0x100 * ByteAt(bs, 1)
    ensures LittleValue(bs[..4]) == ByteAt(bs, 0) + 0x100 * ByteAt(bs, 1) + 0x1_0000 * ByteAt(bs, 2) + 0x100_0000 * ByteAt(bs, 3)
    ensures LittleValue(bs)
            == ByteAt(bs, 0) + 0x100 * ByteAt(bs, 1) + 0x1_0000 * ByteAt(bs, 2) + 0x100_0000 * ByteAt(bs, 3)
               + 0x1_0000_0000 * (ByteAt(bs, 4) + 0x100 * ByteAt(bs, 5) + 0x1_0000 * ByteAt(bs, 6) + 0x100_0000 * ByteAt(bs, 7))
  {
    LittlePair(bs[..2]);
    LittleFour(bs[..4]);
    LittleFour(bs[4..]);
    LittleFirst(bs, 7);
    LittleFirst(bs[1..], 6);
    LittleFirst(bs[2..], 5);
    LittleFirst(bs[3..], 4);
    assert bs[1..][1..] == bs[2..] && bs[2..][1..] == bs[3..] && bs[3..][1..] == bs[4..];
  }

  lemma LittlePair(bs: seq<byte>)
    requires |bs| == 2
    ensures LittleValue(bs) == ByteAt(bs, 0) + 0x100 * ByteAt(bs, 1)
  {
    LittleFirst(bs, 1);
    LittleFirst(bs[1..], 0);
  }

  lemma LittleFour(bs: seq<byte>)
    requires |bs| == 4
    ensures LittleValue(bs) == ByteAt(bs, 0) + 0x100 * ByteAt(bs, 1) + 0x1_0000 * ByteAt(bs, 2) + 0x100_0000 * ByteAt(bs, 3)
  {
    LittleFirst(bs, 3);
    LittleFirst(bs[1..], 2);
    assert bs[1..][1..] == bs[2..];
    LittlePair(bs[2..]);
  }

  /** Pow256 at the widths the packets use. */
  lemma Widths()
    ensures Pow256(1) == 0x100 && Pow256(2) == 0x1_0000
    ensures Pow256(4) == TWO_32 && Pow256(8) == TWO_64
  {
  }
}

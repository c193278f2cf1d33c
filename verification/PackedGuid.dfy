/** Packed 128-bit GUIDs: a mask for each half, then the bytes that are not zero. */
module PackedGuids {
  import opened Wrappers
  import opened Bytes
  import opened Guids

  datatype PackError = TooShort | LowTruncated | HighTruncated

  function Pow2(n: nat): (p: nat)
    ensures p > 0
  {
    if n == 0 then 1 else 2 * Pow2(n - 1)
  }

  /** value >> 8 * index. */
  function ShiftedBytes(value: nat, index: nat): nat {
    if index == 0 then value else ShiftedBytes(value, index - 1) / 256
  }

  /** mask >> index. */
  function ShiftedBits(mask: nat, index: nat): nat {
    if index == 0 then mask else ShiftedBits(mask, index - 1) / 2
  }

  // ---------- the format ----------

  /** Bit i is set iff byte i is not zero. */
  function MaskOf(bs: seq<byte>): (mask: nat)
    ensures mask < Pow2(|bs|)
  {
    if bs == [] then 0 else (if bs[0] != 0 then 1 else 0) + 2 * MaskOf(bs[1..])
  }

  function NonZero(bs: seq<byte>): seq<byte> {
    if bs == [] then [] else (if bs[0] != 0 then [bs[0]] else []) + NonZero(bs[1..])
  }

  /** The bytes of one half, and how much of the data they took. */
  datatype Unpacked = Unpacked(bs: seq<byte>, size: nat)

  /** n bytes: zero where the mask has no bit, the next of the data where it has one. */
  function Unpack(mask: nat, n: nat, data: seq<byte>): (u: Option<Unpacked>)
    ensures u.Some? ==> |u.value.bs| == n && u.value.size <= |data|
  {
    if n == 0 then Some(Unpacked([], 0))
    else if mask % 2 == 0 then Behind([0], 0, Unpack(mask / 2, n - 1, data))
    else if data == [] then None
    else Behind([data[0]], 1, Unpack(mask / 2, n - 1, data[1..]))
  }

  /** What is unpacked so far, in front of what is still to be unpacked. */
  function Behind(bs: seq<byte>, size: nat, u: Option<Unpacked>): Option<Unpacked> {
    if u.None? then None else Some(Unpacked(bs + u.value.bs, size + u.value.size))
  }

  function Packed(guid: Guid128): (bs: seq<byte>)
    ensures 2 <= |bs|
  {
    Pow2Of8();
    PackedHalves(LittleBytes(guid.low, 8), LittleBytes(guid.high, 8))
  }

  function PackedHalves(low: seq<byte>, high: seq<byte>): seq<byte>
    requires Pow2(|low|) <= 256 && Pow2(|high|) <= 256
  {
    [MaskOf(low), MaskOf(high)] + (NonZero(low) + NonZero(high))
  }

  lemma Pow2Of8()
    ensures Pow2(8) == 256
  {
  }

  datatype Consumed = Consumed(guid: Guid128, size: nat)

  /** Both halves, as bytes, and how much of the body they took. */
  function ReadHalves(body: seq<byte>, n: nat): (r: Result<(seq<byte>, seq<byte>, nat), PackError>)
    ensures r.Success? ==> |r.value.0| == |r.value.1| == n && 2 <= r.value.2 <= |body|
  {
    if |body| < 2 then Failure(TooShort)
    else
      var low := Unpack(body[0], n, body[2..]);
      if low.None? then Failure(LowTruncated)
      else
        var high := Unpack(body[1], n, body[2 + low.value.size..]);
        if high.None? then Failure(HighTruncated)
        else Success((low.value.bs, high.value.bs, 2 + low.value.size + high.value.size))
  }

  function ReadPacked(body: seq<byte>): (r: Result<Consumed, PackError>)
    ensures r.Success? ==> 2 <= r.value.size <= |body|
  {
    var halves :- ReadHalves(body, 8);
    Widths();
    Success(Consumed(Guid128(LittleValue(halves.0), LittleValue(halves.1)), halves.2))
  }

  // ---------- round trips ----------

  lemma UnpackBit(b: byte, mask: nat, n: nat, data: seq<byte>)
    ensures Unpack(2 * mask, n + 1, data) == Behind([0], 0, Unpack(mask, n, data))
    ensures Unpack(1 + 2 * mask, n + 1, [b] + data) == Behind([b], 1, Unpack(mask, n, data))
  {
    assert ([b] + data)[1..] == data;
    assert (1 + 2 * mask) / 2 == mask;
  }

  lemma PackZero(bs: seq<byte>)
    ensures MaskOf([0] + bs) == 2 * MaskOf(bs) && NonZero([0] + bs) == NonZero(bs)
  {
  }

  lemma PackByte(b: byte, bs: seq<byte>)
    ensures b != 0 ==> MaskOf([b] + bs) == 1 + 2 * MaskOf(bs) && NonZero([b] + bs) == [b] + NonZero(bs)
    ensures b == 0 ==> MaskOf([b] + bs) == 2 * MaskOf(bs)
  {
  }

  /** One more byte in front of what is packed. */
  lemma UnpackOne(b: byte, mask: nat, bs: seq<byte>, packed: seq<byte>, rest: seq<byte>, mask': nat, packed': seq<byte>)
    requires Unpack(mask, |bs|, packed + rest) == Some(Unpacked(bs, |packed|))
    requires mask' == if b != 0 then 1 + 2 * mask else 2 * mask
    requires packed' == if b != 0 then [b] + packed else packed
    ensures Unpack(mask', |bs| + 1, packed' + rest) == Some(Unpacked([b] + bs, |packed'|))
  {
    UnpackBit(b, mask, |bs|, packed + rest);
    assert ([b] + packed) + rest == [b] + (packed + rest);
  }

  lemma {:induction false} UnpackPacked(bs: seq<byte>, rest: seq<byte>)
    ensures Unpack(MaskOf(bs), |bs|, NonZero(bs) + rest) == Some(Unpacked(bs, |NonZero(bs)|))
  {
    if bs != [] {
      var b, tail := bs[0], bs[1..];
      assert bs == [b] + tail;
      UnpackPacked(tail, rest);
      PackByte(b, tail);
      PackZero(tail);
      UnpackOne(b, MaskOf(tail), tail, NonZero(tail), rest, MaskOf(bs), NonZero(bs));
    }
  }

  lemma HalvesBehind(masks: seq<byte>, low: seq<byte>, high: seq<byte>, rest: seq<byte>)
    requires |masks| == 2
    ensures var body := masks + (low + high) + rest;
            && body[0] == masks[0] && body[1] == masks[1]
            && body[2..] == low + (high + rest) && body[2 + |low|..] == high + rest
  {
  }

  lemma HalvesRoundTrip(low: seq<byte>, high: seq<byte>, rest: seq<byte>, n: nat)
    requires |low| == |high| == n && Pow2(n) <= 256
    ensures ReadHalves(PackedHalves(low, high) + rest, n) == Success((low, high, |PackedHalves(low, high)|))
  {
    HalvesBehind([MaskOf(low), MaskOf(high)], NonZero(low), NonZero(high), rest);
    UnpackPacked(low, NonZero(high) + rest);
    UnpackPacked(high, rest);
  }

  /** A packed GUID is read back, with exactly its own bytes, for all 128 bits and whatever follows it. */
  lemma PackedRoundTrip(guid: Guid128, rest: seq<byte>)
    ensures ReadPacked(Packed(guid) + rest) == Success(Consumed(guid, |Packed(guid)|))
  {
    var (low, high) := (LittleBytes(guid.low, 8), LittleBytes(guid.high, 8));
    Pow2Of8();
    HalvesRoundTrip(low, high, rest, 8);
    Widths();
    LittleRoundTrip(guid.low, 8);
    LittleRoundTrip(guid.high, 8);
  }

  ghost predicate Repacks(bs: seq<byte>, mask: nat, taken: seq<byte>) {
    MaskOf(bs) == mask && NonZero(bs) == taken
  }

  /** Packing what was unpacked gives the same mask and bytes iff no byte that was written is zero. */
  lemma {:induction false} RepackIff(mask: nat, n: nat, data: seq<byte>)
    requires mask < Pow2(n) && Unpack(mask, n, data).Some?
    ensures var u := Unpack(mask, n, data).value; Repacks(u.bs, mask, data[..u.size]) <==> 0 !in data[..u.size]
  {
    if n > 0 {
      UnpackStep(mask, n, data);
      if mask % 2 == 0 {
        var inner := Unpack(mask / 2, n - 1, data).value;
        RepackIff(mask / 2, n - 1, data);
        RepackZero(inner.bs, mask / 2, data[..inner.size]);
      } else {
        var inner := Unpack(mask / 2, n - 1, data[1..]).value;
        RepackIff(mask / 2, n - 1, data[1..]);
        RepackByte(data[0], inner.bs, mask / 2, data[1..][..inner.size]);
        TakeOneMore(data, inner.size);
      }
    }
  }

  lemma UnpackStep(mask: nat, n: nat, data: seq<byte>)
    requires n > 0 && mask < Pow2(n) && Unpack(mask, n, data).Some?
    ensures mask / 2 < Pow2(n - 1) && mask == mask % 2 + 2 * (mask / 2)
    ensures mask % 2 == 0 ==>
              && Unpack(mask / 2, n - 1, data).Some?
              && Unpack(mask, n, data) == Behind([0], 0, Unpack(mask / 2, n - 1, data))
    ensures mask % 2 == 1 ==>
              && data != [] && Unpack(mask / 2, n - 1, data[1..]).Some?
              && Unpack(mask, n, data) == Behind([data[0]], 1, Unpack(mask / 2, n - 1, data[1..]))
  {
  }

  lemma TakeOneMore(data: seq<byte>, n: nat)
    requires n < |data|
    ensures data[..1 + n] == [data[0]] + data[1..][..n]
  {
  }

  lemma RepackZero(bs: seq<byte>, mask: nat, taken: seq<byte>)
    ensures Repacks([0] + bs, 2 * mask, taken) <==> Repacks(bs, mask, taken)
  {
    PackZero(bs);
  }

  lemma RepackByte(b: byte, bs: seq<byte>, mask: nat, taken: seq<byte>)
    requires Repacks(bs, mask, taken) <==> 0 !in taken
    ensures Repacks([b] + bs, 1 + 2 * mask, [b] + taken) <==> 0 !in [b] + taken
  {
    PackByte(b, bs);
    assert ([b] + taken)[1..] == taken;
    assert b != 0 ==> ([b] + NonZero(bs))[1..] == NonZero(bs);
  }

  // ---------- the loops ----------

  method PackUint64(value: uint64) returns (mask: byte, packed: seq<byte>)
    ensures mask == MaskOf(LittleBytes(value, 8)) && packed == NonZero(LittleBytes(value, 8))
  {
    Pow2Of8();
    mask, packed := PackBytes(value, 8);
  }

  /** The lowest n bytes, one by one. */
  method PackBytes(value: nat, n: nat) returns (mask: nat, packed: seq<byte>)
    ensures mask == MaskOf(LittleBytes(value, n)) && packed == NonZero(LittleBytes(value, n))
  {
    ghost var whole := LittleBytes(value, n);
    mask, packed := 0, [];
    for index := 0 to n
      invariant PackedSoFar(mask, packed, Pow2(index), ShiftedBytes(value, index), n - index, whole)
    {
      PackStep(mask, packed, Pow2(index), ShiftedBytes(value, index), n - index, whole);
      var current := ShiftedBytes(value, index) % 256;
      if current != 0 {
        mask := mask + Pow2(index);
        packed := packed + [current];
      }
    }
    assert packed + [] == packed;
  }

  /** What is packed and what the n lowest bytes of v pack to make up the whole. */
  ghost predicate PackedSoFar(mask: nat, packed: seq<byte>, bit: nat, v: nat, n: nat, whole: seq<byte>) {
    && mask + bit * MaskOf(LittleBytes(v, n)) == MaskOf(whole)
    && packed + NonZero(LittleBytes(v, n)) == NonZero(whole)
  }

  lemma PackStep(mask: nat, packed: seq<byte>, bit: nat, v: nat, n: nat, whole: seq<byte>)
    requires n > 0 && PackedSoFar(mask, packed, bit, v, n, whole)
    ensures v % 256 != 0 ==> PackedSoFar(mask + bit, packed + [v % 256], 2 * bit, v / 256, n - 1, whole)
    ensures v % 256 == 0 ==> PackedSoFar(mask, packed, 2 * bit, v / 256, n - 1, whole)
  {
    var tail := LittleBytes(v / 256, n - 1);
    assert LittleBytes(v, n) == [v % 256] + tail;
    DoubleBit(bit, MaskOf(tail));
    if v % 256 != 0 {
      PackByte(v % 256, tail);
      assert packed + ([v % 256] + NonZero(tail)) == (packed + [v % 256]) + NonZero(tail);
    } else {
      PackZero(tail);
    }
  }

  lemma DoubleBit(bit: nat, m: nat)
    ensures bit * (2 * m) == 2 * bit * m && bit * (1 + 2 * m) == bit + 2 * bit * m
  {
  }

  lemma {:induction false} LittleValueAppend(bs: seq<byte>, b: byte)
    ensures LittleValue(bs + [b]) == LittleValue(bs) + b * Pow256(|bs|)
  {
    if bs == [] {
      assert bs + [b] == [b];
    } else {
      LittleValueAppend(bs[1..], b);
      assert (bs + [b])[1..] == bs[1..] + [b];
      var p := Pow256(|bs| - 1);
      assert 256 * (b * p) == b * (256 * p);
    }
  }

  lemma BehindTwice(bs: seq<byte>, size: nat, b: byte, k: nat, u: Option<Unpacked>)
    ensures Behind(bs, size, Behind([b], k, u)) == Behind(bs + [b], size + k, u)
  {
    if u.Some? {
      assert bs + ([b] + u.value.bs) == (bs + [b]) + u.value.bs;
    }
  }

  lemma BehindNothing(bs: seq<byte>, size: nat, u: Option<Unpacked>)
    ensures Behind([], 0, u) == u
    ensures Behind(bs, size, Some(Unpacked([], 0))) == Some(Unpacked(bs, size))
  {
    if u.Some? {
      assert [] + u.value.bs == u.value.bs;
    }
    assert bs + [] == bs;
  }

  /** The lowest bit of a mask: the byte it stands for, unless it is truncated. */
  method ReadByte(body: seq<byte>, mask: nat, position: nat, ghost n: nat) returns (b: byte, end: nat, ok: bool)
    requires position <= |body| && n > 0
    ensures ok ==> position <= end <= |body|
    ensures Unpack(mask, n, body[position..])
            == if ok then Behind([b], end - position, Unpack(mask / 2, n - 1, body[end..])) else None
  {
    b, end, ok := 0, position, true;
    if mask % 2 != 0 {
      if position >= |body| {
        ok := false;
      } else {
        b, end := body[position], position + 1;
        assert body[position..][1..] == body[end..];
      }
    }
  }

  /** The bytes up to position, and the rest of the mask on the rest of the body, make up the half. */
  ghost predicate UnpackedSoFar(body: seq<byte>, mask: nat, n: nat, start: nat, bs: seq<byte>, position: nat)
    requires start <= position <= |body| && |bs| <= n
  {
    Unpack(mask, n, body[start..])
    == Behind(bs, position - start, Unpack(ShiftedBits(mask, |bs|), n - |bs|, body[position..]))
  }

  lemma OneMoreUnpacked(
    body: seq<byte>, mask: nat, n: nat, start: nat, bs: seq<byte>, position: nat, b: byte, end: nat)
    requires start <= position <= end <= |body| && |bs| < n && UnpackedSoFar(body, mask, n, start, bs, position)
    requires Unpack(ShiftedBits(mask, |bs|), n - |bs|, body[position..])
             == Behind([b], end - position, Unpack(ShiftedBits(mask, |bs|) / 2, n - |bs| - 1, body[end..]))
    ensures UnpackedSoFar(body, mask, n, start, bs + [b], end)
  {
    BehindTwice(bs, position - start, b, end - position, Unpack(ShiftedBits(mask, |bs|) / 2, n - |bs| - 1, body[end..]));
  }

  method NextByte(body: seq<byte>, mask: nat, ghost n: nat, ghost start: nat, index: nat, ghost bs: seq<byte>, position: nat)
    returns (b: byte, end: nat, ok: bool)
    requires start <= position <= |body| && |bs| == index < n
    requires UnpackedSoFar(body, mask, n, start, bs, position)
    ensures ok ==> position <= end <= |body| && UnpackedSoFar(body, mask, n, start, bs + [b], end)
    ensures !ok ==> Unpack(mask, n, body[start..]).None?
  {
    b, end, ok := ReadByte(body, ShiftedBits(mask, index), position, n - index);
    if ok {
      OneMoreUnpacked(body, mask, n, start, bs, position, b, end);
    }
  }

  /** One half of a packed GUID, from position on. */
  method ReadHalf(body: seq<byte>, mask: nat, n: nat, start: nat) returns (value: nat, position: nat, ok: bool)
    requires start <= |body|
    ensures ok ==> start <= position <= |body|
    ensures var u := Unpack(mask, n, body[start..]);
            if ok then u.Some? && value == LittleValue(u.value.bs) && position == start + u.value.size else u.None?
  {
    ghost var bs: seq<byte> := [];
    value, position, ok := 0, start, true;
    BehindNothing([], 0, Unpack(mask, n, body[start..]));
    var index := 0;
    while index < n && ok
      invariant index <= n && start <= position <= |body|
      invariant ok ==> |bs| == index && value == LittleValue(bs) && UnpackedSoFar(body, mask, n, start, bs, position)
      invariant !ok ==> Unpack(mask, n, body[start..]).None?
    {
      var b, end;
      b, end, ok := NextByte(body, mask, n, start, index, bs, position);
      if ok {
        LittleValueAppend(bs, b);
        bs := bs + [b];
        value := value + b * Pow256(index);
        position := end;
      }
      index := index + 1;
    }
    BehindNothing(bs, position - start, None);
  }

  method ReadPackedGuid128(body: seq<byte>) returns (r: Result<Consumed, PackError>)
    ensures r == ReadPacked(body)
  {
    if |body| < 2 {
      return Failure(TooShort);
    }
    Widths();
    var lowMask, highMask := body[0], body[1];
    var low, position, ok := ReadHalf(body, lowMask, 8, 2);
    if !ok {
      return Failure(LowTruncated);
    }
    var high, end, okHigh := ReadHalf(body, highMask, 8, position);
    if !okHigh {
      return Failure(HighTruncated);
    }
    return Success(Consumed(Guid128(low, high), end));
  }

  method AppendPackedGuid128(destination: seq<byte>, low: uint64, high: uint64) returns (r: seq<byte>)
    ensures r == destination + Packed(Guid128(low, high))
  {
    var lowMask, lowBytes := PackUint64(low);
    var highMask, highBytes := PackUint64(high);
    r := destination + [lowMask, highMask];
    r := r + lowBytes;
    r := r + highBytes;
  }
}

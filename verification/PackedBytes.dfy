/** Where each byte of a packed GUID goes, and where it comes from. */
module PackedLayouts {
  import opened Wrappers
  import opened Bytes
  import opened Guids
  import opened PackedGuids

  // ---------- bits of a mask ----------

  predicate BitAt(mask: nat, i: nat) {
    if i == 0 then mask % 2 == 1 else BitAt(mask / 2, i - 1)
  }

  /** How many of the lowest i bits are set. */
  function BitsBelow(mask: nat, i: nat): (n: nat)
    ensures n <= i
  {
    if i == 0 then 0 else (if mask % 2 == 1 then 1 else 0) + BitsBelow(mask / 2, i - 1)
  }

  // ---------- unpacking ----------

  /** Byte i is zero without its bit, and the next of the data with it. */
  predicate Spread(mask: nat, bs: seq<byte>, data: seq<byte>) {
    && BitsBelow(mask, |bs|) <= |data|
    && forall i :: 0 <= i < |bs| ==>
         if BitAt(mask, i) then BitsBelow(mask, i) < |data| && bs[i] == data[BitsBelow(mask, i)] else bs[i] == 0
  }

  lemma SpreadZero(mask: nat, bs: seq<byte>, data: seq<byte>)
    requires mask % 2 == 0 && Spread(mask / 2, bs, data)
    ensures Spread(mask, [0] + bs, data)
  {
    forall i | 0 <= i < |bs| + 1
      ensures if BitAt(mask, i) then BitsBelow(mask, i) < |data| && ([0] + bs)[i] == data[BitsBelow(mask, i)]
              else ([0] + bs)[i] == 0
    {
    }
  }

  lemma SpreadByte(mask: nat, bs: seq<byte>, data: seq<byte>)
    requires mask % 2 == 1 && data != [] && Spread(mask / 2, bs, data[1..])
    ensures Spread(mask, [data[0]] + bs, data)
  {
    forall i | 0 <= i < |bs| + 1
      ensures if BitAt(mask, i) then BitsBelow(mask, i) < |data| && ([data[0]] + bs)[i] == data[BitsBelow(mask, i)]
              else ([data[0]] + bs)[i] == 0
    {
    }
  }

  lemma {:induction false} UnpackSpreads(mask: nat, n: nat, data: seq<byte>)
    ensures Unpack(mask, n, data).Some? <==> BitsBelow(mask, n) <= |data|
    ensures Unpack(mask, n, data).Some? ==>
              var u := Unpack(mask, n, data).value; u.size == BitsBelow(mask, n) && Spread(mask, u.bs, data)
  {
    if n > 0 {
      if mask % 2 == 0 {
        UnpackSpreads(mask / 2, n - 1, data);
        if Unpack(mask, n, data).Some? {
          SpreadZero(mask, Unpack(mask / 2, n - 1, data).value.bs, data);
        }
      } else if data != [] {
        UnpackSpreads(mask / 2, n - 1, data[1..]);
        if Unpack(mask, n, data).Some? {
          SpreadByte(mask, Unpack(mask / 2, n - 1, data[1..]).value.bs, data);
        }
      }
    }
  }

  /** Two masks, then the bytes of the lower half, then those of the upper half. */
  predicate HalvesAt(low: seq<byte>, high: seq<byte>, size: nat, body: seq<byte>) {
    |body| >= 2
    && var (lows, highs) := (BitsBelow(body[0], |low|), BitsBelow(body[1], |high|));
       && size == 2 + lows + highs <= |body|
       && Spread(body[0], low, body[2..]) && Spread(body[1], high, body[2 + lows..])
  }

  predicate PackedAt(guid: Guid128, size: nat, body: seq<byte>) {
    HalvesAt(LittleBytes(guid.low, 8), LittleBytes(guid.high, 8), size, body)
  }

  lemma SpreadUnique(mask: nat, a: seq<byte>, b: seq<byte>, data: seq<byte>)
    requires |a| == |b| && Spread(mask, a, data) && Spread(mask, b, data)
    ensures a == b
  {
    forall i | 0 <= i < |a|
      ensures a[i] == b[i]
    {
      assert if BitAt(mask, i) then a[i] == data[BitsBelow(mask, i)] else a[i] == 0;
    }
  }

  /** One half is what the data spreads to. */
  lemma HalfMeaning(mask: byte, bs: seq<byte>, data: seq<byte>, size: nat)
    ensures Unpack(mask, |bs|, data) == Some(Unpacked(bs, size)) <==> Spread(mask, bs, data) && size == BitsBelow(mask, |bs|)
  {
    UnpackSpreads(mask, |bs|, data);
    if Spread(mask, bs, data) {
      SpreadUnique(mask, Unpack(mask, |bs|, data).value.bs, bs, data);
    }
  }

  lemma HalvesMeaning(body: seq<byte>, low: seq<byte>, high: seq<byte>, size: nat)
    requires |low| == |high|
    ensures ReadHalves(body, |low|) == Success((low, high, size)) <==> HalvesAt(low, high, size, body)
  {
    if |body| >= 2 {
      var lows, highs := BitsBelow(body[0], |low|), BitsBelow(body[1], |low|);
      HalfMeaning(body[0], low, body[2..], lows);
      UnpackSpreads(body[0], |low|, body[2..]);
      if 2 + lows <= |body| {
        HalfMeaning(body[1], high, body[2 + lows..], highs);
        UnpackSpreads(body[1], |low|, body[2 + lows..]);
      }
    }
  }

  lemma LittleOf(bs: seq<byte>, v: uint64)
    requires |bs| == 8
    ensures LittleValue(bs) == v <==> bs == LittleBytes(v, 8)
  {
    Widths();
    LittleRoundTrip(v, 8);
    LittleBytesOfValue(bs);
  }

  lemma GuidOfHalves(halves: Result<(seq<byte>, seq<byte>, nat), PackError>, body: seq<byte>, guid: Guid128, size: nat)
    requires halves == ReadHalves(body, 8)
    ensures ReadPacked(body) == Success(Consumed(guid, size))
            <==> halves == Success((LittleBytes(guid.low, 8), LittleBytes(guid.high, 8), size))
  {
    Widths();
    if halves.Success? {
      LittleOf(halves.value.0, guid.low);
      LittleOf(halves.value.1, guid.high);
    }
  }

  /** A packed GUID is read exactly when it lies so at the front. */
  lemma PackedMeaning(body: seq<byte>, guid: Guid128, size: nat)
    ensures ReadPacked(body) == Success(Consumed(guid, size)) <==> PackedAt(guid, size, body)
  {
    GuidOfHalves(ReadHalves(body, 8), body, guid, size);
    HalvesMeaning(body, LittleBytes(guid.low, 8), LittleBytes(guid.high, 8), size);
  }

  /** What is missing when none is read. */
  lemma TruncatedMeaning(body: seq<byte>)
    ensures ReadPacked(body) == Failure(TooShort) <==> |body| < 2
    ensures ReadPacked(body) == Failure(LowTruncated) <==> |body| >= 2 && |body| < 2 + BitsBelow(body[0], 8)
    ensures ReadPacked(body) == Failure(HighTruncated)
            <==> |body| >= 2 + (if |body| > 0 then BitsBelow(body[0], 8) else 0)
                 && |body| < 2 + BitsBelow(body[0], 8) + BitsBelow(body[1], 8)
  {
    if |body| >= 2 {
      UnpackSpreads(body[0], 8, body[2..]);
      if BitsBelow(body[0], 8) <= |body[2..]| {
        UnpackSpreads(body[1], 8, body[2 + BitsBelow(body[0], 8)..]);
      }
    }
  }

  // ---------- packing ----------

  lemma {:induction false} MaskBits(bs: seq<byte>, i: nat)
    ensures BitAt(MaskOf(bs), i) <==> i < |bs| && bs[i] != 0
    decreases i
  {
    if bs == [] {
      NoBits(i);
    } else {
      assert MaskOf(bs) / 2 == MaskOf(bs[1..]);
      if i > 0 {
        MaskBits(bs[1..], i - 1);
      }
    }
  }

  lemma {:induction false} NoBits(i: nat)
    ensures !BitAt(0, i)
  {
    if i > 0 {
      NoBits(i - 1);
    }
  }

  lemma HalfWritten(bs: seq<byte>, rest: seq<byte>)
    ensures Spread(MaskOf(bs), bs, NonZero(bs) + rest) && |NonZero(bs)| == BitsBelow(MaskOf(bs), |bs|)
  {
    UnpackPacked(bs, rest);
    UnpackSpreads(MaskOf(bs), |bs|, NonZero(bs) + rest);
  }

  /** What is written: a bit for each byte that is not zero, and those bytes only. */
  lemma WrittenMeaning(guid: Guid128)
    ensures var w := Packed(guid);
            && PackedAt(guid, |w|, w)
            && forall i :: 0 <= i < 8 ==>
                 && (BitAt(w[0], i) <==> LittleBytes(guid.low, 8)[i] != 0)
                 && (BitAt(w[1], i) <==> LittleBytes(guid.high, 8)[i] != 0)
  {
    var w := Packed(guid);
    PackedRoundTrip(guid, []);
    assert w + [] == w;
    PackedMeaning(w, guid, |w|);
    forall i | 0 <= i < 8
      ensures BitAt(w[0], i) <==> LittleBytes(guid.low, 8)[i] != 0
      ensures BitAt(w[1], i) <==> LittleBytes(guid.high, 8)[i] != 0
    {
      MaskBits(LittleBytes(guid.low, 8), i);
      MaskBits(LittleBytes(guid.high, 8), i);
    }
  }
}

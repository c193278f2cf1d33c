/** Account-data packets byte by byte. */
module AccountLayouts {
  import opened Wrappers
  import opened Bytes
  import opened Guids
  import opened PackedGuids
  import opened AccountDatas

  /** A signed number of eight bytes, as two's complement. */
  function SignedAt(bs: seq<byte>): int64
    requires |bs| == 8
  {
    Widths();
    var v := LittleValue(bs);
    if v < 0x8000_0000_0000_0000 then v else v - 0x1_0000_0000_0000_0000
  }

  // ---------- updates ----------

  /** Time, uncompressed size, the type in the upper half of a byte, the size of what follows; four megabytes at most. */
  predicate UpdateAt(d: AccountData, rest: seq<byte>) {
    && |rest| >= 17 && d.time == SignedAt(rest[..8])
    && LittleValue(rest[8..12]) == d.uncompressedSize <= 0x40_0000
    && d.dataType == rest[12] / 16 < 15
    && LittleValue(rest[13..17]) == |d.compressed| <= 0x40_0000
    && d.compressed == rest[17..]
  }

  lemma BehindIs(playerGuid: uint64, rest: seq<byte>, d: AccountData)
    ensures UpdateBehind(playerGuid, rest) == Success(d) <==> UpdateAt(d, rest) && d.playerGuid == playerGuid
  {
    Widths();
  }

  /** An update is read exactly when it lies so behind a packed GUID, of which 32 bits are kept. */
  lemma UpdateMeaning(body: seq<byte>, d: AccountData)
    ensures UpdateIn(body) == Success(d)
            <==> && ReadPacked(body).Success?
                 && UpdateAt(d, body[ReadPacked(body).value.size..])
                 && d.playerGuid == ReadPacked(body).value.guid.low % 0x1_0000_0000
  {
    if ReadPacked(body).Success? {
      var guid := ReadPacked(body).value;
      BehindIs(Truncate32(guid.guid.low), body[guid.size..], d);
    }
  }

  /** The checks behind the GUID, in their order. */
  lemma UpdateRefused(body: seq<byte>)
    requires ReadPacked(body).Success?
    ensures var rest := body[ReadPacked(body).value.size..];
            && (UpdateIn(body) == Failure(WrongLength) <==> |rest| < 17)
            && (|rest| >= 17 ==>
                  var size := LittleValue(rest[13..17]);
                  if rest[12] / 16 == 15 then UpdateIn(body) == Failure(TypeOutOfRange(15))
                  else if size > 0x40_0000 || 17 + size != |rest| then UpdateIn(body) == Failure(CompressedMismatch)
                  else if LittleValue(rest[8..12]) > 0x40_0000 then UpdateIn(body) == Failure(TooLarge)
                  else UpdateIn(body).Success?)
  {
  }

  /** A player's GUID: type 2, realm 1, the lower half of the legacy one; none for zero. */
  function PlayerBytes(guid: uint64): seq<byte> {
    Packed(if guid == 0 then Guid128(0, 0) else Guid128(guid % 0x1_0000_0000, 0x0800_0400_0000_0000))
  }

  lemma RestAt(d: AccountData)
    requires Refused(d).None?
    ensures var rest := FixedPart(d) + d.compressed; UpdateAt(d, rest) && rest[12] == 16 * d.dataType
  {
    UpdateBehindWritten(d, d.playerGuid);
    BehindIs(d.playerGuid, FixedPart(d) + d.compressed, d);
    FixedFields(d);
    TypeInRange(d.dataType);
  }

  lemma TypeInRange(dataType: byte)
    requires dataType < 16
    ensures TypeByte(dataType) == 16 * dataType
  {
  }

  lemma CutBehind(a: seq<byte>, b: seq<byte>)
    ensures (a + b)[..|a|] == a && (a + b)[|a|..] == b && |a + b| == |a| + |b|
  {
  }

  /** Written is the player, then the update in its places, the unused half of the type's byte zero. */
  lemma UpdateBytes(d: AccountData)
    ensures Refused(d).None? <==> d.dataType < 15 && |d.compressed| <= 0x40_0000 && d.uncompressedSize <= 0x40_0000
    ensures Refused(d) == Some(TypeOutOfRange(d.dataType)) <==> d.dataType >= 15
    ensures Refused(d) == Some(TooLarge) <==> d.dataType < 15 && (|d.compressed| > 0x40_0000 || d.uncompressedSize > 0x40_0000)
    ensures Refused(d).None? ==>
              var k := |PlayerBytes(d.playerGuid)|;
              && |Written(d)| == k + 17 + |d.compressed| && Written(d)[..k] == PlayerBytes(d.playerGuid)
              && UpdateAt(d, Written(d)[k..]) && Written(d)[k..][12] == 16 * d.dataType
  {
    if Refused(d).None? {
      RestAt(d);
      CutBehind(PlayerBytes(d.playerGuid), FixedPart(d) + d.compressed);
    }
  }

  // ---------- requests ----------

  /** A request is a packed GUID and one byte with the type in its upper half. */
  lemma RequestMeaning(body: seq<byte>, r: Request)
    ensures RequestIn(body) == Success(r)
            <==> && ReadPacked(body).Success?
                 && var Consumed(guid, size) := ReadPacked(body).value;
                    && |body| == size + 1 && r.dataType == body[size] / 16 < 15 && r.playerGuid == guid.low % 0x1_0000_0000
  {
  }

  lemma RequestBytes(r: Request)
    ensures WrittenRequest(r) == PlayerBytes(r.playerGuid) + [r.dataType % 16 * 16]
  {
    assert r.dataType * 16 % 256 == r.dataType % 16 * 16;
  }
}

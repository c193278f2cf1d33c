/** Account-data requests and updates: a packed player GUID, then a small fixed part. */
module AccountDatas {
  import opened Wrappers
  import opened Bytes
  import opened Guids
  import opened PackedGuids

  const ACCOUNT_DATA_COUNT: nat := 15
  const MAX_SIZE: nat := 4 * 1024 * 1024
  const FIXED: nat := 8 + 4 + 1 + 4
  const PLAYER_HIGH: uint64 := 2 * 0x400_0000_0000_0000 + 0x400_0000_0000

  datatype AccountError =
    | BadGuid(error: PackError)
    | WrongLength
    | TypeOutOfRange(dataType: nat)
    | CompressedMismatch
    | TooLarge

  datatype Request = Request(playerGuid: uint64, dataType: byte)

  datatype AccountData = AccountData(
    playerGuid: uint64, time: int64, uncompressedSize: uint32, dataType: byte, compressed: seq<byte>)

  // ---------- what is written ----------

  function PlayerGuid(guid: uint64): Guid128 {
    if guid == 0 then NO_GUID else Guid128(Truncate32(guid), PLAYER_HIGH)
  }

  /** The type goes to the high half of its byte; what does not fit is lost. */
  function TypeByte(dataType: byte): byte {
    dataType * 16 % 256
  }

  function WrittenRequest(r: Request): seq<byte> {
    Packed(PlayerGuid(r.playerGuid)) + [TypeByte(r.dataType)]
  }

  function FixedPart(d: AccountData): (bs: seq<byte>)
    requires |d.compressed| < TWO_32
    ensures |bs| == FIXED
  {
    LittleBytes(ToUnsigned(d.time), 8) + LittleBytes(d.uncompressedSize, 4) + [TypeByte(d.dataType)]
    + LittleBytes(|d.compressed|, 4)
  }

  /** Why an update is not written. */
  function Refused(d: AccountData): Option<AccountError> {
    if d.dataType >= ACCOUNT_DATA_COUNT then Some(TypeOutOfRange(d.dataType))
    else if |d.compressed| > MAX_SIZE || d.uncompressedSize > MAX_SIZE then Some(TooLarge)
    else None
  }

  function Written(d: AccountData): seq<byte>
    requires Refused(d).None?
  {
    Packed(PlayerGuid(d.playerGuid)) + (FixedPart(d) + d.compressed)
  }

  // ---------- what is read ----------

  function RequestAfter(guid: Consumed, body: seq<byte>): Result<Request, AccountError> {
    if guid.size + 1 != |body| then Failure(WrongLength)
    else
      var dataType := body[guid.size] / 16;
      if dataType >= ACCOUNT_DATA_COUNT then Failure(TypeOutOfRange(dataType))
      else Success(Request(Truncate32(guid.guid.low), dataType))
  }

  function RequestIn(body: seq<byte>): Result<Request, AccountError> {
    match ReadPacked(body)
    case Failure(error) => Failure(BadGuid(error))
    case Success(guid) => RequestAfter(guid, body)
  }

  /** The fixed part at the front of rest, and the payload behind it. */
  function UpdateBehind(playerGuid: uint64, rest: seq<byte>): Result<AccountData, AccountError> {
    if FIXED > |rest| then Failure(WrongLength)
    else
      Widths();
      var (uncompressed, dataType, size) := (LittleValue(rest[8..12]), rest[12] / 16, LittleValue(rest[13..17]));
      if dataType >= ACCOUNT_DATA_COUNT then Failure(TypeOutOfRange(dataType))
      else if size > MAX_SIZE || FIXED + size != |rest| then Failure(CompressedMismatch)
      else if uncompressed > MAX_SIZE then Failure(TooLarge)
      else Success(AccountData(playerGuid, ToSigned(LittleValue(rest[..8])), uncompressed, dataType, rest[FIXED..]))
  }

  function UpdateIn(body: seq<byte>): Result<AccountData, AccountError> {
    match ReadPacked(body)
    case Failure(error) => Failure(BadGuid(error))
    case Success(guid) => UpdateBehind(Truncate32(guid.guid.low), body[guid.size..])
  }

  // ---------- the code ----------

  method AppendModernPlayerGuid(destination: seq<byte>, guid: uint64) returns (r: seq<byte>)
    ensures r == destination + Packed(PlayerGuid(guid))
  {
    if guid == 0 {
      r := AppendPackedGuid128(destination, 0, 0);
    } else {
      var high := 2 * 0x400_0000_0000_0000 + 0x400_0000_0000; // bits 59 and 42
      r := AppendPackedGuid128(destination, Truncate32(guid), high);
    }
  }

  method EncodeAccountDataRequest(request: Request) returns (body: seq<byte>)
    ensures body == WrittenRequest(request)
  {
    body := AppendModernPlayerGuid([], request.playerGuid);
    body := body + [TypeByte(request.dataType)];
  }

  method ParseAccountDataRequest(body: seq<byte>) returns (r: Result<Request, AccountError>)
    ensures r == RequestIn(body)
  {
    var guid := ReadPackedGuid128(body);
    if guid.Failure? {
      return Failure(BadGuid(guid.error));
    }
    var consumed := guid.value.size;
    if consumed + 1 != |body| {
      return Failure(WrongLength);
    }
    var dataType := body[consumed] / 16;
    if dataType >= ACCOUNT_DATA_COUNT {
      return Failure(TypeOutOfRange(dataType));
    }
    return Success(Request(Truncate32(guid.value.guid.low), dataType));
  }

  method EncodeAccountDataUpdate(d: AccountData) returns (r: Result<seq<byte>, AccountError>)
    ensures r == if Refused(d).Some? then Failure(Refused(d).value) else Success(Written(d))
  {
    if d.dataType >= ACCOUNT_DATA_COUNT {
      return Failure(TypeOutOfRange(d.dataType));
    }
    if |d.compressed| > MAX_SIZE || d.uncompressedSize > MAX_SIZE {
      return Failure(TooLarge);
    }
    var body := AppendModernPlayerGuid([], d.playerGuid);
    NothingBefore(Packed(PlayerGuid(d.playerGuid)));
    body := AppendUpdate(body, d);
    return Success(body);
  }

  lemma NothingBefore(bs: seq<byte>)
    ensures [] + bs == bs
  {
  }

  method AppendUpdate(destination: seq<byte>, d: AccountData) returns (body: seq<byte>)
    requires |d.compressed| < TWO_32
    ensures body == destination + (FixedPart(d) + d.compressed)
  {
    body := destination + LittleBytes(ToUnsigned(d.time), 8);
    body := body + LittleBytes(d.uncompressedSize, 4);
    body := body + [TypeByte(d.dataType)];
    body := body + LittleBytes(|d.compressed|, 4);
    assert body == destination + FixedPart(d);
    body := body + d.compressed;
  }

  method ParseAccountDataUpdate(body: seq<byte>) returns (r: Result<AccountData, AccountError>)
    ensures r == UpdateIn(body)
  {
    var guid := ReadPackedGuid128(body);
    if guid.Failure? {
      return Failure(BadGuid(guid.error));
    }
    var consumed := guid.value.size;
    if consumed + FIXED > |body| {
      return Failure(WrongLength);
    }
    ghost var rest := body[consumed..];
    Widths();
    assert body[consumed..consumed + 8] == rest[..8];
    var time := ToSigned(LittleValue(body[consumed..consumed + 8]));
    consumed := consumed + 8;
    assert body[consumed..consumed + 4] == rest[8..12];
    var uncompressedSize := LittleValue(body[consumed..consumed + 4]);
    consumed := consumed + 4;
    var dataType := body[consumed] / 16;
    consumed := consumed + 1;
    if dataType >= ACCOUNT_DATA_COUNT {
      return Failure(TypeOutOfRange(dataType));
    }
    assert body[consumed..consumed + 4] == rest[13..17];
    var compressedSize := LittleValue(body[consumed..consumed + 4]);
    consumed := consumed + 4;
    if compressedSize > MAX_SIZE || consumed + compressedSize != |body| {
      return Failure(CompressedMismatch);
    }
    if uncompressedSize > MAX_SIZE {
      return Failure(TooLarge);
    }
    assert body[consumed..] == rest[FIXED..];
    return Success(AccountData(Truncate32(guid.value.guid.low), time, uncompressedSize, dataType, body[consumed..]));
  }

  // ---------- round trips ----------

  lemma Signed(v: int64)
    ensures ToSigned(ToUnsigned(v)) == v
  {
  }

  lemma FixedFields(d: AccountData)
    requires Refused(d).None?
    ensures var rest := FixedPart(d) + d.compressed;
            && rest[..8] == LittleBytes(ToUnsigned(d.time), 8) && rest[8..12] == LittleBytes(d.uncompressedSize, 4)
            && rest[12] == TypeByte(d.dataType) && rest[13..17] == LittleBytes(|d.compressed|, 4)
            && rest[FIXED..] == d.compressed
  {
  }

  lemma UpdateBehindWritten(d: AccountData, playerGuid: uint64)
    requires Refused(d).None?
    ensures UpdateBehind(playerGuid, FixedPart(d) + d.compressed) == Success(d.(playerGuid := playerGuid))
  {
    FixedFields(d);
    Widths();
    Signed(d.time);
    LittleRoundTrip(ToUnsigned(d.time), 8);
    LittleRoundTrip(d.uncompressedSize, 4);
    LittleRoundTrip(|d.compressed|, 4);
  }

  lemma Cut(a: seq<byte>, b: seq<byte>)
    ensures (a + b)[|a|..] == b
  {
  }

  lemma ReadWritten(guid: Guid128, rest: seq<byte>)
    ensures var body := Packed(guid) + rest;
            var size := |Packed(guid)|;
            ReadPacked(body) == Success(Consumed(guid, size)) && body[size..] == rest
  {
    PackedRoundTrip(guid, rest);
    Cut(Packed(guid), rest);
  }

  lemma UpdateInWritten(guid: Guid128, d: AccountData)
    requires Refused(d).None?
    ensures UpdateIn(Packed(guid) + (FixedPart(d) + d.compressed)) == Success(d.(playerGuid := Truncate32(guid.low)))
  {
    ReadWritten(guid, FixedPart(d) + d.compressed);
    UpdateBehindWritten(d, Truncate32(guid.low));
  }

  lemma PlayerLow(guid: uint64)
    ensures Truncate32(PlayerGuid(guid).low) == Truncate32(guid)
    ensures Truncate32(guid) == guid <==> guid < TWO_32
  {
  }

  /** An update that is written reads as itself, with the player GUID reduced to 32 bits: exactly itself iff it has no more. */
  lemma UpdateRoundTrip(d: AccountData)
    requires Refused(d).None?
    ensures UpdateIn(Written(d)) == Success(d.(playerGuid := Truncate32(d.playerGuid)))
    ensures UpdateIn(Written(d)) == Success(d) <==> d.playerGuid < TWO_32
  {
    UpdateInWritten(PlayerGuid(d.playerGuid), d);
    PlayerLow(d.playerGuid);
  }

  lemma AcceptedIsWritable(playerGuid: uint64, rest: seq<byte>)
    requires UpdateBehind(playerGuid, rest).Success?
    ensures var d := UpdateBehind(playerGuid, rest).value; Refused(d).None? && d.playerGuid == playerGuid
  {
  }

  /** Whatever is read can be written, and reads the same again. */
  lemma UpdateReadAgain(body: seq<byte>)
    requires UpdateIn(body).Success?
    ensures var d := UpdateIn(body).value; Refused(d).None? && UpdateIn(Written(d)) == Success(d)
  {
    var guid := ReadPacked(body).value;
    AcceptedIsWritable(Truncate32(guid.guid.low), body[guid.size..]);
    UpdateRoundTrip(UpdateIn(body).value);
  }

  /** What a written request reads as. */
  function Reduced(playerGuid: uint64, dataType: byte): Result<Request, AccountError> {
    if dataType % 16 == 15 then Failure(TypeOutOfRange(15)) else Success(Request(Truncate32(playerGuid), dataType % 16))
  }

  lemma RequestAfterWritten(guid: Guid128, packed: seq<byte>, dataType: byte)
    ensures RequestAfter(Consumed(guid, |packed|), packed + [TypeByte(dataType)])
            == Reduced(guid.low, dataType)
  {
  }

  lemma RequestInWritten(guid: Guid128, dataType: byte)
    ensures RequestIn(Packed(guid) + [TypeByte(dataType)]) == Reduced(guid.low, dataType)
  {
    ReadWritten(guid, [TypeByte(dataType)]);
    RequestAfterWritten(guid, Packed(guid), dataType);
  }

  /** A request reads as itself iff its type is in range and its player GUID has 32 bits. */
  lemma RequestRoundTripIff(r: Request)
    ensures RequestIn(WrittenRequest(r)) == Success(r) <==> r.dataType < ACCOUNT_DATA_COUNT && r.playerGuid < TWO_32
  {
    RequestInWritten(PlayerGuid(r.playerGuid), r.dataType);
    ReducedIff(r);
  }

  lemma ReducedIff(r: Request)
    ensures Reduced(PlayerGuid(r.playerGuid).low, r.dataType) == Success(r)
            <==> r.dataType < ACCOUNT_DATA_COUNT && r.playerGuid < TWO_32
  {
  }
}

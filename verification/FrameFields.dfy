/** Frames byte by byte: which bytes are a frame, why others are refused, and what is written. */
module FrameFields {
  import opened Wrappers
  import opened Bytes
  import opened Headers
  import opened Frames
  import Wire

  /** The size of the header, most significant byte first. */
  function SizeIn(data: seq<byte>): nat
    requires |data| >= 2
  {
    data[1] + (data[0] as int) * 0x100
  }

  predicate HasHeader(data: seq<byte>) {
    |data| >= 2 && 1 <= SizeIn(data) <= 4096 && 2 + SizeIn(data) <= |data|
  }

  function HeaderIn(data: seq<byte>): seq<byte>
    requires HasHeader(data)
  {
    data[2..2 + SizeIn(data)]
  }

  lemma HeaderPartIs(data: seq<byte>)
    ensures HasHeader(data) ==> HeaderPart(data) == Success(HeaderIn(data))
    ensures |data| >= 2 && HeaderPart(data) == Failure(InvalidHeaderSize(SizeIn(data)))
            <==> |data| >= 2 && (SizeIn(data) == 0 || SizeIn(data) > 4096)
    ensures HeaderPart(data) == Failure(EndOfStream)
            <==> |data| < 2 || (1 <= SizeIn(data) <= 4096 && |data| < 2 + SizeIn(data))
  {
    if HasHeader(data) {
      assert data[2..][..SizeIn(data)] == HeaderIn(data);
    }
  }

  lemma BehindIs(data: seq<byte>)
    requires HasHeader(data)
    ensures DecodeFrame(data) == DecodeBehind(HeaderIn(data), data[2 + SizeIn(data)..])
  {
    HeaderPartIs(data);
    CutTwice(data, 2, SizeIn(data));
  }

  /** Header size, header, and as much payload as the header says, sixteen megabytes at most. */
  predicate IsFrame(data: seq<byte>, frame: Frame, size: nat) {
    && HasHeader(data) && HeaderOf(HeaderIn(data)) == Success(frame.header)
    && frame.header.size <= 16 * 1024 * 1024
    && size == 2 + SizeIn(data) + frame.header.size <= |data|
    && frame.payload == data[2 + SizeIn(data)..size]
  }

  lemma FrameMeaning(data: seq<byte>, frame: Frame, size: nat)
    ensures DecodeFrame(data) == Success(Wire.Chunk(frame, size)) <==> IsFrame(data, frame, size)
  {
    HeaderPartIs(data);
    if HasHeader(data) {
      BehindIs(data);
      PayloadIs(data[2 + SizeIn(data)..], HeaderIn(data), frame, size);
      if 2 + SizeIn(data) <= size <= |data| {
        PayloadPlace(data, 2 + SizeIn(data), size);
      }
    }
  }

  lemma PayloadPlace(data: seq<byte>, i: nat, j: nat)
    requires i <= j <= |data|
    ensures data[i..][..j - i] == data[i..j]
  {
  }

  lemma PayloadIs(behind: seq<byte>, header: seq<byte>, frame: Frame, size: nat)
    ensures DecodeBehind(header, behind) == Success(Wire.Chunk(frame, size))
            <==> && HeaderOf(header) == Success(frame.header) && frame.header.size <= 16 * 1024 * 1024
                 && size == 2 + |header| + frame.header.size && frame.header.size <= |behind|
                 && frame.payload == behind[..frame.header.size]
  {
  }

  /** The first check that fails, in the order of the reading. */
  lemma RefusalMeaning(data: seq<byte>)
    ensures DecodeFrame(data).Failure? ==>
              match DecodeFrame(data).error
              case InvalidHeaderSize(n) => |data| >= 2 && n == SizeIn(data) && (n == 0 || n > 4096)
              case BadHeader(e) => HasHeader(data) && HeaderOf(HeaderIn(data)) == Failure(e)
              case PayloadTooLarge(n) =>
                HasHeader(data) && HeaderOf(HeaderIn(data)).Success?
                && n == HeaderOf(HeaderIn(data)).value.size > 16 * 1024 * 1024
              case EndOfStream =>
                || |data| < 2
                || (1 <= SizeIn(data) <= 4096 && |data| < 2 + SizeIn(data))
                || (HasHeader(data) && HeaderOf(HeaderIn(data)).Success?
                    && HeaderOf(HeaderIn(data)).value.size <= 16 * 1024 * 1024
                    && |data| < 2 + SizeIn(data) + HeaderOf(HeaderIn(data)).value.size)
  {
    HeaderPartIs(data);
    if HasHeader(data) {
      BehindIs(data);
    }
  }

  /** What is written: the size of the header, the header with the payload's size in it, the payload. */
  predicate IsWritten(frame: Frame, bytes: seq<byte>) {
    && |frame.payload| <= 16 * 1024 * 1024 && HasHeader(bytes)
    && HeaderIn(bytes) == MarshalHeader(frame.header.(size := |frame.payload|))
    && bytes[2 + SizeIn(bytes)..] == frame.payload
  }

  lemma SizeBytes(bytes: seq<byte>, n: nat)
    requires |bytes| >= 2 && 0 < n <= 4096
    ensures SizeIn(bytes) == n <==> bytes[..2] == BigEndian16(n)
  {
  }

  lemma ThreeParts(bytes: seq<byte>, size: seq<byte>, header: seq<byte>, payload: seq<byte>)
    requires |size| == 2
    ensures bytes == size + header + payload
            <==> |bytes| >= 2 + |header| && bytes[..2] == size && bytes[2..2 + |header|] == header
                 && bytes[2 + |header|..] == payload
  {
    if |bytes| >= 2 + |header| {
      assert bytes == bytes[..2] + bytes[2..2 + |header|] + bytes[2 + |header|..];
    }
  }

  lemma WrittenMeaning(frame: Frame, bytes: seq<byte>)
    ensures EncodeFrame(frame) == Success(bytes) <==> IsWritten(frame, bytes)
  {
    if |frame.payload| <= 16 * 1024 * 1024 {
      var header := MarshalHeader(frame.header.(size := |frame.payload|));
      if 0 < |header| <= 4096 {
        ThreeParts(bytes, BigEndian16(|header|), header, frame.payload);
        if |bytes| >= 2 {
          SizeBytes(bytes, |header|);
        }
      }
    }
  }

  /** And nothing is written when the payload is too long, or the header is empty or too long. */
  lemma NotWrittenMeaning(frame: Frame)
    ensures EncodeFrame(frame).Failure? ==>
              match EncodeFrame(frame).error
              case PayloadTooLarge(n) => n == |frame.payload| > 16 * 1024 * 1024
              case InvalidHeaderSize(n) =>
                && |frame.payload| <= 16 * 1024 * 1024
                && n == |MarshalHeader(frame.header.(size := |frame.payload|))| && (n == 0 || n > 4096)
              case _ => false
  {
  }
}

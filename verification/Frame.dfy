/** BNet frames on a byte stream: a two-byte header size, the header, the payload. */
module Frames {
  import opened Wrappers
  import opened Bytes
  import opened Headers
  import Wire

  const MAX_HEADER_SIZE: nat := 4096
  const MAX_PAYLOAD_SIZE: nat := 0x100_0000

  datatype Frame = Frame(header: Header, payload: seq<byte>)

  datatype FrameError =
    | EndOfStream
    | InvalidHeaderSize(size: nat)
    | BadHeader(error: Wire.Error)
    | PayloadTooLarge(size: nat)

  /** The frame as it comes back: its header carries the payload size. */
  function Sized(frame: Frame): Frame
    requires |frame.payload| <= MAX_PAYLOAD_SIZE
  {
    frame.(header := frame.header.(size := |frame.payload|))
  }

  /** A 16-bit number, most significant byte first, and back. */
  function BigEndian16(v: uint16): seq<byte> {
    [v / 256, v % 256]
  }

  function FromBigEndian16(high: byte, low: byte): nat {
    (high as int) * 256 + (low as int)
  }

  /** What WriteFrame puts on the stream. */
  function EncodeFrame(frame: Frame): (r: Result<seq<byte>, FrameError>) {
    if |frame.payload| > MAX_PAYLOAD_SIZE then Failure(PayloadTooLarge(|frame.payload|))
    else
      var header := MarshalHeader(Sized(frame).header);
      if |header| == 0 || |header| > MAX_HEADER_SIZE then Failure(InvalidHeaderSize(|header|))
      else Success(BigEndian16(|header|) + header + frame.payload)
  }

  /** The header bytes at the front, behind their size. */
  function HeaderPart(data: seq<byte>): (r: Result<seq<byte>, FrameError>)
    ensures r.Success? ==> |r.value| > 0 && 2 + |r.value| <= |data|
  {
    if |data| < 2 then Failure(EndOfStream)
    else
      var headerSize := FromBigEndian16(data[0], data[1]);
      if headerSize == 0 || headerSize > MAX_HEADER_SIZE then Failure(InvalidHeaderSize(headerSize))
      else if |data| - 2 < headerSize then Failure(EndOfStream)
      else Success(data[2..][..headerSize])
  }

  /** The payload of a frame with this header. */
  function PayloadPart(header: Header, data: seq<byte>): (r: Result<seq<byte>, FrameError>)
    ensures r.Success? ==> |r.value| == header.size <= |data|
  {
    if header.size > MAX_PAYLOAD_SIZE then Failure(PayloadTooLarge(header.size))
    else if |data| < header.size then Failure(EndOfStream)
    else Success(data[..header.size])
  }

  function HeaderOrError(bytes: seq<byte>): Result<Header, FrameError> {
    var r := HeaderOf(bytes);
    if r.Success? then Success(r.value) else Failure(BadHeader(r.error))
  }

  /** The frame whose header bytes are known, its payload at the front of the data. */
  function DecodeBehind(headerBytes: seq<byte>, data: seq<byte>): (r: Result<Wire.Chunk<Frame>, FrameError>)
    ensures r.Success? ==> 0 < r.value.size <= 2 + |headerBytes| + |data|
  {
    var header :- HeaderOrError(headerBytes);
    var payload :- PayloadPart(header, data);
    Success(Wire.Chunk(Frame(header, payload), 2 + |headerBytes| + |payload|))
  }

  /** The first frame of some bytes, and how many bytes it takes. */
  function DecodeFrame(data: seq<byte>): (r: Result<Wire.Chunk<Frame>, FrameError>)
    ensures r.Success? ==> 0 < r.value.size <= |data|
  {
    var headerBytes :- HeaderPart(data);
    DecodeBehind(headerBytes, data[2..][|headerBytes|..])
  }

  /** What is left of a stream: only a part of its front was used up. */
  ghost predicate Ends(whole: seq<byte>, left: seq<byte>) {
    |left| <= |whole| && left == whole[|whole| - |left|..]
  }

  lemma EndOfEnd(whole: seq<byte>, part: seq<byte>, left: seq<byte>)
    requires Ends(whole, part) && Ends(part, left)
    ensures Ends(whole, left)
  {
  }

  lemma CutTwice(s: seq<byte>, m: nat, n: nat)
    requires m + n <= |s|
    ensures s[m..][n..] == s[m + n..]
  {
  }

  /** Bytes written to a connection and not yet read from it. */
  class Stream {
    var pending: seq<byte>

    constructor ()
      ensures pending == []
    {
      pending := [];
    }

    /** io.ReadFull: n bytes, or an error that uses up what there was. */
    method ReadFull(n: nat) returns (r: Result<seq<byte>, FrameError>)
      modifies this
      ensures n <= |old(pending)| ==> r == Success(old(pending)[..n]) && pending == old(pending)[n..]
      ensures n > |old(pending)| ==> r == Failure(EndOfStream) && pending == []
    {
      if n > |pending| {
        pending := [];
        return Failure(EndOfStream);
      }
      r := Success(pending[..n]);
      pending := pending[n..];
    }

    method ReadHeaderBytes() returns (r: Result<seq<byte>, FrameError>)
      modifies this
      ensures r == HeaderPart(old(pending))
      ensures r.Success? ==> pending == old(pending)[2..][|r.value|..]
      ensures Ends(old(pending), pending)
    {
      var prefix :- ReadFull(2);
      var headerSize := FromBigEndian16(prefix[0], prefix[1]);
      if headerSize == 0 || headerSize > MAX_HEADER_SIZE {
        return Failure(InvalidHeaderSize(headerSize));
      }
      r := ReadFull(headerSize);
    }

    method ReadPayload(header: Header) returns (r: Result<seq<byte>, FrameError>)
      modifies this
      ensures r == PayloadPart(header, old(pending))
      ensures r.Success? ==> pending == old(pending)[|r.value|..]
      ensures Ends(old(pending), pending)
    {
      if header.size > MAX_PAYLOAD_SIZE {
        return Failure(PayloadTooLarge(header.size));
      }
      r := ReadFull(header.size);
    }

    method ReadFrame() returns (r: Result<Frame, FrameError>)
      modifies this
      ensures DecodeFrame(old(pending)).Success? ==>
                && r == Success(DecodeFrame(old(pending)).value.value)
                && pending == old(pending)[DecodeFrame(old(pending)).value.size..]
      ensures DecodeFrame(old(pending)).Failure? ==> r == Failure(DecodeFrame(old(pending)).error)
      ensures Ends(old(pending), pending)
    {
      var headerBytes :- ReadHeaderBytes();
      var parsed := ParseHeader(headerBytes);
      if parsed.Failure? {
        return Failure(BadHeader(parsed.error));
      }
      ghost var behind := pending;
      var payload := ReadPayload(parsed.value);
      EndOfEnd(old(pending), behind, pending);
      if payload.Failure? {
        return Failure(payload.error);
      }
      CutTwice(old(pending), 2 + |headerBytes|, |payload.value|);
      return Success(Frame(parsed.value, payload.value));
    }

    method WriteFrame(frame: Frame) returns (r: Result<(), FrameError>)
      modifies this
      ensures match EncodeFrame(frame)
              case Success(bytes) => r == Success(()) && pending == old(pending) + bytes
              case Failure(e) => r == Failure(e) && pending == old(pending)
    {
      if |frame.payload| > MAX_PAYLOAD_SIZE {
        return Failure(PayloadTooLarge(|frame.payload|));
      }
      var sized := frame.header.(size := |frame.payload|);
      var header := MarshalHeader(sized);
      if |header| == 0 || |header| > MAX_HEADER_SIZE {
        return Failure(InvalidHeaderSize(|header|));
      }
      var buffer := new byte[2 + |header| + |frame.payload|];
      buffer[0], buffer[1] := |header| / 256, |header| % 256;
      forall i | 0 <= i < |header| {
        buffer[2 + i] := header[i];
      }
      forall i | 0 <= i < |frame.payload| {
        buffer[2 + |header| + i] := frame.payload[i];
      }
      assert buffer[..] == BigEndian16(|header|) + header + frame.payload;
      pending := pending + buffer[..];
      return Success(());
    }
  }

  lemma WrittenBytes(size: seq<byte>, header: seq<byte>, payload: seq<byte>, rest: seq<byte>)
    requires |size| == 2
    ensures var data := size + header + payload + rest;
            && |data| >= 2 + |header| && data[0] == size[0] && data[1] == size[1]
            && data[2..][..|header|] == header && data[2..][|header|..] == payload + rest
  {
    assert (size + header + payload + rest)[2..] == header + (payload + rest);
  }

  lemma DecodeWritten(header: seq<byte>, payload: seq<byte>, rest: seq<byte>)
    requires 0 < |header| <= MAX_HEADER_SIZE
    ensures DecodeFrame(BigEndian16(|header|) + header + payload + rest) == DecodeBehind(header, payload + rest)
  {
    WrittenBytes(BigEndian16(|header|), header, payload, rest);
    assert HeaderPart(BigEndian16(|header|) + header + payload + rest) == Success(header);
  }

  lemma BehindHeader(header: Header, bytes: seq<byte>, payload: seq<byte>, size: nat, rest: seq<byte>)
    requires header.size == |payload| <= MAX_PAYLOAD_SIZE && size == 2 + |bytes| + |payload|
    ensures DecodeBehind(bytes, payload + rest) == Success(Wire.Chunk(Frame(header, payload), size))
            <==> HeaderOf(bytes) == Success(header)
  {
    assert (payload + rest)[..|payload|] == payload;
  }

  lemma BehindRoundTrip(frame: Frame, size: nat, rest: seq<byte>)
    requires |frame.payload| <= MAX_PAYLOAD_SIZE
    requires size == 2 + |MarshalHeader(Sized(frame).header)| + |frame.payload|
    ensures DecodeBehind(MarshalHeader(Sized(frame).header), frame.payload + rest) == Success(Wire.Chunk(Sized(frame), size))
            <==> UnknownFields(frame.header.remainder)
  {
    var header := Sized(frame).header;
    SurvivesIff(header);
    BehindHeader(header, MarshalHeader(header), frame.payload, size, rest);
  }

  lemma EncodedBytes(frame: Frame, bytes: seq<byte>)
    requires EncodeFrame(frame) == Success(bytes)
    ensures |frame.payload| <= MAX_PAYLOAD_SIZE
    ensures var header := MarshalHeader(Sized(frame).header);
            && 0 < |header| <= MAX_HEADER_SIZE && bytes == BigEndian16(|header|) + header + frame.payload
            && |bytes| == 2 + |header| + |frame.payload|
  {
  }

  lemma DecodeEncoded(frame: Frame, bytes: seq<byte>, rest: seq<byte>)
    requires EncodeFrame(frame) == Success(bytes)
    ensures |frame.payload| <= MAX_PAYLOAD_SIZE
    ensures var header := MarshalHeader(Sized(frame).header);
            && |bytes| == 2 + |header| + |frame.payload|
            && DecodeFrame(bytes + rest) == DecodeBehind(header, frame.payload + rest)
  {
    EncodedBytes(frame, bytes);
    DecodeWritten(MarshalHeader(Sized(frame).header), frame.payload, rest);
  }

  /** One frame written, then read back from the front of the stream: exact iff its remainder is unknown fields. */
  lemma FrameRoundTrip(frame: Frame, bytes: seq<byte>, rest: seq<byte>)
    requires EncodeFrame(frame) == Success(bytes)
    ensures DecodeFrame(bytes + rest) == Success(Wire.Chunk(Sized(frame), |bytes|))
            <==> UnknownFields(frame.header.remainder)
  {
    DecodeEncoded(frame, bytes, rest);
    BehindRoundTrip(frame, |bytes|, rest);
  }

  /** Everything WriteFrame accepts, one after the other. */
  function EncodeFrames(frames: seq<Frame>): Result<seq<byte>, FrameError> {
    if frames == [] then Success([])
    else
      var first :- EncodeFrame(frames[0]);
      var rest :- EncodeFrames(frames[1..]);
      Success(first + rest)
  }

  /** ReadFrame until the stream is used up. */
  function DecodeFrames(data: seq<byte>): Result<seq<Frame>, FrameError>
    decreases |data|
  {
    if data == [] then Success([])
    else
      var first :- DecodeFrame(data);
      var rest :- DecodeFrames(data[first.size..]);
      Success([first.value] + rest)
  }

  ghost predicate AllSurvive(frames: seq<Frame>) {
    forall i :: 0 <= i < |frames| ==> UnknownFields(frames[i].header.remainder)
  }

  /** A stream of written frames is read back frame by frame, to its last byte. */
  lemma {:induction false} StreamRoundTrip(frames: seq<Frame>)
    requires EncodeFrames(frames).Success? && AllSurvive(frames)
    ensures var back := DecodeFrames(EncodeFrames(frames).value);
            && back.Success?
            && |back.value| == |frames|
            && forall i :: 0 <= i < |frames| ==>
                 |frames[i].payload| <= MAX_PAYLOAD_SIZE && back.value[i] == Sized(frames[i])
  {
    if frames != [] {
      var first := EncodeFrame(frames[0]).value;
      var rest := EncodeFrames(frames[1..]).value;
      FrameRoundTrip(frames[0], first, rest);
      StreamRoundTrip(frames[1..]);
      assert (first + rest)[|first|..] == rest;
    }
  }

  /** What ReadFrame accepted and WriteFrame forwards, the next reader sees unchanged. */
  lemma RelayedFrame(data: seq<byte>, rest: seq<byte>)
    requires DecodeFrame(data).Success?
    requires EncodeFrame(DecodeFrame(data).value.value).Success?
    ensures var frame := DecodeFrame(data).value.value;
            var bytes := EncodeFrame(frame).value;
            DecodeFrame(bytes + rest) == Success(Wire.Chunk(frame, |bytes|))
  {
    var frame := DecodeFrame(data).value.value;
    ParsedRemainder(HeaderPart(data).value);
    assert Sized(frame) == frame;
    FrameRoundTrip(frame, EncodeFrame(frame).value, rest);
  }
}

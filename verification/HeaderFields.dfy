/** What header bytes mean: which are accepted, what is read from them, and what is written, field by field. */
module HeaderFields {
  import opened Wrappers
  import opened Bytes
  import opened Wire
  import opened WireFields
  import opened Headers

  // ---------- header fields ----------

  /** A field of the header: the numbers it knows come as varints, the service hash also as four bytes. */
  predicate HeaderField(raw: seq<byte>) {
    && OneField(raw)
    && (FieldIn(raw).number in {1, 2, 3, 4, 5, 6, 8, 9} ==> FieldIn(raw).typ == 0)
    && (FieldIn(raw).number == 11 ==> FieldIn(raw).typ in {0, 5})
  }

  predicate IsHeaderCut(pieces: seq<seq<byte>>, data: seq<byte>) {
    IsCut(HeaderField, pieces, data)
  }

  /** The value of the last field of that number, 0 when there is none. */
  function LastOf(pieces: seq<seq<byte>>, number: nat): uint64
    requires AllFields(pieces)
  {
    if pieces == [] then 0
    else
      var last := FieldIn(pieces[|pieces| - 1]);
      if last.number == number then last.scalar else LastOf(pieces[..|pieces| - 1], number)
  }

  /** The fields of all other numbers, verbatim, in order. */
  function OthersOf(pieces: seq<seq<byte>>): seq<byte>
    requires AllFields(pieces)
  {
    if pieces == [] then []
    else
      var last := pieces[|pieces| - 1];
      OthersOf(pieces[..|pieces| - 1])
      + if FieldIn(last).number in {1, 2, 3, 4, 5, 6, 8, 9, 11} then [] else last
  }

  function HeaderFrom(pieces: seq<seq<byte>>): Header
    requires AllFields(pieces)
  {
    Header(
      serviceID := LastOf(pieces, 1) % 0x1_0000_0000, methodID := LastOf(pieces, 2) % 0x1_0000_0000,
      token := LastOf(pieces, 3) % 0x1_0000_0000, objectID := LastOf(pieces, 4),
      size := LastOf(pieces, 5) % 0x1_0000_0000, status := LastOf(pieces, 6) % 0x1_0000_0000,
      timeout := LastOf(pieces, 8), isResponse := LastOf(pieces, 9) != 0,
      serviceHash := LastOf(pieces, 11) % 0x1_0000_0000, remainder := OthersOf(pieces))
  }

  // ---------- reading the pieces ----------

  lemma OneMoreField(pieces: seq<seq<byte>>, raw: seq<byte>)
    requires AllFields(pieces) && OneField(raw)
    ensures AllFields(pieces + [raw])
    ensures HeaderFrom(pieces + [raw])
            == WithField(HeaderFrom(pieces), FieldIn(raw).number, FieldIn(raw).scalar, raw)
  {
    var longer := pieces + [raw];
    forall i | 0 <= i < |longer|
      ensures OneField(longer[i])
    {
      assert longer[i] == if i < |pieces| then pieces[i] else raw;
    }
    assert longer[..|pieces|] == pieces;
  }

  lemma PutHeaderField(h: Header, raw: seq<byte>)
    requires HeaderField(raw)
    ensures Loop(HeaderStep, h, raw) == Success(WithField(h, FieldIn(raw).number, FieldIn(raw).scalar, raw))
  {
    PutField(h, raw, FieldIn(raw));
  }

  /** The header fields of some data, read one after the other. */
  lemma {:induction false} ReadPieces(pieces: seq<seq<byte>>)
    requires forall i :: 0 <= i < |pieces| ==> HeaderField(pieces[i])
    ensures AllFields(pieces) && HeaderOf(Concat(pieces)) == Success(HeaderFrom(pieces))
  {
    if pieces == [] {
    } else {
      var init, last := pieces[..|pieces| - 1], pieces[|pieces| - 1];
      assert pieces == init + [last];
      ReadPieces(init);
      OneMoreField(init, last);
      PutHeaderField(HeaderFrom(init), last);
      HeaderStepIsLocal();
      LoopConcat(HeaderStep, EMPTY_HEADER, Concat(init), last);
    }
  }

  lemma FirstField(h: Header, data: seq<byte>)
    requires HeaderStep(h, data).Success?
    ensures HeaderField(data[..HeaderStep(h, data).value.size])
  {
    var n := HeaderStep(h, data).value.size;
    FieldHasTag(data);
    FieldLocal(data, data[..n]);
  }

  /** Whatever is accepted can be cut into header fields. */
  lemma CutOf(data: seq<byte>) returns (pieces: seq<seq<byte>>)
    requires HeaderOf(data).Success?
    ensures IsHeaderCut(pieces, data)
  {
    forall h, d | HeaderStep(h, d).Success?
      ensures HeaderField(d[..HeaderStep(h, d).value.size])
    {
      FirstField(h, d);
    }
    pieces := CutOfLoop(HeaderStep, HeaderField, EMPTY_HEADER, data);
  }

  /** Exactly the concatenations of header fields are accepted. */
  lemma AcceptedIff(data: seq<byte>)
    ensures HeaderOf(data).Success? <==> exists pieces :: IsHeaderCut(pieces, data)
  {
    if HeaderOf(data).Success? {
      var pieces := CutOf(data);
    }
    if pieces :| IsHeaderCut(pieces, data) {
      ReadPieces(pieces);
    }
  }

  /** Each member is the last value of its number, the remainder all fields of other numbers, in order. */
  lemma AcceptedMembers(pieces: seq<seq<byte>>, data: seq<byte>)
    requires IsHeaderCut(pieces, data)
    ensures HeaderOf(data) == Success(HeaderFrom(pieces))
  {
    ReadPieces(pieces);
  }

  // ---------- refusing ----------

  /** Why the field at the front is refused: its key, then its wire type, then its value. */
  function Refusal(rest: seq<byte>): Option<Error> {
    match ConsumeTag(rest)
    case Failure(e) => Some(e)
    case Success(Chunk(Tag(number, typ), _)) =>
      if (number in {1, 2, 3, 4, 5, 6, 8, 9} && typ != 0) || (number == 11 && typ !in {0, 5}) then Some(WireType(number, typ))
      else if ConsumeField(rest).Failure? then Some(ConsumeField(rest).error)
      else None
  }

  lemma StepRefused(h: Header, rest: seq<byte>)
    requires Refusal(rest).Some?
    ensures HeaderStep(h, rest) == Failure(Refusal(rest).value)
  {
  }

  /** Behind any number of header fields, the first field that is refused decides the error. */
  lemma FirstRefused(pieces: seq<seq<byte>>, front: seq<byte>, rest: seq<byte>)
    requires IsHeaderCut(pieces, front) && rest != [] && Refusal(rest).Some?
    ensures HeaderOf(front + rest) == Failure(Refusal(rest).value)
  {
    ReadPieces(pieces);
    StepRefused(HeaderFrom(pieces), rest);
    HeaderStepIsLocal();
    LoopConcat(HeaderStep, EMPTY_HEADER, front, rest);
    LoopFirst(HeaderStep, HeaderFrom(pieces), rest);
  }

  // ---------- writing ----------

  function Unless0(number: nat, v: uint64): seq<byte> {
    if v == 0 then [] else VarintField(number, v)
  }

  /** The fields a header is written as: service and token always, the others unless they are zero. */
  function WrittenFields(h: Header): seq<byte> {
    VarintField(1, h.serviceID) + Unless0(2, h.methodID) + VarintField(3, h.token) + Unless0(4, h.objectID)
    + Unless0(5, h.size) + Unless0(6, h.status) + Unless0(8, h.timeout) + Unless0(9, if h.isResponse then 1 else 0)
    + (if h.serviceHash == 0 then [] else Fixed32Field(11, h.serviceHash)) + h.remainder
  }

  lemma ConcatFive(p: seq<seq<byte>>)
    requires |p| >= 5
    ensures Concat(p[..5]) == p[0] + p[1] + p[2] + p[3] + p[4]
  {
    ConcatNext(p, 0);
    assert Concat(p[..0]) + p[0] == p[0];
    ConcatNext(p, 1);
    ConcatNext(p, 2);
    ConcatNext(p, 3);
    ConcatNext(p, 4);
  }

  lemma ConcatTen(p: seq<seq<byte>>)
    requires |p| == 10
    ensures Concat(p) == p[0] + p[1] + p[2] + p[3] + p[4] + p[5] + p[6] + p[7] + p[8] + p[9]
  {
    ConcatFive(p);
    ConcatNext(p, 5);
    ConcatNext(p, 6);
    ConcatNext(p, 7);
    ConcatNext(p, 8);
    ConcatNext(p, 9);
    assert p[..10] == p;
  }

  /** MarshalHeader writes exactly those. */
  lemma HeaderBytes(h: Header)
    ensures MarshalHeader(h) == WrittenFields(h)
  {
    ConcatTen(Pieces(h));
  }
}

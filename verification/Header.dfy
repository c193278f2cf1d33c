/** The BNet RPC header: a protobuf message whose unknown fields are kept verbatim. */
module Headers {
  import opened Wrappers
  import opened Bytes
  import opened Wire

  datatype Header = Header(
    serviceID: uint32,
    methodID: uint32,
    token: uint32,
    objectID: uint64,
    size: uint32,
    status: uint32,
    timeout: uint64,
    isResponse: bool,
    serviceHash: uint32,
    remainder: seq<byte>)

  const EMPTY_HEADER: Header := Header(0, 0, 0, 0, 0, 0, 0, false, 0, [])

  const SERVICE_HASH: nat := 11

  predicate IsScalar(number: nat) {
    1 <= number <= 6 || number == 8 || number == 9
  }

  /** The field numbers the header interprets. */
  const KNOWN: set<nat> := {1, 2, 3, 4, 5, 6, 8, 9, SERVICE_HASH}

  /** The wire types the header takes for a field; unknown fields come in any. */
  predicate WellTyped(number: nat, typ: nat) {
    (IsScalar(number) ==> typ == VARINT) && (number == SERVICE_HASH ==> typ == FIXED32 || typ == VARINT)
  }

  /** The header after one more field, given also as the raw bytes it came in. */
  function WithField(h: Header, number: nat, v: uint64, raw: seq<byte>): Header {
    match number
    case 1 => h.(serviceID := Truncate32(v))
    case 2 => h.(methodID := Truncate32(v))
    case 3 => h.(token := Truncate32(v))
    case 4 => h.(objectID := v)
    case 5 => h.(size := Truncate32(v))
    case 6 => h.(status := Truncate32(v))
    case 8 => h.(timeout := v)
    case 9 => h.(isResponse := v != 0)
    case 11 => h.(serviceHash := Truncate32(v))
    case _ => h.(remainder := h.remainder + raw)
  }

  /** One field read into the header: its wire type is checked before its value is read. */
  function HeaderStep(h: Header, data: seq<byte>): (r: Result<Step<Header>, Error>)
    ensures r.Success? ==> 1 <= r.value.size <= |data|
  {
    var tag :- ConsumeTag(data);
    if !WellTyped(tag.value.number, tag.value.typ) then Failure(WireType(tag.value.number, tag.value.typ))
    else
      var field :- ConsumeField(data);
      Success(Step(WithField(h, field.value.number, field.value.scalar, data[..field.size]), field.size))
  }

  function HeaderOf(data: seq<byte>): Result<Header, Error> {
    Loop(HeaderStep, EMPTY_HEADER, data)
  }

  method ParseHeader(input: seq<byte>) returns (r: Result<Header, Error>)
    ensures r == HeaderOf(input)
  {
    var header, data := EMPTY_HEADER, input;
    while data != []
      invariant HeaderOf(input) == Loop(HeaderStep, header, data)
      decreases |data|
    {
      LoopFirst(HeaderStep, header, data);
      var next :- HeaderStep(header, data);
      header, data := next.state, data[next.size..];
    }
    return Success(header);
  }

  // ---------- marshalling ----------

  datatype Scalar = Scalar(number: nat, value: uint64, present: bool)

  /** Field number, value and presence of the varint members, in the order they are written. */
  function Scalars(h: Header): seq<Scalar> {
    [ Scalar(1, h.serviceID, true), // proto2 required, as is the token
      Scalar(2, h.methodID, h.methodID != 0),
      Scalar(3, h.token, true),
      Scalar(4, h.objectID, h.objectID != 0),
      Scalar(5, h.size, h.size != 0),
      Scalar(6, h.status, h.status != 0),
      Scalar(8, h.timeout, h.timeout != 0),
      Scalar(9, if h.isResponse then 1 else 0, h.isResponse)]
  }

  function AppendScalar(m: Scalar): seq<byte> {
    if m.present then VarintField(m.number, m.value) else []
  }

  function AppendHash(hash: uint32): seq<byte> {
    if hash != 0 then Fixed32Field(SERVICE_HASH, hash) else []
  }

  /** The ten pieces of an encoded header. */
  function Pieces(h: Header): (ps: seq<seq<byte>>)
    ensures |ps| == 10
  {
    seq(8, i requires 0 <= i < 8 => AppendScalar(Scalars(h)[i])) + [AppendHash(h.serviceHash), h.remainder]
  }

  function MarshalHeader(h: Header): seq<byte> {
    Concat(Pieces(h))
  }

  // ---------- what a remainder is ----------

  /** A concatenation of fields of numbers the header does not interpret. */
  ghost predicate UnknownFields(raw: seq<byte>) {
    FieldsOutside(raw, KNOWN)
  }

  // ---------- the step is local ----------

  lemma HeaderStepLocal(h: Header, a: seq<byte>, b: seq<byte>)
    requires HeaderStep(h, a).Success?
    requires Agree(a, b, HeaderStep(h, a).value.size)
    ensures HeaderStep(h, b) == HeaderStep(h, a)
  {
    AgreeAfter(a, b, HeaderStep(h, a).value.size, ConsumeTag(a).value.size);
    TagLocal(a, b);
    FieldLocal(a, b);
    var n := HeaderStep(h, a).value.size;
    assert a[..n] == b[..n];
  }

  lemma HeaderStepIsLocal()
    ensures Local(HeaderStep)
  {
    forall h, a, b | HeaderStep(h, a).Success? && Agree(a, b, HeaderStep(h, a).value.size)
      ensures HeaderStep(h, b) == HeaderStep(h, a)
    {
      HeaderStepLocal(h, a, b);
    }
  }

  // ---------- marshalling, then parsing ----------

  /** A header field alone on the wire. */
  lemma PutField(h: Header, raw: seq<byte>, field: Field)
    requires ConsumeField(raw) == Success(Chunk(field, |raw|))
    requires WellTyped(field.number, field.typ)
    ensures Loop(HeaderStep, h, raw) == Success(WithField(h, field.number, field.scalar, raw))
  {
    FieldHasTag(raw);
    assert raw[..|raw|] == raw;
    LoopWhole(HeaderStep, h, raw, WithField(h, field.number, field.scalar, raw));
  }

  lemma FieldHasTag(data: seq<byte>)
    requires ConsumeField(data).Success?
    ensures var field := ConsumeField(data).value.value;
            ConsumeTag(data).Success? && ConsumeTag(data).value.value == Tag(field.number, field.typ)
  {
  }

  lemma PutScalar(h: Header, m: Scalar)
    requires IsScalar(m.number)
    ensures Loop(HeaderStep, h, AppendScalar(m))
         == Success(if m.present then WithField(h, m.number, m.value, []) else h)
  {
    if m.present {
      var raw := VarintField(m.number, m.value);
      VarintFieldRoundTrip(m.number, m.value, []);
      assert raw + [] == raw;
      PutField(h, raw, Field(m.number, VARINT, [], m.value));
    }
  }

  lemma HashWithField(h: Header, hash: uint32, raw: seq<byte>)
    ensures WithField(h, SERVICE_HASH, hash, raw) == h.(serviceHash := hash)
  {
  }

  lemma PutHash(h: Header, hash: uint32)
    ensures Loop(HeaderStep, h, AppendHash(hash)) == Success(if hash != 0 then h.(serviceHash := hash) else h)
  {
    if hash != 0 {
      var raw := Fixed32Field(SERVICE_HASH, hash);
      Fixed32FieldRoundTrip(SERVICE_HASH, hash, []);
      assert raw + [] == raw;
      PutField(h, raw, Field(SERVICE_HASH, FIXED32, [], hash));
      HashWithField(h, hash, raw);
    }
  }

  function Remembering(h: Header, raw: seq<byte>): Header {
    h.(remainder := h.remainder + raw)
  }

  lemma RememberingNothing(h: Header)
    ensures Remembering(h, []) == h
  {
  }

  lemma UnknownWithField(h: Header, number: nat, typ: nat, v: uint64, before: seq<byte>, raw: seq<byte>)
    requires number !in KNOWN
    ensures WellTyped(number, typ)
    ensures WithField(Remembering(h, before), number, v, raw) == Remembering(h, before + raw)
  {
  }

  lemma PutUnknown(h: Header, before: seq<byte>, raw: seq<byte>)
    requires FieldOutside(raw, KNOWN)
    ensures Loop(HeaderStep, Remembering(h, before), raw) == Success(Remembering(h, before + raw))
  {
    var field := ConsumeField(raw).value.value;
    UnknownWithField(h, field.number, field.typ, field.scalar, before, raw);
    PutField(Remembering(h, before), raw, field);
  }

  /** Unknown fields are appended to the remainder byte for byte. */
  lemma PutRemainder(h: Header, raw: seq<byte>)
    requires UnknownFields(raw)
    ensures Loop(HeaderStep, h, raw) == Success(Remembering(h, raw))
  {
    var fields :| IsSplit(fields, raw, KNOWN);
    var state := before => Remembering(h, before);
    forall p, before | p in fields
      ensures Loop(HeaderStep, state(before), p) == Success(state(before + p))
    {
      PutUnknown(h, before, p);
    }
    HeaderStepIsLocal();
    LoopCollects(HeaderStep, state, fields);
    RememberingNothing(h);
  }

  /** The header with its first n members set, in the order MarshalHeader writes them. */
  function Members(h: Header, n: nat): Header {
    Header(if n > 0 then h.serviceID else 0, if n > 1 then h.methodID else 0, if n > 2 then h.token else 0,
           if n > 3 then h.objectID else 0, if n > 4 then h.size else 0, if n > 5 then h.status else 0,
           if n > 6 then h.timeout else 0, n > 7 && h.isResponse, if n > 8 then h.serviceHash else 0,
           if n > 9 then h.remainder else [])
  }

  lemma NextMember(h: Header, n: nat)
    requires n < 8
    ensures var m := Scalars(h)[n];
            && IsScalar(m.number)
            && Members(h, n + 1) == if m.present then WithField(Members(h, n), m.number, m.value, []) else Members(h, n)
  {
  }

  lemma PutPiece(h: Header, n: nat)
    requires n < 10 && UnknownFields(h.remainder)
    ensures Loop(HeaderStep, Members(h, n), Pieces(h)[n]) == Success(Members(h, n + 1))
  {
    if n < 8 {
      NextMember(h, n);
      PutScalar(Members(h, n), Scalars(h)[n]);
    } else if n == 8 {
      PutHash(Members(h, n), h.serviceHash);
    } else {
      PutRemainder(Members(h, n), h.remainder);
      assert [] + h.remainder == h.remainder;
    }
  }

  /** Every header whose remainder is made of unknown fields survives the wire. */
  lemma MarshalRoundTrip(h: Header)
    requires UnknownFields(h.remainder)
    ensures HeaderOf(MarshalHeader(h)) == Success(h)
  {
    forall i | 0 <= i < 10
      ensures Loop(HeaderStep, Members(h, i), Pieces(h)[i]) == Success(Members(h, i + 1))
    {
      PutPiece(h, i);
    }
    HeaderStepIsLocal();
    LoopPieces(HeaderStep, (n: nat) => Members(h, n), Pieces(h), 10);
    assert Pieces(h)[..10] == Pieces(h);
  }

  // ---------- parsing, then marshalling ----------

  lemma KeepsUnknown(h: Header, data: seq<byte>)
    requires UnknownFields(h.remainder) && HeaderStep(h, data).Success?
    ensures UnknownFields(HeaderStep(h, data).value.state.remainder)
  {
    var Chunk(field, n) := ConsumeField(data).value;
    FieldHasTag(data);
    if field.number !in KNOWN {
      FieldLocal(data, data[..n]);
      OneMoreOutside(h.remainder, data[..n], KNOWN);
    }
  }

  /** Whatever bytes are accepted, the remainder kept from them is a concatenation of unknown fields. */
  lemma ParsedRemainder(data: seq<byte>)
    requires HeaderOf(data).Success?
    ensures UnknownFields(HeaderOf(data).value.remainder)
  {
    var inv := (h: Header) => UnknownFields(h.remainder);
    NothingOutside(KNOWN);
    forall h, d | inv(h) && HeaderStep(h, d).Success?
      ensures inv(HeaderStep(h, d).value.state)
    {
      KeepsUnknown(h, d);
    }
    LoopInvariant(HeaderStep, inv, EMPTY_HEADER, data);
  }

  /** Renormalisation: an accepted header, written again, parses to itself. */
  lemma Renormalise(data: seq<byte>)
    requires HeaderOf(data).Success?
    ensures HeaderOf(MarshalHeader(HeaderOf(data).value)) == HeaderOf(data)
  {
    ParsedRemainder(data);
    MarshalRoundTrip(HeaderOf(data).value);
  }

  /** The headers that survive the wire are exactly those whose remainder is made of unknown fields. */
  lemma SurvivesIff(h: Header)
    ensures HeaderOf(MarshalHeader(h)) == Success(h) <==> UnknownFields(h.remainder)
  {
    if UnknownFields(h.remainder) {
      MarshalRoundTrip(h);
    } else if HeaderOf(MarshalHeader(h)) == Success(h) {
      ParsedRemainder(MarshalHeader(h));
    }
  }
}

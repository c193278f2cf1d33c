/**
 Protocol Buffers wire format, as the protowire library reads and writes it
 (Encoding guide, sections "Base 128 Varints", "Message Structure", "Groups").
 */
module Wire {
  import opened Wrappers
  import opened Bytes

  const VARINT: nat := 0
  const FIXED64: nat := 1
  const BYTES: nat := 2
  const START_GROUP: nat := 3
  const END_GROUP: nat := 4
  const FIXED32: nat := 5

  const MAX_VARINT_BYTES: nat := 10
  const MAX_FIELD_NUMBER: nat := 0x7FFF_FFFF
  const RECURSION_LIMIT: nat := 10000

  datatype Error =
    | Truncated
    | Overflow
    | FieldNumber
    | Reserved
    | EndGroup
    | RecursionDepth
    | WireType(number: nat, typ: nat)

  /** A value read from the front of some bytes, and how many bytes it took. */
  datatype Chunk<+T> = Chunk(value: T, size: nat)

  datatype Tag = Tag(number: nat, typ: nat)

  /** A field as a visitor sees it: groups carry neither bytes nor scalar. */
  datatype Field = Field(number: nat, typ: nat, bytes: seq<byte>, scalar: uint64)

  // ---------- writing ----------

  function AppendVarint(v: nat): (bs: seq<byte>)
    ensures |bs| > 0
  {
    if v < 128 then [v] else [v % 128 + 128] + AppendVarint(v / 128)
  }

  function AppendTag(number: nat, typ: nat): seq<byte>
    requires typ < 8
  {
    AppendVarint(8 * number + typ)
  }

  function VarintField(number: nat, v: nat): seq<byte> {
    AppendTag(number, VARINT) + AppendVarint(v)
  }

  function BytesField(number: nat, bs: seq<byte>): seq<byte> {
    AppendTag(number, BYTES) + AppendVarint(|bs|) + bs
  }

  function Fixed32Field(number: nat, v: uint32): seq<byte> {
    AppendTag(number, FIXED32) + LittleBytes(v, 4)
  }

  function Fixed64Field(number: nat, v: uint64): seq<byte> {
    AppendTag(number, FIXED64) + LittleBytes(v, 8)
  }

  // ---------- reading ----------

  /** What a varint of at most room bytes stays below: its last byte carries one bit. */
  function Limit(room: nat): (n: nat)
    requires room > 0
    ensures n >= 2
  {
    if room == 1 then 2 else 128 * Limit(room - 1)
  }

  function VarintWithin(data: seq<byte>, room: nat): (r: Result<Chunk<nat>, Error>)
    requires room > 0
    ensures r.Success? ==> 1 <= r.value.size <= |data| && r.value.value < Limit(room)
  {
    if data == [] then Failure(Truncated)
    else if room == 1 then (if data[0] < 2 then Success(Chunk(data[0], 1)) else Failure(Overflow))
    else if data[0] < 128 then Success(Chunk(data[0], 1))
    else
      var rest :- VarintWithin(data[1..], room - 1);
      Success(Chunk(data[0] - 128 + 128 * rest.value, 1 + rest.size))
  }

  function ConsumeVarint(data: seq<byte>): (r: Result<Chunk<uint64>, Error>)
    ensures r.Success? ==> 1 <= r.value.size <= |data|
  {
    LimitIs64();
    var v :- VarintWithin(data, MAX_VARINT_BYTES);
    Success(Chunk(v.value, v.size))
  }

  function ConsumeTag(data: seq<byte>): (r: Result<Chunk<Tag>, Error>)
    ensures r.Success? ==>
              && 1 <= r.value.size <= |data|
              && 1 <= r.value.value.number <= MAX_FIELD_NUMBER
              && r.value.value.typ < 8
  {
    var v :- ConsumeVarint(data);
    var number := v.value / 8;
    if number > MAX_FIELD_NUMBER || number < 1 then Failure(FieldNumber)
    else Success(Chunk(Tag(number, v.value % 8), v.size))
  }

  function ConsumeFixed32(data: seq<byte>): (r: Result<Chunk<uint32>, Error>)
    ensures r.Success? ==> r.value.size == 4 <= |data|
  {
    Widths();
    if |data| < 4 then Failure(Truncated) else Success(Chunk(LittleValue(data[..4]), 4))
  }

  function ConsumeFixed64(data: seq<byte>): (r: Result<Chunk<uint64>, Error>)
    ensures r.Success? ==> r.value.size == 8 <= |data|
  {
    Widths();
    if |data| < 8 then Failure(Truncated) else Success(Chunk(LittleValue(data[..8]), 8))
  }

  function ConsumeBytes(data: seq<byte>): (r: Result<Chunk<seq<byte>>, Error>)
    ensures r.Success? ==> 1 <= r.value.size <= |data|
  {
    var length :- ConsumeVarint(data);
    if length.value > |data| - length.size then Failure(Truncated)
    else
      var end := length.size + length.value;
      Success(Chunk(data[length.size..end], end))
  }

  /** The size of a value that is not a group. */
  function ScalarSize(typ: nat, data: seq<byte>): (r: Result<nat, Error>)
    ensures r.Success? ==> r.value <= |data|
  {
    if typ == VARINT then
      var v :- ConsumeVarint(data);
      Success(v.size)
    else if typ == FIXED32 then
      var v :- ConsumeFixed32(data);
      Success(v.size)
    else if typ == FIXED64 then
      var v :- ConsumeFixed64(data);
      Success(v.size)
    else if typ == BYTES then
      var v :- ConsumeBytes(data);
      Success(v.size)
    else if typ == END_GROUP then Failure(EndGroup)
    else Failure(Reserved)
  }

  /** The state after one read from the front of the data, and the bytes it took. */
  datatype Step<+S> = Step(state: S, size: nat)

  /** Steps over the data until it is used up: the shape of every parse loop here. */
  function Loop<S(!new)>(step: (S, seq<byte>) -> Result<Step<S>, Error>, state: S, data: seq<byte>): Result<S, Error>
    requires Consumes(step)
    decreases |data|
  {
    if data == [] then Success(state)
    else
      var next :- step(state, data);
      Loop(step, next.state, data[next.size..])
  }

  /** A step that succeeds takes at least one byte, and no more than there are. */
  ghost predicate Consumes<S(!new)>(step: (S, seq<byte>) -> Result<Step<S>, Error>) {
    forall s, d :: step(s, d).Success? ==> 1 <= step(s, d).value.size <= |d|
  }

  /** The group numbers still open after one tag, with its value unless it opens or closes a group. */
  function GroupStep(open: seq<nat>, data: seq<byte>): (r: Result<Step<seq<nat>>, Error>)
    ensures r.Success? ==> 1 <= r.value.size <= |data|
  {
    var tag :- ConsumeTag(data);
    var Tag(number, typ) := tag.value;
    if typ == END_GROUP then
      if open == [] || number != open[|open| - 1] then Failure(EndGroup)
      else Success(Step(open[..|open| - 1], tag.size))
    else if typ == START_GROUP then
      if |open| > RECURSION_LIMIT then Failure(RecursionDepth) else Success(Step(open + [number], tag.size))
    else
      var n :- ScalarSize(typ, data[tag.size..]);
      Success(Step(open, tag.size + n))
  }

  /** The bytes that steps take until no group is open. */
  function SizeUntilClosed(step: (seq<nat>, seq<byte>) -> Result<Step<seq<nat>>, Error>, open: seq<nat>, data: seq<byte>)
    : (r: Result<nat, Error>)
    requires Consumes(step)
    ensures r.Success? ==> r.value <= |data|
    decreases |data|
  {
    if open == [] then Success(0)
    else
      var next :- step(open, data);
      var rest :- SizeUntilClosed(step, next.state, data[next.size..]);
      Success(next.size + rest)
  }

  function ConsumeFieldValue(number: nat, typ: nat, data: seq<byte>): (r: Result<nat, Error>)
    ensures r.Success? ==> r.value <= |data|
  {
    if typ == START_GROUP then SizeUntilClosed(GroupStep, [number], data) else ScalarSize(typ, data)
  }

  /** The value after a tag. */
  function ConsumeValue(tag: Tag, data: seq<byte>): (r: Result<Chunk<Field>, Error>)
    ensures r.Success? ==> r.value.size <= |data|
  {
    var Tag(number, typ) := tag;
    if typ == VARINT then
      var v :- ConsumeVarint(data);
      Success(Chunk(Field(number, typ, [], v.value), v.size))
    else if typ == FIXED32 then
      var v :- ConsumeFixed32(data);
      Success(Chunk(Field(number, typ, [], v.value), v.size))
    else if typ == FIXED64 then
      var v :- ConsumeFixed64(data);
      Success(Chunk(Field(number, typ, [], v.value), v.size))
    else if typ == BYTES then
      var v :- ConsumeBytes(data);
      Success(Chunk(Field(number, typ, v.value, 0), v.size))
    else
      var n :- ConsumeFieldValue(number, typ, data);
      Success(Chunk(Field(number, typ, [], 0), n))
  }

  /** One whole field: tag, then value. */
  function ConsumeField(data: seq<byte>): (r: Result<Chunk<Field>, Error>)
    ensures r.Success? ==> 1 <= r.value.size <= |data|
  {
    var tag :- ConsumeTag(data);
    var field :- ConsumeValue(tag.value, data[tag.size..]);
    Success(Chunk(field.value, tag.size + field.size))
  }

  lemma LimitIs64()
    ensures Limit(MAX_VARINT_BYTES) == TWO_64
  {
  }

  // ---------- a read depends only on the bytes it consumes ----------

  /** a and b start with the same n bytes. */
  predicate Agree(a: seq<byte>, b: seq<byte>, n: nat) {
    n <= |a| && n <= |b| && forall i :: 0 <= i < n ==> a[i] == b[i]
  }

  lemma AgreeAfter(a: seq<byte>, b: seq<byte>, n: nat, k: nat)
    requires k <= n && Agree(a, b, n)
    ensures Agree(a, b, k) && Agree(a[k..], b[k..], n - k)
  {
  }

  lemma {:induction false} VarintLocal(a: seq<byte>, b: seq<byte>, room: nat)
    requires room > 0
    requires VarintWithin(a, room).Success?
    requires Agree(a, b, VarintWithin(a, room).value.size)
    ensures VarintWithin(b, room) == VarintWithin(a, room)
  {
    var n := VarintWithin(a, room).value.size;
    if room > 1 && a[0] >= 128 {
      AgreeAfter(a, b, n, 1);
      VarintLocal(a[1..], b[1..], room - 1);
    }
  }

  lemma TagLocal(a: seq<byte>, b: seq<byte>)
    requires ConsumeTag(a).Success?
    requires Agree(a, b, ConsumeTag(a).value.size)
    ensures ConsumeTag(b) == ConsumeTag(a)
  {
    VarintLocal(a, b, MAX_VARINT_BYTES);
  }

  lemma BytesLocal(a: seq<byte>, b: seq<byte>)
    requires ConsumeBytes(a).Success?
    requires Agree(a, b, ConsumeBytes(a).value.size)
    ensures ConsumeBytes(b) == ConsumeBytes(a)
  {
    var length := ConsumeVarint(a).value;
    var end := ConsumeBytes(a).value.size;
    AgreeAfter(a, b, end, length.size);
    VarintLocal(a, b, MAX_VARINT_BYTES);
    assert a[length.size..end] == b[length.size..end];
  }

  lemma ScalarSizeLocal(typ: nat, a: seq<byte>, b: seq<byte>)
    requires ScalarSize(typ, a).Success?
    requires Agree(a, b, ScalarSize(typ, a).value)
    ensures ScalarSize(typ, b) == ScalarSize(typ, a)
  {
    if typ == VARINT {
      VarintLocal(a, b, MAX_VARINT_BYTES);
    } else if typ == BYTES {
      BytesLocal(a, b);
    }
  }

  lemma GroupStepLocal(open: seq<nat>, a: seq<byte>, b: seq<byte>)
    requires GroupStep(open, a).Success?
    requires Agree(a, b, GroupStep(open, a).value.size)
    ensures GroupStep(open, b) == GroupStep(open, a)
  {
    var size := GroupStep(open, a).value.size;
    var Chunk(tag, k) := ConsumeTag(a).value;
    AgreeAfter(a, b, size, k);
    TagLocal(a, b);
    if tag.typ != END_GROUP && tag.typ != START_GROUP {
      ScalarSizeLocal(tag.typ, a[k..], b[k..]);
    }
  }

  /** The result of a step depends only on the bytes it takes. */
  ghost predicate Local<S(!new)>(step: (S, seq<byte>) -> Result<Step<S>, Error>) {
    forall s, a, b :: step(s, a).Success? && Agree(a, b, step(s, a).value.size) ==> step(s, b) == step(s, a)
  }

  lemma {:induction false} UntilClosedLocal(
    step: (seq<nat>, seq<byte>) -> Result<Step<seq<nat>>, Error>, open: seq<nat>, a: seq<byte>, b: seq<byte>)
    requires Consumes(step) && Local(step)
    requires SizeUntilClosed(step, open, a).Success?
    requires Agree(a, b, SizeUntilClosed(step, open, a).value)
    ensures SizeUntilClosed(step, open, b) == SizeUntilClosed(step, open, a)
    decreases |a|
  {
    if open != [] {
      var next := step(open, a).value;
      AgreeAfter(a, b, SizeUntilClosed(step, open, a).value, next.size);
      UntilClosedLocal(step, next.state, a[next.size..], b[next.size..]);
    }
  }

  lemma FieldValueLocal(number: nat, typ: nat, a: seq<byte>, b: seq<byte>)
    requires ConsumeFieldValue(number, typ, a).Success?
    requires Agree(a, b, ConsumeFieldValue(number, typ, a).value)
    ensures ConsumeFieldValue(number, typ, b) == ConsumeFieldValue(number, typ, a)
  {
    if typ == START_GROUP {
      forall s, a, b | GroupStep(s, a).Success? && Agree(a, b, GroupStep(s, a).value.size)
        ensures GroupStep(s, b) == GroupStep(s, a)
      {
        GroupStepLocal(s, a, b);
      }
      UntilClosedLocal(GroupStep, [number], a, b);
    } else {
      ScalarSizeLocal(typ, a, b);
    }
  }

  lemma ValueLocal(tag: Tag, a: seq<byte>, b: seq<byte>)
    requires ConsumeValue(tag, a).Success?
    requires Agree(a, b, ConsumeValue(tag, a).value.size)
    ensures ConsumeValue(tag, b) == ConsumeValue(tag, a)
  {
    if tag.typ == VARINT {
      VarintLocal(a, b, MAX_VARINT_BYTES);
    } else if tag.typ == BYTES {
      BytesLocal(a, b);
    } else if tag.typ == FIXED32 {
      assert a[..4] == b[..4];
    } else if tag.typ == FIXED64 {
      assert a[..8] == b[..8];
    } else {
      FieldValueLocal(tag.number, tag.typ, a, b);
    }
  }

  lemma FieldLocal(a: seq<byte>, b: seq<byte>)
    requires ConsumeField(a).Success?
    requires Agree(a, b, ConsumeField(a).value.size)
    ensures ConsumeField(b) == ConsumeField(a)
  {
    var Chunk(tag, k) := ConsumeTag(a).value;
    var value := ConsumeValue(tag, a[k..]).value;
    FieldOfParts(a, tag, k, value);
    PartsLocal(a, b, tag, k, value);
    FieldOfParts(b, tag, k, value);
  }

  lemma PartsLocal(a: seq<byte>, b: seq<byte>, tag: Tag, k: nat, value: Chunk<Field>)
    requires ConsumeTag(a) == Success(Chunk(tag, k)) && ConsumeValue(tag, a[k..]) == Success(value)
    requires Agree(a, b, k + value.size)
    ensures k <= |b| && ConsumeTag(b) == ConsumeTag(a) && ConsumeValue(tag, b[k..]) == ConsumeValue(tag, a[k..])
  {
    AgreeAfter(a, b, k + value.size, k);
    TagLocal(a, b);
    ValueLocal(tag, a[k..], b[k..]);
  }

  lemma FieldOfParts(data: seq<byte>, tag: Tag, k: nat, value: Chunk<Field>)
    requires ConsumeTag(data) == Success(Chunk(tag, k)) && ConsumeValue(tag, data[k..]) == Success(value)
    ensures ConsumeField(data) == Success(Chunk(value.value, k + value.size))
  {
  }

  // ---------- reading undoes writing, whatever follows ----------

  lemma {:induction false} VarintRoundTripWithin(v: nat, rest: seq<byte>, room: nat)
    requires room > 0 && v < Limit(room)
    ensures VarintWithin(AppendVarint(v) + rest, room) == Success(Chunk(v, |AppendVarint(v)|))
  {
    if v >= 128 {
      assert (AppendVarint(v) + rest)[1..] == AppendVarint(v / 128) + rest;
      VarintRoundTripWithin(v / 128, rest, room - 1);
    }
  }

  lemma VarintRoundTrip(v: uint64, rest: seq<byte>)
    ensures ConsumeVarint(AppendVarint(v) + rest) == Success(Chunk(v, |AppendVarint(v)|))
  {
    LimitIs64();
    VarintRoundTripWithin(v, rest, MAX_VARINT_BYTES);
  }

  lemma TagRoundTrip(number: nat, typ: nat, rest: seq<byte>)
    requires 1 <= number <= MAX_FIELD_NUMBER && typ < 8
    ensures ConsumeTag(AppendTag(number, typ) + rest) == Success(Chunk(Tag(number, typ), |AppendTag(number, typ)|))
  {
    VarintRoundTrip(8 * number + typ, rest);
  }

  lemma VarintFieldRoundTrip(number: nat, v: uint64, rest: seq<byte>)
    requires 1 <= number <= MAX_FIELD_NUMBER
    ensures ConsumeField(VarintField(number, v) + rest)
         == Success(Chunk(Field(number, VARINT, [], v), |VarintField(number, v)|))
  {
    var tag := AppendTag(number, VARINT);
    var tail := AppendVarint(v) + rest;
    assert VarintField(number, v) + rest == tag + tail;
    TagRoundTrip(number, VARINT, tail);
    VarintRoundTrip(v, rest);
  }

  lemma Fixed32FieldRoundTrip(number: nat, v: uint32, rest: seq<byte>)
    requires 1 <= number <= MAX_FIELD_NUMBER
    ensures ConsumeField(Fixed32Field(number, v) + rest)
         == Success(Chunk(Field(number, FIXED32, [], v), |Fixed32Field(number, v)|))
  {
    var tag := AppendTag(number, FIXED32);
    var tail := LittleBytes(v, 4) + rest;
    assert Fixed32Field(number, v) + rest == tag + tail;
    TagRoundTrip(number, FIXED32, tail);
    assert tail[..4] == LittleBytes(v, 4);
    Widths();
    LittleRoundTrip(v, 4);
  }

  lemma Fixed64FieldRoundTrip(number: nat, v: uint64, rest: seq<byte>)
    requires 1 <= number <= MAX_FIELD_NUMBER
    ensures ConsumeField(Fixed64Field(number, v) + rest)
         == Success(Chunk(Field(number, FIXED64, [], v), |Fixed64Field(number, v)|))
  {
    var tag := AppendTag(number, FIXED64);
    var tail := LittleBytes(v, 8) + rest;
    assert Fixed64Field(number, v) + rest == tag + tail;
    TagRoundTrip(number, FIXED64, tail);
    assert tail[..8] == LittleBytes(v, 8);
    Widths();
    LittleRoundTrip(v, 8);
  }

  lemma BytesFieldRoundTrip(number: nat, bs: seq<byte>, rest: seq<byte>)
    requires 1 <= number <= MAX_FIELD_NUMBER && |bs| < TWO_64
    ensures ConsumeField(BytesField(number, bs) + rest)
         == Success(Chunk(Field(number, BYTES, bs, 0), |BytesField(number, bs)|))
  {
    var tag := AppendTag(number, BYTES);
    var length := AppendVarint(|bs|);
    var tail := length + (bs + rest);
    assert BytesField(number, bs) + rest == tag + tail;
    TagRoundTrip(number, BYTES, tail);
    VarintRoundTrip(|bs|, bs + rest);
    assert tail[|length|..|length| + |bs|] == bs;
    assert (tag + tail)[|tag|..] == tail;
  }

  // ---------- loops over concatenated input ----------

  /** A loop that uses up a continues on whatever follows a. */
  lemma {:induction false} LoopConcat<S(!new)>(
    step: (S, seq<byte>) -> Result<Step<S>, Error>, state: S, a: seq<byte>, b: seq<byte>)
    requires Consumes(step) && Local(step)
    requires Loop(step, state, a).Success?
    ensures Loop(step, state, a + b) == Loop(step, Loop(step, state, a).value, b)
    decreases |a|
  {
    if a == [] {
      assert a + b == b;
    } else {
      var next := step(state, a).value;
      assert Agree(a, a + b, next.size);
      assert (a + b)[next.size..] == a[next.size..] + b;
      LoopConcat(step, next.state, a[next.size..], b);
    }
  }

  /** The first step of a loop with data left. */
  lemma LoopFirst<S(!new)>(step: (S, seq<byte>) -> Result<Step<S>, Error>, state: S, data: seq<byte>)
    requires Consumes(step) && data != []
    ensures step(state, data).Failure? ==> Loop(step, state, data) == Failure(step(state, data).error)
    ensures step(state, data).Success? ==>
              var next := step(state, data).value;
              Loop(step, state, data) == Loop(step, next.state, data[next.size..])
  {
  }

  function Concat(pieces: seq<seq<byte>>): seq<byte> {
    if pieces == [] then [] else Concat(pieces[..|pieces| - 1]) + pieces[|pieces| - 1]
  }

  lemma ConcatNext(pieces: seq<seq<byte>>, i: nat)
    requires i < |pieces|
    ensures Concat(pieces[..i + 1]) == Concat(pieces[..i]) + pieces[i]
  {
    assert pieces[..i + 1][..i] == pieces[..i];
  }

  lemma {:induction false} PieceFits(pieces: seq<seq<byte>>, i: nat)
    requires i < |pieces|
    ensures |pieces[i]| <= |Concat(pieces)|
  {
    if i < |pieces| - 1 {
      PieceFits(pieces[..|pieces| - 1], i);
    }
  }

  lemma ConcatTwo(a: seq<byte>, b: seq<byte>)
    ensures Concat([a, b]) == a + b
  {
    var one, two := [a], [a, b];
    assert two[..1] == one && one[..0] == [];
    assert Concat(one) == Concat([]) + a;
    assert Concat([]) + a == a;
  }

  /** Pieces that each take the loop from one state to the next, read as one input. */
  lemma {:induction false} LoopPieces<S(!new)>(
    step: (S, seq<byte>) -> Result<Step<S>, Error>, state: nat -> S, pieces: seq<seq<byte>>, n: nat)
    requires Consumes(step) && Local(step)
    requires n <= |pieces|
    requires forall i :: 0 <= i < |pieces| ==> Loop(step, state(i), pieces[i]) == Success(state(i + 1))
    ensures Loop(step, state(0), Concat(pieces[..n])) == Success(state(n))
  {
    if n > 0 {
      LoopPieces(step, state, pieces, n - 1);
      ConcatNext(pieces, n - 1);
      LoopConcat(step, state(0), Concat(pieces[..n - 1]), pieces[n - 1]);
    }
  }

  /** Pieces that a loop only collects: the state is determined by what was collected. */
  lemma {:induction false} LoopCollects<S(!new)>(
    step: (S, seq<byte>) -> Result<Step<S>, Error>, state: seq<byte> -> S, pieces: seq<seq<byte>>)
    requires Consumes(step) && Local(step)
    requires forall p, before :: p in pieces ==> Loop(step, state(before), p) == Success(state(before + p))
    ensures Loop(step, state([]), Concat(pieces)) == Success(state(Concat(pieces)))
  {
    if pieces != [] {
      var init, last := pieces[..|pieces| - 1], pieces[|pieces| - 1];
      LoopCollects(step, state, init);
      LoopConcat(step, state([]), Concat(init), last);
    }
  }

  /** A single step that takes all there is. */
  lemma LoopWhole<S(!new)>(step: (S, seq<byte>) -> Result<Step<S>, Error>, s: S, a: seq<byte>, t: S)
    requires Consumes(step)
    requires step(s, a) == Success(Step(t, |a|))
    ensures Loop(step, s, a) == Success(t)
  {
  }

  /** What every step keeps, a loop keeps. */
  lemma {:induction false} LoopInvariant<S(!new)>(
    step: (S, seq<byte>) -> Result<Step<S>, Error>, inv: S -> bool, s: S, data: seq<byte>)
    requires Consumes(step) && inv(s)
    requires forall t, d :: inv(t) && step(t, d).Success? ==> inv(step(t, d).value.state)
    ensures Loop(step, s, data).Success? ==> inv(Loop(step, s, data).value)
    decreases |data|
  {
    if data != [] && step(s, data).Success? {
      var next := step(s, data).value;
      LoopInvariant(step, inv, next.state, data[next.size..]);
    }
  }

  // ---------- fields a reader does not recognise ----------

  /** Exactly one field, whose number is not among the known ones. */
  predicate FieldOutside(raw: seq<byte>, known: set<nat>) {
    && ConsumeField(raw).Success?
    && ConsumeField(raw).value.size == |raw|
    && ConsumeField(raw).value.value.number !in known
  }

  predicate IsSplit(fields: seq<seq<byte>>, raw: seq<byte>, known: set<nat>) {
    Concat(fields) == raw && forall i :: 0 <= i < |fields| ==> FieldOutside(fields[i], known)
  }

  /** A concatenation of such fields. */
  ghost predicate FieldsOutside(raw: seq<byte>, known: set<nat>) {
    exists fields :: IsSplit(fields, raw, known)
  }

  lemma SplitBehind(fields: seq<seq<byte>>, before: seq<byte>, raw: seq<byte>, known: set<nat>)
    requires IsSplit(fields, before, known) && FieldOutside(raw, known)
    ensures IsSplit(fields + [raw], before + raw, known)
  {
    var longer := fields + [raw];
    assert longer[..|fields|] == fields;
    forall i | 0 <= i < |longer|
      ensures FieldOutside(longer[i], known)
    {
      assert longer[i] == if i < |fields| then fields[i] else raw;
    }
  }

  lemma OneMoreOutside(before: seq<byte>, raw: seq<byte>, known: set<nat>)
    requires FieldsOutside(before, known) && FieldOutside(raw, known)
    ensures FieldsOutside(before + raw, known)
  {
    var fields :| IsSplit(fields, before, known);
    SplitBehind(fields, before, raw, known);
  }

  lemma NothingOutside(known: set<nat>)
    ensures FieldsOutside([], known)
  {
    assert IsSplit([], [], known);
  }
}

/** Attribute lists of GameUtilities messages: three nested levels of protobuf fields. */
module Attributes {
  import opened Wrappers
  import opened Bytes
  import opened Wire

  /** Presence is part of the value. Floats are held by their 64 bits. */
  datatype Variant = Variant(
    boolValue: Option<bool>,
    intValue: Option<int64>,
    floatBits: Option<uint64>,
    stringValue: Option<seq<byte>>,
    blobValue: seq<byte>,
    hasBlob: bool,
    uintValue: Option<uint64>)

  datatype Attribute = Attribute(name: seq<byte>, value: Variant)

  const EMPTY_VARIANT: Variant := Variant(None, None, None, None, [], false, None)
  const EMPTY_ATTRIBUTE: Attribute := Attribute([], EMPTY_VARIANT)

  // ---------- walking fields ----------

  /** One field shown to the visitor; groups are passed over. */
  function VisitField<S>(visit: (S, Field) -> Result<S, Error>, state: S, data: seq<byte>): (r: Result<Step<S>, Error>)
    ensures r.Success? ==> 1 <= r.value.size <= |data|
  {
    var field :- ConsumeField(data);
    if field.value.typ == START_GROUP then Success(Step(state, field.size))
    else
      var next :- visit(state, field.value);
      Success(Step(next, field.size))
  }

  lemma VisitFieldLocal<S>(visit: (S, Field) -> Result<S, Error>, state: S, a: seq<byte>, b: seq<byte>)
    requires VisitField(visit, state, a).Success?
    requires Agree(a, b, VisitField(visit, state, a).value.size)
    ensures VisitField(visit, state, b) == VisitField(visit, state, a)
  {
    FieldLocal(a, b);
  }

  /** The step of a walk with this visitor. */
  function VisitStep<S(!new)>(visit: (S, Field) -> Result<S, Error>): (step: (S, seq<byte>) -> Result<Step<S>, Error>)
    ensures Consumes(step)
    ensures forall s, d :: step(s, d) == VisitField(visit, s, d)
  {
    (s: S, d: seq<byte>) => VisitField(visit, s, d)
  }

  lemma VisitStepIsLocal<S(!new)>(visit: (S, Field) -> Result<S, Error>)
    ensures Local(VisitStep(visit))
  {
    forall s, a, b | VisitField(visit, s, a).Success? && Agree(a, b, VisitField(visit, s, a).value.size)
      ensures VisitField(visit, s, b) == VisitField(visit, s, a)
    {
      VisitFieldLocal(visit, s, a, b);
    }
  }

  /** What a visitor makes of all fields. */
  function Walk<S(!new)>(visit: (S, Field) -> Result<S, Error>, state: S, data: seq<byte>): Result<S, Error> {
    Loop(VisitStep(visit), state, data)
  }

  method WalkFields<S(!new)>(input: seq<byte>, visit: (S, Field) -> Result<S, Error>, initial: S)
    returns (r: Result<S, Error>)
    ensures r == Walk(visit, initial, input)
  {
    var state, data := initial, input;
    while data != []
      invariant Walk(visit, initial, input) == Walk(visit, state, data)
      decreases |data|
    {
      LoopFirst(VisitStep(visit), state, data);
      var field :- ConsumeField(data);
      if field.value.typ != START_GROUP {
        state :- visit(state, field.value);
      }
      data := data[field.size..];
    }
    return Success(state);
  }

  // ---------- encoding ----------

  /** The members written, in the order they are written. */
  function VariantPieces(v: Variant): (ps: seq<seq<byte>>)
    ensures |ps| == 6
  {
    [ if v.boolValue.Some? then VarintField(2, if v.boolValue.value then 1 else 0) else [],
      if v.intValue.Some? then VarintField(3, ToUnsigned(v.intValue.value)) else [],
      if v.floatBits.Some? then Fixed64Field(4, v.floatBits.value) else [],
      if v.stringValue.Some? then BytesField(5, v.stringValue.value) else [],
      if v.hasBlob then BytesField(6, v.blobValue) else [],
      if v.uintValue.Some? then VarintField(9, v.uintValue.value) else []]
  }

  function EncodeVariant(v: Variant): seq<byte> {
    Concat(VariantPieces(v))
  }

  function AttributePieces(a: Attribute): (ps: seq<seq<byte>>)
    ensures |ps| == 2
  {
    [BytesField(1, a.name), BytesField(2, EncodeVariant(a.value))]
  }

  function EncodeAttribute(a: Attribute): seq<byte> {
    Concat(AttributePieces(a))
  }

  function EncodedList(l: seq<Attribute>): seq<byte> {
    Concat(seq(|l|, i requires 0 <= i < |l| => BytesField(1, EncodeAttribute(l[i]))))
  }

  method EncodeAttributes(attributes: seq<Attribute>) returns (data: seq<byte>)
    ensures data == EncodedList(attributes)
  {
    data := [];
    ghost var pieces := seq(|attributes|, i requires 0 <= i < |attributes| => BytesField(1, EncodeAttribute(attributes[i])));
    for i := 0 to |attributes|
      invariant data == Concat(pieces[..i])
    {
      var encoded := BytesField(1, attributes[i].name);
      encoded := encoded + BytesField(2, EncodeVariant(attributes[i].value));
      EncodeAttributeShape(attributes[i]);
      data := data + BytesField(1, encoded);
      ConcatNext(pieces, i);
    }
    assert pieces[..|attributes|] == pieces;
  }

  lemma EncodeAttributeShape(a: Attribute)
    ensures EncodeAttribute(a) == BytesField(1, a.name) + BytesField(2, EncodeVariant(a.value))
  {
    ConcatTwo(BytesField(1, a.name), BytesField(2, EncodeVariant(a.value)));
  }

  // ---------- decoding ----------

  function VisitVariant(v: Variant, f: Field): Result<Variant, Error> {
    if f.number in {2, 3, 9} then
      if f.typ != VARINT then Failure(WireType(f.number, f.typ))
      else if f.number == 2 then Success(v.(boolValue := Some(f.scalar != 0)))
      else if f.number == 3 then Success(v.(intValue := Some(ToSigned(f.scalar))))
      else Success(v.(uintValue := Some(f.scalar)))
    else if f.number == 4 then
      if f.typ != FIXED64 then Failure(WireType(f.number, f.typ)) else Success(v.(floatBits := Some(f.scalar)))
    else if f.number in {5, 6} then
      if f.typ != BYTES then Failure(WireType(f.number, f.typ))
      else if f.number == 5 then Success(v.(stringValue := Some(f.bytes)))
      else Success(v.(blobValue := f.bytes, hasBlob := true))
    else Success(v)
  }

  function VisitAttribute(a: Attribute, f: Field): Result<Attribute, Error> {
    if f.number == 1 then
      if f.typ != BYTES then Failure(WireType(f.number, f.typ)) else Success(a.(name := f.bytes))
    else if f.number == 2 then
      if f.typ != BYTES then Failure(WireType(f.number, f.typ))
      else
        var v :- VariantOf(f.bytes);
        Success(a.(value := v))
    else Success(a)
  }

  function VisitList(l: seq<Attribute>, f: Field): Result<seq<Attribute>, Error> {
    if f.number != 1 then Success(l)
    else if f.typ != BYTES then Failure(WireType(f.number, f.typ))
    else
      var a :- AttributeOf(f.bytes);
      Success(l + [a])
  }

  function VariantOf(data: seq<byte>): Result<Variant, Error> {
    Walk(VisitVariant, EMPTY_VARIANT, data)
  }

  function AttributeOf(data: seq<byte>): Result<Attribute, Error> {
    Walk(VisitAttribute, EMPTY_ATTRIBUTE, data)
  }

  function ListOf(data: seq<byte>): Result<seq<Attribute>, Error> {
    Walk(VisitList, [], data)
  }

  method DecodeAttributes(data: seq<byte>) returns (r: Result<seq<Attribute>, Error>)
    ensures r == ListOf(data)
  {
    r := WalkFields(data, VisitList, []);
  }

  // ---------- fields a level does not recognise ----------

  const VARIANT_FIELDS: set<nat> := {2, 3, 4, 5, 6, 9}
  const ATTRIBUTE_FIELDS: set<nat> := {1, 2}
  const LIST_FIELDS: set<nat> := {1}

  /** A visitor that leaves its state alone on all fields outside known. */
  ghost predicate Ignores<S(!new)>(visit: (S, Field) -> Result<S, Error>, known: set<nat>) {
    forall s, f: Field :: f.number !in known ==> visit(s, f) == Success(s)
  }

  lemma VisitorsIgnore()
    ensures Ignores(VisitVariant, VARIANT_FIELDS)
    ensures Ignores(VisitAttribute, ATTRIBUTE_FIELDS)
    ensures Ignores(VisitList, LIST_FIELDS)
  {
  }

  /** One field alone. */
  lemma WalkField<S(!new)>(visit: (S, Field) -> Result<S, Error>, s: S, raw: seq<byte>, f: Field, next: S)
    requires ConsumeField(raw) == Success(Chunk(f, |raw|)) && f.typ != START_GROUP
    requires visit(s, f) == Success(next)
    ensures Walk(visit, s, raw) == Success(next)
  {
    LoopWhole(VisitStep(visit), s, raw, next);
  }

  lemma WalkOutside<S(!new)>(visit: (S, Field) -> Result<S, Error>, known: set<nat>, s: S, junk: seq<byte>)
    requires Ignores(visit, known) && FieldsOutside(junk, known)
    ensures Walk(visit, s, junk) == Success(s)
  {
    var fields :| IsSplit(fields, junk, known);
    forall p | p in fields
      ensures Loop(VisitStep(visit), s, p) == Success(s)
    {
      LoopWhole(VisitStep(visit), s, p, s);
    }
    VisitStepIsLocal(visit);
    LoopCollects(VisitStep(visit), before => s, fields);
  }

  /** At any level, well-formed fields of unrecognised numbers change nothing wherever they are inserted. */
  lemma InsertOutside<S(!new)>(
    visit: (S, Field) -> Result<S, Error>, known: set<nat>, s: S, a: seq<byte>, junk: seq<byte>, b: seq<byte>)
    requires Ignores(visit, known) && FieldsOutside(junk, known)
    requires Walk(visit, s, a).Success?
    ensures Walk(visit, s, a + junk + b) == Walk(visit, s, a + b)
  {
    var step := VisitStep(visit);
    var t := Walk(visit, s, a).value;
    VisitStepIsLocal(visit);
    WalkOutside(visit, known, t, junk);
    LoopConcat(step, s, a, junk);
    LoopConcat(step, s, a + junk, b);
    LoopConcat(step, s, a, b);
  }

  /** A nested message may be replaced by any other with the same reading. */
  lemma SameAttribute(l: seq<Attribute>, x: seq<byte>, y: seq<byte>, rest: seq<byte>)
    requires |x| < TWO_63 && |y| < TWO_63 && AttributeOf(x) == AttributeOf(y)
    ensures Walk(VisitList, l, BytesField(1, x) + rest) == Walk(VisitList, l, BytesField(1, y) + rest)
  {
    BytesFieldFirst(VisitList, l, 1, x, rest);
    BytesFieldFirst(VisitList, l, 1, y, rest);
  }

  lemma SameVariant(a: Attribute, x: seq<byte>, y: seq<byte>, rest: seq<byte>)
    requires |x| < TWO_63 && |y| < TWO_63 && VariantOf(x) == VariantOf(y)
    ensures Walk(VisitAttribute, a, BytesField(2, x) + rest) == Walk(VisitAttribute, a, BytesField(2, y) + rest)
  {
    BytesFieldFirst(VisitAttribute, a, 2, x, rest);
    BytesFieldFirst(VisitAttribute, a, 2, y, rest);
  }

  lemma BytesFieldFirst<S(!new)>(visit: (S, Field) -> Result<S, Error>, s: S, number: nat, x: seq<byte>, rest: seq<byte>)
    requires 1 <= number <= MAX_FIELD_NUMBER && |x| < TWO_63
    ensures var next := visit(s, Field(number, BYTES, x, 0));
            Walk(visit, s, BytesField(number, x) + rest)
            == if next.Success? then Walk(visit, next.value, rest) else Failure(next.error)
  {
    BytesFieldRoundTrip(number, x, rest);
    var data := BytesField(number, x) + rest;
    assert data != [] by {
      assert 1 <= ConsumeField(data).value.size <= |data|;
    }
    LoopFirst(VisitStep(visit), s, data);
    assert data[|BytesField(number, x)|..] == rest;
  }

  // ---------- the round trip, with unrecognised fields between all the others ----------

  function PaddedEach(pieces: seq<seq<byte>>, pad: nat -> seq<byte>): seq<seq<byte>> {
    seq(|pieces|, i requires 0 <= i < |pieces| => pad(i) + pieces[i])
  }

  /** The pieces with padding before each and after the last. */
  function Padded(pieces: seq<seq<byte>>, pad: nat -> seq<byte>): seq<byte> {
    Concat(PaddedEach(pieces, pad)) + pad(|pieces|)
  }

  /** Padding for one list: at its top level, in every attribute, in every variant. */
  datatype Padding = Padding(list: nat -> seq<byte>, attribute: nat -> nat -> seq<byte>, variant: nat -> nat -> seq<byte>)

  const NO_PADDING: Padding := Padding(i => [], i => j => [], i => j => [])

  ghost predicate Harmless(pad: nat -> seq<byte>, known: set<nat>) {
    forall i :: FieldsOutside(pad(i), known)
  }

  ghost predicate AllHarmless(padding: Padding) {
    && Harmless(padding.list, LIST_FIELDS)
    && forall i ::
         && Harmless(padding.attribute(i), ATTRIBUTE_FIELDS)
         && Harmless(padding.variant(i), VARIANT_FIELDS)
  }

  function PaddedAttribute(a: Attribute, attribute: nat -> seq<byte>, variant: nat -> seq<byte>): seq<byte> {
    Padded([BytesField(1, a.name), BytesField(2, Padded(VariantPieces(a.value), variant))], attribute)
  }

  function PaddedPieces(l: seq<Attribute>, padding: Padding): seq<seq<byte>> {
    seq(|l|, i requires 0 <= i < |l| => BytesField(1, PaddedAttribute(l[i], padding.attribute(i), padding.variant(i))))
  }

  function PaddedList(l: seq<Attribute>, padding: Padding): seq<byte> {
    Padded(PaddedPieces(l, padding), padding.list)
  }

  /** The bytes of a blob that is not present are not part of a variant on the wire. */
  function Normal(v: Variant): Variant {
    if v.hasBlob then v else v.(blobValue := [])
  }

  function NormalAttribute(a: Attribute): Attribute {
    a.(value := Normal(a.value))
  }

  function NormalList(l: seq<Attribute>): seq<Attribute> {
    seq(|l|, i requires 0 <= i < |l| => NormalAttribute(l[i]))
  }

  /** A walk over pieces that go from state to state, padded with fields the visitor ignores. */
  lemma WalkPadded<S(!new)>(
    visit: (S, Field) -> Result<S, Error>, known: set<nat>, state: nat -> S, pieces: seq<seq<byte>>, pad: nat -> seq<byte>)
    requires Ignores(visit, known) && Harmless(pad, known)
    requires forall i :: 0 <= i < |pieces| ==> Walk(visit, state(i), pieces[i]) == Success(state(i + 1))
    ensures Walk(visit, state(0), Padded(pieces, pad)) == Success(state(|pieces|))
  {
    var n := |pieces|;
    var padded := PaddedEach(pieces, pad);
    VisitStepIsLocal(visit);
    forall i | 0 <= i < n
      ensures Walk(visit, state(i), padded[i]) == Success(state(i + 1))
    {
      WalkOutside(visit, known, state(i), pad(i));
      LoopConcat(VisitStep(visit), state(i), pad(i), pieces[i]);
    }
    LoopPieces(VisitStep(visit), state, padded, n);
    assert padded[..n] == padded;
    WalkOutside(visit, known, state(n), pad(n));
    LoopConcat(VisitStep(visit), state(0), Concat(padded), pad(n));
  }

  /** The variant with its first n members set, in the order they are written. */
  function Members(v: Variant, n: nat): Variant {
    Variant(if n > 0 then v.boolValue else None, if n > 1 then v.intValue else None, if n > 2 then v.floatBits else None,
            if n > 3 then v.stringValue else None, if n > 4 && v.hasBlob then v.blobValue else [], n > 4 && v.hasBlob,
            if n > 5 then v.uintValue else None)
  }

  lemma WalkVarint<S(!new)>(visit: (S, Field) -> Result<S, Error>, s: S, number: nat, v: uint64, next: S)
    requires 1 <= number <= MAX_FIELD_NUMBER
    requires visit(s, Field(number, VARINT, [], v)) == Success(next)
    ensures Walk(visit, s, VarintField(number, v)) == Success(next)
  {
    VarintFieldRoundTrip(number, v, []);
    assert VarintField(number, v) + [] == VarintField(number, v);
    WalkField(visit, s, VarintField(number, v), Field(number, VARINT, [], v), next);
  }

  lemma WalkFixed64<S(!new)>(visit: (S, Field) -> Result<S, Error>, s: S, number: nat, v: uint64, next: S)
    requires 1 <= number <= MAX_FIELD_NUMBER
    requires visit(s, Field(number, FIXED64, [], v)) == Success(next)
    ensures Walk(visit, s, Fixed64Field(number, v)) == Success(next)
  {
    Fixed64FieldRoundTrip(number, v, []);
    assert Fixed64Field(number, v) + [] == Fixed64Field(number, v);
    WalkField(visit, s, Fixed64Field(number, v), Field(number, FIXED64, [], v), next);
  }

  lemma WalkBytes<S(!new)>(visit: (S, Field) -> Result<S, Error>, s: S, number: nat, v: seq<byte>, next: S)
    requires 1 <= number <= MAX_FIELD_NUMBER && |v| < TWO_63
    requires visit(s, Field(number, BYTES, v, 0)) == Success(next)
    ensures Walk(visit, s, BytesField(number, v)) == Success(next)
  {
    BytesFieldRoundTrip(number, v, []);
    assert BytesField(number, v) + [] == BytesField(number, v);
    WalkField(visit, s, BytesField(number, v), Field(number, BYTES, v, 0), next);
  }

  lemma SignedRoundTrip(v: int64)
    ensures ToSigned(ToUnsigned(v)) == v
  {
  }

  lemma PutMember(v: Variant, n: nat)
    requires n < 6 && |VariantPieces(v)[n]| < TWO_63
    ensures Walk(VisitVariant, Members(v, n), VariantPieces(v)[n]) == Success(Members(v, n + 1))
  {
    var m, next := Members(v, n), Members(v, n + 1);
    if VariantPieces(v)[n] == [] && m == next {
    } else if n == 0 {
      WalkVarint(VisitVariant, m, 2, if v.boolValue.value then 1 else 0, next);
    } else if n == 1 {
      SignedRoundTrip(v.intValue.value);
      WalkVarint(VisitVariant, m, 3, ToUnsigned(v.intValue.value), next);
    } else if n == 2 {
      WalkFixed64(VisitVariant, m, 4, v.floatBits.value, next);
    } else if n == 3 {
      WalkBytes(VisitVariant, m, 5, v.stringValue.value, next);
    } else if n == 4 {
      WalkBytes(VisitVariant, m, 6, v.blobValue, next);
    } else {
      WalkVarint(VisitVariant, m, 9, v.uintValue.value, next);
    }
  }

  lemma PaddedPieceFits(pieces: seq<seq<byte>>, pad: nat -> seq<byte>, i: nat)
    requires i < |pieces|
    ensures |pieces[i]| <= |Padded(pieces, pad)|
  {
    PieceFits(PaddedEach(pieces, pad), i);
  }

  lemma VariantRoundTrip(v: Variant, pad: nat -> seq<byte>)
    requires Harmless(pad, VARIANT_FIELDS)
    requires |Padded(VariantPieces(v), pad)| < TWO_63
    ensures VariantOf(Padded(VariantPieces(v), pad)) == Success(Normal(v))
  {
    var pieces := VariantPieces(v);
    forall i | 0 <= i < 6
      ensures Walk(VisitVariant, Members(v, i), pieces[i]) == Success(Members(v, i + 1))
    {
      PaddedPieceFits(pieces, pad, i);
      PutMember(v, i);
    }
    VisitorsIgnore();
    WalkPadded(VisitVariant, VARIANT_FIELDS, (i: nat) => Members(v, i), pieces, pad);
  }

  lemma AttributeRoundTrip(a: Attribute, attribute: nat -> seq<byte>, variant: nat -> seq<byte>)
    requires Harmless(attribute, ATTRIBUTE_FIELDS) && Harmless(variant, VARIANT_FIELDS)
    requires |PaddedAttribute(a, attribute, variant)| < TWO_63
    ensures AttributeOf(PaddedAttribute(a, attribute, variant)) == Success(NormalAttribute(a))
  {
    var inner := Padded(VariantPieces(a.value), variant);
    var pieces := [BytesField(1, a.name), BytesField(2, inner)];
    PaddedPieceFits(pieces, attribute, 0);
    PaddedPieceFits(pieces, attribute, 1);
    VariantRoundTrip(a.value, variant);
    var named, whole := EMPTY_ATTRIBUTE.(name := a.name), NormalAttribute(a);
    var state := (i: nat) => if i == 0 then EMPTY_ATTRIBUTE else if i == 1 then named else whole;
    WalkBytes(VisitAttribute, EMPTY_ATTRIBUTE, 1, a.name, named);
    WalkBytes(VisitAttribute, named, 2, inner, whole);
    VisitorsIgnore();
    WalkPadded(VisitAttribute, ATTRIBUTE_FIELDS, state, pieces, attribute);
  }

  lemma PutAttribute(l: seq<Attribute>, a: Attribute, attribute: nat -> seq<byte>, variant: nat -> seq<byte>)
    requires Harmless(attribute, ATTRIBUTE_FIELDS) && Harmless(variant, VARIANT_FIELDS)
    requires |PaddedAttribute(a, attribute, variant)| < TWO_63
    ensures Walk(VisitList, l, BytesField(1, PaddedAttribute(a, attribute, variant))) == Success(l + [NormalAttribute(a)])
  {
    AttributeRoundTrip(a, attribute, variant);
    WalkBytes(VisitList, l, 1, PaddedAttribute(a, attribute, variant), l + [NormalAttribute(a)]);
  }

  /** The list as decoded after i attributes. */
  function NormalPrefix(l: seq<Attribute>, i: nat): seq<Attribute> {
    NormalList(if i <= |l| then l[..i] else l)
  }

  lemma PrefixNext(l: seq<Attribute>, i: nat)
    requires i < |l|
    ensures NormalPrefix(l, i + 1) == NormalPrefix(l, i) + [NormalAttribute(l[i])]
  {
  }

  lemma PutNext(l: seq<Attribute>, padding: Padding, i: nat)
    requires AllHarmless(padding)
    requires i < |l| && |PaddedAttribute(l[i], padding.attribute(i), padding.variant(i))| < TWO_63
    ensures Walk(VisitList, NormalPrefix(l, i), PaddedPieces(l, padding)[i]) == Success(NormalPrefix(l, i + 1))
  {
    PrefixNext(l, i);
    PutAttribute(NormalPrefix(l, i), l[i], padding.attribute(i), padding.variant(i));
  }

  lemma PrefixEnds(l: seq<Attribute>)
    ensures NormalPrefix(l, 0) == [] && NormalPrefix(l, |l|) == NormalList(l)
  {
  }

  /** Decoding undoes encoding through all three levels, whatever unrecognised fields stand in between. */
  lemma PaddedRoundTrip(l: seq<Attribute>, padding: Padding)
    requires AllHarmless(padding)
    requires |PaddedList(l, padding)| < TWO_63
    ensures ListOf(PaddedList(l, padding)) == Success(NormalList(l))
  {
    var pieces := PaddedPieces(l, padding);
    forall i | 0 <= i < |l|
      ensures Walk(VisitList, NormalPrefix(l, i), pieces[i]) == Success(NormalPrefix(l, i + 1))
    {
      PaddedPieceFits(pieces, padding.list, i);
      PutNext(l, padding, i);
    }
    VisitorsIgnore();
    PrefixEnds(l);
    WalkPadded(VisitList, LIST_FIELDS, (i: nat) => NormalPrefix(l, i), pieces, padding.list);
  }

  lemma PaddedWithNothing(pieces: seq<seq<byte>>, pad: nat -> seq<byte>)
    requires forall i :: pad(i) == []
    ensures Padded(pieces, pad) == Concat(pieces)
  {
    forall i | 0 <= i < |pieces|
      ensures PaddedEach(pieces, pad)[i] == pieces[i]
    {
      assert [] + pieces[i] == pieces[i];
    }
    assert PaddedEach(pieces, pad) == pieces;
    assert Concat(pieces) + [] == Concat(pieces);
  }

  lemma UnpaddedAttribute(a: Attribute)
    ensures EncodeAttribute(a) == PaddedAttribute(a, i => [], i => [])
  {
    PaddedWithNothing(VariantPieces(a.value), i => []);
    PaddedWithNothing(AttributePieces(a), i => []);
  }

  lemma UnpaddedList(l: seq<Attribute>)
    ensures EncodedList(l) == PaddedList(l, NO_PADDING)
  {
    var n := |l|;
    var plain := seq(n, i requires 0 <= i < n => BytesField(1, EncodeAttribute(l[i])));
    forall i | 0 <= i < n
      ensures plain[i] == PaddedPieces(l, NO_PADDING)[i]
    {
      UnpaddedAttribute(l[i]);
      PaddedWithNothing(VariantPieces(l[i].value), NO_PADDING.variant(i));
      PaddedWithNothing(AttributePieces(l[i]), NO_PADDING.attribute(i));
    }
    assert plain == PaddedPieces(l, NO_PADDING);
    PaddedWithNothing(plain, NO_PADDING.list);
  }

  lemma NoPaddingIsHarmless()
    ensures AllHarmless(NO_PADDING)
  {
    NothingOutside(LIST_FIELDS);
    NothingOutside(ATTRIBUTE_FIELDS);
    NothingOutside(VARIANT_FIELDS);
  }

  lemma NormalIff(l: seq<Attribute>)
    ensures NormalList(l) == l <==> forall i :: 0 <= i < |l| && !l[i].value.hasBlob ==> l[i].value.blobValue == []
  {
  }

  /** Decoding undoes encoding; the list itself comes back iff no absent blob holds bytes. */
  lemma ListRoundTrip(l: seq<Attribute>)
    requires |EncodedList(l)| < TWO_63 // a Go slice
    ensures ListOf(EncodedList(l)) == Success(NormalList(l))
    ensures NormalList(l) == l <==> forall i :: 0 <= i < |l| && !l[i].value.hasBlob ==> l[i].value.blobValue == []
  {
    NormalIff(l);
    UnpaddedList(l);
    NoPaddingIsHarmless();
    PaddedRoundTrip(l, NO_PADDING);
  }
}

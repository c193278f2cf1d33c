/** What attribute bytes mean: which are accepted, what is read from them, and what is written, level by level. */
module AttributeFields {
  import opened Wrappers
  import opened Bytes
  import opened Wire
  import opened WireFields
  import opened Attributes

  // ---------- the fields of each level; groups (type 3) are passed over ----------

  predicate VariantField(raw: seq<byte>) {
    OneField(raw)
    && var f := FieldIn(raw);
       || f.typ == 3
       || ((f.number in {2, 3, 9} ==> f.typ == 0) && (f.number == 4 ==> f.typ == 1) && (f.number in {5, 6} ==> f.typ == 2))
  }

  predicate AttributeField(raw: seq<byte>) {
    OneField(raw)
    && var f := FieldIn(raw);
       || f.typ == 3
       || ((f.number in {1, 2} ==> f.typ == 2) && (f.number == 2 ==> VariantOf(f.bytes).Success?))
  }

  predicate ListField(raw: seq<byte>) {
    OneField(raw)
    && var f := FieldIn(raw);
       f.typ == 3 || (f.number == 1 ==> f.typ == 2 && AttributeOf(f.bytes).Success?)
  }

  /** The last field of that number that is no group. */
  function LastIn(pieces: seq<seq<byte>>, number: nat): Option<Field> {
    if pieces == [] then None
    else
      var last := pieces[|pieces| - 1];
      if OneField(last) && FieldIn(last).number == number && FieldIn(last).typ != 3 then Some(FieldIn(last))
      else LastIn(pieces[..|pieces| - 1], number)
  }

  function AsSigned(v: uint64): int64 {
    if v < 0x8000_0000_0000_0000 then v else v - 0x1_0000_0000_0000_0000
  }

  /** The members some fields stand for. */
  function VariantWith(
    bool_: Option<Field>, int_: Option<Field>, float: Option<Field>, text: Option<Field>, blob: Option<Field>,
    uint: Option<Field>): Variant
  {
    Variant(
      boolValue := if bool_.Some? then Some(bool_.value.scalar != 0) else None,
      intValue := if int_.Some? then Some(AsSigned(int_.value.scalar)) else None,
      floatBits := if float.Some? then Some(float.value.scalar) else None,
      stringValue := if text.Some? then Some(text.value.bytes) else None,
      blobValue := if blob.Some? then blob.value.bytes else [],
      hasBlob := blob.Some?,
      uintValue := if uint.Some? then Some(uint.value.scalar) else None)
  }

  /** Each member is the last field of its number: 2 bool, 3 int, 4 float, 5 string, 6 blob, 9 uint. */
  function VariantFrom(pieces: seq<seq<byte>>): Variant {
    VariantWith(LastIn(pieces, 2), LastIn(pieces, 3), LastIn(pieces, 4), LastIn(pieces, 5), LastIn(pieces, 6), LastIn(pieces, 9))
  }

  /** The name is field 1, the value field 2; a missing name is empty, a missing value has no member. */
  function AttributeFrom(pieces: seq<seq<byte>>): Attribute {
    Attribute(
      match LastIn(pieces, 1) case Some(f) => f.bytes case None => [],
      match LastIn(pieces, 2)
      case Some(f) =>
        (match VariantOf(f.bytes) case Success(v) => v case Failure(_) => VariantFrom([]))
      case None => VariantFrom([]))
  }

  /** One attribute for each field 1, in order. */
  function ListFrom(pieces: seq<seq<byte>>): seq<Attribute> {
    if pieces == [] then []
    else
      var before, last := ListFrom(pieces[..|pieces| - 1]), pieces[|pieces| - 1];
      if OneField(last) && FieldIn(last).number == 1 && FieldIn(last).typ != 3 then
        match AttributeOf(FieldIn(last).bytes)
        case Success(a) => before + [a]
        case Failure(_) => before
      else before
  }

  // ---------- one more field ----------

  function Or(f: Field, number: nat, before: Option<Field>): Option<Field> {
    if f.number == number && f.typ != 3 then Some(f) else before
  }

  lemma LastNext(before: seq<seq<byte>>, raw: seq<byte>, number: nat)
    requires OneField(raw)
    ensures LastIn(before + [raw], number)
            == Or(FieldIn(raw), number, LastIn(before, number))
  {
    assert (before + [raw])[..|before|] == before;
  }

  lemma MemberNext(
    a: Option<Field>, b: Option<Field>, c: Option<Field>, d: Option<Field>, e: Option<Field>, g: Option<Field>, f: Field)
    requires (f.number in {2, 3, 9} ==> f.typ == 0) && (f.number == 4 ==> f.typ == 1) && (f.number in {5, 6} ==> f.typ == 2)
    requires f.typ != 3
    ensures VisitVariant(VariantWith(a, b, c, d, e, g), f)
            == Success(VariantWith(Or(f, 2, a), Or(f, 3, b), Or(f, 4, c), Or(f, 5, d), Or(f, 6, e), Or(f, 9, g)))
  {
  }

  lemma VariantNext(before: seq<seq<byte>>, raw: seq<byte>)
    requires VariantField(raw)
    ensures var (v, next) := (VariantFrom(before), VariantFrom(before + [raw]));
            if FieldIn(raw).typ == 3 then next == v else VisitVariant(v, FieldIn(raw)) == Success(next)
  {
    LastNext(before, raw, 2);
    LastNext(before, raw, 3);
    LastNext(before, raw, 4);
    LastNext(before, raw, 5);
    LastNext(before, raw, 6);
    LastNext(before, raw, 9);
    if FieldIn(raw).typ != 3 {
      MemberNext(LastIn(before, 2), LastIn(before, 3), LastIn(before, 4), LastIn(before, 5), LastIn(before, 6),
                 LastIn(before, 9), FieldIn(raw));
    }
  }

  lemma AttributeNext(before: seq<seq<byte>>, raw: seq<byte>)
    requires AttributeField(raw)
    ensures var (a, next) := (AttributeFrom(before), AttributeFrom(before + [raw]));
            if FieldIn(raw).typ == 3 then next == a else VisitAttribute(a, FieldIn(raw)) == Success(next)
  {
    LastNext(before, raw, 1);
    LastNext(before, raw, 2);
  }

  lemma ListNext(before: seq<seq<byte>>, raw: seq<byte>)
    requires ListField(raw)
    ensures var (l, next) := (ListFrom(before), ListFrom(before + [raw]));
            if FieldIn(raw).typ == 3 then next == l else VisitList(l, FieldIn(raw)) == Success(next)
  {
    assert (before + [raw])[..|before|] == before;
  }

  /** One field alone, shown to a visitor or passed over. */
  lemma WalkOne<S(!new)>(visit: (S, Field) -> Result<S, Error>, s: S, raw: seq<byte>, next: S)
    requires OneField(raw)
    requires if FieldIn(raw).typ == 3 then next == s else visit(s, FieldIn(raw)) == Success(next)
    ensures Walk(visit, s, raw) == Success(next)
  {
    LoopWhole(VisitStep(visit), s, raw, next);
  }

  /** One field that a visitor takes, or that it is not shown. */
  predicate Takes<S>(visit: (S, Field) -> Result<S, Error>, s: S, raw: seq<byte>) {
    OneField(raw) && (FieldIn(raw).typ == 3 || visit(s, FieldIn(raw)).Success?)
  }

  /** The field at the front of what a visitor takes a step on. */
  lemma FirstField<S>(visit: (S, Field) -> Result<S, Error>, s: S, data: seq<byte>)
    requires VisitField(visit, s, data).Success?
    ensures Takes(visit, s, data[..VisitField(visit, s, data).value.size])
  {
    FieldLocal(data, data[..ConsumeField(data).value.size]);
  }

  // ---------- whole levels ----------

  /** A step that ends where its field does, on good fields only. */
  ghost predicate StepsOn<S(!new)>(step: (S, seq<byte>) -> Result<Step<S>, Error>, good: seq<byte> -> bool)
    requires Consumes(step)
  {
    forall t, d :: step(t, d).Success? ==> good(d[..step(t, d).value.size])
  }

  lemma VisitStepsOn<S(!new)>(visit: (S, Field) -> Result<S, Error>, good: seq<byte> -> bool)
    requires forall t: S, raw :: Takes(visit, t, raw) ==> good(raw)
    ensures StepsOn(VisitStep(visit), good)
  {
    var step := VisitStep(visit);
    forall t, d | step(t, d).Success?
      ensures good(d[..step(t, d).value.size])
    {
      assert step(t, d) == VisitField(visit, t, d);
      FirstField(visit, t, d);
    }
  }

  /** What a visitor accepts is cut into good fields. */
  lemma CutOfWalk<S(!new)>(visit: (S, Field) -> Result<S, Error>, good: seq<byte> -> bool, s: S, data: seq<byte>)
    returns (pieces: seq<seq<byte>>)
    requires Walk(visit, s, data).Success?
    requires forall t: S, raw :: Takes(visit, t, raw) ==> good(raw)
    ensures IsCut(good, pieces, data)
  {
    VisitStepsOn(visit, good);
    pieces := CutOfLoop(VisitStep(visit), good, s, data);
  }

  /** Good fields are accepted, with what they make. */
  lemma WalkOfCut<S(!new)>(
    visit: (S, Field) -> Result<S, Error>, good: seq<byte> -> bool, state: seq<seq<byte>> -> S, pieces: seq<seq<byte>>)
    requires forall raw :: good(raw) ==> OneField(raw)
    requires forall before, raw :: good(raw) ==>
               if FieldIn(raw).typ == 3 then state(before + [raw]) == state(before)
               else visit(state(before), FieldIn(raw)) == Success(state(before + [raw]))
    requires forall i :: 0 <= i < |pieces| ==> good(pieces[i])
    ensures Walk(visit, state([]), Concat(pieces)) == Success(state(pieces))
  {
    forall before, raw | good(raw)
      ensures Loop(VisitStep(visit), state(before), raw) == Success(state(before + [raw]))
    {
      WalkOne(visit, state(before), raw, state(before + [raw]));
    }
    VisitStepIsLocal(visit);
    LoopOfCut(VisitStep(visit), state, good, pieces);
  }

  lemma VariantCut(data: seq<byte>) returns (pieces: seq<seq<byte>>)
    requires VariantOf(data).Success?
    ensures IsCut(VariantField, pieces, data)
  {
    pieces := CutOfWalk(VisitVariant, VariantField, EMPTY_VARIANT, data);
  }

  lemma VariantRead(pieces: seq<seq<byte>>)
    requires forall i :: 0 <= i < |pieces| ==> VariantField(pieces[i])
    ensures VariantOf(Concat(pieces)) == Success(VariantFrom(pieces))
  {
    forall before, raw | VariantField(raw)
      ensures if FieldIn(raw).typ == 3 then VariantFrom(before + [raw]) == VariantFrom(before)
              else VisitVariant(VariantFrom(before), FieldIn(raw)) == Success(VariantFrom(before + [raw]))
    {
      VariantNext(before, raw);
    }
    WalkOfCut(VisitVariant, VariantField, VariantFrom, pieces);
  }

  lemma AttributeCut(data: seq<byte>) returns (pieces: seq<seq<byte>>)
    requires AttributeOf(data).Success?
    ensures IsCut(AttributeField, pieces, data)
  {
    pieces := CutOfWalk(VisitAttribute, AttributeField, EMPTY_ATTRIBUTE, data);
  }

  lemma AttributeRead(pieces: seq<seq<byte>>)
    requires forall i :: 0 <= i < |pieces| ==> AttributeField(pieces[i])
    ensures AttributeOf(Concat(pieces)) == Success(AttributeFrom(pieces))
  {
    forall before, raw | AttributeField(raw)
      ensures if FieldIn(raw).typ == 3 then AttributeFrom(before + [raw]) == AttributeFrom(before)
              else VisitAttribute(AttributeFrom(before), FieldIn(raw)) == Success(AttributeFrom(before + [raw]))
    {
      AttributeNext(before, raw);
    }
    WalkOfCut(VisitAttribute, AttributeField, AttributeFrom, pieces);
  }

  lemma ListCut(data: seq<byte>) returns (pieces: seq<seq<byte>>)
    requires ListOf(data).Success?
    ensures IsCut(ListField, pieces, data)
  {
    pieces := CutOfWalk(VisitList, ListField, [], data);
  }

  lemma ListRead(pieces: seq<seq<byte>>)
    requires forall i :: 0 <= i < |pieces| ==> ListField(pieces[i])
    ensures ListOf(Concat(pieces)) == Success(ListFrom(pieces))
  {
    forall before, raw | ListField(raw)
      ensures if FieldIn(raw).typ == 3 then ListFrom(before + [raw]) == ListFrom(before)
              else VisitList(ListFrom(before), FieldIn(raw)) == Success(ListFrom(before + [raw]))
    {
      ListNext(before, raw);
    }
    WalkOfCut(VisitList, ListField, ListFrom, pieces);
  }

  // ---------- the main results ----------

  /** Exactly the concatenations of variant fields are variants, each with the members of its fields. */
  lemma VariantMeaning(data: seq<byte>, v: Variant)
    ensures VariantOf(data) == Success(v) <==> exists pieces :: IsCut(VariantField, pieces, data) && v == VariantFrom(pieces)
  {
    if VariantOf(data).Success? {
      var pieces := VariantCut(data);
      VariantRead(pieces);
    }
    if pieces :| IsCut(VariantField, pieces, data) && v == VariantFrom(pieces) {
      VariantRead(pieces);
    }
  }

  lemma AttributeMeaning(data: seq<byte>, a: Attribute)
    ensures AttributeOf(data) == Success(a)
            <==> exists pieces :: IsCut(AttributeField, pieces, data) && a == AttributeFrom(pieces)
  {
    if AttributeOf(data).Success? {
      var pieces := AttributeCut(data);
      AttributeRead(pieces);
    }
    if pieces :| IsCut(AttributeField, pieces, data) && a == AttributeFrom(pieces) {
      AttributeRead(pieces);
    }
  }

  lemma ListMeaning(data: seq<byte>, l: seq<Attribute>)
    ensures ListOf(data) == Success(l) <==> exists pieces :: IsCut(ListField, pieces, data) && l == ListFrom(pieces)
  {
    if ListOf(data).Success? {
      var pieces := ListCut(data);
      ListRead(pieces);
    }
    if pieces :| IsCut(ListField, pieces, data) && l == ListFrom(pieces) {
      ListRead(pieces);
    }
  }

  // ---------- refusing ----------

  /** Why the field at the front of a list is refused. */
  function ListRefusal(rest: seq<byte>): Option<Error> {
    match ConsumeField(rest)
    case Failure(e) => Some(e)
    case Success(Chunk(f, _)) =>
      if f.typ == 3 || f.number != 1 then None
      else if f.typ != 2 then Some(WireType(1, f.typ))
      else if AttributeOf(f.bytes).Failure? then Some(AttributeOf(f.bytes).error)
      else None
  }

  function AttributeRefusal(rest: seq<byte>): Option<Error> {
    match ConsumeField(rest)
    case Failure(e) => Some(e)
    case Success(Chunk(f, _)) =>
      if f.typ == 3 || f.number !in {1, 2} then None
      else if f.typ != 2 then Some(WireType(f.number, f.typ))
      else if f.number == 2 && VariantOf(f.bytes).Failure? then Some(VariantOf(f.bytes).error)
      else None
  }

  function VariantRefusal(rest: seq<byte>): Option<Error> {
    match ConsumeField(rest)
    case Failure(e) => Some(e)
    case Success(Chunk(f, _)) =>
      if f.typ == 3 then None
      else if (f.number in {2, 3, 9} && f.typ != 0) || (f.number == 4 && f.typ != 1) || (f.number in {5, 6} && f.typ != 2) then
        Some(WireType(f.number, f.typ))
      else None
  }

  /** At each level, behind any number of good fields, the first that is refused decides the error. */
  lemma FirstRefused(pieces: seq<seq<byte>>, front: seq<byte>, rest: seq<byte>)
    requires rest != []
    ensures IsCut(ListField, pieces, front) && ListRefusal(rest).Some? ==>
              ListOf(front + rest) == Failure(ListRefusal(rest).value)
    ensures IsCut(AttributeField, pieces, front) && AttributeRefusal(rest).Some? ==>
              AttributeOf(front + rest) == Failure(AttributeRefusal(rest).value)
    ensures IsCut(VariantField, pieces, front) && VariantRefusal(rest).Some? ==>
              VariantOf(front + rest) == Failure(VariantRefusal(rest).value)
  {
    if IsCut(ListField, pieces, front) && ListRefusal(rest).Some? {
      ListRefused(pieces, rest);
    }
    if IsCut(AttributeField, pieces, front) && AttributeRefusal(rest).Some? {
      AttributeRefused(pieces, rest);
    }
    if IsCut(VariantField, pieces, front) && VariantRefusal(rest).Some? {
      VariantRefused(pieces, rest);
    }
  }

  lemma RefusalIs(l: seq<Attribute>, a: Attribute, v: Variant, rest: seq<byte>)
    ensures ListRefusal(rest).Some? ==> VisitField(VisitList, l, rest) == Failure(ListRefusal(rest).value)
    ensures AttributeRefusal(rest).Some? ==> VisitField(VisitAttribute, a, rest) == Failure(AttributeRefusal(rest).value)
    ensures VariantRefusal(rest).Some? ==> VisitField(VisitVariant, v, rest) == Failure(VariantRefusal(rest).value)
  {
  }

  lemma WalkRefuses<S(!new)>(
    visit: (S, Field) -> Result<S, Error>, s: S, t: S, front: seq<byte>, rest: seq<byte>, e: Error)
    requires rest != [] && Walk(visit, s, front) == Success(t) && VisitField(visit, t, rest) == Failure(e)
    ensures Walk(visit, s, front + rest) == Failure(e)
  {
    VisitStepIsLocal(visit);
    LoopRefuses(VisitStep(visit), s, t, front, rest, e);
  }

  lemma ListRefused(pieces: seq<seq<byte>>, rest: seq<byte>)
    requires rest != [] && ListRefusal(rest).Some? && forall i :: 0 <= i < |pieces| ==> ListField(pieces[i])
    ensures ListOf(Concat(pieces) + rest) == Failure(ListRefusal(rest).value)
  {
    ListRead(pieces);
    RefusalIs(ListFrom(pieces), EMPTY_ATTRIBUTE, EMPTY_VARIANT, rest);
    WalkRefuses(VisitList, [], ListFrom(pieces), Concat(pieces), rest, ListRefusal(rest).value);
  }

  lemma AttributeRefused(pieces: seq<seq<byte>>, rest: seq<byte>)
    requires rest != [] && AttributeRefusal(rest).Some? && forall i :: 0 <= i < |pieces| ==> AttributeField(pieces[i])
    ensures AttributeOf(Concat(pieces) + rest) == Failure(AttributeRefusal(rest).value)
  {
    AttributeRead(pieces);
    RefusalIs([], AttributeFrom(pieces), EMPTY_VARIANT, rest);
    WalkRefuses(
      VisitAttribute, EMPTY_ATTRIBUTE, AttributeFrom(pieces), Concat(pieces), rest, AttributeRefusal(rest).value);
  }

  lemma VariantRefused(pieces: seq<seq<byte>>, rest: seq<byte>)
    requires rest != [] && VariantRefusal(rest).Some? && forall i :: 0 <= i < |pieces| ==> VariantField(pieces[i])
    ensures VariantOf(Concat(pieces) + rest) == Failure(VariantRefusal(rest).value)
  {
    VariantRead(pieces);
    RefusalIs([], EMPTY_ATTRIBUTE, VariantFrom(pieces), rest);
    WalkRefuses(VisitVariant, EMPTY_VARIANT, VariantFrom(pieces), Concat(pieces), rest, VariantRefusal(rest).value);
  }

  // ---------- writing ----------

  lemma ConcatSix(p: seq<seq<byte>>)
    requires |p| == 6
    ensures Concat(p) == p[0] + p[1] + p[2] + p[3] + p[4] + p[5]
  {
    ConcatNext(p, 0);
    assert Concat(p[..0]) + p[0] == p[0];
    ConcatNext(p, 1);
    ConcatNext(p, 2);
    ConcatNext(p, 3);
    ConcatNext(p, 4);
    ConcatNext(p, 5);
    assert p[..6] == p;
  }

  /** The members that are present, in the order of their numbers; a signed value as its two's complement. */
  lemma VariantBytes(v: Variant)
    ensures EncodeVariant(v)
            == (if v.boolValue.Some? then VarintField(2, if v.boolValue.value then 1 else 0) else [])
               + (if v.intValue.Some? then VarintField(3, if v.intValue.value < 0 then v.intValue.value + TWO_64
                                                          else v.intValue.value) else [])
               + (if v.floatBits.Some? then Fixed64Field(4, v.floatBits.value) else [])
               + (if v.stringValue.Some? then BytesField(5, v.stringValue.value) else [])
               + (if v.hasBlob then BytesField(6, v.blobValue) else [])
               + (if v.uintValue.Some? then VarintField(9, v.uintValue.value) else [])
  {
    ConcatSix(VariantPieces(v));
  }

  function Messages(l: seq<Attribute>): (r: seq<seq<byte>>)
    ensures |r| == |l|
  {
    seq(|l|, i requires 0 <= i < |l| => BytesField(1, EncodeAttribute(l[i])))
  }

  /** An attribute is its name and its value; a list is one message for each, behind those before it. */
  lemma ListBytes(l: seq<Attribute>, a: Attribute)
    ensures EncodedList([]) == []
    ensures EncodedList(l + [a])
            == EncodedList(l) + BytesField(1, BytesField(1, a.name) + BytesField(2, EncodeVariant(a.value)))
  {
    EncodeAttributeShape(a);
    assert Messages(l + [a])[..|l|] == Messages(l);
  }
}

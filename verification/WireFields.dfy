/** What the wire format means: varints, fields and groups, told from their bytes. */
module WireFields {
  import opened Wrappers
  import opened Bytes
  import opened Wire

  // ---------- varints ----------

  /** Seven bits from each byte, least significant first. */
  function Septets(bs: seq<byte>): nat {
    if bs == [] then 0 else bs[0] % 128 + 128 * Septets(bs[1..])
  }

  /** All bytes but the last have their high bit set. */
  predicate Continues(bs: seq<byte>) {
    bs != [] && bs[|bs| - 1] < 128 && forall i :: 0 <= i < |bs| - 1 ==> bs[i] >= 128
  }

  predicate IsVarint(bs: seq<byte>, v: nat) {
    Continues(bs) && |bs| <= 10 && v == Septets(bs) < TWO_64
  }

  lemma FirstSeptet(b: byte, rest: seq<byte>)
    ensures Septets([b] + rest) == b % 128 + 128 * Septets(rest)
    ensures rest != [] ==> (Continues([b] + rest) <==> b >= 128 && Continues(rest))
    ensures Continues([b]) <==> b < 128
  {
    assert ([b] + rest)[1..] == rest;
    if rest != [] && Continues([b] + rest) {
      assert forall i :: 0 <= i < |rest| ==> rest[i] == ([b] + rest)[i + 1];
    }
  }

  lemma {:induction false} WithinRead(data: seq<byte>, room: nat)
    requires room > 0 && VarintWithin(data, room).Success?
    ensures var Chunk(v, n) := VarintWithin(data, room).value;
            n <= room && Continues(data[..n]) && v == Septets(data[..n])
  {
    var n := VarintWithin(data, room).value.size;
    assert data[..n] == [data[0]] + data[1..][..n - 1];
    FirstSeptet(data[0], data[1..][..n - 1]);
    if n > 1 {
      WithinRead(data[1..], room - 1);
    }
  }

  lemma {:induction false} WithinWritten(bs: seq<byte>, rest: seq<byte>, room: nat)
    requires Continues(bs) && |bs| <= room && Septets(bs) < Limit(room)
    ensures VarintWithin(bs + rest, room) == Success(Chunk(Septets(bs), |bs|))
  {
    assert bs == [bs[0]] + bs[1..];
    FirstSeptet(bs[0], bs[1..]);
    if |bs| > 1 {
      assert (bs + rest)[1..] == bs[1..] + rest;
      WithinWritten(bs[1..], rest, room - 1);
    }
  }

  /** The number at the front: read iff its bytes continue up to one that does not, within ten bytes and 64 bits. */
  lemma VarintMeaning(data: seq<byte>, v: uint64, n: nat)
    ensures ConsumeVarint(data) == Success(Chunk(v, n)) <==> n <= |data| && IsVarint(data[..n], v)
  {
    LimitIs64();
    if ConsumeVarint(data) == Success(Chunk(v, n)) {
      WithinRead(data, MAX_VARINT_BYTES);
    }
    if n <= |data| && IsVarint(data[..n], v) {
      WithinWritten(data[..n], data[n..], MAX_VARINT_BYTES);
      assert data == data[..n] + data[n..];
    }
  }

  /** And written in as few bytes as the number needs. */
  lemma {:induction false} VarintWritten(v: nat)
    ensures Continues(AppendVarint(v)) && Septets(AppendVarint(v)) == v
    ensures v > 0 ==> AppendVarint(v)[|AppendVarint(v)| - 1] != 0
    ensures v == 0 ==> AppendVarint(v) == [0]
  {
    if v < 128 {
      FirstSeptet(v, []);
    } else {
      VarintWritten(v / 128);
      FirstSeptet(v % 128 + 128, AppendVarint(v / 128));
    }
  }

  // ---------- fields ----------

  /** The value of a field that is no group, in the first n bytes. */
  predicate ValueAt(data: seq<byte>, field: Field, n: nat) {
    && n <= |data|
    && match field.typ
       case 0 => IsVarint(data[..n], field.scalar) && field.bytes == []
       case 1 => n == 8 && field.scalar == LittleValue(data[..n]) && field.bytes == []
       case 2 => LengthBefore(data[..n], field.bytes) && field.scalar == 0
       case 5 => n == 4 && field.scalar == LittleValue(data[..n]) && field.bytes == []
       case _ => false
  }

  /** A field that is no group: its key in the first k bytes, number and wire type, then the value. */
  predicate FieldAt(data: seq<byte>, k: nat, field: Field, size: nat) {
    && k <= |data| && k <= size && 1 <= field.number <= 0x7FFF_FFFF && field.typ < 8
    && IsVarint(data[..k], 8 * field.number + field.typ)
    && ValueAt(data[k..], field, size - k)
  }

  /** The length of the bytes, as a varint, and the bytes. */
  predicate LengthBefore(data: seq<byte>, bytes: seq<byte>) {
    |bytes| <= |data| && data[|data| - |bytes|..] == bytes && |bytes| < TWO_64 && IsVarint(data[..|data| - |bytes|], |bytes|)
  }

  lemma BytesMeaning(data: seq<byte>, bytes: seq<byte>, size: nat)
    ensures ConsumeBytes(data) == Success(Chunk(bytes, size)) <==> size <= |data| && LengthBefore(data[..size], bytes)
  {
    if ConsumeBytes(data) == Success(Chunk(bytes, size)) {
      var n := ConsumeVarint(data).value.size;
      VarintMeaning(data, |bytes|, n);
      assert data[..size][..n] == data[..n] && data[..size][n..] == bytes;
    }
    if size <= |data| && LengthBefore(data[..size], bytes) {
      var n := size - |bytes|;
      assert data[..size][..n] == data[..n] && data[..size][n..] == data[n..size];
      VarintMeaning(data, |bytes|, n);
    }
  }

  lemma TagMeaning(data: seq<byte>, number: nat, typ: nat, k: nat)
    requires typ < 8 && number <= 0x7FFF_FFFF
    ensures ConsumeTag(data) == Success(Chunk(Tag(number, typ), k))
            <==> k <= |data| && 1 <= number && IsVarint(data[..k], 8 * number + typ)
  {
    VarintMeaning(data, 8 * number + typ, k);
  }

  lemma ValueMeaning(data: seq<byte>, field: Field, n: nat)
    requires field.typ in {0, 1, 2, 5}
    ensures ConsumeValue(Tag(field.number, field.typ), data) == Success(Chunk(field, n)) <==> ValueAt(data, field, n)
  {
    if field.typ == 0 {
      VarintMeaning(data, field.scalar, n);
    } else if field.typ == 2 {
      BytesMeaning(data, field.bytes, n);
    }
  }

  lemma ValueKeepsTag(tag: Tag, data: seq<byte>)
    requires ConsumeValue(tag, data).Success?
    ensures var f := ConsumeValue(tag, data).value.value; f.number == tag.number && f.typ == tag.typ
  {
  }

  lemma FieldRead(data: seq<byte>, field: Field, size: nat)
    requires field.typ in {0, 1, 2, 5} && ConsumeField(data) == Success(Chunk(field, size))
    ensures FieldAt(data, ConsumeTag(data).value.size, field, size)
  {
    var k := ConsumeTag(data).value.size;
    ValueKeepsTag(ConsumeTag(data).value.value, data[k..]);
    TagMeaning(data, field.number, field.typ, k);
    ValueMeaning(data[k..], field, size - k);
  }

  lemma FieldWritten(data: seq<byte>, k: nat, field: Field, size: nat)
    requires field.typ in {0, 1, 2, 5} && FieldAt(data, k, field, size)
    ensures ConsumeField(data) == Success(Chunk(field, size))
  {
    TagMeaning(data, field.number, field.typ, k);
    ValueMeaning(data[k..], field, size - k);
    FieldOfParts(data, Tag(field.number, field.typ), k, Chunk(field, size - k));
  }

  /** One field at the front: read iff its key and its value are there, by their wire type. */
  lemma FieldMeaning(data: seq<byte>, field: Field, size: nat)
    requires field.typ in {0, 1, 2, 5}
    ensures ConsumeField(data) == Success(Chunk(field, size)) <==> exists k: nat :: FieldAt(data, k, field, size)
  {
    if ConsumeField(data) == Success(Chunk(field, size)) {
      FieldRead(data, field, size);
    }
    if k: nat :| FieldAt(data, k, field, size) {
      FieldWritten(data, k, field, size);
    }
  }

  /** There are no other fields than these and groups. */
  lemma FieldTypes(data: seq<byte>)
    requires ConsumeField(data).Success?
    ensures ConsumeField(data).value.value.typ in {0, 1, 2, 3, 5}
  {
  }

  // ---------- why nothing is read ----------

  lemma {:induction false} WithinRefused(data: seq<byte>, room: nat)
    requires room > 0
    ensures VarintWithin(data, room) == Failure(Truncated) <==> |data| < room && forall i :: 0 <= i < |data| ==> data[i] >= 128
    ensures VarintWithin(data, room) == Failure(Overflow)
            <==> |data| >= room && data[room - 1] >= 2 && forall i :: 0 <= i < room - 1 ==> data[i] >= 128
    ensures VarintWithin(data, room).Failure? ==> VarintWithin(data, room).error in {Truncated, Overflow}
    decreases room
  {
    if data != [] && room > 1 {
      WithinRefused(data[1..], room - 1);
      assert forall i :: 0 <= i < |data[1..]| ==> data[1..][i] == data[i + 1];
      assert forall i :: 1 <= i < |data| ==> data[i] == data[1..][i - 1];
    }
  }

  /** A varint that does not end in the data is truncated; one of ten bytes has a last byte of at most one. */
  lemma VarintRefused(data: seq<byte>)
    ensures ConsumeVarint(data) == Failure(Truncated) <==> |data| < 10 && forall i :: 0 <= i < |data| ==> data[i] >= 128
    ensures ConsumeVarint(data) == Failure(Overflow)
            <==> |data| >= 10 && data[9] >= 2 && forall i :: 0 <= i < 9 ==> data[i] >= 128
    ensures ConsumeVarint(data).Failure? ==> ConsumeVarint(data).error in {Truncated, Overflow}
  {
    WithinRefused(data, 10);
  }

  /** The first thing wrong with a field that is no group: its key, its number, its type, its value. */
  lemma FieldRefused(data: seq<byte>)
    ensures match ConsumeVarint(data)
            case Failure(e) => ConsumeField(data) == Failure(e)
            case Success(Chunk(key, n)) =>
              if key / 8 < 1 || key / 8 > 0x7FFF_FFFF then ConsumeField(data) == Failure(FieldNumber)
              else match key % 8
                case 0 => ConsumeVarint(data[n..]).Failure? ==> ConsumeField(data) == Failure(ConsumeVarint(data[n..]).error)
                case 1 => |data| - n < 8 ==> ConsumeField(data) == Failure(Truncated)
                case 2 =>
                  (match ConsumeVarint(data[n..])
                   case Failure(e) => ConsumeField(data) == Failure(e)
                   case Success(Chunk(length, k)) => length > |data| - n - k ==> ConsumeField(data) == Failure(Truncated))
                case 3 => true
                case 4 => ConsumeField(data) == Failure(EndGroup)
                case 5 => |data| - n < 4 ==> ConsumeField(data) == Failure(Truncated)
                case _ => ConsumeField(data) == Failure(Reserved)
  {
  }

  // ---------- groups ----------

  /** What comes next inside a group: a group is opened or closed, or a whole field of another kind is there. */
  datatype Mark = Opens(number: nat) | Closes(number: nat) | Whole

  function NextMark(data: seq<byte>): (r: Result<Chunk<Mark>, Error>)
    ensures r.Success? ==> 1 <= r.value.size <= |data|
  {
    var tag :- ConsumeTag(data);
    if tag.value.typ == 3 then Success(Chunk(Opens(tag.value.number), tag.size))
    else if tag.value.typ == 4 then Success(Chunk(Closes(tag.value.number), tag.size))
    else
      var n :- ScalarSize(tag.value.typ, data[tag.size..]);
      Success(Chunk(Whole, tag.size + n))
  }

  ghost predicate Reads(read: seq<byte> -> Result<Chunk<Mark>, Error>) {
    forall d :: read(d).Success? ==> 1 <= read(d).value.size <= |d|
  }

  /** The size of a group behind its start tag, as protowire recurses: fields, nested groups, the end tag of its number. */
  function GroupSize(read: seq<byte> -> Result<Chunk<Mark>, Error>, number: nat, depth: int, data: seq<byte>)
    : (r: Result<nat, Error>)
    requires Reads(read)
    ensures r.Success? ==> r.value <= |data|
    decreases |data|
  {
    if depth < 0 then Failure(RecursionDepth)
    else
      var mark :- read(data);
      var behind := data[mark.size..];
      match mark.value
      case Closes(n) => if n != number then Failure(EndGroup) else Success(mark.size)
      case Whole => Plus(mark.size, GroupSize(read, number, depth, behind))
      case Opens(n) =>
        var inner :- GroupSize(read, n, depth - 1, behind);
        Plus(mark.size + inner, GroupSize(read, number, depth, behind[inner..]))
  }

  function Plus(n: nat, r: Result<nat, Error>): Result<nat, Error> {
    if r.Success? then Success(n + r.value) else r
  }

  /** One mark, with the groups that are open around it. */
  function Marked(open: seq<nat>, mark: Result<Chunk<Mark>, Error>): Result<Step<seq<nat>>, Error> {
    var m :- mark;
    match m.value
    case Closes(n) =>
      if open == [] || n != open[|open| - 1] then Failure(EndGroup) else Success(Step(open[..|open| - 1], m.size))
    case Whole => Success(Step(open, m.size))
    case Opens(n) => if |open| > 10000 then Failure(RecursionDepth) else Success(Step(open + [n], m.size))
  }

  /** The size of a first part, then of what closes the groups around it. */
  function Around(
    step: (seq<nat>, seq<byte>) -> Result<Step<seq<nat>>, Error>, first: Result<nat, Error>, open: seq<nat>, data: seq<byte>)
    : Result<nat, Error>
    requires Consumes(step) && (first.Success? ==> first.value <= |data|)
  {
    if first.Success? then Plus(first.value, SizeUntilClosed(step, open, data[first.value..])) else first
  }

  lemma Shifted(
    step: (seq<nat>, seq<byte>) -> Result<Step<seq<nat>>, Error>, n: nat, first: Result<nat, Error>, open: seq<nat>,
    data: seq<byte>)
    requires Consumes(step) && n <= |data| && (first.Success? ==> first.value <= |data| - n)
    ensures Plus(n, Around(step, first, open, data[n..])) == Around(step, Plus(n, first), open, data)
  {
    if first.Success? {
      assert data[n..][first.value..] == data[n + first.value..];
    }
  }

  lemma UntilOneStep(
    step: (seq<nat>, seq<byte>) -> Result<Step<seq<nat>>, Error>, open: seq<nat>, data: seq<byte>, next: Step<seq<nat>>)
    requires Consumes(step) && open != [] && step(open, data) == Success(next)
    ensures SizeUntilClosed(step, open, data) == Plus(next.size, SizeUntilClosed(step, next.state, data[next.size..]))
  {
  }

  lemma UntilFails(step: (seq<nat>, seq<byte>) -> Result<Step<seq<nat>>, Error>, open: seq<nat>, data: seq<byte>, e: Error)
    requires Consumes(step) && open != [] && step(open, data) == Failure(e)
    ensures SizeUntilClosed(step, open, data) == Failure(e)
  {
  }

  lemma SizeWhole(read: seq<byte> -> Result<Chunk<Mark>, Error>, number: nat, depth: nat, data: seq<byte>, k: nat)
    requires Reads(read) && read(data) == Success(Chunk(Whole, k))
    ensures GroupSize(read, number, depth, data) == Plus(k, GroupSize(read, number, depth, data[k..]))
  {
  }

  lemma SizeOpens(read: seq<byte> -> Result<Chunk<Mark>, Error>, number: nat, depth: nat, data: seq<byte>, k: nat, n: nat)
    requires Reads(read) && read(data) == Success(Chunk(Opens(n), k))
    ensures var inner := GroupSize(read, n, depth - 1, data[k..]);
            GroupSize(read, number, depth, data)
            == if inner.Failure? then inner
               else Plus(k + inner.value, GroupSize(read, number, depth, data[k..][inner.value..]))
  {
  }

  lemma FurtherOn(data: seq<byte>, i: nat, j: nat)
    requires i + j <= |data|
    ensures data[i..][j..] == data[i + j..]
  {
  }

  lemma PlusTwice(k: nat, m: nat, r: Result<nat, Error>)
    ensures Plus(k, Plus(m, r)) == Plus(k + m, r)
  {
  }

  lemma SizeCloses(read: seq<byte> -> Result<Chunk<Mark>, Error>, number: nat, depth: nat, data: seq<byte>, k: nat, n: nat)
    requires Reads(read) && read(data) == Success(Chunk(Closes(n), k))
    ensures GroupSize(read, number, depth, data) == if n == number then Success(k) else Failure(EndGroup)
  {
  }

  /** whole is closed, on the data, as a group of that number at that depth, then open. */
  ghost predicate Nests(
    step: (seq<nat>, seq<byte>) -> Result<Step<seq<nat>>, Error>, read: seq<byte> -> Result<Chunk<Mark>, Error>,
    open: seq<nat>, whole: seq<nat>, number: nat, depth: nat, data: seq<byte>)
    requires Consumes(step) && Reads(read)
  {
    SizeUntilClosed(step, whole, data) == Around(step, GroupSize(read, number, depth, data), open, data)
  }

  lemma StackFails(
    step: (seq<nat>, seq<byte>) -> Result<Step<seq<nat>>, Error>, read: seq<byte> -> Result<Chunk<Mark>, Error>,
    open: seq<nat>, whole: seq<nat>, number: nat, depth: nat, data: seq<byte>, e: Error)
    requires Consumes(step) && Reads(read) && read(data) == Failure(e)
    requires whole != [] && step(whole, data) == Failure(e)
    ensures Nests(step, read, open, whole, number, depth, data)
  {
    UntilFails(step, whole, data, e);
  }

  lemma StackCloses(
    step: (seq<nat>, seq<byte>) -> Result<Step<seq<nat>>, Error>, read: seq<byte> -> Result<Chunk<Mark>, Error>,
    open: seq<nat>, whole: seq<nat>, number: nat, depth: nat, data: seq<byte>, k: nat, n: nat)
    requires Consumes(step) && Reads(read) && read(data) == Success(Chunk(Closes(n), k)) && whole != []
    requires step(whole, data) == if n == number then Success(Step(open, k)) else Failure(EndGroup)
    ensures Nests(step, read, open, whole, number, depth, data)
  {
    SizeCloses(read, number, depth, data, k, n);
    if n == number {
      UntilOneStep(step, whole, data, Step(open, k));
    } else {
      UntilFails(step, whole, data, EndGroup);
    }
  }

  lemma StackWhole(
    step: (seq<nat>, seq<byte>) -> Result<Step<seq<nat>>, Error>, read: seq<byte> -> Result<Chunk<Mark>, Error>,
    open: seq<nat>, whole: seq<nat>, number: nat, depth: nat, data: seq<byte>, k: nat)
    requires Consumes(step) && Reads(read) && read(data) == Success(Chunk(Whole, k))
    requires whole != [] && step(whole, data) == Success(Step(whole, k))
    requires Nests(step, read, open, whole, number, depth, data[k..])
    ensures Nests(step, read, open, whole, number, depth, data)
  {
    UntilOneStep(step, whole, data, Step(whole, k));
    SizeWhole(read, number, depth, data, k);
    Shifted(step, k, GroupSize(read, number, depth, data[k..]), open, data);
  }

  lemma StackTooDeep(
    step: (seq<nat>, seq<byte>) -> Result<Step<seq<nat>>, Error>, read: seq<byte> -> Result<Chunk<Mark>, Error>,
    open: seq<nat>, whole: seq<nat>, number: nat, data: seq<byte>, k: nat, n: nat)
    requires Consumes(step) && Reads(read) && read(data) == Success(Chunk(Opens(n), k))
    requires whole != [] && step(whole, data) == Failure(RecursionDepth)
    ensures Nests(step, read, open, whole, number, 0, data)
  {
    UntilFails(step, whole, data, RecursionDepth);
    SizeOpens(read, number, 0, data, k, n);
  }

  /** The steps of an inner group that is closed, then those of the group around it. */
  lemma InnerThenOuter(
    step: (seq<nat>, seq<byte>) -> Result<Step<seq<nat>>, Error>, open: seq<nat>, whole: seq<nat>, deeper: seq<nat>,
    data: seq<byte>, k: nat, inner: nat, outer: Result<nat, Error>)
    requires Consumes(step) && k + inner <= |data| && (outer.Success? ==> outer.value <= |data| - k - inner)
    requires SizeUntilClosed(step, whole, data) == Plus(k, SizeUntilClosed(step, deeper, data[k..]))
    requires SizeUntilClosed(step, deeper, data[k..]) == Around(step, Success(inner), whole, data[k..])
    requires SizeUntilClosed(step, whole, data[k + inner..]) == Around(step, outer, open, data[k + inner..])
    ensures SizeUntilClosed(step, whole, data) == Around(step, Plus(k + inner, outer), open, data)
  {
    FurtherOn(data, k, inner);
    var rest := SizeUntilClosed(step, whole, data[k + inner..]);
    assert SizeUntilClosed(step, whole, data) == Plus(k, Plus(inner, rest));
    PlusTwice(k, inner, rest);
    Shifted(step, k + inner, outer, open, data);
  }

  lemma SizeOpensTo(
    read: seq<byte> -> Result<Chunk<Mark>, Error>, number: nat, depth: nat, data: seq<byte>, k: nat, n: nat, inner: nat)
    requires Reads(read) && read(data) == Success(Chunk(Opens(n), k))
    requires GroupSize(read, n, depth - 1, data[k..]) == Success(inner)
    ensures k + inner <= |data|
    ensures GroupSize(read, number, depth, data) == Plus(k + inner, GroupSize(read, number, depth, data[k + inner..]))
  {
    SizeOpens(read, number, depth, data, k, n);
    FurtherOn(data, k, inner);
  }

  lemma StackOpens(
    step: (seq<nat>, seq<byte>) -> Result<Step<seq<nat>>, Error>, read: seq<byte> -> Result<Chunk<Mark>, Error>,
    open: seq<nat>, whole: seq<nat>, deeper: seq<nat>, number: nat, depth: nat, data: seq<byte>, k: nat, n: nat, inner: nat)
    requires Consumes(step) && Reads(read) && depth > 0 && read(data) == Success(Chunk(Opens(n), k))
    requires whole != [] && step(whole, data) == Success(Step(deeper, k))
    requires GroupSize(read, n, depth - 1, data[k..]) == Success(inner)
    requires Nests(step, read, whole, deeper, n, depth - 1, data[k..])
    requires Nests(step, read, open, whole, number, depth, data[k + inner..])
    ensures Nests(step, read, open, whole, number, depth, data)
  {
    UntilOneStep(step, whole, data, Step(deeper, k));
    SizeOpensTo(read, number, depth, data, k, n, inner);
    InnerThenOuter(step, open, whole, deeper, data, k, inner, GroupSize(read, number, depth, data[k + inner..]));
  }

  lemma StackInnerFails(
    step: (seq<nat>, seq<byte>) -> Result<Step<seq<nat>>, Error>, read: seq<byte> -> Result<Chunk<Mark>, Error>,
    open: seq<nat>, whole: seq<nat>, deeper: seq<nat>, number: nat, depth: nat, data: seq<byte>, k: nat, n: nat, e: Error)
    requires Consumes(step) && Reads(read) && depth > 0 && read(data) == Success(Chunk(Opens(n), k))
    requires whole != [] && step(whole, data) == Success(Step(deeper, k))
    requires GroupSize(read, n, depth - 1, data[k..]) == Failure(e)
    requires Nests(step, read, whole, deeper, n, depth - 1, data[k..])
    ensures Nests(step, read, open, whole, number, depth, data)
  {
    UntilOneStep(step, whole, data, Step(deeper, k));
    SizeOpens(read, number, depth, data, k, n);
  }

  /** A stack of open groups is closed from the innermost outwards, each as the recursion reads it. */
  lemma {:induction false} StackNests(
    step: (seq<nat>, seq<byte>) -> Result<Step<seq<nat>>, Error>, read: seq<byte> -> Result<Chunk<Mark>, Error>,
    open: seq<nat>, number: nat, data: seq<byte>)
    requires Consumes(step) && Reads(read) && |open| <= 10000
    requires forall o, d {:trigger Marked(o, read(d))} :: step(o, d) == Marked(o, read(d))
    ensures Nests(step, read, open, open + [number], number, 10000 - |open|, data)
    decreases |data|, 1
  {
    var whole, depth := open + [number], 10000 - |open|;
    assert whole[..|open|] == open && whole[|whole| - 1] == number;
    assert step(whole, data) == Marked(whole, read(data));
    if read(data).Failure? {
      StackFails(step, read, open, whole, number, depth, data, read(data).error);
    } else {
      var Chunk(mark, k) := read(data).value;
      match mark
      case Closes(n) => StackCloses(step, read, open, whole, number, depth, data, k, n);
      case Whole =>
        StackNests(step, read, open, number, data[k..]);
        StackWhole(step, read, open, whole, number, depth, data, k);
      case Opens(n) => GroupInside(step, read, open, number, data, k, n);
    }
  }

  /** A step over an opened group. */
  lemma StepOpens(
    step: (seq<nat>, seq<byte>) -> Result<Step<seq<nat>>, Error>, read: seq<byte> -> Result<Chunk<Mark>, Error>,
    whole: seq<nat>, data: seq<byte>, k: nat, n: nat)
    requires Reads(read) && whole != [] && |whole| <= 10001 && read(data) == Success(Chunk(Opens(n), k))
    requires step(whole, data) == Marked(whole, read(data))
    ensures step(whole, data) == if |whole| == 10001 then Failure(RecursionDepth) else Success(Step(whole + [n], k))
  {
  }

  lemma {:induction false} GroupInside(
    step: (seq<nat>, seq<byte>) -> Result<Step<seq<nat>>, Error>, read: seq<byte> -> Result<Chunk<Mark>, Error>,
    open: seq<nat>, number: nat, data: seq<byte>, k: nat, n: nat)
    requires Consumes(step) && Reads(read) && |open| <= 10000 && read(data) == Success(Chunk(Opens(n), k))
    requires forall o, d {:trigger Marked(o, read(d))} :: step(o, d) == Marked(o, read(d))
    ensures Nests(step, read, open, open + [number], number, 10000 - |open|, data)
    decreases |data|, 0
  {
    var whole, depth := open + [number], 10000 - |open|;
    assert step(whole, data) == Marked(whole, read(data));
    StepOpens(step, read, whole, data, k, n);
    if depth == 0 {
      StackTooDeep(step, read, open, whole, number, data, k, n);
    } else {
      StackNests(step, read, whole, n, data[k..]);
      match GroupSize(read, n, depth - 1, data[k..])
      case Success(inner) =>
        StackNests(step, read, open, number, data[k + inner..]);
        StackOpens(step, read, open, whole, whole + [n], number, depth, data, k, n, inner);
      case Failure(e) =>
        StackInnerFails(step, read, open, whole, whole + [n], number, depth, data, k, n, e);
    }
  }

  lemma WholeGroup(
    step: (seq<nat>, seq<byte>) -> Result<Step<seq<nat>>, Error>, read: seq<byte> -> Result<Chunk<Mark>, Error>,
    number: nat, data: seq<byte>)
    requires Consumes(step) && Reads(read)
    requires forall o, d {:trigger Marked(o, read(d))} :: step(o, d) == Marked(o, read(d))
    ensures SizeUntilClosed(step, [number], data) == GroupSize(read, number, 10000, data)
  {
    StackNests(step, read, [], number, data);
    assert [] + [number] == [number];
    AloneInStack(step, read, number, data);
  }

  lemma AloneInStack(
    step: (seq<nat>, seq<byte>) -> Result<Step<seq<nat>>, Error>, read: seq<byte> -> Result<Chunk<Mark>, Error>,
    number: nat, data: seq<byte>)
    requires Consumes(step) && Reads(read) && Nests(step, read, [], [number], number, 10000, data)
    ensures SizeUntilClosed(step, [number], data) == GroupSize(read, number, 10000, data)
  {
  }

  lemma StepsAreMarks()
    ensures Consumes(GroupStep) && Reads(NextMark)
    ensures forall o, d {:trigger Marked(o, NextMark(d))} :: GroupStep(o, d) == Marked(o, NextMark(d))
  {
    forall o, d
      ensures GroupStep(o, d) == Marked(o, NextMark(d))
    {
      StepIsMark(o, d);
    }
  }

  lemma StepIsMark(open: seq<nat>, data: seq<byte>)
    ensures GroupStep(open, data) == Marked(open, NextMark(data))
  {
  }

  lemma GroupValue(number: nat, data: seq<byte>)
    ensures Consumes(GroupStep) && ConsumeFieldValue(number, 3, data) == SizeUntilClosed(GroupStep, [number], data)
  {
  }

  /** What is behind a start tag is read as protowire's recursion does, to a depth of 10000. */
  lemma GroupMeaning(number: nat, data: seq<byte>)
    ensures Reads(NextMark) && ConsumeFieldValue(number, 3, data) == GroupSize(NextMark, number, 10000, data)
  {
    StepsAreMarks();
    GroupValue(number, data);
    WholeGroup(GroupStep, NextMark, number, data);
  }

  // ---------- input cut into pieces ----------

  /** Exactly one field. */
  predicate OneField(raw: seq<byte>) {
    ConsumeField(raw).Success? && ConsumeField(raw).value.size == |raw|
  }

  function FieldIn(raw: seq<byte>): Field
    requires OneField(raw)
  {
    ConsumeField(raw).value.value
  }

  predicate AllFields(pieces: seq<seq<byte>>) {
    forall i :: 0 <= i < |pieces| ==> OneField(pieces[i])
  }

  /** The pieces make up the data, and each is good. */
  predicate IsCut(good: seq<byte> -> bool, pieces: seq<seq<byte>>, data: seq<byte>) {
    Concat(pieces) == data && forall i :: 0 <= i < |pieces| ==> good(pieces[i])
  }

  lemma ConcatBefore(first: seq<byte>, rest: seq<seq<byte>>)
    ensures Concat([first] + rest) == first + Concat(rest)
    decreases |rest|
  {
    var all := [first] + rest;
    if rest == [] {
      assert all[..0] == [] && first + [] == [] + first;
    } else {
      var n := |rest| - 1;
      ConcatBefore(first, rest[..n]);
      assert all[..n + 1] == [first] + rest[..n];
      assert first + Concat(rest[..n]) + rest[n] == first + (Concat(rest[..n]) + rest[n]);
    }
  }

  lemma CutFront(good: seq<byte> -> bool, data: seq<byte>, n: nat, rest: seq<seq<byte>>)
    requires n <= |data| && good(data[..n]) && IsCut(good, rest, data[n..])
    ensures IsCut(good, [data[..n]] + rest, data)
  {
    ConcatBefore(data[..n], rest);
    assert data == data[..n] + data[n..];
  }

  /** What a loop uses up is cut where its steps end. */
  lemma {:induction false} CutOfLoop<S(!new)>(
    step: (S, seq<byte>) -> Result<Step<S>, Error>, good: seq<byte> -> bool, s: S, data: seq<byte>)
    returns (pieces: seq<seq<byte>>)
    requires Consumes(step) && Loop(step, s, data).Success?
    requires forall t, d :: step(t, d).Success? ==> good(d[..step(t, d).value.size])
    ensures IsCut(good, pieces, data)
    decreases |data|
  {
    if data == [] {
      pieces := [];
    } else {
      var Step(next, n) := step(s, data).value;
      var rest := CutOfLoop(step, good, next, data[n..]);
      CutFront(good, data, n, rest);
      pieces := [data[..n]] + rest;
    }
  }

  /** Good pieces, read one after the other, when each takes the loop from what the pieces before it make. */
  lemma {:induction false} LoopOfCut<S(!new)>(
    step: (S, seq<byte>) -> Result<Step<S>, Error>, state: seq<seq<byte>> -> S, good: seq<byte> -> bool,
    pieces: seq<seq<byte>>)
    requires Consumes(step) && Local(step) && forall i :: 0 <= i < |pieces| ==> good(pieces[i])
    requires forall before, raw :: good(raw) ==> Loop(step, state(before), raw) == Success(state(before + [raw]))
    ensures Loop(step, state([]), Concat(pieces)) == Success(state(pieces))
  {
    if pieces != [] {
      var init, last := pieces[..|pieces| - 1], pieces[|pieces| - 1];
      assert pieces == init + [last];
      LoopOfCut(step, state, good, init);
      LoopConcat(step, state([]), Concat(init), last);
    }
  }

  /** Behind pieces that were read, the step that fails decides. */
  lemma LoopRefuses<S(!new)>(
    step: (S, seq<byte>) -> Result<Step<S>, Error>, s: S, t: S, front: seq<byte>, rest: seq<byte>, e: Error)
    requires Consumes(step) && Local(step)
    requires Loop(step, s, front) == Success(t) && rest != [] && step(t, rest) == Failure(e)
    ensures Loop(step, s, front + rest) == Failure(e)
  {
    LoopConcat(step, s, front, rest);
    LoopFirst(step, t, rest);
  }
}

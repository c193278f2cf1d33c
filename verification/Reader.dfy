/** The little-endian cursor that legacy packets are read with. */
module Reader {
  import opened Wrappers
  import opened Bytes

  datatype ReadError =
    | NotEnough
    | TooLong
    | Unterminated
    | TrailingBytes
    | TooManyMembers(count: nat)
    | UnknownStatus(status: nat)

  /** A value read from the front of some bytes, and the bytes behind it. */
  datatype Parsed<+T> = Parsed(value: T, rest: seq<byte>)

  type Read<+T> = Result<Parsed<T>, ReadError>

  function Take(d: seq<byte>, n: nat): (r: Read<seq<byte>>)
    ensures r.Success? ==> |r.value.value| == n && |r.value.rest| == |d| - n
  {
    if n > |d| then Failure(NotEnough) else Success(Parsed(d[..n], d[n..]))
  }

  function U8(d: seq<byte>): Read<byte> {
    if |d| < 1 then Failure(NotEnough) else Success(Parsed(d[0], d[1..]))
  }

  function U16(d: seq<byte>): Read<uint16> {
    Widths();
    if |d| < 2 then Failure(NotEnough) else Success(Parsed(LittleValue(d[..2]), d[2..]))
  }

  function U32(d: seq<byte>): Read<uint32> {
    Widths();
    if |d| < 4 then Failure(NotEnough) else Success(Parsed(LittleValue(d[..4]), d[4..]))
  }

  function U64(d: seq<byte>): Read<uint64> {
    Widths();
    if |d| < 8 then Failure(NotEnough) else Success(Parsed(LittleValue(d[..8]), d[8..]))
  }

  /** A NUL-terminated string of at most room bytes. */
  function CString(d: seq<byte>, room: nat): (r: Read<seq<byte>>)
    ensures r.Success? ==> |r.value.rest| < |d| && |r.value.value| <= room && 0 !in r.value.value
    decreases |d|
  {
    if d == [] then Failure(Unterminated)
    else if d[0] == 0 then Success(Parsed([], d[1..]))
    else if room == 0 then Failure(TooLong)
    else
      var t :- CString(d[1..], room - 1);
      Success(Parsed([d[0]] + t.value, t.rest))
  }

  function Finish<T>(value: T, d: seq<byte>): Result<T, ReadError> {
    if d != [] then Failure(TrailingBytes) else Success(value)
  }

  /** n values, one after the other. */
  function Many<T>(read: seq<byte> -> Read<T>, d: seq<byte>, n: nat): Read<seq<T>> {
    if n == 0 then Success(Parsed([], d))
    else
      var before :- Many(read, d, n - 1);
      var next :- read(before.rest);
      Success(Parsed(before.value + [next.value], next.rest))
  }

  lemma ManyNext<T>(read: seq<byte> -> Read<T>, d: seq<byte>, n: nat, before: Parsed<seq<T>>)
    requires Many(read, d, n) == Success(before)
    ensures var next := read(before.rest);
            Many(read, d, n + 1)
            == if next.Success? then Success(Parsed(before.value + [next.value.value], next.value.rest))
               else Failure(next.error)
  {
  }

  /** Reading more values does not mend a failure. */
  lemma {:induction false} ManyFails<T>(read: seq<byte> -> Read<T>, d: seq<byte>, k: nat, n: nat)
    requires k <= n && Many(read, d, k).Failure?
    ensures Many(read, d, n) == Failure(Many(read, d, k).error)
  {
    if k < n {
      ManyFails(read, d, k, n - 1);
    }
  }

  // slices of slices

  lemma DropDrop(d: seq<byte>, i: nat, j: nat)
    requires i + j <= |d|
    ensures d[i..][j..] == d[i + j..]
  {
  }

  lemma DropTake(d: seq<byte>, i: nat, j: nat)
    requires i + j <= |d|
    ensures d[i..][..j] == d[i..i + j]
  {
  }

  class MovementReader {
    const data: seq<byte>
    var offset: nat

    ghost predicate Valid()
      reads this
    {
      offset <= |data|
    }

    function Rest(): seq<byte>
      requires Valid()
      reads this
    {
      data[offset..]
    }

    constructor (body: seq<byte>)
      ensures Valid() && data == body && Rest() == body
    {
      data, offset := body, 0;
    }

    function Remaining(): nat
      requires Valid()
      reads this
    {
      |data| - offset
    }

    method TakeBytes(n: nat) returns (r: Result<seq<byte>, ReadError>)
      requires Valid()
      modifies this`offset
      ensures Valid()
      ensures r.Failure? ==> Take(old(Rest()), n) == Failure(r.error)
      ensures r.Success? ==> Take(old(Rest()), n) == Success(Parsed(r.value, Rest()))
    {
      if n > Remaining() {
        return Failure(NotEnough);
      }
      r := Success(data[offset..offset + n]);
      offset := offset + n;
      assert old(Rest())[..n] == r.value && old(Rest())[n..] == Rest();
    }

    method ReadU8() returns (r: Result<byte, ReadError>)
      requires Valid()
      modifies this`offset
      ensures Valid()
      ensures r.Failure? ==> U8(old(Rest())) == Failure(r.error)
      ensures r.Success? ==> U8(old(Rest())) == Success(Parsed(r.value, Rest()))
    {
      var value :- TakeBytes(1);
      return Success(value[0]);
    }

    method ReadU16() returns (r: Result<uint16, ReadError>)
      requires Valid()
      modifies this`offset
      ensures Valid()
      ensures r.Failure? ==> U16(old(Rest())) == Failure(r.error)
      ensures r.Success? ==> U16(old(Rest())) == Success(Parsed(r.value, Rest()))
    {
      Widths();
      var value :- TakeBytes(2);
      return Success(LittleValue(value));
    }

    method ReadU32() returns (r: Result<uint32, ReadError>)
      requires Valid()
      modifies this`offset
      ensures Valid()
      ensures r.Failure? ==> U32(old(Rest())) == Failure(r.error)
      ensures r.Success? ==> U32(old(Rest())) == Success(Parsed(r.value, Rest()))
    {
      Widths();
      var value :- TakeBytes(4);
      return Success(LittleValue(value));
    }

    method ReadU64() returns (r: Result<uint64, ReadError>)
      requires Valid()
      modifies this`offset
      ensures Valid()
      ensures r.Failure? ==> U64(old(Rest())) == Failure(r.error)
      ensures r.Success? ==> U64(old(Rest())) == Success(Parsed(r.value, Rest()))
    {
      Widths();
      var value :- TakeBytes(8);
      return Success(LittleValue(value));
    }

    method ReadCString(maximum: nat) returns (r: Result<seq<byte>, ReadError>)
      requires Valid()
      modifies this`offset
      ensures Valid()
      ensures r.Failure? ==> CString(old(Rest()), maximum) == Failure(r.error)
      ensures r.Success? ==> CString(old(Rest()), maximum) == Success(Parsed(r.value, Rest()))
    {
      var start := offset;
      while offset < |data| && data[offset] != 0
        invariant start <= offset <= |data| && offset - start <= maximum
        invariant forall i :: start <= i < offset ==> data[i] != 0
      {
        offset := offset + 1;
        if offset - start > maximum {
          CStringTooLong(data[start..], maximum);
          return Failure(TooLong);
        }
      }
      if offset == |data| {
        CStringUnterminated(data[start..], maximum);
        return Failure(Unterminated);
      }
      r := Success(data[start..offset]);
      offset := offset + 1;
      CStringEnds(data[start..], |r.value|, maximum);
      assert data[start..][..|r.value|] == r.value && data[start..][|r.value| + 1..] == Rest();
    }
  }

  lemma {:induction false} CStringTooLong(d: seq<byte>, room: nat)
    requires room < |d| && forall i :: 0 <= i <= room ==> d[i] != 0
    ensures CString(d, room) == Failure(TooLong)
  {
    if room > 0 {
      CStringTooLong(d[1..], room - 1);
    }
  }

  lemma {:induction false} CStringUnterminated(d: seq<byte>, room: nat)
    requires |d| <= room && forall i :: 0 <= i < |d| ==> d[i] != 0
    ensures CString(d, room) == Failure(Unterminated)
  {
    if d != [] {
      CStringUnterminated(d[1..], room - 1);
    }
  }

  /** A string of n bytes ends at the first NUL. */
  lemma {:induction false} CStringEnds(d: seq<byte>, n: nat, room: nat)
    requires n < |d| && n <= room && d[n] == 0
    requires forall i :: 0 <= i < n ==> d[i] != 0
    ensures CString(d, room) == Success(Parsed(d[..n], d[n + 1..]))
  {
    if n > 0 {
      CStringEnds(d[1..], n - 1, room - 1);
      assert [d[0]] + d[1..][..n - 1] == d[..n];
    }
  }
}

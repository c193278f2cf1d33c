/** The bounded packet history of a connection. */
module Histories {
  import opened Bytes

  const SMSG_UPDATE_OBJECT: uint16 := 10187
  const SMSG_QUERY_CREATURE: uint16 := 10516
  const SMSG_AURA_UPDATE: uint16 := 11295
  const SMSG_ON_MONSTER_MOVE: uint16 := 11732
  const SMSG_MOVE_UPDATE: uint16 := 11744

  /** Object and combat packets: the only ones whose payload is kept. */
  const PAYLOAD_OPCODES: set<uint16> :=
    {SMSG_UPDATE_OBJECT, SMSG_QUERY_CREATURE, SMSG_AURA_UPDATE, SMSG_ON_MONSTER_MOVE, SMSG_MOVE_UPDATE}

  const MAX_PAYLOAD: nat := 256 * 1024
  const MAX_RECORDS: nat := 512
  const BUDGET: nat := 4 * 1024 * 1024

  datatype Packet = Packet(opcode: uint16, body: seq<byte>)
  datatype Entry = Entry(sequence: nat, opcode: uint16, length: nat, hex: string)

  // ---------- hexadecimal ----------

  const DIGITS: string := "0123456789abcdef"

  function Hex(bs: seq<byte>): (s: string)
    ensures |s| == 2 * |bs|
  {
    if bs == [] then [] else [DIGITS[bs[0] / 16], DIGITS[bs[0] % 16]] + Hex(bs[1..])
  }

  function DigitValue(c: char): nat {
    if '0' <= c <= '9' then c as int - '0' as int
    else if 'a' <= c <= 'f' then c as int - 'a' as int + 10
    else 0
  }

  function Unhex(s: string): seq<nat> {
    if |s| < 2 then [] else [16 * DigitValue(s[0]) + DigitValue(s[1])] + Unhex(s[2..])
  }

  /** What the history keeps of a body is all of it. */
  lemma {:induction false} HexRoundTrip(bs: seq<byte>)
    ensures Unhex(Hex(bs)) == bs
  {
    if bs != [] {
      HexRoundTrip(bs[1..]);
      assert Hex(bs)[2..] == Hex(bs[1..]);
      assert bs[0] == 16 * (bs[0] / 16) + bs[0] % 16;
      DigitRoundTrip(bs[0] / 16);
      DigitRoundTrip(bs[0] % 16);
    }
  }

  lemma DigitRoundTrip(d: nat)
    requires d < 16
    ensures DigitValue(DIGITS[d]) == d
  {
  }

  // ---------- the full history ----------

  predicate KeepsPayload(p: Packet) {
    p.opcode in PAYLOAD_OPCODES && |p.body| <= MAX_PAYLOAD
  }

  function EntryOf(sequence: nat, p: Packet): Entry {
    Entry(sequence, p.opcode, |p.body|, if KeepsPayload(p) then Hex(p.body) else "")
  }

  /** Every packet ever recorded, numbered from one. */
  function FullHistory(packets: seq<Packet>): (r: seq<Entry>)
    ensures |r| == |packets|
  {
    seq(|packets|, i requires 0 <= i < |packets| => EntryOf(i + 1, packets[i]))
  }

  function HexSize(entries: seq<Entry>): nat {
    if entries == [] then 0 else |entries[0].hex| + HexSize(entries[1..])
  }

  predicate Fits(entries: seq<Entry>) {
    |entries| <= MAX_RECORDS && HexSize(entries) <= BUDGET
  }

  function Suffix(entries: seq<Entry>, n: nat): (r: seq<Entry>)
    requires n <= |entries|
    ensures |r| == n
  {
    entries[|entries| - n..]
  }

  /** kept is the longest suffix of all within both limits. */
  ghost predicate LongestFitting(kept: seq<Entry>, all: seq<Entry>) {
    && |kept| <= |all|
    && kept == Suffix(all, |kept|)
    && Fits(kept)
    && forall n :: |kept| < n <= |all| ==> !Fits(Suffix(all, n))
  }

  lemma {:induction false} HexSizeAppend(entries: seq<Entry>, last: Entry)
    ensures HexSize(entries + [last]) == HexSize(entries) + |last.hex|
  {
    if entries != [] {
      HexSizeAppend(entries[1..], last);
      assert (entries + [last])[1..] == entries[1..] + [last];
    }
  }

  lemma SuffixAppend(all: seq<Entry>, last: Entry, n: nat)
    requires n <= |all|
    ensures Suffix(all + [last], n + 1) == Suffix(all, n) + [last]
  {
  }

  lemma DropFirst(all: seq<Entry>, n: nat)
    requires 0 < n <= |all|
    ensures Suffix(all, n)[1..] == Suffix(all, n - 1)
  {
  }

  /** Every suffix shorter than one that fits, fits as well. */
  lemma {:induction false} ShorterFits(all: seq<Entry>, m: nat, n: nat)
    requires m <= n <= |all| && Fits(Suffix(all, n))
    ensures Fits(Suffix(all, m))
  {
    if m < n {
      DropFirst(all, n);
      ShorterFits(all, m, n - 1);
    }
  }

  /** The longest fitting suffix: there is only one, and it has every fitting suffix at its end. */
  lemma LongestIsUnique(kept: seq<Entry>, all: seq<Entry>, n: nat)
    requires LongestFitting(kept, all) && n <= |all|
    ensures Fits(Suffix(all, n)) <==> n <= |kept|
  {
    if n <= |kept| {
      ShorterFits(all, n, |kept|);
    }
  }

  lemma {:induction false} HexSizeBound(packets: seq<Packet>, n: nat)
    requires n <= |packets|
    ensures HexSize(Suffix(FullHistory(packets), n)) <= n * 2 * MAX_PAYLOAD
  {
    if n > 0 {
      HexSizeBound(packets, n - 1);
      DropFirst(FullHistory(packets), n);
    }
  }

  lemma EightFit(packets: seq<Packet>, n: nat)
    requires n <= 8 && n <= |packets|
    ensures Fits(Suffix(FullHistory(packets), n))
  {
    HexSizeBound(packets, n);
  }

  /** Whatever the bodies, the last eight packets are always there. */
  lemma LastEightKept(kept: seq<Entry>, packets: seq<Packet>)
    requires LongestFitting(kept, FullHistory(packets))
    ensures |kept| >= 8 || |kept| == |packets|
  {
    var n := if |packets| < 8 then |packets| else 8;
    EightFit(packets, n);
    LongestIsUnique(kept, FullHistory(packets), n);
  }

  /** Numbers are consecutive and end at the latest. */
  lemma ConsecutiveNumbers(kept: seq<Entry>, packets: seq<Packet>)
    requires LongestFitting(kept, FullHistory(packets))
    ensures forall i :: 0 <= i < |kept| ==> kept[i].sequence == |packets| - |kept| + 1 + i
  {
  }

  /** A retained entry gives its payload back exactly when its packet is of a kind that keeps one. */
  lemma PayloadKept(kept: seq<Entry>, packets: seq<Packet>, i: nat)
    requires LongestFitting(kept, FullHistory(packets)) && i < |kept|
    ensures var p := packets[|packets| - |kept| + i];
            && kept[i].opcode == p.opcode && kept[i].length == |p.body|
            && (KeepsPayload(p) ==> Unhex(kept[i].hex) == p.body)
            && (!KeepsPayload(p) ==> kept[i].hex == "")
  {
    var p := packets[|packets| - |kept| + i];
    assert kept[i] == FullHistory(packets)[|packets| - |kept| + i];
    HexRoundTrip(p.body);
  }

  // ---------- how much is kept, from the packets alone ----------

  /** The hex digits a packet takes: two for each byte of the five kinds whose payload is kept, up to 256 KiB. */
  function Digits(p: Packet): nat {
    if p.opcode in {10187, 10516, 11295, 11732, 11744} && |p.body| <= 262144 then 2 * |p.body| else 0
  }

  function DigitsOfLast(packets: seq<Packet>, n: nat): nat
    requires n <= |packets|
  {
    if n == 0 then 0 else Digits(packets[|packets| - n]) + DigitsOfLast(packets, n - 1)
  }

  lemma {:induction false} DigitsAreHexSize(packets: seq<Packet>, n: nat)
    requires n <= |packets|
    ensures HexSize(Suffix(FullHistory(packets), n)) == DigitsOfLast(packets, n)
  {
    if n > 0 {
      DigitsAreHexSize(packets, n - 1);
      DropFirst(FullHistory(packets), n);
    }
  }

  /** The last n packets are retained iff they are at most 512 and have at most 4 MiB of digits. */
  lemma RetainedMeaning(kept: seq<Entry>, packets: seq<Packet>, n: nat)
    requires LongestFitting(kept, FullHistory(packets)) && n <= |packets|
    ensures n <= |kept| <==> n <= 512 && DigitsOfLast(packets, n) <= 4194304
  {
    LongestIsUnique(kept, FullHistory(packets), n);
    DigitsAreHexSize(packets, n);
  }

  /** Two digits for each byte, the upper half first. */
  predicate IsHex(hex: string, body: seq<byte>) {
    |hex| == 2 * |body|
    && forall j :: 0 <= j < |body| ==>
         hex[2 * j] == "0123456789abcdef"[body[j] / 16] && hex[2 * j + 1] == "0123456789abcdef"[body[j] % 16]
  }

  lemma {:induction false} HexMeaning(bs: seq<byte>)
    ensures IsHex(Hex(bs), bs)
  {
    if bs != [] {
      HexMeaning(bs[1..]);
      forall j | 0 <= j < |bs|
        ensures Hex(bs)[2 * j] == DIGITS[bs[j] / 16] && Hex(bs)[2 * j + 1] == DIGITS[bs[j] % 16]
      {
        if j > 0 {
          assert Hex(bs)[2 * j] == Hex(bs[1..])[2 * (j - 1)] && bs[j] == bs[1..][j - 1];
        }
      }
    }
  }

  /** Entry i is packet |packets| - |kept| + i: its number from one, its opcode and length, its digits if it is of a kept kind. */
  lemma EntryMeaning(kept: seq<Entry>, packets: seq<Packet>, i: nat)
    requires LongestFitting(kept, FullHistory(packets)) && i < |kept|
    ensures var k := |packets| - |kept| + i;
            && kept[i].sequence == k + 1 && kept[i].opcode == packets[k].opcode && kept[i].length == |packets[k].body|
            && |kept[i].hex| == Digits(packets[k]) && (kept[i].hex != "" ==> IsHex(kept[i].hex, packets[k].body))
  {
    var k := |packets| - |kept| + i;
    assert kept[i] == FullHistory(packets)[k];
    HexMeaning(packets[k].body);
  }

  // ---------- the eviction loop ----------

  /** Adding last to a suffix longer than kept breaks a limit. */
  ghost predicate LongerBreaks(kept: nat, all: seq<Entry>, last: Entry) {
    forall n :: kept < n <= |all| ==> !Fits(Suffix(all, n) + [last])
  }

  lemma LongerStillBreaks(kept: seq<Entry>, all: seq<Entry>, last: Entry)
    requires LongestFitting(kept, all)
    ensures LongerBreaks(|kept|, all, last)
  {
    forall n | |kept| < n <= |all|
      ensures !Fits(Suffix(all, n) + [last])
    {
      HexSizeAppend(Suffix(all, n), last);
    }
  }

  lemma OneMoreBreaks(n: nat, all: seq<Entry>, last: Entry)
    requires 0 < n <= |all| && LongerBreaks(n, all, last)
    requires n >= MAX_RECORDS || HexSize(Suffix(all, n)) + |last.hex| > BUDGET
    ensures LongerBreaks(n - 1, all, last)
  {
    HexSizeAppend(Suffix(all, n), last);
  }

  lemma LongestWithLast(n: nat, all: seq<Entry>, last: Entry)
    requires n <= |all| && LongerBreaks(n, all, last)
    requires n == 0 ==> |last.hex| <= BUDGET
    requires n > 0 ==> n < MAX_RECORDS && HexSize(Suffix(all, n)) + |last.hex| <= BUDGET
    ensures LongestFitting(Suffix(all, n) + [last], all + [last])
  {
    var kept := Suffix(all, n) + [last];
    HexSizeAppend(Suffix(all, n), last);
    SuffixAppend(all, last, n);
    forall m | |kept| < m <= |all| + 1
      ensures !Fits(Suffix(all + [last], m))
    {
      SuffixAppend(all, last, m - 1);
    }
  }

  lemma NextIsLongest(room: seq<Entry>, packets: seq<Packet>, p: Packet, r: Entry)
    requires |room| <= |packets| && room == Suffix(FullHistory(packets), |room|)
    requires r == EntryOf(|packets| + 1, p) && LongerBreaks(|room|, FullHistory(packets), r)
    requires room != [] ==> |room| < MAX_RECORDS && HexSize(room) + |r.hex| <= BUDGET
    ensures LongestFitting(room + [r], FullHistory(packets + [p]))
    ensures HexSize(room + [r]) == HexSize(room) + |r.hex|
  {
    FullHistoryNext(packets, p);
    LongestWithLast(|room|, FullHistory(packets), r);
    HexSizeAppend(room, r);
  }

  method PayloadHex(opcode: uint16, body: seq<byte>) returns (hex: string)
    ensures hex == if KeepsPayload(Packet(opcode, body)) then Hex(body) else ""
  {
    hex := "";
    if opcode in PAYLOAD_OPCODES {
      if |body| <= MAX_PAYLOAD {
        hex := Hex(body);
      }
    }
  }

  class PacketHistory {
    var records: seq<Entry>
    var size: nat
    var sequence: nat
    ghost var packets: seq<Packet> // all that was ever recorded

    ghost predicate Valid()
      reads this
    {
      && LongestFitting(records, FullHistory(packets))
      && size == HexSize(records)
      && sequence == |packets|
    }

    constructor ()
      ensures Valid() && packets == []
    {
      records, size, sequence, packets := [], 0, 0, [];
    }

    method Record(opcode: uint16, body: seq<byte>)
      requires Valid()
      modifies this
      ensures Valid()
      ensures packets == old(packets) + [Packet(opcode, body)]
    {
      sequence := sequence + 1;
      var hex := PayloadHex(opcode, body);
      var r := Entry(sequence, opcode, |body|, hex);
      MakeRoom(r);
      NextIsLongest(records, packets, Packet(opcode, body), r);
      records := records + [r];
      size := size + |r.hex|;
      packets := packets + [Packet(opcode, body)];
    }

    /** Drops the oldest entries until r fits. */
    method MakeRoom(r: Entry)
      requires LongestFitting(records, FullHistory(packets)) && size == HexSize(records)
      modifies this`records, this`size
      ensures |records| <= |packets| && records == Suffix(FullHistory(packets), |records|) && size == HexSize(records)
      ensures LongerBreaks(|records|, FullHistory(packets), r)
      ensures records != [] ==> |records| < MAX_RECORDS && size + |r.hex| <= BUDGET
    {
      ghost var all := FullHistory(packets);
      LongerStillBreaks(records, all, r);
      while |records| > 0 && (|records| >= MAX_RECORDS || size + |r.hex| > BUDGET)
        invariant |records| <= |all| && records == Suffix(all, |records|) && size == HexSize(records)
        invariant LongerBreaks(|records|, all, r)
        decreases |records|
      {
        OneMoreBreaks(|records|, all, r);
        DropFirst(all, |records|);
        size := size - |records[0].hex|;
        records := records[1..];
      }
    }
  }

  lemma FullHistoryNext(packets: seq<Packet>, p: Packet)
    ensures FullHistory(packets + [p]) == FullHistory(packets) + [EntryOf(|packets| + 1, p)]
  {
  }
}

/** The bytes of a legacy group list: which are accepted, and what every one of them stands for. */
module GroupListLayouts {
  import opened Wrappers
  import opened Bytes
  import opened Reader
  import opened GroupLists
  import Wire

  // ---------- the layout ----------

  /** Where the party GUID stands: a group of the dungeon finder has five bytes more in front of it. */
  function PartyAt(groupType: byte): nat {
    if groupType / 8 % 2 == 1 then 9 else 4
  }

  /** Group type, own subgroup, flags and roles; the party, a counter, and the number of other members. */
  predicate HeadBytes(h: Head, w: seq<byte>) {
    var o := PartyAt(h.groupType);
    && |w| == o + 16
    && w[0] == h.groupType && w[1] == h.subgroup && w[2] == h.flags && w[3] == h.roles
    && LittleValue(w[o..o + 8]) == h.party
    && LittleValue(w[o + 12..o + 16]) == h.count && h.count <= 40
  }

  /** A terminated name, the GUID, status, subgroup, flags and roles. */
  predicate MemberBytes(m: Member, w: seq<byte>) {
    var n := |m.name|;
    && n <= 63 && 0 !in m.name && |w| == n + 13
    && w[..n] == m.name && w[n] == 0
    && LittleValue(w[n + 1..n + 9]) == m.guid
    && w[n + 9] == m.status && w[n + 10] == m.subgroup && w[n + 11] == m.flags && w[n + 12] == m.roles
  }

  /** Leader, loot method, loot master, loot threshold, and three difficulties. */
  predicate TailBytes(t: Tail, w: seq<byte>) {
    && |w| == 21
    && LittleValue(w[..8]) == t.leader && w[8] == t.lootMethod
    && LittleValue(w[9..17]) == t.lootMaster && w[17] == t.lootThreshold
    && w[18] == t.dungeonDifficulty && w[19] == t.raidDifficulty && w[20] == t.dynamicRaidDifficulty
  }

  /** Nothing, or the old leader. */
  predicate FarewellBytes(leader: uint64, w: seq<byte>) {
    if w == [] then leader == 0 else |w| == 8 && LittleValue(w) == leader
  }

  predicate AllFit<T>(fits: (T, seq<byte>) -> bool, values: seq<T>, pieces: seq<seq<byte>>) {
    |pieces| == |values| && forall i :: 0 <= i < |pieces| ==> fits(values[i], pieces[i])
  }

  /** A list with no other members, or one with its members. */
  predicate DestroyedBytes(head: Head, leader: uint64, h: seq<byte>, t: seq<byte>) {
    head.count == 0 && HeadBytes(head, h) && FarewellBytes(leader, t)
  }

  predicate LiveBytes(head: Head, members: seq<Member>, tail: Tail, h: seq<byte>, pieces: seq<seq<byte>>, t: seq<byte>) {
    head.count == |members| > 0 && HeadBytes(head, h) && AllFit(MemberBytes, members, pieces) && TailBytes(tail, t)
  }

  ghost predicate IsWritten(list: GroupList, body: seq<byte>) {
    match list
    case Destroyed(head, leader) => exists h, t :: DestroyedBytes(head, leader, h, t) && body == h + t
    case Live(head, members, tail) =>
      exists h, pieces, t :: LiveBytes(head, members, tail, h, pieces, t) && body == h + Wire.Concat(pieces) + t
  }

  // ---------- one part in front of others ----------

  lemma SliceInFront(w: seq<byte>, rest: seq<byte>, i: nat, j: nat)
    requires i <= j <= |w|
    ensures (w + rest)[i..j] == w[i..j]
  {
  }

  lemma RestBehind(w: seq<byte>, rest: seq<byte>)
    ensures (w + rest)[|w|..] == rest
  {
  }

  lemma Assoc(a: seq<byte>, b: seq<byte>, c: seq<byte>)
    ensures a + b + c == a + (b + c)
  {
  }

  lemma SkipsLfg(groupType: byte, d: seq<byte>)
    requires |d| >= PartyAt(groupType)
    ensures SkipLfg(groupType, d[4..]) == Success(Parsed((), d[PartyAt(groupType)..]))
  {
    if groupType / 8 % 2 == 1 {
      DropDrop(d, 4, 1);
      DropDrop(d, 5, 4);
    }
  }

  /** A head of the smallest length is read whatever comes behind it. */
  lemma ReadsHead(d: seq<byte>)
    requires |d| >= 4 && |d| >= PartyAt(d[0]) + 16
    ensures var o := PartyAt(d[0]);
            var count := LittleValue(d[o + 12..o + 16]);
            && LittleValue(d[o..o + 8]) < TWO_64 && count < TWO_32
            && ReadHead(d)
               == if count > 40 then Failure(TooManyMembers(count))
                  else Success(Parsed(Head(d[0], d[1], d[2], d[3], LittleValue(d[o..o + 8]), count), d[o + 16..]))
  {
    var o := PartyAt(d[0]);
    Widths();
    DropDrop(d, 1, 1);
    DropDrop(d, 2, 1);
    DropDrop(d, 3, 1);
    SkipsLfg(d[0], d);
    DropDrop(d, o, 8);
    DropDrop(d, o + 8, 4);
    DropDrop(d, o + 12, 4);
    DropTake(d, o, 8);
    DropTake(d, o + 12, 4);
  }

  lemma ShortHead(d: seq<byte>)
    requires |d| < 4 || |d| < PartyAt(d[0]) + 16
    ensures ReadHead(d) == Failure(NotEnough)
  {
  }

  lemma HeadWritten(h: Head, w: seq<byte>, rest: seq<byte>)
    requires HeadBytes(h, w)
    ensures ReadHead(w + rest) == Success(Parsed(h, rest))
  {
    var o, d := PartyAt(h.groupType), w + rest;
    ReadsHead(d);
    SliceInFront(w, rest, o, o + 8);
    SliceInFront(w, rest, o + 12, o + 16);
    RestBehind(w, rest);
  }

  lemma HeadRead(d: seq<byte>) returns (w: seq<byte>)
    requires ReadHead(d).Success?
    ensures HeadBytes(ReadHead(d).value.value, w) && d == w + ReadHead(d).value.rest
  {
    if |d| < 4 || |d| < PartyAt(d[0]) + 16 {
      ShortHead(d);
    }
    ReadsHead(d);
    var o := PartyAt(d[0]);
    w := d[..o + 16];
    assert d == w + d[o + 16..];
    SliceInFront(w, d[o + 16..], o, o + 8);
    SliceInFront(w, d[o + 16..], o + 12, o + 16);
  }

  // ---------- a member ----------

  lemma {:induction false} NameWritten(name: seq<byte>, room: nat, rest: seq<byte>)
    requires |name| <= room && 0 !in name
    ensures CString(name + [0] + rest, room) == Success(Parsed(name, rest))
  {
    var d := name + [0] + rest;
    if name == [] {
      assert d[1..] == rest;
    } else {
      NameWritten(name[1..], room - 1, rest);
      assert d[1..] == name[1..] + [0] + rest && [name[0]] + name[1..] == name;
    }
  }

  lemma {:induction false} NameRead(d: seq<byte>, room: nat)
    requires CString(d, room).Success?
    ensures d == CString(d, room).value.value + [0] + CString(d, room).value.rest
  {
    if d[0] == 0 {
      assert d == [] + [0] + d[1..];
    } else {
      NameRead(d[1..], room - 1);
      var t := CString(d[1..], room - 1).value;
      assert d == [d[0]] + d[1..] && [d[0]] + (t.value + [0] + t.rest) == [d[0]] + t.value + [0] + t.rest;
    }
  }

  /** GUID and four bytes behind a name. */
  function Behind(name: seq<byte>, d: seq<byte>): Read<Member> {
    var guid :- U64(d);
    var status :- U8(guid.rest);
    var subgroup :- U8(status.rest);
    var flags :- U8(subgroup.rest);
    var roles :- U8(flags.rest);
    Success(Parsed(Member(name, guid.value, status.value, subgroup.value, flags.value, roles.value), roles.rest))
  }

  lemma ReadsBehind(name: seq<byte>, d: seq<byte>)
    ensures Behind(name, d).Success? <==> |d| >= 12
    ensures |d| >= 12 ==>
              && LittleValue(d[..8]) < TWO_64
              && Behind(name, d) == Success(Parsed(Member(name, LittleValue(d[..8]), d[8], d[9], d[10], d[11]), d[12..]))
  {
    Widths();
    if |d| >= 12 {
      DropDrop(d, 8, 1);
      DropDrop(d, 9, 1);
      DropDrop(d, 10, 1);
      DropDrop(d, 11, 1);
    }
  }

  /** A name, its NUL, and what is behind it. */
  lemma NameCut(name: seq<byte>, w: seq<byte>, rest: seq<byte>)
    requires |w| > |name| && w[..|name|] == name && w[|name|] == 0
    ensures w + rest == name + [0] + (w[|name| + 1..] + rest)
  {
    assert w == w[..|name|] + [w[|name|]] + w[|name| + 1..];
  }

  lemma MemberWritten(m: Member, w: seq<byte>, rest: seq<byte>)
    requires MemberBytes(m, w)
    ensures ReadMember(w + rest) == Success(Parsed(m, rest))
  {
    var n := |m.name|;
    var b := w[n + 1..];
    NameCut(m.name, w, rest);
    NameWritten(m.name, 63, b + rest);
    ReadsBehind(m.name, b + rest);
    SliceInFront(b, rest, 0, 8);
    DropTake(w, n + 1, 8);
    RestBehind(b, rest);
  }

  lemma MemberBytesBehind(m: Member, b: seq<byte>)
    requires |m.name| <= 63 && 0 !in m.name && |b| == 12
    requires LittleValue(b[..8]) == m.guid && b[8] == m.status && b[9] == m.subgroup && b[10] == m.flags && b[11] == m.roles
    ensures MemberBytes(m, m.name + [0] + b)
  {
    var n, w := |m.name|, m.name + [0] + b;
    assert w[n + 1..] == b;
    DropTake(w, n + 1, 8);
  }

  lemma MemberRead(d: seq<byte>) returns (w: seq<byte>)
    requires ReadMember(d).Success?
    ensures MemberBytes(ReadMember(d).value.value, w) && d == w + ReadMember(d).value.rest
  {
    var name := CString(d, 63).value;
    NameRead(d, 63);
    ReadsBehind(name.value, name.rest);
    var b := name.rest[..12];
    assert name.rest == b + name.rest[12..];
    SliceInFront(b, name.rest[12..], 0, 8);
    MemberBytesBehind(ReadMember(d).value.value, b);
    w := name.value + [0] + b;
    Assoc(name.value + [0], b, name.rest[12..]);
  }

  // ---------- all members ----------

  /** What is written so is read back. */
  ghost predicate Encodes<T(!new)>(read: seq<byte> -> Read<T>, fits: (T, seq<byte>) -> bool) {
    forall v, w, rest :: fits(v, w) ==> read(w + rest) == Success(Parsed(v, rest))
  }

  /** What is read was so written. */
  ghost predicate Decodes<T(!new)>(read: seq<byte> -> Read<T>, fits: (T, seq<byte>) -> bool) {
    forall d :: read(d).Success? ==> exists w :: fits(read(d).value.value, w) && d == w + read(d).value.rest
  }

  lemma {:induction false} ManyWritten<T(!new)>(
    read: seq<byte> -> Read<T>, fits: (T, seq<byte>) -> bool, values: seq<T>, pieces: seq<seq<byte>>, rest: seq<byte>)
    requires Encodes(read, fits) && AllFit(fits, values, pieces)
    ensures Many(read, Wire.Concat(pieces) + rest, |values|) == Success(Parsed(values, rest))
  {
    if values == [] {
      assert [] + rest == rest;
    } else {
      var n := |values| - 1;
      ManyWritten(read, fits, values[..n], pieces[..n], pieces[n] + rest);
      assert read(pieces[n] + rest) == Success(Parsed(values[n], rest));
      Assoc(Wire.Concat(pieces[..n]), pieces[n], rest);
      assert values[..n] + [values[n]] == values;
    }
  }

  lemma {:induction false} ManyRead<T(!new)>(read: seq<byte> -> Read<T>, fits: (T, seq<byte>) -> bool, d: seq<byte>, n: nat)
    returns (pieces: seq<seq<byte>>)
    requires Decodes(read, fits) && Many(read, d, n).Success?
    ensures AllFit(fits, Many(read, d, n).value.value, pieces) && |pieces| == n
    ensures d == Wire.Concat(pieces) + Many(read, d, n).value.rest
  {
    if n == 0 {
      pieces := [];
      assert d == [] + d;
    } else {
      var before := Many(read, d, n - 1).value;
      var init := ManyRead(read, fits, d, n - 1);
      var next := read(before.rest).value;
      var last :| fits(next.value, last) && before.rest == last + next.rest;
      pieces := init + [last];
      assert pieces[..n - 1] == init;
      Assoc(Wire.Concat(init), last, next.rest);
    }
  }

  lemma MembersEncode()
    ensures Encodes(ReadMember, MemberBytes)
  {
    forall m, w, rest | MemberBytes(m, w)
      ensures ReadMember(w + rest) == Success(Parsed(m, rest))
    {
      MemberWritten(m, w, rest);
    }
  }

  lemma MembersDecode()
    ensures Decodes(ReadMember, MemberBytes)
  {
    forall d | ReadMember(d).Success?
      ensures exists w :: MemberBytes(ReadMember(d).value.value, w) && d == w + ReadMember(d).value.rest
    {
      var w := MemberRead(d);
    }
  }

  // ---------- the tail ----------

  lemma ReadsTail(d: seq<byte>)
    ensures ReadTail(d).Success? <==> |d| >= 21
    ensures |d| >= 21 ==>
              && LittleValue(d[..8]) < TWO_64 && LittleValue(d[9..17]) < TWO_64
              && ReadTail(d)
                 == Success(Parsed(Tail(LittleValue(d[..8]), d[8], LittleValue(d[9..17]), d[17], d[18], d[19], d[20]), d[21..]))
  {
    Widths();
    if |d| >= 21 {
      DropDrop(d, 8, 1);
      DropDrop(d, 9, 8);
      DropDrop(d, 17, 1);
      DropDrop(d, 18, 3);
      assert d[9..][..8] == d[9..17];
    }
  }

  lemma TailIs(t: Tail, d: seq<byte>)
    ensures ReadTail(d) == Success(Parsed(t, [])) <==> TailBytes(t, d)
  {
    ReadsTail(d);
  }

  // ---------- the whole list ----------

  lemma FarewellIs(head: Head, leader: uint64, d: seq<byte>)
    ensures ReadDestroyed(head, d) == Success(Destroyed(head, leader)) <==> FarewellBytes(leader, d)
  {
    Widths();
    if |d| == 8 {
      assert d[..8] == d && d[8..] == [];
    }
  }

  lemma LiveWritten(list: GroupList, h: seq<byte>, pieces: seq<seq<byte>>, t: seq<byte>)
    requires list.Live? && LiveBytes(list.head, list.members, list.tail, h, pieces, t)
    ensures ReadLive(list.head, Wire.Concat(pieces) + t) == Success(list)
  {
    MembersEncode();
    ManyWritten(ReadMember, MemberBytes, list.members, pieces, t);
    TailIs(list.tail, t);
  }

  lemma LiveRead(head: Head, h: seq<byte>, d: seq<byte>) returns (pieces: seq<seq<byte>>, t: seq<byte>)
    requires HeadBytes(head, h) && head.count > 0 && ReadLive(head, d).Success?
    ensures var list := ReadLive(head, d).value;
            && list.Live? && list.head == head
            && LiveBytes(head, list.members, list.tail, h, pieces, t) && d == Wire.Concat(pieces) + t
  {
    MembersDecode();
    pieces := ManyRead(ReadMember, MemberBytes, d, head.count);
    t := ReadMembers(d, head.count).value.rest;
    TailIs(ReadTail(t).value.value, t);
  }

  /** A head in front decides what is behind it. */
  lemma ListBehind(head: Head, h: seq<byte>, d: seq<byte>)
    requires HeadBytes(head, h)
    ensures GroupListOf(h + d) == if head.count == 0 then ReadDestroyed(head, d) else ReadLive(head, d)
  {
    HeadWritten(head, h, d);
  }

  lemma WrittenIsRead(list: GroupList, body: seq<byte>)
    requires IsWritten(list, body)
    ensures GroupListOf(body) == Success(list)
  {
    match list
    case Destroyed(head, leader) =>
      var h, t :| DestroyedBytes(head, leader, h, t) && body == h + t;
      ListBehind(head, h, t);
      FarewellIs(head, leader, t);
    case Live(head, members, tail) =>
      var h, pieces, t :| LiveBytes(head, members, tail, h, pieces, t) && body == h + Wire.Concat(pieces) + t;
      Assoc(h, Wire.Concat(pieces), t);
      ListBehind(head, h, Wire.Concat(pieces) + t);
      LiveWritten(list, h, pieces, t);
  }

  lemma DestroyedIsWritten(head: Head, h: seq<byte>, d: seq<byte>)
    requires HeadBytes(head, h) && head.count == 0 && ReadDestroyed(head, d).Success?
    ensures IsWritten(ReadDestroyed(head, d).value, h + d)
  {
    var leader := ReadDestroyed(head, d).value.leader;
    FarewellIs(head, leader, d);
    assert DestroyedBytes(head, leader, h, d);
  }

  lemma LiveIsWritten(head: Head, h: seq<byte>, d: seq<byte>)
    requires HeadBytes(head, h) && head.count > 0 && ReadLive(head, d).Success?
    ensures IsWritten(ReadLive(head, d).value, h + d)
  {
    var pieces, t := LiveRead(head, h, d);
    Assoc(h, Wire.Concat(pieces), t);
  }

  lemma ReadIsWritten(body: seq<byte>)
    requires GroupListOf(body).Success?
    ensures IsWritten(GroupListOf(body).value, body)
  {
    var h := HeadRead(body);
    var head := ReadHead(body).value;
    ListBehind(head.value, h, head.rest);
    if head.value.count == 0 {
      DestroyedIsWritten(head.value, h, head.rest);
    } else {
      LiveIsWritten(head.value, h, head.rest);
    }
  }

  /** A body is read as a list exactly when it is that list, written down. */
  lemma GroupListMeaning(body: seq<byte>, list: GroupList)
    ensures GroupListOf(body) == Success(list) <==> IsWritten(list, body)
  {
    if IsWritten(list, body) {
      WrittenIsRead(list, body);
    }
    if GroupListOf(body) == Success(list) {
      ReadIsWritten(body);
    }
  }

  /** The error of a count above forty is given exactly to bodies with a whole head and such a count. */
  lemma TooManyMeaning(body: seq<byte>, count: nat)
    ensures GroupListOf(body) == Failure(TooManyMembers(count))
            <==> |body| >= 4
                 && var o := PartyAt(body[0]);
                    |body| >= o + 16 && LittleValue(body[o + 12..o + 16]) == count && count > 40
  {
    if |body| < 4 || |body| < PartyAt(body[0]) + 16 {
      ShortHead(body);
    } else {
      ReadsHead(body);
      if ReadHead(body).Success? {
        OnlyHeadCounts(body);
      }
    }
  }

  /** Nothing behind the head is refused for the number of members. */
  lemma OnlyHeadCounts(body: seq<byte>)
    requires ReadHead(body).Success?
    ensures GroupListOf(body).Failure? ==> !GroupListOf(body).error.TooManyMembers?
  {
    var head := ReadHead(body).value;
    if head.value.count != 0 {
      ManyErrors(head.rest, head.value.count);
    }
  }

  lemma {:induction false} ManyErrors(d: seq<byte>, n: nat)
    ensures ReadMembers(d, n).Failure? ==> !ReadMembers(d, n).error.TooManyMembers?
  {
    if n > 0 {
      ManyErrors(d, n - 1);
      if ReadMembers(d, n - 1).Success? {
        NameRefused(ReadMembers(d, n - 1).value.rest, 63);
      }
    }
  }

  /** Why a name is not read: it runs to the end of the data, or past the room it has. */
  lemma {:induction false} NameRefused(d: seq<byte>, room: nat)
    ensures CString(d, room) == Failure(Unterminated) <==> |d| <= room && 0 !in d
    ensures CString(d, room) == Failure(TooLong) <==> |d| > room && 0 !in d[..room + 1]
    ensures CString(d, room).Failure? ==> CString(d, room).error in {Unterminated, TooLong}
    decreases |d|
  {
    if d != [] && d[0] != 0 && room > 0 {
      NameRefused(d[1..], room - 1);
      assert d == [d[0]] + d[1..];
      if |d| > room {
        assert d[..room + 1] == [d[0]] + d[1..][..room];
      }
    }
  }

  // ---------- the other errors ----------

  /** Why no member is at the front: its name does not end in time, or there are not twelve more bytes. */
  predicate NoMember(rest: seq<byte>, e: ReadError) {
    if 0 !in rest && |rest| <= 63 then e == Unterminated
    else if |rest| > 63 && 0 !in rest[..64] then e == TooLong
    else e == NotEnough && exists n :: 0 <= n <= 63 && n < |rest| < n + 13 && rest[n] == 0 && 0 !in rest[..n]
  }

  lemma NameInFront(rest: seq<byte>, n: nat)
    requires n <= 63 && n < |rest| && rest[n] == 0 && 0 !in rest[..n]
    ensures CString(rest, 63) == Success(Parsed(rest[..n], rest[n + 1..]))
  {
    assert rest == rest[..n] + [0] + rest[n + 1..];
    NameWritten(rest[..n], 63, rest[n + 1..]);
  }

  lemma MemberRefused(rest: seq<byte>, e: ReadError)
    requires NoMember(rest, e)
    ensures ReadMember(rest) == Failure(e)
  {
    NameRefused(rest, 63);
    if e == NotEnough {
      var n :| 0 <= n <= 63 && n < |rest| < n + 13 && rest[n] == 0 && 0 !in rest[..n];
      NameInFront(rest, n);
      ReadsBehind(rest[..n], rest[n + 1..]);
      BehindErrors(rest[..n], rest[n + 1..]);
    }
  }

  lemma BehindErrors(name: seq<byte>, d: seq<byte>)
    ensures Behind(name, d).Failure? ==> Behind(name, d) == Failure(NotEnough)
  {
  }

  lemma MembersRefused(members: seq<Member>, pieces: seq<seq<byte>>, rest: seq<byte>, count: nat, e: ReadError)
    requires AllFit(MemberBytes, members, pieces) && |members| < count && NoMember(rest, e)
    ensures ReadMembers(Wire.Concat(pieces) + rest, count) == Failure(e)
  {
    var d := Wire.Concat(pieces) + rest;
    MembersEncode();
    ManyWritten(ReadMember, MemberBytes, members, pieces, rest);
    ManyNext(ReadMember, d, |members|, Parsed(members, rest));
    MemberRefused(rest, e);
    ManyFails(ReadMember, d, |members| + 1, count);
  }

  lemma TailErrors(d: seq<byte>)
    ensures |d| < 21 ==> ReadTail(d) == Failure(NotEnough)
  {
  }

  lemma TailRefused(head: Head, members: seq<Member>, pieces: seq<seq<byte>>, rest: seq<byte>)
    requires AllFit(MemberBytes, members, pieces) && head.count == |members|
    ensures |rest| < 21 ==> ReadLive(head, Wire.Concat(pieces) + rest) == Failure(NotEnough)
    ensures |rest| > 21 ==> ReadLive(head, Wire.Concat(pieces) + rest) == Failure(TrailingBytes)
  {
    MembersEncode();
    ManyWritten(ReadMember, MemberBytes, members, pieces, rest);
    TailErrors(rest);
    ReadsTail(rest);
  }

  /** Behind a head and the members that are there, what is wrong first decides the error. */
  lemma FirstRefused(head: Head, h: seq<byte>, members: seq<Member>, pieces: seq<seq<byte>>, rest: seq<byte>, e: ReadError)
    requires HeadBytes(head, h) && AllFit(MemberBytes, members, pieces)
    ensures |members| < head.count && NoMember(rest, e) ==> GroupListOf(h + (Wire.Concat(pieces) + rest)) == Failure(e)
    ensures |members| == head.count > 0 && |rest| < 21 ==> GroupListOf(h + (Wire.Concat(pieces) + rest)) == Failure(NotEnough)
    ensures |members| == head.count > 0 && |rest| > 21 ==> GroupListOf(h + (Wire.Concat(pieces) + rest)) == Failure(TrailingBytes)
    ensures head.count == 0 && |rest| !in {0, 8} ==> GroupListOf(h + rest) == Failure(TrailingBytes)
  {
    ListBehind(head, h, Wire.Concat(pieces) + rest);
    ListBehind(head, h, rest);
    if |members| < head.count && NoMember(rest, e) {
      MembersRefused(members, pieces, rest, head.count, e);
    }
    if |members| == head.count {
      TailRefused(head, members, pieces, rest);
    }
  }

  /** And a head that is not all there is refused before anything else. */
  lemma NoHead(body: seq<byte>)
    requires |body| < 4 || |body| < PartyAt(body[0]) + 16
    ensures GroupListOf(body) == Failure(NotEnough)
  {
    ShortHead(body);
  }

  // ---------- where things stand in an accepted body ----------

  lemma HeadPlaces(h: Head, w: seq<byte>, rest: seq<byte>)
    requires HeadBytes(h, w)
    ensures var (o, body) := (PartyAt(h.groupType), w + rest);
            && body[0] == h.groupType && body[1] == h.subgroup && body[2] == h.flags && body[3] == h.roles
            && LittleValue(body[o..o + 8]) == h.party && LittleValue(body[o + 12..o + 16]) == h.count
            && body[o + 16..] == rest
  {
    var o := PartyAt(h.groupType);
    SliceInFront(w, rest, o, o + 8);
    SliceInFront(w, rest, o + 12, o + 16);
    RestBehind(w, rest);
  }

  /** The head in front, the farewell or the tail at the end. */
  predicate StandsIn(list: GroupList, body: seq<byte>) {
    && |body| >= 4
    && var o := PartyAt(body[0]);
       && |body| >= o + 16
       && list.head.groupType == body[0] && list.head.subgroup == body[1] && list.head.flags == body[2]
       && list.head.roles == body[3]
       && list.head.party == LittleValue(body[o..o + 8]) && list.head.count == LittleValue(body[o + 12..o + 16]) <= 40
       && match list
          case Destroyed(head, leader) => head.count == 0 && FarewellBytes(leader, body[o + 16..])
          case Live(head, members, tail) =>
            head.count == |members| > 0 && |body| >= o + 37 && TailBytes(tail, body[|body| - 21..])
  }

  lemma DestroyedStandsIn(head: Head, leader: uint64, h: seq<byte>, t: seq<byte>)
    requires DestroyedBytes(head, leader, h, t)
    ensures StandsIn(Destroyed(head, leader), h + t)
  {
    HeadPlaces(head, h, t);
  }

  lemma LiveStandsIn(head: Head, members: seq<Member>, tail: Tail, h: seq<byte>, m: seq<byte>, t: seq<byte>)
    requires head.count == |members| > 0 && HeadBytes(head, h) && TailBytes(tail, t)
    ensures StandsIn(Live(head, members, tail), h + m + t)
  {
    Assoc(h, m, t);
    HeadPlaces(head, h, m + t);
    RestBehind(h + m, t);
  }

  lemma ListStandsIn(body: seq<byte>)
    requires GroupListOf(body).Success?
    ensures StandsIn(GroupListOf(body).value, body)
  {
    ReadIsWritten(body);
    match GroupListOf(body).value
    case Destroyed(head, leader) =>
      var h, t :| DestroyedBytes(head, leader, h, t) && body == h + t;
      DestroyedStandsIn(head, leader, h, t);
    case Live(head, members, tail) =>
      var h, pieces, t :| LiveBytes(head, members, tail, h, pieces, t) && body == h + Wire.Concat(pieces) + t;
      LiveStandsIn(head, members, tail, h, Wire.Concat(pieces), t);
  }
}

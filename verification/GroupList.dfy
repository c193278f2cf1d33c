/** The legacy group-list packet: its grammar, and the two parsers that read it. */
module GroupLists {
  import opened Wrappers
  import opened Bytes
  import opened Guids
  import opened Reader

  const MAX_MEMBERS: nat := 40
  const MAX_NAME: nat := 63

  // bits of the group type and of a member's flags

  predicate IsBattleground(groupType: byte) {
    groupType % 2 == 1
  }

  predicate IsRaid(groupType: byte) {
    groupType / 2 % 2 == 1
  }

  predicate IsLfg(groupType: byte) {
    groupType / 8 % 2 == 1
  }

  predicate IsAssistant(flags: byte) {
    flags % 2 == 1
  }

  datatype Head = Head(groupType: byte, subgroup: byte, flags: byte, roles: byte, party: uint64, count: uint32)

  datatype Member = Member(name: seq<byte>, guid: uint64, status: byte, subgroup: byte, flags: byte, roles: byte)

  datatype Tail = Tail(
    leader: uint64, lootMethod: byte, lootMaster: uint64, lootThreshold: byte,
    dungeonDifficulty: byte, raidDifficulty: byte, dynamicRaidDifficulty: byte)

  datatype GroupList =
    | Destroyed(head: Head, leader: uint64) // leader 0 when it is not appended
    | Live(head: Head, members: seq<Member>, tail: Tail)

  // ---------- the grammar ----------

  function SkipLfg(groupType: byte, d: seq<byte>): Read<()> {
    if !IsLfg(groupType) then Success(Parsed((), d))
    else
      var status :- U8(d);
      var dungeon :- U32(status.rest);
      Success(Parsed((), dungeon.rest))
  }

  function ReadHead(d: seq<byte>): Read<Head> {
    var groupType :- U8(d);
    var subgroup :- U8(groupType.rest);
    var flags :- U8(subgroup.rest);
    var roles :- U8(flags.rest);
    var lfg :- SkipLfg(groupType.value, roles.rest);
    var party :- U64(lfg.rest);
    var counter :- U32(party.rest);
    var count :- U32(counter.rest);
    if count.value > MAX_MEMBERS then Failure(TooManyMembers(count.value))
    else
      Success(Parsed(
        Head(groupType.value, subgroup.value, flags.value, roles.value, party.value, count.value), count.rest))
  }

  function ReadMember(d: seq<byte>): Read<Member> {
    var name :- CString(d, MAX_NAME);
    var guid :- U64(name.rest);
    var status :- U8(guid.rest);
    var subgroup :- U8(status.rest);
    var flags :- U8(subgroup.rest);
    var roles :- U8(flags.rest);
    Success(Parsed(Member(name.value, guid.value, status.value, subgroup.value, flags.value, roles.value), roles.rest))
  }

  function ReadMembers(d: seq<byte>, n: nat): Read<seq<Member>> {
    Many(ReadMember, d, n)
  }

  function ReadTail(d: seq<byte>): Read<Tail> {
    var leader :- U64(d);
    var lootMethod :- U8(leader.rest);
    var lootMaster :- U64(lootMethod.rest);
    var lootThreshold :- U8(lootMaster.rest);
    var difficulties :- Take(lootThreshold.rest, 3);
    var v := difficulties.value;
    Success(Parsed(
      Tail(leader.value, lootMethod.value, lootMaster.value, lootThreshold.value, v[0], v[1], v[2]), difficulties.rest))
  }

  function ReadDestroyed(head: Head, d: seq<byte>): Result<GroupList, ReadError> {
    if |d| == 8 then
      var leader :- U64(d);
      Finish(Destroyed(head, leader.value), leader.rest)
    else Finish(Destroyed(head, 0), d)
  }

  function ReadLive(head: Head, d: seq<byte>): Result<GroupList, ReadError> {
    var members :- ReadMembers(d, head.count);
    var tail :- ReadTail(members.rest);
    Finish(Live(head, members.value, tail.value), tail.rest)
  }

  function GroupListOf(body: seq<byte>): Result<GroupList, ReadError> {
    var head :- ReadHead(body);
    if head.value.count == 0 then ReadDestroyed(head.value, head.rest) else ReadLive(head.value, head.rest)
  }

  // ---------- the party snapshot ----------

  datatype SnapshotMember = SnapshotMember(guid: uint64, name: seq<byte>, subgroup: byte, flags: byte, roles: byte)

  datatype Snapshot = Snapshot(
    legacyGuid: uint64, guid: Guid128, partyIndex: byte, groupType: byte, isRaid: bool, destroyed: bool,
    leader: uint64, lootMethod: byte, lootMaster: uint64, lootThreshold: byte, members: seq<SnapshotMember>)

  function ModernPartyGuid(legacy: uint64): Guid128 {
    if legacy == 0 then NO_GUID else Guid128(Truncate32(legacy), 33 * 0x400_0000_0000_0000)
  }

  function Listed(m: Member): SnapshotMember {
    SnapshotMember(m.guid, m.name, m.subgroup, m.flags, m.roles)
  }

  function ListedAll(members: seq<Member>): (r: seq<SnapshotMember>)
    ensures |r| == |members|
  {
    seq(|members|, i requires 0 <= i < |members| => Listed(members[i]))
  }

  lemma ListedNext(members: seq<Member>, next: Member)
    ensures ListedAll(members + [next]) == ListedAll(members) + [Listed(next)]
  {
  }

  function SnapshotHead(h: Head): Snapshot {
    Snapshot(h.party, ModernPartyGuid(h.party), if IsBattleground(h.groupType) then 1 else 0, h.groupType,
             IsRaid(h.groupType), false, 0, 0, 0, 0, [])
  }

  /** What the snapshot keeps of a group list. */
  function SnapshotFrom(list: GroupList, selfGuid: uint64, selfName: seq<byte>): Snapshot {
    var s := SnapshotHead(list.head);
    match list
    case Destroyed(head, leader) => s.(destroyed := true, leader := leader)
    case Live(head, members, tail) =>
      s.(leader := tail.leader, lootMethod := tail.lootMethod, lootMaster := tail.lootMaster,
         lootThreshold := tail.lootThreshold,
         members := [SnapshotMember(selfGuid, selfName, head.subgroup, head.flags, head.roles)] + ListedAll(members))
  }

  function SnapshotResult(list: Result<GroupList, ReadError>, selfGuid: uint64, selfName: seq<byte>)
    : Result<Snapshot, ReadError>
  {
    var l :- list;
    Success(SnapshotFrom(l, selfGuid, selfName))
  }

  /** The snapshot as far as its head gives it, and what of the head is needed later. */
  datatype SnapshotStart = SnapshotStart(snapshot: Snapshot, subgroup: byte, flags: byte, roles: byte, count: uint32)

  function StartOf(h: Head): SnapshotStart {
    SnapshotStart(SnapshotHead(h), h.subgroup, h.flags, h.roles, h.count)
  }

  method ReadSnapshotHead(r: MovementReader) returns (s: Result<SnapshotStart, ReadError>, ghost head: Head)
    requires r.Valid()
    modifies r`offset
    ensures r.Valid()
    ensures s.Failure? ==> ReadHead(old(r.Rest())) == Failure(s.error)
    ensures s.Success? ==> ReadHead(old(r.Rest())) == Success(Parsed(head, r.Rest())) && s.value == StartOf(head)
  {
    head := Head(0, 0, 0, 0, 0, 0);
    var snapshot := Snapshot(0, NO_GUID, 0, 0, false, false, 0, 0, 0, 0, []);
    var groupType :- r.ReadU8();
    snapshot := snapshot.(groupType := groupType, isRaid := IsRaid(groupType));
    var ownSubgroup :- r.ReadU8();
    var ownFlags :- r.ReadU8();
    var ownRoles :- r.ReadU8();
    if IsLfg(groupType) {
      var _ :- r.ReadU8();
      var _ :- r.ReadU32();
    }
    var legacyGuid :- r.ReadU64();
    snapshot := snapshot.(legacyGuid := legacyGuid, guid := ModernPartyGuid(legacyGuid));
    if IsBattleground(groupType) {
      snapshot := snapshot.(partyIndex := 1);
    }
    var _ :- r.ReadU32();
    var memberCount :- r.ReadU32();
    if memberCount > MAX_MEMBERS {
      return Failure(TooManyMembers(memberCount)), head;
    }
    head := Head(groupType, ownSubgroup, ownFlags, ownRoles, legacyGuid, memberCount);
    s := Success(SnapshotStart(snapshot, ownSubgroup, ownFlags, ownRoles, memberCount));
  }

  method ReadSnapshotMember(r: MovementReader) returns (m: Result<SnapshotMember, ReadError>, ghost whole: Member)
    requires r.Valid()
    modifies r`offset
    ensures r.Valid()
    ensures m.Failure? ==> ReadMember(old(r.Rest())) == Failure(m.error)
    ensures m.Success? ==> ReadMember(old(r.Rest())) == Success(Parsed(whole, r.Rest())) && m.value == Listed(whole)
  {
    whole := Member([], 0, 0, 0, 0, 0);
    var name :- r.ReadCString(MAX_NAME);
    var guid :- r.ReadU64();
    var status :- r.ReadU8(); // online status, not kept
    var subgroup :- r.ReadU8();
    var flags :- r.ReadU8();
    var roles :- r.ReadU8();
    whole := Member(name, guid, status, subgroup, flags, roles);
    m := Success(SnapshotMember(guid, name, subgroup, flags, roles));
  }

  /** One more member of a list that began at start. */
  method NextSnapshotMember(r: MovementReader, ghost start: seq<byte>, ghost before: seq<Member>)
    returns (m: Result<SnapshotMember, ReadError>, ghost whole: seq<Member>)
    requires r.Valid() && ReadMembers(start, |before|) == Success(Parsed(before, r.Rest()))
    modifies r`offset
    ensures r.Valid()
    ensures m.Failure? ==> ReadMembers(start, |before| + 1) == Failure(m.error)
    ensures m.Success? ==>
              && |whole| == |before| + 1
              && ReadMembers(start, |whole|) == Success(Parsed(whole, r.Rest()))
              && ListedAll(whole) == ListedAll(before) + [m.value]
  {
    ghost var next;
    ManyNext(ReadMember, start, |before|, Parsed(before, r.Rest()));
    m, next := ReadSnapshotMember(r);
    whole := before + [next];
    ListedNext(before, next);
  }

  /** The members of a snapshot, self first. */
  method ReadSnapshotMembers(r: MovementReader, self: SnapshotMember, count: nat)
    returns (ms: Result<seq<SnapshotMember>, ReadError>, ghost whole: seq<Member>)
    requires r.Valid()
    modifies r`offset
    ensures r.Valid()
    ensures ms.Failure? ==> ReadMembers(old(r.Rest()), count) == Failure(ms.error)
    ensures ms.Success? ==>
              && ReadMembers(old(r.Rest()), count) == Success(Parsed(whole, r.Rest()))
              && ms.value == [self] + ListedAll(whole)
  {
    var members := [self];
    ghost var start := r.Rest();
    whole := [];
    for index := 0 to count
      invariant r.Valid() && |whole| == index
      invariant members == [self] + ListedAll(whole)
      invariant ReadMembers(start, index) == Success(Parsed(whole, r.Rest()))
    {
      var m;
      m, whole := NextSnapshotMember(r, start, whole);
      if m.Failure? {
        ManyFails(ReadMember, start, index + 1, count);
        return Failure(m.error), whole;
      }
      members := members + [m.value];
    }
    ms := Success(members);
  }

  method ReadSnapshotTail(r: MovementReader, before: Snapshot) returns (s: Result<Snapshot, ReadError>)
    requires r.Valid()
    modifies r`offset
    ensures r.Valid()
    ensures s.Failure? ==> ReadTail(old(r.Rest())) == Failure(s.error)
    ensures s.Success? ==>
              && ReadTail(old(r.Rest())).Success?
              && var Parsed(t, rest) := ReadTail(old(r.Rest())).value;
                 && rest == r.Rest()
                 && s.value == before.(leader := t.leader, lootMethod := t.lootMethod, lootMaster := t.lootMaster,
                                       lootThreshold := t.lootThreshold)
  {
    var leader :- r.ReadU64();
    var lootMethod :- r.ReadU8();
    var lootMaster :- r.ReadU64();
    var lootThreshold :- r.ReadU8();
    var _ :- r.TakeBytes(3);
    return Success(before.(leader := leader, lootMethod := lootMethod, lootMaster := lootMaster, lootThreshold := lootThreshold));
  }

  method ReadSnapshotDestroyed(
    r: MovementReader, before: Snapshot, ghost head: Head, ghost selfGuid: uint64, ghost selfName: seq<byte>)
    returns (s: Result<Snapshot, ReadError>)
    requires r.Valid() && before == SnapshotHead(head)
    modifies r`offset
    ensures s == SnapshotResult(ReadDestroyed(head, old(r.Rest())), selfGuid, selfName)
  {
    var snapshot := before.(destroyed := true);
    if r.Remaining() == 8 {
      var leader := r.ReadU64(); // eight bytes are there
      snapshot := snapshot.(leader := leader.value);
    }
    if r.Remaining() != 0 {
      return Failure(TrailingBytes);
    }
    return Success(snapshot);
  }

  method ReadSnapshotLive(r: MovementReader, start: SnapshotStart, ghost head: Head, selfGuid: uint64, selfName: seq<byte>)
    returns (s: Result<Snapshot, ReadError>)
    requires r.Valid() && start == StartOf(head)
    modifies r`offset
    ensures s == SnapshotResult(ReadLive(head, old(r.Rest())), selfGuid, selfName)
  {
    var self := SnapshotMember(selfGuid, selfName, start.subgroup, start.flags, start.roles);
    var members;
    ghost var whole;
    members, whole := ReadSnapshotMembers(r, self, start.count);
    if members.Failure? {
      return Failure(members.error);
    }
    var snapshot :- ReadSnapshotTail(r, start.snapshot.(members := members.value));
    if r.Remaining() != 0 {
      return Failure(TrailingBytes);
    }
    return Success(snapshot);
  }

  method ParseLegacyPartySnapshot(body: seq<byte>, selfGuid: uint64, selfName: seq<byte>)
    returns (s: Result<Snapshot, ReadError>)
    ensures s == SnapshotResult(GroupListOf(body), selfGuid, selfName)
  {
    var r := new MovementReader(body);
    var start;
    ghost var head;
    start, head := ReadSnapshotHead(r);
    if start.Failure? {
      return Failure(start.error);
    }
    if start.value.count == 0 {
      s := ReadSnapshotDestroyed(r, start.value.snapshot, head, selfGuid, selfName);
    } else {
      s := ReadSnapshotLive(r, start.value, head, selfGuid, selfName);
    }
  }
}

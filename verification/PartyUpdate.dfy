/** Translating a legacy group list: the packet is read, a roster is built, an update comes out. */
module PartyUpdates {
  import opened Wrappers
  import opened Bytes
  import opened Guids
  import opened Reader
  import opened GroupLists
  import opened Rosters
  import opened Sorting

  // ---------- building the roster ----------

  method IndexByLegacy(selfLegacy: uint64, self: PartyPlayer, others: seq<Other>) returns (m: map<uint64, PartyPlayer>)
    ensures m == ByLegacy(selfLegacy, self, others)
  {
    m := map[selfLegacy := self];
    for i := 0 to |others|
      invariant m == ByLegacy(selfLegacy, self, others[..i])
    {
      assert others[..i + 1][..i] == others[..i];
      if others[i].legacy !in m {
        m := m[others[i].legacy := others[i].player];
      }
    }
    assert others[..|others|] == others;
  }

  method KeepMembers(candidates: seq<uint64>, byLegacy: map<uint64, PartyPlayer>) returns (ordered: seq<uint64>)
    ensures ordered == Included(candidates, byLegacy.Keys)
  {
    ordered := [];
    var included: set<uint64> := {};
    for i := 0 to |candidates|
      invariant ordered == Included(candidates[..i], byLegacy.Keys)
      invariant forall g :: g in included <==> g in ordered
    {
      assert candidates[..i + 1][..i] == candidates[..i];
      var guid := candidates[i];
      if guid in byLegacy && guid !in included {
        ordered := ordered + [guid];
        included := included + {guid};
      }
    }
    assert candidates[..|candidates|] == candidates;
  }

  method ChooseRosterOrder(byLegacy: map<uint64, PartyPlayer>, party: uint64, leader: uint64, choose: Chooser)
    returns (order: seq<uint64>)
    ensures order == OrderOf(byLegacy.Keys, party, leader, choose)
  {
    order := KeysOf(byLegacy);
    assert DistinctBy(order, ByGuid);
    order := SortBy(order, ByGuid);
    SortedOfUnique(order, byLegacy.Keys, ByGuid);
    if choose.Some? {
      var preferred := choose.value(party, leader, order);
      order := KeepMembers(preferred + order, byLegacy);
    }
  }

  method BuildPlayers(order: seq<uint64>, byLegacy: map<uint64, PartyPlayer>, selfLegacy: uint64, self: PartyPlayer)
    returns (players: seq<PartyPlayer>, myIndex: int)
    requires forall g :: g in order ==> g in byLegacy
    requires selfLegacy in byLegacy && byLegacy[selfLegacy] == self
    ensures players == RosterOf(order, byLegacy, selfLegacy).players
    ensures myIndex == IndexOrZero(RosterOf(order, byLegacy, selfLegacy).myIndex)
  {
    players := [];
    myIndex := -1;
    var seen: set<Guid128> := {};
    for i := 0 to |order|
      invariant forall g :: g in order[..i] ==> g in byLegacy
      invariant players == RosterOf(order[..i], byLegacy, selfLegacy).players
      invariant forall guid :: guid in seen <==> HasGuid(players, guid)
      invariant myIndex == match RosterOf(order[..i], byLegacy, selfLegacy).myIndex case Some(k) => k case None => -1
    {
      assert order[..i + 1][..i] == order[..i] && order[i] in order;
      var legacyGuid := order[i];
      var player := byLegacy[legacyGuid];
      if legacyGuid == selfLegacy {
        player := self;
      }
      if player.guid !in seen {
        seen := seen + {player.guid};
        if legacyGuid == selfLegacy {
          myIndex := |players|;
        }
        OneMoreGuid(players, player);
        players := players + [player];
      }
    }
    assert order[..|order|] == order;
    if myIndex < 0 {
      myIndex := 0;
    }
  }

  lemma OneMoreGuid(players: seq<PartyPlayer>, p: PartyPlayer)
    ensures forall guid :: HasGuid(players + [p], guid) <==> guid == p.guid || HasGuid(players, guid)
  {
    forall guid | guid == p.guid || HasGuid(players, guid)
      ensures HasGuid(players + [p], guid)
    {
      if HasGuid(players, guid) {
        var i :| 0 <= i < |players| && players[i].guid == guid;
        assert (players + [p])[i].guid == guid;
      } else {
        assert (players + [p])[|players|].guid == guid;
      }
    }
  }

  // ---------- reading the packet ----------

  method ReadOther(r: MovementReader, resolve: Directory) returns (o: Result<Other, ReadError>, ghost whole: Member)
    requires r.Valid()
    modifies r`offset
    ensures r.Valid()
    ensures o.Failure? ==> ReadMember(old(r.Rest())) == Failure(o.error)
    ensures o.Success? ==>
              ReadMember(old(r.Rest())) == Success(Parsed(whole, r.Rest())) && o.value == PlayerOf(whole, resolve)
  {
    whole := Member([], 0, 0, 0, 0, 0);
    var player := PartyPlayer(NO_GUID, [], 0, 0, 0, 0, 0, 0);
    var name :- r.ReadCString(MAX_NAME);
    var legacyGuid :- r.ReadU64();
    var resolved := resolve(legacyGuid);
    player := player.(name := name, guid := resolved.guid, classID := resolved.classID, factionGroup := 0);
    var status :- r.ReadU8();
    var subgroup :- r.ReadU8();
    var flags :- r.ReadU8();
    var roles :- r.ReadU8();
    player := player.(status := status, subgroup := subgroup, flags := flags, roles := roles);
    whole := Member(name, legacyGuid, status, subgroup, flags, roles);
    o := Success(Other(legacyGuid, player));
  }

  lemma OthersNext(members: seq<Member>, next: Member, resolve: Directory)
    ensures OthersOf(members + [next], resolve) == OthersOf(members, resolve) + [PlayerOf(next, resolve)]
    ensures AllAssist(members + [next]) <==> AllAssist(members) && IsAssistant(next.flags)
  {
    var all := members + [next];
    assert all[|members|] == next;
    assert forall i :: 0 <= i < |members| ==> all[i] == members[i];
  }

  /** One more member of a list that began at start. */
  method NextOther(r: MovementReader, resolve: Directory, ghost start: seq<byte>, ghost before: seq<Member>, ghost count: nat)
    returns (o: Result<Other, ReadError>, ghost whole: seq<Member>)
    requires r.Valid() && |before| < count && ReadMembers(start, |before|) == Success(Parsed(before, r.Rest()))
    modifies r`offset
    ensures r.Valid()
    ensures o.Failure? ==> ReadMembers(start, count) == Failure(o.error)
    ensures o.Success? ==>
              && |whole| == |before| + 1
              && ReadMembers(start, |whole|) == Success(Parsed(whole, r.Rest()))
              && OthersOf(whole, resolve) == OthersOf(before, resolve) + [o.value]
              && (AllAssist(whole) <==> AllAssist(before) && IsAssistant(o.value.player.flags))
  {
    ghost var next;
    ManyNext(ReadMember, start, |before|, Parsed(before, r.Rest()));
    o, next := ReadOther(r, resolve);
    whole := before + [next];
    if o.Failure? {
      ManyFails(ReadMember, start, |before| + 1, count);
    } else {
      OthersNext(before, next, resolve);
    }
  }

  method ReadOthers(r: MovementReader, resolve: Directory, count: nat)
    returns (os: Result<seq<Other>, ReadError>, allAssist: bool, ghost whole: seq<Member>)
    requires r.Valid()
    modifies r`offset
    ensures r.Valid()
    ensures os.Failure? ==> ReadMembers(old(r.Rest()), count) == Failure(os.error)
    ensures os.Success? ==>
              && ReadMembers(old(r.Rest()), count) == Success(Parsed(whole, r.Rest()))
              && os.value == OthersOf(whole, resolve)
              && (allAssist <==> AllAssist(whole))
  {
    ghost var start := r.Rest();
    var others: seq<Other> := [];
    allAssist, whole := true, [];
    for index := 0 to count
      invariant r.Valid() && |whole| == index
      invariant ReadMembers(start, index) == Success(Parsed(whole, r.Rest()))
      invariant others == OthersOf(whole, resolve)
      invariant allAssist <==> AllAssist(whole)
    {
      var o;
      o, whole := NextOther(r, resolve, start, whole, count);
      if o.Failure? {
        os := Failure(o.error);
        return;
      }
      if !IsAssistant(o.value.player.flags) {
        allAssist := false;
      }
      others := others + [o.value];
    }
    os := Success(others);
  }

  /** The head of the list; a list of too many members is refused. */
  method ReadUpdateHead(r: MovementReader) returns (h: Result<Head, ReadError>)
    requires r.Valid()
    modifies r`offset
    ensures r.Valid()
    ensures h.Failure? ==> ReadHead(old(r.Rest())) == Failure(h.error)
    ensures h.Success? ==> ReadHead(old(r.Rest())) == Success(Parsed(h.value, r.Rest()))
  {
    var groupType :- r.ReadU8();
    var ownSubgroup :- r.ReadU8();
    var ownFlags :- r.ReadU8();
    var ownRoles :- r.ReadU8();
    var isLfg := IsLfg(groupType);
    if isLfg {
      var _ :- r.ReadU8();
      var _ :- r.ReadU32();
    }
    var legacyPartyGuid :- r.ReadU64();
    var _ :- r.ReadU32();
    var membersCount :- r.ReadU32();
    if membersCount > MAX_MEMBERS {
      return Failure(TooManyMembers(membersCount));
    }
    return Success(Head(groupType, ownSubgroup, ownFlags, ownRoles, legacyPartyGuid, membersCount));
  }

  method ReadUpdateTail(r: MovementReader) returns (t: Result<Tail, ReadError>)
    requires r.Valid()
    modifies r`offset
    ensures r.Valid()
    ensures t.Failure? ==> ReadTail(old(r.Rest())) == Failure(t.error)
    ensures t.Success? ==> ReadTail(old(r.Rest())) == Success(Parsed(t.value, r.Rest()))
  {
    var leader :- r.ReadU64();
    var lootMethod :- r.ReadU8();
    var lootMaster :- r.ReadU64();
    var lootThreshold :- r.ReadU8();
    var d :- ReadDifficulties(r);
    return Success(Tail(leader, lootMethod, lootMaster, lootThreshold, d[0], d[1], d[2]));
  }

  /** Three bytes read one by one: the same as three taken at once. */
  method ReadDifficulties(r: MovementReader) returns (d: Result<seq<byte>, ReadError>)
    requires r.Valid()
    modifies r`offset
    ensures r.Valid()
    ensures d.Failure? ==> Take(old(r.Rest()), 3) == Failure(d.error)
    ensures d.Success? ==> Take(old(r.Rest()), 3) == Success(Parsed(d.value, r.Rest()))
  {
    var dungeon :- r.ReadU8();
    var raid :- r.ReadU8();
    var dynamicRaid :- r.ReadU8();
    d := Success([dungeon, raid, dynamicRaid]);
    assert old(r.Rest())[..3] == d.value && old(r.Rest())[3..] == r.Rest();
  }

  // ---------- the translation ----------

  datatype Translated = Translated(update: PartyUpdate, order: seq<uint64>)

  function TranslateLive(
    list: GroupList, self: PartyPlayer, selfLegacy: uint64, sequence: int, resolve: Directory, choose: Chooser): Translated
    requires list.Live?
  {
    var players := PlayersFor(list, self, selfLegacy, resolve);
    var order := OrderFor(list, self, selfLegacy, resolve, choose);
    OrderIsPermutation(players.Keys, list.head.party, list.tail.leader, choose);
    var roster := RosterOf(order, players, selfLegacy);
    Translated(LiveUpdate(list.head, list.members, list.tail, roster, sequence, resolve), order)
  }

  function Translation(
    list: Result<GroupList, ReadError>, self: PartyPlayer, selfLegacy: uint64, sequence: int,
    resolve: Directory, choose: Chooser): Result<Translated, ReadError>
  {
    var l :- list;
    if l.Destroyed? then Success(Translated(DestroyedUpdate(PartyIndex(l.head.groupType), sequence), []))
    else Success(TranslateLive(l, self, selfLegacy, sequence, resolve, choose))
  }

  method TranslateDestroyed(
    r: MovementReader, head: Head, self: PartyPlayer, selfLegacy: uint64, sequence: int, resolve: Directory, choose: Chooser)
    returns (t: Result<Translated, ReadError>)
    requires r.Valid()
    modifies r`offset
    ensures t == Translation(ReadDestroyed(head, old(r.Rest())), self, selfLegacy, sequence, resolve, choose)
  {
    if r.Remaining() == 8 {
      var _ := r.ReadU64(); // eight bytes are there
    }
    if r.Remaining() != 0 {
      return Failure(TrailingBytes);
    }
    return Success(Translated(DestroyedUpdate(PartyIndex(head.groupType), sequence), []));
  }

  /** A live list to its end, the roster from the other members. */
  method TranslateRest(
    r: MovementReader, head: Head, self: PartyPlayer, selfLegacy: uint64, sequence: int, resolve: Directory, choose: Chooser)
    returns (t: Result<Translated, ReadError>)
    requires r.Valid()
    modifies r`offset
    ensures t == Translation(ReadLive(head, old(r.Rest())), self, selfLegacy, sequence, resolve, choose)
  {
    var others, allAssist;
    ghost var members;
    others, allAssist, members := ReadOthers(r, resolve, head.count);
    if others.Failure? {
      return Failure(others.error);
    }
    var tail :- ReadUpdateTail(r);
    if r.Remaining() != 0 {
      return Failure(TrailingBytes);
    }
    var translated := BuildUpdate(head, tail, others.value, allAssist, members, self, selfLegacy, sequence, resolve, choose);
    return Success(translated);
  }

  method BuildRoster(me: PartyPlayer, selfLegacy: uint64, others: seq<Other>, party: uint64, leader: uint64, choose: Chooser)
    returns (order: seq<uint64>, players: seq<PartyPlayer>, myIndex: int)
    ensures var m := ByLegacy(selfLegacy, me, others);
            && order == OrderOf(m.Keys, party, leader, choose)
            && (forall g :: g in order ==> g in m)
            && players == RosterOf(order, m, selfLegacy).players
            && myIndex == IndexOrZero(RosterOf(order, m, selfLegacy).myIndex)
  {
    var byLegacy := IndexByLegacy(selfLegacy, me, others);
    ByLegacyKeys(selfLegacy, me, others);
    order := ChooseRosterOrder(byLegacy, party, leader, choose);
    OrderIsPermutation(byLegacy.Keys, party, leader, choose);
    players, myIndex := BuildPlayers(order, byLegacy, selfLegacy, me);
  }

  method BuildFlags(groupType: byte, allAssist: bool) returns (flags: uint16)
    ensures flags == UpdateFlags(groupType, allAssist)
  {
    flags := 0;
    if IsBattleground(groupType) {
      flags := flags + 0x01;
    }
    if IsRaid(groupType) {
      flags := flags + 0x02;
    }
    if IsLfg(groupType) {
      flags := flags + 0x08;
    }
    if allAssist {
      flags := flags + 0x40;
    }
  }

  method BuildPacket(
    head: Head, tail: Tail, allAssist: bool, players: seq<PartyPlayer>, myIndex: int, sequence: int, resolve: Directory,
    ghost members: seq<Member>, ghost roster: Roster) returns (update: PartyUpdate)
    requires allAssist <==> AllAssist(members)
    requires players == roster.players && myIndex == IndexOrZero(roster.myIndex)
    ensures update == LiveUpdate(head, members, tail, roster, sequence, resolve)
  {
    var flags := BuildFlags(head.groupType, allAssist);
    var partyIndex := PartyIndex(head.groupType);
    var partyType := if partyIndex != 0 then 2 else 1;
    var loot := Loot(tail.lootMethod, resolve(tail.lootMaster).guid, tail.lootThreshold);
    var difficulties := Difficulties(
      ModernDungeonDifficulty(tail.dungeonDifficulty), ModernRaidDifficulty(tail.raidDifficulty),
      ModernRaidDifficulty(tail.dynamicRaidDifficulty));
    update := PartyUpdate(
      flags, partyIndex, partyType, myIndex, ModernPartyGuid(head.party), sequence, resolve(tail.leader).guid,
      players, Some(loot), Some(difficulties));
  }

  method BuildUpdate(
    head: Head, tail: Tail, others: seq<Other>, allAssist: bool, ghost members: seq<Member>,
    self: PartyPlayer, selfLegacy: uint64, sequence: int, resolve: Directory, choose: Chooser) returns (t: Translated)
    requires others == OthersOf(members, resolve) && (allAssist <==> AllAssist(members))
    ensures t == TranslateLive(Live(head, members, tail), self, selfLegacy, sequence, resolve, choose)
  {
    var me := self.(subgroup := head.subgroup, flags := head.flags, roles := head.roles, status := 1, factionGroup := 0);
    var order, players, myIndex := BuildRoster(me, selfLegacy, others, head.party, tail.leader, choose);
    ghost var roster := RosterOf(order, ByLegacy(selfLegacy, me, others), selfLegacy);
    var update := BuildPacket(head, tail, allAssist, players, myIndex, sequence, resolve, members, roster);
    t := Translated(update, order);
  }

  method TranslateLegacyGroupListWithOrder(
    body: seq<byte>, self: PartyPlayer, selfLegacy: uint64, sequence: int, resolve: Directory, choose: Chooser)
    returns (t: Result<Translated, ReadError>)
    ensures t == Translation(GroupListOf(body), self, selfLegacy, sequence, resolve, choose)
  {
    var r := new MovementReader(body);
    var head :- ReadUpdateHead(r);
    if head.count == 0 {
      t := TranslateDestroyed(r, head, self, selfLegacy, sequence, resolve, choose);
    } else {
      t := TranslateRest(r, head, self, selfLegacy, sequence, resolve, choose);
    }
  }

  // ---------- both parsers ----------

  /** The snapshot parser and the translator accept the same bytes and keep the same party, leader and loot. */
  lemma ParsersAgree(
    body: seq<byte>, selfName: seq<byte>, self: PartyPlayer, selfLegacy: uint64, sequence: int,
    resolve: Directory, choose: Chooser)
    ensures var s := SnapshotResult(GroupListOf(body), selfLegacy, selfName);
            var t := Translation(GroupListOf(body), self, selfLegacy, sequence, resolve, choose);
            && (s.Failure? ==> t == Failure(s.error))
            && (s.Success? ==> t.Success? && UpdateMatches(s.value, t.value.update, resolve))
  {
    ListAgrees(GroupListOf(body), selfName, self, selfLegacy, sequence, resolve, choose);
  }

  lemma ListAgrees(
    list: Result<GroupList, ReadError>, selfName: seq<byte>, self: PartyPlayer, selfLegacy: uint64, sequence: int,
    resolve: Directory, choose: Chooser)
    ensures var s := SnapshotResult(list, selfLegacy, selfName);
            var t := Translation(list, self, selfLegacy, sequence, resolve, choose);
            && (s.Failure? ==> t == Failure(s.error))
            && (s.Success? ==> t.Success? && UpdateMatches(s.value, t.value.update, resolve))
  {
    if list.Success? && list.value.Live? {
      LiveAgrees(list.value, selfName, self, selfLegacy, sequence, resolve, choose);
    }
  }

  lemma LiveAgrees(
    list: GroupList, selfName: seq<byte>, self: PartyPlayer, selfLegacy: uint64, sequence: int,
    resolve: Directory, choose: Chooser)
    requires list.Live?
    ensures UpdateMatches(SnapshotFrom(list, selfLegacy, selfName),
                          TranslateLive(list, self, selfLegacy, sequence, resolve, choose).update, resolve)
  {
    FlagsMatch(list.head.groupType, AllAssist(list.members));
  }

  lemma FlagsMatch(groupType: byte, allAssist: bool)
    ensures UpdateFlags(groupType, allAssist) != 0x10
    ensures UpdateFlags(groupType, allAssist) / 2 % 2 == 1 <==> IsRaid(groupType)
  {
  }

  /** The roster order lists exactly the GUIDs of the snapshot's members. */
  lemma MembersAgree(
    list: GroupList, selfName: seq<byte>, self: PartyPlayer, selfLegacy: uint64, resolve: Directory, choose: Chooser)
    requires list.Live?
    ensures var members := SnapshotFrom(list, selfLegacy, selfName).members;
            forall g :: g in OrderFor(list, self, selfLegacy, resolve, choose)
                   <==> exists i :: 0 <= i < |members| && members[i].guid == g
  {
    KeysAreMembers(list, self, selfLegacy, resolve);
    OrderIsPermutation(MemberSet(list, selfLegacy), list.head.party, list.tail.leader, choose);
    SnapshotLists(list, selfLegacy, selfName);
  }

  /** Member i of the snapshot is the first with its GUID. */
  predicate FirstMember(members: seq<SnapshotMember>, i: nat) {
    i < |members| && forall j :: 0 <= j < i ==> members[j].guid != members[i].guid
  }

  /** A player is what the snapshot says of member i: self keeps its own name and class, another the one of the list. */
  predicate PlayerMatches(p: PartyPlayer, m: SnapshotMember, i: nat, self: PartyPlayer, resolve: Directory) {
    && p.subgroup == m.subgroup && p.flags == m.flags && p.roles == m.roles
    && p.guid == (if i == 0 then self.guid else resolve(m.guid).guid)
    && p.name == (if i == 0 then self.name else m.name)
    && p.classID == (if i == 0 then self.classID else resolve(m.guid).classID)
  }

  /** Of several members with one GUID the first is the one that counts, and self before any. */
  lemma {:induction false} FirstOther(selfLegacy: uint64, self: PartyPlayer, others: seq<Other>, i: nat)
    requires i < |others| && others[i].legacy != selfLegacy
    requires forall j :: 0 <= j < i ==> others[j].legacy != others[i].legacy
    ensures others[i].legacy in ByLegacy(selfLegacy, self, others)
    ensures ByLegacy(selfLegacy, self, others)[others[i].legacy] == others[i].player
  {
    var n := |others| - 1;
    ByLegacyKeys(selfLegacy, self, others[..n]);
    if i < n {
      FirstOther(selfLegacy, self, others[..n], i);
    }
  }

  /** What a recipient has for a GUID is what the snapshot says of the first member with it. */
  lemma EntryAgrees(
    list: GroupList, selfName: seq<byte>, self: PartyPlayer, selfLegacy: uint64, resolve: Directory, i: nat)
    requires list.Live? && FirstMember(SnapshotFrom(list, selfLegacy, selfName).members, i)
    ensures var m := SnapshotFrom(list, selfLegacy, selfName).members[i];
            var players := PlayersFor(list, self, selfLegacy, resolve);
            m.guid in players && PlayerMatches(players[m.guid], m, i, self, resolve)
  {
    var members := SnapshotFrom(list, selfLegacy, selfName).members;
    var me, others := SelfOf(self, list.head), OthersOf(list.members, resolve);
    ByLegacyKeys(selfLegacy, me, others);
    assert members[0].guid == selfLegacy;
    if i > 0 {
      assert members[i] == Listed(list.members[i - 1]) && others[i - 1] == PlayerOf(list.members[i - 1], resolve);
      assert forall j :: 0 <= j < i - 1 ==> members[j + 1].guid == others[j].legacy;
      FirstOther(selfLegacy, me, others, i - 1);
    }
  }

  lemma {:induction false} FirstWithGuid(members: seq<SnapshotMember>, k: nat) returns (i: nat)
    requires k < |members|
    ensures FirstMember(members, i) && members[i].guid == members[k].guid
    decreases k
  {
    i := k;
    if j :| 0 <= j < k && members[j].guid == members[k].guid {
      i := FirstWithGuid(members, j);
    }
  }

  /** Every player of the update is what the snapshot says of the first member with some GUID. */
  lemma PlayersAgree(
    list: GroupList, selfName: seq<byte>, self: PartyPlayer, selfLegacy: uint64, sequence: int, resolve: Directory,
    choose: Chooser, n: nat) returns (i: nat)
    requires list.Live? && n < |TranslateLive(list, self, selfLegacy, sequence, resolve, choose).update.players|
    ensures var members := SnapshotFrom(list, selfLegacy, selfName).members;
            var t := TranslateLive(list, self, selfLegacy, sequence, resolve, choose);
            && FirstMember(members, i) && members[i].guid in t.order
            && PlayerMatches(t.update.players[n], members[i], i, self, resolve)
  {
    var members := SnapshotFrom(list, selfLegacy, selfName).members;
    var players, order := PlayersFor(list, self, selfLegacy, resolve), OrderFor(list, self, selfLegacy, resolve, choose);
    OrderIsPermutation(players.Keys, list.head.party, list.tail.leader, choose);
    RosterEntries(order, players, selfLegacy);
    var g := RosterOf(order, players, selfLegacy).listed[n];
    MembersAgree(list, selfName, self, selfLegacy, resolve, choose);
    var k :| 0 <= k < |members| && members[k].guid == g;
    i := FirstWithGuid(members, k);
    EntryAgrees(list, selfName, self, selfLegacy, resolve, i);
  }

  /** Different members of one roster have different modern GUIDs. */
  predicate AllDistinct(players: map<uint64, PartyPlayer>) {
    forall g, h :: g in players && h in players && players[g].guid == players[h].guid ==> g == h
  }

  /** With distinct modern GUIDs player n is that of the first member with the n-th GUID of the order. */
  lemma PlayersInOrder(
    list: GroupList, selfName: seq<byte>, self: PartyPlayer, selfLegacy: uint64, sequence: int, resolve: Directory,
    choose: Chooser, n: nat) returns (i: nat)
    requires list.Live? && AllDistinct(PlayersFor(list, self, selfLegacy, resolve))
    requires n < |OrderFor(list, self, selfLegacy, resolve, choose)|
    ensures var members := SnapshotFrom(list, selfLegacy, selfName).members;
            var t := TranslateLive(list, self, selfLegacy, sequence, resolve, choose);
            && |t.update.players| == |t.order| && FirstMember(members, i) && members[i].guid == t.order[n]
            && PlayerMatches(t.update.players[n], members[i], i, self, resolve)
  {
    var members := SnapshotFrom(list, selfLegacy, selfName).members;
    var players, order := PlayersFor(list, self, selfLegacy, resolve), OrderFor(list, self, selfLegacy, resolve, choose);
    OrderIsPermutation(players.Keys, list.head.party, list.tail.leader, choose);
    RosterEntries(order, players, selfLegacy);
    DistinctAllListed(order, players, selfLegacy);
    MembersAgree(list, selfName, self, selfLegacy, resolve, choose);
    assert order[n] in order;
    var k :| 0 <= k < |members| && members[k].guid == order[n];
    i := FirstWithGuid(members, k);
    EntryAgrees(list, selfName, self, selfLegacy, resolve, i);
  }

  lemma ListedIff(members: seq<SnapshotMember>, rows: seq<Member>, own: uint64, g: uint64)
    requires |members| == |rows| + 1 && members[0].guid == own
    requires forall i :: 0 <= i < |rows| ==> members[i + 1].guid == rows[i].guid
    ensures (exists i :: 0 <= i < |members| && members[i].guid == g)
            <==> g == own || exists i :: 0 <= i < |rows| && rows[i].guid == g
  {
    if i :| 0 <= i < |members| && members[i].guid == g {
      assert i > 0 ==> rows[i - 1].guid == g;
    }
    if i :| 0 <= i < |rows| && rows[i].guid == g {
      assert members[i + 1].guid == g;
    }
  }

  lemma SnapshotRows(list: GroupList, selfLegacy: uint64, selfName: seq<byte>)
    requires list.Live?
    ensures var members := SnapshotFrom(list, selfLegacy, selfName).members;
            && |members| == |list.members| + 1 && members[0].guid == selfLegacy
            && forall i :: 0 <= i < |list.members| ==> members[i + 1].guid == list.members[i].guid
  {
  }

  lemma SnapshotLists(list: GroupList, selfLegacy: uint64, selfName: seq<byte>)
    requires list.Live?
    ensures var members := SnapshotFrom(list, selfLegacy, selfName).members;
            forall g :: g in MemberSet(list, selfLegacy) <==> exists i :: 0 <= i < |members| && members[i].guid == g
  {
    var members := SnapshotFrom(list, selfLegacy, selfName).members;
    SnapshotRows(list, selfLegacy, selfName);
    forall g
      ensures g in MemberSet(list, selfLegacy) <==> exists i :: 0 <= i < |members| && members[i].guid == g
    {
      ListedIff(members, list.members, selfLegacy, g);
    }
  }

  predicate UpdateMatches(s: Snapshot, u: PartyUpdate, resolve: Directory) {
    && u.partyIndex == s.partyIndex
    && (s.destroyed <==> u.flags == 0x10)
    && (!s.destroyed ==>
          && u.partyGuid == s.guid
          && u.leader == resolve(s.leader).guid
          && u.loot == Some(Loot(s.lootMethod, resolve(s.lootMaster).guid, s.lootThreshold))
          && (u.flags / 2 % 2 == 1 <==> s.isRaid))
  }

  // ---------- what every recipient sees ----------

  function MemberSet(list: GroupList, selfLegacy: uint64): set<uint64>
    requires list.Live?
  {
    {selfLegacy} + set i | 0 <= i < |list.members| :: list.members[i].guid
  }

  lemma KeysAreMembers(list: GroupList, self: PartyPlayer, selfLegacy: uint64, resolve: Directory)
    requires list.Live?
    ensures PlayersFor(list, self, selfLegacy, resolve).Keys == MemberSet(list, selfLegacy)
  {
    var others := OthersOf(list.members, resolve);
    ByLegacyKeys(selfLegacy, SelfOf(self, list.head), others);
    assert forall i :: 0 <= i < |others| ==> others[i].legacy == list.members[i].guid;
  }

  /** Two recipients of one member set, party and leader get one order, whoever each of them is. */
  lemma SameOrderForAll(
    a: GroupList, selfA: PartyPlayer, legacyA: uint64, resolveA: Directory,
    b: GroupList, selfB: PartyPlayer, legacyB: uint64, resolveB: Directory, choose: Chooser)
    requires a.Live? && b.Live?
    requires MemberSet(a, legacyA) == MemberSet(b, legacyB)
    requires a.head.party == b.head.party && a.tail.leader == b.tail.leader
    ensures OrderFor(a, selfA, legacyA, resolveA, choose) == OrderFor(b, selfB, legacyB, resolveB, choose)
  {
    KeysAreMembers(a, selfA, legacyA, resolveA);
    KeysAreMembers(b, selfB, legacyB, resolveB);
  }

  predicate SharesNoGuid(list: GroupList, self: PartyPlayer, selfLegacy: uint64, resolve: Directory)
    requires list.Live?
  {
    forall i :: 0 <= i < |list.members| && list.members[i].guid != selfLegacy ==>
      resolve(list.members[i].guid).guid != self.guid
  }

  /** Unless another member shares its modern GUID, self is at its index, with its own subgroup, flags and roles. */
  lemma SelfAtMyIndex(
    list: GroupList, self: PartyPlayer, selfLegacy: uint64, sequence: int, resolve: Directory, choose: Chooser)
    requires list.Live? && SharesNoGuid(list, self, selfLegacy, resolve)
    ensures var u := TranslateLive(list, self, selfLegacy, sequence, resolve, choose).update;
            && 0 <= u.myIndex < |u.players|
            && u.players[u.myIndex] == SelfOf(self, list.head)
  {
    var players, order := PlayersFor(list, self, selfLegacy, resolve), OrderFor(list, self, selfLegacy, resolve, choose);
    ByLegacyKeys(selfLegacy, SelfOf(self, list.head), OthersOf(list.members, resolve));
    OrderIsPermutation(players.Keys, list.head.party, list.tail.leader, choose);
    OthersElsewhere(list, self, selfLegacy, resolve);
    assert selfLegacy in order;
    var k :| 0 <= k < |order| && order[k] == selfLegacy;
    SelfListed(order, players, selfLegacy, k);
  }

  lemma SelfListed(order: seq<uint64>, players: map<uint64, PartyPlayer>, selfLegacy: uint64, k: nat)
    requires NoRepeats(order) && k < |order| && order[k] == selfLegacy
    requires forall g :: g in order ==> g in players
    requires forall g :: g in players && g != selfLegacy ==> players[g].guid != players[selfLegacy].guid
    ensures var r := RosterOf(order, players, selfLegacy);
            && r.myIndex.Some? && r.myIndex.value < |r.players|
            && r.players[r.myIndex.value] == players[selfLegacy]
  {
    SelfEntry(order, players, selfLegacy, k);
    RosterEntries(order, players, selfLegacy);
    forall j | 0 <= j < k
      ensures players[order[j]].guid != players[selfLegacy].guid
    {
      assert order[j] in order && order[j] != selfLegacy;
    }
  }

  lemma OthersElsewhere(list: GroupList, self: PartyPlayer, selfLegacy: uint64, resolve: Directory)
    requires list.Live? && SharesNoGuid(list, self, selfLegacy, resolve)
    ensures var players := PlayersFor(list, self, selfLegacy, resolve);
            forall g :: g in players && g != selfLegacy ==> players[g].guid != self.guid
  {
    var me, others := SelfOf(self, list.head), OthersOf(list.members, resolve);
    var players := ByLegacy(selfLegacy, me, others);
    forall g | g in players && g != selfLegacy
      ensures players[g].guid != self.guid
    {
      var i := OtherPlace(selfLegacy, me, others, g);
      assert list.members[i].guid == g;
    }
  }

  /** Every entry but self's is that of some member with its legacy GUID. */
  lemma {:induction false} OtherPlace(selfLegacy: uint64, self: PartyPlayer, others: seq<Other>, g: uint64)
    returns (i: nat)
    requires g in ByLegacy(selfLegacy, self, others) && g != selfLegacy
    ensures i < |others| && others[i].legacy == g && ByLegacy(selfLegacy, self, others)[g] == others[i].player
  {
    i := |others| - 1;
    if g in ByLegacy(selfLegacy, self, others[..i]) {
      i := OtherPlace(selfLegacy, self, others[..i], g);
    }
  }
}

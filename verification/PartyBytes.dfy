/** What both readers make of the bytes of a group list. */
module PartyLayouts {
  import opened Wrappers
  import opened Bytes
  import opened Guids
  import opened Reader
  import opened GroupLists
  import opened GroupListLayouts
  import opened PartyUpdates
  import opened Rosters
  import opened Sorting

  /** A group's modern GUID: type 33, no realm, the lower half of the legacy one. */
  predicate PartyGuidIs(guid: Guid128, party: nat) {
    if party == 0 then guid.low == 0 && guid.high == 0
    else guid.low == party % 0x1_0000_0000 && guid.high == 0x8400_0000_0000_0000
  }

  /** A snapshot in the places of the packet it is read from. */
  predicate SnapshotBytes(s: Snapshot, body: seq<byte>, list: GroupList, selfGuid: uint64, selfName: seq<byte>)
    requires StandsIn(list, body)
  {
    var o, t := PartyAt(body[0]), |body| - 21;
    && s.groupType == body[0] && s.partyIndex == body[0] % 2 && (s.isRaid <==> body[0] / 2 % 2 == 1)
    && s.legacyGuid == LittleValue(body[o..o + 8]) && PartyGuidIs(s.guid, s.legacyGuid)
    && (s.destroyed <==> LittleValue(body[o + 12..o + 16]) == 0)
    && if s.destroyed then
         && FarewellBytes(s.leader, body[o + 16..])
         && s.lootMethod == 0 && s.lootMaster == 0 && s.lootThreshold == 0 && s.members == []
       else
         && list.Live? && t >= 0
         && s.leader == LittleValue(body[t..][..8]) && s.lootMethod == body[t..][8]
         && s.lootMaster == LittleValue(body[t..][9..17]) && s.lootThreshold == body[t..][17]
         && |s.members| == 1 + |list.members|
         && s.members[0] == SnapshotMember(selfGuid, selfName, body[1], body[2], body[3])
         && forall i :: 0 <= i < |list.members| ==>
              var m := list.members[i];
              s.members[i + 1] == SnapshotMember(m.guid, m.name, m.subgroup, m.flags, m.roles)
  }

  lemma LiveSnapshot(list: GroupList, body: seq<byte>, selfGuid: uint64, selfName: seq<byte>)
    requires list.Live? && StandsIn(list, body)
    ensures SnapshotBytes(SnapshotFrom(list, selfGuid, selfName), body, list, selfGuid, selfName)
  {
  }

  lemma SnapshotMeaning(body: seq<byte>, selfGuid: uint64, selfName: seq<byte>)
    ensures var s := SnapshotResult(GroupListOf(body), selfGuid, selfName);
            && (s.Failure? <==> GroupListOf(body).Failure?)
            && (s.Success? ==>
                  && StandsIn(GroupListOf(body).value, body)
                  && SnapshotBytes(s.value, body, GroupListOf(body).value, selfGuid, selfName))
  {
    if GroupListOf(body).Success? {
      ListStandsIn(body);
      if GroupListOf(body).value.Live? {
        LiveSnapshot(GroupListOf(body).value, body, selfGuid, selfName);
      }
    }
  }

  // ---------- the update ----------

  /** Battleground, raid and dungeon-finder bits of the group type; bit 6 when every other member assists. */
  predicate FlagBits(flags: uint16, groupType: byte, allAssist: bool) {
    && flags % 2 == groupType % 2 && flags / 2 % 2 == groupType / 2 % 2 && flags / 8 % 2 == groupType / 8 % 2
    && flags / 4 % 2 == 0 && flags / 16 % 4 == 0 && flags / 64 == (if allAssist then 1 else 0)
  }

  predicate DungeonIs(modern: uint32, legacy: byte) {
    (legacy == 0 && modern == 1) || (legacy != 0 && modern == 2)
  }

  predicate RaidIs(modern: uint32, legacy: byte) {
    (legacy, modern) in {(0, 3), (1, 4), (2, 5), (3, 6)} || (legacy > 3 && modern == 0)
  }

  predicate AllAssisting(members: seq<Member>) {
    forall i :: 0 <= i < |members| ==> members[i].flags % 2 == 1
  }

  /** Leader, loot and difficulties, from the last 21 bytes. */
  predicate LootBytes(u: PartyUpdate, t: seq<byte>, resolve: Directory)
    requires |t| == 21
  {
    && u.leader == resolve(LittleOf(t[..8])).guid
    && u.loot == Some(Loot(t[8], resolve(LittleOf(t[9..17])).guid, t[17]))
    && u.difficulties.Some?
    && DungeonIs(u.difficulties.value.dungeon, t[18])
    && RaidIs(u.difficulties.value.raid, t[19]) && RaidIs(u.difficulties.value.legacy, t[20])
  }

  /** An update in the places of the packet it is translated from. */
  predicate UpdateBytes(u: PartyUpdate, body: seq<byte>, list: GroupList, sequence: int, resolve: Directory)
    requires StandsIn(list, body)
  {
    var o := PartyAt(body[0]);
    && u.sequence == sequence && u.partyIndex == body[0] % 2
    && match list
       case Destroyed(_, _) =>
         && u.flags == 0x10 && u.partyType == 0 && u.myIndex == -1 && u.players == []
         && PartyGuidIs(u.partyGuid, 0) && PartyGuidIs(u.leader, 0) && u.loot == None && u.difficulties == None
       case Live(_, members, _) =>
         && FlagBits(u.flags, body[0], AllAssisting(members))
         && u.partyType == (if body[0] % 2 == 1 then 2 else 1)
         && PartyGuidIs(u.partyGuid, LittleValue(body[o..o + 8]))
         && LootBytes(u, body[|body| - 21..], resolve)
  }

  function LittleOf(d: seq<byte>): uint64
    requires |d| == 8
  {
    Widths();
    LittleValue(d)
  }

  lemma BitsOfFlags(groupType: byte, allAssist: bool)
    ensures FlagBits(UpdateFlags(groupType, allAssist), groupType, allAssist)
  {
  }

  lemma TailOfUpdate(
    head: Head, members: seq<Member>, tail: Tail, t: seq<byte>, roster: Roster, sequence: int, resolve: Directory)
    requires TailBytes(tail, t)
    ensures LootBytes(LiveUpdate(head, members, tail, roster, sequence, resolve), t, resolve)
  {
  }

  lemma LiveUpdateMeaning(list: GroupList, body: seq<byte>, roster: Roster, sequence: int, resolve: Directory)
    requires list.Live? && StandsIn(list, body)
    ensures UpdateBytes(LiveUpdate(list.head, list.members, list.tail, roster, sequence, resolve), body, list, sequence, resolve)
  {
    TailOfUpdate(list.head, list.members, list.tail, body[|body| - 21..], roster, sequence, resolve);
    BitsOfFlags(body[0], AllAssist(list.members));
    assert AllAssist(list.members) <==> AllAssisting(list.members);
  }

  lemma TranslatedFrom(
    list: GroupList, self: PartyPlayer, selfLegacy: uint64, sequence: int, resolve: Directory, choose: Chooser)
    returns (roster: Roster)
    requires list.Live?
    ensures TranslateLive(list, self, selfLegacy, sequence, resolve, choose).update
            == LiveUpdate(list.head, list.members, list.tail, roster, sequence, resolve)
  {
    var players := PlayersFor(list, self, selfLegacy, resolve);
    OrderIsPermutation(players.Keys, list.head.party, list.tail.leader, choose);
    roster := RosterOf(OrderFor(list, self, selfLegacy, resolve, choose), players, selfLegacy);
  }

  lemma LiveMeaning(
    list: GroupList, body: seq<byte>, self: PartyPlayer, selfLegacy: uint64, sequence: int, resolve: Directory, choose: Chooser)
    requires list.Live? && StandsIn(list, body)
    ensures UpdateBytes(TranslateLive(list, self, selfLegacy, sequence, resolve, choose).update, body, list, sequence, resolve)
  {
    var roster := TranslatedFrom(list, self, selfLegacy, sequence, resolve, choose);
    LiveUpdateMeaning(list, body, roster, sequence, resolve);
  }

  lemma UpdateMeaning(
    body: seq<byte>, self: PartyPlayer, selfLegacy: uint64, sequence: int, resolve: Directory, choose: Chooser)
    ensures var t := Translation(GroupListOf(body), self, selfLegacy, sequence, resolve, choose);
            && (t.Failure? <==> GroupListOf(body).Failure?)
            && (t.Success? ==>
                  && StandsIn(GroupListOf(body).value, body)
                  && UpdateBytes(t.value.update, body, GroupListOf(body).value, sequence, resolve))
  {
    if GroupListOf(body).Success? {
      ListStandsIn(body);
      if GroupListOf(body).value.Live? {
        LiveMeaning(GroupListOf(body).value, body, self, selfLegacy, sequence, resolve, choose);
      }
    }
  }

  // ---------- who is listed, and in what order ----------

  /** Self with the head's bytes, online and of no faction. */
  predicate IsSelf(p: PartyPlayer, self: PartyPlayer, h: Head) {
    p == PartyPlayer(self.guid, self.name, 1, h.subgroup, h.flags, h.roles, self.classID, 0)
  }

  /** A member of the packet with the GUID and class known for it, of no faction. */
  predicate IsMember(p: PartyPlayer, m: Member, known: PartyPlayer) {
    p == PartyPlayer(known.guid, m.name, m.status, m.subgroup, m.flags, m.roles, known.classID, 0)
  }

  predicate IsRow(p: PartyPlayer, list: GroupList, self: PartyPlayer, selfLegacy: uint64, g: uint64, resolve: Directory)
    requires list.Live?
  {
    if g == selfLegacy then IsSelf(p, self, list.head)
    else exists i :: 0 <= i < |list.members| && list.members[i].guid == g && IsMember(p, list.members[i], resolve(g))
  }

  lemma EntryIsRow(list: GroupList, self: PartyPlayer, selfLegacy: uint64, resolve: Directory, g: uint64)
    requires list.Live? && g in PlayersFor(list, self, selfLegacy, resolve)
    ensures IsRow(PlayersFor(list, self, selfLegacy, resolve)[g], list, self, selfLegacy, g, resolve)
  {
    var me, others := SelfOf(self, list.head), OthersOf(list.members, resolve);
    ByLegacyKeys(selfLegacy, me, others);
    if g != selfLegacy {
      var i := OtherPlace(selfLegacy, me, others, g);
      assert others[i] == PlayerOf(list.members[i], resolve);
    }
  }

  /** Every player is self or a member, byte for byte. */
  lemma PlayersAreRows(
    list: GroupList, self: PartyPlayer, selfLegacy: uint64, sequence: int, resolve: Directory, choose: Chooser, n: nat)
    returns (g: uint64)
    requires list.Live? && n < |TranslateLive(list, self, selfLegacy, sequence, resolve, choose).update.players|
    ensures var t := TranslateLive(list, self, selfLegacy, sequence, resolve, choose);
            g in t.order && IsRow(t.update.players[n], list, self, selfLegacy, g, resolve)
  {
    var players, order := PlayersFor(list, self, selfLegacy, resolve), OrderFor(list, self, selfLegacy, resolve, choose);
    OrderIsPermutation(players.Keys, list.head.party, list.tail.leader, choose);
    RosterEntries(order, players, selfLegacy);
    g := RosterOf(order, players, selfLegacy).listed[n];
    EntryIsRow(list, self, selfLegacy, resolve, g);
  }

  /** The order has self and each member once: those preferred for this party and leader first, the others ascending. */
  lemma OrderMeaning(list: GroupList, self: PartyPlayer, selfLegacy: uint64, sequence: int, resolve: Directory, choose: Chooser)
    requires list.Live?
    ensures var order := TranslateLive(list, self, selfLegacy, sequence, resolve, choose).order;
            var all := MemberSet(list, selfLegacy);
            var sorted := SortedOf(all, ByGuid);
            var first := if choose.None? then [] else Included(choose.value(list.head.party, list.tail.leader, sorted), all);
            && NoRepeats(order) && (forall g :: g in order <==> g in all)
            && first <= order && AscendingBy(order[|first|..], ByGuid)
  {
    var all := MemberSet(list, selfLegacy);
    KeysAreMembers(list, self, selfLegacy, resolve);
    OrderIsPermutation(all, list.head.party, list.tail.leader, choose);
    if choose.Some? {
      var sorted := SortedOf(all, ByGuid);
      IncludedRest(choose.value(list.head.party, list.tail.leader, sorted), sorted, all);
    } else {
      var order := OrderOf(all, list.head.party, list.tail.leader, choose);
      assert order[0..] == order;
    }
  }

  /** Some member before place k of the order has self's modern GUID. */
  predicate TakenBefore(order: seq<uint64>, k: nat, guid: Guid128, resolve: Directory)
    requires k <= |order|
  {
    exists j :: 0 <= j < k && resolve(order[j]).guid == guid
  }

  lemma ShadowedIs(
    list: GroupList, self: PartyPlayer, selfLegacy: uint64, resolve: Directory, order: seq<uint64>, k: nat)
    requires list.Live? && NoRepeats(order) && k < |order| && order[k] == selfLegacy
    requires forall g :: g in order ==> g in PlayersFor(list, self, selfLegacy, resolve)
    ensures Shadowed(order, PlayersFor(list, self, selfLegacy, resolve), selfLegacy, k)
            <==> TakenBefore(order, k, self.guid, resolve)
  {
    var players := PlayersFor(list, self, selfLegacy, resolve);
    ByLegacyKeys(selfLegacy, SelfOf(self, list.head), OthersOf(list.members, resolve));
    forall j | 0 <= j < k
      ensures order[j] in order && players[order[j]].guid == resolve(order[j]).guid
    {
      assert order[j] in order;
      EntryIsRow(list, self, selfLegacy, resolve, order[j]);
    }
  }

  /** The index is where self is listed, and 0 when a member before it in the order has its modern GUID. */
  lemma MyIndexMeaning(
    list: GroupList, self: PartyPlayer, selfLegacy: uint64, sequence: int, resolve: Directory, choose: Chooser)
    returns (k: nat)
    requires list.Live?
    ensures var Translated(u, order) := TranslateLive(list, self, selfLegacy, sequence, resolve, choose);
            && k < |order| && order[k] == selfLegacy
            && if TakenBefore(order, k, self.guid, resolve) then u.myIndex == 0
               else 0 <= u.myIndex < |u.players| && IsSelf(u.players[u.myIndex], self, list.head)
  {
    var players, order := PlayersFor(list, self, selfLegacy, resolve), OrderFor(list, self, selfLegacy, resolve, choose);
    ByLegacyKeys(selfLegacy, SelfOf(self, list.head), OthersOf(list.members, resolve));
    OrderIsPermutation(players.Keys, list.head.party, list.tail.leader, choose);
    assert selfLegacy in order;
    k :| 0 <= k < |order| && order[k] == selfLegacy;
    SelfEntry(order, players, selfLegacy, k);
    RosterEntries(order, players, selfLegacy);
    ShadowedIs(list, self, selfLegacy, resolve, order, k);
  }
}

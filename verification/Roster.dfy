/** The party update: one roster, in one order, for every recipient of a group list. */
module Rosters {
  import opened Wrappers
  import opened Bytes
  import opened Guids
  import opened GroupLists
  import opened Sorting

  datatype PartyPlayer = PartyPlayer(
    guid: Guid128, name: seq<byte>, status: byte, subgroup: byte, flags: byte, roles: byte, classID: byte, factionGroup: byte)

  datatype Loot = Loot(method_: byte, master: Guid128, threshold: byte)
  datatype Difficulties = Difficulties(dungeon: uint32, raid: uint32, legacy: uint32)

  datatype PartyUpdate = PartyUpdate(
    flags: uint16, partyIndex: byte, partyType: byte, myIndex: int, partyGuid: Guid128, sequence: int,
    leader: Guid128, players: seq<PartyPlayer>, loot: Option<Loot>, difficulties: Option<Difficulties>)

  type Directory = uint64 -> PartyPlayer
  /** Party, leader and the sorted members to a preferred order. */
  type Chooser = Option<(uint64, uint64, seq<uint64>) -> seq<uint64>>

  datatype Other = Other(legacy: uint64, player: PartyPlayer)

  function ByGuid(g: uint64): nat {
    g
  }

  // ---------- what is made of a parsed list ----------

  function PlayerOf(m: Member, resolve: Directory): Other {
    var known := resolve(m.guid);
    Other(m.guid, PartyPlayer(known.guid, m.name, m.status, m.subgroup, m.flags, m.roles, known.classID, 0))
  }

  function OthersOf(members: seq<Member>, resolve: Directory): (r: seq<Other>)
    ensures |r| == |members|
  {
    seq(|members|, i requires 0 <= i < |members| => PlayerOf(members[i], resolve))
  }

  function SelfOf(self: PartyPlayer, h: Head): PartyPlayer {
    self.(subgroup := h.subgroup, flags := h.flags, roles := h.roles, status := 1, factionGroup := 0)
  }

  /** Self, and each other member under its legacy GUID unless that is taken. */
  function ByLegacy(selfLegacy: uint64, self: PartyPlayer, others: seq<Other>): map<uint64, PartyPlayer> {
    if others == [] then map[selfLegacy := self]
    else
      var before := ByLegacy(selfLegacy, self, others[..|others| - 1]);
      var last := others[|others| - 1];
      if last.legacy in before then before else before[last.legacy := last.player]
  }

  /** The candidates that are members, each at its first occurrence. */
  function Included(candidates: seq<uint64>, members: set<uint64>): seq<uint64> {
    if candidates == [] then []
    else
      var before := Included(candidates[..|candidates| - 1], members);
      var last := candidates[|candidates| - 1];
      if last in members && last !in before then before + [last] else before
  }

  function OrderOf(members: set<uint64>, party: uint64, leader: uint64, choose: Chooser): seq<uint64> {
    var sorted := SortedOf(members, ByGuid);
    match choose
    case None => sorted
    case Some(f) => Included(f(party, leader, sorted) + sorted, members)
  }

  /** The player list, the legacy GUID of each entry, and the place of self (0 when self has none). */
  datatype Roster = Roster(players: seq<PartyPlayer>, listed: seq<uint64>, myIndex: Option<nat>)

  /** Entries in order, skipping those whose modern GUID is already listed. */
  function RosterOf(order: seq<uint64>, players: map<uint64, PartyPlayer>, selfLegacy: uint64): (r: Roster)
    requires forall g :: g in order ==> g in players
    ensures |r.players| == |r.listed|
  {
    if order == [] then Roster([], [], None)
    else
      var before := RosterOf(order[..|order| - 1], players, selfLegacy);
      var last := order[|order| - 1];
      assert last in order;
      if HasGuid(before.players, players[last].guid) then before
      else
        Roster(before.players + [players[last]], before.listed + [last],
               if last == selfLegacy then Some(|before.players|) else before.myIndex)
  }

  predicate HasGuid(players: seq<PartyPlayer>, guid: Guid128) {
    exists i :: 0 <= i < |players| && players[i].guid == guid
  }

  predicate AllAssist(members: seq<Member>) {
    forall i :: 0 <= i < |members| ==> IsAssistant(members[i].flags)
  }

  function UpdateFlags(groupType: byte, allAssist: bool): uint16 {
    (if IsBattleground(groupType) then 0x01 else 0)
    + (if IsRaid(groupType) then 0x02 else 0)
    + (if IsLfg(groupType) then 0x08 else 0)
    + (if allAssist then 0x40 else 0)
  }

  function ModernDungeonDifficulty(legacy: byte): uint32 {
    if legacy == 0 then 1 else 2
  }

  function ModernRaidDifficulty(legacy: byte): uint32 {
    if legacy <= 3 then legacy + 3 else 0
  }

  function DestroyedUpdate(partyIndex: byte, sequence: int): PartyUpdate {
    PartyUpdate(0x10, partyIndex, 0, -1, NO_GUID, sequence, NO_GUID, [], None, None)
  }

  function PartyIndex(groupType: byte): byte {
    if IsBattleground(groupType) then 1 else 0
  }

  function IndexOrZero(i: Option<nat>): nat {
    if i.Some? then i.value else 0
  }

  function LiveUpdate(head: Head, members: seq<Member>, tail: Tail, roster: Roster, sequence: int, resolve: Directory)
    : PartyUpdate
  {
    PartyUpdate(
      UpdateFlags(head.groupType, AllAssist(members)), PartyIndex(head.groupType), PartyIndex(head.groupType) + 1,
      IndexOrZero(roster.myIndex),
      ModernPartyGuid(head.party), sequence, resolve(tail.leader).guid, roster.players,
      Some(Loot(tail.lootMethod, resolve(tail.lootMaster).guid, tail.lootThreshold)),
      Some(Difficulties(ModernDungeonDifficulty(tail.dungeonDifficulty), ModernRaidDifficulty(tail.raidDifficulty),
                        ModernRaidDifficulty(tail.dynamicRaidDifficulty))))
  }

  /** Who is listed under which legacy GUID for this recipient. */
  function PlayersFor(list: GroupList, self: PartyPlayer, selfLegacy: uint64, resolve: Directory): map<uint64, PartyPlayer>
    requires list.Live?
  {
    ByLegacy(selfLegacy, SelfOf(self, list.head), OthersOf(list.members, resolve))
  }

  function OrderFor(list: GroupList, self: PartyPlayer, selfLegacy: uint64, resolve: Directory, choose: Chooser): seq<uint64>
    requires list.Live?
  {
    OrderOf(PlayersFor(list, self, selfLegacy, resolve).Keys, list.head.party, list.tail.leader, choose)
  }

  // ---------- the order ----------

  lemma {:induction false} IncludedElements(candidates: seq<uint64>, members: set<uint64>)
    ensures NoRepeats(Included(candidates, members))
    ensures forall g :: g in Included(candidates, members) <==> g in candidates && g in members
  {
    if candidates != [] {
      var init := candidates[..|candidates| - 1];
      IncludedElements(init, members);
      assert candidates == init + [candidates[|candidates| - 1]];
    }
  }

  /** Later candidates only add entries behind those of earlier ones, in their own order. */
  lemma {:induction false} IncludedFirst(first: seq<uint64>, then_: seq<uint64>, members: set<uint64>)
    ensures Included(first, members) <= Included(first + then_, members)
  {
    if then_ == [] {
      assert first + then_ == first;
    } else {
      var init := then_[..|then_| - 1];
      IncludedFirst(first, init, members);
      assert (first + then_)[..|first + then_| - 1] == first + init;
    }
  }

  /** Whatever is chosen, the order is every member once, the chosen ones first. */
  lemma OrderIsPermutation(members: set<uint64>, party: uint64, leader: uint64, choose: Chooser)
    ensures var order := OrderOf(members, party, leader, choose);
            && NoRepeats(order)
            && (forall g :: g in order <==> g in members)
            && (choose.Some? ==> Included(choose.value(party, leader, SortedOf(members, ByGuid)), members) <= order)
            && (choose.None? ==> AscendingBy(order, ByGuid))
  {
    var sorted := SortedOf(members, ByGuid);
    if choose.Some? {
      var preferred := choose.value(party, leader, sorted);
      IncludedElements(preferred + sorted, members);
      IncludedFirst(preferred, sorted, members);
    }
  }

  /** Self and every other member, whatever order the packet lists them in. */
  lemma {:induction false} ByLegacyKeys(selfLegacy: uint64, self: PartyPlayer, others: seq<Other>)
    ensures forall g :: g in ByLegacy(selfLegacy, self, others)
                   <==> g == selfLegacy || exists i :: 0 <= i < |others| && others[i].legacy == g
    ensures ByLegacy(selfLegacy, self, others)[selfLegacy] == self
  {
    if others != [] {
      var init, last := others[..|others| - 1], others[|others| - 1];
      ByLegacyKeys(selfLegacy, self, init);
      assert others == init + [last];
    }
  }

  /** Behind the chosen members come the remaining ones, ascending. */
  lemma {:induction false} IncludedRest(first: seq<uint64>, then_: seq<uint64>, members: set<uint64>)
    requires AscendingBy(then_, ByGuid)
    ensures Included(first, members) <= Included(first + then_, members)
    ensures var rest := Included(first + then_, members)[|Included(first, members)|..];
            AscendingBy(rest, ByGuid) && forall g :: g in rest ==> g in then_
  {
    IncludedFirst(first, then_, members);
    if then_ == [] {
      assert first + then_ == first;
    } else {
      var init, last := then_[..|then_| - 1], then_[|then_| - 1];
      IncludedFirst(first, init, members);
      IncludedRest(first, init, members);
      assert (first + then_)[..|first + then_| - 1] == first + init;
      forall g | g in init
        ensures g < last && g in then_
      {
        var k :| 0 <= k < |init| && init[k] == g;
        assert ByGuid(then_[k]) < ByGuid(then_[|init|]);
      }
      var n, before := |Included(first, members)|, Included(first + init, members);
      if Included(first + then_, members) != before {
        assert Included(first + then_, members)[n..] == before[n..] + [last];
        AscendingAppend(before[n..], last, ByGuid);
      }
    }
  }

  // ---------- the player list ----------

  lemma HasGuidBehind(players: seq<PartyPlayer>, p: PartyPlayer, guid: Guid128)
    ensures HasGuid(players + [p], guid) <==> HasGuid(players, guid) || p.guid == guid
  {
    assert (players + [p])[|players|] == p;
    assert forall i :: 0 <= i < |players| ==> (players + [p])[i] == players[i];
  }

  /** Each entry is the player of its legacy GUID, and no modern GUID is there twice. */
  predicate EntriesOf(r: Roster, order: seq<uint64>, players: map<uint64, PartyPlayer>)
    requires |r.players| == |r.listed|
  {
    && (forall i :: 0 <= i < |r.listed| ==> r.listed[i] in order)
    && (forall i :: 0 <= i < |r.listed| ==> r.listed[i] in players && r.players[i] == players[r.listed[i]])
    && (forall i, j :: 0 <= i < j < |r.players| ==> r.players[i].guid != r.players[j].guid)
  }

  lemma OneMoreEntry(before: Roster, r: Roster, init: seq<uint64>, last: uint64, players: map<uint64, PartyPlayer>)
    requires |before.players| == |before.listed| && EntriesOf(before, init, players)
    requires last in players && !HasGuid(before.players, players[last].guid)
    requires r.players == before.players + [players[last]] && r.listed == before.listed + [last]
    ensures EntriesOf(r, init + [last], players)
  {
  }

  lemma {:induction false} EntriesListed(order: seq<uint64>, players: map<uint64, PartyPlayer>, selfLegacy: uint64)
    requires forall g :: g in order ==> g in players
    ensures EntriesOf(RosterOf(order, players, selfLegacy), order, players)
  {
    if order != [] {
      var init, last := order[..|order| - 1], order[|order| - 1];
      assert last in order && order == init + [last];
      EntriesListed(init, players, selfLegacy);
      var before := RosterOf(init, players, selfLegacy);
      if !HasGuid(before.players, players[last].guid) {
        OneMoreEntry(before, RosterOf(order, players, selfLegacy), init, last, players);
      }
    }
  }

  lemma {:induction false} EveryGuidListed(
    order: seq<uint64>, players: map<uint64, PartyPlayer>, selfLegacy: uint64, g: uint64)
    requires g in order && forall h :: h in order ==> h in players
    ensures HasGuid(RosterOf(order, players, selfLegacy).players, players[g].guid)
  {
    var init, last := order[..|order| - 1], order[|order| - 1];
    assert last in order && order == init + [last];
    if g in init {
      EveryGuidListed(init, players, selfLegacy, g);
    }
    HasGuidBehind(RosterOf(init, players, selfLegacy).players, players[last], players[g].guid);
  }

  /** One entry for each modern GUID of the order, each entry the player of its legacy GUID. */
  lemma RosterEntries(order: seq<uint64>, players: map<uint64, PartyPlayer>, selfLegacy: uint64)
    requires forall g :: g in order ==> g in players
    ensures var r := RosterOf(order, players, selfLegacy);
            && (forall i :: 0 <= i < |r.listed| ==> r.listed[i] in order && r.players[i] == players[r.listed[i]])
            && (forall i, j :: 0 <= i < j < |r.players| ==> r.players[i].guid != r.players[j].guid)
            && (forall g :: g in order ==> HasGuid(r.players, players[g].guid))
  {
    EntriesListed(order, players, selfLegacy);
    forall g | g in order {
      EveryGuidListed(order, players, selfLegacy, g);
    }
  }

  /** Some member before place k of the order has the modern GUID of g. */
  predicate Shadowed(order: seq<uint64>, players: map<uint64, PartyPlayer>, g: uint64, k: nat)
    requires g in players && forall h :: h in order ==> h in players
  {
    exists j :: 0 <= j < k && j < |order| && players[order[j]].guid == players[g].guid
  }

  lemma ShadowedBefore(order: seq<uint64>, players: map<uint64, PartyPlayer>, g: uint64, k: nat)
    requires g in players && forall h :: h in order ==> h in players
    requires k < |order| && forall h :: h in order[..|order| - 1] ==> h in players
    ensures Shadowed(order, players, g, k) <==> Shadowed(order[..|order| - 1], players, g, k)
  {
    var init := order[..|order| - 1];
    assert forall j :: 0 <= j < |init| ==> init[j] == order[j];
  }

  lemma LastIsAnother(order: seq<uint64>, players: map<uint64, PartyPlayer>, selfLegacy: uint64)
    requires order != [] && order[|order| - 1] != selfLegacy && forall g :: g in order ==> g in players
    requires forall g :: g in order[..|order| - 1] ==> g in players
    ensures var (before, r) := (RosterOf(order[..|order| - 1], players, selfLegacy), RosterOf(order, players, selfLegacy));
            r.myIndex == before.myIndex && before.listed <= r.listed
  {
  }

  /** Self is listed, and at its index, iff no member before it has its modern GUID. */
  lemma {:induction false} SelfEntry(order: seq<uint64>, players: map<uint64, PartyPlayer>, selfLegacy: uint64, k: nat)
    requires NoRepeats(order) && k < |order| && order[k] == selfLegacy
    requires forall g :: g in order ==> g in players
    ensures var r := RosterOf(order, players, selfLegacy);
            && (r.myIndex.Some? <==> !Shadowed(order, players, selfLegacy, k))
            && (r.myIndex.Some? ==> r.myIndex.value < |r.listed| && r.listed[r.myIndex.value] == selfLegacy)
    decreases |order|
  {
    var init := order[..|order| - 1];
    InitMembers(order);
    ShadowedBefore(order, players, selfLegacy, k);
    if k < |init| {
      SelfEntry(init, players, selfLegacy, k);
      LastIsAnother(order, players, selfLegacy);
    } else {
      NotYetListed(init, players, selfLegacy);
      ShadowedIffListed(init, players, selfLegacy);
    }
  }

  /** Some member has the modern GUID of g iff the list made of them has it. */
  lemma ShadowedIffListed(order: seq<uint64>, players: map<uint64, PartyPlayer>, g: uint64)
    requires g in players && forall h :: h in order ==> h in players
    ensures Shadowed(order, players, g, |order|)
            <==> HasGuid(RosterOf(order, players, g).players, players[g].guid)
  {
    var r := RosterOf(order, players, g);
    RosterEntries(order, players, g);
    if Shadowed(order, players, g, |order|) {
      var j :| 0 <= j < |order| && players[order[j]].guid == players[g].guid;
      assert order[j] in order;
    }
    if HasGuid(r.players, players[g].guid) {
      var i :| 0 <= i < |r.players| && r.players[i].guid == players[g].guid;
      var j :| 0 <= j < |order| && order[j] == r.listed[i];
      assert players[order[j]].guid == players[g].guid;
    }
  }

  lemma {:induction false} NotYetListed(order: seq<uint64>, players: map<uint64, PartyPlayer>, selfLegacy: uint64)
    requires selfLegacy !in order && forall g :: g in order ==> g in players
    ensures RosterOf(order, players, selfLegacy).myIndex == None
  {
    if order != [] {
      NotYetListed(order[..|order| - 1], players, selfLegacy);
      assert order[|order| - 1] in order;
    }
  }

  lemma InitMembers(order: seq<uint64>)
    requires order != [] && NoRepeats(order)
    ensures NoRepeats(order[..|order| - 1]) && forall g :: g in order[..|order| - 1] ==> g in order
  {
  }

  lemma LastListed(order: seq<uint64>, players: map<uint64, PartyPlayer>, selfLegacy: uint64)
    requires order != [] && forall g :: g in order ==> g in players
    requires forall g :: g in order[..|order| - 1] ==> g in players
    requires !HasGuid(RosterOf(order[..|order| - 1], players, selfLegacy).players, players[order[|order| - 1]].guid)
    ensures RosterOf(order, players, selfLegacy).listed
            == RosterOf(order[..|order| - 1], players, selfLegacy).listed + [order[|order| - 1]]
  {
  }

  /** With distinct modern GUIDs the list has one entry for each member, in the order chosen. */
  lemma {:induction false} DistinctAllListed(order: seq<uint64>, players: map<uint64, PartyPlayer>, selfLegacy: uint64)
    requires NoRepeats(order) && forall g :: g in order ==> g in players
    requires forall g, h :: g in order && h in order && players[g].guid == players[h].guid ==> g == h
    ensures RosterOf(order, players, selfLegacy).listed == order
  {
    if order != [] {
      var init := order[..|order| - 1];
      assert order == init + [order[|order| - 1]];
      InitMembers(order);
      DistinctAllListed(init, players, selfLegacy);
      LastIsNew(order, players, selfLegacy);
      LastListed(order, players, selfLegacy);
    }
  }

  lemma LastIsNew(order: seq<uint64>, players: map<uint64, PartyPlayer>, selfLegacy: uint64)
    requires order != [] && NoRepeats(order) && forall g :: g in order ==> g in players
    requires forall g, h :: g in order && h in order && players[g].guid == players[h].guid ==> g == h
    ensures var init := order[..|order| - 1];
            && (forall g :: g in init ==> g in players)
            && !HasGuid(RosterOf(init, players, selfLegacy).players, players[order[|order| - 1]].guid)
  {
    var init, last := order[..|order| - 1], order[|order| - 1];
    assert last in order && last !in init && forall g :: g in init ==> g in order;
    var before := RosterOf(init, players, selfLegacy);
    RosterEntries(init, players, selfLegacy);
    forall i | 0 <= i < |before.players|
      ensures before.players[i].guid != players[last].guid
    {
      assert before.listed[i] in init;
    }
  }

  /** The list of legacy GUIDs does not depend on whose list it is. */
  lemma {:induction false} ListedForAll(
    order: seq<uint64>, p: map<uint64, PartyPlayer>, q: map<uint64, PartyPlayer>, selfP: uint64, selfQ: uint64)
    requires forall g :: g in order ==> g in p && g in q && p[g].guid == q[g].guid
    ensures var (a, b) := (RosterOf(order, p, selfP), RosterOf(order, q, selfQ));
            && a.listed == b.listed
            && forall i :: 0 <= i < |a.players| ==> a.players[i].guid == b.players[i].guid
  {
    if order != [] {
      var init := order[..|order| - 1];
      assert order[|order| - 1] in order;
      assert forall g :: g in init ==> g in order;
      ListedForAll(init, p, q, selfP, selfQ);
    }
  }
}

/** Battleground queue statuses: the packet, the queue map it updates, the port header made from it. */
module Battlegrounds {
  import opened Wrappers
  import opened Bytes
  import opened Guids
  import opened Reader

  const PORT_CONSTANT: uint16 := 0x1F90
  const QUEUE_MASK: uint64 := 0x1F10_0000_0000_0000
  const INIT_MILLISECONDS: uint32 := 1154756799
  const QUEUED: uint32 := 1
  const CONFIRM: uint32 := 2
  const ACTIVE: uint32 := 3

  // ---------- the status packet ----------

  datatype Head = Head(slot: uint32, arenaType: byte, marker: byte, bgTypeId: uint32)

  datatype Details = Details(minLevel: byte, maxLevel: byte, instanceId: uint32, rated: bool, status: uint32)

  datatype Stage =
    | Queued(average: uint32, wait: uint32)
    | Confirm(mapId: uint32, timeout: uint32)
    | Active(mapId: uint32, shutdown: uint32, start: uint32, faction: byte)

  datatype Status =
    | NoStatus(slot: uint32)
    | Status(head: Head, details: Details, stage: Stage)
  {
    function Slot(): uint32 {
      if NoStatus? then slot else head.slot
    }
  }

  function ReadHead(d: seq<byte>): Read<Head> {
    var slot :- U32(d);
    var arenaType :- U8(slot.rest);
    var marker :- U8(arenaType.rest);
    var bgType :- U32(marker.rest);
    var constant :- U16(bgType.rest);
    Success(Parsed(Head(slot.value, arenaType.value, marker.value, bgType.value), constant.rest))
  }

  function ReadDetails(d: seq<byte>): Read<Details> {
    var minLevel :- U8(d);
    var maxLevel :- U8(minLevel.rest);
    var instance :- U32(maxLevel.rest);
    var rated :- U8(instance.rest);
    var status :- U32(rated.rest);
    Success(Parsed(Details(minLevel.value, maxLevel.value, instance.value, rated.value != 0, status.value), status.rest))
  }

  function ReadQueued(d: seq<byte>): Read<Stage> {
    var average :- U32(d);
    var wait :- U32(average.rest);
    Success(Parsed(Queued(average.value, wait.value), wait.rest))
  }

  function ReadConfirm(d: seq<byte>): Read<Stage> {
    var map_ :- U32(d);
    var padding :- U64(map_.rest);
    var timeout :- U32(padding.rest);
    Success(Parsed(Confirm(map_.value, timeout.value), timeout.rest))
  }

  function ReadActive(d: seq<byte>): Read<Stage> {
    var map_ :- U32(d);
    var padding :- U64(map_.rest);
    var shutdown :- U32(padding.rest);
    var start :- U32(shutdown.rest);
    var faction :- U8(start.rest);
    Success(Parsed(Active(map_.value, shutdown.value, start.value, faction.value), faction.rest))
  }

  function ReadStage(status: uint32, d: seq<byte>): Read<Stage> {
    if status == QUEUED then ReadQueued(d)
    else if status == CONFIRM then ReadConfirm(d)
    else if status == ACTIVE then ReadActive(d)
    else Failure(UnknownStatus(status))
  }

  predicate IsNone(h: Head) {
    h.arenaType == 0 && h.marker == 0 && h.bgTypeId == 0
  }

  function ReadBehind(h: Head, d: seq<byte>): Result<Status, ReadError> {
    if IsNone(h) then Finish(NoStatus(h.slot), d)
    else
      var details :- ReadDetails(d);
      var stage :- ReadStage(details.value.status, details.rest);
      Finish(Status(h, details.value, stage.value), stage.rest)
  }

  function StatusOf(body: seq<byte>): Result<Status, ReadError> {
    var head :- ReadHead(body);
    ReadBehind(head.value, head.rest)
  }

  method ReadStatusStage(r: MovementReader, status: uint32) returns (s: Result<Stage, ReadError>)
    requires r.Valid()
    modifies r`offset
    ensures r.Valid()
    ensures s.Failure? ==> ReadStage(status, old(r.Rest())) == Failure(s.error)
    ensures s.Success? ==> ReadStage(status, old(r.Rest())) == Success(Parsed(s.value, r.Rest()))
  {
    if status == QUEUED {
      var average :- r.ReadU32();
      var wait :- r.ReadU32();
      return Success(Queued(average, wait));
    } else if status == CONFIRM {
      var mapId :- r.ReadU32();
      var _ :- r.ReadU64();
      var timeout :- r.ReadU32();
      return Success(Confirm(mapId, timeout));
    } else if status == ACTIVE {
      var mapId :- r.ReadU32();
      var _ :- r.ReadU64();
      var shutdown :- r.ReadU32();
      var start :- r.ReadU32();
      var faction :- r.ReadU8();
      return Success(Active(mapId, shutdown, start, faction));
    }
    return Failure(UnknownStatus(status));
  }

  method ReadStatusHead(r: MovementReader) returns (h: Result<Head, ReadError>)
    requires r.Valid()
    modifies r`offset
    ensures r.Valid()
    ensures h.Failure? ==> ReadHead(old(r.Rest())) == Failure(h.error)
    ensures h.Success? ==> ReadHead(old(r.Rest())) == Success(Parsed(h.value, r.Rest()))
  {
    var slot :- r.ReadU32();
    var arenaType :- r.ReadU8();
    var marker :- r.ReadU8();
    var bgType :- r.ReadU32();
    var _ :- r.ReadU16();
    return Success(Head(slot, arenaType, marker, bgType));
  }

  method ReadStatusDetails(r: MovementReader) returns (d: Result<Details, ReadError>)
    requires r.Valid()
    modifies r`offset
    ensures r.Valid()
    ensures d.Failure? ==> ReadDetails(old(r.Rest())) == Failure(d.error)
    ensures d.Success? ==> ReadDetails(old(r.Rest())) == Success(Parsed(d.value, r.Rest()))
  {
    var minLevel :- r.ReadU8();
    var maxLevel :- r.ReadU8();
    var instanceId :- r.ReadU32();
    var rated :- r.ReadU8();
    var status :- r.ReadU32();
    return Success(Details(minLevel, maxLevel, instanceId, rated != 0, status));
  }

  method FinishStatus(r: MovementReader, status: Status) returns (s: Result<Status, ReadError>)
    requires r.Valid()
    ensures s == Finish(status, r.Rest())
  {
    if r.Remaining() != 0 {
      return Failure(TrailingBytes);
    }
    return Success(status);
  }

  /** What is behind the head, and that nothing is behind it. */
  method ReadStatusBehind(r: MovementReader, head: Head) returns (s: Result<Status, ReadError>)
    requires r.Valid()
    modifies r`offset
    ensures s == ReadBehind(head, old(r.Rest()))
  {
    if head.arenaType == 0 && head.marker == 0 && head.bgTypeId == 0 {
      s := FinishStatus(r, NoStatus(head.slot));
      return;
    }
    var details :- ReadStatusDetails(r);
    var stage :- ReadStatusStage(r, details.status);
    s := FinishStatus(r, Status(head, details, stage));
  }

  method ParseLegacyBattlefieldStatus(body: seq<byte>) returns (s: Result<Status, ReadError>)
    ensures s == StatusOf(body)
  {
    var r := new MovementReader(body);
    var head :- ReadStatusHead(r);
    s := ReadStatusBehind(r, head);
  }

  // ---------- one status ----------

  datatype Queue = Queue(arenaType: byte, marker: byte, bgTypeId: uint32, joinedAt: int64)

  type Queues = map<uint32, Queue>

  datatype Ticket = Ticket(requester: Guid128, id: uint32, time: int64)

  datatype Packet =
    | StatusNone(ticket: Ticket)
    | StatusQueued(ticket: Ticket, head: Head, details: Details, queueId: uint64, average: uint32, wait: uint32)
    | StatusNeed(ticket: Ticket, head: Head, details: Details, queueId: uint64, mapId: uint32, timeout: uint32)
    | BattlegroundInit(milliseconds: uint32)
    | StatusActive(ticket: Ticket, head: Head, details: Details, queueId: uint64, mapId: uint32, shutdown: uint32,
                   start: uint32, alliance: bool)

  /** Tickets count from one, with the wrap of 32 bits. */
  function TicketOf(slot: uint32): uint32 {
    Truncate32(1 + slot)
  }

  /** The join time that is remembered, unless none is or it is zero. */
  function JoinTime(queues: Queues, id: uint32, now: int64): int64 {
    if id in queues && queues[id].joinedAt != 0 then queues[id].joinedAt else now
  }

  function QueueId(bgTypeId: uint32): uint64 {
    bgTypeId + QUEUE_MASK // no bit in common
  }

  function PacketsFor(s: Status, requester: Guid128, time: int64): seq<Packet> {
    var ticket := Ticket(requester, TicketOf(s.Slot()), time);
    match s
    case NoStatus(_) => [StatusNone(ticket)]
    case Status(head, details, stage) =>
      var id := QueueId(head.bgTypeId);
      match stage
      case Queued(average, wait) => [StatusQueued(ticket, head, details, id, average, wait)]
      case Confirm(mapId, timeout) => [StatusNeed(ticket, head, details, id, mapId, timeout)]
      case Active(mapId, shutdown, start, faction) =>
        (if shutdown == 0 then [BattlegroundInit(INIT_MILLISECONDS)] else [])
        + [StatusActive(ticket, head, details, id, mapId, shutdown, start, faction != 0)]
  }

  function QueuesAfter(s: Status, queues: Queues, now: int64): Queues {
    var id := TicketOf(s.Slot());
    match s
    case NoStatus(_) => queues - {id}
    case Status(head, _, _) =>
      queues[id := Queue(head.arenaType, head.marker, head.bgTypeId, JoinTime(queues, id, now))]
  }

  /** A status packet, and the clock when it comes. */
  datatype Arrival = Arrival(body: seq<byte>, now: int64)

  /** A rejected packet leaves the map as it is. */
  function NextQueues(queues: Queues, a: Arrival): Queues {
    match StatusOf(a.body)
    case Failure(_) => queues
    case Success(s) => QueuesAfter(s, queues, a.now)
  }

  function Translated(body: seq<byte>, requester: Guid128, queues: Queues, now: int64): Result<seq<Packet>, ReadError> {
    var s :- StatusOf(body);
    Success(PacketsFor(s, requester, JoinTime(queues, TicketOf(s.Slot()), now)))
  }

  /** The queue map of a session, shared by reference. */
  class QueueMap {
    var entries: Queues

    constructor ()
      ensures entries == map[]
    {
      entries := map[];
    }
  }

  function EntriesOf(queues: QueueMap?): Queues
    reads queues
  {
    if queues == null then map[] else queues.entries
  }

  /** A nil map is read as empty and remembers nothing; a rejected packet leaves the map as it was. */
  method TranslateLegacyBattlefieldStatus(body: seq<byte>, requester: Guid128, now: int64, queues: QueueMap?)
    returns (packets: Result<seq<Packet>, ReadError>)
    modifies queues
    ensures packets == Translated(body, requester, old(EntriesOf(queues)), now)
    ensures queues != null ==> queues.entries == NextQueues(old(queues.entries), Arrival(body, now))
  {
    var parsed :- ParseLegacyBattlefieldStatus(body);
    var ticketId := Truncate32(1 + parsed.Slot());
    var time := now;
    if queues != null && ticketId in queues.entries && queues.entries[ticketId].joinedAt != 0 {
      time := queues.entries[ticketId].joinedAt;
    }
    var ticket := Ticket(requester, ticketId, time);
    if parsed.NoStatus? {
      if queues != null {
        queues.entries := queues.entries - {ticketId};
      }
      return Success([StatusNone(ticket)]);
    }
    var head, details := parsed.head, parsed.details;
    if queues != null {
      queues.entries := queues.entries[ticketId := Queue(head.arenaType, head.marker, head.bgTypeId, time)];
    }
    var queueId := QueueId(head.bgTypeId);
    var built := [];
    match parsed.stage {
      case Queued(average, wait) =>
        built := [StatusQueued(ticket, head, details, queueId, average, wait)];
      case Confirm(mapId, timeout) =>
        built := [StatusNeed(ticket, head, details, queueId, mapId, timeout)];
      case Active(mapId, shutdown, start, faction) =>
        if shutdown == 0 {
          built := [BattlegroundInit(INIT_MILLISECONDS)];
        }
        built := built + [StatusActive(ticket, head, details, queueId, mapId, shutdown, start, faction != 0)];
    }
    return Success(built);
  }

  // ---------- the port header ----------

  datatype QueueError = UnknownTicket(id: uint32)

  method RequireBattlegroundQueue(queues: QueueMap?, ticketId: uint32) returns (q: Result<Queue, QueueError>)
    ensures q == if ticketId in EntriesOf(queues) then Success(EntriesOf(queues)[ticketId]) else Failure(UnknownTicket(ticketId))
  {
    if queues == null || ticketId !in queues.entries {
      return Failure(UnknownTicket(ticketId));
    }
    return Success(queues.entries[ticketId]);
  }

  function PortHeader(q: Queue, accept: bool): seq<byte> {
    [q.arenaType, q.marker] + LittleBytes(q.bgTypeId, 4) + LittleBytes(PORT_CONSTANT, 2) + [if accept then 1 else 0]
  }

  // ---------- whole runs ----------

  function QueuesOver(run: seq<Arrival>): Queues {
    if run == [] then map[]
    else NextQueues(QueuesOver(run[..|run| - 1]), run[|run| - 1])
  }

  /** The arrivals of the stay a slot is in: its accepted statuses since the last "none". */
  function Stay(run: seq<Arrival>, slot: uint32): seq<Arrival> {
    if run == [] then []
    else
      var before, last := Stay(run[..|run| - 1], slot), run[|run| - 1];
      match StatusOf(last.body)
      case Failure(_) => before
      case Success(s) =>
        if s.Slot() != slot then before else if s.NoStatus? then [] else before + [last]
  }

  /** The first clock of a stay that is not zero; zero when none is. */
  function JoinedAt(stay: seq<Arrival>): int64 {
    if stay == [] then 0 else if stay[0].now != 0 then stay[0].now else JoinedAt(stay[1..])
  }

  predicate IsStay(stay: seq<Arrival>) {
    forall i :: 0 <= i < |stay| ==> StatusOf(stay[i].body).Success? && StatusOf(stay[i].body).value.Status?
  }

  lemma {:induction false} JoinedAtAppend(stay: seq<Arrival>, last: Arrival)
    ensures JoinedAt(stay + [last]) == if JoinedAt(stay) != 0 then JoinedAt(stay) else last.now
  {
    if stay != [] {
      JoinedAtAppend(stay[1..], last);
      assert (stay + [last])[1..] == stay[1..] + [last];
    } else {
      assert stay + [last] == [last];
    }
  }

  /** What a stay leaves in the map: the head of its last status, the time of its first. */
  function QueueOf(stay: seq<Arrival>): Queue
    requires stay != [] && IsStay(stay)
  {
    var head := StatusOf(stay[|stay| - 1].body).value.head;
    Queue(head.arenaType, head.marker, head.bgTypeId, JoinedAt(stay))
  }

  lemma DistinctTickets(a: uint32, b: uint32)
    ensures TicketOf(a) == TicketOf(b) <==> a == b
  {
  }

  /** The map holds exactly the slots that are in a stay, each with what its stay leaves. */
  ghost predicate HoldsStay(queues: Queues, stay: seq<Arrival>, slot: uint32) {
    && IsStay(stay)
    && (TicketOf(slot) in queues <==> stay != [])
    && (stay != [] ==> queues[TicketOf(slot)] == QueueOf(stay))
  }

  lemma StepHolds(s: Status, last: Arrival, queues: Queues, stay: seq<Arrival>, slot: uint32)
    requires StatusOf(last.body) == Success(s) && HoldsStay(queues, stay, slot)
    ensures HoldsStay(QueuesAfter(s, queues, last.now),
                      if s.Slot() != slot then stay else if s.NoStatus? then [] else stay + [last], slot)
  {
    DistinctTickets(s.Slot(), slot);
    JoinedAtAppend(stay, last);
  }

  /** Exactly the slots whose last accepted status was not "none" are remembered: its header, and the join time of the stay. */
  lemma {:induction false} QueuesHoldStays(run: seq<Arrival>, slot: uint32)
    ensures HoldsStay(QueuesOver(run), Stay(run, slot), slot)
  {
    if run != [] {
      var last := run[|run| - 1];
      QueuesHoldStays(run[..|run| - 1], slot);
      if StatusOf(last.body).Success? {
        StepHolds(StatusOf(last.body).value, last, QueuesOver(run[..|run| - 1]), Stay(run[..|run| - 1], slot), slot);
      }
    }
  }

  /** The slot a ticket is for. */
  function SlotOf(id: uint32): uint32 {
    if id == 0 then 0xffff_ffff else id - 1
  }

  /** A ticket is known iff its slot is in a stay: no other ticket ever is. */
  lemma KnownTickets(run: seq<Arrival>, id: uint32)
    ensures id in QueuesOver(run) <==> Stay(run, SlotOf(id)) != []
  {
    QueuesHoldStays(run, SlotOf(id));
    KnownIff(QueuesOver(run), Stay(run, SlotOf(id)), SlotOf(id));
    TicketOfSlot(id);
  }

  lemma KnownIff(queues: Queues, stay: seq<Arrival>, slot: uint32)
    requires HoldsStay(queues, stay, slot)
    ensures TicketOf(slot) in queues <==> stay != []
  {
  }

  lemma TicketOfSlot(id: uint32)
    ensures TicketOf(SlotOf(id)) == id
  {
  }

  predicate ClockRuns(arrivals: seq<Arrival>) {
    forall i :: 0 <= i < |arrivals| ==> arrivals[i].now != 0
  }

  predicate TimeOf(packets: seq<Packet>, requester: Guid128, id: uint32, time: int64) {
    forall i :: 0 <= i < |packets| ==> packets[i].BattlegroundInit? || packets[i].ticket == Ticket(requester, id, time)
  }

  lemma PacketTimes(s: Status, requester: Guid128, time: int64)
    ensures TimeOf(PacketsFor(s, requester, time), requester, TicketOf(s.Slot()), time)
  {
  }

  lemma JoinTimeOfStay(queues: Queues, stay: seq<Arrival>, slot: uint32, last: Arrival)
    requires HoldsStay(queues, stay, slot)
    ensures JoinTime(queues, TicketOf(slot), last.now) == JoinedAt(stay + [last])
  {
    JoinedAtAppend(stay, last);
  }

  lemma TranslatedIs(s: Status, body: seq<byte>, requester: Guid128, queues: Queues, now: int64)
    requires StatusOf(body) == Success(s)
    ensures Translated(body, requester, queues, now)
            == Success(PacketsFor(s, requester, JoinTime(queues, TicketOf(s.Slot()), now)))
  {
  }

  /** Every ticket of a stay, and of the "none" that ends it, carries its join time: with a clock that runs, its first. */
  lemma TicketsCarryJoinTime(run: seq<Arrival>, last: Arrival, s: Status, requester: Guid128)
    requires StatusOf(last.body) == Success(s)
    ensures var packets := Translated(last.body, requester, QueuesOver(run), last.now);
            packets.Success?
            && TimeOf(packets.value, requester, TicketOf(s.Slot()), JoinedAt(Stay(run, s.Slot()) + [last]))
    ensures var stay := Stay(run, s.Slot()) + [last]; ClockRuns(stay) ==> JoinedAt(stay) == stay[0].now
  {
    QueuesHoldStays(run, s.Slot());
    JoinTimeOfStay(QueuesOver(run), Stay(run, s.Slot()), s.Slot(), last);
    TranslatedIs(s, last.body, requester, QueuesOver(run), last.now);
    PacketTimes(s, requester, JoinedAt(Stay(run, s.Slot()) + [last]));
  }

  /** Where the head of a status lies in its packet. */
  lemma HeadInBody(body: seq<byte>)
    requires ReadHead(body).Success?
    ensures var h := ReadHead(body).value.value;
            |body| >= 12 && body[4..10] == [h.arenaType, h.marker] + LittleBytes(h.bgTypeId, 4)
            && LittleBytes(h.slot, 4) == body[..4]
  {
    assert body[4..][1..] == body[5..] && body[5..][1..] == body[6..];
    assert body[6..][..4] == body[6..10];
    assert body[6..][4..] == body[10..];
    LittleBytesOfValue(body[6..10]);
    LittleBytesOfValue(body[..4]);
  }

  lemma HeadOfStatus(body: seq<byte>)
    requires StatusOf(body).Success? && StatusOf(body).value.Status?
    ensures ReadHead(body).Success? && StatusOf(body).value.head == ReadHead(body).value.value
  {
  }

  lemma PortBytes()
    ensures LittleBytes(PORT_CONSTANT, 2) == [0x90, 0x1F]
  {
    var high := LittleBytes(PORT_CONSTANT / 256, 1);
    assert high == [0x1F] + LittleBytes(0, 0);
    assert LittleBytes(PORT_CONSTANT, 2) == [0x90] + high;
  }

  lemma HeaderOfStay(queues: Queues, stay: seq<Arrival>, slot: uint32, accept: bool)
    requires HoldsStay(queues, stay, slot) && stay != []
    ensures var last := stay[|stay| - 1].body;
            && TicketOf(slot) in queues && |last| >= 12
            && PortHeader(queues[TicketOf(slot)], accept)
               == last[4..10] + [0x90, 0x1F] + [if accept then 1 else 0]
  {
    HeadOfStatus(stay[|stay| - 1].body);
    HeadInBody(stay[|stay| - 1].body);
    PortBytes();
  }

  /** The port header of a queued slot echoes the type bytes of the slot's last status packet. */
  lemma PortEchoesLastStatus(run: seq<Arrival>, slot: uint32, accept: bool)
    requires Stay(run, slot) != []
    ensures var last := Stay(run, slot)[|Stay(run, slot)| - 1].body;
            && TicketOf(slot) in QueuesOver(run) && |last| >= 12
            && PortHeader(QueuesOver(run)[TicketOf(slot)], accept)
               == last[4..10] + [0x90, 0x1F] + [if accept then 1 else 0]
  {
    QueuesHoldStays(run, slot);
    HeaderOfStay(QueuesOver(run), Stay(run, slot), slot, accept);
  }
}

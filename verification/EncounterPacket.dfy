/** Encounter frame packets as bytes. */
module EncounterPackets {
  import opened Wrappers
  import opened Bytes
  import opened Guids
  import opened PackedGuids
  import opened Encounters

  /** The opcode of engage; the other kinds follow it. */
  const ENGAGE_UNIT: nat := 0x27B0

  function Opcode(p: Packet): nat {
    ENGAGE_UNIT + p.kind
  }

  method EncounterFramePacket(kind: nat, guid: Guid128, priority: byte) returns (opcode: nat, body: seq<byte>)
    ensures opcode == Opcode(Packet(kind, guid, priority)) && body == PacketBody(Packet(kind, guid, priority))
  {
    body := AppendPackedGuid128([], guid.low, guid.high);
    assert [] + Packed(guid) == Packed(guid);
    if kind != DISENGAGE {
      body := body + [priority];
    }
    opcode := ENGAGE_UNIT + kind;
  }

  function PacketBody(p: Packet): seq<byte> {
    if p.kind == DISENGAGE then Packed(p.guid) else Packed(p.guid) + [p.priority]
  }

  /** Engage, disengage and priority: three opcodes, and no priority byte for a disengage. */
  lemma PacketBytes(guid: Guid128, priority: byte)
    ensures Opcode(Packet(ENGAGE, guid, priority)) == 0x27B0
            && PacketBody(Packet(ENGAGE, guid, priority)) == Packed(guid) + [priority]
    ensures Opcode(Packet(DISENGAGE, guid, priority)) == 0x27B1 && PacketBody(Packet(DISENGAGE, guid, priority)) == Packed(guid)
    ensures Opcode(Packet(PRIORITY, guid, priority)) == 0x27B2
            && PacketBody(Packet(PRIORITY, guid, priority)) == Packed(guid) + [priority]
  {
  }

  /** What a client reads: a packed GUID, then the priority unless the unit is disengaged. */
  function PacketOf(opcode: nat, body: seq<byte>): Option<Packet> {
    if opcode < ENGAGE_UNIT || opcode > ENGAGE_UNIT + PRIORITY then None
    else PacketBehind(opcode - ENGAGE_UNIT, ReadPacked(body), body)
  }

  function PacketBehind(kind: nat, guid: Result<Consumed, PackError>, body: seq<byte>): Option<Packet>
    requires guid.Success? ==> guid.value.size <= |body|
  {
    if guid.Failure? then None
    else
      var rest := body[guid.value.size..];
      if kind == DISENGAGE then if rest == [] then Some(Packet(kind, guid.value.guid, 0)) else None
      else if |rest| == 1 then Some(Packet(kind, guid.value.guid, rest[0]))
      else None
  }

  /** The three kinds, a disengage without a priority. */
  predicate WellFormed(p: Packet) {
    p.kind <= PRIORITY && (p.kind == DISENGAGE ==> p.priority == 0)
  }

  lemma BehindRead(p: Packet, packed: seq<byte>, body: seq<byte>)
    requires WellFormed(p)
    requires body == packed + if p.kind == DISENGAGE then [] else [p.priority]
    ensures PacketBehind(p.kind, Success(Consumed(p.guid, |packed|)), body) == Some(p)
  {
  }

  /** Every packet that is sent is read as itself. */
  lemma PacketRoundTrip(p: Packet)
    requires WellFormed(p)
    ensures PacketOf(Opcode(p), PacketBody(p)) == Some(p)
  {
    var rest := if p.kind == DISENGAGE then [] else [p.priority];
    assert PacketBody(p) == Packed(p.guid) + rest;
    PackedRoundTrip(p.guid, rest);
    BehindRead(p, Packed(p.guid), PacketBody(p));
  }

  /** And every packet that is emitted, in any state, is such a packet. */
  lemma EmittedAreWellFormed(frames: FrameMap, e: Event, resolve: Resolver)
    ensures forall p :: p in AppliedPackets(frames, e, resolve) ==> WellFormed(p)
    ensures forall p :: p in FlushPackets(frames, resolve) ==> WellFormed(p)
  {
  }
}

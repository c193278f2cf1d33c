/** Boss frames kept in step between server and client across visibility loss and refresh. */
module Encounters {
  import opened Wrappers
  import opened Bytes
  import opened Guids
  import opened Sorting

  const ENGAGE: nat := 0
  const DISENGAGE: nat := 1
  const PRIORITY: nat := 2
  const REFRESH: nat := 7

  datatype Event = Event(kind: uint32, guid: uint64, param1: byte, param2: byte)

  datatype Frame = Frame(priority: byte, sentGuid: Guid128, pending: bool)

  /** A unit-frame packet: engage, disengage (which carries no priority) or change of priority. */
  datatype Packet = Packet(kind: nat, guid: Guid128, priority: byte)

  type Resolver = uint64 -> Option<Guid128>
  type FrameMap = map<uint64, Frame>

  function ById(g: uint64): nat {
    g
  }

  const NO_FRAME: Frame := Frame(0, NO_GUID, false)

  // ---------- what one call does ----------

  function AllPending(frames: FrameMap): FrameMap {
    map g | g in frames :: frames[g].(pending := true)
  }

  /** The pending frames that can be sent now. */
  function Sendable(frames: FrameMap, resolve: Resolver): set<uint64> {
    set g | g in frames && frames[g].pending && resolve(g).Some?
  }

  function FlushedFrames(frames: FrameMap, resolve: Resolver): FrameMap {
    map g | g in frames ::
      if frames[g].pending && resolve(g).Some? then Frame(frames[g].priority, resolve(g).value, false) else frames[g]
  }

  function EngagePackets(frames: FrameMap, resolve: Resolver, ids: seq<uint64>): (ps: seq<Packet>)
    ensures |ps| == |ids|
  {
    seq(|ids|, i requires 0 <= i < |ids| => EngagePacket(frames, resolve, ids[i]))
  }

  /** An engage packet for each sendable frame, in ascending order of legacy GUID. */
  function FlushPackets(frames: FrameMap, resolve: Resolver): seq<Packet> {
    EngagePackets(frames, resolve, SortedOf(Sendable(frames, resolve), ById))
  }

  function EngagePacket(frames: FrameMap, resolve: Resolver, g: uint64): Packet {
    if g in frames && resolve(g).Some? then Packet(ENGAGE, resolve(g).value, frames[g].priority)
    else Packet(ENGAGE, NO_GUID, 0)
  }

  function AppliedFrames(frames: FrameMap, e: Event, resolve: Resolver): FrameMap {
    if e.kind == REFRESH then FlushedFrames(AllPending(frames), resolve)
    else if e.kind > PRIORITY then frames
    else if e.kind == DISENGAGE then frames - {e.guid}
    else if e.kind == PRIORITY && e.guid !in frames then frames
    else
      var sent := if e.guid in frames then frames[e.guid].sentGuid else NO_GUID;
      var r := resolve(e.guid);
      frames[e.guid := if r.Some? then Frame(e.param1, r.value, false) else Frame(e.param1, sent, true)]
  }

  function AppliedPackets(frames: FrameMap, e: Event, resolve: Resolver): seq<Packet> {
    var r := resolve(e.guid);
    if e.kind == REFRESH then FlushPackets(AllPending(frames), resolve)
    else if e.kind > PRIORITY then []
    else if e.kind == DISENGAGE then
      if r.Some? then [Packet(DISENGAGE, r.value, 0)]
      else if e.guid in frames && frames[e.guid].sentGuid != NO_GUID then [Packet(DISENGAGE, frames[e.guid].sentGuid, 0)]
      else []
    else if r.None? || (e.kind == PRIORITY && e.guid !in frames) then []
    else
      var kind := if e.kind == PRIORITY && frames[e.guid].pending then ENGAGE else e.kind;
      [Packet(kind, r.value, e.param1)]
  }

  function HiddenFrames(frames: FrameMap, g: uint64): FrameMap {
    if g in frames then frames[g := frames[g].(pending := true)] else frames
  }

  // ---------- the frames, updated in place ----------

  class EncounterFrames {
    var frames: FrameMap

    constructor ()
      ensures frames == map[]
    {
      frames := map[];
    }

    method Apply(e: Event, resolve: Resolver) returns (out: seq<Packet>)
      modifies this
      ensures frames == AppliedFrames(old(frames), e, resolve)
      ensures out == AppliedPackets(old(frames), e, resolve)
    {
      if e.kind == REFRESH {
        MarkAllPending();
        out := Flush(resolve);
        return;
      }
      if e.kind > PRIORITY {
        return [];
      }
      if e.kind == DISENGAGE {
        var previous := if e.guid in frames then frames[e.guid] else NO_FRAME;
        frames := frames - {e.guid};
        var guid := resolve(e.guid);
        if guid.Some? {
          return [Packet(DISENGAGE, guid.value, 0)];
        }
        if previous.sentGuid != NO_GUID {
          return [Packet(DISENGAGE, previous.sentGuid, 0)];
        }
        return [];
      }
      var exists_ := e.guid in frames;
      var frame := if exists_ then frames[e.guid] else NO_FRAME;
      if e.kind == PRIORITY && !exists_ {
        return [];
      }
      var kind := e.kind;
      if kind == PRIORITY && frame.pending {
        kind := ENGAGE; // visibility was lost, or the first engagement was never sent
      }
      frame := frame.(priority := e.param1, pending := true);
      frames := frames[e.guid := frame];
      var guid := resolve(e.guid);
      if guid.Some? {
        frame := frame.(pending := false, sentGuid := guid.value);
        frames := frames[e.guid := frame];
        return [Packet(kind, guid.value, e.param1)];
      }
      return [];
    }

    method MarkAllPending()
      modifies this
      ensures frames == AllPending(old(frames))
    {
      var todo := frames.Keys;
      while todo != {}
        invariant todo <= old(frames).Keys == frames.Keys
        invariant forall g :: g in frames ==>
                    frames[g] == if g in todo then old(frames)[g] else old(frames)[g].(pending := true)
        decreases |todo|
      {
        var g :| g in todo;
        todo := todo - {g};
        frames := frames[g := frames[g].(pending := true)];
      }
    }

    method Hide(g: uint64)
      modifies this
      ensures frames == HiddenFrames(old(frames), g)
    {
      if g in frames {
        frames := frames[g := frames[g].(pending := true)];
      }
    }

    /** The GUIDs of pending frames, in whatever order the map gives them. */
    method PendingIds() returns (ids: seq<uint64>)
      ensures DistinctBy(ids, ById)
      ensures forall g :: g in ids <==> g in frames && frames[g].pending
    {
      ids := [];
      var todo := frames.Keys;
      while todo != {}
        invariant todo <= frames.Keys
        invariant DistinctBy(ids, ById)
        invariant forall g :: g in ids <==> g in frames && g !in todo && frames[g].pending
        decreases |todo|
      {
        var g :| g in todo;
        todo := todo - {g};
        if frames[g].pending {
          ids := ids + [g];
        }
      }
    }

    method Flush(resolve: Resolver) returns (out: seq<Packet>)
      modifies this
      ensures frames == FlushedFrames(old(frames), resolve)
      ensures out == FlushPackets(old(frames), resolve)
    {
      var pending := PendingIds();
      var ids := SortBy(pending, ById);
      out := [];
      for i := 0 to |ids|
        invariant frames == SentFrames(old(frames), resolve, ids[..i])
        invariant out == EngagePackets(old(frames), resolve, Resolved(ids[..i], resolve))
      {
        var id := ids[i];
        OneMoreSent(old(frames), resolve, ids, i);
        OneMorePacket(old(frames), resolve, ids, i);
        var guid := resolve(id);
        if guid.Some? {
          var frame := frames[id];
          out := out + [Packet(ENGAGE, guid.value, frame.priority)];
          frames := frames[id := frame.(pending := false, sentGuid := guid.value)];
        }
      }
      assert ids[..|ids|] == ids;
      ResolvedIsSorted(old(frames), resolve, ids);
      SentAreFlushed(old(frames), resolve, ids);
    }
  }

  /** The frames after those of ids were sent as far as they resolve. */
  function SentFrames(frames: FrameMap, resolve: Resolver, ids: seq<uint64>): FrameMap {
    map g | g in frames ::
      if g in ids && resolve(g).Some? then Frame(frames[g].priority, resolve(g).value, false) else frames[g]
  }

  function Resolved(ids: seq<uint64>, resolve: Resolver): seq<uint64> {
    if ids == [] then []
    else
      var last := ids[|ids| - 1];
      Resolved(ids[..|ids| - 1], resolve) + if resolve(last).Some? then [last] else []
  }

  lemma NotBefore(ids: seq<uint64>, i: nat)
    requires i < |ids| && AscendingBy(ids, ById)
    ensures forall g :: g in ids[..i] ==> g < ids[i]
    ensures ids[..i + 1] == ids[..i] + [ids[i]]
  {
  }

  lemma OneMoreSent(frames: FrameMap, resolve: Resolver, ids: seq<uint64>, i: nat)
    requires i < |ids| && AscendingBy(ids, ById) && ids[i] in frames
    ensures var (id, before, r) := (ids[i], SentFrames(frames, resolve, ids[..i]), resolve(ids[i]));
            && id in before && before[id] == frames[id]
            && SentFrames(frames, resolve, ids[..i + 1])
               == if r.Some? then before[id := Frame(frames[id].priority, r.value, false)] else before
  {
  }

  lemma OneMorePacket(frames: FrameMap, resolve: Resolver, ids: seq<uint64>, i: nat)
    requires i < |ids| && ids[i] in frames
    ensures var (before, r) := (EngagePackets(frames, resolve, Resolved(ids[..i], resolve)), resolve(ids[i]));
            EngagePackets(frames, resolve, Resolved(ids[..i + 1], resolve))
            == if r.Some? then before + [Packet(ENGAGE, r.value, frames[ids[i]].priority)] else before
  {
    assert ids[..i + 1][..i] == ids[..i];
    var before := Resolved(ids[..i], resolve);
    assert Resolved(ids[..i + 1], resolve) == before + if resolve(ids[i]).Some? then [ids[i]] else [];
  }

  lemma {:induction false} ResolvedElements(ids: seq<uint64>, resolve: Resolver)
    requires AscendingBy(ids, ById)
    ensures AscendingBy(Resolved(ids, resolve), ById)
    ensures forall g :: g in Resolved(ids, resolve) <==> g in ids && resolve(g).Some?
  {
    if ids != [] {
      var n := |ids| - 1;
      NotBefore(ids, n);
      ResolvedElements(ids[..n], resolve);
      assert ids == ids[..n] + [ids[n]];
      AscendingAppend(Resolved(ids[..n], resolve), ids[n], ById);
    }
  }

  lemma ResolvedIsSorted(frames: FrameMap, resolve: Resolver, ids: seq<uint64>)
    requires AscendingBy(ids, ById)
    requires forall g :: g in ids <==> g in frames && frames[g].pending
    ensures Resolved(ids, resolve) == SortedOf(Sendable(frames, resolve), ById)
  {
    ResolvedElements(ids, resolve);
    SortedOfUnique(Resolved(ids, resolve), Sendable(frames, resolve), ById);
  }

  lemma SentAreFlushed(frames: FrameMap, resolve: Resolver, ids: seq<uint64>)
    requires forall g :: g in ids <==> g in frames && frames[g].pending
    ensures SentFrames(frames, resolve, ids) == FlushedFrames(frames, resolve)
  {
  }
}

/** Whole runs: the packets emitted, folded by a client, keep it in step with the server. */
module EncounterRuns {
  import opened Wrappers
  import opened Bytes
  import opened Guids
  import opened Sorting
  import opened Encounters

  /** The engaged units a client shows, with their priorities. */
  type Client = map<Guid128, byte>
  /** The engaged units the server holds. */
  type Server = map<uint64, byte>

  function Deliver(client: Client, p: Packet): Client {
    if p.kind == ENGAGE then client[p.guid := p.priority]
    else if p.kind == DISENGAGE then client - {p.guid}
    else if p.guid in client then client[p.guid := p.priority]
    else client
  }

  function DeliverAll(client: Client, ps: seq<Packet>): Client {
    if ps == [] then client else Deliver(DeliverAll(client, ps[..|ps| - 1]), ps[|ps| - 1])
  }

  /** No change of priority arrives for a unit the client does not hold. */
  ghost predicate Accepts(client: Client, ps: seq<Packet>) {
    forall i :: 0 <= i < |ps| && ps[i].kind == PRIORITY ==> ps[i].guid in DeliverAll(client, ps[..i])
  }

  function Serve(server: Server, e: Event): Server {
    if e.kind == ENGAGE then server[e.guid := e.param1]
    else if e.kind == DISENGAGE then server - {e.guid}
    else if e.kind == PRIORITY && e.guid in server then server[e.guid := e.param1]
    else server
  }

  /** What happens in a session; each call comes with the resolver it is made with. */
  datatype Step = OnEvent(e: Event, resolve: Resolver) | OnHide(g: uint64) | OnFlush(resolve: Resolver)

  datatype Session = Session(frames: FrameMap, client: Client, server: Server)

  const START: Session := Session(map[], map[], map[])

  function Emitted(frames: FrameMap, step: Step): seq<Packet> {
    match step
    case OnEvent(e, resolve) => AppliedPackets(frames, e, resolve)
    case OnHide(g) => []
    case OnFlush(resolve) => FlushPackets(frames, resolve)
  }

  function FramesAfter(frames: FrameMap, step: Step): FrameMap {
    match step
    case OnEvent(e, resolve) => AppliedFrames(frames, e, resolve)
    case OnHide(g) => HiddenFrames(frames, g)
    case OnFlush(resolve) => FlushedFrames(frames, resolve)
  }

  function Next(s: Session, step: Step): Session {
    Session(FramesAfter(s.frames, step), DeliverAll(s.client, Emitted(s.frames, step)),
            if step.OnEvent? then Serve(s.server, step.e) else s.server)
  }

  function Run(steps: seq<Step>): Session {
    if |steps| == 0 then START else Next(Run(steps[..|steps| - 1]), steps[|steps| - 1])
  }

  // ---------- in step ----------

  /** The modern GUIDs that live frames were sent under. */
  function SentGuids(frames: FrameMap): set<Guid128> {
    set g | g in frames && frames[g].sentGuid != NO_GUID :: frames[g].sentGuid
  }

  function Sent(frames: FrameMap, g: uint64): Guid128 {
    if g in frames then frames[g].sentGuid else NO_GUID
  }

  /** Frame and server agree on unit g, and so does the client unless the frame is pending. */
  ghost predicate UnitInStep(s: Session, g: uint64) {
    && (g in s.frames <==> g in s.server)
    && (g in s.frames ==> s.frames[g].priority == s.server[g])
    && (g in s.frames && !s.frames[g].pending ==>
          && s.frames[g].sentGuid != NO_GUID
          && s.frames[g].sentGuid in s.client && s.client[s.frames[g].sentGuid] == s.server[g])
  }

  /** No two frames were sent under one GUID. */
  ghost predicate DistinctSent(frames: FrameMap) {
    forall g, h :: g in frames && h in frames && frames[g].sentGuid == frames[h].sentGuid != NO_GUID ==> g == h
  }

  /** The client shows exactly what live frames were sent under. */
  ghost predicate KeysAgree(s: Session) {
    s.client.Keys == SentGuids(s.frames)
  }

  ghost predicate InStep(s: Session) {
    KeysAgree(s) && DistinctSent(s.frames) && forall g :: UnitInStep(s, g)
  }

  // ---------- what a step resolves ----------

  function ResolverOf(step: Step): Resolver {
    if step.OnHide? then (g: uint64) => None else step.resolve
  }

  /** The units a step gets a modern GUID for. */
  function ResolvedUnits(frames: FrameMap, step: Step): set<uint64> {
    match step
    case OnHide(_) => {}
    case OnFlush(resolve) => Sendable(frames, resolve)
    case OnEvent(e, resolve) =>
      if e.kind == REFRESH then Sendable(AllPending(frames), resolve)
      else if e.kind > PRIORITY || resolve(e.guid).None? || (e.kind == PRIORITY && e.guid !in frames) then {}
      else {e.guid}
  }

  function GuidFor(step: Step, g: uint64): Guid128 {
    if ResolverOf(step)(g).Some? then ResolverOf(step)(g).value else NO_GUID
  }

  /** A resolved GUID is no other unit's: neither one it was sent under, nor one resolved in the same step. */
  ghost predicate NoCollision(frames: FrameMap, step: Step) {
    forall g :: g in ResolvedUnits(frames, step) && GuidFor(step, g) != NO_GUID ==>
      && (forall h :: h in frames && frames[h].sentGuid == GuidFor(step, g) ==> h == g)
      && (forall h :: h in ResolvedUnits(frames, step) && GuidFor(step, h) == GuidFor(step, g) ==> h == g)
  }

  predicate IsDisengage(step: Step) {
    step.OnEvent? && step.e.kind == DISENGAGE
  }

  /** A unit that was sent is resolved to the GUID it was sent under, and none is engaged under the zero GUID. */
  ghost predicate KeepsGuids(frames: FrameMap, step: Step) {
    forall g :: g in ResolvedUnits(frames, step) ==>
      && (Sent(frames, g) == NO_GUID || Sent(frames, g) == GuidFor(step, g))
      && (GuidFor(step, g) == NO_GUID ==> IsDisengage(step))
  }

  // ---------- one event ----------

  lemma DeliverOne(client: Client, p: Packet)
    ensures DeliverAll(client, [p]) == Deliver(client, p)
  {
  }

  /** Some frame but g's was sent under m. */
  ghost predicate SentToOther(frames: FrameMap, g: uint64, m: Guid128) {
    m != NO_GUID && exists h :: h in frames && h != g && frames[h].sentGuid == m
  }

  lemma SentSplit(frames: FrameMap, g: uint64, m: Guid128)
    ensures m in SentGuids(frames) <==> (m != NO_GUID && Sent(frames, g) == m) || SentToOther(frames, g, m)
  {
    if m in SentGuids(frames) {
      var h :| h in frames && frames[h].sentGuid == m && m != NO_GUID;
    }
  }

  /** An event about one unit leaves the frames of all others as they are. */
  lemma OthersKept(frames: FrameMap, e: Event, resolve: Resolver, m: Guid128)
    requires e.kind != REFRESH
    ensures SentToOther(AppliedFrames(frames, e, resolve), e.guid, m) <==> SentToOther(frames, e.guid, m)
  {
    var after := AppliedFrames(frames, e, resolve);
    assert forall h :: h != e.guid ==> (h in after <==> h in frames) && (h in frames ==> after[h] == frames[h]);
  }

  lemma EventClient(s: Session, e: Event, resolve: Resolver)
    requires e.kind != REFRESH
    ensures var out := AppliedPackets(s.frames, e, resolve);
            DeliverAll(s.client, out) == if out == [] then s.client else Deliver(s.client, out[0])
  {
    var out := AppliedPackets(s.frames, e, resolve);
    if out != [] {
      assert out == [out[0]];
      DeliverOne(s.client, out[0]);
    }
  }

  /** The GUID of an event's unit, sent or resolved, is no other unit's. */
  lemma OwnGuids(s: Session, e: Event, resolve: Resolver)
    requires e.kind != REFRESH && DistinctSent(s.frames) && NoCollision(s.frames, OnEvent(e, resolve))
    ensures !SentToOther(s.frames, e.guid, Sent(s.frames, e.guid)) || e.guid !in s.frames
    ensures e.guid in ResolvedUnits(s.frames, OnEvent(e, resolve)) ==>
              !SentToOther(s.frames, e.guid, resolve(e.guid).value)
  {
    if e.guid in ResolvedUnits(s.frames, OnEvent(e, resolve)) {
      assert GuidFor(OnEvent(e, resolve), e.guid) == resolve(e.guid).value;
    }
  }

  lemma EventKeepsKey(s: Session, e: Event, resolve: Resolver, m: Guid128)
    requires e.kind != REFRESH && KeysAgree(s) && DistinctSent(s.frames) && UnitInStep(s, e.guid)
    requires NoCollision(s.frames, OnEvent(e, resolve)) && KeepsGuids(s.frames, OnEvent(e, resolve))
    ensures m in Next(s, OnEvent(e, resolve)).client <==> m in SentGuids(Next(s, OnEvent(e, resolve)).frames)
  {
    var after := AppliedFrames(s.frames, e, resolve);
    EventClient(s, e, resolve);
    OwnGuids(s, e, resolve);
    SentSplit(s.frames, e.guid, m);
    SentSplit(after, e.guid, m);
    OthersKept(s.frames, e, resolve, m);
    if e.guid in ResolvedUnits(s.frames, OnEvent(e, resolve)) {
      assert GuidFor(OnEvent(e, resolve), e.guid) == resolve(e.guid).value;
    }
  }

  lemma EventBreaksKey(s: Session, e: Event, resolve: Resolver)
    requires e.kind != REFRESH && KeysAgree(s) && DistinctSent(s.frames) && UnitInStep(s, e.guid)
    requires NoCollision(s.frames, OnEvent(e, resolve)) && !KeepsGuids(s.frames, OnEvent(e, resolve))
    ensures !KeysAgree(Next(s, OnEvent(e, resolve)))
  {
    var after, g := AppliedFrames(s.frames, e, resolve), e.guid;
    var sent := Sent(s.frames, g);
    EventClient(s, e, resolve);
    OwnGuids(s, e, resolve);
    assert g in ResolvedUnits(s.frames, OnEvent(e, resolve));
    assert GuidFor(OnEvent(e, resolve), g) == resolve(g).value;
    SentSplit(s.frames, g, sent);
    SentSplit(after, g, sent);
    OthersKept(s.frames, e, resolve, sent);
    assert sent in Next(s, OnEvent(e, resolve)).client.Keys || NO_GUID in Next(s, OnEvent(e, resolve)).client.Keys;
  }

  lemma EventUnit(s: Session, e: Event, resolve: Resolver, g: uint64)
    requires e.kind != REFRESH && InStep(s)
    requires NoCollision(s.frames, OnEvent(e, resolve)) && KeepsGuids(s.frames, OnEvent(e, resolve))
    ensures UnitInStep(Next(s, OnEvent(e, resolve)), g)
  {
    assert UnitInStep(s, e.guid) && UnitInStep(s, g);
    EventClient(s, e, resolve);
    OwnGuids(s, e, resolve);
    SentSplit(s.frames, e.guid, Sent(s.frames, e.guid));
    if e.guid in ResolvedUnits(s.frames, OnEvent(e, resolve)) {
      assert GuidFor(OnEvent(e, resolve), e.guid) == resolve(e.guid).value;
    }
  }

  lemma EventDistinct(frames: FrameMap, e: Event, resolve: Resolver)
    requires e.kind != REFRESH && DistinctSent(frames) && NoCollision(frames, OnEvent(e, resolve))
    ensures DistinctSent(AppliedFrames(frames, e, resolve))
  {
    var after := AppliedFrames(frames, e, resolve);
    if e.guid in ResolvedUnits(frames, OnEvent(e, resolve)) {
      assert GuidFor(OnEvent(e, resolve), e.guid) == resolve(e.guid).value;
    }
    forall g, h | g in after && h in after && after[g].sentGuid == after[h].sentGuid != NO_GUID
      ensures g == h
    {
    }
  }

  // ---------- a flush ----------

  predicate Resolves(resolve: Resolver, ids: seq<uint64>, m: Guid128) {
    exists i :: 0 <= i < |ids| && resolve(ids[i]) == Some(m)
  }

  lemma {:induction false} DeliverEngages(
    client: Client, frames: FrameMap, resolve: Resolver, ids: seq<uint64>, m: Guid128)
    requires forall i :: 0 <= i < |ids| ==> ids[i] in frames && resolve(ids[i]).Some?
    ensures var after := DeliverAll(client, EngagePackets(frames, resolve, ids));
            && (m in after <==> m in client || Resolves(resolve, ids, m))
            && (m in client && !Resolves(resolve, ids, m) ==> after[m] == client[m])
  {
    if ids != [] {
      var init, last := ids[..|ids| - 1], ids[|ids| - 1];
      var ps := EngagePackets(frames, resolve, ids);
      DeliverEngages(client, frames, resolve, init, m);
      assert ps[..|ps| - 1] == EngagePackets(frames, resolve, init);
      ResolvesLast(resolve, init, last, m);
      assert ids == init + [last];
    }
  }

  lemma ResolvesLast(resolve: Resolver, ids: seq<uint64>, last: uint64, m: Guid128)
    ensures Resolves(resolve, ids + [last], m) <==> Resolves(resolve, ids, m) || resolve(last) == Some(m)
  {
    if Resolves(resolve, ids, m) {
      var i :| 0 <= i < |ids| && resolve(ids[i]) == Some(m);
      assert (ids + [last])[i] == ids[i];
    }
    assert (ids + [last])[|ids|] == last;
  }

  /** A GUID that one unit resolves to gets that unit's priority. */
  lemma {:induction false} DeliverOnlyEngage(
    client: Client, frames: FrameMap, resolve: Resolver, ids: seq<uint64>, g: uint64, m: Guid128)
    requires forall i :: 0 <= i < |ids| ==> ids[i] in frames && resolve(ids[i]).Some?
    requires g in ids && resolve(g) == Some(m) && forall h :: h in ids && resolve(h) == Some(m) ==> h == g
    ensures var after := DeliverAll(client, EngagePackets(frames, resolve, ids));
            m in after && after[m] == frames[g].priority
  {
    var init, last := ids[..|ids| - 1], ids[|ids| - 1];
    var ps := EngagePackets(frames, resolve, ids);
    assert ids == init + [last];
    assert ps[..|ps| - 1] == EngagePackets(frames, resolve, init);
    if last != g {
      DeliverOnlyEngage(client, frames, resolve, init, g, m);
    }
  }

  function FlushIds(frames: FrameMap, resolve: Resolver): (ids: seq<uint64>)
    ensures forall g :: g in ids <==> g in Sendable(frames, resolve)
  {
    SortedOf(Sendable(frames, resolve), ById)
  }

  lemma FlushClient(s: Session, resolve: Resolver, m: Guid128)
    ensures var client := Next(s, OnFlush(resolve)).client;
            && (m in client <==> m in s.client || exists g :: g in Sendable(s.frames, resolve) && resolve(g) == Some(m))
            && (m in s.client && (forall g :: g in Sendable(s.frames, resolve) ==> resolve(g) != Some(m)) ==>
                  client[m] == s.client[m])
  {
    var ids := FlushIds(s.frames, resolve);
    forall i | 0 <= i < |ids|
      ensures ids[i] in s.frames && resolve(ids[i]).Some?
    {
      assert ids[i] in ids;
    }
    DeliverEngages(s.client, s.frames, resolve, ids, m);
    if Resolves(resolve, ids, m) {
      var i :| 0 <= i < |ids| && resolve(ids[i]) == Some(m);
      assert ids[i] in ids;
    }
    if g :| g in Sendable(s.frames, resolve) && resolve(g) == Some(m) {
      assert g in ids;
      var i :| 0 <= i < |ids| && ids[i] == g;
      assert Resolves(resolve, ids, m);
    }
  }

  lemma FlushPriority(s: Session, resolve: Resolver, g: uint64)
    requires g in Sendable(s.frames, resolve) && NoCollision(s.frames, OnFlush(resolve))
    requires resolve(g).value != NO_GUID
    ensures var client := Next(s, OnFlush(resolve)).client;
            resolve(g).value in client && client[resolve(g).value] == s.frames[g].priority
  {
    var ids := FlushIds(s.frames, resolve);
    forall i | 0 <= i < |ids|
      ensures ids[i] in s.frames && resolve(ids[i]).Some?
    {
      assert ids[i] in ids;
    }
    forall h | h in ids && resolve(h) == resolve(g)
      ensures h == g
    {
      assert GuidFor(OnFlush(resolve), h) == GuidFor(OnFlush(resolve), g);
    }
    DeliverOnlyEngage(s.client, s.frames, resolve, ids, g, resolve(g).value);
  }

  lemma FlushResolved(frames: FrameMap, resolve: Resolver, g: uint64)
    requires g in Sendable(frames, resolve)
    ensures GuidFor(OnFlush(resolve), g) == resolve(g).value == FlushedFrames(frames, resolve)[g].sentGuid
  {
  }

  lemma FlushKeyStays(s: Session, resolve: Resolver, m: Guid128)
    requires KeysAgree(s) && KeepsGuids(s.frames, OnFlush(resolve)) && m in Next(s, OnFlush(resolve)).client
    ensures m in SentGuids(FlushedFrames(s.frames, resolve))
  {
    var after := FlushedFrames(s.frames, resolve);
    FlushClient(s, resolve, m);
    if g :| g in Sendable(s.frames, resolve) && resolve(g) == Some(m) {
      FlushResolved(s.frames, resolve, g);
      assert after[g].sentGuid == m;
    } else {
      var g :| g in s.frames && s.frames[g].sentGuid == m && m != NO_GUID;
      assert after[g].sentGuid == m || GuidFor(OnFlush(resolve), g) == m;
    }
  }

  lemma FlushKeyHeld(s: Session, resolve: Resolver, m: Guid128)
    requires KeysAgree(s) && m in SentGuids(FlushedFrames(s.frames, resolve))
    ensures m in Next(s, OnFlush(resolve)).client
  {
    var after := FlushedFrames(s.frames, resolve);
    FlushClient(s, resolve, m);
    var g :| g in after && after[g].sentGuid == m && m != NO_GUID;
    assert g in Sendable(s.frames, resolve) ==> resolve(g) == Some(m);
  }

  lemma FlushBreaksKey(s: Session, resolve: Resolver)
    requires KeysAgree(s) && DistinctSent(s.frames)
    requires NoCollision(s.frames, OnFlush(resolve)) && !KeepsGuids(s.frames, OnFlush(resolve))
    ensures !KeysAgree(Next(s, OnFlush(resolve)))
  {
    var step, after := OnFlush(resolve), FlushedFrames(s.frames, resolve);
    var g :| g in ResolvedUnits(s.frames, step)
             && !((Sent(s.frames, g) == NO_GUID || Sent(s.frames, g) == GuidFor(step, g))
                  && (GuidFor(step, g) == NO_GUID ==> IsDisengage(step)));
    var sent := Sent(s.frames, g);
    FlushClient(s, resolve, sent);
    FlushClient(s, resolve, NO_GUID);
    if GuidFor(step, g) != NO_GUID {
      assert sent in SentGuids(s.frames);
      forall h | h in after
        ensures after[h].sentGuid != sent
      {
        assert h in Sendable(s.frames, resolve) ==> GuidFor(step, h) == resolve(h).value;
      }
      assert sent in Next(s, step).client.Keys && sent !in SentGuids(after);
    } else {
      assert NO_GUID in Next(s, step).client.Keys && NO_GUID !in SentGuids(after);
    }
  }

  lemma FlushUnit(s: Session, resolve: Resolver, g: uint64)
    requires UnitInStep(s, g)
    requires NoCollision(s.frames, OnFlush(resolve)) && KeepsGuids(s.frames, OnFlush(resolve))
    ensures UnitInStep(Next(s, OnFlush(resolve)), g)
  {
    var step := OnFlush(resolve);
    if g in Sendable(s.frames, resolve) {
      assert GuidFor(step, g) == resolve(g).value;
      FlushPriority(s, resolve, g);
    } else if g in s.frames && !s.frames[g].pending {
      FlushClient(s, resolve, s.frames[g].sentGuid);
      forall h | h in Sendable(s.frames, resolve)
        ensures resolve(h) != Some(s.frames[g].sentGuid)
      {
        assert GuidFor(step, h) == resolve(h).value;
      }
    }
  }

  lemma FlushDistinct(frames: FrameMap, resolve: Resolver)
    requires DistinctSent(frames) && NoCollision(frames, OnFlush(resolve))
    ensures DistinctSent(FlushedFrames(frames, resolve))
  {
    var step, after := OnFlush(resolve), FlushedFrames(frames, resolve);
    forall g, h | g in after && h in after && after[g].sentGuid == after[h].sentGuid != NO_GUID
      ensures g == h
    {
      assert g in Sendable(frames, resolve) ==> GuidFor(step, g) == resolve(g).value;
      assert h in Sendable(frames, resolve) ==> GuidFor(step, h) == resolve(h).value;
    }
  }

  // ---------- any step ----------

  function Marked(s: Session): Session {
    s.(frames := AllPending(s.frames))
  }

  /** A refresh is a flush with every frame pending. */
  lemma RefreshIsFlush(s: Session, e: Event, resolve: Resolver)
    requires e.kind == REFRESH
    ensures Next(s, OnEvent(e, resolve)) == Next(Marked(s), OnFlush(resolve))
  {
  }

  lemma RefreshResolves(frames: FrameMap, e: Event, resolve: Resolver, g: uint64)
    requires e.kind == REFRESH
    ensures g in ResolvedUnits(frames, OnEvent(e, resolve)) <==> g in ResolvedUnits(AllPending(frames), OnFlush(resolve))
    ensures GuidFor(OnEvent(e, resolve), g) == GuidFor(OnFlush(resolve), g)
    ensures Sent(frames, g) == Sent(AllPending(frames), g)
  {
  }

  lemma RefreshCollides(frames: FrameMap, e: Event, resolve: Resolver)
    requires e.kind == REFRESH
    ensures NoCollision(frames, OnEvent(e, resolve)) <==> NoCollision(AllPending(frames), OnFlush(resolve))
  {
    forall g
      ensures g in ResolvedUnits(frames, OnEvent(e, resolve)) <==> g in ResolvedUnits(AllPending(frames), OnFlush(resolve))
      ensures GuidFor(OnEvent(e, resolve), g) == GuidFor(OnFlush(resolve), g)
    {
      RefreshResolves(frames, e, resolve, g);
    }
    assert forall h :: h in frames <==> h in AllPending(frames);
    assert forall h :: h in frames ==> frames[h].sentGuid == AllPending(frames)[h].sentGuid;
  }

  lemma RefreshKeeps(frames: FrameMap, e: Event, resolve: Resolver)
    requires e.kind == REFRESH
    ensures KeepsGuids(frames, OnEvent(e, resolve)) <==> KeepsGuids(AllPending(frames), OnFlush(resolve))
  {
    forall g
      ensures g in ResolvedUnits(frames, OnEvent(e, resolve)) <==> g in ResolvedUnits(AllPending(frames), OnFlush(resolve))
      ensures GuidFor(OnEvent(e, resolve), g) == GuidFor(OnFlush(resolve), g)
      ensures Sent(frames, g) == Sent(AllPending(frames), g)
    {
      RefreshResolves(frames, e, resolve, g);
    }
  }

  lemma SameSent(a: FrameMap, b: FrameMap)
    requires a.Keys == b.Keys && forall g :: g in a ==> a[g].sentGuid == b[g].sentGuid
    ensures SentGuids(a) == SentGuids(b) && (DistinctSent(a) ==> DistinctSent(b))
  {
    forall m
      ensures m in SentGuids(a) <==> m in SentGuids(b)
    {
      if m in SentGuids(a) {
        var g :| g in a && a[g].sentGuid == m && m != NO_GUID;
        assert b[g].sentGuid == m;
      }
      if m in SentGuids(b) {
        var g :| g in b && b[g].sentGuid == m && m != NO_GUID;
        assert a[g].sentGuid == m;
      }
    }
  }

  lemma MarkedInStep(s: Session)
    requires InStep(s)
    ensures InStep(Marked(s))
  {
    SameSent(s.frames, AllPending(s.frames));
    forall g
      ensures UnitInStep(Marked(s), g)
    {
      assert UnitInStep(s, g);
    }
  }

  lemma HideInStep(s: Session, h: uint64)
    requires InStep(s)
    ensures InStep(Next(s, OnHide(h)))
  {
    SameSent(s.frames, HiddenFrames(s.frames, h));
    forall g
      ensures UnitInStep(Next(s, OnHide(h)), g)
    {
      assert UnitInStep(s, g);
    }
  }

  lemma FlushInStep(s: Session, resolve: Resolver)
    requires InStep(s) && NoCollision(s.frames, OnFlush(resolve)) && KeepsGuids(s.frames, OnFlush(resolve))
    ensures InStep(Next(s, OnFlush(resolve)))
  {
    FlushDistinct(s.frames, resolve);
    forall m
      ensures m in Next(s, OnFlush(resolve)).client <==> m in SentGuids(FlushedFrames(s.frames, resolve))
    {
      if m in Next(s, OnFlush(resolve)).client {
        FlushKeyStays(s, resolve, m);
      }
      if m in SentGuids(FlushedFrames(s.frames, resolve)) {
        FlushKeyHeld(s, resolve, m);
      }
    }
    forall g
      ensures UnitInStep(Next(s, OnFlush(resolve)), g)
    {
      FlushUnit(s, resolve, g);
    }
  }

  lemma EventInStep(s: Session, e: Event, resolve: Resolver)
    requires e.kind != REFRESH && InStep(s)
    requires NoCollision(s.frames, OnEvent(e, resolve)) && KeepsGuids(s.frames, OnEvent(e, resolve))
    ensures InStep(Next(s, OnEvent(e, resolve)))
  {
    var step := OnEvent(e, resolve);
    EventDistinct(s.frames, e, resolve);
    forall m
      ensures m in Next(s, step).client <==> m in SentGuids(Next(s, step).frames)
    {
      EventKeepsKey(s, e, resolve, m);
    }
    forall g
      ensures UnitInStep(Next(s, step), g)
    {
      EventUnit(s, e, resolve, g);
    }
  }

  lemma StepInStep(s: Session, step: Step)
    requires InStep(s) && NoCollision(s.frames, step) && KeepsGuids(s.frames, step)
    ensures InStep(Next(s, step))
  {
    match step
    case OnHide(g) => HideInStep(s, g);
    case OnFlush(resolve) => FlushInStep(s, resolve);
    case OnEvent(e, resolve) =>
      if e.kind == REFRESH {
        RefreshIsFlush(s, e, resolve);
        RefreshCollides(s.frames, e, resolve);
        RefreshKeeps(s.frames, e, resolve);
        MarkedInStep(s);
        FlushInStep(Marked(s), resolve);
      } else {
        EventInStep(s, e, resolve);
      }
  }

  /** After a step without collision the client shows what was sent, iff every unit that was sent kept its GUID. */
  lemma StepKeysIff(s: Session, step: Step)
    requires InStep(s) && NoCollision(s.frames, step)
    ensures KeysAgree(Next(s, step)) <==> KeepsGuids(s.frames, step)
  {
    if KeepsGuids(s.frames, step) {
      StepInStep(s, step);
    } else if step.OnFlush? {
      FlushBreaksKey(s, step.resolve);
    } else if step.OnEvent? && step.e.kind == REFRESH {
      RefreshIsFlush(s, step.e, step.resolve);
      RefreshCollides(s.frames, step.e, step.resolve);
      RefreshKeeps(s.frames, step.e, step.resolve);
      MarkedInStep(s);
      FlushBreaksKey(Marked(s), step.resolve);
    } else if step.OnEvent? {
      assert UnitInStep(s, step.e.guid);
      EventBreaksKey(s, step.e, step.resolve);
    }
  }

  // ---------- whole runs ----------

  /** At every step of the run, GUIDs do not collide. */
  ghost predicate NoCollisions(steps: seq<Step>)
    decreases |steps|
  {
    |steps| == 0
    || (var n := |steps| - 1; NoCollisions(steps[..n]) && NoCollision(Run(steps[..n]).frames, steps[n]))
  }

  /** At every step of the run, GUIDs are kept. */
  ghost predicate AllKept(steps: seq<Step>)
    decreases |steps|
  {
    |steps| == 0
    || (var n := |steps| - 1; AllKept(steps[..n]) && KeepsGuids(Run(steps[..n]).frames, steps[n]))
  }

  /** After every step of the run, the client shows what live frames were sent under. */
  ghost predicate KeysAlwaysAgree(steps: seq<Step>)
    decreases |steps|
  {
    KeysAgree(Run(steps)) && (|steps| == 0 || KeysAlwaysAgree(steps[..|steps| - 1]))
  }

  /** In every run in which GUIDs do not collide and are kept, frames, client and server stay in step. */
  lemma {:induction false} RunInStep(steps: seq<Step>)
    requires NoCollisions(steps) && AllKept(steps)
    ensures InStep(Run(steps))
    decreases |steps|
  {
    if |steps| > 0 {
      var n := |steps| - 1;
      RunInStep(steps[..n]);
      StepInStep(Run(steps[..n]), steps[n]);
    }
  }

  /** The client shows, after every step, exactly what live frames were sent under, iff every step keeps the GUIDs. */
  lemma {:induction false} RunKeysIff(steps: seq<Step>)
    requires NoCollisions(steps)
    ensures KeysAlwaysAgree(steps) <==> AllKept(steps)
    decreases |steps|
  {
    if |steps| > 0 {
      var n := |steps| - 1;
      RunKeysIff(steps[..n]);
      if AllKept(steps[..n]) {
        RunInStep(steps[..n]);
        StepKeysIff(Run(steps[..n]), steps[n]);
      }
    }
  }

  // ---------- changes of priority ----------

  /** A change of priority of a frame that is not pending: the only step that sends one. */
  predicate ChangesPriority(frames: FrameMap, step: Step) {
    && step.OnEvent? && step.e.kind == PRIORITY && step.e.guid in frames
    && !frames[step.e.guid].pending && step.resolve(step.e.guid).Some?
  }

  lemma PriorityPackets(frames: FrameMap, step: Step, i: nat)
    requires i < |Emitted(frames, step)|
    ensures Emitted(frames, step)[i].kind == PRIORITY
            <==> ChangesPriority(frames, step) && i == 0 && |Emitted(frames, step)| == 1
  {
  }

  /** A change of priority is only sent for a unit the client holds, iff it is sent under the GUID the unit has there. */
  lemma PriorityHeldIff(s: Session, step: Step)
    requires InStep(s) && NoCollision(s.frames, step)
    ensures Accepts(s.client, Emitted(s.frames, step))
            <==> (ChangesPriority(s.frames, step) ==> KeepsGuids(s.frames, step))
  {
    var out := Emitted(s.frames, step);
    if ChangesPriority(s.frames, step) {
      var g := step.e.guid;
      assert UnitInStep(s, g);
      assert ResolvedUnits(s.frames, step) == {g} && GuidFor(step, g) == step.resolve(g).value;
      assert out == [Packet(PRIORITY, GuidFor(step, g), step.e.param1)] && out[..0] == [];
      OwnGuids(s, step.e, step.resolve);
      SentSplit(s.frames, g, GuidFor(step, g));
    } else {
      forall i | 0 <= i < |out|
        ensures out[i].kind != PRIORITY
      {
        PriorityPackets(s.frames, step, i);
      }
    }
  }

  // ---------- catching up ----------

  /** Every unit of the server is at the client, under a GUID of its own, with the server's priority, and nothing else is. */
  ghost predicate CaughtUp(s: Session) {
    && DistinctSent(s.frames)
    && (forall g :: g in s.server ==>
          && Sent(s.frames, g) != NO_GUID && Sent(s.frames, g) in s.client
          && s.client[Sent(s.frames, g)] == s.server[g])
    && (forall m :: m in s.client ==> exists g :: g in s.server && Sent(s.frames, g) == m)
  }

  lemma NonePending(s: Session)
    requires InStep(s) && forall g :: g in s.frames ==> !s.frames[g].pending
    ensures CaughtUp(s)
  {
    forall g | g in s.server
      ensures Sent(s.frames, g) != NO_GUID && Sent(s.frames, g) in s.client
      ensures s.client[Sent(s.frames, g)] == s.server[g]
    {
      assert UnitInStep(s, g);
    }
    forall m | m in s.client
      ensures exists g :: g in s.server && Sent(s.frames, g) == m
    {
      var g :| g in s.frames && s.frames[g].sentGuid == m;
      assert UnitInStep(s, g) && Sent(s.frames, g) == m;
    }
  }

  lemma CaughtUpKeys(s: Session)
    requires CaughtUp(s) && s.frames.Keys == s.server.Keys
    ensures KeysAgree(s)
  {
    forall m
      ensures m in s.client <==> m in SentGuids(s.frames)
    {
      if m in s.client {
        var g :| g in s.server && Sent(s.frames, g) == m;
        assert g in s.frames;
      }
      if m in SentGuids(s.frames) {
        var g :| g in s.frames && s.frames[g].sentGuid == m;
        assert g in s.server && Sent(s.frames, g) == m;
      }
    }
  }

  /** With every engaged unit resolved, a flush makes the client show exactly what the server holds, iff GUIDs are kept. */
  lemma FlushCatchesUp(s: Session, resolve: Resolver)
    requires InStep(s) && NoCollision(s.frames, OnFlush(resolve))
    requires forall g :: g in s.server ==> resolve(g).Some?
    ensures CaughtUp(Next(s, OnFlush(resolve))) <==> KeepsGuids(s.frames, OnFlush(resolve))
    ensures Next(s, OnFlush(resolve)).server == s.server
  {
    var next := Next(s, OnFlush(resolve));
    forall g
      ensures g in s.frames <==> g in s.server
    {
      assert UnitInStep(s, g);
    }
    StepKeysIff(s, OnFlush(resolve));
    if KeepsGuids(s.frames, OnFlush(resolve)) {
      FlushInStep(s, resolve);
      NonePending(next);
    } else if CaughtUp(next) {
      CaughtUpKeys(next);
    }
  }

  /** Whatever the resolver, a second flush with nothing new to see emits nothing and changes nothing. */
  lemma SecondFlushSilent(frames: FrameMap, resolve: Resolver)
    ensures var after := FlushedFrames(frames, resolve);
            FlushPackets(after, resolve) == [] && FlushedFrames(after, resolve) == after
  {
  }

  /** Flush packets come in strictly ascending order of legacy GUID, one for each pending unit that resolves. */
  lemma FlushOrder(frames: FrameMap, resolve: Resolver)
    ensures exists ids: seq<uint64> ::
              && AscendingBy(ids, ById)
              && (forall g :: g in ids <==> g in frames && frames[g].pending && resolve(g).Some?)
              && FlushPackets(frames, resolve) == EngagePackets(frames, resolve, ids)
  {
    var ids := SortedOf(Sendable(frames, resolve), ById);
    assert FlushPackets(frames, resolve) == EngagePackets(frames, resolve, ids);
  }

  /** Refresh and flush never invent a GUID: each one sent was resolved for a pending frame in that very call. */
  lemma NothingInvented(frames: FrameMap, resolve: Resolver, p: Packet)
    requires p in FlushPackets(frames, resolve)
    ensures exists g :: g in frames && frames[g].pending && resolve(g) == Some(p.guid) && p.priority == frames[g].priority
  {
    var ids := SortedOf(Sendable(frames, resolve), ById);
    var i :| 0 <= i < |ids| && EngagePacket(frames, resolve, ids[i]) == p;
    assert ids[i] in ids;
  }

  // ---------- fixed identities ----------

  /** The units have modern GUIDs of their own, none of them zero. */
  ghost predicate OneToOneOn(id: uint64 -> Guid128, units: iset<uint64>) {
    && (forall g :: g in units ==> id(g) != NO_GUID)
    && (forall g, h :: g in units && h in units && id(g) == id(h) ==> g == h)
  }

  /** Whatever a step resolves is one of the units, under its own GUID. */
  ghost predicate AnswersBy(step: Step, id: uint64 -> Guid128, units: iset<uint64>) {
    forall g :: ResolverOf(step)(g).Some? ==> g in units && ResolverOf(step)(g).value == id(g)
  }

  ghost predicate SentBy(frames: FrameMap, id: uint64 -> Guid128, units: iset<uint64>) {
    forall g :: g in frames && frames[g].sentGuid != NO_GUID ==> g in units && frames[g].sentGuid == id(g)
  }

  lemma ResolvedAnswers(frames: FrameMap, step: Step, g: uint64)
    requires g in ResolvedUnits(frames, step)
    ensures ResolverOf(step)(g).Some? && GuidFor(step, g) == ResolverOf(step)(g).value
  {
  }

  lemma StepSentBy(frames: FrameMap, step: Step, id: uint64 -> Guid128, units: iset<uint64>)
    requires SentBy(frames, id, units) && AnswersBy(step, id, units)
    ensures SentBy(FramesAfter(frames, step), id, units)
  {
    if step.OnEvent? && step.e.kind == REFRESH {
      assert SentBy(AllPending(frames), id, units);
    }
    assert step.OnEvent? ==> ResolverOf(step) == step.resolve;
    assert step.OnFlush? ==> ResolverOf(step) == step.resolve;
  }

  lemma StepFits(frames: FrameMap, step: Step, id: uint64 -> Guid128, units: iset<uint64>)
    requires OneToOneOn(id, units) && SentBy(frames, id, units) && AnswersBy(step, id, units)
    ensures NoCollision(frames, step) && KeepsGuids(frames, step)
  {
    forall g | g in ResolvedUnits(frames, step)
      ensures g in units && GuidFor(step, g) == id(g)
    {
      ResolvedAnswers(frames, step, g);
    }
  }

  /** Runs whose resolvers answer for some units, each under one GUID of its own, never collide and always keep the GUIDs. */
  lemma {:induction false} FixedIdentities(steps: seq<Step>, id: uint64 -> Guid128, units: iset<uint64>)
    requires OneToOneOn(id, units) && forall i :: 0 <= i < |steps| ==> AnswersBy(steps[i], id, units)
    ensures NoCollisions(steps) && AllKept(steps) && SentBy(Run(steps).frames, id, units)
    decreases |steps|
  {
    if |steps| > 0 {
      var n := |steps| - 1;
      FixedIdentities(steps[..n], id, units);
      StepFits(Run(steps[..n]).frames, steps[n], id, units);
      StepSentBy(Run(steps[..n]).frames, steps[n], id, units);
    }
  }

  /** Were a unit to change its modern GUID between engaging and disengaging, the client would keep its old frame. */
  lemma ChangedIdentityIsLeft(g: uint64, a: Guid128, b: Guid128, priority: byte)
    requires a != b
    ensures var (engage, disengage) := (Event(ENGAGE, g, priority, 0), Event(DISENGAGE, g, 0, 0));
            var frames := AppliedFrames(map[], engage, h => Some(a));
            var client := DeliverAll(map[], AppliedPackets(map[], engage, h => Some(a)));
            && AppliedFrames(frames, disengage, h => Some(b)) == map[]
            && a in DeliverAll(client, AppliedPackets(frames, disengage, h => Some(b)))
  {
  }
}

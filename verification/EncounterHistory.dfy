/** What is sent, told from the history of a session alone: which units wait to be sent, and under which GUID they went out. */
module EncounterHistories {
  import opened Wrappers
  import opened Bytes
  import opened Guids
  import opened Sorting
  import opened Encounters
  import opened EncounterRuns

  // ---------- one unit's history ----------

  /** The server holds the unit after these steps. */
  predicate Engaged(steps: seq<Step>, g: uint64) {
    g in Run(steps).server
  }

  /** What the resolver of a flush or an event answers for a unit. */
  function Answer(step: Step, g: uint64): Option<Guid128> {
    if step.OnHide? then None else step.resolve(g)
  }

  /** The step is about the unit: a refresh, or its own engagement or change of priority while the server holds it. */
  predicate Touches(engaged: bool, step: Step, g: uint64) {
    && step.OnEvent?
    && (if step.e.kind == 7 then engaged
        else step.e.guid == g && (step.e.kind == 0 || (step.e.kind == 2 && engaged)))
  }

  /** The step takes the unit away. */
  predicate Removes(step: Step, g: uint64) {
    step.OnEvent? && step.e.kind == 1 && step.e.guid == g
  }

  predicate WaitsAfter(engaged: bool, waiting: bool, step: Step, g: uint64) {
    if Removes(step, g) then false
    else if step.OnHide? && step.g == g then engaged
    else if Touches(engaged, step, g) then Answer(step, g).None?
    else waiting && !(step.OnFlush? && Answer(step, g).Some?)
  }

  function SentAfter(engaged: bool, waiting: bool, sent: Guid128, step: Step, g: uint64): Guid128 {
    if Removes(step, g) then NO_GUID
    else if (Touches(engaged, step, g) || (step.OnFlush? && waiting)) && Answer(step, g).Some? then Answer(step, g).value
    else sent
  }

  /**
   The unit is engaged and what the client has of it is not up to date: it was hidden after it was last sent,
   or could not be resolved when it was engaged, changed or refreshed.
   */
  predicate Waiting(steps: seq<Step>, g: uint64)
    decreases |steps|
  {
    |steps| > 0
    && var before, step := steps[..|steps| - 1], steps[|steps| - 1];
       WaitsAfter(Engaged(before, g), Waiting(before, g), step, g)
  }

  /** The modern GUID the unit last went out under, the zero GUID when it has not since it was engaged. */
  function LastSent(steps: seq<Step>, g: uint64): Guid128
    decreases |steps|
  {
    if |steps| == 0 then NO_GUID
    else
      var before, step := steps[..|steps| - 1], steps[|steps| - 1];
      SentAfter(Engaged(before, g), Waiting(before, g), LastSent(before, g), step, g)
  }

  // ---------- the frames are that history ----------

  ghost predicate FrameIs(s: Session, g: uint64, sent: Guid128, waiting: bool) {
    && (g in s.frames <==> g in s.server)
    && (g in s.server ==> s.frames[g] == Frame(s.server[g], sent, waiting))
    && (g !in s.server ==> !waiting && sent == NO_GUID)
  }

  lemma HideFrame(s: Session, h: uint64, g: uint64, sent: Guid128, waiting: bool)
    requires FrameIs(s, g, sent, waiting)
    ensures FrameIs(Next(s, OnHide(h)), g, sent, if h == g then g in s.server else waiting)
  {
  }

  lemma FlushFrame(s: Session, resolve: Resolver, g: uint64, sent: Guid128, waiting: bool)
    requires FrameIs(s, g, sent, waiting)
    ensures FrameIs(Next(s, OnFlush(resolve)), g, if waiting && resolve(g).Some? then resolve(g).value else sent,
                    waiting && resolve(g).None?)
  {
  }

  lemma RefreshFrame(s: Session, e: Event, resolve: Resolver, g: uint64, sent: Guid128, waiting: bool)
    requires e.kind == 7 && FrameIs(s, g, sent, waiting)
    ensures FrameIs(Next(s, OnEvent(e, resolve)), g,
                    if g in s.server && resolve(g).Some? then resolve(g).value else sent, g in s.server && resolve(g).None?)
  {
  }

  lemma OtherFrame(s: Session, e: Event, resolve: Resolver, g: uint64, sent: Guid128, waiting: bool)
    requires e.kind != 7 && (e.guid != g || e.kind > 2) && FrameIs(s, g, sent, waiting)
    ensures FrameIs(Next(s, OnEvent(e, resolve)), g, sent, waiting)
  {
  }

  lemma OwnFrame(s: Session, e: Event, resolve: Resolver, g: uint64, sent: Guid128, waiting: bool)
    requires e.kind <= 2 && e.guid == g && FrameIs(s, g, sent, waiting)
    ensures var step := OnEvent(e, resolve);
            FrameIs(Next(s, step), g, SentAfter(g in s.server, waiting, sent, step, g),
                    WaitsAfter(g in s.server, waiting, step, g))
  {
  }

  lemma FrameStep(s: Session, step: Step, g: uint64, sent: Guid128, waiting: bool)
    requires FrameIs(s, g, sent, waiting)
    ensures FrameIs(Next(s, step), g, SentAfter(g in s.server, waiting, sent, step, g),
                    WaitsAfter(g in s.server, waiting, step, g))
  {
    match step
    case OnHide(h) => HideFrame(s, h, g, sent, waiting);
    case OnFlush(resolve) => FlushFrame(s, resolve, g, sent, waiting);
    case OnEvent(e, resolve) =>
      if e.kind == 7 {
        RefreshFrame(s, e, resolve, g, sent, waiting);
      } else if e.guid == g && e.kind <= 2 {
        OwnFrame(s, e, resolve, g, sent, waiting);
      } else {
        OtherFrame(s, e, resolve, g, sent, waiting);
      }
  }

  /** Over every run, a unit's frame is what its history says: the server's priority, the last GUID, whether it waits. */
  lemma {:induction false} RunFrames(steps: seq<Step>, g: uint64)
    ensures FrameIs(Run(steps), g, LastSent(steps, g), Waiting(steps, g))
    decreases |steps|
  {
    if |steps| > 0 {
      var before, step := steps[..|steps| - 1], steps[|steps| - 1];
      RunFrames(before, g);
      FrameStep(Run(before), step, g, LastSent(before, g), Waiting(before, g));
    }
  }

  // ---------- what goes out ----------

  /** The engagement of a unit that the server holds, under the GUID it resolves to. */
  predicate EngagementOf(server: Server, resolve: Resolver, g: uint64, p: Packet) {
    g in server && resolve(g).Some? && p == Packet(0, resolve(g).value, server[g])
  }

  predicate Pends(frames: FrameMap, resolve: Resolver, g: uint64, p: Packet) {
    g in frames && frames[g].pending && resolve(g).Some? && p == Packet(0, resolve(g).value, frames[g].priority)
  }

  lemma FlushPacket(frames: FrameMap, resolve: Resolver, p: Packet)
    ensures p in FlushPackets(frames, resolve) <==> exists g :: Pends(frames, resolve, g, p)
  {
    var ids := FlushIds(frames, resolve);
    assert FlushPackets(frames, resolve) == EngagePackets(frames, resolve, ids);
    if p in FlushPackets(frames, resolve) {
      var i :| 0 <= i < |ids| && EngagePackets(frames, resolve, ids)[i] == p;
      assert ids[i] in ids;
      assert Pends(frames, resolve, ids[i], p);
    }
    if g :| Pends(frames, resolve, g, p) {
      assert g in Sendable(frames, resolve);
      var i :| 0 <= i < |ids| && ids[i] == g;
      assert EngagePackets(frames, resolve, ids)[i] == p;
    }
  }

  lemma WaitingPends(steps: seq<Step>, resolve: Resolver, g: uint64, p: Packet)
    ensures Pends(Run(steps).frames, resolve, g, p) <==> Waiting(steps, g) && EngagementOf(Run(steps).server, resolve, g, p)
    ensures Pends(AllPending(Run(steps).frames), resolve, g, p) <==> EngagementOf(Run(steps).server, resolve, g, p)
  {
    RunFrames(steps, g);
  }

  /** A flush sends exactly the waiting units it can resolve, with the priorities of the server. */
  lemma FlushSends(steps: seq<Step>, resolve: Resolver, p: Packet)
    ensures p in Emitted(Run(steps).frames, OnFlush(resolve))
            <==> exists g :: Waiting(steps, g) && EngagementOf(Run(steps).server, resolve, g, p)
  {
    FlushPacket(Run(steps).frames, resolve, p);
    if g :| Pends(Run(steps).frames, resolve, g, p) {
      WaitingPends(steps, resolve, g, p);
    }
    if g :| Waiting(steps, g) && EngagementOf(Run(steps).server, resolve, g, p) {
      WaitingPends(steps, resolve, g, p);
    }
  }

  /** A refresh sends exactly the engaged units it can resolve, waiting or not. */
  lemma RefreshSends(steps: seq<Step>, e: Event, resolve: Resolver, p: Packet)
    requires e.kind == 7
    ensures p in Emitted(Run(steps).frames, OnEvent(e, resolve))
            <==> exists g :: EngagementOf(Run(steps).server, resolve, g, p)
  {
    FlushPacket(AllPending(Run(steps).frames), resolve, p);
    if g :| Pends(AllPending(Run(steps).frames), resolve, g, p) {
      WaitingPends(steps, resolve, g, p);
    }
    if g :| EngagementOf(Run(steps).server, resolve, g, p) {
      WaitingPends(steps, resolve, g, p);
    }
  }

  /** What an event about one unit sends: its kind and priority, a change of priority as an engagement while the unit waits. */
  lemma EventSends(steps: seq<Step>, e: Event, resolve: Resolver)
    requires e.kind != 7
    ensures var (g, m) := (e.guid, resolve(e.guid));
            var out := Emitted(Run(steps).frames, OnEvent(e, resolve));
            if e.kind > 2 || (e.kind == 2 && !Engaged(steps, g)) then out == []
            else if e.kind == 1 then
              out == if m.Some? then [Packet(1, m.value, 0)]
                     else if LastSent(steps, g) != NO_GUID then [Packet(1, LastSent(steps, g), 0)] else []
            else if m.None? then out == []
            else out == [Packet(if e.kind == 2 && !Waiting(steps, g) then 2 else 0, m.value, e.param1)]
  {
    RunFrames(steps, e.guid);
  }

  lemma HideSends(steps: seq<Step>, g: uint64)
    ensures Emitted(Run(steps).frames, OnHide(g)) == []
  {
  }

  // ---------- nothing is lost ----------

  lemma HiddenWaits(steps: seq<Step>, g: uint64)
    requires Engaged(steps, g)
    ensures Engaged(steps + [OnHide(g)], g) && Waiting(steps + [OnHide(g)], g)
    ensures Run(steps + [OnHide(g)]).server == Run(steps).server
  {
    assert (steps + [OnHide(g)])[..|steps|] == steps;
  }

  /** A unit that is hidden and seen again is sent again, with the server's priority. */
  lemma HiddenIsSentAgain(steps: seq<Step>, g: uint64, resolve: Resolver, m: Guid128)
    requires Engaged(steps, g) && resolve(g) == Some(m)
    ensures Packet(0, m, Run(steps).server[g]) in Emitted(Run(steps + [OnHide(g)]).frames, OnFlush(resolve))
  {
    HiddenWaits(steps, g);
    var p := Packet(0, m, Run(steps).server[g]);
    assert EngagementOf(Run(steps + [OnHide(g)]).server, resolve, g, p);
    FlushSends(steps + [OnHide(g)], resolve, p);
  }

  /** The same for any session that is in step, whatever led to it. */
  lemma HiddenInStep(s: Session, g: uint64, resolve: Resolver, m: Guid128)
    requires InStep(s) && g in s.server && resolve(g) == Some(m)
    ensures Packet(0, m, s.server[g]) in Emitted(Next(s, OnHide(g)).frames, OnFlush(resolve))
  {
    assert UnitInStep(s, g);
    var p := Packet(0, m, s.server[g]);
    assert Pends(Next(s, OnHide(g)).frames, resolve, g, p);
    FlushPacket(Next(s, OnHide(g)).frames, resolve, p);
  }
}

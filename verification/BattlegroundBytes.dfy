/** The bytes of a battlefield status, and what each of them becomes. */
module BattlegroundLayouts {
  import opened Wrappers
  import opened Bytes
  import opened Guids
  import opened Reader
  import opened Battlegrounds

  // ---------- the layout ----------

  /** Four bytes from place i on, least significant first. */
  function WordAt(d: seq<byte>, i: nat): uint32
    requires i + 4 <= |d|
  {
    Widths();
    LittleValue(d[i..i + 4])
  }

  /** Slot, arena type, marker and battleground type; two more bytes are skipped. */
  predicate HeadAt(h: Head, d: seq<byte>) {
    |d| >= 12 && h.slot == WordAt(d, 0) && h.arenaType == d[4] && h.marker == d[5] && h.bgTypeId == WordAt(d, 6)
  }

  predicate NothingQueued(d: seq<byte>) {
    |d| >= 12 && d[4] == 0 && d[5] == 0 && WordAt(d, 6) == 0
  }

  /** Both levels, the instance, whether it is rated, and the status. */
  predicate DetailsAt(x: Details, d: seq<byte>) {
    && |d| >= 23 && x.minLevel == d[12] && x.maxLevel == d[13] && x.instanceId == WordAt(d, 14)
    && (x.rated <==> d[18] != 0) && x.status == WordAt(d, 19)
  }

  /** 1 is queued, 2 is to be confirmed, 3 is active; the last two have a map and eight bytes that are skipped. */
  predicate StageAt(s: Stage, d: seq<byte>) {
    |d| >= 23
    && match s
       case Queued(average, wait) =>
         WordAt(d, 19) == 1 && |d| == 31 && average == WordAt(d, 23) && wait == WordAt(d, 27)
       case Confirm(mapId, timeout) =>
         WordAt(d, 19) == 2 && |d| == 39 && mapId == WordAt(d, 23) && timeout == WordAt(d, 35)
       case Active(mapId, shutdown, start, faction) =>
         && WordAt(d, 19) == 3 && |d| == 44 && mapId == WordAt(d, 23)
         && shutdown == WordAt(d, 35) && start == WordAt(d, 39) && faction == d[43]
  }

  predicate StatusAt(s: Status, d: seq<byte>) {
    match s
    case NoStatus(slot) => |d| == 12 && NothingQueued(d) && slot == WordAt(d, 0)
    case Status(head, details, stage) =>
      HeadAt(head, d) && !NothingQueued(d) && DetailsAt(details, d) && StageAt(stage, d)
  }

  // ---------- reading at a place ----------

  lemma ReadsByte(d: seq<byte>, i: nat)
    requires i <= |d|
    ensures U8(d[i..]) == if i < |d| then Success(Parsed(d[i], d[i + 1..])) else Failure(NotEnough)
  {
    if i < |d| {
      DropDrop(d, i, 1);
    }
  }

  lemma ReadsShort(d: seq<byte>, i: nat)
    requires i <= |d|
    ensures U16(d[i..]).Success? <==> i + 2 <= |d|
    ensures i + 2 <= |d| ==> U16(d[i..]).value.rest == d[i + 2..]
    ensures i + 2 > |d| ==> U16(d[i..]) == Failure(NotEnough)
  {
    if i + 2 <= |d| {
      DropDrop(d, i, 2);
    }
  }

  lemma ReadsWord(d: seq<byte>, i: nat)
    requires i <= |d|
    ensures U32(d[i..]) == if i + 4 <= |d| then Success(Parsed(WordAt(d, i), d[i + 4..])) else Failure(NotEnough)
  {
    if i + 4 <= |d| {
      DropDrop(d, i, 4);
      DropTake(d, i, 4);
    }
  }

  lemma ReadsLong(d: seq<byte>, i: nat)
    requires i <= |d|
    ensures U64(d[i..]).Success? <==> i + 8 <= |d|
    ensures i + 8 <= |d| ==> U64(d[i..]).value.rest == d[i + 8..]
    ensures i + 8 > |d| ==> U64(d[i..]) == Failure(NotEnough)
  {
    if i + 8 <= |d| {
      DropDrop(d, i, 8);
    }
  }

  lemma ReadsHead(d: seq<byte>)
    ensures ReadHead(d) == if |d| >= 12 then Success(Parsed(Head(WordAt(d, 0), d[4], d[5], WordAt(d, 6)), d[12..]))
                           else Failure(NotEnough)
  {
    assert d[0..] == d;
    ReadsWord(d, 0);
    if |d| >= 4 {
      ReadsByte(d, 4);
      if |d| >= 5 {
        ReadsByte(d, 5);
        if |d| >= 6 {
          ReadsWord(d, 6);
          if |d| >= 10 {
            ReadsShort(d, 10);
          }
        }
      }
    }
  }

  lemma ReadsDetails(d: seq<byte>)
    requires |d| >= 12
    ensures ReadDetails(d[12..])
            == if |d| >= 23 then Success(Parsed(Details(d[12], d[13], WordAt(d, 14), d[18] != 0, WordAt(d, 19)), d[23..]))
               else Failure(NotEnough)
  {
    ReadsByte(d, 12);
    if |d| >= 13 {
      ReadsByte(d, 13);
      if |d| >= 14 {
        ReadsWord(d, 14);
        if |d| >= 18 {
          ReadsByte(d, 18);
          if |d| >= 19 {
            ReadsWord(d, 19);
          }
        }
      }
    }
  }

  lemma ReadsQueued(d: seq<byte>)
    requires |d| >= 23
    ensures ReadQueued(d[23..]) == if |d| >= 31 then Success(Parsed(Queued(WordAt(d, 23), WordAt(d, 27)), d[31..]))
                                   else Failure(NotEnough)
  {
    ReadsWord(d, 23);
    if |d| >= 27 {
      ReadsWord(d, 27);
    }
  }

  lemma ReadsConfirm(d: seq<byte>)
    requires |d| >= 23
    ensures ReadConfirm(d[23..]) == if |d| >= 39 then Success(Parsed(Confirm(WordAt(d, 23), WordAt(d, 35)), d[39..]))
                                    else Failure(NotEnough)
  {
    ReadsWord(d, 23);
    if |d| >= 27 {
      ReadsLong(d, 27);
      if |d| >= 35 {
        ReadsWord(d, 35);
      }
    }
  }

  lemma ReadsActive(d: seq<byte>)
    requires |d| >= 23
    ensures ReadActive(d[23..])
            == if |d| >= 44 then Success(Parsed(Active(WordAt(d, 23), WordAt(d, 35), WordAt(d, 39), d[43]), d[44..]))
               else Failure(NotEnough)
  {
    ReadsWord(d, 23);
    if |d| >= 27 {
      ReadsLong(d, 27);
      if |d| >= 35 {
        ReadsWord(d, 35);
        if |d| >= 39 {
          ReadsWord(d, 39);
          if |d| >= 43 {
            ReadsByte(d, 43);
          }
        }
      }
    }
  }

  lemma NothingBehind(d: seq<byte>, i: nat)
    ensures i <= |d| ==> (d[i..] == [] <==> |d| == i)
  {
  }

  lemma StageIs(s: Stage, d: seq<byte>)
    requires |d| >= 23
    ensures ReadStage(WordAt(d, 19), d[23..]) == Success(Parsed(s, [])) <==> StageAt(s, d)
  {
    ReadsQueued(d);
    NothingBehind(d, 31);
    ReadsConfirm(d);
    NothingBehind(d, 39);
    ReadsActive(d);
    NothingBehind(d, 44);
  }

  lemma FinishIs<T>(x: T, y: T, rest: seq<byte>)
    ensures Finish(x, rest) == Success(y) <==> x == y && rest == []
  {
  }

  lemma DetailsIs(d: seq<byte>) returns (details: Details)
    requires |d| >= 23
    ensures ReadDetails(d[12..]) == Success(Parsed(details, d[23..])) && details.status == WordAt(d, 19)
    ensures forall x :: DetailsAt(x, d) <==> x == details
  {
    ReadsDetails(d);
    details := ReadDetails(d[12..]).value.value;
  }

  lemma BehindDetails(h: Head, details: Details, d: seq<byte>)
    requires |d| >= 23 && !IsNone(h) && details.status == WordAt(d, 19)
    requires ReadDetails(d[12..]) == Success(Parsed(details, d[23..]))
    ensures var stage := ReadStage(WordAt(d, 19), d[23..]);
            ReadBehind(h, d[12..]) == if stage.Failure? then Failure(stage.error)
                                      else Finish(Status(h, details, stage.value.value), stage.value.rest)
  {
  }

  lemma BehindIs(s: Status, h: Head, d: seq<byte>)
    requires HeadAt(h, d) && !NothingQueued(d)
    ensures ReadBehind(h, d[12..]) == Success(s) <==> s.Status? && s.head == h && DetailsAt(s.details, d) && StageAt(s.stage, d)
  {
    if |d| < 23 {
      ReadsDetails(d);
    } else {
      var details := DetailsIs(d);
      BehindDetails(h, details, d);
      var stage := ReadStage(WordAt(d, 19), d[23..]);
      if s.Status? {
        StageIs(s.stage, d);
      }
      if stage.Success? {
        StageIs(stage.value.value, d);
        FinishIs(Status(h, details, stage.value.value), s, stage.value.rest);
      }
    }
  }

  /** A body is read as a status exactly when it has it in these places and nothing behind. */
  lemma StatusMeaning(body: seq<byte>, s: Status)
    ensures StatusOf(body) == Success(s) <==> StatusAt(s, body)
  {
    ReadsHead(body);
    if |body| >= 12 {
      var h := ReadHead(body).value.value;
      if NothingQueued(body) {
        FinishIs(NoStatus(h.slot), s, body[12..]);
      } else {
        BehindIs(s, h, body);
      }
    }
  }

  /** How long a body has to be, as far as its bytes say. */
  function LengthFor(d: seq<byte>): nat {
    if |d| < 12 || NothingQueued(d) then 12
    else if |d| < 23 then 23
    else match WordAt(d, 19)
      case 1 => 31
      case 2 => 39
      case 3 => 44
      case _ => 23
  }

  /** A stage is there, is too short, or is none of the three. */
  lemma StageLength(d: seq<byte>)
    requires |d| >= 23 && !NothingQueued(d)
    ensures var stage := ReadStage(WordAt(d, 19), d[23..]);
            if WordAt(d, 19) !in {1, 2, 3} then stage == Failure(UnknownStatus(WordAt(d, 19)))
            else if |d| < LengthFor(d) then stage == Failure(NotEnough)
            else stage.Success? && (stage.value.rest == [] <==> |d| == LengthFor(d))
  {
    ReadsQueued(d);
    NothingBehind(d, 31);
    ReadsConfirm(d);
    NothingBehind(d, 39);
    ReadsActive(d);
    NothingBehind(d, 44);
  }

  /** A status that is none of the three is refused as such, whatever is behind it. */
  lemma UnknownMeaning(body: seq<byte>, status: nat)
    ensures StatusOf(body) == Failure(UnknownStatus(status))
            <==> |body| >= 23 && !NothingQueued(body) && WordAt(body, 19) == status && status !in {1, 2, 3}
  {
    ReadsHead(body);
    if |body| >= 12 && !NothingQueued(body) {
      if |body| < 23 {
        ReadsDetails(body);
      } else {
        var details := DetailsIs(body);
        BehindDetails(ReadHead(body).value.value, details, body);
        StageLength(body);
      }
    }
  }

  /** Unless its status is unknown, a body that is not read is too short or too long. */
  lemma LengthMeaning(body: seq<byte>)
    requires StatusOf(body).Failure? && !StatusOf(body).error.UnknownStatus?
    ensures StatusOf(body).error == if |body| < LengthFor(body) then NotEnough else TrailingBytes
    ensures |body| != LengthFor(body)
  {
    ReadsHead(body);
    NothingBehind(body, 12);
    if |body| >= 12 && !NothingQueued(body) {
      if |body| < 23 {
        ReadsDetails(body);
      } else {
        var details := DetailsIs(body);
        BehindDetails(ReadHead(body).value.value, details, body);
        StageLength(body);
      }
    }
  }

  // ---------- what becomes of it ----------

  /** The head and details of a packet, and the queue: the type with the queue mask set. */
  predicate HeaderFrom(head: Head, details: Details, queueId: uint64, d: seq<byte>) {
    HeadAt(head, d) && DetailsAt(details, d) && queueId == 0x1F10_0000_0000_0000 + WordAt(d, 6)
  }

  predicate QueuedFrom(p: Packet, ticket: Ticket, d: seq<byte>) {
    && p.StatusQueued? && p.ticket == ticket && HeaderFrom(p.head, p.details, p.queueId, d)
    && |d| == 31 && p.average == WordAt(d, 23) && p.wait == WordAt(d, 27)
  }

  predicate NeedFrom(p: Packet, ticket: Ticket, d: seq<byte>) {
    && p.StatusNeed? && p.ticket == ticket && HeaderFrom(p.head, p.details, p.queueId, d)
    && |d| == 39 && p.mapId == WordAt(d, 23) && p.timeout == WordAt(d, 35)
  }

  predicate ActiveFrom(p: Packet, ticket: Ticket, d: seq<byte>) {
    && p.StatusActive? && p.ticket == ticket && HeaderFrom(p.head, p.details, p.queueId, d)
    && |d| == 44 && p.mapId == WordAt(d, 23) && p.shutdown == WordAt(d, 35) && p.start == WordAt(d, 39)
    && (p.alliance <==> d[43] != 0)
  }

  /** The packets of a body: an active one without a shutdown time starts the battleground first. */
  predicate PacketsFrom(packets: seq<Packet>, requester: Guid128, time: int64, d: seq<byte>) {
    |d| >= 12
    && var ticket := Ticket(requester, (WordAt(d, 0) + 1) % 0x1_0000_0000, time);
       if NothingQueued(d) then packets == [StatusNone(ticket)]
       else
         |d| >= 23
         && match WordAt(d, 19)
            case 1 => |packets| == 1 && QueuedFrom(packets[0], ticket, d)
            case 2 => |packets| == 1 && NeedFrom(packets[0], ticket, d)
            case _ =>
              |d| == 44
              && if WordAt(d, 35) == 0 then
                   |packets| == 2 && packets[0] == BattlegroundInit(1154756799) && ActiveFrom(packets[1], ticket, d)
                 else |packets| == 1 && ActiveFrom(packets[0], ticket, d)
  }

  lemma PacketsOfStatus(s: Status, requester: Guid128, time: int64, d: seq<byte>)
    requires StatusAt(s, d)
    ensures PacketsFrom(PacketsFor(s, requester, time), requester, time, d)
  {
  }

  /** The packets an accepted body becomes, with the join time of its ticket or the clock. */
  lemma PacketsMeaning(body: seq<byte>, requester: Guid128, queues: Queues, now: int64)
    ensures var packets := Translated(body, requester, queues, now);
            && (packets.Success? <==> exists s :: StatusAt(s, body))
            && (packets.Success? ==>
                  |body| >= 12
                  && var id := (WordAt(body, 0) + 1) % 0x1_0000_0000;
                     var time := if id in queues && queues[id].joinedAt != 0 then queues[id].joinedAt else now;
                     PacketsFrom(packets.value, requester, time, body))
  {
    if s :| StatusAt(s, body) {
      StatusMeaning(body, s);
    }
    if StatusOf(body).Success? {
      var s := StatusOf(body).value;
      StatusMeaning(body, s);
      TranslatedIs(s, body, requester, queues, now);
      PacketsOfStatus(s, requester, JoinTime(queues, TicketOf(s.Slot()), now), body);
    }
  }
}

/**
 Sender, network and receiver together. The network may drop, repeat and reorder packets and
 acknowledgements: any packet ever sent and any acknowledgement ever given may arrive at any
 time, any number of times.

 Beside the two parties runs a ledger with one entry per numbered control, in the order they
 were sent. It never forgets or reorders an entry, knows sends by their place and not by their
 wrapping number, and is advanced by the events alone. The sender's queue, its numbers and its
 repeat switch are proved to agree with it in every run.
 */
module AckProtocol {
  import opened Options
  import opened SerialNumbers
  import opened Wire
  import opened ControlSending
  import opened ControlReceiving

  datatype Fate = Live | Acked | Superseded(place: nat) | GivenUp | Expired | Dropped

  datatype Entry = Entry(index: nat, p: Pending, firstWait: nat, fate: Fate)

  datatype Event =
    | NewSend(key: ControlKey, index: nat)
    | AckFor(index: nat, firstProof: bool, now: nat)
    | Unproven(now: nat)
    | Poll(now: nat)
    | SessionOver

  /** What one event does to one entry; an entry that has left stays as it left. */
  function Advance(event: Event, e: Entry): Entry {
    if e.fate != Live then e
    else
      match event
      case NewSend(key, index) => if e.p.key == key then e.(fate := Superseded(index)) else e
      case AckFor(index, firstProof, now) =>
        if e.index == index then e.(fate := Acked)
        else if firstProof then e.(p := e.p.(nextAt := now + e.p.wait))
        else e
      case Unproven(now) =>
        if e.p.key.IsAct() && Age(now, e.p.sentAt) >= REPEAT_WINDOW then e.(fate := Expired) else e
      case Poll(now) =>
        if Repeats(e.p, now)
        then e.(p := e.p.(repeats := e.p.repeats + 1, wait := 2 * e.p.wait, nextAt := now + 2 * e.p.wait))
        else if GivesUp(e.p, now) then e.(fate := GivenUp)
        else e
      case SessionOver => e.(fate := Dropped)
  }

  function Advanced(event: Event, ledger: seq<Entry>): (after: seq<Entry>)
    ensures |after| == |ledger|
    ensures forall i :: 0 <= i < |ledger| ==> after[i] == Advance(event, ledger[i])
  {
    seq(|ledger|, i requires 0 <= i < |ledger| => Advance(event, ledger[i]))
  }

  function LiveOf(ledger: seq<Entry>): seq<Pending> {
    if ledger == [] then []
    else
      var e := ledger[|ledger| - 1];
      var rest := LiveOf(ledger[..|ledger| - 1]);
      if e.fate == Live then rest + [e.p] else rest
  }

  datatype World = World(
    first: nonzero, sender: Sender, receiver: Receiver, clock: nat,
    ledger: seq<Entry>,
    sessionStart: nat,               // the place of the first send of this session
    proven: bool,                    // an ack for a send of this session has arrived in it
    acked: set<nat>,                 // places the server has acknowledged
    delivered: set<nat>,             // places that reached the server since it last started over
    applied: map<ControlKey, nat>)   // the place of the packet last applied, since then

  datatype Step =
    | Send(packet: seq<u8>, now: nat, rtt: nat)
    | Deliver(place: nat)
    | AckArrives(place: nat, now: nat)
    | Tick(now: nat)
    | SessionEnd
    | ServerStartsOver

  function Start(number: u32): World {
    var sender := Sender.StartingAt(number);
    World(sender.nextSeq, sender, Fresh, 0, [], 0, false, {}, {}, map[])
  }

  /**
   The steps of the environment: real packets, real acknowledgements, a clock that does not run
   back, and no acknowledgement that arrives a whole cycle of numbers late.
   */
  predicate Enabled(w: World, step: Step) {
    match step
    case Send(packet, now, _) =>
      && w.clock <= now
      && (IsControlPacket(packet) || NumberedControl(packet + ToBytes(w.sender.nextSeq)).None?)
      && |w.ledger| + 1 < w.sessionStart + CYCLE
    case Deliver(place) => place < |w.ledger|
    case AckArrives(place, now) => w.clock <= now && place in w.acked && |w.ledger| <= place + CYCLE
    case Tick(now) => w.clock <= now
    case SessionEnd => true
    case ServerStartsOver => true
  }

  /** A new send takes the next place; what it supersedes leaves. */
  function Enter(w: World, sender: Sender, p: Pending): World {
    var place := |w.ledger|;
    w.(sender := sender, clock := p.sentAt,
       ledger := Advanced(NewSend(p.key, place), w.ledger) + [Entry(place, p, p.wait, Live)])
  }

  function Next(w: World, step: Step): World {
    match step
    case Send(packet, now, rtt) =>
      var (sender, bytes) := w.sender.Send(packet, now, rtt);
      (match NumberedControl(packet + ToBytes(Number(w.first, |w.ledger|)))
       case None => w.(sender := sender, clock := now)
       case Some((key, number)) =>
         var wait := FirstWait(rtt);
         Enter(w, sender, Pending(key, number, now, bytes, now + wait, wait, 0)))
    case Deliver(place) =>
      if place >= |w.ledger| then w
      else
        (match NumberedControl(w.ledger[place].p.bytes)
         case None => w
         case Some((key, number)) =>
           var (receiver, verdict) := w.receiver.Judge(key, number);
           w.(receiver := receiver, acked := w.acked + {place}, delivered := w.delivered + {place},
              applied := if verdict == Apply then w.applied[key := place] else w.applied))
    case AckArrives(place, now) =>
      if place >= |w.ledger| then w
      else
        var sender := w.sender.Acknowledged(w.ledger[place].p.number, now);
        if place < w.sessionStart then w.(sender := sender, clock := now)
        else w.(sender := sender, clock := now, proven := true,
                ledger := Advanced(AckFor(place, !w.proven, now), w.ledger))
    case Tick(now) =>
      w.(sender := w.sender.DueAt(now).0, clock := now,
         ledger := Advanced(if w.proven then Poll(now) else Unproven(now), w.ledger))
    case SessionEnd =>
      w.(sender := w.sender.SessionEnded(), sessionStart := |w.ledger|, proven := false,
         ledger := Advanced(SessionOver, w.ledger))
    case ServerStartsOver =>
      w.(receiver := Fresh, delivered := {}, applied := map[])
  }

  /** Step `i` of a run: one the environment may take, and what comes of it. */
  predicate Follows(worlds: seq<World>, steps: seq<Step>, i: nat)
    requires i < |steps| && |worlds| == |steps| + 1
  {
    Enabled(worlds[i], steps[i]) && worlds[i + 1] == Next(worlds[i], steps[i])
  }

  /** A run of a client that starts at `number`: the steps and the states they pass through. */
  predicate IsRun(number: u32, worlds: seq<World>, steps: seq<Step>) {
    && |worlds| == |steps| + 1 && worlds[0] == Start(number)
    && forall i :: 0 <= i < |steps| ==> Follows(worlds, steps, i)
  }

  lemma RunUpTo(number: u32, worlds: seq<World>, steps: seq<Step>, n: nat)
    requires IsRun(number, worlds, steps) && n <= |steps|
    ensures IsRun(number, worlds[..n + 1], steps[..n])
  {
    var seen, taken := worlds[..n + 1], steps[..n];
    forall i | 0 <= i < n
      ensures Follows(seen, taken, i)
    {
      assert Follows(worlds, steps, i);
    }
  }

  // ---- the queue is the live part of the ledger --------------------------------

  predicate Matches(event: Event, sweep: Sweep, e: Entry) {
    var after := Advance(event, e);
    if e.fate != Live then after.fate != Live
    else
      match Visit(sweep, e.p)
      case None => after.fate != Live
      case Some(q) => after.fate == Live && after.p == q
  }

  lemma {:induction false} SweepFollowsLedger(event: Event, sweep: Sweep, ledger: seq<Entry>)
    requires forall i :: 0 <= i < |ledger| ==> Matches(event, sweep, ledger[i])
    ensures LiveOf(Advanced(event, ledger)) == Swept(sweep, LiveOf(ledger))
  {
    if ledger != [] {
      var n := |ledger| - 1;
      SweepFollowsLedger(event, sweep, ledger[..n]);
      assert Advanced(event, ledger)[..n] == Advanced(event, ledger[..n]);
      var rest := LiveOf(ledger[..n]);
      assert Matches(event, sweep, ledger[n]);
      if ledger[n].fate == Live {
        assert (rest + [ledger[n].p])[..|rest|] == rest;
      }
    }
  }

  lemma {:induction false} NothingLive(ledger: seq<Entry>)
    requires forall i :: 0 <= i < |ledger| ==> ledger[i].fate != Live
    ensures LiveOf(ledger) == []
  {
    if ledger != [] {
      NothingLive(ledger[..|ledger| - 1]);
    }
  }

  /** What is true of the entry at place `i`, whatever has happened since. */
  predicate EntryHolds(w: World, i: nat)
    requires i < |w.ledger|
  {
    var e := w.ledger[i];
    && e.index == i
    && e.p.number == Number(w.first, i)
    && NumberedControl(e.p.bytes) == Some((e.p.key, e.p.number))
    && (e.p.key.IsAct() ==> e.p.key.number == e.p.number)
    && FateHolds(w, e)
    && ScheduleHolds(e)
    && e.p.sentAt <= w.clock
  }

  predicate FateHolds(w: World, e: Entry) {
    match e.fate
    case Live => w.sessionStart <= e.index && (!w.proven ==> e.p.repeats == 0)
    case Acked => e.index in w.acked
    case Superseded(later) => e.index < later < |w.ledger| && w.ledger[later].p.key == e.p.key && !e.p.key.IsAct()
    case GivenUp => e.p.repeats == MAX_REPEATS
    case Expired => e.p.key.IsAct() && e.p.repeats == 0 && e.p.sentAt + REPEAT_WINDOW <= w.clock
    case Dropped => e.index < w.sessionStart
  }

  /** The doubling waits, and how early the next repeat can be. */
  predicate ScheduleHolds(e: Entry) {
    && FIRST_REPEAT_MIN <= e.firstWait <= FIRST_REPEAT_MAX
    && e.p.repeats <= MAX_REPEATS
    && e.p.wait == Pow2(e.p.repeats) * e.firstWait
    && e.p.sentAt + (Pow2(e.p.repeats + 1) - 1) * e.firstWait <= e.p.nextAt
  }

  /** What waits is the last send under its key. */
  predicate OneLivePerKey(ledger: seq<Entry>) {
    forall i, j :: 0 <= i < j < |ledger| && ledger[i].fate == Live ==> ledger[i].p.key != ledger[j].p.key
  }

  predicate SenderAgrees(w: World) {
    && w.sessionStart <= |w.ledger| < w.sessionStart + CYCLE
    && w.sender.nextSeq == Number(w.first, |w.ledger|)
    && w.sender.sessionFirst == Number(w.first, w.sessionStart)
    && w.sender.serverAcknowledges == w.proven
    && w.sender.pending == LiveOf(w.ledger)
    && (forall i :: 0 <= i < |w.ledger| ==> EntryHolds(w, i))
    && OneLivePerKey(w.ledger)
    && (forall i :: i in w.acked ==> i < |w.ledger|)
  }

  lemma ScheduleKept(event: Event, e: Entry)
    requires ScheduleHolds(e)
    requires event.AckFor? ==> e.p.sentAt <= event.now && (event.firstProof && e.fate == Live ==> e.p.repeats == 0)
    ensures ScheduleHolds(Advance(event, e))
  {
    if event.Poll? && e.fate == Live && Repeats(e.p, event.now) {
      Doubling(e.p.repeats, e.firstWait);
    }
  }

  lemma AdvanceKeepsKeysApart(event: Event, ledger: seq<Entry>)
    requires OneLivePerKey(ledger)
    ensures OneLivePerKey(Advanced(event, ledger))
  {
  }

  lemma KeysApartAfterSend(ledger: seq<Entry>, p: Pending)
    requires OneLivePerKey(ledger)
    ensures OneLivePerKey(Advanced(NewSend(p.key, |ledger|), ledger) + [Entry(|ledger|, p, p.wait, Live)])
  {
  }

  /** Nothing but the clock, the server's side or a counter moved. */
  lemma ClockRuns(w: World, after: World)
    requires SenderAgrees(w) && w.clock <= after.clock && w.acked <= after.acked
    requires after.first == w.first && after.sessionStart == w.sessionStart && after.proven == w.proven
    requires after.ledger == w.ledger
    ensures forall i :: 0 <= i < |after.ledger| ==> EntryHolds(after, i)
  {
    forall i | 0 <= i < |w.ledger|
      ensures EntryHolds(after, i)
    {
      assert EntryHolds(w, i);
    }
  }

  /** An event touches the fate and the schedule of an entry, nothing else. */
  lemma AdvancedEntryHolds(w: World, event: Event, after: World, i: nat)
    requires i < |w.ledger| && EntryHolds(w, i)
    requires after.first == w.first && w.clock <= after.clock && i < |after.ledger|
    requires after.ledger[i] == Advance(event, w.ledger[i]) && FateHolds(after, after.ledger[i])
    requires event.AckFor? ==> w.clock <= event.now && (event.firstProof ==> !w.proven)
    ensures EntryHolds(after, i)
  {
    ScheduleKept(event, w.ledger[i]);
    hide NumberedControl, Number, Pow2, ScheduleHolds, ControlKey.IsAct;
  }

  predicate FirstSend(w: World, p: Pending) {
    && p.number == Number(w.first, |w.ledger|)
    && NumberedControl(p.bytes) == Some((p.key, p.number))
    && (p.key.IsAct() ==> p.key.number == p.number)
    && FIRST_REPEAT_MIN <= p.wait <= FIRST_REPEAT_MAX && p.repeats == 0
    && w.clock <= p.sentAt && p.nextAt == p.sentAt + p.wait
    && |w.ledger| + 1 < w.sessionStart + CYCLE
  }

  lemma EnterAdvancesEntry(w: World, sender: Sender, p: Pending, i: nat)
    requires SenderAgrees(w) && FirstSend(w, p) && i < |w.ledger|
    ensures Matches(NewSend(p.key, |w.ledger|), Replace(p.key), w.ledger[i])
    ensures EntryHolds(Enter(w, sender, p), i)
  {
    assert EntryHolds(w, i);
    assert w.ledger[i].fate == Live ==> |w.ledger| < i + CYCLE;
    hide SenderAgrees, NumberedControl, Number, ScheduleHolds, Pow2;
    if w.ledger[i].fate == Live {
      NumbersDistinct(w.first, i, |w.ledger|);
    }
    AdvancedEntryHolds(w, NewSend(p.key, |w.ledger|), Enter(w, sender, p), i);
  }

  lemma NewEntryHolds(w: World, sender: Sender, p: Pending)
    requires FirstSend(w, p) && w.sessionStart <= |w.ledger|
    ensures EntryHolds(Enter(w, sender, p), |w.ledger|)
  {
    hide NumberedControl, Number;
    assert Pow2(0) == 1 && Pow2(1) == 2;
  }

  lemma EnterKeepsAgreement(w: World, sender: Sender, p: Pending)
    requires SenderAgrees(w) && FirstSend(w, p)
    requires sender == w.sender.(nextSeq := NextNumber(w.sender.nextSeq), sent := sender.sent,
                                 pending := Swept(Replace(p.key), w.sender.pending) + [p])
    ensures SenderAgrees(Enter(w, sender, p))
  {
    hide EntryHolds, Matches, NumberedControl, Number;
    var after := Enter(w, sender, p);
    var place := |w.ledger|;
    forall i | 0 <= i < place {
      EnterAdvancesEntry(w, sender, p, i);
    }
    NewEntryHolds(w, sender, p);
    SweepFollowsLedger(NewSend(p.key, place), Replace(p.key), w.ledger);
    assert after.ledger[..place] == Advanced(NewSend(p.key, place), w.ledger);
    KeysApartAfterSend(w.ledger, p);
    hide OneLivePerKey, FirstSend;
    assert after.sender.nextSeq == Number(w.first, place + 1) by {
      NumberSplit(w.first, place, 1);
      NumberClosed(Number(w.first, place), 1);
    }
  }

  /** The entry a packet gets when it is a control. */
  function Numbered(w: World, packet: seq<u8>, now: nat, rtt: nat): Option<Pending> {
    var bytes := packet + ToBytes(w.sender.nextSeq);
    match NumberedControl(bytes)
    case None => None
    case Some((key, number)) =>
      Some(Pending(key, number, now, bytes, now + FirstWait(rtt), FirstWait(rtt), 0))
  }

  lemma SendResult(w: World, packet: seq<u8>, now: nat, rtt: nat)
    requires w.sender.nextSeq == Number(w.first, |w.ledger|) && Enabled(w, Send(packet, now, rtt))
    ensures var (s, sender) := (w.sender, w.sender.Send(packet, now, rtt).0);
            match Numbered(w, packet, now, rtt)
            case None => Next(w, Send(packet, now, rtt)) == w.(clock := now)
            case Some(p) =>
              && FirstSend(w, p)
              && Next(w, Send(packet, now, rtt)) == Enter(w, sender, p)
              && sender == s.(nextSeq := NextNumber(s.nextSeq), sent := s.sent + 1,
                              pending := Swept(Replace(p.key), s.pending) + [p])
  {
    if NumberedControl(packet + ToBytes(w.sender.nextSeq)).Some? {
      NumberReadsBack(packet, w.sender.nextSeq, w.sender.nextSeq);
    }
    hide NumberedControl, Number, FirstWait, Swept, Advanced, ToBytes;
  }

  lemma SendKeepsAgreement(w: World, packet: seq<u8>, now: nat, rtt: nat)
    requires SenderAgrees(w) && Enabled(w, Send(packet, now, rtt))
    ensures SenderAgrees(Next(w, Send(packet, now, rtt)))
  {
    SendResult(w, packet, now, rtt);
    hide Next, Sender.Send, Numbered, NumberedControl;
    match Numbered(w, packet, now, rtt)
    case None => ClockRuns(w, w.(clock := now));
    case Some(p) => EnterKeepsAgreement(w, w.sender.Send(packet, now, rtt).0, p);
  }

  lemma AckAdvancesEntry(w: World, place: nat, now: nat, i: nat)
    requires SenderAgrees(w) && Enabled(w, AckArrives(place, now)) && w.sessionStart <= place && i < |w.ledger|
    ensures Matches(AckFor(place, !w.proven, now), Acknowledge(w.ledger[place].p.number, !w.proven, now), w.ledger[i])
    ensures EntryHolds(Next(w, AckArrives(place, now)), i)
  {
    assert EntryHolds(w, i) && EntryHolds(w, place);
    assert |w.ledger| < w.sessionStart + CYCLE;
    hide SenderAgrees, NumberedControl, Number, ScheduleHolds, Pow2;
    if w.ledger[i].fate == Live && i != place {
      NumbersDistinct(w.first, if i < place then i else place, if i < place then place else i);
    }
    AdvancedEntryHolds(w, AckFor(place, !w.proven, now), Next(w, AckArrives(place, now)), i);
  }

  lemma AckKeepsAgreement(w: World, place: nat, now: nat)
    requires SenderAgrees(w) && Enabled(w, AckArrives(place, now))
    ensures SenderAgrees(Next(w, AckArrives(place, now)))
  {
    var after := Next(w, AckArrives(place, now));
    assert EntryHolds(w, place);
    SessionIntervalExact(w.first, w.sessionStart, |w.ledger|, place);
    if place < w.sessionStart {
      ClockRuns(w, after);
    } else {
      forall i | 0 <= i < |w.ledger| {
        AckAdvancesEntry(w, place, now, i);
      }
      var event := AckFor(place, !w.proven, now);
      SweepFollowsLedger(event, Acknowledge(w.ledger[place].p.number, !w.proven, now), w.ledger);
      AdvanceKeepsKeysApart(event, w.ledger);
    }
  }

  lemma TickAdvancesEntry(w: World, now: nat, i: nat)
    requires SenderAgrees(w) && Enabled(w, Tick(now)) && i < |w.ledger|
    ensures w.proven ==> Matches(Poll(now), Sweep.Repeat(now), w.ledger[i])
    ensures !w.proven ==> Matches(Unproven(now), LetGo(now), w.ledger[i])
    ensures EntryHolds(Next(w, Tick(now)), i)
  {
    assert EntryHolds(w, i);
    hide SenderAgrees, NumberedControl, Number;
    AdvancedEntryHolds(w, if w.proven then Poll(now) else Unproven(now), Next(w, Tick(now)), i);
  }

  lemma TickKeepsAgreement(w: World, now: nat)
    requires SenderAgrees(w) && Enabled(w, Tick(now))
    ensures SenderAgrees(Next(w, Tick(now)))
  {
    forall i | 0 <= i < |w.ledger| {
      TickAdvancesEntry(w, now, i);
    }
    var event := if w.proven then Poll(now) else Unproven(now);
    SweepFollowsLedger(event, if w.proven then Sweep.Repeat(now) else LetGo(now), w.ledger);
    AdvanceKeepsKeysApart(event, w.ledger);
  }

  lemma SessionEndKeepsAgreement(w: World)
    requires SenderAgrees(w)
    ensures SenderAgrees(Next(w, SessionEnd))
  {
    var after := Next(w, SessionEnd);
    forall i | 0 <= i < |w.ledger|
      ensures EntryHolds(after, i)
    {
      assert EntryHolds(w, i);
    }
    NothingLive(after.ledger);
  }

  lemma StepKeepsAgreement(w: World, step: Step)
    requires SenderAgrees(w) && Enabled(w, step)
    ensures SenderAgrees(Next(w, step))
  {
    match step
    case Send(packet, now, rtt) => SendKeepsAgreement(w, packet, now, rtt);
    case AckArrives(place, now) => AckKeepsAgreement(w, place, now);
    case Tick(now) => TickKeepsAgreement(w, now);
    case SessionEnd => SessionEndKeepsAgreement(w);
    case Deliver(_) | ServerStartsOver =>
      ClockRuns(w, Next(w, step));
  }

  /** In every run the sender agrees with the ledger. */
  lemma {:induction false} SenderAgreesAlways(number: u32, worlds: seq<World>, steps: seq<Step>)
    requires IsRun(number, worlds, steps)
    ensures SenderAgrees(worlds[|steps|])
  {
    if steps != [] {
      var n := |steps| - 1;
      RunUpTo(number, worlds, steps, n);
      SenderAgreesAlways(number, worlds[..n + 1], steps[..n]);
      assert Follows(worlds, steps, n);
      StepKeepsAgreement(worlds[n], steps[n]);
    }
  }
}

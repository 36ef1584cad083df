/** What follows for every run of the acknowledged-control protocol. */
module AckResults {
  import opened SerialNumbers
  import opened Wire
  import opened ControlSending
  import opened ControlReceiving
  import opened AckProtocol

  // ---- no repeat without proof ------------------------------------------------

  /** The ack that arrives at step `j` is for a send of the session then running. */
  predicate AckOfSession(w: World, step: Step) {
    step.AckArrives? && w.sessionStart <= step.place < |w.ledger|
  }

  /** Since the last end of a session, an ack arrived for a send of the present one. */
  predicate ProofArrived(worlds: seq<World>, steps: seq<Step>)
    requires |worlds| == |steps| + 1
  {
    exists j :: 0 <= j < |steps| && AckOfSession(worlds[j], steps[j]) && SameSession(steps, j)
  }

  predicate SameSession(steps: seq<Step>, from: nat) {
    forall k :: from <= k < |steps| ==> steps[k] != SessionEnd
  }

  lemma {:induction false} ProofInTrace(worlds: seq<World>, steps: seq<Step>)
    requires |worlds| == |steps| + 1 && !worlds[0].proven
    requires forall i :: 0 <= i < |steps| ==>
               worlds[i + 1].proven ==
               (AckOfSession(worlds[i], steps[i]) || (worlds[i].proven && steps[i] != SessionEnd))
    ensures worlds[|steps|].proven <==> ProofArrived(worlds, steps)
  {
    if steps != [] {
      var n := |steps| - 1;
      var before := steps[..n];
      ProofInTrace(worlds[..n + 1], before);
      assert forall j :: 0 <= j < n ==> (SameSession(steps, j) <==> SameSession(before, j) && steps[n] != SessionEnd);
      if ProofArrived(worlds[..n + 1], before) {
        var j :| 0 <= j < n && AckOfSession(worlds[..n + 1][j], before[j]) && SameSession(before, j);
        assert AckOfSession(worlds[j], steps[j]);
      }
      if ProofArrived(worlds, steps) {
        var j :| 0 <= j <= n && AckOfSession(worlds[j], steps[j]) && SameSession(steps, j);
        assert j < n ==> AckOfSession(worlds[..n + 1][j], before[j]);
      }
    }
  }

  lemma ProvenStep(w: World, step: Step)
    ensures Next(w, step).proven == (AckOfSession(w, step) || (w.proven && step != SessionEnd))
  {
  }

  /** Repeating is on exactly when this session's server has shown that it acknowledges. */
  lemma ProvenMeansProofArrived(number: u32, worlds: seq<World>, steps: seq<Step>)
    requires IsRun(number, worlds, steps)
    ensures worlds[|steps|].sender.serverAcknowledges == worlds[|steps|].proven
    ensures worlds[|steps|].sender.serverAcknowledges <==> ProofArrived(worlds, steps)
  {
    SenderAgreesAlways(number, worlds, steps);
    forall i | 0 <= i < |steps|
      ensures worlds[i + 1].proven ==
              (AckOfSession(worlds[i], steps[i]) || (worlds[i].proven && steps[i] != SessionEnd))
    {
      assert Follows(worlds, steps, i);
      ProvenStep(worlds[i], steps[i]);
    }
    ProofInTrace(worlds, steps);
  }

  lemma {:induction false} DueMembers(pending: seq<Pending>, now: nat, bytes: seq<u8>)
    ensures bytes in DueFrom(pending, now).resend <==>
            exists p :: p in pending && Repeats(p, now) && p.bytes == bytes
  {
    if pending != [] {
      var n := |pending| - 1;
      assert pending == pending[..n] + [pending[n]];
      DueMembers(pending[..n], now, bytes);
      if exists p :: p in pending[..n] && Repeats(p, now) && p.bytes == bytes {
        var p :| p in pending[..n] && Repeats(p, now) && p.bytes == bytes;
        assert p in pending;
      }
    }
  }

  lemma {:induction false} LiveMembers(ledger: seq<Entry>, p: Pending)
    ensures p in LiveOf(ledger) <==> exists i :: 0 <= i < |ledger| && ledger[i].fate == Live && ledger[i].p == p
  {
    if ledger != [] {
      var n := |ledger| - 1;
      LiveMembers(ledger[..n], p);
      assert forall i :: 0 <= i < n ==> ledger[..n][i] == ledger[i];
    }
  }

  /** The send at `i`, waiting in this session, may be repeated at `now` for the next time. */
  predicate RepeatAllowed(w: World, i: nat, now: nat)
    requires i < |w.ledger|
  {
    var e := w.ledger[i];
    && e.fate == Live && w.sessionStart <= i
    && e.p.repeats < MAX_REPEATS
    && FIRST_REPEAT_MIN <= e.firstWait <= FIRST_REPEAT_MAX
    && e.p.sentAt + (Pow2(e.p.repeats + 1) - 1) * e.firstWait <= now
  }

  /** The poll at `now` sends the packet of this place again. */
  predicate HandsBack(w: World, i: nat, now: nat) {
    i < |w.ledger| && w.proven && w.ledger[i].fate == Live && Repeats(w.ledger[i].p, now)
  }

  /** Whatever `due` hands back to be sent again is the packet of such a place, and of each such place the packet is handed back. */
  lemma HandedBackIff(w: World, now: nat, bytes: seq<u8>)
    requires SenderAgrees(w)
    ensures bytes in w.sender.DueAt(now).1.resend <==>
            exists i: nat :: HandsBack(w, i, now) && w.ledger[i].p.bytes == bytes
  {
    assert w.sender.serverAcknowledges == w.proven && w.sender.pending == LiveOf(w.ledger);
    hide SenderAgrees, LiveOf, DueFrom, Repeats;
    DueMembers(w.sender.pending, now, bytes);
    forall p: Pending {
      LiveMembers(w.ledger, p);
    }
    if bytes in w.sender.DueAt(now).1.resend {
      var p :| p in w.sender.pending && Repeats(p, now) && p.bytes == bytes;
      var i :| 0 <= i < |w.ledger| && w.ledger[i].fate == Live && w.ledger[i].p == p;
      assert HandsBack(w, i, now);
    }
    if exists i: nat :: HandsBack(w, i, now) && w.ledger[i].p.bytes == bytes {
      var i: nat :| HandsBack(w, i, now) && w.ledger[i].p.bytes == bytes;
      assert w.ledger[i].p in w.sender.pending;
    }
  }

  lemma DueIsAllowed(w: World, now: nat, bytes: seq<u8>)
    requires SenderAgrees(w) && bytes in w.sender.DueAt(now).1.resend
    ensures w.proven
    ensures exists i :: 0 <= i < |w.ledger| && w.ledger[i].p.bytes == bytes && RepeatAllowed(w, i, now)
  {
    HandedBackIff(w, now, bytes);
    hide SenderAgrees, Sender.DueAt;
    var i: nat :| HandsBack(w, i, now) && w.ledger[i].p.bytes == bytes;
    WaitingIsAllowed(w, i, now);
  }

  lemma WaitingIsAllowed(w: World, i: nat, now: nat)
    requires SenderAgrees(w) && i < |w.ledger| && w.ledger[i].fate == Live && Repeats(w.ledger[i].p, now)
    ensures RepeatAllowed(w, i, now)
  {
    assert EntryHolds(w, i);
    hide SenderAgrees, NumberedControl, Number, Pow2;
  }

  /**
   Whatever `due` hands back to be sent again is a packet of this session still waiting, sent
   fewer than 1 + 4 times, not before its doubling waits are over - and only after the server
   of this session has shown that it acknowledges.
   */
  lemma NoRepeatWithoutProof(number: u32, worlds: seq<World>, steps: seq<Step>, now: nat, bytes: seq<u8>)
    requires IsRun(number, worlds, steps)
    requires bytes in worlds[|steps|].sender.DueAt(now).1.resend
    ensures ProofArrived(worlds, steps)
    ensures var w := worlds[|steps|];
            exists i :: 0 <= i < |w.ledger| && w.ledger[i].p.bytes == bytes && RepeatAllowed(w, i, now)
  {
    SenderAgreesAlways(number, worlds, steps);
    ProvenMeansProofArrived(number, worlds, steps);
    DueIsAllowed(worlds[|steps|], now, bytes);
  }

  /** How many polls of a run sent the packet of this place again. */
  function RepeatTicks(worlds: seq<World>, steps: seq<Step>, i: nat): nat
    requires |worlds| == |steps| + 1
  {
    if steps == [] then 0
    else
      var n := |steps| - 1;
      RepeatTicks(worlds[..n + 1], steps[..n], i)
      + if steps[n].Tick? && HandsBack(worlds[n], i, steps[n].now) then 1 else 0
  }

  function RepeatsOf(w: World, i: nat): nat {
    if i < |w.ledger| then w.ledger[i].p.repeats else 0
  }

  lemma RepeatsStep(w: World, step: Step, i: nat)
    requires SenderAgrees(w) && Enabled(w, step)
    ensures RepeatsOf(Next(w, step), i) ==
            RepeatsOf(w, i) + if step.Tick? && HandsBack(w, i, step.now) then 1 else 0
  {
    if step.Send? {
      SendResult(w, step.packet, step.now, step.rtt);
      hide Sender.Send, Numbered, NumberedControl;
    }
    hide SenderAgrees, NumberedControl, Swept, Receiver.Judge;
  }

  lemma {:induction false} RepeatTicksAre(number: u32, worlds: seq<World>, steps: seq<Step>, i: nat)
    requires IsRun(number, worlds, steps)
    ensures RepeatTicks(worlds, steps, i) == RepeatsOf(worlds[|steps|], i)
  {
    if steps != [] {
      var n := |steps| - 1;
      RunUpTo(number, worlds, steps, n);
      RepeatTicksAre(number, worlds[..n + 1], steps[..n], i);
      SenderAgreesAlways(number, worlds[..n + 1], steps[..n]);
      assert Follows(worlds, steps, n);
      RepeatsStep(worlds[n], steps[n], i);
    }
  }

  /** In no run, however long, is one control sent again more than four times. */
  lemma AtMostFourRepeats(number: u32, worlds: seq<World>, steps: seq<Step>, i: nat)
    requires IsRun(number, worlds, steps)
    ensures RepeatTicks(worlds, steps, i) <= MAX_REPEATS
  {
    RepeatTicksAre(number, worlds, steps, i);
    SenderAgreesAlways(number, worlds, steps);
    if i < |worlds[|steps|].ledger| {
      assert EntryHolds(worlds[|steps|], i);
    }
  }

  /** Until the proof, nothing waiting has been repeated. */
  lemma NothingRepeatedBeforeProof(number: u32, worlds: seq<World>, steps: seq<Step>, p: Pending)
    requires IsRun(number, worlds, steps) && !ProofArrived(worlds, steps)
    requires p in worlds[|steps|].sender.pending
    ensures p.repeats == 0
  {
    var w := worlds[|steps|];
    SenderAgreesAlways(number, worlds, steps);
    ProvenMeansProofArrived(number, worlds, steps);
    LiveMembers(w.ledger, p);
    var i :| 0 <= i < |w.ledger| && w.ledger[i].fate == Live && w.ledger[i].p == p;
    assert EntryHolds(w, i);
  }

  // ---- the queue itself ---------------------------------------------------------

  /** Where in the ledger the entries of the queue stand. */
  function PlacesOf(ledger: seq<Entry>): seq<nat> {
    if ledger == [] then []
    else
      var n := |ledger| - 1;
      if ledger[n].fate == Live then PlacesOf(ledger[..n]) + [n] else PlacesOf(ledger[..n])
  }

  lemma {:induction false} PlacesInOrder(ledger: seq<Entry>)
    ensures |PlacesOf(ledger)| == |LiveOf(ledger)|
    ensures forall k :: 0 <= k < |PlacesOf(ledger)| ==>
              var i := PlacesOf(ledger)[k];
              i < |ledger| && ledger[i].fate == Live && LiveOf(ledger)[k] == ledger[i].p
    ensures forall k, l :: 0 <= k < l < |PlacesOf(ledger)| ==> PlacesOf(ledger)[k] < PlacesOf(ledger)[l]
  {
    if ledger != [] {
      PlacesInOrder(ledger[..|ledger| - 1]);
    }
  }

  lemma LiveApart(w: World, i: nat, j: nat)
    requires SenderAgrees(w) && i < j < |w.ledger| && w.ledger[i].fate == Live && w.ledger[j].fate == Live
    ensures w.sessionStart <= i && w.ledger[i].p.key != w.ledger[j].p.key
    ensures w.ledger[i].p.number == Number(w.first, i) != w.ledger[j].p.number == Number(w.first, j)
  {
    assert EntryHolds(w, i) && EntryHolds(w, j);
    NumbersDistinct(w.first, i, j);
  }

  /** The queue is in the order of sending, one entry per setting and no number twice. */
  lemma PendingInSendOrder(number: u32, worlds: seq<World>, steps: seq<Step>, k: nat, l: nat)
    requires IsRun(number, worlds, steps)
    requires k < l < |worlds[|steps|].sender.pending|
    ensures var w := worlds[|steps|];
            && w.sender.pending[k].key != w.sender.pending[l].key
            && exists i, j :: w.sessionStart <= i < j < |w.ledger|
                 && w.sender.pending[k] == w.ledger[i].p && w.sender.pending[l] == w.ledger[j].p
                 && w.sender.pending[k].number == Number(w.first, i) != w.sender.pending[l].number == Number(w.first, j)
  {
    var w := worlds[|steps|];
    SenderAgreesAlways(number, worlds, steps);
    PlacesInOrder(w.ledger);
    var i, j := PlacesOf(w.ledger)[k], PlacesOf(w.ledger)[l];
    LiveApart(w, i, j);
    assert w.sender.pending[k] == w.ledger[i].p && w.sender.pending[l] == w.ledger[j].p;
  }

  // ---- which sends supersede which -----------------------------------------------------

  /** In every run a send is superseded only by a later one that sets the same control, told from the bytes of both. */
  lemma SupersededBySameControl(number: u32, worlds: seq<World>, steps: seq<Step>, i: nat)
    requires IsRun(number, worlds, steps)
    requires i < |worlds[|steps|].ledger| && worlds[|steps|].ledger[i].fate.Superseded?
    ensures var ledger := worlds[|steps|].ledger;
            var j := ledger[i].fate.place;
            && i < j < |ledger| && |ledger[i].p.bytes| > 6 && |ledger[j].p.bytes| > 6
            && SameControl(ledger[i].p.bytes, ledger[j].p.bytes)
            && !AsksForAct(ledger[i].p.bytes) && !AsksForAct(ledger[j].p.bytes)
  {
    SenderAgreesAlways(number, worlds, steps);
    var w := worlds[|steps|];
    assert EntryHolds(w, i) && EntryHolds(w, w.ledger[i].fate.place);
    hide SenderAgrees, NumberedControl, Number, AsksForAct;
    SameKeyIff(w.ledger[i].p.bytes, w.ledger[w.ledger[i].fate.place].p.bytes);
    KeyFromBytes(w.ledger[i].p.bytes);
    KeyFromBytes(w.ledger[w.ledger[i].fate.place].p.bytes);
  }

  /** And nothing that waits as a setting has a later send of the same control behind it. */
  lemma WaitingIsTheLastOfItsControl(number: u32, worlds: seq<World>, steps: seq<Step>, i: nat, j: nat)
    requires IsRun(number, worlds, steps) && i < j < |worlds[|steps|].ledger|
    requires worlds[|steps|].ledger[i].fate == Live
    ensures var (one, other) := (worlds[|steps|].ledger[i].p.bytes, worlds[|steps|].ledger[j].p.bytes);
            && |one| > 6 && |other| > 6
            && !(SameControl(one, other) && !AsksForAct(one) && !AsksForAct(other))
  {
    SenderAgreesAlways(number, worlds, steps);
    var w := worlds[|steps|];
    assert EntryHolds(w, i) && EntryHolds(w, j);
    hide SenderAgrees, NumberedControl, Number, AsksForAct;
    SameKeyIff(w.ledger[i].p.bytes, w.ledger[j].p.bytes);
  }

  // ---- conservation of sends ------------------------------------------------------

  datatype Tally = Tally(
    live: nat, acked: nat, superseded: nat, givenUp: nat, expired: nat, dropped: nat, repeats: nat)

  function Counted(t: Tally, e: Entry): Tally {
    var u := t.(repeats := t.repeats + e.p.repeats);
    match e.fate
    case Live => u.(live := u.live + 1)
    case Acked => u.(acked := u.acked + 1)
    case Superseded(_) => u.(superseded := u.superseded + 1)
    case GivenUp => u.(givenUp := u.givenUp + 1)
    case Expired => u.(expired := u.expired + 1)
    case Dropped => u.(dropped := u.dropped + 1)
  }

  function TallyOf(ledger: seq<Entry>): Tally {
    if ledger == [] then Tally(0, 0, 0, 0, 0, 0, 0)
    else Counted(TallyOf(ledger[..|ledger| - 1]), ledger[|ledger| - 1])
  }

  lemma {:induction false} TallyTotals(ledger: seq<Entry>)
    ensures var t := TallyOf(ledger);
            && t.live == |LiveOf(ledger)|
            && t.live + t.acked + t.superseded + t.givenUp + t.expired + t.dropped == |ledger|
  {
    if ledger != [] {
      TallyTotals(ledger[..|ledger| - 1]);
    }
  }

  lemma DueSnoc(pending: seq<Pending>, p: Pending, now: nat)
    ensures var (due, more) := (DueFrom(pending, now), DueFrom(pending + [p], now));
            && |more.resend| == |due.resend| + (if Repeats(p, now) then 1 else 0)
            && |more.givenUp| == |due.givenUp| + (if GivesUp(p, now) then 1 else 0)
  {
    assert (pending + [p])[..|pending|] == pending;
  }

  /** How many packets one entry puts into what `due` hands back, and how many keys. */
  function Handed(event: Event, e: Entry): (nat, nat) {
    if !event.Poll? || e.fate != Live then (0, 0)
    else (if Repeats(e.p, event.now) then 1 else 0, if GivesUp(e.p, event.now) then 1 else 0)
  }

  lemma CountedAfter(event: Event, e: Entry, before: Tally, after: Tally)
    ensures var (c, d) := (Counted(before, e), Counted(after, Advance(event, e)));
            && d.repeats - after.repeats == c.repeats - before.repeats + Handed(event, e).0
            && d.givenUp - after.givenUp == c.givenUp - before.givenUp + Handed(event, e).1
  {
  }

  /** The packets and keys `due` hands back from a queue when it is polled; nothing otherwise. */
  function HandedBack(event: Event, pending: seq<Pending>): Due {
    if event.Poll? then DueFrom(pending, event.now) else Due([], [])
  }

  lemma {:induction false} OnlyPollCounts(event: Event, ledger: seq<Entry>)
    ensures var (before, after) := (TallyOf(ledger), TallyOf(Advanced(event, ledger)));
            var due := HandedBack(event, LiveOf(ledger));
            && after.givenUp == before.givenUp + |due.givenUp|
            && after.repeats == before.repeats + |due.resend|
  {
    if ledger != [] {
      var n := |ledger| - 1;
      OnlyPollCounts(event, ledger[..n]);
      assert Advanced(event, ledger)[..n] == Advanced(event, ledger[..n]);
      CountedAfter(event, ledger[n], TallyOf(ledger[..n]), TallyOf(Advanced(event, ledger[..n])));
      if event.Poll? {
        DueSnoc(LiveOf(ledger[..n]), ledger[n].p, event.now);
      }
    }
  }

  predicate CountersAgree(w: World) {
    && w.sender.sent == |w.ledger|
    && w.sender.givenUp == TallyOf(w.ledger).givenUp
    && w.sender.repeated == TallyOf(w.ledger).repeats
  }

  lemma EnterKeepsCounters(w: World, sender: Sender, p: Pending)
    requires CountersAgree(w) && p.repeats == 0
    requires sender.sent == w.sender.sent + 1
    requires sender.givenUp == w.sender.givenUp && sender.repeated == w.sender.repeated
    ensures CountersAgree(Enter(w, sender, p))
  {
    var event := NewSend(p.key, |w.ledger|);
    OnlyPollCounts(event, w.ledger);
    assert Enter(w, sender, p).ledger[..|w.ledger|] == Advanced(event, w.ledger);
  }

  lemma SendKeepsCounters(w: World, packet: seq<u8>, now: nat, rtt: nat)
    requires SenderAgrees(w) && CountersAgree(w) && Enabled(w, Send(packet, now, rtt))
    ensures CountersAgree(Next(w, Send(packet, now, rtt)))
  {
    SendResult(w, packet, now, rtt);
    hide Next, Sender.Send, Numbered, NumberedControl;
    match Numbered(w, packet, now, rtt)
    case None =>
    case Some(p) => EnterKeepsCounters(w, w.sender.Send(packet, now, rtt).0, p);
  }

  lemma TickKeepsCounters(w: World, now: nat)
    requires SenderAgrees(w) && CountersAgree(w)
    ensures CountersAgree(Next(w, Tick(now)))
  {
    assert w.sender.pending == LiveOf(w.ledger) && w.sender.serverAcknowledges == w.proven;
    hide SenderAgrees, Swept;
    OnlyPollCounts(if w.proven then Poll(now) else Unproven(now), w.ledger);
  }

  lemma StepKeepsCounters(w: World, step: Step)
    requires SenderAgrees(w) && Enabled(w, step) && CountersAgree(w)
    ensures CountersAgree(Next(w, step))
  {
    hide NumberedControl, Swept, EntryHolds, Receiver.Judge, OneLivePerKey;
    match step
    case Send(packet, now, rtt) => SendKeepsCounters(w, packet, now, rtt);
    case AckArrives(place, now) => OnlyPollCounts(AckFor(place, !w.proven, now), w.ledger);
    case Tick(now) => TickKeepsCounters(w, now);
    case SessionEnd => OnlyPollCounts(SessionOver, w.ledger);
    case Deliver(_) =>
    case ServerStartsOver =>
  }

  lemma {:induction false} CountersAgreeAlways(number: u32, worlds: seq<World>, steps: seq<Step>)
    requires IsRun(number, worlds, steps)
    ensures CountersAgree(worlds[|steps|])
  {
    if steps != [] {
      var n := |steps| - 1;
      RunUpTo(number, worlds, steps, n);
      CountersAgreeAlways(number, worlds[..n + 1], steps[..n]);
      SenderAgreesAlways(number, worlds[..n + 1], steps[..n]);
      assert Follows(worlds, steps, n);
      StepKeepsCounters(worlds[n], steps[n]);
    }
  }

  /** The sender's own counters account for every numbered control, at every moment of every run. */
  lemma EverySendAccountedFor(number: u32, worlds: seq<World>, steps: seq<Step>)
    requires IsRun(number, worlds, steps)
    ensures var (s, t) := (worlds[|steps|].sender, TallyOf(worlds[|steps|].ledger));
            && s.sent == |s.pending| + t.acked + t.superseded + s.givenUp + t.expired + t.dropped
            && s.repeated == t.repeats <= MAX_REPEATS * s.sent
  {
    SenderAgreesAlways(number, worlds, steps);
    CountersAgreeAlways(number, worlds, steps);
    var w := worlds[|steps|];
    TallyTotals(w.ledger);
    RepeatsBounded(w, |w.ledger|);
    assert w.ledger[..|w.ledger|] == w.ledger;
  }

  lemma {:induction false} RepeatsBounded(w: World, n: nat)
    requires SenderAgrees(w) && n <= |w.ledger|
    ensures TallyOf(w.ledger[..n]).repeats <= MAX_REPEATS * n
  {
    if n > 0 {
      RepeatsBounded(w, n - 1);
      assert w.ledger[..n][..n - 1] == w.ledger[..n - 1];
      assert EntryHolds(w, n - 1);
    }
  }

  // ---- agreement --------------------------------------------------------------------

  /** The server's memory, told in places of the ledger. */
  ghost predicate ReceiverAgrees(w: World) {
    PlacesAgree(w) && NumbersAgree(w) && ActsAgree(w)
  }

  predicate PlacesAgree(w: World) {
    && w.delivered <= w.acked
    && (forall i :: i in w.acked ==> i < |w.ledger|)
    && (forall key :: key in w.applied ==>
          w.applied[key] in w.delivered && w.ledger[w.applied[key]].p.key == key)
    && (forall i :: i in w.delivered ==>
          w.ledger[i].p.key in w.applied && (w.ledger[i].p.key.IsAct() || i <= w.applied[w.ledger[i].p.key]))
  }

  ghost predicate NumbersAgree(w: World) {
    && (forall key :: key in w.receiver.lastApplied <==> key in w.applied && !key.IsAct())
    && (forall key :: key in w.receiver.lastApplied ==>
          w.receiver.lastApplied[key] == Number(w.first, w.applied[key]))
  }

  predicate ActsAgree(w: World) {
    forall n :: n in w.receiver.actsSeen ==> ActApplied(w, n)
  }

  predicate ActApplied(w: World, n: u32) {
    exists key :: key in w.applied && key.IsAct() && key.number == n
  }

  /** What is delivered lies near what the server last applied under the same key or number. */
  predicate NearWhatWasApplied(w: World, place: nat)
    requires place < |w.ledger|
  {
    var p := w.ledger[place].p;
    forall key :: key in w.applied ==>
      key == p.key || (key.IsAct() && p.key.IsAct() && key.number == p.number) ==> Near(place, w.applied[key])
  }

  /** Of every packet delivered in a run. */
  predicate DeliveriesNear(worlds: seq<World>, steps: seq<Step>)
    requires |worlds| == |steps| + 1
  {
    forall n :: 0 <= n < |steps| ==> DeliveredNear(worlds[n], steps[n])
  }

  predicate DeliveredNear(w: World, step: Step) {
    step.Deliver? ==> step.place < |w.ledger| && NearWhatWasApplied(w, step.place)
  }

  /** A setting is judged by its place: newer than the last one applied, or not applied. */
  lemma SettingJudgedByPlace(w: World, place: nat)
    requires SenderAgrees(w) && ReceiverAgrees(w) && Enabled(w, Deliver(place)) && NearWhatWasApplied(w, place)
    requires !w.ledger[place].p.key.IsAct()
    ensures var (p, applied) := (w.ledger[place].p, w.applied);
            w.receiver.Judge(p.key, p.number).1 ==
            if p.key !in applied || applied[p.key] < place then Apply
            else if applied[p.key] == place then Verdict.Repeat
            else Stale
  {
    assert EntryHolds(w, place);
    var p := w.ledger[place].p;
    if p.key in w.applied {
      IssueOrder(w.first, place, w.applied[p.key]);
    }
  }

  /** A setting is passed over only for a packet that sets the same control, told from the bytes of both. */
  lemma StaleOnlyBehindSameControl(w: World, place: nat)
    requires SenderAgrees(w) && ReceiverAgrees(w) && Enabled(w, Deliver(place)) && NearWhatWasApplied(w, place)
    requires !w.ledger[place].p.key.IsAct()
    requires w.receiver.Judge(w.ledger[place].p.key, w.ledger[place].p.number).1 != Apply
    ensures exists later: nat :: place <= later < |w.ledger| && later in w.delivered
              && |w.ledger[place].p.bytes| > 6 && |w.ledger[later].p.bytes| > 6
              && SameControl(w.ledger[place].p.bytes, w.ledger[later].p.bytes) && !AsksForAct(w.ledger[later].p.bytes)
  {
    SettingJudgedByPlace(w, place);
    var later := w.applied[w.ledger[place].p.key];
    assert EntryHolds(w, place) && EntryHolds(w, later);
    hide SenderAgrees, NumberedControl, Number, AsksForAct;
    SameKeyIff(w.ledger[place].p.bytes, w.ledger[later].p.bytes);
    KeyFromBytes(w.ledger[later].p.bytes);
  }

  /** An act is either done now, or this very act was done before. */
  lemma ActJudgedByPlace(w: World, place: nat)
    requires SenderAgrees(w) && ReceiverAgrees(w) && Enabled(w, Deliver(place)) && NearWhatWasApplied(w, place)
    requires w.ledger[place].p.key.IsAct()
    ensures var p := w.ledger[place].p;
            match w.receiver.Judge(p.key, p.number).1
            case Apply => true
            case Repeat => p.key in w.applied && w.applied[p.key] == place
            case Stale => false
  {
    assert EntryHolds(w, place);
    var p := w.ledger[place].p;
    if p.number in w.receiver.actsSeen {
      assert ActApplied(w, p.number);
      var key :| key in w.applied && key.IsAct() && key.number == p.number;
      assert EntryHolds(w, w.applied[key]);
      IssueOrder(w.first, place, w.applied[key]);
    }
  }

  /** What a delivery changes, all of it on the server's side. */
  lemma DeliverResult(w: World, place: nat)
    requires SenderAgrees(w) && Enabled(w, Deliver(place))
    ensures var p := w.ledger[place].p;
            var (receiver, verdict) := w.receiver.Judge(p.key, p.number);
            Next(w, Deliver(place)) ==
            w.(receiver := receiver, acked := w.acked + {place}, delivered := w.delivered + {place},
               applied := if verdict == Apply then w.applied[p.key := place] else w.applied)
  {
    assert EntryHolds(w, place);
  }

  lemma DeliverKeepsReceiver(w: World, place: nat)
    requires SenderAgrees(w) && ReceiverAgrees(w) && Enabled(w, Deliver(place)) && NearWhatWasApplied(w, place)
    ensures ReceiverAgrees(Next(w, Deliver(place)))
  {
    assert EntryHolds(w, place);
    DeliverResult(w, place);
    if w.ledger[place].p.key.IsAct() {
      ActJudgedByPlace(w, place);
      ActKeepsReceiver(w, place, Next(w, Deliver(place)));
    } else {
      SettingJudgedByPlace(w, place);
      SettingKeepsReceiver(w, place, Next(w, Deliver(place)));
    }
  }

  lemma SettingKeepsReceiver(w: World, place: nat, after: World)
    requires ReceiverAgrees(w) && place < |w.ledger| && w.ledger[place].p.number == Number(w.first, place)
    requires var p := w.ledger[place].p;
             && !p.key.IsAct()
             && after.first == w.first && after.ledger == w.ledger
             && after.acked == w.acked + {place} && after.delivered == w.delivered + {place}
             && (if p.key !in w.applied || w.applied[p.key] < place
                 then after.applied == w.applied[p.key := place]
                      && after.receiver == w.receiver.(lastApplied := w.receiver.lastApplied[p.key := p.number])
                 else after.applied == w.applied && after.receiver == w.receiver)
    ensures ReceiverAgrees(after)
  {
    assert ActsAgree(after) by {
      forall n | n in after.receiver.actsSeen
        ensures ActApplied(after, n)
      {
        assert ActApplied(w, n);
        var key :| key in w.applied && key.IsAct() && key.number == n;
        assert key in after.applied;
      }
    }
  }

  lemma ActKeepsReceiver(w: World, place: nat, after: World)
    requires ReceiverAgrees(w) && place < |w.ledger|
    requires var p := w.ledger[place].p;
             && p.key.IsAct() && p.key.number == p.number
             && after.first == w.first && after.ledger == w.ledger
             && after.acked == w.acked + {place} && after.delivered == w.delivered + {place}
             && after.receiver.lastApplied == w.receiver.lastApplied
             && (if p.number in w.receiver.actsSeen
                 then after.applied == w.applied && p.key in w.applied && after.receiver == w.receiver
                 else after.applied == w.applied[p.key := place]
                      && after.receiver.actsSeen <= w.receiver.actsSeen + {p.number})
    ensures ReceiverAgrees(after)
  {
    assert ActsAgree(after) by {
      forall n | n in after.receiver.actsSeen
        ensures ActApplied(after, n)
      {
        if n in w.receiver.actsSeen {
          assert ActApplied(w, n);
          var key :| key in w.applied && key.IsAct() && key.number == n;
          assert key in after.applied;
        } else {
          assert w.ledger[place].p.key in after.applied;
        }
      }
    }
  }

  /** Steps on the client's side leave the server's memory true. */
  lemma OthersKeepReceiver(w: World, step: Step)
    requires SenderAgrees(w) && ReceiverAgrees(w) && Enabled(w, step) && !step.Deliver?
    ensures ReceiverAgrees(Next(w, step))
  {
    if step != ServerStartsOver {
      KeysStay(w, step);
      SameServerAgrees(w, Next(w, step));
    }
  }

  lemma KeysStay(w: World, step: Step)
    requires SenderAgrees(w) && Enabled(w, step) && !step.Deliver? && step != ServerStartsOver
    ensures KeysStayed(w, Next(w, step))
  {
  }

  predicate KeysStayed(w: World, after: World) {
    && after == after.(first := w.first, receiver := w.receiver, acked := w.acked, delivered := w.delivered,
                       applied := w.applied)
    && |w.ledger| <= |after.ledger|
    && forall i :: 0 <= i < |w.ledger| ==> after.ledger[i].p.key == w.ledger[i].p.key
  }

  lemma SameServerAgrees(w: World, after: World)
    requires ReceiverAgrees(w) && KeysStayed(w, after)
    ensures ReceiverAgrees(after)
  {
    assert ActsAgree(after) by {
      forall n | n in after.receiver.actsSeen
        ensures ActApplied(after, n)
      {
        assert ActApplied(w, n);
      }
    }
  }

  lemma {:induction false} ReceiverAgreesAlways(number: u32, worlds: seq<World>, steps: seq<Step>)
    requires IsRun(number, worlds, steps) && DeliveriesNear(worlds, steps)
    ensures ReceiverAgrees(worlds[|steps|])
  {
    if steps != [] {
      var n := |steps| - 1;
      RunUpTo(number, worlds, steps, n);
      assert forall i :: 0 <= i < n ==> DeliveredNear(worlds[i], steps[i]);
      ReceiverAgreesAlways(number, worlds[..n + 1], steps[..n]);
      SenderAgreesAlways(number, worlds[..n + 1], steps[..n]);
      assert Follows(worlds, steps, n) && DeliveredNear(worlds[n], steps[n]);
      if steps[n].Deliver? {
        DeliverKeepsReceiver(worlds[n], steps[n].place);
      } else {
        OthersKeepReceiver(worlds[n], steps[n]);
      }
    }
  }

  /**
   From some moment before the server acknowledged this place on, it has not started over: it may
   have done so any number of times earlier.
   */
  predicate ServerStayed(worlds: seq<World>, steps: seq<Step>, since: nat, place: nat)
    requires |worlds| == |steps| + 1
  {
    since <= |steps| && place !in worlds[since].acked && ServerStartsOver !in steps[since..]
  }

  lemma DeliveredWithAcked(w: World, step: Step, place: nat)
    requires step != ServerStartsOver && (place in w.acked ==> place in w.delivered)
    ensures place in Next(w, step).acked ==> place in Next(w, step).delivered
  {
    hide Sender.Send, Sender.Acknowledged, Sender.DueAt, Receiver.Judge, Advanced, NumberedControl;
  }

  lemma {:induction false} AckedWasDelivered(number: u32, worlds: seq<World>, steps: seq<Step>, since: nat, place: nat)
    requires IsRun(number, worlds, steps) && ServerStayed(worlds, steps, since, place)
    ensures place in worlds[|steps|].acked ==> place in worlds[|steps|].delivered
  {
    if since < |steps| {
      var n := |steps| - 1;
      RunUpTo(number, worlds, steps, n);
      assert steps[since..] == steps[..n][since..] + [steps[n]];
      AckedWasDelivered(number, worlds[..n + 1], steps[..n], since, place);
      assert Follows(worlds, steps, n);
      DeliveredWithAcked(worlds[n], steps[n], place);
    }
  }

  /**
   An acknowledgement that took a control off the queue tells the truth: the server has done
   the act, or has applied that setting or a later send of it.
   */
  lemma AckTellsTheTruth(number: u32, worlds: seq<World>, steps: seq<Step>, since: nat, place: nat)
    requires IsRun(number, worlds, steps) && DeliveriesNear(worlds, steps)
    requires ServerStayed(worlds, steps, since, place)
    requires place < |worlds[|steps|].ledger| && worlds[|steps|].ledger[place].fate == Acked
    ensures var w := worlds[|steps|];
            var key := w.ledger[place].p.key;
            && key in w.applied
            && (!key.IsAct() ==> place <= w.applied[key] && key in w.receiver.lastApplied
                                 && w.receiver.lastApplied[key] == Number(w.first, w.applied[key]))
  {
    SenderAgreesAlways(number, worlds, steps);
    ReceiverAgreesAlways(number, worlds, steps);
    AckedWasDelivered(number, worlds, steps, since, place);
    assert EntryHolds(worlds[|steps|], place);
  }

  predicate LastSend(ledger: seq<Entry>, key: ControlKey, last: nat) {
    && last < |ledger| && ledger[last].p.key == key
    && forall i :: last < i < |ledger| ==> ledger[i].p.key != key
  }

  /**
   Eventual agreement: once nothing of a setting is waiting, the server holds exactly the last
   value sent - unless that last send was given up on, or its session ended before the ack.
   */
  lemma QuietMeansAgreement(number: u32, worlds: seq<World>, steps: seq<Step>, since: nat, key: ControlKey, last: nat)
    requires IsRun(number, worlds, steps) && DeliveriesNear(worlds, steps)
    requires ServerStayed(worlds, steps, since, last) && !key.IsAct()
    requires LastSend(worlds[|steps|].ledger, key, last)
    requires forall p :: p in worlds[|steps|].sender.pending ==> p.key != key
    requires var fate := worlds[|steps|].ledger[last].fate; fate != GivenUp && fate != Dropped
    ensures var w := worlds[|steps|];
            && key in w.applied && w.applied[key] == last
            && key in w.receiver.lastApplied
            && w.receiver.lastApplied[key] == w.ledger[last].p.number
  {
    var w := worlds[|steps|];
    SenderAgreesAlways(number, worlds, steps);
    ReceiverAgreesAlways(number, worlds, steps);
    assert EntryHolds(w, last);
    LiveMembers(w.ledger, w.ledger[last].p);
    assert w.ledger[last].fate == Acked;
    AckTellsTheTruth(number, worlds, steps, since, last);
  }

  lemma LedgerGrows(w: World, step: Step)
    ensures |w.ledger| <= |Next(w, step).ledger|
  {
    hide Sender.Send, Sender.Acknowledged, Sender.DueAt, Receiver.Judge, NumberedControl;
  }

  /** In a run of fewer than 2^31 sends nothing can arrive too far from what was applied. */
  lemma {:induction false} ShortRunsAreNear(number: u32, worlds: seq<World>, steps: seq<Step>)
    requires IsRun(number, worlds, steps) && |worlds[|steps|].ledger| < HALF
    ensures DeliveriesNear(worlds, steps)
  {
    if steps != [] {
      var n := |steps| - 1;
      RunUpTo(number, worlds, steps, n);
      assert Follows(worlds, steps, n);
      LedgerGrows(worlds[n], steps[n]);
      ShortRunsAreNear(number, worlds[..n + 1], steps[..n]);
      ReceiverAgreesAlways(number, worlds[..n + 1], steps[..n]);
      forall i | 0 <= i < n
        ensures DeliveredNear(worlds[i], steps[i])
      {
        assert DeliveredNear(worlds[..n + 1][i], steps[..n][i]);
      }
    }
  }
}

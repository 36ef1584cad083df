/**
 How late an act can still be repeated. Until the first acknowledgement of a session an act is let
 go at the age of `REPEAT_WINDOW`; but that acknowledgement gives the acts still waiting their first
 wait again, so what is repeated then can be twice as old.
 */
module AckTiming {
  import opened Options
  import opened SerialNumbers
  import opened Wire
  import opened ControlSending
  import opened ControlReceiving
  import opened AckProtocol
  import opened AckResults

  /** When a step happens, if it is the client's. */
  function Moment(step: Step): Option<nat> {
    match step
    case Send(_, now, _) => Some(now)
    case AckArrives(_, now) => Some(now)
    case Tick(now) => Some(now)
    case _ => None
  }

  /** The moment up to which nothing has to be done about a waiting entry. */
  function Deadline(w: World, e: Entry): nat {
    if w.proven then e.p.nextAt else e.p.sentAt + REPEAT_WINDOW
  }

  /** No step of the client comes more than `late` after an act still waiting should have been polled. */
  predicate Timely(w: World, step: Step, late: nat) {
    Moment(step).Some? ==>
      forall i :: 0 <= i < |w.ledger| && w.ledger[i].fate == Live && w.ledger[i].p.key.IsAct() ==>
                    Moment(step).value <= Deadline(w, w.ledger[i]) + late
  }

  predicate PolledOnTime(worlds: seq<World>, steps: seq<Step>, late: nat)
    requires |worlds| == |steps| + 1
  {
    forall n :: 0 <= n < |steps| ==> Timely(worlds[n], steps[n], late)
  }

  /** How late the next repeat of a waiting act can be due. */
  predicate DueInTime(e: Entry, late: nat) {
    e.fate == Live && e.p.key.IsAct() ==>
      e.p.nextAt <= e.p.sentAt + REPEAT_WINDOW + late + (Pow2(e.p.repeats + 1) - 1) * e.firstWait + e.p.repeats * late
  }

  predicate AllDueInTime(w: World, late: nat) {
    forall i :: 0 <= i < |w.ledger| ==> DueInTime(w.ledger[i], late)
  }

  lemma NextWait(repeats: nat, first: nat, late: nat)
    ensures (Pow2(repeats + 1) - 1) * first + Pow2(repeats + 1) * first == (Pow2(repeats + 2) - 1) * first
    ensures 2 * (Pow2(repeats) * first) == Pow2(repeats + 1) * first
    ensures repeats * late + late == (repeats + 1) * late
  {
    Doubling(repeats, first);
  }

  lemma AdvanceKeepsDue(event: Event, e: Entry, late: nat)
    requires DueInTime(e, late) && ScheduleHolds(e)
    requires event.AckFor? && event.firstProof && e.fate == Live && e.p.key.IsAct() ==>
               e.p.repeats == 0 && event.now <= e.p.sentAt + REPEAT_WINDOW + late
    requires event.Poll? && e.fate == Live && e.p.key.IsAct() ==> event.now <= e.p.nextAt + late
    ensures DueInTime(Advance(event, e), late)
  {
    NextWait(e.p.repeats, e.firstWait, late);
    assert Pow2(0) == 1 && Pow2(1) == 2;
    hide Pow2;
  }

  lemma AdvancedKeepDue(w: World, event: Event, late: nat)
    requires SenderAgrees(w) && AllDueInTime(w, late)
    requires event.AckFor? && event.firstProof ==>
               !w.proven && forall i :: 0 <= i < |w.ledger| && w.ledger[i].fate == Live && w.ledger[i].p.key.IsAct() ==>
                              event.now <= w.ledger[i].p.sentAt + REPEAT_WINDOW + late
    requires event.Poll? ==>
               forall i :: 0 <= i < |w.ledger| && w.ledger[i].fate == Live && w.ledger[i].p.key.IsAct() ==>
                 event.now <= w.ledger[i].p.nextAt + late
    ensures forall i :: 0 <= i < |w.ledger| ==> DueInTime(Advanced(event, w.ledger)[i], late)
  {
    forall i | 0 <= i < |w.ledger|
      ensures DueInTime(Advanced(event, w.ledger)[i], late)
    {
      assert EntryHolds(w, i) && DueInTime(w.ledger[i], late);
      hide SenderAgrees, DueInTime, ScheduleHolds, Advance, NumberedControl, Number;
      AdvanceKeepsDue(event, w.ledger[i], late);
    }
  }

  lemma StepKeepsDue(w: World, step: Step, late: nat)
    requires SenderAgrees(w) && Enabled(w, step) && Timely(w, step, late) && AllDueInTime(w, late)
    ensures AllDueInTime(Next(w, step), late)
  {
    match step
    case Send(packet, now, rtt) =>
      SendResult(w, packet, now, rtt);
      hide Next, Sender.Send, Numbered, SenderAgrees;
      match Numbered(w, packet, now, rtt) {
        case None =>
        case Some(p) => EnterKeepsDue(w, w.sender.Send(packet, now, rtt).0, p, late);
      }
    case AckArrives(place, now) =>
      AdvancedKeepDue(w, AckFor(place, !w.proven, now), late);
      hide SenderAgrees, DueInTime, Sender.Acknowledged, Advanced;
    case Tick(now) =>
      AdvancedKeepDue(w, if w.proven then Poll(now) else Unproven(now), late);
      hide SenderAgrees, DueInTime, Sender.DueAt, Advanced;
    case SessionEnd =>
      AdvancedKeepDue(w, SessionOver, late);
      hide SenderAgrees, DueInTime, Advanced;
    case Deliver(_) | ServerStartsOver =>
      hide SenderAgrees, DueInTime, Receiver.Judge, NumberedControl;
  }

  lemma EnterKeepsDue(w: World, sender: Sender, p: Pending, late: nat)
    requires SenderAgrees(w) && AllDueInTime(w, late) && FirstSend(w, p)
    ensures AllDueInTime(Enter(w, sender, p), late)
  {
    hide SenderAgrees, DueInTime, Advance, FirstSend;
    AdvancedKeepDue(w, NewSend(p.key, |w.ledger|), late);
    NewIsDueInTime(w, p, late);
  }

  lemma NewIsDueInTime(w: World, p: Pending, late: nat)
    requires FirstSend(w, p)
    ensures DueInTime(Entry(|w.ledger|, p, p.wait, Live), late)
  {
    assert Pow2(0) == 1 && Pow2(1) == 2;
  }

  lemma {:induction false} DueInTimeAlways(number: u32, worlds: seq<World>, steps: seq<Step>, late: nat)
    requires IsRun(number, worlds, steps) && PolledOnTime(worlds, steps, late)
    ensures AllDueInTime(worlds[|steps|], late)
  {
    if steps != [] {
      var n := |steps| - 1;
      RunUpTo(number, worlds, steps, n);
      assert forall i :: 0 <= i < n ==> Timely(worlds[i], steps[i], late);
      DueInTimeAlways(number, worlds[..n + 1], steps[..n], late);
      SenderAgreesAlways(number, worlds[..n + 1], steps[..n]);
      assert Follows(worlds, steps, n) && Timely(worlds[n], steps[n], late);
      StepKeepsDue(worlds[n], steps[n], late);
    }
  }

  /**
   The latest repeat of an act, in every run whose client polls no more than `late` after it should:
   two repeat windows after the send, and what the polls were late.
   */
  lemma LastRepeatOfAct(number: u32, worlds: seq<World>, steps: seq<Step>, late: nat, n: nat, i: nat)
    requires IsRun(number, worlds, steps) && PolledOnTime(worlds, steps, late)
    requires n < |steps| && steps[n].Tick? && HandsBack(worlds[n], i, steps[n].now)
    requires worlds[n].ledger[i].p.key.IsAct()
    ensures steps[n].now <= worlds[n].ledger[i].p.sentAt + 2 * REPEAT_WINDOW + 5 * late
  {
    RunUpTo(number, worlds, steps, n);
    assert forall k :: 0 <= k < n ==> Timely(worlds[k], steps[k], late);
    DueInTimeAlways(number, worlds[..n + 1], steps[..n], late);
    SenderAgreesAlways(number, worlds[..n + 1], steps[..n]);
    var (w, e) := (worlds[n], worlds[n].ledger[i]);
    assert Timely(w, steps[n], late) && DueInTime(e, late) && EntryHolds(w, i);
    hide SenderAgrees, NumberedControl, Number, IsRun, PolledOnTime;
    LateAtMost(e, late);
  }

  lemma LateAtMost(e: Entry, late: nat)
    requires e.p.repeats < MAX_REPEATS && e.firstWait <= FIRST_REPEAT_MAX
    ensures (Pow2(e.p.repeats + 1) - 1) * e.firstWait <= REPEAT_WINDOW
    ensures e.p.repeats * late <= 3 * late
  {
    assert Pow2(1) == 2 && Pow2(2) == 4 && Pow2(3) == 8 && Pow2(4) == 16;
  }

  // ---- a run that takes all of it ---------------------------------------------------

  /** VFO swap, an act; and a control that is a setting. */
  const Swap: seq<u8> := [0, 0, CONTROL_TYPE, 0, 0x19, 0, 0]
  const Set: seq<u8> := [0, 0, CONTROL_TYPE, 0, 0x01, 0, 0]

  const SECOND := 1000 * MILLISECOND

  /** The act waits alone, under proof, with so many repeats behind it; the setting is acknowledged. */
  predicate ActWaits(w: World, repeats: nat, wait: nat, nextAt: nat) {
    && w.proven && |w.ledger| == 2 && w.clock <= nextAt
    && w.ledger[0].fate == Live && w.ledger[1].fate == Acked
    && var p := w.ledger[0].p;
       p.key.IsAct() && p.sentAt == 0 && p.repeats == repeats && p.wait == wait && p.nextAt == nextAt
  }

  lemma KeyOfSwap(n: u32)
    ensures NumberedControl(Swap + ToBytes(n)) == Some((Action(0x19, n), n))
  {
    NumberReadsBack(Swap, n, n);
  }

  lemma KeyOfSet(n: u32)
    ensures NumberedControl(Set + ToBytes(n)) == Some((Control(0x01), n))
  {
    NumberReadsBack(Set, n, n);
  }

  /** The act is sent at the very start, by a client whose round trip was measured as a second. */
  predicate ActSent(w: World, sends: nat) {
    && !w.proven && w.clock == 0 && w.sessionStart == 0 && w.first == 1 && |w.ledger| == sends >= 1
    && w.ledger[0].fate == Live && w.ledger[0].index == 0
    && var p := w.ledger[0].p;
       p.key == Action(0x19, 1) && p.sentAt == 0 && p.repeats == 0 && p.wait == FIRST_REPEAT_MAX
  }

  lemma SendsSwap()
    ensures var step := Send(Swap, 0, SECOND);
            && Enabled(Start(1), step) && Timely(Start(1), step, 0)
            && ActSent(Next(Start(1), step), 1) && Next(Start(1), step).sender.nextSeq == 2
  {
    KeyOfSwap(1);
    hide NumberedControl;
    SendResult(Start(1), Swap, 0, SECOND);
    hide Sender.Send;
  }

  lemma SendsSet(w: World)
    requires ActSent(w, 1) && w.sender.nextSeq == 2
    ensures var step := Send(Set, 0, SECOND);
            && Enabled(w, step) && Timely(w, step, 0)
            && var after := Next(w, step);
               && ActSent(after, 2) && after.ledger[1].fate == Live && after.ledger[1].index == 1
               && after.ledger[1].p.key == Control(0x01) && after.ledger[1].p.bytes == Set + ToBytes(2)
  {
    KeyOfSet(2);
    hide NumberedControl;
    assert Number(1, 1) == 2;
    SendResult(w, Set, 0, SECOND);
    hide Sender.Send;
  }

  /** The setting is acknowledged when the act is just as old as it may be. */
  lemma AckAtTheWindow(w: World)
    requires ActSent(w, 2) && w.ledger[1].fate == Live && w.ledger[1].index == 1
    requires w.ledger[1].p.key == Control(0x01) && w.ledger[1].p.bytes == Set + ToBytes(2)
    ensures Enabled(w, Deliver(1)) && Timely(w, Deliver(1), 0)
    ensures var delivered := Next(w, Deliver(1));
            && Enabled(delivered, AckArrives(1, REPEAT_WINDOW)) && Timely(delivered, AckArrives(1, REPEAT_WINDOW), 0)
            && ActWaits(Next(delivered, AckArrives(1, REPEAT_WINDOW)), 0, FIRST_REPEAT_MAX,
                        REPEAT_WINDOW + FIRST_REPEAT_MAX)
  {
    KeyOfSet(2);
    hide NumberedControl, Sender.Acknowledged, Receiver.Judge;
  }

  lemma PollRepeats(w: World, repeats: nat, wait: nat, nextAt: nat)
    requires ActWaits(w, repeats, wait, nextAt) && repeats < MAX_REPEATS
    ensures Enabled(w, Tick(nextAt)) && Timely(w, Tick(nextAt), 0) && HandsBack(w, 0, nextAt)
    ensures ActWaits(Next(w, Tick(nextAt)), repeats + 1, 2 * wait, nextAt + 2 * wait)
  {
    hide Sender.DueAt, NumberedControl;
  }

  predicate IsTimelyRun(worlds: seq<World>, steps: seq<Step>) {
    IsRun(1, worlds, steps) && PolledOnTime(worlds, steps, 0)
  }

  lemma OneStepMore(worlds: seq<World>, steps: seq<Step>, step: Step)
    requires IsTimelyRun(worlds, steps) && Enabled(worlds[|steps|], step) && Timely(worlds[|steps|], step, 0)
    ensures IsTimelyRun(worlds + [Next(worlds[|steps|], step)], steps + [step])
  {
    var more, longer := worlds + [Next(worlds[|steps|], step)], steps + [step];
    hide Enabled, Timely, Next;
    forall i | 0 <= i < |longer|
      ensures Follows(more, longer, i) && Timely(more[i], longer[i], 0)
    {
      if i < |steps| {
        assert Follows(worlds, steps, i) && Timely(worlds[i], steps[i], 0);
      }
    }
  }

  lemma UpToTheAck() returns (worlds: seq<World>, steps: seq<Step>)
    ensures IsTimelyRun(worlds, steps) && |steps| == 4
    ensures ActWaits(worlds[4], 0, FIRST_REPEAT_MAX, REPEAT_WINDOW + FIRST_REPEAT_MAX)
  {
    SendsSwap();
    hide Next, Enabled, Timely, ActSent, ActWaits;
    worlds, steps := [Start(1)], [];
    OneStepMore(worlds, steps, Send(Swap, 0, SECOND));
    worlds, steps := worlds + [Next(worlds[0], Send(Swap, 0, SECOND))], steps + [Send(Swap, 0, SECOND)];
    SendsSet(worlds[1]);
    OneStepMore(worlds, steps, Send(Set, 0, SECOND));
    worlds, steps := worlds + [Next(worlds[1], Send(Set, 0, SECOND))], steps + [Send(Set, 0, SECOND)];
    AckAtTheWindow(worlds[2]);
    OneStepMore(worlds, steps, Deliver(1));
    worlds, steps := worlds + [Next(worlds[2], Deliver(1))], steps + [Deliver(1)];
    OneStepMore(worlds, steps, AckArrives(1, REPEAT_WINDOW));
    worlds, steps := worlds + [Next(worlds[3], AckArrives(1, REPEAT_WINDOW))], steps + [AckArrives(1, REPEAT_WINDOW)];
  }

  /** Polled without any delay, the act goes out for the last time exactly two repeat windows after its send. */
  lemma LastRepeatCanBeTwoWindowsLate() returns (worlds: seq<World>, steps: seq<Step>)
    ensures IsRun(1, worlds, steps) && PolledOnTime(worlds, steps, 0)
    ensures |steps| == 8 && steps[7] == Tick(2 * REPEAT_WINDOW) && HandsBack(worlds[7], 0, 2 * REPEAT_WINDOW)
    ensures worlds[7].ledger[0].p.key.IsAct() && worlds[7].ledger[0].p.sentAt == 0
  {
    worlds, steps := UpToTheAck();
    var repeats, wait, nextAt := 0, FIRST_REPEAT_MAX, REPEAT_WINDOW + FIRST_REPEAT_MAX;
    while repeats < MAX_REPEATS
      invariant repeats <= MAX_REPEATS && wait == Pow2(repeats) * FIRST_REPEAT_MAX
      invariant nextAt == REPEAT_WINDOW + (Pow2(repeats + 1) - 1) * FIRST_REPEAT_MAX
      invariant IsTimelyRun(worlds, steps) && |steps| == 4 + repeats
      invariant ActWaits(worlds[|steps|], repeats, wait, nextAt)
      invariant repeats == MAX_REPEATS ==> Goes(worlds[7], steps[7])
    {
      hide Next, Enabled, Timely, ActWaits, HandsBack, IsTimelyRun;
      var w := worlds[|steps|];
      PollRepeats(w, repeats, wait, nextAt);
      OneStepMore(worlds, steps, Tick(nextAt));
      worlds, steps := worlds + [Next(w, Tick(nextAt))], steps + [Tick(nextAt)];
      NextWait(repeats, FIRST_REPEAT_MAX, 0);
      if repeats == 3 {
        assert Pow2(4) == 16 by {
          assert Pow2(1) == 2 && Pow2(2) == 4 && Pow2(3) == 8;
        }
        ActIsOld(w, repeats, wait, nextAt);
      }
      repeats, wait, nextAt := repeats + 1, 2 * wait, nextAt + 2 * wait;
    }
  }

  /** The old act goes out on this step. */
  predicate Goes(w: World, step: Step) {
    && step == Tick(2 * REPEAT_WINDOW) && HandsBack(w, 0, 2 * REPEAT_WINDOW)
    && w.ledger[0].p.key.IsAct() && w.ledger[0].p.sentAt == 0
  }

  lemma ActIsOld(w: World, repeats: nat, wait: nat, nextAt: nat)
    requires ActWaits(w, repeats, wait, nextAt)
    ensures |w.ledger| == 2 && w.ledger[0].p.key.IsAct() && w.ledger[0].p.sentAt == 0
  {
  }
}

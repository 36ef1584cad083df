/**
 What one operation of the jitter buffer does, told in sequence numbers, milliseconds and counts:
 the distance a packet lies behind the cursor, the frames held before and after.
 */
module JitterSteps {
  import opened Collections
  import opened Options
  import opened SerialNumbers
  import opened Jitter
  import opened JitterResults
  import opened JitterTarget

  // ---- a packet arrives -------------------------------------------------------------

  /** How many numbers behind the cursor a packet lies, counted with wrap; 0 at the cursor, and before playout starts. */
  function Behind(b: Buffer, sequence: u32): nat {
    if b.nextSeq.None? then 0
    else if b.nextSeq.value >= sequence then b.nextSeq.value - sequence
    else b.nextSeq.value - sequence + 0x1_0000_0000
  }

  lemma PlaceByDistance(b: Buffer, sequence: u32)
    ensures b.Place(sequence) == if 1 <= Behind(b, sequence) <= 64 then Late
                                 else if 64 < Behind(b, sequence) < 0x8000_0000 then Restart else Fits
  {
  }

  /** From 1 to 64 numbers behind the cursor: dropped and counted as late, and nothing of what is held or played changes. */
  lemma LatePacketIsDropped(b: Buffer, frame: Frame, arrival: nat)
    requires b.settings.Usable() && 1 <= Behind(b, frame.sequence) <= 64
    ensures var c := b.Push(frame, arrival);
            && c.frames == b.frames && c.nextSeq == b.nextSeq && c.refilling == b.refilling
            && c.initialFill == b.initialFill && c.pullsSinceTrim == b.pullsSinceTrim
            && c.stats == b.stats.(received := b.stats.received + 1, late := b.stats.late + 1)
  {
    PlaceByDistance(b, frame.sequence);
  }

  /** Further behind: the stream has started over, and its first frame alone is held. */
  lemma RestartHoldsTheFrameAlone(b: Buffer, frame: Frame, arrival: nat)
    requires b.settings.Usable() && 64 < Behind(b, frame.sequence) < 0x8000_0000
    ensures var c := b.Push(frame, arrival);
            && c.frames == (if b.settings.maxDepth + b.settings.tuning.capAboveMax >= 1
                            then map[frame.sequence := frame] else map[])
            && c.nextSeq.None? && !c.refilling
            && c.initialFill == b.initialFill && c.pullsSinceTrim == b.pullsSinceTrim
            && c.stats == b.stats.(received := b.stats.received + 1, cleared := b.stats.cleared + |b.frames|,
                                   capped := b.stats.capped + 1 - |c.frames|)
  {
    PlaceByDistance(b, frame.sequence);
    var h := b.Heard(frame.timestamp, arrival).Cleared().(nextSeq := None, refilling := false).Inserted(frame);
    assert h.frames == map[frame.sequence := frame];
    hide Buffer.Heard;
    CappedFacts(h);
    CapWithoutCursor(h);
  }

  lemma {:induction false} CapWithoutCursor(b: Buffer)
    requires b.nextSeq.None?
    ensures b.Capped().nextSeq.None? && b.Capped().stats.skipped == b.stats.skipped
    decreases |b.frames|
  {
    if |b.frames| > b.settings.HardLimit() {
      CapWithoutCursor(b.CapOne());
    }
  }

  /** The cap keeps the last frames of the map, as many as the hard limit allows. */
  lemma {:induction false} CapKeepsTheLast(b: Buffer, k: u32)
    ensures k in b.Capped().frames <==> k in b.frames && |FromOn(b.frames, k)| <= b.settings.maxDepth + b.settings.tuning.capAboveMax
    decreases |b.frames|
  {
    var least := if b.frames == map[] then 0 else MinKey(b.frames.Keys);
    if |b.frames| > b.settings.HardLimit() {
      CapKeepsTheLast(b.CapOne(), k);
      assert b.CapOne().frames == b.frames - {least} && b.CapOne().settings == b.settings;
      if k == least {
        AllFromOn(b.frames, k);
      } else if k in b.frames {
        assert FromOn(b.frames - {least}, k) == FromOn(b.frames, k);
      }
    } else if k in b.frames {
      AtMostAll(b.frames, k);
    }
  }

  lemma AtMostAll(frames: map<u32, Frame>, k: u32)
    ensures |FromOn(frames, k)| <= |frames|
  {
    SubsetSize(FromOn(frames, k), frames.Keys);
    assert |frames| == |frames.Keys|;
  }

  /** At the cursor or ahead of it, or before playout starts: held beside the others, of which the cap keeps the last ones. */
  lemma FittingPacketIsHeld(b: Buffer, frame: Frame, arrival: nat, k: u32)
    requires b.settings.Usable() && (Behind(b, frame.sequence) == 0 || Behind(b, frame.sequence) >= 0x8000_0000)
    ensures var (c, all) := (b.Push(frame, arrival), b.frames[frame.sequence := frame]);
            && (k in c.frames <==>
                  k in all && |FromOn(all, k)| <= b.settings.maxDepth + b.settings.tuning.capAboveMax)
            && (k in c.frames ==> c.frames[k] == all[k])
            && (|all| <= b.settings.maxDepth + b.settings.tuning.capAboveMax ==>
                  c.frames == all && c.nextSeq == b.nextSeq
                  && c.stats == b.stats.(received := b.stats.received + 1))
            && c.refilling == b.refilling && c.initialFill == b.initialFill && c.pullsSinceTrim == b.pullsSinceTrim
  {
    PlaceByDistance(b, frame.sequence);
    var h := b.Heard(frame.timestamp, arrival).Inserted(frame);
    assert h.frames == b.frames[frame.sequence := frame];
    CapKeepsTheLast(h, k);
    CappedFacts(h);
  }

  // ---- a packet is measured -----------------------------------------------------------

  /** The milliseconds a timestamp lies after another, counted with wrap. */
  function Forward(from: u32, to: u32): nat {
    if to >= from then to - from else to - from + 0x1_0000_0000
  }

  /**
   A packet whose timestamp is 1 to 999 ms on, and which comes `off` ms away from that, early or
   late. Above the peak it becomes the peak at once, and the target is then at least what it asks for,
   within its limits; otherwise the peak fades. The estimate goes a quarter of the way up or a
   sixteenth of the way down.
   */
  lemma OffPacketLifts(b: Buffer, timestamp: u32, arrival: nat, off: nat)
    requires b.settings.Usable() && b.line.lastArrival.Some? && b.line.lastTimestamp.Some?
    requires 0 < Forward(b.line.lastTimestamp.value, timestamp) < 1000
    requires var due := b.line.lastArrival.value + Forward(b.line.lastTimestamp.value, timestamp);
             arrival == due + off || arrival == due - off
    ensures var (c, s, d) := (b.Heard(timestamp, arrival), b.settings, off as real);
            && c.line.peak == (if d > b.line.peak then d else b.line.peak - b.line.peak / s.tuning.spikeDecayPackets)
            && (if d > b.line.estimate
                then 4.0 * (c.line.estimate - b.line.estimate) == d - b.line.estimate
                else 16.0 * (b.line.estimate - c.line.estimate) == b.line.estimate - d)
            && s.minDepth <= c.target <= s.maxDepth
            && (d > b.line.peak ==>
                  c.target == s.maxDepth || c.target >= (d / s.tuning.msPerFrame).Floor + s.tuning.targetAdd)
            && c.line.lastArrival == Some(arrival) && c.line.lastTimestamp == Some(timestamp)
  {
    assert b.line.Deviation(timestamp, arrival) == Some(off as real);
    var l := b.line.Measured(off as real, b.settings.tuning.spikeDecayPackets);
    HeldOrFaded(b.line.peak, off as real, b.settings.tuning.spikeDecayPackets);
    SmoothedBy(b.line.estimate, off as real);
    hide Held, Smoothed;
    if off as real > b.line.peak {
      TargetMonotone(b.settings, off as real, l.Jitter());
    }
  }

  /** Any other packet is only remembered: the first one, one out of order, one a second or more on. */
  lemma UnmeasuredPacketIsRemembered(b: Buffer, timestamp: u32, arrival: nat)
    requires b.settings.Usable()
    requires b.line.lastArrival.Some? && b.line.lastTimestamp.Some? ==>
               Forward(b.line.lastTimestamp.value, timestamp) == 0
               || Forward(b.line.lastTimestamp.value, timestamp) >= 1000
    ensures var c := b.Heard(timestamp, arrival);
            && c.line.estimate == b.line.estimate && c.line.peak == b.line.peak && c.target == b.target
            && c.line.lastArrival == Some(arrival) && c.line.lastTimestamp == Some(timestamp)
  {
  }

  lemma HeldOrFaded(peak: real, deviation: real, decayPackets: real)
    requires decayPackets >= 1.0
    ensures Held(peak, deviation, decayPackets) ==
            if deviation > peak then deviation else peak - peak / decayPackets
  {
    assert peak * (1.0 - 1.0 / decayPackets) == peak - peak * (1.0 / decayPackets);
    assert peak * (1.0 / decayPackets) == peak / decayPackets;
  }

  lemma SmoothedBy(estimate: real, deviation: real)
    ensures if deviation > estimate
            then 4.0 * (Smoothed(estimate, deviation) - estimate) == deviation - estimate
            else 16.0 * (estimate - Smoothed(estimate, deviation)) == estimate - deviation
  {
  }

  // ---- a pull ------------------------------------------------------------------------

  /** A pull trims exactly when it plays on, the grace period is over, and the buffer is far above its target or was above it for long enough. */
  lemma PullTrimsIff(b: Buffer)
    ensures b.Pull().0.stats.trimmed ==
            b.stats.trimmed +
            if !Waits(b) && b.initialFill <= 1
               && var above := |b.frames| - b.target - b.settings.tuning.trimAboveTarget;
                  above > b.settings.tuning.fastTrimAbove
                  || (above > 0 && (b.pullsSinceTrim as nat) + 1 >= b.settings.tuning.trimEveryPulls)
            then 1 else 0
  {
    PullShape(b);
    hide Buffer.Pull;
    if !Waits(b) {
      assert Going(b).nextSeq.Some? && Going(b).Trimmed().nextSeq.Some?;
      PlayBalances(Going(b).Trimmed());
      hide MinKey, WrappingSub;
    }
  }

  /** The frames a pull plays from, and the number it looks for: behind the first frame, when that is trimmed and the cursor was not past it. */
  function PlaysFrom(b: Buffer): (map<u32, Frame>, u32)
    requires b.frames != map[]
  {
    var first := MinKey(b.frames.Keys);
    var cursor := if b.nextSeq.None? then first else b.nextSeq.value;
    if !TrimsNow(b) then (b.frames, cursor)
    else (b.frames - {first}, if Behind(b, first) == 0 || Behind(b, first) >= 0x8000_0000 then (first + 1) % 0x1_0000_0000 else cursor)
  }

  /**
   What a pull answers. It waits, and then an empty buffer that was playing is marked to be refilled;
   or it plays the frame the cursor asks for; or jumps to the first frame when that lies more than
   `max_depth` ahead, without an answer; or calls the number missing and counts it lost.
   */
  lemma PullAnswers(b: Buffer)
    ensures var (c, pulled) := b.Pull();
            if Waits(b) then
              pulled == NotReady && c == b.(refilling := b.refilling || (b.frames == map[] && b.nextSeq.Some?))
            else
              var (frames, n) := PlaysFrom(b);
              var gap := if frames == map[] then 0 else WrappingSub(MinKey(frames.Keys), n);
              && !c.refilling && c.initialFill == (if b.initialFill > 0 then b.initialFill - 1 else 0)
              && (if n in frames then
                    pulled == Played(frames[n]) && c.frames == frames - {n} && c.nextSeq == Some((n + 1) % 0x1_0000_0000)
                    && c.stats.lost == b.stats.lost
                  else if gap > b.settings.maxDepth then
                    pulled == NotReady && c.frames == frames && c.nextSeq == Some(MinKey(frames.Keys))
                    && c.stats.lost == b.stats.lost
                  else
                    pulled == Missing && c.frames == frames && c.nextSeq == Some((n + 1) % 0x1_0000_0000)
                    && c.stats.lost == b.stats.lost + 1)
  {
    if Waits(b) {
    } else {
      PullShape(b);
      hide Buffer.Pull;
      TrimmedFrom(b);
      hide Buffer.Trimmed, TrimsNow;
    }
  }

  lemma TrimmedFrom(b: Buffer)
    requires !Waits(b)
    ensures var t := Going(b).Trimmed();
            && t.nextSeq.Some? && (t.frames, t.nextSeq.value) == PlaysFrom(b)
            && t.stats.lost == b.stats.lost && !t.refilling && t.settings == b.settings
            && t.initialFill == (if b.initialFill > 0 then b.initialFill - 1 else 0)
  {
  }

  // ---- emptying ------------------------------------------------------------------------

  /** `reset` leaves a new buffer with the old target, tuning and counters. */
  lemma ResetIsNew(b: Buffer)
    ensures b.Reset() == Empty(b.settings).(target := b.target,
                                            stats := b.stats.(cleared := b.stats.cleared + |b.frames|))
  {
  }

  /** `discard` and `drain_all` differ in the count alone, and in what they hand over. */
  lemma DiscardLikeDrain(b: Buffer)
    ensures b.DrainAll().0 == b.Discard().(stats := b.stats)
    ensures b.Discard() == b.(frames := map[], nextSeq := None,
                              stats := b.stats.(cleared := b.stats.cleared + |b.frames|))
  {
  }
}

/**
 The adaptive jitter buffer: frames keyed by sequence number, released in order behind a
 target depth that follows the measured jitter. Arithmetic on the estimate is over the reals.
 */
module Jitter {
  import opened Collections
  import opened Options
  import opened SerialNumbers

  datatype Frame = Frame(sequence: u32, timestamp: u32, opusData: seq<u8>, ptt: bool, wideband: bool)

  datatype Pulled = Played(frame: Frame) | Missing | NotReady

  datatype Tuning = Tuning(
    msPerFrame: real, targetAdd: nat, spikeDecayPackets: real,
    capAboveMax: nat, trimAboveTarget: int, trimEveryPulls: u32, fastTrimAbove: int)

  const ReceiveTuning := Tuning(15.0, 2, 230.0, 10, 2, 12, 6)
  const TransmitTuning := ReceiveTuning.(msPerFrame := 30.0, spikeDecayPackets := 115.0, trimEveryPulls := MODULUS - 1)

  const GRACE_PULLS := 25
  const STREAM_RESTART_BACKJUMP := 64

  datatype Stats = Stats(
    received: nat, lost: nat, late: nat, capped: nat, trimmed: nat, skipped: nat, cleared: nat)

  datatype Where = Late | Restart | Fits

  /** What a buffer is made with and keeps. */
  datatype Settings = Settings(minDepth: nat, maxDepth: nat, endsWithRelease: bool, tuning: Tuning)
  {
    function HardLimit(): nat {
      maxDepth + tuning.capAboveMax
    }

    predicate Usable() {
      tuning.msPerFrame > 0.0 && tuning.spikeDecayPackets >= 1.0 && minDepth <= maxDepth
    }

    function TargetFor(jitter: real): nat
      requires Usable()
    {
      var wanted := (jitter / tuning.msPerFrame).Floor + tuning.targetAdd;
      if wanted < minDepth then minDepth else if wanted > maxDepth then maxDepth else wanted
    }
  }

  /** What the packets heard so far say of the line: the estimate and the peak in ms, and the last packet. */
  datatype Line = Line(estimate: real, peak: real, lastArrival: Option<nat>, lastTimestamp: Option<u32>)
  {
    /** How far off its own clock a packet came, when the timestamps move forward by under a second. */
    function Deviation(timestamp: u32, arrival: nat): Option<real> {
      if lastArrival.None? || lastTimestamp.None? then None
      else
        var forward := WrappingSub(timestamp, lastTimestamp.value);
        if 0 < forward < 1000
        then
          var off := arrival - lastArrival.value - forward;
          Some((if off < 0 then -off else off) as real)
        else None
    }

    function Measured(deviation: real, decayPackets: real): Line
      requires decayPackets >= 1.0
    {
      this.(estimate := Smoothed(estimate, deviation), peak := Held(peak, deviation, decayPackets))
    }

    function Jitter(): real {
      if estimate > peak then estimate else peak
    }
  }

  const Unheard := Line(0.0, 0.0, None, None)

  datatype Buffer = Buffer(
    frames: map<u32, Frame>, nextSeq: Option<u32>, stats: Stats, target: nat, line: Line,
    initialFill: nat, refilling: bool, pullsSinceTrim: u32, settings: Settings)
  {

    predicate ShortOfTarget() {
      |frames| < target && !(settings.endsWithRelease && exists k :: k in frames && !frames[k].ptt)
    }

    // ---- on arrival --------------------------------------------------------

    function Heard(timestamp: u32, arrival: nat): Buffer
      requires settings.Usable()
    {
      var b := this.(stats := stats.(received := stats.received + 1));
      match line.Deviation(timestamp, arrival)
      case None => b.(line := line.(lastArrival := Some(arrival), lastTimestamp := Some(timestamp)))
      case Some(d) =>
        var l := line.Measured(d, settings.tuning.spikeDecayPackets);
        b.(line := l.(lastArrival := Some(arrival), lastTimestamp := Some(timestamp)),
           target := settings.TargetFor(l.Jitter()))
    }

    function Place(sequence: u32): Where {
      if nextSeq.Some? && IsSeqBefore(sequence, nextSeq.value) then
        if WrappingSub(nextSeq.value, sequence) > STREAM_RESTART_BACKJUMP then Restart else Late
      else Fits
    }

    function Cleared(): Buffer {
      this.(stats := stats.(cleared := stats.cleared + |frames|), frames := map[])
    }

    function StepPast(taken: u32): Buffer {
      if nextSeq.Some? && !IsSeqBefore(taken, nextSeq.value) then
        this.(stats := stats.(skipped := stats.skipped + WrappingSub(taken, nextSeq.value)),
              nextSeq := Some(WrappingAddOne(taken)))
      else this
    }

    function DropOldest(): Buffer
      requires frames != map[]
    {
      this.(frames := frames - {MinKey(frames.Keys)})
    }

    function CapOne(): Buffer
      requires frames != map[]
    {
      DropOldest().(stats := stats.(capped := stats.capped + 1)).StepPast(MinKey(frames.Keys))
    }

    function TrimOne(): Buffer
      requires frames != map[]
    {
      DropOldest().(stats := stats.(trimmed := stats.trimmed + 1)).StepPast(MinKey(frames.Keys))
    }

    function Capped(): Buffer
      decreases |frames|
    {
      if |frames| > settings.HardLimit() then CapOne().Capped() else this
    }

    function Inserted(frame: Frame): Buffer {
      this.(frames := frames[frame.sequence := frame])
    }

    function Push(frame: Frame, arrival: nat): Buffer
      requires settings.Usable()
    {
      var b := Heard(frame.timestamp, arrival);
      match Place(frame.sequence)
      case Late => b.(stats := b.stats.(late := b.stats.late + 1))
      case Restart => b.Cleared().(nextSeq := None, refilling := false).Inserted(frame).Capped()
      case Fits => b.Inserted(frame).Capped()
    }

    // ---- on playout --------------------------------------------------------

    predicate TrimDue(pulls: u32) {
      var excess := |frames| - target - settings.tuning.trimAboveTarget;
      excess > settings.tuning.fastTrimAbove || (excess > 0 && pulls >= settings.tuning.trimEveryPulls)
    }

    /** `saturating_add(1)`. */
    function PullsNow(): u32 {
      if pullsSinceTrim == MODULUS - 1 then pullsSinceTrim else pullsSinceTrim + 1
    }

    function Trimmed(): Buffer {
      var b := this.(pullsSinceTrim := PullsNow());
      if initialFill == 0 && TrimDue(PullsNow()) then
        if frames == map[] then b.(pullsSinceTrim := 0)
        else b.(pullsSinceTrim := 0).TrimOne()
      else b
    }

    function PlayNext(): (Buffer, Pulled)
      requires nextSeq.Some?
    {
      var n := nextSeq.value;
      var b := this.(nextSeq := Some(WrappingAddOne(n)));
      if n in frames then (b.(frames := frames - {n}), Played(frames[n]))
      else if frames != map[] && WrappingSub(MinKey(frames.Keys), n) > settings.maxDepth then
        var first := MinKey(frames.Keys);
        (b.(stats := stats.(skipped := stats.skipped + WrappingSub(first, n)), nextSeq := Some(first)), NotReady)
      else (b.(stats := stats.(lost := stats.lost + 1)), Missing)
    }

    function Pull(): (Buffer, Pulled) {
      if nextSeq.None? && (ShortOfTarget() || frames == map[]) then (this, NotReady)
      else
        var b := if nextSeq.None? then this.(nextSeq := Some(MinKey(frames.Keys))) else this;
        if frames == map[] then (b.(refilling := true), NotReady)
        else if refilling && ShortOfTarget() then (b, NotReady)
        else
          b.(refilling := false, initialFill := if initialFill > 0 then initialFill - 1 else 0)
           .Trimmed().PlayNext()
    }

    // ---- emptying ----------------------------------------------------------

    function Discard(): Buffer {
      Cleared().(nextSeq := None)
    }

    function DrainAll(): (Buffer, seq<Frame>) {
      (this.(frames := map[], nextSeq := None), InOrder(frames))
    }

    function Reset(): Buffer {
      Cleared().(nextSeq := None, line := Unheard, initialFill := GRACE_PULLS, refilling := false, pullsSinceTrim := 0)
    }
  }

  function Empty(settings: Settings): Buffer {
    Buffer(map[], None, Stats(0, 0, 0, 0, 0, 0, 0), settings.minDepth, Unheard, GRACE_PULLS, false, 0, settings)
  }

  /** Fast to rise (a quarter of the way), slow to fall (a sixteenth). */
  function Smoothed(estimate: real, deviation: real): real {
    estimate + (deviation - estimate) * (if deviation > estimate then 0.25 else 1.0 / 16.0)
  }

  /** Instant attack, exponential decay. */
  function Held(peak: real, deviation: real, decayPackets: real): real
    requires decayPackets >= 1.0
  {
    if deviation > peak then deviation else peak * (1.0 - 1.0 / decayPackets)
  }

  predicate IsSeqBefore(a: u32, b: u32) {
    WrappingSub(a, b) > HALF
  }

  /** The first key of the ordered map. */
  function MinKey(keys: set<u32>): (k: u32)
    requires keys != {}
    ensures IsLeast(k, keys)
  {
    Least(keys)
  }

  /** The values of the map in key order. */
  function InOrder(frames: map<u32, Frame>): seq<Frame>
    decreases |frames|
  {
    if frames == map[] then []
    else
      var k := MinKey(frames.Keys);
      [frames[k]] + InOrder(frames - {k})
  }

  class JitterBuffer {
    var frames: map<u32, Frame>
    var nextSeq: Option<u32>
    var target: nat
    const minDepth: nat
    const maxDepth: nat
    var estimate: real
    var peak: real
    var lastArrival: Option<nat>
    var lastTimestamp: Option<u32>
    var stats: Stats
    var initialFill: nat
    var refilling: bool
    var pullsSinceTrim: u32
    const endsWithRelease: bool
    const tuning: Tuning

    function State(): Buffer
      reads this
    {
      Buffer(frames, nextSeq, stats, target, Line(estimate, peak, lastArrival, lastTimestamp),
             initialFill, refilling, pullsSinceTrim, Settings(minDepth, maxDepth, endsWithRelease, tuning))
    }

    constructor (minDepth: nat, maxDepth: nat, tuning: Tuning, endsWithRelease: bool)
      ensures State() == Empty(Settings(minDepth, maxDepth, endsWithRelease, tuning))
    {
      this.frames, this.nextSeq, this.target := map[], None, minDepth;
      this.minDepth, this.maxDepth, this.tuning, this.endsWithRelease := minDepth, maxDepth, tuning, endsWithRelease;
      this.estimate, this.peak, this.lastArrival, this.lastTimestamp := 0.0, 0.0, None, None;
      this.stats := Stats(0, 0, 0, 0, 0, 0, 0);
      this.initialFill, this.refilling, this.pullsSinceTrim := GRACE_PULLS, false, 0;
    }

    method Heard(timestamp: u32, arrival: nat)
      requires State().settings.Usable()
      modifies this
      ensures State() == old(State()).Heard(timestamp, arrival)
      ensures nextSeq == old(nextSeq)
    {
      stats := stats.(received := stats.received + 1);
      if lastArrival.Some? && lastTimestamp.Some? {
        var forward := WrappingSub(timestamp, lastTimestamp.value);
        if 0 < forward < 1000 {
          var off := arrival - lastArrival.value - forward;
          var deviation := (if off < 0 then -off else off) as real;
          hide Smoothed, Held;
          estimate := Smoothed(estimate, deviation);
          peak := Held(peak, deviation, tuning.spikeDecayPackets);
          target := State().settings.TargetFor(if estimate > peak then estimate else peak);
        }
      }
      lastArrival, lastTimestamp := Some(arrival), Some(timestamp);
    }

    method Push(frame: Frame, arrival: nat)
      requires State().settings.Usable()
      modifies this
      ensures State() == old(State()).Push(frame, arrival)
    {
      hide Buffer.Heard, Buffer.Capped;
      Heard(frame.timestamp, arrival);
      if nextSeq.Some? && IsSeqBefore(frame.sequence, nextSeq.value) {
        if WrappingSub(nextSeq.value, frame.sequence) > STREAM_RESTART_BACKJUMP {
          stats := stats.(cleared := stats.cleared + |frames|);
          frames := map[];
          nextSeq := None;
          refilling := false;
        } else {
          stats := stats.(late := stats.late + 1);
          return;
        }
      }
      frames := frames[frame.sequence := frame];
      CapOldest();
    }

    method CapOldest()
      modifies this
      ensures State() == old(State()).Capped()
    {
      var hardLimit := maxDepth + tuning.capAboveMax;
      while |frames| > hardLimit
        modifies this
        invariant State().Capped() == old(State()).Capped()
        decreases |frames|
      {
        hide Buffer.CapOne;
        CapOne();
      }
    }

    method CapOne()
      requires frames != map[]
      modifies this
      ensures State() == old(State()).CapOne()
      ensures |frames| < |old(frames)|
    {
      var oldest := MinKey(frames.Keys);
      frames := frames - {oldest};
      stats := stats.(capped := stats.capped + 1);
      StepPast(oldest);
    }

    method TrimOne()
      requires frames != map[]
      modifies this
      ensures State() == old(State()).TrimOne()
      ensures nextSeq.Some? == old(nextSeq).Some?
    {
      var oldest := MinKey(frames.Keys);
      frames := frames - {oldest};
      stats := stats.(trimmed := stats.trimmed + 1);
      StepPast(oldest);
    }

    method StepPast(taken: u32)
      modifies this
      ensures State() == old(State()).StepPast(taken)
    {
      if nextSeq.Some? && !IsSeqBefore(taken, nextSeq.value) {
        stats := stats.(skipped := stats.skipped + WrappingSub(taken, nextSeq.value));
        nextSeq := Some(WrappingAddOne(taken));
      }
    }

    method Trim()
      requires frames != map[]
      modifies this
      ensures State() == old(State()).Trimmed()
      ensures nextSeq.Some? == old(nextSeq).Some?
    {
      pullsSinceTrim := if pullsSinceTrim == MODULUS - 1 then pullsSinceTrim else pullsSinceTrim + 1;
      if initialFill == 0 {
        var excess := |frames| - target - tuning.trimAboveTarget;
        var drops :=
          if excess > tuning.fastTrimAbove || (excess > 0 && pullsSinceTrim >= tuning.trimEveryPulls) then 1 else 0;
        if drops > 0 {
          pullsSinceTrim := 0;
        }
        ghost var before := State();
        for i := 0 to drops
          modifies this
          invariant i == 0 ==> State() == before
          invariant i == 1 ==> State() == old(State()).Trimmed()
          invariant nextSeq.Some? == old(nextSeq).Some?
        {
          hide Buffer.TrimOne;
          TrimOne();
        }
      }
    }

    method PlayNext() returns (pulled: Pulled)
      requires nextSeq.Some?
      modifies this
      ensures (State(), pulled) == old(State()).PlayNext()
    {
      var n := nextSeq.value;
      nextSeq := Some(WrappingAddOne(n));
      if n in frames {
        pulled := Played(frames[n]);
        frames := frames - {n};
        return;
      }
      if frames != map[] {
        var first := MinKey(frames.Keys);
        if WrappingSub(first, n) > maxDepth {
          stats := stats.(skipped := stats.skipped + WrappingSub(first, n));
          nextSeq := Some(first);
          return NotReady;
        }
      }
      stats := stats.(lost := stats.lost + 1);
      return Missing;
    }

    method Pull() returns (pulled: Pulled)
      modifies this
      ensures (State(), pulled) == old(State()).Pull()
    {
      hide Buffer.Trimmed, Buffer.PlayNext, IsLeast;
      if nextSeq.None? {
        if State().ShortOfTarget() {
          return NotReady;
        }
        if frames == map[] {
          return NotReady;
        }
        nextSeq := Some(MinKey(frames.Keys));
      }
      if frames == map[] {
        refilling := true;
        return NotReady;
      }
      if refilling {
        if State().ShortOfTarget() {
          return NotReady;
        }
        refilling := false;
      }
      if initialFill > 0 {
        initialFill := initialFill - 1;
      }
      Trim();
      pulled := PlayNext();
    }

    method Discard()
      modifies this
      ensures State() == old(State()).Discard()
    {
      stats := stats.(cleared := stats.cleared + |frames|);
      frames := map[];
      nextSeq := None;
    }

    method DrainAll() returns (drained: seq<Frame>)
      modifies this
      ensures (State(), drained) == old(State()).DrainAll()
    {
      drained := InOrder(frames);
      frames := map[];
      nextSeq := None;
    }

    method Reset()
      modifies this
      ensures State() == old(State()).Reset()
    {
      stats := stats.(cleared := stats.cleared + |frames|);
      frames := map[];
      nextSeq := None;
      estimate, peak, lastArrival, lastTimestamp := 0.0, 0.0, None, None;
      initialFill, refilling, pullsSinceTrim := GRACE_PULLS, false, 0;
    }
  }
}

/** What the jitter buffer learns about the line: the estimate, the peak and the target. */
module JitterTarget {
  import opened Options
  import opened SerialNumbers
  import opened Jitter
  import opened JitterResults

  // ---- within the largest deviation -----------------------------------------------

  /** The deviations a run measures are all at most `most`. */
  predicate DeviationsWithin(x: Life, ops: seq<Op>, most: real)
    requires x.b.settings.Usable()
  {
    forall i :: 0 <= i < |ops| && ops[i].Push? ==>
      var d := Run(x, ops[..i]).b.line.Deviation(ops[i].frame.timestamp, ops[i].arrival);
      d.Some? ==> d.value <= most
  }

  predicate LineWithin(line: Line, most: real) {
    0.0 <= line.estimate <= most && 0.0 <= line.peak <= most
  }

  /** The bound on the target that a bound on the deviations gives. */
  function TargetCeiling(settings: Settings, most: real): int
    requires settings.Usable()
  {
    var wanted := (most / settings.tuning.msPerFrame).Floor + settings.tuning.targetAdd;
    if wanted < settings.minDepth then settings.minDepth else wanted
  }

  lemma FractionOf(x: real, most: real, share: real)
    requires 0.0 <= x <= most && 0.0 <= share <= 1.0
    ensures 0.0 <= x * share <= x
  {
  }

  lemma MeasuredWithin(line: Line, deviation: real, decayPackets: real, most: real)
    requires LineWithin(line, most) && 0.0 <= deviation <= most && decayPackets >= 1.0
    ensures LineWithin(line.Measured(deviation, decayPackets), most)
  {
    var share := 1.0 - 1.0 / decayPackets;
    assert 0.0 <= share <= 1.0;
    FractionOf(line.peak, most, share);
  }

  lemma TargetMonotone(settings: Settings, low: real, high: real)
    requires settings.Usable() && low <= high
    ensures settings.TargetFor(low) <= settings.TargetFor(high)
    ensures (low / settings.tuning.msPerFrame).Floor <= (high / settings.tuning.msPerFrame).Floor
  {
    var m := settings.tuning.msPerFrame;
    assert low / m <= high / m;
  }

  lemma HeardWithin(b: Buffer, timestamp: u32, arrival: nat, most: real)
    requires b.settings.Usable() && LineWithin(b.line, most)
    requires b.settings.minDepth <= b.target <= b.settings.maxDepth && b.target <= TargetCeiling(b.settings, most)
    requires var d := b.line.Deviation(timestamp, arrival); d.Some? ==> d.value <= most
    ensures var c := b.Heard(timestamp, arrival);
            && LineWithin(c.line, most)
            && b.settings.minDepth <= c.target <= b.settings.maxDepth && c.target <= TargetCeiling(b.settings, most)
  {
    var d := b.line.Deviation(timestamp, arrival);
    if d.Some? {
      MeasuredWithin(b.line, d.value, b.settings.tuning.spikeDecayPackets, most);
      TargetMonotone(b.settings, b.line.Measured(d.value, b.settings.tuning.spikeDecayPackets).Jitter(), most);
    }
  }

  /**
   However the packets come, the estimate and the peak stay between zero and the largest
   deviation measured, and the target between its limits and under what that deviation asks for.
   */
  lemma {:induction false} TargetFollowsDeviation(settings: Settings, ops: seq<Op>, most: real)
    requires settings.Usable() && most >= 0.0 && DeviationsWithin(Start(settings), ops, most)
    ensures var b := Run(Start(settings), ops).b;
            && LineWithin(b.line, most)
            && settings.minDepth <= b.target <= settings.maxDepth && b.target <= TargetCeiling(settings, most)
  {
    if ops == [] {
      assert 0.0 / settings.tuning.msPerFrame == 0.0;
    } else {
      var n := |ops| - 1;
      var before := ops[..n];
      assert DeviationsWithin(Start(settings), before, most) by {
        forall i | 0 <= i < n
          ensures before[..i] == ops[..i]
        {
        }
      }
      TargetFollowsDeviation(settings, before, most);
      var b := Run(Start(settings), before).b;
      match ops[n]
      case Push(frame, arrival) =>
        HeardWithin(b, frame.timestamp, arrival, most);
        PushLine(b, frame, arrival);
      case Pull =>
        PullLine(b);
      case _ =>
    }
  }

  function Power(r: real, n: nat): real {
    if n == 0 then 1.0 else r * Power(r, n - 1)
  }

  lemma Regrouped(x: real, power: real, r: real)
    ensures x * power * r == x * (r * power)
  {
  }

  // ---- packets on time --------------------------------------------------------------

  /** Only pushes, each of a packet that comes exactly when its timestamp says. */
  predicate AllOnTime(x: Life, ops: seq<Op>)
    requires x.b.settings.Usable()
  {
    ops != [] ==>
      var before, op := ops[..|ops| - 1], ops[|ops| - 1];
      AllOnTime(x, before) && op.Push? && OnTime(Run(x, before).b, op.frame.timestamp, op.arrival)
  }

  predicate OnTime(b: Buffer, timestamp: u32, arrival: nat) {
    b.line.Deviation(timestamp, arrival) == Some(0.0)
  }

  /** The two measures after `n` packets on time. */
  function Faded(line: Line, n: nat, decayPackets: real): Line
    requires decayPackets >= 1.0
  {
    if n == 0 then line else Faded(line, n - 1, decayPackets).Measured(0.0, decayPackets)
  }

  lemma {:induction false} PeakPower(line: Line, n: nat, decayPackets: real)
    requires decayPackets >= 1.0 && line.peak >= 0.0
    ensures Faded(line, n, decayPackets).peak == line.peak * Power(1.0 - 1.0 / decayPackets, n) >= 0.0
  {
    if n > 0 {
      PeakPower(line, n - 1, decayPackets);
      var r := 1.0 - 1.0 / decayPackets;
      var before := Faded(line, n - 1, decayPackets);
      FractionOf(before.peak, before.peak, r);
      Regrouped(line.peak, Power(r, n - 1), r);
      hide Smoothed;
    }
  }

  lemma {:induction false} EstimatePower(line: Line, n: nat, decayPackets: real)
    requires decayPackets >= 1.0 && line.estimate >= 0.0
    ensures Faded(line, n, decayPackets).estimate == line.estimate * Power(15.0 / 16.0, n) >= 0.0
  {
    if n > 0 {
      EstimatePower(line, n - 1, decayPackets);
      Regrouped(line.estimate, Power(15.0 / 16.0, n - 1), 15.0 / 16.0);
      hide Held;
    }
  }

  lemma {:induction false} PushesFade(x: Life, ops: seq<Op>)
    requires x.b.settings.Usable() && AllOnTime(x, ops)
    ensures var (l, f) := (Run(x, ops).b.line, Faded(x.b.line, |ops|, x.b.settings.tuning.spikeDecayPackets));
            l.estimate == f.estimate && l.peak == f.peak
  {
    if ops != [] {
      var n := |ops| - 1;
      PushesFade(x, ops[..n]);
      var b := Run(x, ops[..n]).b;
      PushLine(b, ops[n].frame, ops[n].arrival);
      HeardOnTime(b, ops[n].frame.timestamp, ops[n].arrival);
      assert Run(x, ops).b == b.Push(ops[n].frame, ops[n].arrival);
      hide Buffer.Push, Buffer.Heard, Run, AllOnTime;
    }
  }

  /** Over packets on time, pushed into any buffer, the peak fades by the same factor each. */
  lemma PeakFades(x: Life, ops: seq<Op>)
    requires x.b.settings.Usable() && AllOnTime(x, ops) && x.b.line.peak >= 0.0
    ensures Run(x, ops).b.line.peak
            == x.b.line.peak * Power(1.0 - 1.0 / x.b.settings.tuning.spikeDecayPackets, |ops|) >= 0.0
  {
    hide Run, AllOnTime, Faded, Power;
    PushesFade(x, ops);
    PeakPower(x.b.line, |ops|, x.b.settings.tuning.spikeDecayPackets);
  }

  /** And the estimate by a sixteenth each. */
  lemma EstimateFades(x: Life, ops: seq<Op>)
    requires x.b.settings.Usable() && AllOnTime(x, ops) && x.b.line.estimate >= 0.0
    ensures Run(x, ops).b.line.estimate == x.b.line.estimate * Power(15.0 / 16.0, |ops|) >= 0.0
  {
    hide Run, AllOnTime, Faded, Power;
    PushesFade(x, ops);
    EstimatePower(x.b.line, |ops|, x.b.settings.tuning.spikeDecayPackets);
  }

  lemma HeardOnTime(b: Buffer, timestamp: u32, arrival: nat)
    requires b.settings.Usable() && OnTime(b, timestamp, arrival)
    ensures var (c, l) := (b.Heard(timestamp, arrival), b.line.Measured(0.0, b.settings.tuning.spikeDecayPackets));
            && c.line.estimate == l.estimate && c.line.peak == l.peak
            && c.target == b.settings.TargetFor(l.Jitter())
  {
    hide Smoothed, Held;
  }

  // ---- the target over packets on time ------------------------------------------------

  /** In no run does a packet that is on time raise the buffer's target. */
  ghost predicate NeverRisesOnTime(settings: Settings)
    requires settings.Usable()
  {
    forall ops: seq<Op>, timestamp: u32, arrival: nat ::
      OnTime(Run(Start(settings), ops).b, timestamp, arrival) ==>
        Run(Start(settings), ops).b.Heard(timestamp, arrival).target <= Run(Start(settings), ops).b.target
  }

  /** The target is at least what the line asks for. */
  predicate TargetUp(b: Buffer) {
    && b.settings.Usable() && 0.0 <= b.line.estimate && 0.0 <= b.line.peak
    && b.settings.TargetFor(b.line.Jitter()) <= b.target
  }

  lemma MeasuredPositive(line: Line, deviation: real, decayPackets: real)
    requires 0.0 <= line.estimate && 0.0 <= line.peak && 0.0 <= deviation && decayPackets >= 1.0
    ensures var l := line.Measured(deviation, decayPackets); 0.0 <= l.estimate && 0.0 <= l.peak
  {
    var most := if line.Jitter() > deviation then line.Jitter() else deviation;
    MeasuredWithin(line, deviation, decayPackets, most);
  }

  lemma HeardKeepsUp(b: Buffer, timestamp: u32, arrival: nat)
    requires TargetUp(b)
    ensures TargetUp(b.Heard(timestamp, arrival))
  {
    var d := b.line.Deviation(timestamp, arrival);
    hide Smoothed, Held;
    if d.Some? {
      MeasuredPositive(b.line, d.value, b.settings.tuning.spikeDecayPackets);
    }
  }

  lemma DoKeepsUp(x: Life, op: Op)
    requires TargetUp(x.b)
    ensures TargetUp(Do(x, op).b)
  {
    DoKeepsSettings(x, op);
    match op
    case Push(frame, arrival) =>
      HeardKeepsUp(x.b, frame.timestamp, arrival);
      PushLine(x.b, frame, arrival);
      hide Buffer.Push, Buffer.Heard, Settings.TargetFor;
    case Pull =>
      PullLine(x.b);
      hide Buffer.Pull, Settings.TargetFor;
    case Reset =>
      TargetMonotone(x.b.settings, 0.0, x.b.line.Jitter());
    case _ =>
  }

  lemma {:induction false} TargetStaysUp(settings: Settings, ops: seq<Op>)
    requires TargetUp(Empty(settings))
    ensures TargetUp(Run(Start(settings), ops).b)
  {
    if ops != [] {
      hide Do, TargetUp;
      TargetStaysUp(settings, ops[..|ops| - 1]);
      DoKeepsUp(Run(Start(settings), ops[..|ops| - 1]), ops[|ops| - 1]);
    }
  }

  /** A packet on time asks for no more than the line asked for before it. */
  lemma OnTimeAsksNoMore(settings: Settings, line: Line)
    requires settings.Usable() && line.estimate >= 0.0 && line.peak >= 0.0
    ensures settings.TargetFor(line.Measured(0.0, settings.tuning.spikeDecayPackets).Jitter())
            <= settings.TargetFor(line.Jitter())
  {
    var after := line.Measured(0.0, settings.tuning.spikeDecayPackets);
    FractionOf(line.peak, line.peak, 1.0 - 1.0 / settings.tuning.spikeDecayPackets);
    TargetMonotone(settings, after.Jitter(), line.Jitter());
  }

  /** A new buffer starts at its lowest target, which may be below what a line without jitter asks for. */
  predicate StartsUp(settings: Settings) {
    settings.tuning.targetAdd <= settings.minDepth || settings.minDepth == settings.maxDepth
  }

  lemma StartsUpIff(settings: Settings)
    requires settings.Usable()
    ensures TargetUp(Empty(settings)) <==> StartsUp(settings)
  {
    assert 0.0 / settings.tuning.msPerFrame == 0.0;
  }

  const FirstPacket := Push(Frame(0, 0, [], true, false), 0)

  /** Otherwise the second packet raises it, on time as it is. */
  lemma SecondPacketRaises(settings: Settings)
    requires settings.Usable() && !StartsUp(settings)
    ensures var b := Run(Start(settings), [FirstPacket]).b;
            OnTime(b, 20, 20) && b.Heard(20, 20).target > b.target
  {
    var x := Start(settings);
    assert [FirstPacket][..0] == [];
    assert Run(x, [FirstPacket]) == Do(x, FirstPacket);
    PushLine(x.b, FirstPacket.frame, FirstPacket.arrival);
    var b := Run(x, [FirstPacket]).b;
    assert b.line == Line(0.0, 0.0, Some(0), Some(0)) && b.target == settings.minDepth;
    hide Run, Buffer.Push;
    assert b.line.Deviation(20, 20) == Some(0.0);
    HeardOnTime(b, 20, 20);
    hide Buffer.Heard;
    StillLine(b.line, settings.tuning.spikeDecayPackets);
    assert 0.0 / settings.tuning.msPerFrame == 0.0;
  }

  lemma StillLine(line: Line, decayPackets: real)
    requires line.estimate == 0.0 && line.peak == 0.0 && decayPackets >= 1.0
    ensures line.Measured(0.0, decayPackets).Jitter() == 0.0
  {
  }

  /** For whole runs: packets on time never raise the target exactly when the lowest target covers a line without jitter. */
  lemma TargetNeverRisesOnTimeIff(settings: Settings)
    requires settings.Usable()
    ensures NeverRisesOnTime(settings) <==> StartsUp(settings)
  {
    if StartsUp(settings) {
      forall ops: seq<Op>, timestamp: u32, arrival: nat | OnTime(Run(Start(settings), ops).b, timestamp, arrival)
        ensures Run(Start(settings), ops).b.Heard(timestamp, arrival).target <= Run(Start(settings), ops).b.target
      {
        StartsUpIff(settings);
        TargetStaysUp(settings, ops);
        var b := Run(Start(settings), ops).b;
        HeardOnTime(b, timestamp, arrival);
        OnTimeAsksNoMore(settings, b.line);
      }
    } else {
      SecondPacketRaises(settings);
    }
  }

  /** A receive buffer with a lowest target of one frame is such a case; those the programs make are not. */
  lemma WhichBuffersStartUp()
    ensures !StartsUp(Settings(1, 10, false, ReceiveTuning))
    ensures StartsUp(Settings(2, 10, true, TransmitTuning)) && StartsUp(Settings(3, 40, false, ReceiveTuning))
  {
  }
}

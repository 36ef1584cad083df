/** When the jitter buffer waits, and how fast it gives up a lead. */
module JitterPacing {
  import opened Options
  import opened Jitter
  import opened JitterResults

  /** Frames above the level from which the trim takes any. */
  function Excess(b: Buffer): int {
    |b.frames| - b.target - b.settings.tuning.trimAboveTarget
  }

  ghost predicate ReleaseInHand(b: Buffer) {
    b.settings.endsWithRelease && exists k :: k in b.frames && !b.frames[k].ptt
  }

  /**
   Before playout starts, and after the buffer ran empty, a pull leaves everything as it is exactly
   while the buffer is empty, or below its target with no end of a transmission in it.
   */
  lemma WaitsForTargetIff(b: Buffer)
    requires b.nextSeq.None? || b.refilling
    ensures b.Pull() == (b, NotReady) <==> b.frames == map[] || (|b.frames| < b.target && !ReleaseInHand(b))
  {
    PullShape(b);
    if !Waits(b) {
      hide Buffer.Pull;
      PullCounts(b);
    }
  }

  /** A pull that does not wait leaves a trace in the count of pulls, even where it cannot count on. */
  lemma PullCounts(b: Buffer)
    requires !Waits(b)
    ensures var c := Going(b).Trimmed().PlayNext().0;
            c.frames != b.frames || c.stats != b.stats || c.pullsSinceTrim != b.pullsSinceTrim
  {
    var t := Going(b).Trimmed();
    assert t.nextSeq.Some?;
    if t.PlayNext().1.Played? {
      assert t.nextSeq.value in t.frames && t.nextSeq.value !in t.PlayNext().0.frames;
    }
  }

  // ---- the rate of the slow trim --------------------------------------------------

  function Pulls(ops: seq<Op>): nat {
    if ops == [] then 0 else Pulls(ops[..|ops| - 1]) + if ops[|ops| - 1].Pull? then 1 else 0
  }

  /** At no pull is the buffer so far above its target that it trims every pull. */
  predicate NeverFarAbove(x: Life, ops: seq<Op>)
    requires x.b.settings.Usable()
  {
    ops != [] ==>
      && NeverFarAbove(x, ops[..|ops| - 1])
      && (ops[|ops| - 1].Pull? ==> Excess(Run(x, ops[..|ops| - 1]).b) <= x.b.settings.tuning.fastTrimAbove)
  }

  /** What one operation trims is paid for in pulls. */
  predicate Pays(b: Buffer, c: Buffer, pulls: nat) {
    || (c.stats.trimmed == b.stats.trimmed && c.pullsSinceTrim <= (b.pullsSinceTrim as nat) + pulls)
    || (c.stats.trimmed == b.stats.trimmed + 1 && c.pullsSinceTrim == 0
        && b.settings.tuning.trimEveryPulls <= (b.pullsSinceTrim as nat) + pulls)
  }

  lemma PullPays(b: Buffer)
    requires Excess(b) <= b.settings.tuning.fastTrimAbove
    ensures Pays(b, b.Pull().0, 1)
  {
    PullShape(b);
    hide Buffer.Pull;
    if !Waits(b) {
      assert Going(b).nextSeq.Some? && Going(b).Trimmed().nextSeq.Some?;
      PlayBalances(Going(b).Trimmed());
    }
  }

  lemma OthersTrimNothing(x: Life, op: Op)
    requires x.b.settings.Usable() && !op.Pull?
    ensures Do(x, op).b.stats.trimmed == x.b.stats.trimmed
    ensures Do(x, op).b.pullsSinceTrim <= x.b.pullsSinceTrim
  {
    if op.Push? {
      PushBalances(x.b, op.frame, op.arrival);
      PushKeepsCount(x.b, op.frame, op.arrival);
      hide Buffer.Push;
    }
  }

  lemma PushKeepsCount(b: Buffer, frame: Frame, arrival: nat)
    requires b.settings.Usable()
    ensures b.Push(frame, arrival).pullsSinceTrim == b.pullsSinceTrim
  {
    var h := b.Heard(frame.timestamp, arrival);
    match b.Place(frame.sequence)
    case Late =>
    case Restart => CappedFacts(h.Cleared().(nextSeq := None, refilling := false).Inserted(frame));
    case Fits => CappedFacts(h.Inserted(frame));
  }

  lemma OnePays(x: Life, op: Op)
    requires x.b.settings.Usable()
    requires op.Pull? ==> Excess(x.b) <= x.b.settings.tuning.fastTrimAbove
    ensures Pays(x.b, Do(x, op).b, if op.Pull? then 1 else 0)
  {
    if op.Pull? {
      PullPays(x.b);
      hide Buffer.Pull;
    } else {
      OthersTrimNothing(x, op);
      hide Do;
    }
  }

  /** From `x` to `y`, at most one frame trimmed for each `trim_every_pulls` of the pulls. */
  predicate Paced(x: Buffer, y: Buffer, pulls: nat) {
    && x.stats.trimmed <= y.stats.trimmed
    && (y.stats.trimmed - x.stats.trimmed) * x.settings.tuning.trimEveryPulls + y.pullsSinceTrim
       <= x.pullsSinceTrim + pulls
  }

  lemma PacedOn(x: Buffer, b: Buffer, c: Buffer, pulls: nat, more: nat)
    requires Paced(x, b, pulls) && Pays(b, c, more) && b.settings == x.settings
    ensures Paced(x, c, pulls + more)
  {
    var trimmed, every := b.stats.trimmed - x.stats.trimmed, x.settings.tuning.trimEveryPulls;
    assert (trimmed + 1) * every == trimmed * every + every;
  }

  /**
   Short of a big lead, the trim takes at most one frame per `trim_every_pulls` pulls, whatever
   arrives between them and however often the buffer is emptied or reset.
   */
  lemma {:induction false} SlowTrimRate(x: Life, ops: seq<Op>)
    requires x.b.settings.Usable() && NeverFarAbove(x, ops)
    ensures Paced(x.b, Run(x, ops).b, Pulls(ops))
  {
    if ops != [] {
      hide Do, Excess, Paced, Pays;
      var n := |ops| - 1;
      SlowTrimRate(x, ops[..n]);
      OnePays(Run(x, ops[..n]), ops[n]);
      PacedOn(x.b, Run(x, ops[..n]).b, Run(x, ops).b, Pulls(ops[..n]), if ops[n].Pull? then 1 else 0);
    }
  }

  /** Every pull finds the buffer playing, past its grace period and above the level of the trim; and it is not reset. */
  predicate AlwaysAbove(x: Life, ops: seq<Op>)
    requires x.b.settings.Usable()
  {
    ops != [] ==>
      var before, op := ops[..|ops| - 1], ops[|ops| - 1];
      && AlwaysAbove(x, before) && op != Reset
      && (op.Pull? ==> var b := Run(x, before).b; !Waits(b) && b.initialFill <= 1 && Excess(b) > 0)
  }

  /** A pull goes one nearer to the trim, or trims. */
  predicate Earns(b: Buffer, c: Buffer, pulls: nat) {
    && c.pullsSinceTrim < b.settings.tuning.trimEveryPulls
    && ((c.stats.trimmed == b.stats.trimmed && c.pullsSinceTrim == (b.pullsSinceTrim as nat) + pulls)
        || (c.stats.trimmed == b.stats.trimmed + 1 && c.pullsSinceTrim == 0 && pulls == 1))
  }

  lemma PullEarns(b: Buffer)
    requires !Waits(b) && b.initialFill <= 1 && Excess(b) > 0
    requires b.pullsSinceTrim < b.settings.tuning.trimEveryPulls
    ensures Earns(b, b.Pull().0, 1)
  {
    PullShape(b);
    hide Buffer.Pull;
    assert Going(b).nextSeq.Some? && Going(b).Trimmed().nextSeq.Some?;
    PlayBalances(Going(b).Trimmed());
  }

  lemma OneEarns(x: Life, op: Op)
    requires x.b.settings.Usable() && op != Reset && x.b.pullsSinceTrim < x.b.settings.tuning.trimEveryPulls
    requires op.Pull? ==> !Waits(x.b) && x.b.initialFill <= 1 && Excess(x.b) > 0
    ensures Earns(x.b, Do(x, op).b, if op.Pull? then 1 else 0)
  {
    if op.Pull? {
      PullEarns(x.b);
      hide Buffer.Pull;
    } else {
      OthersTrimNothing(x, op);
      if op.Push? {
        PushKeepsCount(x.b, op.frame, op.arrival);
        hide Buffer.Push;
      }
    }
  }

  /** From `x` to `y`, at least one frame trimmed for each `trim_every_pulls` of the pulls. */
  predicate KeptPace(x: Buffer, y: Buffer, pulls: nat) {
    && y.pullsSinceTrim < x.settings.tuning.trimEveryPulls
    && x.stats.trimmed <= y.stats.trimmed
    && (y.stats.trimmed - x.stats.trimmed) * x.settings.tuning.trimEveryPulls + y.pullsSinceTrim
       >= x.pullsSinceTrim + pulls
  }

  lemma PaceKept(x: Buffer, b: Buffer, c: Buffer, pulls: nat, more: nat)
    requires KeptPace(x, b, pulls) && Earns(b, c, more) && b.settings == x.settings
    ensures KeptPace(x, c, pulls + more)
  {
    var trimmed, every := b.stats.trimmed - x.stats.trimmed, x.settings.tuning.trimEveryPulls;
    assert (trimmed + 1) * every == trimmed * every + every;
  }

  /** And while it stays above its target the buffer does lose at least a frame for so many pulls. */
  lemma {:induction false} TrimKeepsPace(x: Life, ops: seq<Op>)
    requires x.b.settings.Usable() && AlwaysAbove(x, ops)
    requires x.b.pullsSinceTrim < x.b.settings.tuning.trimEveryPulls
    ensures KeptPace(x.b, Run(x, ops).b, Pulls(ops))
  {
    if ops != [] {
      var n := |ops| - 1;
      TrimKeepsPace(x, ops[..n]);
      assert Run(x, ops[..n]).b.pullsSinceTrim < x.b.settings.tuning.trimEveryPulls;
      hide Do, Excess, KeptPace, Earns, Waits;
      OneEarns(Run(x, ops[..n]), ops[n]);
      PaceKept(x.b, Run(x, ops[..n]).b, Run(x, ops).b, Pulls(ops[..n]), if ops[n].Pull? then 1 else 0);
    }
  }
}

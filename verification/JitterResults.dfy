/** What holds of the jitter buffer over any interleaving of its operations. */
module JitterResults {
  import opened Options
  import opened SerialNumbers
  import opened Jitter

  datatype Op =
    | Push(frame: Frame, arrival: nat)
    | Pull
    | Discard
    | DrainAll
    | Reset

  /** A buffer and what its user has seen of it: what the buffer itself does not count. */
  datatype Life = Life(b: Buffer, played: seq<u32>, drained: nat, overwritten: nat)

  predicate Overwrites(b: Buffer, sequence: u32) {
    b.Place(sequence) == Fits && sequence in b.frames
  }

  function Do(x: Life, op: Op): Life
    requires x.b.settings.Usable()
  {
    match op
    case Push(frame, arrival) =>
      x.(b := x.b.Push(frame, arrival),
         overwritten := x.overwritten + if Overwrites(x.b, frame.sequence) then 1 else 0)
    case Pull =>
      var (b, pulled) := x.b.Pull();
      x.(b := b, played := x.played + if pulled.Played? then [pulled.frame.sequence] else [])
    case Discard => x.(b := x.b.Discard())
    case DrainAll =>
      var (b, drained) := x.b.DrainAll();
      x.(b := b, drained := x.drained + |drained|)
    case Reset => x.(b := x.b.Reset())
  }

  lemma {:induction false} CappedFacts(b: Buffer)
    ensures var c := b.Capped();
            && c == b.(frames := c.frames, nextSeq := c.nextSeq, stats := c.stats)
            && |c.frames| <= b.settings.HardLimit()
            && c.stats.capped - b.stats.capped == |b.frames| - |c.frames|
            && c.stats == b.stats.(capped := c.stats.capped, skipped := c.stats.skipped)
            && c.frames.Keys <= b.frames.Keys
            && (forall k :: k in c.frames ==> c.frames[k] == b.frames[k])
    decreases |b.frames|
  {
    if |b.frames| > b.settings.HardLimit() {
      CappedFacts(b.CapOne());
    }
  }

  lemma DoKeepsSettings(x: Life, op: Op)
    requires x.b.settings.Usable()
    ensures Do(x, op).b.settings == x.b.settings
  {
    if op.Push? {
      var b := x.b.Heard(op.frame.timestamp, op.arrival);
      match x.b.Place(op.frame.sequence)
      case Late =>
      case Restart => CappedFacts(b.Cleared().(nextSeq := None, refilling := false).Inserted(op.frame));
      case Fits => CappedFacts(b.Inserted(op.frame));
    }
  }

  function Run(x: Life, ops: seq<Op>): (after: Life)
    requires x.b.settings.Usable()
    ensures after.b.settings == x.b.settings
  {
    if ops == [] then x
    else
      var before := Run(x, ops[..|ops| - 1]);
      DoKeepsSettings(before, ops[|ops| - 1]);
      Do(before, ops[|ops| - 1])
  }

  function Start(settings: Settings): Life {
    Life(Empty(settings), [], 0, 0)
  }

  /** The frames of a map from `k` on. */
  function FromOn(frames: map<u32, Frame>, k: u32): set<u32> {
    set j | j in frames && k <= j
  }

  lemma AllFromOn(frames: map<u32, Frame>, k: u32)
    requires k in frames && forall j :: j in frames ==> k <= j
    ensures |FromOn(frames, k)| == |frames|
  {
    assert FromOn(frames, k) == frames.Keys;
    assert |frames| == |frames.Keys|;
  }

  // ---- every frame is accounted for --------------------------------------------

  predicate Balanced(x: Life) {
    var s := x.b.stats;
    s.received ==
    s.late + x.overwritten + s.capped + s.trimmed + s.cleared + x.drained + |x.played| + |x.b.frames|
  }

  /** Increasing sequence numbers, each frame the one held under its number. */
  predicate IsListing(listing: seq<Frame>, frames: map<u32, Frame>) {
    && (forall i :: 0 <= i < |listing| ==>
          listing[i].sequence in frames && frames[listing[i].sequence] == listing[i])
    && (forall i, j :: 0 <= i < j < |listing| ==> listing[i].sequence < listing[j].sequence)
  }

  /** `drain_all` hands over every frame held, once, in sequence order. */
  lemma {:induction false} InOrderIsAll(frames: map<u32, Frame>)
    ensures |InOrder(frames)| == |frames|
    ensures (forall k :: k in frames ==> frames[k].sequence == k) ==> IsListing(InOrder(frames), frames)
    decreases |frames|
  {
    if frames != map[] {
      InOrderIsAll(frames - {MinKey(frames.Keys)});
    }
  }

  lemma TrimOneFacts(b: Buffer)
    requires b.frames != map[]
    ensures var c := b.TrimOne();
            && c.stats == b.stats.(trimmed := b.stats.trimmed + 1, skipped := c.stats.skipped)
            && |b.frames| == |c.frames| + 1
            && c.frames.Keys <= b.frames.Keys
            && (forall k :: k in c.frames ==> c.frames[k] == b.frames[k])
            && c == b.(frames := c.frames, nextSeq := c.nextSeq, stats := c.stats)
            && c.nextSeq.Some? == b.nextSeq.Some?
  {
  }

  /** Trimming takes the oldest frame or nothing. */
  lemma TrimBalances(b: Buffer)
    ensures var c := b.Trimmed();
            && c.stats == b.stats.(trimmed := c.stats.trimmed, skipped := c.stats.skipped)
            && b.stats.trimmed <= c.stats.trimmed
            && |b.frames| == |c.frames| + (c.stats.trimmed - b.stats.trimmed)
            && c.frames.Keys <= b.frames.Keys
            && (forall k :: k in c.frames ==> c.frames[k] == b.frames[k])
            && c.settings == b.settings && c.nextSeq.Some? == b.nextSeq.Some?
  {
    hide Buffer.TrimOne;
    if b.frames != map[] {
      TrimOneFacts(b.(pullsSinceTrim := 0));
    }
  }

  /** The trim takes the first frame of the map, when it is due, or none. */
  lemma TrimTakesTheLeast(b: Buffer, k: u32)
    requires k in b.frames
    ensures k !in b.Trimmed().frames <==> b.initialFill == 0 && b.TrimDue(b.PullsNow()) && MinKey(b.frames.Keys) == k
  {
  }

  lemma PlayKeepsOthers(b: Buffer, k: u32)
    requires b.nextSeq.Some? && Keyed(b)
    ensures var (c, pulled) := b.PlayNext();
            && (k in b.frames && k !in c.frames ==> pulled == Played(b.frames[k]))
            && (pulled.Played? ==> pulled.frame.sequence in b.frames && b.frames[pulled.frame.sequence] == pulled.frame)
            && (k in c.frames ==> pulled.Played? ==> pulled.frame.sequence != k)
  {
  }

  lemma PlayBalances(b: Buffer)
    requires b.nextSeq.Some?
    ensures var (c, pulled) := b.PlayNext();
            && c.stats == b.stats.(lost := c.stats.lost, skipped := c.stats.skipped)
            && |b.frames| == |c.frames| + (if pulled.Played? then 1 else 0)
            && c.frames.Keys <= b.frames.Keys
            && (forall k :: k in c.frames ==> c.frames[k] == b.frames[k])
            && c.settings == b.settings
  {
  }

  /** The buffer `pull` trims and plays from, once playout is going. */
  function Going(b: Buffer): Buffer {
    b.(nextSeq := if b.nextSeq.None? && b.frames != map[] then Some(MinKey(b.frames.Keys)) else b.nextSeq,
       refilling := false, initialFill := if b.initialFill > 0 then b.initialFill - 1 else 0)
  }

  predicate Waits(b: Buffer) {
    b.frames == map[] || ((b.nextSeq.None? || b.refilling) && b.ShortOfTarget())
  }

  /** The guard of the trim on this pull: past the grace period, and above the target far or long enough. */
  predicate TrimsNow(b: Buffer) {
    Going(b).initialFill == 0 && Going(b).TrimDue(b.PullsNow())
  }

  /** Every frame sits under its own number. */
  predicate Keyed(b: Buffer) {
    forall k :: k in b.frames ==> b.frames[k].sequence == k
  }

  /** `pull` waits and touches no frame, or it plays from a buffer that is going. */
  lemma PullShape(b: Buffer)
    ensures if Waits(b)
            then b.Pull().1 == NotReady && b.Pull().0 == b.(nextSeq := b.Pull().0.nextSeq, refilling := b.Pull().0.refilling)
            else b.Pull() == Going(b).Trimmed().PlayNext()
  {
    hide Buffer.Trimmed, Buffer.PlayNext;
  }

  lemma PullBalances(b: Buffer)
    ensures var (c, pulled) := b.Pull();
            && c.stats == b.stats.(trimmed := c.stats.trimmed, lost := c.stats.lost, skipped := c.stats.skipped)
            && b.stats.trimmed <= c.stats.trimmed
            && |b.frames| == |c.frames| + (c.stats.trimmed - b.stats.trimmed) + (if pulled.Played? then 1 else 0)
            && c.frames.Keys <= b.frames.Keys
            && (forall k :: k in c.frames ==> c.frames[k] == b.frames[k])
            && c.settings == b.settings
  {
    PullShape(b);
    if !Waits(b) {
      assert Going(b).nextSeq.Some?;
      TrimBalances(Going(b));
      hide Buffer.Trimmed, Buffer.PlayNext, Buffer.Pull, Waits;
      PlayBalances(Going(b).Trimmed());
    }
  }

  lemma PushBalances(b: Buffer, frame: Frame, arrival: nat)
    requires b.settings.Usable()
    ensures var c := b.Push(frame, arrival);
            && c.stats == b.stats.(received := b.stats.received + 1, late := c.stats.late, capped := c.stats.capped,
                                   skipped := c.stats.skipped, cleared := c.stats.cleared)
            && |b.frames| + 1 == |c.frames| + (c.stats.late - b.stats.late) + (c.stats.capped - b.stats.capped)
                                 + (c.stats.cleared - b.stats.cleared)
                                 + (if Overwrites(b, frame.sequence) then 1 else 0)
  {
    var h := b.Heard(frame.timestamp, arrival);
    match b.Place(frame.sequence)
    case Late =>
    case Restart => CappedFacts(h.Cleared().(nextSeq := None, refilling := false).Inserted(frame));
    case Fits => CappedFacts(h.Inserted(frame));
  }

  /** Over any operations: what came in is what left, each way counted once, and what is held. */
  lemma {:induction false} EveryFrameAccountedFor(x: Life, ops: seq<Op>)
    requires x.b.settings.Usable() && Balanced(x)
    ensures Balanced(Run(x, ops))
  {
    if ops != [] {
      var before := Run(x, ops[..|ops| - 1]);
      EveryFrameAccountedFor(x, ops[..|ops| - 1]);
      match ops[|ops| - 1]
      case Push(frame, arrival) => PushBalances(before.b, frame, arrival);
      case Pull => PullBalances(before.b);
      case DrainAll => InOrderIsAll(before.b.frames);
      case Discard =>
      case Reset =>
    }
  }

  lemma PushKeeps(b: Buffer, frame: Frame, arrival: nat)
    requires b.settings.Usable() && |b.frames| <= b.settings.HardLimit()
    ensures var c := b.Push(frame, arrival);
            && |c.frames| <= b.settings.HardLimit()
            && forall k :: k in c.frames ==>
                 ((k == frame.sequence && c.frames[k] == frame) || (k in b.frames && c.frames[k] == b.frames[k]))
  {
    var h := b.Heard(frame.timestamp, arrival);
    match b.Place(frame.sequence)
    case Late =>
    case Restart => CappedFacts(h.Cleared().(nextSeq := None, refilling := false).Inserted(frame));
    case Fits => CappedFacts(h.Inserted(frame));
  }

  lemma PushLine(b: Buffer, frame: Frame, arrival: nat)
    requires b.settings.Usable()
    ensures var h := b.Heard(frame.timestamp, arrival);
            b.Push(frame, arrival).line == h.line && b.Push(frame, arrival).target == h.target
  {
    var h := b.Heard(frame.timestamp, arrival);
    match b.Place(frame.sequence)
    case Late =>
    case Restart => CappedFacts(h.Cleared().(nextSeq := None, refilling := false).Inserted(frame));
    case Fits => CappedFacts(h.Inserted(frame));
  }

  lemma PullLine(b: Buffer)
    ensures b.Pull().0.line == b.line && b.Pull().0.target == b.target
  {
    hide MinKey, Buffer.ShortOfTarget, WrappingSub;
  }

  predicate WellKept(b: Buffer) {
    |b.frames| <= b.settings.maxDepth + b.settings.tuning.capAboveMax && Keyed(b)
  }

  lemma DoKeepsWell(x: Life, op: Op)
    requires x.b.settings.Usable() && WellKept(x.b)
    ensures WellKept(Do(x, op).b)
  {
    hide Buffer.Pull, InOrder;
    match op
    case Push(frame, arrival) =>
      PushKeeps(x.b, frame, arrival);
      DoKeepsSettings(x, op);
      hide Buffer.Push;
    case Pull =>
      PullBalances(x.b);
    case _ =>
  }

  /** The buffer never holds more than its hard cap, and every frame sits under its own number. */
  lemma {:induction false} DepthBounded(x: Life, ops: seq<Op>)
    requires x.b.settings.Usable() && WellKept(x.b)
    ensures WellKept(Run(x, ops).b)
  {
    if ops != [] {
      DepthBounded(x, ops[..|ops| - 1]);
      DoKeepsWell(Run(x, ops[..|ops| - 1]), ops[|ops| - 1]);
    }
  }
}
